/**
 The master of master.c as a transition system: connections that deliver bytes, one of which
 may be the interface, the ledger of jobs, the stored files, and the two heartbeat threads.
 One event is what the program does between two waits for input; module Master shows that the
 code of handle_data performs exactly these steps.
 */
module MasterModel {
  import opened Options
  import opened WireFormat
  import opened FrameParser
  import opened Scheduling
  import opened Recovery
  import Detector

  /** A message passed on: from where, to where, and which connection was the interface then. */
  datatype Forward = Forward(src: int, dest: int, hub: int, frame: Frame)

  datatype Core = Core(
    ledger: Ledger,            // worker_list and task_list
    ifaceFd: int,              // interface_fd, -1 for none
    iface: Option<Node>,       // *interface
    files: map<Bytes, Bytes>,  // the temporary directory
    // histories
    submitted: seq<Task>,
    completed: seq<Task>,
    retired: seq<Node>,        // former interfaces
    forwards: seq<Forward>)

  // ---------------------------------------------------------------------------
  // Connection records
  // ---------------------------------------------------------------------------

  predicate IsIface(c: Core, fd: int) {
    c.iface.Some? && c.iface.value.fd == fd
  }

  /** The record handle_data works on for an event on `fd`. */
  function Current(c: Core, fd: int): Option<Node> {
    match FindWorker(c.ledger.workers, fd)
    case Some(w) => Some(c.ledger.workers[w])
    case None => if IsIface(c, fd) then c.iface else None
  }

  predicate Alive(c: Core, fd: int) {
    Current(c, fd).Some? && Current(c, fd).value.alive
  }

  /** Sets the two flags of that record that handle_data changes. */
  function Mark(c: Core, fd: int, alive: bool, beat: real): Core {
    match FindWorker(c.ledger.workers, fd)
    case Some(w) =>
      c.(ledger := c.ledger.(workers := c.ledger.workers[w := c.ledger.workers[w].(alive := alive, beat := beat)]))
    case None =>
      if IsIface(c, fd) then c.(iface := Some(c.iface.value.(alive := alive, beat := beat))) else c
  }

  function Kill(c: Core, fd: int): Core {
    if Current(c, fd).None? then c else Mark(c, fd, false, Current(c, fd).value.beat)
  }

  /** What reset_worker_for_parsing does besides making the parser fresh: it forgets the last beat. */
  function ForgetBeat(c: Core, fd: int): Core {
    if Current(c, fd).None? then c else Mark(c, fd, Current(c, fd).value.alive, 0.0)
  }

  // ---------------------------------------------------------------------------
  // Files
  // ---------------------------------------------------------------------------

  function Content(files: map<Bytes, Bytes>, name: Bytes): Bytes {
    if name in files then files[name] else []
  }

  function Zeros(n: nat): (z: Bytes)
    ensures |z| == n
  {
    seq(n, _ => NUL)
  }

  /** Writing at an offset: bytes already there are overwritten, a gap is filled with zeros. */
  function WriteAt(content: Bytes, at: nat, data: Bytes): Bytes {
    var base := if |content| < at then content + Zeros(at - |content|) else content;
    base[..at] + data + (if at + |data| < |base| then base[at + |data|..] else [])
  }

  function Store(c: Core, name: Bytes, at: nat, data: Bytes): Core {
    c.(files := c.files[name := WriteAt(Content(c.files, name), at, data)])
  }

  /** open with O_CREAT and O_TRUNC. */
  function Truncate(c: Core, name: Bytes): Core {
    c.(files := c.files[name := []])
  }

  // ---------------------------------------------------------------------------
  // handle_data
  // ---------------------------------------------------------------------------

  /** A header that cannot be read or makes no sense. */
  function HeaderFail(c: Core, fd: int): Core {
    var d := Kill(c, fd);
    if fd == c.ifaceFd then d.(ifaceFd := -1) else d
  }

  /** The first INTERFACE_PUT while there is no interface makes its sender the interface. */
  function Adopt(c: Core, fd: int): Core {
    match FindWorker(c.ledger.workers, fd)
    case None => c
    case Some(w) =>
      c.(ledger := c.ledger.(workers := Without(c.ledger.workers, w)),
         ifaceFd := fd,
         iface := Some(c.ledger.workers[w]),
         retired := c.retired + (if c.iface.Some? then [c.iface.value] else []))
  }

  /** A job from the interface is scheduled. */
  function SubmitJob(c: Core, fd: int, name: Bytes): Core {
    var t := Task(|c.submitted|, name);
    c.(ledger := Schedule(c.ledger, t), submitted := c.submitted + [t],
       forwards := c.forwards + [Forward(fd, ChosenFd(c.ledger), c.ifaceFd, Frame(name, Content(c.files, name)))])
  }

  /** A result from a worker takes the job off its list. */
  function AnswerJob(c: Core, fd: int, name: Bytes): Core {
    var (ledger, t) := RemoveTask(c.ledger, fd, name);
    c.(ledger := ledger, completed := c.completed + (if t.Some? then [t.value] else []),
       forwards := c.forwards + [Forward(fd, c.ifaceFd, c.ifaceFd, Frame(name, Content(c.files, name)))])
  }

  /** From FORWARD_DATA on: the message is passed on and the parser made fresh. */
  function Deliver(c: Core, fd: int, p: Phase): (Core, Phase)
    requires p.Ready?
  {
    if fd == c.ifaceFd then (ForgetBeat(SubmitJob(c, fd, p.name), fd), FRESH)
    else if Alive(c, fd) then (ForgetBeat(AnswerJob(c, fd, p.name), fd), FRESH)
    else (c, p)
  }

  function Digest(c: Core, fd: int, p: Phase, b: byte): (Core, Phase) {
    if !Alive(c, fd) || p.Overrun? || p.Ready? then (c, p)
    else
      var (q, signal) := Advance(p, b);
      match signal
      case Quiet => (c, q)
      case Malformed => (HeaderFail(c, fd), q)
      case Named(verb) => (if verb == InterfacePut && c.ifaceFd == -1 then Adopt(c, fd) else c, q)
      case Opened => (Truncate(c, q.name), q)
      case Empty => Deliver(Kill(Truncate(c, q.name), fd), fd, q)
      case Written =>
        var d := Store(c, p.name, |p.data|, [b]);
        if q.Ready? then Deliver(d, fd, q) else (d, q)
  }

  function DigestAll(c: Core, fd: int, p: Phase, s: Bytes): (Core, Phase)
    decreases |s|
  {
    if s == [] then (c, p)
    else
      var (d, q) := Digest(c, fd, p, s[0]);
      DigestAll(d, fd, q, s[1..])
  }

  lemma {:induction false} DigestInTwo(c: Core, fd: int, p: Phase, s: Bytes, t: Bytes)
    ensures DigestAll(c, fd, p, s + t) == var (d, q) := DigestAll(c, fd, p, s); DigestAll(d, fd, q, t)
    decreases |s|
  {
    if s == [] {
      assert s + t == t;
    } else {
      assert (s + t)[1..] == s[1..] + t;
      var (d, q) := Digest(c, fd, p, s[0]);
      DigestInTwo(d, fd, q, s[1..], t);
    }
  }

  /** One call of handle_data that consumes `s`, and may then see the connection fail. */
  function HandleData(c: Core, fd: int, p: Phase, s: Bytes, failed: bool): (Core, Phase) {
    if !Alive(c, fd) || p.Overrun? then (c, p)
    else if p.Ready? then Deliver(c, fd, p)
    else
      var (d, q) := DigestAll(c, fd, p, s);
      if failed && q.Header? && Alive(d, fd) then (HeaderFail(d, fd), q) else (d, q)
  }

  // ---------------------------------------------------------------------------
  // Heartbeats
  // ---------------------------------------------------------------------------

  function FindIp(workers: seq<Node>, ip: Bytes): (pos: Option<nat>)
    ensures pos.Some? ==>
      && pos.value < |workers| && workers[pos.value].ip == ip
      && forall i :: 0 <= i < pos.value ==> workers[i].ip != ip
    ensures pos.None? ==> forall i :: 0 <= i < |workers| ==> workers[i].ip != ip
  {
    FirstWhere(workers, (n: Node) => n.ip == ip)
  }

  function ReportHeartbeat(l: Ledger, ip: Bytes, cpu: real, now: real): Ledger {
    match FindIp(l.workers, ip)
    case None => l
    case Some(w) => l.(workers := l.workers[w := l.workers[w].(cpu := cpu, beat := now, alive := true)])
  }

  predicate Silent(n: Node, now: real) {
    Detector.Suspects(Detector.Watch(n.alive, n.beat), now)
  }

  function Bury(l: Ledger, i: nat): Ledger
    requires i < |l.workers|
  {
    l.(workers := l.workers[i := l.workers[i].(alive := false)])
  }

  /** The scan of detect_heart_failure from worker i on; None when reschedule leaves a list. */
  function ScanFrom(l: Ledger, i: nat, now: real): (r: Option<Ledger>)
    requires i <= |l.workers|
    ensures r.Some? ==> |r.value.workers| == |l.workers|
    decreases |l.workers| - i
  {
    if i == |l.workers| then Some(l)
    else if !Silent(l.workers[i], now) then ScanFrom(l, i + 1, now)
    else
      var dead := Bury(l, i);
      ScheduleAllGrows(dead, dead.workers[i].tasks);
      match Reschedule(dead, i)
      case None => None
      case Some(m) => ScanFrom(m, i + 1, now)
  }

  /** What reschedule sends for a job: its file, which it has just opened with O_TRUNC. */
  function Rescued(l: Ledger, t: Task): Forward {
    Forward(-1, ChosenFd(l), -1, Frame(t.name, []))
  }

  function Rescues(l: Ledger, ts: seq<Task>): (sent: seq<Forward>)
    ensures |sent| == |ts|
    decreases |ts|
  {
    if ts == [] then [] else [Rescued(l, ts[0])] + Rescues(Schedule(l, ts[0]), ts[1..])
  }

  /**
   Job k of a list goes to the worker that is best when its turn comes, and what goes there under
   its name is the job as it was stored if and only if that was nothing.
   */
  lemma {:induction false} RescuedEmpty(l: Ledger, ts: seq<Task>, k: nat, files: map<Bytes, Bytes>)
    requires k < |ts|
    ensures var f, name := Rescues(l, ts)[k], ts[k].name;
      && f.dest == ChosenFd(ScheduleAll(l, ts[..k])) && f.frame.name == name
      && (f.frame.payload == Content(files, name) <==> Content(files, name) == [])
    decreases |ts|
  {
    if k > 0 {
      RescuedEmpty(Schedule(l, ts[0]), ts[1..], k - 1, files);
      assert ts[..k][1..] == ts[1..][..k - 1];
    }
  }

  /** What the scan sends from worker i on, up to the list that reschedule leaves if it leaves one. */
  function ScanRescues(l: Ledger, i: nat, now: real): seq<Forward>
    requires i <= |l.workers|
    decreases |l.workers| - i
  {
    if i == |l.workers| then []
    else if !Silent(l.workers[i], now) then ScanRescues(l, i + 1, now)
    else
      var dead := Bury(l, i);
      ScheduleAllGrows(dead, dead.workers[i].tasks);
      Rescues(dead, dead.workers[i].tasks)
        + match Reschedule(dead, i)
          case None => []
          case Some(m) => ScanRescues(m, i + 1, now)
  }

  /** The files once those of the messages have been opened with O_TRUNC. */
  function Reopened(files: map<Bytes, Bytes>, sent: seq<Forward>): map<Bytes, Bytes>
    decreases |sent|
  {
    if sent == [] then files else Reopened(files[sent[0].frame.name := []], sent[1..])
  }

  lemma {:induction false} ReopenedInTwo(files: map<Bytes, Bytes>, a: seq<Forward>, b: seq<Forward>)
    ensures Reopened(files, a + b) == Reopened(Reopened(files, a), b)
    decreases |a|
  {
    if a == [] {
      assert a + b == b;
    } else {
      assert (a + b)[1..] == a[1..] + b;
      ReopenedInTwo(files[a[0].frame.name := []], a[1..], b);
    }
  }

  /** A scan as it is meant, over the first k workers: each silent one is buried and its jobs handed out. */
  function IntendedScan(l: Ledger, k: nat, now: real): (r: Ledger)
    requires k <= |l.workers|
    ensures |r.workers| == |l.workers|
  {
    if k == 0 then l
    else
      var m := IntendedScan(l, k - 1, now);
      if Silent(m.workers[k - 1], now) then HandedOut(Bury(m, k - 1), k - 1) else m
  }

  // ---------------------------------------------------------------------------
  // Runs
  // ---------------------------------------------------------------------------

  datatype Master = Master(core: Core, phases: map<int, Phase>)

  datatype Event =
    | Accept(fd: int, ip: Bytes)
    | Data(fd: int, bytes: Bytes, failed: bool)
    | Beat(ip: Bytes, cpu: real, now: real)
    | Scan(now: real)
    | Redistribute(now: real)                    // a scan as it is meant
    | Recover                                    // a call of checkOnNodes

  /** accept hands out descriptors that are not in use. */
  predicate Possible(m: Master, e: Event) {
    match e
    case Accept(fd, _) => fd >= 0 && FindWorker(m.core.ledger.workers, fd).None? && fd != m.core.ifaceFd
    case Data(fd, _, _) => fd in m.phases
    case _ => true
  }

  function WithLedger(m: Master, l: Ledger): Master {
    m.(core := m.core.(ledger := l))
  }

  function NewNode(fd: int, ip: Bytes): Node {
    Node(fd, ip, true, -1.0, 0.0, [])
  }

  /** None when the program leaves the memory it owns. */
  function Apply(m: Master, e: Event): Option<Master>
    requires Possible(m, e)
  {
    var l := m.core.ledger;
    match e
    case Accept(fd, ip) =>
      Some(WithLedger(m, l.(workers := l.workers + [NewNode(fd, ip)])).(phases := m.phases[fd := FRESH]))
    case Data(fd, s, failed) =>
      var (d, q) := HandleData(m.core, fd, m.phases[fd], s, failed);
      if q.Overrun? then None else Some(Master(d, m.phases[fd := q]))
    case Beat(ip, cpu, now) => Some(WithLedger(m, ReportHeartbeat(l, ip, cpu, now)))
    case Scan(now) =>
      (match ScanFrom(l, 0, now)
       case None => None
       case Some(n) =>
         Some(m.(core := m.core.(ledger := n, files := Reopened(m.core.files, ScanRescues(l, 0, now))))))
    case Redistribute(now) => Some(WithLedger(m, IntendedScan(l, |l.workers|, now)))
    case Recover => Some(WithLedger(m, CheckOnNodes(l)))
  }

  const START: Master := Master(Core(Ledger([], []), -1, None, map[], [], [], [], []), map[])

  ghost predicate Leads(m: Master, e: Event, n: Master) {
    Possible(m, e) && Apply(m, e) == Some(n)
  }

  /** `n` is reached from `m` by the events, in order. */
  ghost predicate Reaches(m: Master, events: seq<Event>, n: Master)
    decreases |events|
  {
    if events == [] then n == m
    else
      && Possible(m, events[0])
      && Apply(m, events[0]).Some?
      && Reaches(Apply(m, events[0]).value, events[1..], n)
  }

  lemma {:induction false} OneMoreEvent(m: Master, events: seq<Event>, n: Master, e: Event, o: Master)
    requires Reaches(m, events, n) && Leads(n, e, o)
    ensures Reaches(m, events + [e], o)
    decreases |events|
  {
    if events == [] {
      assert [e][1..] == [];
    } else {
      assert (events + [e])[1..] == events[1..] + [e];
      OneMoreEvent(Apply(m, events[0]).value, events[1..], n, e, o);
    }
  }
}
