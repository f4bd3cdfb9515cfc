/**
 Calls of handle_data one after the other: what a stream of bytes comes to in the master, however
 it was cut into pieces.
 */
module Relay {
  import opened Options
  import opened WireFormat
  import opened FrameParser
  import opened Scheduling
  import opened Recovery
  import opened MasterModel
  import opened MasterInvariants
  import opened Isolation
  import opened MasterSteps
  import opened Handouts

  // ---------------------------------------------------------------------------
  // Pieces
  // ---------------------------------------------------------------------------

  /** One call of handle_data after another, each consuming one piece. */
  function Calls(c: Core, fd: int, p: Phase, pieces: seq<Bytes>): (Core, Phase)
    decreases |pieces|
  {
    if pieces == [] then (c, p)
    else
      var (d, q) := HandleData(c, fd, p, pieces[0], false);
      Calls(d, fd, q, pieces[1..])
  }

  /** A complete message is never left waiting on a connection that is alive. */
  predicate Settled(c: Core, fd: int, p: Phase) {
    p.Ready? ==> !Alive(c, fd)
  }

  lemma DigestSettles(c: Core, fd: int, p: Phase, b: byte)
    requires Roles(c) && AllRouted(c) && fd >= 0 && Settled(c, fd, p)
    ensures Settled(Digest(c, fd, p, b).0, fd, Digest(c, fd, p, b).1)
  {
    if Alive(c, fd) && !p.Overrun? {
      var (q, signal) := Advance(p, b);
      if signal == Empty {
        var d := Truncate(c, q.name);
        FilesAndRoles(c, d.files, fd);
        MarkKeepsRoles(d, fd, false, Current(d, fd).value.beat);
        AliveAfterMark(d, fd, false, Current(d, fd).value.beat, fd);
        DeliverHere(Kill(d, fd), fd, q);
      } else if signal == Written && q.Ready? {
        var d := Store(c, p.name, |p.data|, [b]);
        FilesAndRoles(c, d.files, fd);
        DeliverHere(d, fd, q);
      }
    }
  }

  lemma {:induction false} DigestAllSettles(c: Core, fd: int, p: Phase, s: Bytes)
    requires Roles(c) && AllRouted(c) && fd >= 0 && Settled(c, fd, p)
    ensures Settled(DigestAll(c, fd, p, s).0, fd, DigestAll(c, fd, p, s).1)
    decreases |s|
  {
    if s != [] {
      var (d, q) := Digest(c, fd, p, s[0]);
      DigestSettles(c, fd, p, s[0]);
      DigestKeepsRoles(c, fd, p, s[0]);
      DigestAllSettles(d, fd, q, s[1..]);
    }
  }

  lemma {:induction false} DeafDigest(c: Core, fd: int, p: Phase, s: Bytes)
    requires !Alive(c, fd) || p.Overrun?
    ensures DigestAll(c, fd, p, s) == (c, p)
    decreases |s|
  {
    if s != [] {
      DeafDigest(c, fd, p, s[1..]);
    }
  }

  lemma OneCall(c: Core, fd: int, p: Phase, s: Bytes)
    requires Settled(c, fd, p)
    ensures HandleData(c, fd, p, s, false) == DigestAll(c, fd, p, s)
  {
    if !Alive(c, fd) || p.Overrun? {
      DeafDigest(c, fd, p, s);
    }
  }

  /**
   Fragmentation independence inside the master: whatever pieces a stream is cut into, the
   calls of handle_data that consume them leave the master, its files, its ledger and the
   connection as one uninterrupted reading would.
   */
  lemma {:induction false} PiecesDoNotMatter(c: Core, fd: int, p: Phase, pieces: seq<Bytes>)
    requires Roles(c) && AllRouted(c) && fd >= 0 && Settled(c, fd, p)
    ensures Calls(c, fd, p, pieces) == DigestAll(c, fd, p, Flatten(pieces))
    decreases |pieces|
  {
    if pieces != [] {
      var (d, q) := DigestAll(c, fd, p, pieces[0]);
      OneCall(c, fd, p, pieces[0]);
      DigestAllSettles(c, fd, p, pieces[0]);
      DigestAllKeepsRoles(c, fd, p, pieces[0]);
      PiecesDoNotMatter(d, fd, q, pieces[1..]);
      DigestInTwo(c, fd, p, pieces[0], Flatten(pieces[1..]));
    }
  }

  // ---------------------------------------------------------------------------
  // A stream of messages through the master
  // ---------------------------------------------------------------------------

  lemma {:induction false} AloneInside(c: Core, fd: int, p: Phase, conn: Conn, s: Bytes)
    requires Roles(c) && AllRouted(c) && fd >= 0 && Mirrors(c, p, conn, fd)
    ensures var (d, q) := DigestAll(c, fd, p, s); Mirrors(d, q, ReceiveAll(conn, s), fd)
    decreases |s|
  {
    if s != [] {
      var (d, q) := Digest(c, fd, p, s[0]);
      DigestHere(c, fd, p, s[0], conn);
      DigestKeepsRoles(c, fd, p, s[0]);
      AloneInside(d, fd, q, Receive(conn, s[0]), s[1..]);
    }
  }

  /**
   However a run of well-formed messages is cut into pieces, and whatever verbs it came with,
   exactly its messages are passed on, in order, and the parser ends as new.  What is written
   for them, and where, is the subject of module EventLoop.
   */
  lemma RelayOfStream(c: Core, fd: int, ms: seq<Message>, pieces: seq<Bytes>)
    requires Roles(c) && AllRouted(c) && fd >= 0 && Alive(c, fd)
    requires forall i :: 0 <= i < |ms| ==> WellFormed(ms[i])
    requires Flatten(pieces) == PrintAll(ms)
    ensures var (d, q) := Calls(c, fd, FRESH, pieces);
      && q == FRESH && Alive(d, fd)
      && FramesFrom(d.forwards, fd) == FramesFrom(c.forwards, fd) + FramesOf(ms)
  {
    var known := FramesFrom(c.forwards, fd);
    PiecesDoNotMatter(c, fd, FRESH, pieces);
    AloneInside(c, fd, FRESH, Conn(FRESH, true, known), PrintAll(ms));
    StreamIsRead(known, ms);
  }

  // ---------------------------------------------------------------------------
  // Who gets what
  // ---------------------------------------------------------------------------

  /** The state once the payload of a message has been stored. */
  function Received(c: Core, f: Frame): Core {
    StoreBlock(Truncate(c, f.name), f.name, 0, f.payload)
  }

  lemma ReceivedContent(c: Core, f: Frame)
    ensures Content(Received(c, f).files, f.name) == f.payload
    ensures Received(c, f) == c.(files := Received(c, f).files)
  {
    assert WriteAt([], 0, f.payload) == f.payload;
  }

  lemma PartsDelivered(c: Core, fd: int, line: Bytes, verb: Verb, f: Frame, word: Bytes)
    requires Alive(c, fd) && NEWLINE !in line && |line| < COMMAND_BUF_SIZE
    requires ParseHeader(line) == Some((verb, f.name)) && (verb == InterfacePut ==> c.ifaceFd != -1)
    requires |word| == SIZE_BYTES && Decode(word) == |f.payload| > 0
    ensures DigestAll(c, fd, FRESH, line + [NEWLINE] + word + f.payload)
         == Deliver(Received(c, f), fd, Ready(f.name, f.payload))
  {
    var d, n := Truncate(c, f.name), |f.payload|;
    assert [] + line == line && [] + word == word && [] + f.payload == f.payload;
    HeaderTakes(c, fd, [], line, c, Size(f.name, []));
    SizeTakes(c, fd, f.name, [], word);
    TakesTwice(c, fd, FRESH, line + [NEWLINE], c, Size(f.name, []), word, d, Payload(f.name, n, []));
    AliveWithFiles(c, d.files, fd);
    PayloadCompletes(d, fd, f.name, [], f.payload);
    TakesThenCompletes(c, fd, FRESH, line + [NEWLINE] + word, d, Payload(f.name, n, []),
                       f.payload, Received(c, f), Ready(f.name, f.payload));
    CallCompletes(c, fd, FRESH, line + [NEWLINE] + word + f.payload, Received(c, f), Ready(f.name, f.payload));
  }

  /** A printed message is stored and delivered, unless it makes its sender the interface first. */
  lemma MessageDelivered(c: Core, fd: int, m: Message)
    requires Alive(c, fd) && WellFormed(m) && (m.verb == InterfacePut ==> c.ifaceFd != -1)
    ensures DigestAll(c, fd, FRESH, Print(m.verb, m.frame))
         == Deliver(Received(c, m.frame), fd, Ready(m.frame.name, m.frame.payload))
  {
    HeaderRoundTrip(m.verb, m.frame.name);
    DecodeEncode(|m.frame.payload|, SIZE_BYTES);
    PartsDelivered(c, fd, HeaderText(m.verb, m.frame.name), m.verb, m.frame, EncodeSize(|m.frame.payload|));
  }

  lemma ForgetKeepsLedger(c: Core, fd: int)
    requires FindWorker(c.ledger.workers, fd).None?
    ensures ForgetBeat(c, fd) == c.(iface := ForgetBeat(c, fd).iface)
  {
  }

  /** The next job, numbered n. */
  function NextTask(n: nat, m: Message): Task {
    Task(n, m.frame.name)
  }

  lemma JobDelivered(c: Core, fd: int, m: Message, g: int)
    requires Roles(c) && AllRouted(c) && fd == c.ifaceFd >= 0 && Alive(c, fd) && WellFormed(m)
    ensures var (d, q) := DigestAll(c, fd, FRESH, Print(m.verb, m.frame));
      var t := NextTask(|c.submitted|, m);
      && q == FRESH && Roles(d) && AllRouted(d) && d.ifaceFd == fd && Alive(d, g) == Alive(c, g)
      && d.ledger == Schedule(c.ledger, t) && d.submitted == c.submitted + [t] && d.completed == c.completed
      && d.forwards == c.forwards + [Forward(fd, ChosenFd(c.ledger), fd, m.frame)]
  {
    var e := Received(c, m.frame);
    MessageDelivered(c, fd, m);
    ReceivedContent(c, m.frame);
    FilesAndRoles(c, e.files, g);
    SubmitKeepsRoles(e, m.frame.name);
    ForgetBeatKeepsRoles(SubmitJob(e, fd, m.frame.name), fd);
    SubmitSeenFrom(e, fd, m.frame.name, g);
    ForgetKeepsLedger(SubmitJob(e, fd, m.frame.name), fd);
  }

  // ---------------------------------------------------------------------------
  // What an answer does
  // ---------------------------------------------------------------------------

  /** A list without the first job of a name, and that job if there is one. */
  function TakeFirst(tasks: seq<Task>, name: Bytes): (r: (seq<Task>, seq<Task>)) {
    if tasks == [] then ([], [])
    else if tasks[0].name == name then (tasks[1..], [tasks[0]])
    else
      var (rest, taken) := TakeFirst(tasks[1..], name);
      ([tasks[0]] + rest, taken)
  }

  /** Position k is the first job of that name. */
  predicate FirstOfName(tasks: seq<Task>, name: Bytes, k: nat) {
    k < |tasks| && tasks[k].name == name && forall i :: 0 <= i < k ==> tasks[i].name != name
  }

  /** The list loses exactly the position of the first job of that name. */
  lemma {:induction false} TakeFirstAt(tasks: seq<Task>, name: Bytes, k: nat)
    requires FirstOfName(tasks, name, k)
    ensures TakeFirst(tasks, name) == (tasks[..k] + tasks[k + 1..], [tasks[k]])
    decreases k
  {
    if k > 0 {
      var rest := tasks[1..];
      assert FirstOfName(rest, name, k - 1);
      TakeFirstAt(rest, name, k - 1);
      assert tasks[..k] == [tasks[0]] + rest[..k - 1] && rest[k..] == tasks[k + 1..];
      Shifted(tasks[0], rest[..k - 1], rest[k..]);
    } else {
      assert tasks[..0] + tasks[1..] == tasks[1..];
    }
  }

  lemma Shifted(t: Task, a: seq<Task>, b: seq<Task>)
    ensures [t] + (a + b) == [t] + a + b
  {
  }

  /** Or nothing, when it has none. */
  lemma {:induction false} TakeFirstNone(tasks: seq<Task>, name: Bytes)
    requires forall i :: 0 <= i < |tasks| ==> tasks[i].name != name
    ensures TakeFirst(tasks, name) == (tasks, [])
  {
    if tasks != [] {
      TakeFirstNone(tasks[1..], name);
      assert [tasks[0]] + tasks[1..] == tasks;
    }
  }

  /** The list of a worker once answers with these names have come from it, and the jobs they took off, in order. */
  function Answered(tasks: seq<Task>, names: seq<Bytes>): (seq<Task>, seq<Task>)
    decreases |names|
  {
    if names == [] then (tasks, [])
    else
      var (rest, taken) := TakeFirst(tasks, names[0]);
      var (left, done) := Answered(rest, names[1..]);
      (left, taken + done)
  }

  /** The record of worker fd has this list and this beat, and every other record is what it was. */
  ghost predicate OnlyOf(before: seq<Node>, after: seq<Node>, fd: int, tasks: seq<Task>, beat: real) {
    && |after| == |before|
    && forall i :: 0 <= i < |before| ==>
         after[i] == if before[i].fd == fd then before[i].(tasks := tasks, beat := beat) else before[i]
  }

  lemma RemovedIs(l: Ledger, fd: int, name: Bytes)
    requires FdsDistinct(l.workers) && FindWorker(l.workers, fd).Some?
    ensures var (m, t) := RemoveTask(l, fd, name);
      var n := RecordOf(l.workers, fd);
      var (rest, taken) := TakeFirst(n.tasks, name);
      && OnlyOf(l.workers, m.workers, fd, rest, n.beat) && m.pending == l.pending
      && taken == if t.Some? then [t.value] else []
  {
    var tasks := RecordOf(l.workers, fd).tasks;
    match FindTask(tasks, name)
    case None => TakeFirstNone(tasks, name);
    case Some(k) => TakeFirstAt(tasks, name, k);
  }

  lemma ForgottenIs(c: Core, fd: int)
    requires FdsDistinct(c.ledger.workers) && FindWorker(c.ledger.workers, fd).Some?
    ensures var d := ForgetBeat(c, fd);
      && OnlyOf(c.ledger.workers, d.ledger.workers, fd, RecordOf(c.ledger.workers, fd).tasks, 0.0)
      && d.ledger.pending == c.ledger.pending && d.completed == c.completed && d.submitted == c.submitted
  {
  }

  lemma OnlyOfTwice(a: seq<Node>, b: seq<Node>, c: seq<Node>, fd: int, ts: seq<Task>, t: real, us: seq<Task>, u: real)
    requires OnlyOf(a, b, fd, ts, t) && OnlyOf(b, c, fd, us, u)
    ensures OnlyOf(a, c, fd, us, u)
    ensures FindWorker(a, fd) == FindWorker(b, fd)
    ensures FindWorker(a, fd).Some? ==> RecordOf(b, fd).tasks == ts && RecordOf(b, fd).beat == t
  {
    SamePosition(a, b, fd);
  }

  /** A live connection other than the interface is a worker's. */
  lemma LiveWorkerIsListed(c: Core, fd: int)
    requires Roles(c) && Alive(c, fd) && fd != c.ifaceFd
    ensures FindWorker(c.ledger.workers, fd).Some?
  {
  }

  /**
   What the answers of these names from worker fd took the ledger from c to d: each took the first
   job of its name off fd's list and completed it, or nothing if there was none; the last beat is
   forgotten with the first of them; nothing else changed.
   */
  ghost predicate AnswersTaken(c: Core, fd: int, names: seq<Bytes>, d: Core) {
    && FindWorker(c.ledger.workers, fd).Some?
    && var n := RecordOf(c.ledger.workers, fd);
       var (left, done) := Answered(n.tasks, names);
       && OnlyOf(c.ledger.workers, d.ledger.workers, fd, left, if names == [] then n.beat else 0.0)
       && d.ledger.pending == c.ledger.pending && d.submitted == c.submitted && d.completed == c.completed + done
  }

  lemma AnswerTakes(c: Core, fd: int, name: Bytes)
    requires Roles(c) && FindWorker(c.ledger.workers, fd).Some?
    ensures AnswersTaken(c, fd, [name], ForgetBeat(AnswerJob(c, fd, name), fd))
  {
    var d := AnswerJob(c, fd, name);
    var n := RecordOf(c.ledger.workers, fd);
    var (rest, taken) := TakeFirst(n.tasks, name);
    RemovedIs(c.ledger, fd, name);
    RemoveSameFds(c.ledger, fd, name);
    SameFdsFound(c.ledger.workers, d.ledger.workers, fd);
    ForgottenIs(d, fd);
    OnlyOfTwice(c.ledger.workers, d.ledger.workers, ForgetBeat(d, fd).ledger.workers, fd, rest, n.beat, rest, 0.0);
    assert [name][1..] == [] && taken + [] == taken;
    assert Answered(n.tasks, [name]) == (rest, taken);
  }

  lemma AnswersInTwo(c: Core, fd: int, name: Bytes, d: Core, rest: seq<Bytes>, e: Core)
    requires AnswersTaken(c, fd, [name], d) && AnswersTaken(d, fd, rest, e)
    ensures AnswersTaken(c, fd, [name] + rest, e)
  {
    var n := RecordOf(c.ledger.workers, fd);
    var (once, taken) := TakeFirst(n.tasks, name);
    assert [name][1..] == [] && taken + [] == taken;
    assert Answered(n.tasks, [name]) == (once, taken);
    var (left, done) := Answered(once, rest);
    assert ([name] + rest)[1..] == rest;
    OnlyOfTwice(c.ledger.workers, d.ledger.workers, e.ledger.workers, fd, once, 0.0,
                left, if rest == [] then RecordOf(d.ledger.workers, fd).beat else 0.0);
    assert c.completed + taken + done == c.completed + (taken + done);
  }

  lemma ResultDelivered(c: Core, fd: int, m: Message, g: int)
    requires Roles(c) && AllRouted(c) && fd >= 0 && fd != c.ifaceFd && Alive(c, fd) && WellFormed(m)
    requires m.verb == InterfacePut ==> c.ifaceFd != -1
    ensures var (d, q) := DigestAll(c, fd, FRESH, Print(m.verb, m.frame));
      && q == FRESH && Roles(d) && AllRouted(d) && d.ifaceFd == c.ifaceFd && Alive(d, g) == Alive(c, g)
      && d.forwards == c.forwards + [Forward(fd, c.ifaceFd, c.ifaceFd, m.frame)]
      && AnswersTaken(c, fd, [m.frame.name], d)
  {
    LiveWorkerIsListed(c, fd);
    AnswerTakes(Received(c, m.frame), fd, m.frame.name);
    var e := Received(c, m.frame);
    MessageDelivered(c, fd, m);
    ReceivedContent(c, m.frame);
    FilesAndRoles(c, e.files, g);
    FilesAndRoles(c, e.files, fd);
    AnswerKeepsRoles(e, fd, m.frame.name);
    ForgetBeatKeepsRoles(AnswerJob(e, fd, m.frame.name), fd);
    AnswerSeenFrom(e, fd, m.frame.name, g);
  }

  function TasksOf(n: nat, ms: seq<Message>): seq<Task>
    decreases |ms|
  {
    if ms == [] then [] else [NextTask(n, ms[0])] + TasksOf(n + 1, ms[1..])
  }

  /** Where the jobs of an interface go: each to the worker that is best when its turn comes. */
  function JobsOf(l: Ledger, n: nat, fd: int, ms: seq<Message>): seq<Forward>
    decreases |ms|
  {
    if ms == [] then []
    else [Forward(fd, ChosenFd(l), fd, ms[0].frame)] + JobsOf(Schedule(l, NextTask(n, ms[0])), n + 1, fd, ms[1..])
  }

  /** Where the results of a worker go. */
  function ResultsOf(fd: int, iface: int, ms: seq<Message>): seq<Forward>
    decreases |ms|
  {
    if ms == [] then [] else [Forward(fd, iface, iface, ms[0].frame)] + ResultsOf(fd, iface, ms[1..])
  }

  /** The jobs `ms` took the master from c to d. */
  ghost predicate JobsDone(c: Core, fd: int, ms: seq<Message>, d: Core, g: int) {
    && d.ifaceFd == fd && Alive(d, g) == Alive(c, g)
    && d.ledger == ScheduleAll(c.ledger, TasksOf(|c.submitted|, ms))
    && d.submitted == c.submitted + TasksOf(|c.submitted|, ms) && d.completed == c.completed
    && d.forwards == c.forwards + JobsOf(c.ledger, |c.submitted|, fd, ms)
  }

  lemma JobsInTwo(c: Core, fd: int, ms: seq<Message>, d: Core, e: Core, g: int)
    requires ms != [] && JobsDone(d, fd, ms[1..], e, g) && Alive(d, g) == Alive(c, g)
    requires d.ledger == Schedule(c.ledger, NextTask(|c.submitted|, ms[0])) && d.completed == c.completed
    requires d.submitted == c.submitted + [NextTask(|c.submitted|, ms[0])]
    requires d.forwards == c.forwards + [Forward(fd, ChosenFd(c.ledger), fd, ms[0].frame)]
    ensures JobsDone(c, fd, ms, e, g)
  {
    var t, n := NextTask(|c.submitted|, ms[0]), |d.submitted|;
    assert ([t] + TasksOf(n, ms[1..]))[1..] == TasksOf(n, ms[1..]);
    var f, rest := Forward(fd, ChosenFd(c.ledger), fd, ms[0].frame), JobsOf(d.ledger, n, fd, ms[1..]);
    assert c.forwards + [f] + rest == c.forwards + ([f] + rest);
    assert c.submitted + [t] + TasksOf(n, ms[1..]) == c.submitted + ([t] + TasksOf(n, ms[1..]));
  }

  /** A run of jobs is handed out as the greedy schedule has it. */
  lemma {:induction false} JobsRelayed(c: Core, fd: int, ms: seq<Message>, g: int)
    requires Roles(c) && AllRouted(c) && fd == c.ifaceFd >= 0 && Alive(c, fd)
    requires forall i :: 0 <= i < |ms| ==> WellFormed(ms[i])
    ensures DigestAll(c, fd, FRESH, PrintAll(ms)).1 == FRESH
    ensures JobsDone(c, fd, ms, DigestAll(c, fd, FRESH, PrintAll(ms)).0, g)
    decreases |ms|
  {
    if ms == [] {
      assert c.forwards + [] == c.forwards && c.submitted + [] == c.submitted;
    } else {
      var d := DigestAll(c, fd, FRESH, Print(ms[0].verb, ms[0].frame)).0;
      JobDelivered(c, fd, ms[0], fd);
      JobDelivered(c, fd, ms[0], g);
      DigestInTwo(c, fd, FRESH, Print(ms[0].verb, ms[0].frame), PrintAll(ms[1..]));
      JobsRelayed(d, fd, ms[1..], g);
      JobsInTwo(c, fd, ms, d, DigestAll(d, fd, FRESH, PrintAll(ms[1..])).0, g);
    }
  }

  /** The master once `fd` is the interface: it may become that with its first header. */
  function WithInterface(c: Core, fd: int): Core {
    if c.ifaceFd == -1 then Adopt(c, fd) else c
  }

  lemma PartsAdopt(c: Core, fd: int, line: Bytes, name: Bytes, rest: Bytes)
    requires Roles(c) && Alive(c, fd) && fd >= 0 && c.ifaceFd == -1
    requires NEWLINE !in line && |line| < COMMAND_BUF_SIZE && ParseHeader(line) == Some((InterfacePut, name))
    ensures DigestAll(c, fd, FRESH, line + [NEWLINE] + rest)
         == DigestAll(Adopt(c, fd), fd, FRESH, line + [NEWLINE] + rest)
  {
    assert [] + line == line;
    AdoptKeepsRoles(c, fd);
    AliveAfterAdopt(c, fd, fd);
    HeaderTakes(c, fd, [], line, Adopt(c, fd), Size(name, []));
    HeaderTakes(Adopt(c, fd), fd, [], line, Adopt(c, fd), Size(name, []));
    Continue(c, fd, FRESH, line + [NEWLINE], Adopt(c, fd), Size(name, []), rest);
    Continue(Adopt(c, fd), fd, FRESH, line + [NEWLINE], Adopt(c, fd), Size(name, []), rest);
  }

  /** A run that makes its sender the interface is the same as one from the interface. */
  lemma FirstMessageAdopts(c: Core, fd: int, ms: seq<Message>)
    requires Roles(c) && Alive(c, fd) && fd >= 0 && c.ifaceFd == -1
    requires ms != [] && WellFormed(ms[0]) && ms[0].verb == InterfacePut
    ensures DigestAll(c, fd, FRESH, PrintAll(ms)) == DigestAll(Adopt(c, fd), fd, FRESH, PrintAll(ms))
  {
    var f := ms[0].frame;
    var line, rest := HeaderText(InterfacePut, f.name), EncodeSize(|f.payload|) + f.payload + PrintAll(ms[1..]);
    HeaderRoundTrip(InterfacePut, f.name);
    PartsAdopt(c, fd, line, f.name, rest);
    Grouped(line + [NEWLINE], EncodeSize(|f.payload|), f.payload, PrintAll(ms[1..]));
  }

  lemma Grouped(a: Bytes, b: Bytes, c: Bytes, d: Bytes)
    ensures a + b + c + d == a + (b + c + d)
  {
  }

  /** The sender of a run of jobs is the interface, or becomes it with the first of them. */
  predicate Submits(c: Core, fd: int, ms: seq<Message>) {
    fd == c.ifaceFd || (c.ifaceFd == -1 && ms != [] && ms[0].verb == InterfacePut)
  }

  lemma JobsFromInterface(c: Core, fd: int, ms: seq<Message>, g: int)
    requires Roles(c) && AllRouted(c) && fd >= 0 && g >= 0 && Alive(c, fd) && Submits(c, fd, ms)
    requires forall i :: 0 <= i < |ms| ==> WellFormed(ms[i])
    ensures DigestAll(c, fd, FRESH, PrintAll(ms)).1 == FRESH
    ensures JobsDone(WithInterface(c, fd), fd, ms, DigestAll(c, fd, FRESH, PrintAll(ms)).0, g)
    ensures Alive(WithInterface(c, fd), g) == Alive(c, g) && WithInterface(c, fd).forwards == c.forwards
  {
    if c.ifaceFd == -1 {
      AdoptKeepsRoles(c, fd);
      AliveAfterAdopt(c, fd, fd);
      AliveAfterAdopt(c, fd, g);
      FirstMessageAdopts(c, fd, ms);
    }
    JobsRelayed(WithInterface(c, fd), fd, ms, g);
  }

  function NamesOf(ms: seq<Message>): (names: seq<Bytes>)
    ensures |names| == |ms|
  {
    seq(|ms|, i requires 0 <= i < |ms| => ms[i].frame.name)
  }

  /** The results `ms` took the master from c to d. */
  ghost predicate ResultsDone(c: Core, fd: int, ms: seq<Message>, d: Core, g: int) {
    && d.ifaceFd == c.ifaceFd && Alive(d, g) == Alive(c, g)
    && d.forwards == c.forwards + ResultsOf(fd, c.ifaceFd, ms)
    && AnswersTaken(c, fd, NamesOf(ms), d)
  }

  lemma ResultsInTwo(c: Core, fd: int, ms: seq<Message>, d: Core, e: Core, g: int)
    requires ms != [] && ResultsDone(d, fd, ms[1..], e, g) && Alive(d, g) == Alive(c, g)
    requires d.ifaceFd == c.ifaceFd && d.forwards == c.forwards + [Forward(fd, c.ifaceFd, c.ifaceFd, ms[0].frame)]
    requires AnswersTaken(c, fd, [ms[0].frame.name], d)
    ensures ResultsDone(c, fd, ms, e, g)
  {
    AnswersInTwo(c, fd, ms[0].frame.name, d, NamesOf(ms[1..]), e);
    assert NamesOf(ms) == [ms[0].frame.name] + NamesOf(ms[1..]);
    var f, rest := Forward(fd, c.ifaceFd, c.ifaceFd, ms[0].frame), ResultsOf(fd, c.ifaceFd, ms[1..]);
    assert c.forwards + [f] + rest == c.forwards + ([f] + rest);
  }

  /** A run of results goes to the interface. */
  lemma {:induction false} ResultsRelayed(c: Core, fd: int, ms: seq<Message>, g: int)
    requires Roles(c) && AllRouted(c) && fd >= 0 && fd != c.ifaceFd && Alive(c, fd)
    requires forall i :: 0 <= i < |ms| ==> WellFormed(ms[i]) && (ms[i].verb == InterfacePut ==> c.ifaceFd != -1)
    ensures DigestAll(c, fd, FRESH, PrintAll(ms)).1 == FRESH
    ensures ResultsDone(c, fd, ms, DigestAll(c, fd, FRESH, PrintAll(ms)).0, g)
    decreases |ms|
  {
    if ms == [] {
      LiveWorkerIsListed(c, fd);
      assert c.forwards + [] == c.forwards && c.completed + [] == c.completed;
    } else {
      var d := DigestAll(c, fd, FRESH, Print(ms[0].verb, ms[0].frame)).0;
      ResultDelivered(c, fd, ms[0], fd);
      ResultDelivered(c, fd, ms[0], g);
      DigestInTwo(c, fd, FRESH, Print(ms[0].verb, ms[0].frame), PrintAll(ms[1..]));
      ResultsRelayed(d, fd, ms[1..], g);
      ResultsInTwo(c, fd, ms, d, DigestAll(d, fd, FRESH, PrintAll(ms[1..])).0, g);
    }
  }
}
