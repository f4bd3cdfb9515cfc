/**
 Connections do not disturb one another: whatever the interleaving, each one's messages come
 out as if it had been alone, as long as no two of them hold the same file name at a time.
 */
module Isolation {
  import opened Options
  import opened WireFormat
  import opened FrameParser
  import opened Scheduling
  import opened Recovery
  import opened MasterModel
  import opened MasterInvariants

  /** What can happen next: a byte arrives on a connection, or one of the master's other events occurs. */
  datatype Happening = Arrives(fd: int, b: byte) | Occurs(e: Event)

  /** Of the events that bring data only a failed read is one by itself; the bytes come one by one. */
  predicate CanHappen(m: Master, x: Happening) {
    match x
    case Arrives(fd, _) => fd in m.phases
    case Occurs(e) => Possible(m, e) && Apply(m, e).Some? && (e.Data? ==> e.bytes == [] && e.failed)
  }

  function Step(m: Master, x: Happening): Master
    requires CanHappen(m, x)
  {
    match x
    case Arrives(fd, b) =>
      var (d, q) := Digest(m.core, fd, m.phases[fd], b);
      Master(d, m.phases[fd := q])
    case Occurs(e) => Apply(m, e).value
  }

  /** What a connection notices itself: a byte, or a failed read. */
  datatype Own = Got(b: byte) | Lost

  /** The failed read of a header ends a connection's life. */
  function Notice(c: Conn, o: Own): Conn {
    match o
    case Got(b) => Receive(c, b)
    case Lost => if Listening(c) && c.phase.Header? then c.(alive := false) else c
  }

  function NoticeAll(c: Conn, os: seq<Own>): Conn
    decreases |os|
  {
    if os == [] then c else NoticeAll(Notice(c, os[0]), os[1..])
  }

  /** What of that a happening means for one connection. */
  function Of(x: Happening, fd: int): seq<Own> {
    match x
    case Arrives(g, b) => if g == fd then [Got(b)] else []
    case Occurs(e) => if e.Data? && e.fd == fd then [Lost] else []
  }

  function On(xs: seq<Happening>, fd: int): seq<Own> {
    if xs == [] then [] else Of(xs[0], fd) + On(xs[1..], fd)
  }

  /** The messages passed on for one connection. */
  function FramesFrom(forwards: seq<Forward>, fd: int): seq<Frame> {
    if forwards == [] then []
    else
      var n := |forwards| - 1;
      FramesFrom(forwards[..n], fd) + (if forwards[n].src == fd then [forwards[n].frame] else [])
  }

  lemma OneMoreForward(forwards: seq<Forward>, f: Forward, fd: int)
    ensures FramesFrom(forwards + [f], fd) == FramesFrom(forwards, fd) + (if f.src == fd then [f.frame] else [])
  {
    assert (forwards + [f])[..|forwards|] == forwards;
  }

  predicate HoldsName(p: Phase) {
    p.Size? || p.Payload? || p.Ready?
  }

  /** No two connections are busy with the same file name. */
  ghost predicate NamesDistinct(m: Master) {
    forall f, g :: f in m.phases && g in m.phases && f != g && HoldsName(m.phases[f]) && HoldsName(m.phases[g]) ==>
      m.phases[f].name != m.phases[g].name
  }

  /** Connection fd is in the middle of storing a file that the scan reopens for a job it reschedules. */
  ghost predicate Reopens(m: Master, now: real, fd: int) {
    && fd in m.phases && m.phases[fd].Payload?
    && exists f :: f in ScanRescues(m.core.ledger, 0, now) && f.frame.name == m.phases[fd].name
  }

  /**
   The heartbeats leave connection fd alone: no beat revives it, no scan declares it dead or
   reopens the file it is storing, and its descriptor is not handed out anew.
   */
  ghost predicate Spares(m: Master, x: Happening, fd: int)
    requires CanHappen(m, x)
  {
    && (x.Occurs? && !x.e.Data? ==> Alive(Step(m, x).core, fd) == Alive(m.core, fd) && (x.e.Accept? ==> x.e.fd != fd))
    && (x.Occurs? && x.e.Scan? ==> !Reopens(m, x.e.now, fd))
    && (x.Occurs? && x.e.Data? && x.e.fd == fd ==> !m.phases[fd].Ready? || !Alive(m.core, fd))
  }

  /**
   The interleaving `xs` leads from m to n, over states in which in-flight names are distinct,
   and spares connection fd.
   */
  ghost predicate Interleaves(m: Master, xs: seq<Happening>, n: Master, fd: int)
    decreases |xs|
  {
    && NamesDistinct(m)
    && if xs == [] then n == m
       else CanHappen(m, xs[0]) && Spares(m, xs[0], fd) && Interleaves(Step(m, xs[0]), xs[1..], n, fd)
  }

  /** The file of a connection in the middle of a payload holds exactly what it sent. */
  predicate Faithful(c: Core, p: Phase) {
    p.Payload? ==> Content(c.files, p.name) == p.data
  }

  /** The messages passed on are those the connection completed, an empty last one possibly besides. */
  predicate Passed(got: seq<Frame>, conn: Conn) {
    || got == conn.frames
    || (!conn.alive && conn.phase.Ready? && got == conn.frames + [Frame(conn.phase.name, [])])
  }

  /** Inside the master, connection `fd` stands where `conn` stands on its own. */
  predicate Mirrors(c: Core, p: Phase, conn: Conn, fd: int) {
    && Alive(c, fd) == conn.alive
    && (conn.alive ==> p == conn.phase && Faithful(c, p))
    && Passed(FramesFrom(c.forwards, fd), conn)
    && (conn.alive ==> FramesFrom(c.forwards, fd) == conn.frames)
  }

  /** The connection as it stands in a state of the master. */
  function Alone(m: Master, fd: int): Conn
    requires fd in m.phases
  {
    Conn(m.phases[fd], Alive(m.core, fd), FramesFrom(m.core.forwards, fd))
  }

  // ---------------------------------------------------------------------------
  // Who is alive
  // ---------------------------------------------------------------------------

  lemma SamePosition(a: seq<Node>, b: seq<Node>, fd: int)
    requires SameFds(a, b)
    ensures FindWorker(a, fd) == FindWorker(b, fd)
  {
    SameFdsFound(a, b, fd);
    if FindWorker(a, fd).Some? {
      var i, j := FindWorker(a, fd).value, FindWorker(b, fd).value;
      assert a[j].fd == fd && b[i].fd == fd;
    }
  }

  lemma AliveOfLedger(c: Core, l: Ledger, fd: int)
    requires SameFds(c.ledger.workers, l.workers)
    requires forall i :: 0 <= i < |l.workers| ==> l.workers[i].alive == c.ledger.workers[i].alive
    ensures Alive(c.(ledger := l), fd) == Alive(c, fd)
  {
    SamePosition(c.ledger.workers, l.workers, fd);
  }

  lemma MarkedWorkers(c: Core, g: int, alive: bool, beat: real, fd: int)
    requires FindWorker(c.ledger.workers, g).Some?
    ensures var d := Mark(c, g, alive, beat);
      && FindWorker(d.ledger.workers, fd) == FindWorker(c.ledger.workers, fd)
      && FindWorker(d.ledger.workers, g) == FindWorker(c.ledger.workers, g)
  {
    var d := Mark(c, g, alive, beat);
    assert SameFds(c.ledger.workers, d.ledger.workers);
    SamePosition(c.ledger.workers, d.ledger.workers, fd);
    SamePosition(c.ledger.workers, d.ledger.workers, g);
  }

  lemma AliveAfterMark(c: Core, g: int, alive: bool, beat: real, fd: int)
    requires Roles(c) && Current(c, g).Some?
    ensures fd != g ==> Alive(Mark(c, g, alive, beat), fd) == Alive(c, fd)
    ensures Alive(Mark(c, g, alive, beat), g) == alive
  {
    if FindWorker(c.ledger.workers, g).Some? {
      MarkedWorkers(c, g, alive, beat, fd);
    }
  }

  lemma AliveAfterForget(c: Core, g: int, fd: int)
    requires Roles(c)
    ensures Alive(ForgetBeat(c, g), fd) == Alive(c, fd)
  {
    if Current(c, g).Some? {
      AliveAfterMark(c, g, Current(c, g).value.alive, 0.0, fd);
    }
  }

  lemma AliveAfterHeaderFail(c: Core, g: int, fd: int)
    requires Roles(c)
    ensures Alive(HeaderFail(c, g), fd) == (fd != g && Alive(c, fd))
  {
    if Current(c, g).Some? {
      AliveAfterMark(c, g, false, Current(c, g).value.beat, fd);
    }
  }

  lemma AliveAfterSubmit(c: Core, name: Bytes, src: int, fd: int)
    ensures Alive(SubmitJob(c, src, name), fd) == Alive(c, fd)
  {
    var t := Task(|c.submitted|, name);
    ScheduleGrows(c.ledger, t);
    GrewSameFds(c.ledger.workers, Schedule(c.ledger, t).workers);
    AliveOfLedger(c, Schedule(c.ledger, t), fd);
  }

  lemma AliveAfterAnswer(c: Core, name: Bytes, src: int, fd: int)
    ensures Alive(AnswerJob(c, src, name), fd) == Alive(c, fd)
  {
    RemoveSameFds(c.ledger, src, name);
    AliveOfLedger(c, RemoveTask(c.ledger, src, name).0, fd);
  }

  lemma FoundWithout(workers: seq<Node>, w: nat, fd: int)
    requires FdsDistinct(workers) && w < |workers| && workers[w].fd != fd
    ensures var rest := Without(workers, w);
      && FindWorker(rest, fd).Some? == FindWorker(workers, fd).Some?
      && (FindWorker(rest, fd).Some? ==> rest[FindWorker(rest, fd).value] == workers[FindWorker(workers, fd).value])
  {
    var rest := Without(workers, w);
    if FindWorker(workers, fd).Some? {
      var i := FindWorker(workers, fd).value;
      assert rest[if i < w then i else i - 1] == workers[i];
    }
    if FindWorker(rest, fd).Some? {
      var j := FindWorker(rest, fd).value;
      assert rest[j] == workers[if j < w then j else j + 1];
    }
  }

  lemma NotFoundWithout(workers: seq<Node>, w: nat)
    requires FdsDistinct(workers) && w < |workers|
    ensures FindWorker(Without(workers, w), workers[w].fd).None?
  {
    var rest := Without(workers, w);
    forall j | 0 <= j < |rest|
      ensures rest[j].fd != workers[w].fd
    {
      assert rest[j] == workers[if j < w then j else j + 1];
    }
  }

  lemma AliveAfterAdopt(c: Core, g: int, fd: int)
    requires Roles(c) && Alive(c, g) && c.ifaceFd == -1 && g >= 0 && fd >= 0
    ensures Alive(Adopt(c, g), fd) == Alive(c, fd)
  {
    AdoptedIsAWorker(c, g);
    var w := FindWorker(c.ledger.workers, g).value;
    if fd == g {
      NotFoundWithout(c.ledger.workers, w);
    } else {
      FoundWithout(c.ledger.workers, w, fd);
    }
  }

  // ---------------------------------------------------------------------------
  // One byte
  // ---------------------------------------------------------------------------

  lemma SubmitSeenFrom(c: Core, g: int, name: Bytes, fd: int)
    requires Roles(c) && AllRouted(c) && g == c.ifaceFd >= 0
    ensures var d := ForgetBeat(SubmitJob(c, g, name), g);
      && Alive(d, fd) == Alive(c, fd) && d.files == c.files
      && FramesFrom(d.forwards, fd)
         == FramesFrom(c.forwards, fd) + (if fd == g then [Frame(name, Content(c.files, name))] else [])
  {
    SubmitKeepsRoles(c, name);
    AliveAfterSubmit(c, name, g, fd);
    AliveAfterForget(SubmitJob(c, g, name), g, fd);
    OneMoreForward(c.forwards, Forward(g, ChosenFd(c.ledger), c.ifaceFd, Frame(name, Content(c.files, name))), fd);
  }

  lemma AnswerSeenFrom(c: Core, g: int, name: Bytes, fd: int)
    requires Roles(c) && AllRouted(c) && g != c.ifaceFd
    ensures var d := ForgetBeat(AnswerJob(c, g, name), g);
      && Alive(d, fd) == Alive(c, fd) && d.files == c.files
      && FramesFrom(d.forwards, fd)
         == FramesFrom(c.forwards, fd) + (if fd == g then [Frame(name, Content(c.files, name))] else [])
  {
    AnswerKeepsRoles(c, g, name);
    AliveAfterAnswer(c, name, g, fd);
    AliveAfterForget(AnswerJob(c, g, name), g, fd);
    OneMoreForward(c.forwards, Forward(g, c.ifaceFd, c.ifaceFd, Frame(name, Content(c.files, name))), fd);
  }

  /** What a delivery on connection g means for connection fd. */
  lemma DeliverElsewhere(c: Core, g: int, q: Phase, fd: int)
    requires Roles(c) && AllRouted(c) && q.Ready? && g >= 0 && fd != g
    ensures var d := Deliver(c, g, q).0;
      && Alive(d, fd) == Alive(c, fd) && d.files == c.files
      && FramesFrom(d.forwards, fd) == FramesFrom(c.forwards, fd)
  {
    if g == c.ifaceFd {
      SubmitSeenFrom(c, g, q.name, fd);
    } else if Alive(c, g) {
      AnswerSeenFrom(c, g, q.name, fd);
    }
  }

  /** What it means for g itself. */
  lemma DeliverHere(c: Core, g: int, q: Phase)
    requires Roles(c) && AllRouted(c) && q.Ready? && g >= 0
    ensures var (d, p) := Deliver(c, g, q);
      && Alive(d, g) == Alive(c, g) && d.files == c.files
      && if g == c.ifaceFd || Alive(c, g) then
           && p == FRESH
           && FramesFrom(d.forwards, g) == FramesFrom(c.forwards, g) + [Frame(q.name, Content(c.files, q.name))]
         else d == c
  {
    if g == c.ifaceFd {
      SubmitSeenFrom(c, g, q.name, g);
    } else if Alive(c, g) {
      AnswerSeenFrom(c, g, q.name, g);
    }
  }

  lemma FilesAndRoles(c: Core, files: map<Bytes, Bytes>, fd: int)
    requires Roles(c) && AllRouted(c)
    ensures var d := c.(files := files); Roles(d) && AllRouted(d) && Alive(d, fd) == Alive(c, fd)
  {
  }

  lemma EmptyElsewhere(c: Core, g: int, q: Phase, fd: int)
    requires Roles(c) && AllRouted(c) && g >= 0 && fd != g && Alive(c, g) && q.Ready?
    ensures var d := Deliver(Kill(Truncate(c, q.name), g), g, q).0;
      && Alive(d, fd) == Alive(c, fd) && d.files == c.files[q.name := []]
      && FramesFrom(d.forwards, fd) == FramesFrom(c.forwards, fd)
  {
    var d := Truncate(c, q.name);
    FilesAndRoles(c, d.files, fd);
    FilesAndRoles(c, d.files, g);
    MarkKeepsRoles(d, g, false, Current(d, g).value.beat);
    AliveAfterMark(d, g, false, Current(d, g).value.beat, fd);
    DeliverElsewhere(Kill(d, g), g, q, fd);
  }

  /** What a byte on g can change that another connection could see: its own file. */
  lemma DigestFrame(c: Core, g: int, p: Phase, b: byte, fd: int)
    requires Roles(c) && AllRouted(c) && g >= 0 && fd >= 0 && fd != g
    ensures var d := Digest(c, g, p, b).0;
      && Alive(d, fd) == Alive(c, fd)
      && FramesFrom(d.forwards, fd) == FramesFrom(c.forwards, fd)
      && forall name :: !HoldsName(p) || name != p.name ==> Content(d.files, name) == Content(c.files, name)
  {
    if Alive(c, g) && !p.Overrun? && !p.Ready? {
      var (q, signal) := Advance(p, b);
      match signal
      case Quiet =>
      case Malformed => AliveAfterHeaderFail(c, g, fd);
      case Named(verb) =>
        if verb == InterfacePut && c.ifaceFd == -1 {
          AliveAfterAdopt(c, g, fd);
        }
      case Opened => FilesAndRoles(c, Truncate(c, q.name).files, fd);
      case Empty => EmptyElsewhere(c, g, q, fd);
      case Written =>
        var d := Store(c, p.name, |p.data|, [b]);
        FilesAndRoles(c, d.files, fd);
        if q.Ready? {
          DeliverElsewhere(d, g, q, fd);
        }
    }
  }

  /** A byte on g leaves a connection with another file name alone. */
  lemma DigestElsewhere(c: Core, g: int, p: Phase, b: byte, conn: Conn, r: Phase, fd: int)
    requires Roles(c) && AllRouted(c) && g >= 0 && fd >= 0 && fd != g
    requires Mirrors(c, r, conn, fd)
    requires HoldsName(p) && HoldsName(r) ==> p.name != r.name
    ensures Mirrors(Digest(c, g, p, b).0, r, conn, fd)
  {
    DigestFrame(c, g, p, b, fd);
  }

  lemma WriteAtEnd(content: Bytes, b: byte)
    ensures WriteAt(content, |content|, [b]) == content + [b]
  {
  }

  lemma EmptyHere(c: Core, fd: int, p: Phase, b: byte, conn: Conn)
    requires Roles(c) && AllRouted(c) && fd >= 0 && Mirrors(c, p, conn, fd)
    requires Alive(c, fd) && !p.Overrun? && !p.Ready? && Advance(p, b).1 == Empty
    ensures var (d, q) := Digest(c, fd, p, b); Mirrors(d, q, Receive(conn, b), fd)
  {
    var q := Advance(p, b).0;
    var d := Truncate(c, q.name);
    FilesAndRoles(c, d.files, fd);
    MarkKeepsRoles(d, fd, false, Current(d, fd).value.beat);
    AliveAfterMark(d, fd, false, Current(d, fd).value.beat, fd);
    DeliverHere(Kill(d, fd), fd, q);
  }

  lemma WrittenHere(c: Core, fd: int, p: Phase, b: byte, conn: Conn)
    requires Roles(c) && AllRouted(c) && fd >= 0 && Mirrors(c, p, conn, fd)
    requires Alive(c, fd) && p.Payload?
    ensures var (d, q) := Digest(c, fd, p, b); Mirrors(d, q, Receive(conn, b), fd)
  {
    var q := Advance(p, b).0;
    var d := Store(c, p.name, |p.data|, [b]);
    WriteAtEnd(p.data, b);
    FilesAndRoles(c, d.files, fd);
    assert Content(d.files, p.name) == p.data + [b];
    if q.Ready? {
      DeliverHere(d, fd, q);
    }
  }

  /** A byte on a connection does inside the master what it does to the connection alone. */
  lemma DigestHere(c: Core, fd: int, p: Phase, b: byte, conn: Conn)
    requires Roles(c) && AllRouted(c) && fd >= 0 && Mirrors(c, p, conn, fd)
    ensures var (d, q) := Digest(c, fd, p, b); Mirrors(d, q, Receive(conn, b), fd)
  {
    if Alive(c, fd) && !p.Overrun? && !p.Ready? {
      var (q, signal) := Advance(p, b);
      match signal
      case Quiet =>
      case Malformed => AliveAfterHeaderFail(c, fd, fd);
      case Named(verb) =>
        if verb == InterfacePut && c.ifaceFd == -1 {
          AliveAfterAdopt(c, fd, fd);
        }
      case Opened => FilesAndRoles(c, Truncate(c, q.name).files, fd);
      case Empty => EmptyHere(c, fd, p, b, conn);
      case Written => WrittenHere(c, fd, p, b, conn);
    }
  }

  // ---------------------------------------------------------------------------
  // Whole interleavings
  // ---------------------------------------------------------------------------

  lemma StepIsRouted(m: Master, x: Happening)
    requires Routing(m) && CanHappen(m, x)
    ensures Routing(Step(m, x))
  {
    match x
    case Arrives(fd, b) => DigestKeepsRoles(m.core, fd, m.phases[fd], b);
    case Occurs(e) => StepKeepsRouting(m, e);
  }

  /** A failed read on g, or a message of it that was waiting, seen from another connection. */
  lemma LostElsewhere(c: Core, g: int, p: Phase, conn: Conn, r: Phase, fd: int)
    requires Roles(c) && AllRouted(c) && g >= 0 && fd >= 0 && fd != g && Mirrors(c, r, conn, fd)
    ensures Mirrors(HandleData(c, g, p, [], true).0, r, conn, fd)
  {
    if Alive(c, g) && !p.Overrun? {
      if p.Ready? {
        DeliverElsewhere(c, g, p, fd);
      } else {
        AliveAfterHeaderFail(c, g, fd);
      }
    }
  }

  lemma LostHere(c: Core, fd: int, p: Phase, conn: Conn)
    requires Roles(c) && AllRouted(c) && fd >= 0 && Mirrors(c, p, conn, fd)
    requires !p.Ready? || !Alive(c, fd)
    ensures var (d, q) := HandleData(c, fd, p, [], true); Mirrors(d, q, Notice(conn, Lost), fd)
  {
    if Alive(c, fd) && p.Header? {
      AliveAfterHeaderFail(c, fd, fd);
    }
  }

  /** Reopening files empties those of the jobs sent, and no others. */
  lemma {:induction false} ReopenedContent(files: map<Bytes, Bytes>, sent: seq<Forward>, name: Bytes)
    ensures Content(Reopened(files, sent), name)
         == if exists f :: f in sent && f.frame.name == name then [] else Content(files, name)
    decreases |sent|
  {
    if sent != [] {
      ReopenedContent(files[sent[0].frame.name := []], sent[1..], name);
      assert forall f :: f in sent <==> f == sent[0] || f in sent[1..];
    }
  }

  /** The other events touch neither parsers nor what was passed on, and of files only those a scan reopens. */
  lemma OthersTouchNothing(m: Master, e: Event, fd: int)
    requires Possible(m, e) && Apply(m, e).Some? && !e.Data? && fd in m.phases && (e.Accept? ==> e.fd != fd)
    ensures var n := Apply(m, e).value;
      && n.core.forwards == m.core.forwards && fd in n.phases && n.phases[fd] == m.phases[fd]
      && n.core.files == if e.Scan? then Reopened(m.core.files, ScanRescues(m.core.ledger, 0, e.now)) else m.core.files
  {
  }

  /** A connection keeps what it has stored over a scan if and only if the scan does not reopen its file. */
  lemma ScanSparesIff(m: Master, now: real, fd: int)
    requires Apply(m, Event.Scan(now)).Some? && fd in m.phases && Faithful(m.core, m.phases[fd])
    ensures var n := Apply(m, Event.Scan(now)).value;
      Faithful(n.core, n.phases[fd]) <==> !Reopens(m, now, fd) || m.phases[fd].data == []
  {
    OthersTouchNothing(m, Event.Scan(now), fd);
    if m.phases[fd].Payload? {
      ReopenedContent(m.core.files, ScanRescues(m.core.ledger, 0, now), m.phases[fd].name);
    }
  }

  lemma OneHappening(m: Master, x: Happening, conn: Conn, fd: int)
    requires Routing(m) && NamesDistinct(m) && CanHappen(m, x) && Spares(m, x, fd) && fd in m.phases
    requires Mirrors(m.core, m.phases[fd], conn, fd)
    ensures var n := Step(m, x);
      fd in n.phases && Mirrors(n.core, n.phases[fd], NoticeAll(conn, Of(x, fd)), fd)
  {
    match x
    case Arrives(g, b) =>
      if g == fd {
        DigestHere(m.core, fd, m.phases[fd], b, conn);
        assert NoticeAll(conn, [Got(b)]) == Receive(conn, b);
      } else {
        DigestElsewhere(m.core, g, m.phases[g], b, conn, m.phases[fd], fd);
      }
    case Occurs(e) =>
      if !e.Data? {
        OthersTouchNothing(m, e, fd);
        if e.Scan? && conn.alive {
          ScanSparesIff(m, e.now, fd);
        }
      } else if e.fd == fd {
        LostHere(m.core, fd, m.phases[fd], conn);
        assert NoticeAll(conn, [Lost]) == Notice(conn, Lost);
      } else {
        LostElsewhere(m.core, e.fd, m.phases[e.fd], conn, m.phases[fd], fd);
      }
  }

  lemma NoticeInTwo(c: Conn, x: Happening, fd: int, rest: seq<Own>)
    ensures NoticeAll(c, Of(x, fd) + rest) == NoticeAll(NoticeAll(c, Of(x, fd)), rest)
  {
    if Of(x, fd) == [] {
      assert [] + rest == rest;
    } else {
      assert Of(x, fd) == [Of(x, fd)[0]] && (Of(x, fd) + rest)[1..] == rest;
    }
  }

  lemma {:induction false} InterleavingMirrors(m: Master, xs: seq<Happening>, n: Master, conn: Conn, fd: int)
    requires Routing(m) && Interleaves(m, xs, n, fd) && fd in m.phases
    requires Mirrors(m.core, m.phases[fd], conn, fd)
    ensures fd in n.phases && Mirrors(n.core, n.phases[fd], NoticeAll(conn, On(xs, fd)), fd)
    decreases |xs|
  {
    if xs != [] {
      StepIsRouted(m, xs[0]);
      OneHappening(m, xs[0], conn, fd);
      InterleavingMirrors(Step(m, xs[0]), xs[1..], n, NoticeAll(conn, Of(xs[0], fd)), fd);
      NoticeInTwo(conn, xs[0], fd, On(xs[1..], fd));
    }
  }

  /**
   Non-interference: from any state in which the routing invariant holds, after any interleaving
   of bytes, failed reads, heartbeats, scans, recovery passes and new connections over distinct
   in-flight names, a connection whose life and whose file in flight the heartbeats do not touch
   stands where the bytes it sent and its own failures would have brought it on its own, and its
   messages were passed on with the payloads it sent.
   */
  lemma NonInterference(m: Master, xs: seq<Happening>, n: Master, fd: int)
    requires Routing(m) && Interleaves(m, xs, n, fd)
    requires fd in m.phases && Faithful(m.core, m.phases[fd])
    ensures fd in n.phases
    ensures Mirrors(n.core, n.phases[fd], NoticeAll(Alone(m, fd), On(xs, fd)), fd)
  {
    InterleavingMirrors(m, xs, n, Alone(m, fd), fd);
  }
}
