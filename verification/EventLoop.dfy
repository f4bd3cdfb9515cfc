/**
 The event loop of master.c at one connection: handle_data called again and again, as the
 socket becomes readable, until nothing is left to read; and what has then been written.
 */
module EventLoop {
  import opened Options
  import opened WireFormat
  import opened Transfers
  import opened FrameParser
  import opened Scheduling
  import opened MasterModel
  import opened MasterInvariants
  import opened Relay
  import opened Handouts
  import Connections
  import Isolation
  import Masters

  /** Two calls that consume s and then t come to one that consumes both. */
  lemma CallsJoin(c: Core, fd: int, p: Phase, s: Bytes, d: Core, q: Phase, t: Bytes, failed: bool)
    requires Alive(c, fd) && !p.Overrun? && !p.Ready? && HandleData(c, fd, p, s, false) == (d, q)
    requires Alive(d, fd) && !q.Overrun? && !q.Ready?
    ensures HandleData(d, fd, q, t, failed) == HandleData(c, fd, p, s + t, failed)
  {
    DigestInTwo(c, fd, p, s, t);
  }

  /** With no failed read a call never leaves a complete message waiting. */
  lemma CallSettles(c: Core, fd: int, p: Phase, s: Bytes, failed: bool)
    requires Roles(c) && AllRouted(c) && fd >= 0 && Settled(c, fd, p)
    ensures Settled(HandleData(c, fd, p, s, failed).0, fd, HandleData(c, fd, p, s, failed).1)
  {
    if Alive(c, fd) && !p.Overrun? {
      DigestAllSettles(c, fd, p, s);
    }
  }

  /** The connection stands where one call for everything consumed since `from` would leave it. */
  ghost predicate AsOneCall(m: Masters.Master, conn: Masters.Connection, c: Core, p: Phase, from: nat, failed: bool)
    reads m, conn, conn.command, conn.socket`cursor
  {
    && conn.Valid() && from <= conn.socket.cursor
    && (m.State(), conn.Phase()) == HandleData(c, conn.fd, p, conn.Consumed(from), failed)
  }

  /** Nothing more will come of the connection. */
  predicate Drained(m: Masters.Master, conn: Masters.Connection)
    reads m, conn, conn.socket`cursor
  {
    !m.Listens(conn.fd) || conn.status == Connections.Overran || conn.socket.cursor == |conn.socket.input|
  }

  /** A call that ends on a failed read of the header leaves a connection that is not listened to. */
  lemma FailedIsDead(c: Core, fd: int, p: Phase, s: Bytes)
    requires Roles(c) && AllRouted(c) && fd >= 0 && Settled(c, fd, p)
    requires HandleData(c, fd, p, s, true).1.Header?
    ensures !Alive(HandleData(c, fd, p, s, true).0, fd)
  {
    if Alive(c, fd) && !p.Overrun? {
      var d := DigestAll(c, fd, p, s).0;
      DigestAllKeepsRoles(c, fd, p, s);
      Isolation.AliveAfterHeaderFail(d, fd, fd);
    }
  }

  /** Joins one more event to those before. */
  lemma OneMoreCall(c: Core, fd: int, p: Phase, input: Bytes, from: nat, at: nat, to: nat, d: Core, q: Phase,
                     failed: bool)
    requires from <= at <= to <= |input|
    requires Alive(c, fd) && !p.Overrun? && !p.Ready? && HandleData(c, fd, p, input[from..at], false) == (d, q)
    requires Alive(d, fd) && !q.Overrun? && !q.Ready?
    ensures HandleData(d, fd, q, input[at..to], failed) == HandleData(c, fd, p, input[from..to], failed)
  {
    CallsJoin(c, fd, p, input[from..at], d, q, input[at..to], failed);
    Joined(input, from, at, to);
  }

  /** What the loop keeps. */
  ghost predicate Going(m: Masters.Master, conn: Masters.Connection, c: Core, p: Phase, from: nat, failed: bool)
    reads m, conn, conn.command, conn.socket`cursor
  {
    && m.Valid() && AllRouted(m.State()) && conn.fd >= 0
    && AsOneCall(m, conn, c, p, from, failed)
    && Settled(m.State(), conn.fd, conn.Phase())
    && (failed ==> !Alive(m.State(), conn.fd))
  }

  /** What one event adds to it. */
  lemma StillGoing(c: Core, fd: int, p: Phase, input: Bytes, from: nat, at: nat, to: nat, d: Core, q: Phase,
                   failed: bool, e: Core, r: Phase)
    requires from <= at <= to <= |input|
    requires Alive(c, fd) && !p.Overrun? && !p.Ready? && HandleData(c, fd, p, input[from..at], false) == (d, q)
    requires Roles(d) && AllRouted(d) && fd >= 0 && Alive(d, fd) && !q.Overrun? && !q.Ready?
    requires HandleData(d, fd, q, input[at..to], failed) == (e, r) && (failed ==> r.Header?)
    ensures HandleData(c, fd, p, input[from..to], failed) == (e, r)
    ensures Settled(e, fd, r) && (failed ==> !Alive(e, fd))
  {
    OneMoreCall(c, fd, p, input, from, at, to, d, q, failed);
    CallSettles(d, fd, q, input[at..to], failed);
    if failed {
      FailedIsDead(d, fd, q, input[at..to]);
    }
  }

  method OneEvent(m: Masters.Master, conn: Masters.Connection, ghost c: Core, ghost p: Phase, ghost from: nat)
    returns (ghost failed: bool)
    requires Alive(c, conn.fd) && !p.Overrun? && !p.Ready?
    requires Going(m, conn, c, p, from, false) && !Drained(m, conn)
    modifies m, conn, conn.command, conn.socket`cursor, conn.socket`readCalls
    modifies m.Outs()`output, m.Outs()`writeCalls
    ensures Going(m, conn, c, p, from, failed) && old(conn.socket.cursor) <= conn.socket.cursor
    ensures old(conn.socket.readCalls) < conn.socket.readCalls
    ensures old(conn.socket.Offers()) ==> old(conn.socket.cursor) < conn.socket.cursor
    ensures failed ==> conn.socket.Failed()
    ensures m.SentLast(old(m.Outputs()), m.Outputs(), old(m.forwards), m.forwards)
  {
    ghost var d, q, at := m.State(), conn.Phase(), conn.socket.cursor;
    failed := m.HandleEvent(conn);
    StillGoing(c, conn.fd, p, conn.socket.input, from, at, conn.socket.cursor, d, q, failed, m.State(), conn.Phase());
  }

  /** All that the loop keeps, with what has been written since the outputs were `base`. */
  ghost predicate Kept(m: Masters.Master, conn: Masters.Connection, c: Core, p: Phase, from: nat,
                       base: map<int, Bytes>, known: seq<Forward>, failed: bool)
    reads m, conn, conn.command, conn.socket`cursor, m.Outs()`output
  {
    && Going(m, conn, c, p, from, failed) && (Patient(conn.socket.readScript) ==> !failed)
    && (!Drained(m, conn) ==> Alive(c, conn.fd) && !p.Overrun? && !p.Ready? && !failed)
    && (m.Wired() ==> Masters.Printed(base, known, m.Outputs(), m.forwards))
  }

  lemma StillKept(m: Masters.Master, conn: Masters.Connection, c: Core, p: Phase, from: nat,
                  base: map<int, Bytes>, known: seq<Forward>, was: map<int, Bytes>, mid: seq<Forward>, failed: bool)
    requires Alive(c, conn.fd) && !p.Overrun? && !p.Ready?
    requires Going(m, conn, c, p, from, failed) && (failed ==> conn.socket.Failed())
    requires was.Keys == m.links.Keys && m.SentLast(was, m.Outputs(), mid, m.forwards)
    requires m.Wired() ==> Masters.Printed(base, known, was, mid)
    ensures Kept(m, conn, c, p, from, base, known, failed)
  {
    if m.Wired() {
      m.SentIsPrinted(base, known, was, mid, m.Outputs(), m.forwards);
    }
  }

  /** One more event, with what it writes. */
  method NextEvent(m: Masters.Master, conn: Masters.Connection, ghost c: Core, ghost p: Phase, ghost from: nat,
                   ghost base: map<int, Bytes>, ghost known: seq<Forward>, ghost before: bool)
    returns (ghost failed: bool)
    requires Kept(m, conn, c, p, from, base, known, before) && !Drained(m, conn)
    modifies m, conn, conn.command, conn.socket`cursor, conn.socket`readCalls
    modifies m.Outs()`output, m.Outs()`writeCalls
    ensures Kept(m, conn, c, p, from, base, known, failed)
    ensures old(conn.socket.cursor) <= conn.socket.cursor <= |conn.socket.input|
    ensures conn.socket.ReadPatience() <= old(conn.socket.ReadPatience())
    ensures conn.socket.ReadPatience() < old(conn.socket.ReadPatience()) || old(conn.socket.cursor) < conn.socket.cursor
  {
    ghost var was, mid := m.Outputs(), m.forwards;
    failed := OneEvent(m, conn, c, p, from);
    StillKept(m, conn, c, p, from, base, known, was, mid, failed);
  }

  lemma Starts(m: Masters.Master, conn: Masters.Connection)
    requires m.Valid() && AllRouted(m.State()) && conn.Valid() && conn.fd >= 0
    requires Settled(m.State(), conn.fd, conn.Phase())
    ensures Kept(m, conn, m.State(), conn.Phase(), conn.socket.cursor, m.Outputs(), m.forwards, false)
  {
    assert conn.Consumed(conn.socket.cursor) == [];
    Masters.NothingPrinted(m.Outputs(), m.forwards);
  }

  /** The loop itself. */
  method Serve(m: Masters.Master, conn: Masters.Connection, ghost c: Core, ghost p: Phase, ghost from: nat,
               ghost base: map<int, Bytes>, ghost known: seq<Forward>)
    returns (ghost failed: bool)
    requires Kept(m, conn, c, p, from, base, known, false)
    modifies m, conn, conn.command, conn.socket`cursor, conn.socket`readCalls
    modifies m.Outs()`output, m.Outs()`writeCalls
    ensures Kept(m, conn, c, p, from, base, known, failed) && Drained(m, conn)
  {
    failed := false;
    while !Drained(m, conn)
      invariant Kept(m, conn, c, p, from, base, known, failed)
      decreases conn.socket.ReadPatience(), |conn.socket.input| - conn.socket.cursor
    {
      failed := NextEvent(m, conn, c, p, from, base, known, failed);
    }
  }

  /**
   The event loop, for the events of one connection.  Whatever pieces and pauses its bytes come
   with, the master ends where a single call consuming them all would take it; it ends only
   when the input is used up or the connection no longer listened to; and what has gone out is
   the messages passed on, printed one after another, each on the descriptor it was for.
   */
  method Drain(m: Masters.Master, conn: Masters.Connection) returns (ghost failed: bool)
    requires m.Valid() && AllRouted(m.State()) && conn.Valid() && conn.fd >= 0
    requires Settled(m.State(), conn.fd, conn.Phase())
    modifies m, conn, conn.command, conn.socket`cursor, conn.socket`readCalls
    modifies m.Outs()`output, m.Outs()`writeCalls
    ensures m.Valid() && AllRouted(m.State()) && Drained(m, conn)
    ensures AsOneCall(m, conn, old(m.State()), old(conn.Phase()), old(conn.socket.cursor), failed)
    ensures Patient(conn.socket.readScript) ==> !failed
    ensures m.Wired() ==> Masters.Printed(old(m.Outputs()), old(m.forwards), m.Outputs(), m.forwards)
  {
    Starts(m, conn);
    failed := Serve(m, conn, m.State(), conn.Phase(), conn.socket.cursor, m.Outputs(), m.forwards);
  }

  // ---------------------------------------------------------------------------
  // What goes out for a run of messages
  // ---------------------------------------------------------------------------

  /** The same messages, all under the verb PUT. */
  function AsPut(ms: seq<Message>): (r: seq<Message>)
    ensures |r| == |ms|
  {
    seq(|ms|, i requires 0 <= i < |ms| => Message(Put, ms[i].frame))
  }

  lemma {:induction false} TrafficIsPrinted(ms: seq<Message>)
    ensures Traffic(FramesOf(ms)) == PrintAll(AsPut(ms))
  {
    if ms != [] {
      assert FramesOf(ms)[1..] == FramesOf(ms[1..]);
      assert AsPut(ms)[1..] == AsPut(ms[1..]);
      TrafficIsPrinted(ms[1..]);
    }
  }

  lemma {:induction false} ResultsTo(fd: int, iface: int, ms: seq<Message>, g: int)
    ensures FramesTo(ResultsOf(fd, iface, ms), g) == if g == iface then FramesOf(ms) else []
    decreases |ms|
  {
    if ms != [] {
      FramesToFront(Forward(fd, iface, iface, ms[0].frame), ResultsOf(fd, iface, ms[1..]), g);
      ResultsTo(fd, iface, ms[1..], g);
      FramesOfFront(ms);
    }
  }

  /** A loop that ends while the connection could still be read has read everything. */
  lemma ConsumesAll(c: Core, fd: int, input: Bytes, from: nat, to: nat, d: Core, q: Phase)
    requires from <= to <= |input| && Alive(c, fd)
    requires HandleData(c, fd, FRESH, input[from..to], false) == (d, q)
    requires var (e, r) := DigestAll(c, fd, FRESH, input[from..]); Alive(e, fd) && r == FRESH
    requires !Alive(d, fd) || q.Overrun? || to == |input|
    ensures to == |input| && (d, q) == DigestAll(c, fd, FRESH, input[from..])
  {
    assert input[from..to] + input[to..] == input[from..];
    DigestInTwo(c, fd, FRESH, input[from..to], input[to..]);
    if !Alive(d, fd) || q.Overrun? {
      DeafDigest(d, fd, q, input[to..]);
    }
    if to == |input| {
      assert input[from..to] == input[from..];
    }
  }

  /** A new connection has sent a run of messages, and its socket pauses but does not fail. */
  ghost predicate Sends(m: Masters.Master, conn: Masters.Connection, ms: seq<Message>)
    reads m, conn, conn.command, conn.socket`cursor
  {
    && m.Valid() && AllRouted(m.State()) && m.Wired()
    && conn.Valid() && conn.Phase() == FRESH && conn.fd >= 0 && Alive(m.State(), conn.fd)
    && Patient(conn.socket.readScript) && conn.socket.input[conn.socket.cursor..] == PrintAll(ms)
    && forall i :: 0 <= i < |ms| ==> WellFormed(ms[i])
  }

  /**
   Relay correctness for a worker: whatever pieces its run of results comes in, what the master
   writes to the interface is exactly that run under the verb PUT, and nothing anywhere else.
   */
  method RelayResults(m: Masters.Master, conn: Masters.Connection, ghost ms: seq<Message>)
    requires Sends(m, conn, ms) && conn.fd != m.interfaceFd
    requires forall i :: 0 <= i < |ms| ==> ms[i].verb == InterfacePut ==> m.interfaceFd != -1
    modifies m, conn, conn.command, conn.socket`cursor, conn.socket`readCalls
    modifies m.Outs()`output, m.Outs()`writeCalls
    ensures m.Valid() && AllRouted(m.State()) && m.interfaceFd == old(m.interfaceFd)
    ensures conn.Valid() && conn.Phase() == FRESH && conn.socket.cursor == |conn.socket.input|
    ensures forall g :: g >= 0 ==> Alive(m.State(), g) == Alive(old(m.State()), g)
    ensures m.forwards == old(m.forwards) + ResultsOf(conn.fd, m.interfaceFd, ms)
    ensures AnswersTaken(old(m.State()), conn.fd, NamesOf(ms), m.State())
    ensures forall g <- m.links ::
      m.Outputs()[g] == old(m.Outputs())[g] + if g == m.interfaceFd then PrintAll(AsPut(ms)) else []
  {
    ghost var c, from, base, known := m.State(), conn.socket.cursor, m.Outputs(), m.forwards;
    ResultsRelayed(c, conn.fd, ms, conn.fd);
    ghost var failed := Drain(m, conn);
    ConsumesAll(c, conn.fd, conn.socket.input, from, conn.socket.cursor, m.State(), conn.Phase());
    ghost var sent := ResultsOf(conn.fd, c.ifaceFd, ms);
    assert m.forwards[|known|..] == sent;
    forall g | g in m.links
      ensures m.Outputs()[g] == base[g] + if g == c.ifaceFd then PrintAll(AsPut(ms)) else []
    {
      ResultsTo(conn.fd, c.ifaceFd, ms, g);
      TrafficIsPrinted(ms);
    }
    forall g | g >= 0
      ensures Alive(m.State(), g) == Alive(c, g)
    {
      ResultsRelayed(c, conn.fd, ms, g);
    }
  }

  /**
   Relay correctness for the interface, which may become it with the first message: whatever
   pieces its run of jobs comes in, each job is entered in the ledger and written, under the
   verb PUT, to the worker that is best when its turn comes, and nothing else anywhere.
   */
  method RelayJobs(m: Masters.Master, conn: Masters.Connection, ghost ms: seq<Message>)
    requires Sends(m, conn, ms) && Submits(m.State(), conn.fd, ms)
    modifies m, conn, conn.command, conn.socket`cursor, conn.socket`readCalls
    modifies m.Outs()`output, m.Outs()`writeCalls
    ensures m.Valid() && AllRouted(m.State()) && m.interfaceFd == conn.fd
    ensures conn.Valid() && conn.Phase() == FRESH && conn.socket.cursor == |conn.socket.input|
    ensures forall g :: g >= 0 ==> Alive(m.State(), g) == Alive(old(m.State()), g)
    ensures var c := WithInterface(old(m.State()), conn.fd);
      && m.Book() == ScheduleAll(c.ledger, TasksOf(|c.submitted|, ms))
      && m.submitted == c.submitted + TasksOf(|c.submitted|, ms) && m.completed == c.completed
      && m.forwards == c.forwards + JobsOf(c.ledger, |c.submitted|, conn.fd, ms)
      && forall g <- m.links ::
           m.Outputs()[g] == old(m.Outputs())[g]
             + Traffic(FramesTo(JobsOf(c.ledger, |c.submitted|, conn.fd, ms), g))
  {
    ghost var c, from, base, known := m.State(), conn.socket.cursor, m.Outputs(), m.forwards;
    JobsFromInterface(c, conn.fd, ms, conn.fd);
    ghost var failed := Drain(m, conn);
    ConsumesAll(c, conn.fd, conn.socket.input, from, conn.socket.cursor, m.State(), conn.Phase());
    ghost var hub := WithInterface(c, conn.fd);
    assert m.forwards[|known|..] == JobsOf(hub.ledger, |hub.submitted|, conn.fd, ms);
    forall g | g >= 0
      ensures Alive(m.State(), g) == Alive(c, g)
    {
      JobsFromInterface(c, conn.fd, ms, g);
    }
  }
}
