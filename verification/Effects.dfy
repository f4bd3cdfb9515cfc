/**
 What single events leave behind in the master's records, and what that means for the events after
 them: a heartbeat steers the next job, a new connection comes first, and an interface that quits
 makes room for another.
 */
module Effects {
  import opened Options
  import opened WireFormat
  import opened FrameParser
  import opened Scheduling
  import opened Recovery
  import opened MasterModel
  import opened MasterInvariants
  import opened MasterSteps
  import opened Handouts
  import opened Relay
  import Isolation

  // ---------------------------------------------------------------------------
  // A heartbeat
  // ---------------------------------------------------------------------------

  /** Worker w is the first at the address. */
  predicate FirstAt(workers: seq<Node>, ip: Bytes, w: nat) {
    w < |workers| && workers[w].ip == ip && forall i :: 0 <= i < w ==> workers[i].ip != ip
  }

  /**
   After a heartbeat the first worker at its address has exactly the load and the time reported and
   is alive, with its descriptor, address and jobs as they were; nothing else in the master has
   changed, and nothing at all if no worker has that address.
   */
  lemma BeatRecords(m: Master, ip: Bytes, cpu: real, now: real)
    ensures var n := Apply(m, Beat(ip, cpu, now));
      && n == Some(m.(core := m.core.(ledger := m.core.ledger.(workers := n.value.core.ledger.workers))))
      && |n.value.core.ledger.workers| == |m.core.ledger.workers|
      && forall w :: 0 <= w < |m.core.ledger.workers| ==>
           var o := m.core.ledger.workers[w];
           n.value.core.ledger.workers[w]
             == if FirstAt(m.core.ledger.workers, ip, w) then Node(o.fd, o.ip, true, cpu, now, o.tasks) else o
  {
  }

  /** Every live worker but w has at least so much to do. */
  predicate OthersAbove(workers: seq<Node>, w: nat, weight: real) {
    forall i :: 0 <= i < |workers| && i != w && workers[i].alive ==>
      weight < workers[i].cpu * 10.0 + |workers[i].tasks| as real
  }

  /**
   The load just reported decides about the next job: the worker gets it if ten times that load plus
   its jobs is under the cap and below every other live worker's, and not if some other live
   worker's is below it.
   */
  lemma BeatSteersTheNextJob(m: Master, ip: Bytes, cpu: real, now: real, w: nat, t: Task)
    requires FirstAt(m.core.ledger.workers, ip, w)
    ensures var workers := m.core.ledger.workers;
      var weight := cpu * 10.0 + |workers[w].tasks| as real;
      var after := Schedule(Apply(m, Beat(ip, cpu, now)).value.core.ledger, t);
      && |after.workers| == |workers|
      && (weight < 100000000.0 && OthersAbove(workers, w, weight) ==>
            after.workers[w].tasks == workers[w].tasks + [t])
      && ((exists i :: 0 <= i < |workers| && i != w && workers[i].alive
             && workers[i].cpu * 10.0 + |workers[i].tasks| as real < weight) ==>
            after.workers[w].tasks == workers[w].tasks)
  {
    var l, n := m.core.ledger, Apply(m, Beat(ip, cpu, now)).value;
    BeatRecords(m, ip, cpu, now);
    NextGetsTheJob(n.core.ledger, t);
    forall i | 0 <= i < |l.workers| && i != w
      ensures n.core.ledger.workers[i] == l.workers[i]
    {
      assert !FirstAt(l.workers, ip, i);
    }
  }

  // ---------------------------------------------------------------------------
  // A new connection
  // ---------------------------------------------------------------------------

  /**
   A new connection is the last worker: alive, with no load reported (-1), no beat and no jobs; its
   parser is fresh, and nothing else has changed.
   */
  lemma AcceptRecords(m: Master, fd: int, ip: Bytes)
    requires Possible(m, Accept(fd, ip))
    ensures var n := Apply(m, Accept(fd, ip));
      && n.Some? && n.value.phases == m.phases[fd := Header([])]
      && n.value.core == m.core.(ledger := Ledger(
           m.core.ledger.workers + [Node(fd, ip, true, -1.0, 0.0, [])], m.core.ledger.pending))
  {
  }

  lemma LastIsNext(workers: seq<Node>, n: Node)
    requires n.alive && n.cpu == -1.0 && n.tasks == []
    requires forall i :: 0 <= i < |workers| && workers[i].alive ==> workers[i].cpu >= 0.0
    ensures IsNext(workers + [n], |workers|)
    ensures forall i :: 0 <= i < |workers| ==> !IsNext(workers + [n], i)
  {
    var all, k := workers + [n], |workers|;
    forall i | 0 <= i < k && all[i].alive
      ensures all[k].cpu * 10.0 + |all[k].tasks| as real < all[i].cpu * 10.0 + |all[i].tasks| as real
    {
      assert all[i] == workers[i];
    }
  }

  /**
   A worker that has just connected gets the next job before all that have reported a load, however
   small that is and however few their jobs.
   */
  lemma NewWorkerComesFirst(m: Master, fd: int, ip: Bytes, t: Task)
    requires Possible(m, Accept(fd, ip))
    requires forall i :: 0 <= i < |m.core.ledger.workers| && m.core.ledger.workers[i].alive ==>
      m.core.ledger.workers[i].cpu >= 0.0
    ensures var l := Apply(m, Accept(fd, ip)).value.core.ledger;
      ChosenFd(l) == fd && Schedule(l, t).workers == m.core.ledger.workers + [Node(fd, ip, true, -1.0, 0.0, [t])]
  {
    var workers, n := m.core.ledger.workers, Node(fd, ip, true, -1.0, 0.0, []);
    AcceptRecords(m, fd, ip);
    LastIsNext(workers, n);
    LastGetsTheJob(workers, n, m.core.ledger.pending, t);
    assert [] + [t] == [t];
  }

  lemma LastGetsTheJob(workers: seq<Node>, n: Node, pending: seq<Task>, t: Task)
    requires IsNext(workers + [n], |workers|)
    requires forall i :: 0 <= i < |workers| ==> !IsNext(workers + [n], i)
    ensures var l := Ledger(workers + [n], pending);
      ChosenFd(l) == n.fd && Schedule(l, t).workers == workers + [n.(tasks := n.tasks + [t])]
  {
    NextGetsTheJob(Ledger(workers + [n], pending), t);
  }

  // ---------------------------------------------------------------------------
  // The role of the interface
  // ---------------------------------------------------------------------------

  /**
   Connection fd fails in a header: a read of it fails, or the line it ends makes no sense.  Then it
   is not listened to any more; if it was the interface there is none now, and otherwise the role is
   where it was.  Nothing else changes.
   */
  ghost predicate HeaderLost(c: Core, fd: int, d: Core) {
    && !Alive(d, fd) && d.ifaceFd == (if fd == c.ifaceFd then -1 else c.ifaceFd)
    && (forall g :: g != fd ==> Alive(d, g) == Alive(c, g))
    && SameFds(c.ledger.workers, d.ledger.workers)
    && (forall i :: 0 <= i < |c.ledger.workers| ==>
          var n := c.ledger.workers[i];
          d.ledger.workers[i] == if n.fd == fd then n.(alive := false) else n)
    && d.ledger.pending == c.ledger.pending && d.files == c.files
    && d.submitted == c.submitted && d.completed == c.completed && d.forwards == c.forwards
  }

  lemma HeaderFailLoses(c: Core, fd: int)
    requires Roles(c) && Alive(c, fd)
    ensures HeaderLost(c, fd, HeaderFail(c, fd)) && Roles(HeaderFail(c, fd))
  {
    HeaderFailKeepsRoles(c, fd);
    forall g
      ensures Alive(HeaderFail(c, fd), g) == (g != fd && Alive(c, g))
    {
      Isolation.AliveAfterHeaderFail(c, fd, g);
    }
  }

  /** A read that fails in the middle of a header, or before one. */
  lemma FailedReadLoses(c: Core, fd: int, line: Bytes, s: Bytes)
    requires Roles(c) && Alive(c, fd) && NEWLINE !in s && |line| + |s| <= COMMAND_BUF_SIZE
    ensures HeaderLost(c, fd, HandleData(c, fd, Header(line), s, true).0)
  {
    HeaderStops(c, fd, line, s, true);
    HeaderFailLoses(c, fd);
  }

  /** A line that is no header, whatever follows it. */
  lemma BadLineLoses(c: Core, fd: int, line: Bytes, s: Bytes, rest: Bytes)
    requires Roles(c) && Alive(c, fd) && NEWLINE !in s && |line| + |s| < COMMAND_BUF_SIZE && ParseHeader(line + s).None?
    ensures HeaderLost(c, fd, HandleData(c, fd, Header(line), s + [NEWLINE] + rest, false).0)
  {
    HeaderFailLoses(c, fd);
    HeaderEnds(c, fd, line, s);
    DigestInTwo(c, fd, Header(line), s + [NEWLINE], rest);
    DeafDigest(HeaderFail(c, fd), fd, Header(line + s), rest);
  }

  /**
   Outside a header it does not matter whether a read failed: the bytes that came before it in a size
   or a payload are kept, and the connection stays listened to.
   */
  lemma FailedReadElsewhere(c: Core, fd: int, name: Bytes, left: nat, data: Bytes, s: Bytes)
    requires Roles(c) && Alive(c, fd) && |s| < left
    ensures var (d, q) := HandleData(c, fd, Payload(name, left, data), s, true);
      && q == Payload(name, left - |s|, data + s) && Alive(d, fd) && d.ifaceFd == c.ifaceFd
      && d == c.(files := BlockFiles(c.files, name, |data|, s))
  {
    PayloadStretch(c, fd, name, left, data, s);
    AliveWithFiles(c, BlockFiles(c.files, name, |data|, s), fd);
  }

  /** While there is no interface, a live worker that sends a run of jobs becomes it. */
  lemma {:induction false} RoleIsTaken(n: Master, g: int, ms: seq<Message>)
    requires Routing(n) && n.core.ifaceFd == -1 && g in n.phases && n.phases[g] == FRESH && Alive(n.core, g)
    requires ms != [] && ms[0].verb == InterfacePut && forall i :: 0 <= i < |ms| ==> WellFormed(ms[i])
    ensures var o := Apply(n, Data(g, PrintAll(ms), false));
      && o.Some? && o.value.core.ifaceFd == g && o.value.phases[g] == FRESH
      && o.value.core.submitted == n.core.submitted + TasksOf(|n.core.submitted|, ms)
      && o.value.core.ledger == ScheduleAll(Adopt(n.core, g).ledger, TasksOf(|n.core.submitted|, ms))
  {
    JobsFromInterface(n.core, g, ms, g);
    AdoptKeepsSubmitted(n.core, g);
  }

  /**
   When the interface quits between two messages or in a header, any other live worker that then
   sends a run of jobs becomes the interface, and its jobs are submitted and handed out by the greedy
   schedule over the workers that remain.
   */
  lemma {:induction false} QuitMakesRoom(m: Master, fd: int, g: int, ms: seq<Message>)
    requires Routing(m) && fd in m.phases && g in m.phases && fd != g && fd == m.core.ifaceFd
    requires m.phases[fd].Header? && |m.phases[fd].line| <= COMMAND_BUF_SIZE && Alive(m.core, fd)
    requires m.phases[g] == FRESH && Alive(m.core, g)
    requires ms != [] && ms[0].verb == InterfacePut && forall i :: 0 <= i < |ms| ==> WellFormed(ms[i])
    ensures exists n, o ::
      && Leads(m, Data(fd, [], true), n) && n.core.ifaceFd == -1 && !Alive(n.core, fd)
      && Leads(n, Data(g, PrintAll(ms), false), o) && o.core.ifaceFd == g && o.phases[g] == FRESH
      && o.core.submitted == m.core.submitted + TasksOf(|m.core.submitted|, ms)
      && o.core.ledger == ScheduleAll(Adopt(n.core, g).ledger, TasksOf(|m.core.submitted|, ms))
  {
    var n := Apply(m, Data(fd, [], true)).value;
    FailedReadLoses(m.core, fd, m.phases[fd].line, []);
    StepKeepsRouting(m, Data(fd, [], true));
    RoleIsTaken(n, g, ms);
    var o := Apply(n, Data(g, PrintAll(ms), false)).value;
    assert Leads(m, Data(fd, [], true), n) && Leads(n, Data(g, PrintAll(ms), false), o);
  }

  lemma AdoptKeepsSubmitted(c: Core, fd: int)
    ensures Adopt(c, fd).submitted == c.submitted
  {
  }
}
