/**
 What every run of the master keeps: descriptors identify workers, the interface is never its
 own worker, messages go where they should, and every submitted job is in exactly one place.
 */
module MasterInvariants {
  import opened Options
  import opened WireFormat
  import opened FrameParser
  import opened Scheduling
  import opened Recovery
  import opened MasterModel

  // ---------------------------------------------------------------------------
  // Routing
  // ---------------------------------------------------------------------------

  ghost predicate FdsDistinct(workers: seq<Node>) {
    && (forall i :: 0 <= i < |workers| ==> workers[i].fd >= 0)
    && (forall i, j :: 0 <= i < j < |workers| ==> workers[i].fd != workers[j].fd)
  }

  ghost predicate SameFds(a: seq<Node>, b: seq<Node>) {
    && |a| == |b|
    && forall i :: 0 <= i < |a| ==> a[i].fd == b[i].fd
  }

  /** A job leaves the interface for another connection or for none; everything else goes to the interface. */
  predicate Routed(f: Forward) {
    if f.src == f.hub then f.dest != f.src else f.dest == f.hub
  }

  /** The interface and the workers. */
  ghost predicate Roles(c: Core) {
    && FdsDistinct(c.ledger.workers)
    && (c.ifaceFd != -1 ==> c.ifaceFd >= 0 && IsIface(c, c.ifaceFd) && FindWorker(c.ledger.workers, c.ifaceFd).None?)
    && (c.iface.Some? && c.iface.value.alive ==> c.ifaceFd == c.iface.value.fd)
  }

  ghost predicate AllRouted(c: Core) {
    forall i :: 0 <= i < |c.forwards| ==> Routed(c.forwards[i])
  }

  /** With distinct descriptors, looking up the descriptor that schedule returned finds the chosen worker. */
  lemma ChosenIsFound(l: Ledger)
    requires FdsDistinct(l.workers)
    ensures match Best(l.workers)
      case None => ChosenFd(l) == -1
      case Some(b) => FindWorker(l.workers, ChosenFd(l)) == Some(b)
  {
    if Best(l.workers).Some? {
      var b := Best(l.workers).value;
      assert l.workers[b].fd == ChosenFd(l);
      assert FindWorker(l.workers, ChosenFd(l)).Some?;
    }
  }

  lemma SameFdsFound(a: seq<Node>, b: seq<Node>, fd: int)
    requires SameFds(a, b)
    ensures FindWorker(a, fd).None? <==> FindWorker(b, fd).None?
    ensures FdsDistinct(a) ==> FdsDistinct(b)
  {
    if FindWorker(a, fd).Some? {
      assert b[FindWorker(a, fd).value].fd == fd;
    }
    if FindWorker(b, fd).Some? {
      assert a[FindWorker(b, fd).value].fd == fd;
    }
  }

  lemma RolesOfLedger(c: Core, l: Ledger)
    requires Roles(c) && SameFds(c.ledger.workers, l.workers)
    ensures Roles(c.(ledger := l))
  {
    SameFdsFound(c.ledger.workers, l.workers, c.ifaceFd);
  }

  lemma GrewSameFds(a: seq<Node>, b: seq<Node>)
    requires AllGrew(a, b)
    ensures SameFds(a, b)
  {
    forall i | 0 <= i < |a|
      ensures a[i].fd == b[i].fd
    {
      assert Grew(a[i], b[i]);
    }
  }

  lemma MarkKeepsRoles(c: Core, fd: int, alive: bool, beat: real)
    requires Roles(c) && Current(c, fd).Some?
    requires alive ==> Current(c, fd).value.alive
    ensures Roles(Mark(c, fd, alive, beat))
    ensures Current(Mark(c, fd, alive, beat), fd) == Some(Current(c, fd).value.(alive := alive, beat := beat))
  {
    var d := Mark(c, fd, alive, beat);
    assert SameFds(c.ledger.workers, d.ledger.workers);
    SameFdsFound(c.ledger.workers, d.ledger.workers, c.ifaceFd);
    SameFdsFound(c.ledger.workers, d.ledger.workers, fd);
    if FindWorker(c.ledger.workers, fd).Some? {
      var w, v := FindWorker(c.ledger.workers, fd).value, FindWorker(d.ledger.workers, fd).value;
      assert w == v;
    }
  }

  lemma KillKeepsRoles(c: Core, fd: int)
    requires Roles(c)
    ensures Roles(Kill(c, fd))
  {
    if Current(c, fd).Some? {
      MarkKeepsRoles(c, fd, false, Current(c, fd).value.beat);
    }
  }

  lemma HeaderFailKeepsRoles(c: Core, fd: int)
    requires Roles(c)
    ensures Roles(HeaderFail(c, fd))
  {
    if Current(c, fd).Some? {
      MarkKeepsRoles(c, fd, false, Current(c, fd).value.beat);
    }
  }

  lemma ForgetBeatKeepsRoles(c: Core, fd: int)
    requires Roles(c)
    ensures Roles(ForgetBeat(c, fd))
  {
    if Current(c, fd).Some? {
      MarkKeepsRoles(c, fd, Current(c, fd).value.alive, 0.0);
    }
  }

  /** Where the code erases the sender of the first INTERFACE_PUT from the workers, it is there. */
  lemma AdoptedIsAWorker(c: Core, fd: int)
    requires Roles(c) && Alive(c, fd) && c.ifaceFd == -1 && fd >= 0
    ensures FindWorker(c.ledger.workers, fd).Some?
  {
  }

  lemma AdoptKeepsRoles(c: Core, fd: int)
    requires Roles(c) && Alive(c, fd) && c.ifaceFd == -1 && fd >= 0
    ensures Roles(Adopt(c, fd)) && Adopt(c, fd).ifaceFd == fd
  {
    AdoptedIsAWorker(c, fd);
    var w := FindWorker(c.ledger.workers, fd).value;
    var rest := Without(c.ledger.workers, w);
    forall i | 0 <= i < |rest|
      ensures rest[i].fd != fd && rest[i].fd >= 0
    {
      assert rest[i] == c.ledger.workers[if i < w then i else i + 1];
    }
  }

  lemma {:induction false} RemoveSameFds(l: Ledger, fd: int, name: Bytes)
    ensures SameFds(l.workers, RemoveTask(l, fd, name).0.workers)
  {
  }

  lemma SubmitKeepsRoles(c: Core, name: Bytes)
    requires Roles(c) && AllRouted(c) && c.ifaceFd >= 0
    ensures Roles(SubmitJob(c, c.ifaceFd, name)) && AllRouted(SubmitJob(c, c.ifaceFd, name))
  {
    var t := Task(|c.submitted|, name);
    var d := SubmitJob(c, c.ifaceFd, name);
    ScheduleGrows(c.ledger, t);
    GrewSameFds(c.ledger.workers, d.ledger.workers);
    RolesOfLedger(c, d.ledger);
    ChosenIsFound(c.ledger);
    assert Routed(d.forwards[|c.forwards|]);
  }

  lemma AnswerKeepsRoles(c: Core, fd: int, name: Bytes)
    requires Roles(c) && AllRouted(c) && fd != c.ifaceFd
    ensures Roles(AnswerJob(c, fd, name)) && AllRouted(AnswerJob(c, fd, name))
  {
    RemoveSameFds(c.ledger, fd, name);
    RolesOfLedger(c, RemoveTask(c.ledger, fd, name).0);
  }

  lemma DeliverKeepsRoles(c: Core, fd: int, p: Phase)
    requires Roles(c) && AllRouted(c) && p.Ready? && fd >= 0
    ensures Roles(Deliver(c, fd, p).0) && AllRouted(Deliver(c, fd, p).0)
  {
    if fd == c.ifaceFd {
      SubmitKeepsRoles(c, p.name);
      ForgetBeatKeepsRoles(SubmitJob(c, fd, p.name), fd);
    } else if Alive(c, fd) {
      AnswerKeepsRoles(c, fd, p.name);
      ForgetBeatKeepsRoles(AnswerJob(c, fd, p.name), fd);
    }
  }

  lemma DigestKeepsRoles(c: Core, fd: int, p: Phase, b: byte)
    requires Roles(c) && AllRouted(c) && fd >= 0
    ensures Roles(Digest(c, fd, p, b).0) && AllRouted(Digest(c, fd, p, b).0)
  {
    if Alive(c, fd) && !p.Overrun? && !p.Ready? {
      var (q, signal) := Advance(p, b);
      match signal
      case Quiet =>
      case Opened =>
      case Malformed => HeaderFailKeepsRoles(c, fd);
      case Named(verb) =>
        if verb == InterfacePut && c.ifaceFd == -1 {
          AdoptKeepsRoles(c, fd);
        }
      case Empty =>
        var d := Truncate(c, q.name);
        assert Roles(d);
        MarkKeepsRoles(d, fd, false, Current(d, fd).value.beat);
        DeliverKeepsRoles(Kill(d, fd), fd, q);
      case Written =>
        if q.Ready? {
          var d := Store(c, p.name, |p.data|, [b]);
          assert Roles(d);
          DeliverKeepsRoles(d, fd, q);
        }
    }
  }

  lemma {:induction false} DigestAllKeepsRoles(c: Core, fd: int, p: Phase, s: Bytes)
    requires Roles(c) && AllRouted(c) && fd >= 0
    ensures Roles(DigestAll(c, fd, p, s).0) && AllRouted(DigestAll(c, fd, p, s).0)
    decreases |s|
  {
    if s != [] {
      var (d, q) := Digest(c, fd, p, s[0]);
      DigestKeepsRoles(c, fd, p, s[0]);
      DigestAllKeepsRoles(d, fd, q, s[1..]);
    }
  }

  lemma HandleDataKeepsRoles(c: Core, fd: int, p: Phase, s: Bytes, failed: bool)
    requires Roles(c) && AllRouted(c) && fd >= 0
    ensures Roles(HandleData(c, fd, p, s, failed).0) && AllRouted(HandleData(c, fd, p, s, failed).0)
  {
    if Alive(c, fd) && !p.Overrun? {
      if p.Ready? {
        DeliverKeepsRoles(c, fd, p);
      } else {
        DigestAllKeepsRoles(c, fd, p, s);
        HeaderFailKeepsRoles(DigestAll(c, fd, p, s).0, fd);
      }
    }
  }

  lemma {:induction false} ScanSameFds(l: Ledger, i: nat, now: real)
    requires i <= |l.workers| && ScanFrom(l, i, now).Some?
    ensures SameFds(l.workers, ScanFrom(l, i, now).value.workers)
    decreases |l.workers| - i
  {
    if i < |l.workers| {
      if !Silent(l.workers[i], now) {
        ScanSameFds(l, i + 1, now);
      } else {
        var dead := Bury(l, i);
        var m := Reschedule(dead, i).value;
        RescheduleSameFds(dead, i);
        ScanSameFds(m, i + 1, now);
      }
    }
  }

  lemma HandedOutSameFds(l: Ledger, w: nat)
    requires w < |l.workers|
    ensures SameFds(l.workers, HandedOut(l, w).workers)
  {
    ScheduleAllGrows(l, l.workers[w].tasks);
    GrewSameFds(l.workers, ScheduleAll(l, l.workers[w].tasks).workers);
  }

  lemma {:induction false} IntendedSameFds(l: Ledger, k: nat, now: real)
    requires k <= |l.workers|
    ensures SameFds(l.workers, IntendedScan(l, k, now).workers)
  {
    if k > 0 {
      var m := IntendedScan(l, k - 1, now);
      IntendedSameFds(l, k - 1, now);
      HandedOutSameFds(Bury(m, k - 1), k - 1);
    }
  }

  lemma RescheduleSameFds(l: Ledger, w: nat)
    requires w < |l.workers| && !l.workers[w].alive && Reschedule(l, w).Some?
    ensures SameFds(l.workers, Reschedule(l, w).value.workers)
  {
    ScheduleAllGrows(l, l.workers[w].tasks);
    GrewSameFds(l.workers, ScheduleAll(l, l.workers[w].tasks).workers);
  }

  lemma {:induction false} LiveOnlyDistinct(workers: seq<Node>, fd: int)
    requires FdsDistinct(workers)
    ensures FdsDistinct(LiveOnly(workers))
    ensures FindWorker(workers, fd).None? ==> FindWorker(LiveOnly(workers), fd).None?
  {
    LiveAreWorkers(workers);
    if workers != [] {
      var n := |workers| - 1;
      LiveOnlyDistinct(workers[..n], fd);
      LiveAreWorkers(workers[..n]);
    }
  }

  lemma RecoverKeepsRoles(c: Core)
    requires Roles(c)
    ensures Roles(c.(ledger := CheckOnNodes(c.ledger)))
  {
    var l := CheckOnNodes(c.ledger);
    RecoveryPass(c.ledger, Task(0, []));
    var live := LiveOnly(c.ledger.workers);
    LiveOnlyDistinct(c.ledger.workers, c.ifaceFd);
    GrewSameFds(live, l.workers);
    SameFdsFound(live, l.workers, c.ifaceFd);
  }

  lemma AcceptKeepsRoles(c: Core, fd: int, ip: Bytes)
    requires Roles(c) && fd >= 0 && FindWorker(c.ledger.workers, fd).None? && fd != c.ifaceFd
    ensures Roles(c.(ledger := c.ledger.(workers := c.ledger.workers + [NewNode(fd, ip)])))
  {
  }

  ghost predicate Routing(m: Master) {
    && Roles(m.core) && AllRouted(m.core)
    && forall fd <- m.phases :: fd >= 0
  }

  lemma StepKeepsRouting(m: Master, e: Event)
    requires Routing(m) && Possible(m, e) && Apply(m, e).Some?
    ensures Routing(Apply(m, e).value)
  {
    match e
    case Accept(fd, ip) => AcceptKeepsRoles(m.core, fd, ip);
    case Data(fd, s, failed) => HandleDataKeepsRoles(m.core, fd, m.phases[fd], s, failed);
    case Beat(ip, cpu, now) => RolesOfLedger(m.core, ReportHeartbeat(m.core.ledger, ip, cpu, now));
    case Scan(now) =>
      ScanSameFds(m.core.ledger, 0, now);
      RolesOfLedger(m.core, ScanFrom(m.core.ledger, 0, now).value);
    case Redistribute(now) =>
      IntendedSameFds(m.core.ledger, |m.core.ledger.workers|, now);
      RolesOfLedger(m.core, IntendedScan(m.core.ledger, |m.core.ledger.workers|, now));
    case Recover => RecoverKeepsRoles(m.core);
  }

  /**
   In every reachable state: descriptors of workers are distinct, the interface is not among
   the workers, no job was ever passed back to the interface it came from, and every other
   message went to the interface.
   */
  lemma {:induction false} RoutingHolds(m: Master, events: seq<Event>, n: Master)
    requires Routing(m) && Reaches(m, events, n)
    ensures Routing(n)
    decreases |events|
  {
    if events != [] {
      StepKeepsRouting(m, events[0]);
      RoutingHolds(Apply(m, events[0]).value, events[1..], n);
    }
  }

  // ---------------------------------------------------------------------------
  // Conservation
  // ---------------------------------------------------------------------------

  function IfaceTasks(c: Core): seq<Task> {
    if c.iface.Some? then c.iface.value.tasks else []
  }

  /** In how many places a job is: on workers, pending, answered, or stranded on an interface's record. */
  function Places(c: Core, t: Task): nat {
    Copies(c.ledger, t) + multiset(c.completed)[t] + multiset(IfaceTasks(c))[t] + Held(c.retired, t)
  }

  ghost predicate Conserved(c: Core) {
    && (forall t: Task :: Places(c, t) == multiset(c.submitted)[t])
    && (forall i :: 0 <= i < |c.submitted| ==> c.submitted[i].id == i)
  }

  lemma MarkKeepsPlaces(c: Core, fd: int, alive: bool, beat: real, t: Task)
    ensures Places(Mark(c, fd, alive, beat), t) == Places(c, t)
  {
    match FindWorker(c.ledger.workers, fd)
    case None =>
    case Some(w) => HeldUpdated(c.ledger.workers, w, c.ledger.workers[w].(alive := alive, beat := beat), t);
  }

  lemma ForgetBeatKeepsPlaces(c: Core, fd: int, t: Task)
    ensures Places(ForgetBeat(c, fd), t) == Places(c, t) && ForgetBeat(c, fd).submitted == c.submitted
  {
    if Current(c, fd).Some? {
      MarkKeepsPlaces(c, fd, Current(c, fd).value.alive, 0.0, t);
    }
  }

  lemma KillKeepsPlaces(c: Core, fd: int, t: Task)
    ensures Places(Kill(c, fd), t) == Places(c, t) && Kill(c, fd).submitted == c.submitted
  {
    if Current(c, fd).Some? {
      MarkKeepsPlaces(c, fd, false, Current(c, fd).value.beat, t);
    }
  }

  /** Adoption moves the jobs a connection was given as a worker to the interface's record. */
  lemma AdoptKeepsPlaces(c: Core, fd: int, t: Task)
    ensures Places(Adopt(c, fd), t) == Places(c, t)
  {
    match FindWorker(c.ledger.workers, fd)
    case None =>
    case Some(w) =>
      HeldWithout(c.ledger.workers, w, t);
      if c.iface.Some? {
        HeldOneMore(c.retired, c.iface.value, t);
      } else {
        assert c.retired + [] == c.retired;
      }
  }

  lemma SubmitAddsOne(c: Core, fd: int, name: Bytes, t: Task)
    ensures Places(SubmitJob(c, fd, name), t) == Places(c, t) + One(Task(|c.submitted|, name), t)
  {
    ScheduleAddsOne(c.ledger, Task(|c.submitted|, name), t);
  }

  lemma AnswerKeepsPlaces(c: Core, fd: int, name: Bytes, t: Task)
    ensures Places(AnswerJob(c, fd, name), t) == Places(c, t)
  {
    RemovalTakesOne(c.ledger, fd, name, t);
    var (ledger, gone) := RemoveTask(c.ledger, fd, name);
    if gone.Some? {
      CountOneMore(c.completed, gone.value, t);
    } else {
      assert c.completed + [] == c.completed;
    }
  }

  /** The same jobs in the same number of places. */
  ghost predicate Keeps(c: Core, d: Core) {
    d.submitted == c.submitted && forall t: Task :: Places(d, t) == Places(c, t)
  }

  lemma DeliverConserves(c: Core, fd: int, p: Phase)
    requires Conserved(c) && p.Ready?
    ensures Conserved(Deliver(c, fd, p).0)
  {
    if fd == c.ifaceFd {
      var new_ := Task(|c.submitted|, p.name);
      var d := SubmitJob(c, fd, p.name);
      forall t: Task
        ensures Places(ForgetBeat(d, fd), t) == multiset(d.submitted)[t]
      {
        SubmitAddsOne(c, fd, p.name, t);
        ForgetBeatKeepsPlaces(d, fd, t);
        CountOneMore(c.submitted, new_, t);
      }
      ForgetBeatKeepsPlaces(d, fd, new_);
    } else if Alive(c, fd) {
      var d := AnswerJob(c, fd, p.name);
      forall t: Task
        ensures Places(ForgetBeat(d, fd), t) == Places(c, t)
      {
        AnswerKeepsPlaces(c, fd, p.name, t);
        ForgetBeatKeepsPlaces(d, fd, t);
      }
      ForgetBeatKeepsPlaces(d, fd, Task(0, []));
    }
  }

  lemma KillKeeps(c: Core, fd: int)
    ensures Keeps(c, Kill(c, fd))
  {
    KillKeepsPlaces(c, fd, Task(0, []));
    forall t: Task
      ensures Places(Kill(c, fd), t) == Places(c, t)
    {
      KillKeepsPlaces(c, fd, t);
    }
  }

  lemma KeptIsConserved(c: Core, d: Core)
    requires Conserved(c) && Keeps(c, d)
    ensures Conserved(d)
  {
  }

  lemma FilesDoNotMatter(c: Core, files: map<Bytes, Bytes>)
    ensures Keeps(c, c.(files := files))
  {
  }

  lemma HeaderFailConserves(c: Core, fd: int)
    requires Conserved(c)
    ensures Conserved(HeaderFail(c, fd))
  {
    KillKeeps(c, fd);
    assert Keeps(c, HeaderFail(c, fd));
    KeptIsConserved(c, HeaderFail(c, fd));
  }

  lemma AdoptConserves(c: Core, fd: int)
    requires Conserved(c)
    ensures Conserved(Adopt(c, fd))
  {
    forall t: Task
      ensures Places(Adopt(c, fd), t) == Places(c, t)
    {
      AdoptKeepsPlaces(c, fd, t);
    }
    KeptIsConserved(c, Adopt(c, fd));
  }

  lemma EmptyConserves(c: Core, fd: int, q: Phase)
    requires Conserved(c) && q.Ready?
    ensures Conserved(Deliver(Kill(Truncate(c, q.name), fd), fd, q).0)
  {
    var d := Truncate(c, q.name);
    FilesDoNotMatter(c, d.files);
    KeptIsConserved(c, d);
    KillKeeps(d, fd);
    KeptIsConserved(d, Kill(d, fd));
    DeliverConserves(Kill(d, fd), fd, q);
  }

  lemma DigestConserves(c: Core, fd: int, p: Phase, b: byte)
    requires Conserved(c)
    ensures Conserved(Digest(c, fd, p, b).0)
  {
    if Alive(c, fd) && !p.Overrun? && !p.Ready? {
      var (q, signal) := Advance(p, b);
      match signal
      case Quiet =>
      case Malformed => HeaderFailConserves(c, fd);
      case Named(verb) => AdoptConserves(c, fd);
      case Empty => EmptyConserves(c, fd, q);
      case Opened =>
        FilesDoNotMatter(c, Truncate(c, q.name).files);
        KeptIsConserved(c, Truncate(c, q.name));
      case Written =>
        var d := Store(c, p.name, |p.data|, [b]);
        FilesDoNotMatter(c, d.files);
        KeptIsConserved(c, d);
        if q.Ready? {
          DeliverConserves(d, fd, q);
        }
    }
  }

  lemma {:induction false} DigestAllConserves(c: Core, fd: int, p: Phase, s: Bytes)
    requires Conserved(c)
    ensures Conserved(DigestAll(c, fd, p, s).0)
    decreases |s|
  {
    if s != [] {
      var (d, q) := Digest(c, fd, p, s[0]);
      DigestConserves(c, fd, p, s[0]);
      DigestAllConserves(d, fd, q, s[1..]);
    }
  }

  lemma HandleDataConserves(c: Core, fd: int, p: Phase, s: Bytes, failed: bool)
    requires Conserved(c)
    ensures Conserved(HandleData(c, fd, p, s, failed).0)
  {
    if Alive(c, fd) && !p.Overrun? {
      if p.Ready? {
        DeliverConserves(c, fd, p);
      } else {
        DigestAllConserves(c, fd, p, s);
        HeaderFailConserves(DigestAll(c, fd, p, s).0, fd);
      }
    }
  }

  lemma {:induction false} ScanConserves(l: Ledger, i: nat, now: real, t: Task)
    requires i <= |l.workers| && ScanFrom(l, i, now).Some?
    ensures Copies(ScanFrom(l, i, now).value, t) == Copies(l, t)
    decreases |l.workers| - i
  {
    if i < |l.workers| {
      if !Silent(l.workers[i], now) {
        ScanConserves(l, i + 1, now, t);
      } else {
        var dead := Bury(l, i);
        HeldUpdated(l.workers, i, dead.workers[i], t);
        RescheduleConservesIff(dead, i, t);
        ScanConserves(Reschedule(dead, i).value, i + 1, now, t);
      }
    }
  }

  /** A scan as it is meant loses and doubles no job, however many the silent workers had. */
  lemma {:induction false} IntendedConserves(l: Ledger, k: nat, now: real, t: Task)
    requires k <= |l.workers|
    ensures Copies(IntendedScan(l, k, now), t) == Copies(l, t)
  {
    if k > 0 {
      var m := IntendedScan(l, k - 1, now);
      var dead := Bury(m, k - 1);
      IntendedConserves(l, k - 1, now, t);
      HeldUpdated(m.workers, k - 1, dead.workers[k - 1], t);
      HandingOut(dead, k - 1, t);
    }
  }

  lemma BeatConserves(l: Ledger, ip: Bytes, cpu: real, now: real, t: Task)
    ensures Copies(ReportHeartbeat(l, ip, cpu, now), t) == Copies(l, t)
  {
    match FindIp(l.workers, ip)
    case None =>
    case Some(w) => HeldUpdated(l.workers, w, l.workers[w].(cpu := cpu, beat := now, alive := true), t);
  }

  lemma LedgerConserves(m: Master, e: Event, t: Task)
    requires Possible(m, e) && Apply(m, e).Some? && !e.Data?
    ensures Places(Apply(m, e).value.core, t) == Places(m.core, t)
  {
    match e
    case Accept(fd, ip) => HeldOneMore(m.core.ledger.workers, NewNode(fd, ip), t);
    case Beat(ip, cpu, now) => BeatConserves(m.core.ledger, ip, cpu, now, t);
    case Scan(now) => ScanConserves(m.core.ledger, 0, now, t);
    case Redistribute(now) => IntendedConserves(m.core.ledger, |m.core.ledger.workers|, now, t);
    case Recover => RecoveryPass(m.core.ledger, t);
  }

  lemma StepConserves(m: Master, e: Event)
    requires Conserved(m.core) && Possible(m, e) && Apply(m, e).Some?
    ensures Conserved(Apply(m, e).value.core)
  {
    if e.Data? {
      HandleDataConserves(m.core, e.fd, m.phases[e.fd], e.bytes, e.failed);
    } else {
      forall t: Task
        ensures Places(Apply(m, e).value.core, t) == Places(m.core, t)
      {
        LedgerConserves(m, e, t);
      }
    }
  }

  lemma {:induction false} RunConserves(m: Master, events: seq<Event>, n: Master)
    requires Conserved(m.core) && Reaches(m, events, n)
    ensures Conserved(n.core)
    decreases |events|
  {
    if events != [] {
      StepConserves(m, events[0]);
      RunConserves(Apply(m, events[0]).value, events[1..], n);
    }
  }

  lemma {:induction false} NumberedOnce(ts: seq<Task>, t: Task)
    requires forall i :: 0 <= i < |ts| ==> ts[i].id == i
    ensures multiset(ts)[t] == if t in ts then 1 else 0
  {
    if ts != [] {
      var n := |ts| - 1;
      NumberedOnce(ts[..n], t);
      assert ts == ts[..n] + [ts[n]];
    }
  }

  /**
   Over every run from the start, each submitted job is in exactly one place, once: on one
   worker's list, pending, answered, or stranded on the record of a connection that became
   the interface after it had been given work.  Nothing else is in any of these places.
   */
  lemma EveryJobInOnePlace(events: seq<Event>, m: Master, t: Task)
    requires Reaches(START, events, m)
    ensures Places(m.core, t) == if t in m.core.submitted then 1 else 0
  {
    RunConserves(START, events, m);
    NumberedOnce(m.core.submitted, t);
  }

  /** The routing invariant from the start of the program. */
  lemma RoutingFromStart(events: seq<Event>, m: Master)
    requires Reaches(START, events, m)
    ensures FdsDistinct(m.core.ledger.workers)
    ensures m.core.ifaceFd == -1 || FindWorker(m.core.ledger.workers, m.core.ifaceFd).None?
    ensures forall i :: 0 <= i < |m.core.forwards| ==> Routed(m.core.forwards[i])
  {
    RoutingHolds(START, events, m);
  }
}
