/**
 The failure detector inside the master: every run of the master gives the record of each worker
 a history of module Detector, so what is proved there about one worker on its own holds of
 every worker in every run.
 */
module Surveillance {
  import opened Options
  import opened WireFormat
  import opened FrameParser
  import opened Scheduling
  import opened Recovery
  import opened MasterModel
  import opened MasterInvariants
  import Detector
  import Isolation

  /** The two fields of a record that the detector goes by. */
  function Watched(n: Node): Detector.Watch {
    Detector.Watch(n.alive, n.beat)
  }

  predicate Serving(workers: seq<Node>, fd: int) {
    FindWorker(workers, fd).Some?
  }

  function WatchOf(workers: seq<Node>, fd: int): Detector.Watch
    requires Serving(workers, fd)
  {
    Watched(workers[FindWorker(workers, fd).value])
  }

  ghost predicate SameWatches(a: seq<Node>, b: seq<Node>) {
    && SameFds(a, b)
    && forall i :: 0 <= i < |a| ==> Watched(b[i]) == Watched(a[i])
  }

  lemma SameWatch(a: seq<Node>, b: seq<Node>, fd: int)
    requires SameWatches(a, b)
    ensures Serving(a, fd) == Serving(b, fd)
    ensures Serving(a, fd) ==> WatchOf(b, fd) == WatchOf(a, fd)
  {
    Isolation.SamePosition(a, b, fd);
  }

  lemma GrewSameWatches(a: seq<Node>, b: seq<Node>)
    requires AllGrew(a, b)
    ensures SameWatches(a, b)
  {
    GrewSameFds(a, b);
    forall i | 0 <= i < |a|
      ensures Watched(b[i]) == Watched(a[i])
    {
      assert Grew(a[i], b[i]);
    }
  }

  // ---------------------------------------------------------------------------
  // A scan
  // ---------------------------------------------------------------------------

  lemma RescheduleSameWatches(l: Ledger, w: nat)
    requires w < |l.workers| && !l.workers[w].alive && Reschedule(l, w).Some?
    ensures SameWatches(l.workers, Reschedule(l, w).value.workers)
  {
    ScheduleAllGrows(l, l.workers[w].tasks);
    GrewSameWatches(l.workers, ScheduleAll(l, l.workers[w].tasks).workers);
  }

  /** Every worker is looked at once in a scan that completes, whatever was rescheduled meanwhile. */
  lemma {:induction false} ScanTestsEach(l: Ledger, i: nat, now: real, j: nat)
    requires i <= |l.workers| && ScanFrom(l, i, now).Some? && j < |l.workers|
    ensures var n := ScanFrom(l, i, now).value.workers[j];
      && n.fd == l.workers[j].fd
      && Watched(n)
         == if i <= j then Detector.Step(Watched(l.workers[j]), Detector.Scan(now)) else Watched(l.workers[j])
    decreases |l.workers| - i
  {
    if i < |l.workers| {
      if !Silent(l.workers[i], now) {
        ScanTestsEach(l, i + 1, now, j);
      } else {
        var dead := Bury(l, i);
        RescheduleSameWatches(dead, i);
        ScanTestsEach(Reschedule(dead, i).value, i + 1, now, j);
      }
    }
  }

  lemma HandedOutSameWatches(l: Ledger, w: nat)
    requires w < |l.workers|
    ensures SameWatches(l.workers, HandedOut(l, w).workers)
  {
    ScheduleAllGrows(l, l.workers[w].tasks);
    GrewSameWatches(l.workers, ScheduleAll(l, l.workers[w].tasks).workers);
  }

  /** The same of a scan as it is meant, as far as it has come. */
  lemma {:induction false} IntendedTestsEach(l: Ledger, k: nat, now: real, j: nat)
    requires k <= |l.workers| && j < |l.workers|
    ensures var n := IntendedScan(l, k, now).workers[j];
      && n.fd == l.workers[j].fd
      && Watched(n) == if j < k then Detector.Step(Watched(l.workers[j]), Detector.Scan(now)) else Watched(l.workers[j])
  {
    if k > 0 {
      var m := IntendedScan(l, k - 1, now);
      IntendedTestsEach(l, k - 1, now, j);
      IntendedTestsEach(l, k - 1, now, k - 1);
      HandedOutSameWatches(Bury(m, k - 1), k - 1);
    }
  }

  /** Each silent worker has at most one job when the scan comes to it, from worker k on. */
  ghost predicate OneJobEach(l: Ledger, k: nat, now: real) {
    forall j :: k <= j < |l.workers| && Silent(l.workers[j], now) ==> |IntendedScan(l, j, now).workers[j].tasks| <= 1
  }

  lemma {:induction false} ScanFromIntended(l: Ledger, k: nat, now: real)
    requires k <= |l.workers|
    ensures ScanFrom(IntendedScan(l, k, now), k, now)
         == if OneJobEach(l, k, now) then Some(IntendedScan(l, |l.workers|, now)) else None
    decreases |l.workers| - k
  {
    if k < |l.workers| {
      var m := IntendedScan(l, k, now);
      IntendedTestsEach(l, k, now, k);
      ScanFromIntended(l, k + 1, now);
      if Silent(m.workers[k], now) {
        RescheduleIsMeantIff(Bury(m, k), k);
      }
    }
  }

  /**
   A scan completes if and only if each silent worker has at most one job when its turn comes,
   counting what the silent workers before it left it; and then it does what is meant.
   */
  lemma ScanCompletesIff(l: Ledger, now: real)
    ensures ScanFrom(l, 0, now) == if OneJobEach(l, 0, now) then Some(IntendedScan(l, |l.workers|, now)) else None
  {
    ScanFromIntended(l, 0, now);
  }

  /**
   At most one job each beforehand is not enough: of two silent workers with one job each, the
   second is handed the first one's job before its own turn comes.
   */
  lemma TwoFailuresBreakTheScan(a: Node, b: Node, pending: seq<Task>, now: real)
    requires Silent(a, now) && Silent(b, now) && |a.tasks| == |b.tasks| == 1 && Load(b) < LOAD_CAP
    ensures ScanFrom(Ledger([a, b], pending), 0, now) == None
  {
    var l := Ledger([a, b], pending);
    var dead := Bury(l, 0);
    assert dead.workers == [a.(alive := false), b];
    BestIsUnique(dead.workers, Some(1));
    var m := Schedule(dead, a.tasks[0]);
    assert ScheduleAll(dead, a.tasks) == ScheduleAll(m, a.tasks[1..]) == m;
    assert m.workers[1].tasks == b.tasks + [a.tasks[0]];
    var once := HandedOut(dead, 0);
    RescheduleIsMeantIff(dead, 0);
    assert once.workers[1] == m.workers[1];
    RescheduleIsMeantIff(Bury(once, 1), 1);
  }

  /** None but worker w is silent. */
  ghost predicate OnlySilent(workers: seq<Node>, w: nat, now: real) {
    && w < |workers| && Silent(workers[w], now)
    && forall j :: 0 <= j < |workers| && j != w ==> !Silent(workers[j], now)
  }

  lemma {:induction false} QuietScan(l: Ledger, i: nat, now: real)
    requires i <= |l.workers| && forall j :: i <= j < |l.workers| ==> !Silent(l.workers[j], now)
    ensures ScanFrom(l, i, now) == Some(l)
    decreases |l.workers| - i
  {
    if i < |l.workers| {
      QuietScan(l, i + 1, now);
    }
  }

  lemma {:induction false} ScanUpTo(l: Ledger, i: nat, w: nat, now: real)
    requires i <= w && OnlySilent(l.workers, w, now)
    ensures ScanFrom(l, i, now) == ScanFrom(l, w, now)
    decreases w - i
  {
    if i < w {
      ScanUpTo(l, i + 1, w, now);
    }
  }

  /**
   When one worker has fallen silent, the scan that finds it completes exactly when it had at
   most one job; it is then marked dead and its job rescheduled, and nothing else happens.
   */
  lemma SingleFailureScan(l: Ledger, w: nat, now: real)
    requires OnlySilent(l.workers, w, now)
    ensures ScanFrom(l, 0, now) == Reschedule(Bury(l, w), w)
    ensures ScanFrom(l, 0, now).Some? <==> |l.workers[w].tasks| <= 1
  {
    var dead := Bury(l, w);
    ScanUpTo(l, 0, w, now);
    EraseLoopInRangeIff(dead.workers[w].tasks);
    if Reschedule(dead, w).Some? {
      var m := Reschedule(dead, w).value;
      RescheduleSameWatches(dead, w);
      forall j | w < j < |m.workers|
        ensures !Silent(m.workers[j], now)
      {
        assert Watched(m.workers[j]) == Watched(l.workers[j]);
      }
      QuietScan(m, w + 1, now);
    }
  }

  lemma ScanSeen(l: Ledger, now: real, fd: int)
    requires ScanFrom(l, 0, now).Some? && Serving(l.workers, fd)
    ensures var m := ScanFrom(l, 0, now).value;
      Serving(m.workers, fd) && WatchOf(m.workers, fd) == Detector.Step(WatchOf(l.workers, fd), Detector.Scan(now))
  {
    ScanSameFds(l, 0, now);
    Isolation.SamePosition(l.workers, ScanFrom(l, 0, now).value.workers, fd);
    ScanTestsEach(l, 0, now, FindWorker(l.workers, fd).value);
  }

  lemma RedistributionSeen(l: Ledger, now: real, fd: int)
    requires Serving(l.workers, fd)
    ensures var m := IntendedScan(l, |l.workers|, now);
      Serving(m.workers, fd) && WatchOf(m.workers, fd) == Detector.Step(WatchOf(l.workers, fd), Detector.Scan(now))
  {
    IntendedSameFds(l, |l.workers|, now);
    Isolation.SamePosition(l.workers, IntendedScan(l, |l.workers|, now).workers, fd);
    IntendedTestsEach(l, |l.workers|, now, FindWorker(l.workers, fd).value);
  }

  // ---------------------------------------------------------------------------
  // A beat
  // ---------------------------------------------------------------------------

  lemma BeatSeen(l: Ledger, ip: Bytes, cpu: real, now: real, fd: int)
    requires Serving(l.workers, fd)
    ensures var m := ReportHeartbeat(l, ip, cpu, now);
      && Serving(m.workers, fd)
      && WatchOf(m.workers, fd) == if FindIp(l.workers, ip) == FindWorker(l.workers, fd)
           then Detector.Step(WatchOf(l.workers, fd), Detector.Beat(now)) else WatchOf(l.workers, fd)
  {
    Isolation.SamePosition(l.workers, ReportHeartbeat(l, ip, cpu, now).workers, fd);
  }

  // ---------------------------------------------------------------------------
  // Data
  // ---------------------------------------------------------------------------

  /** Something was passed on between two states. */
  predicate PassedOn(c: Core, d: Core) {
    |d.forwards| > |c.forwards|
  }

  /**
   Connection g did something; worker fd, if it is still one, was one before.  Only its own messages
   bear on its record: passing one on forgets its last beat, nothing else does, and nothing revives it.
   */
  ghost predicate FadesOnly(c: Core, d: Core, g: int, fd: int) {
    && |d.forwards| >= |c.forwards|
    && (Serving(d.ledger.workers, fd) ==>
          && Serving(c.ledger.workers, fd)
          && var w, v := WatchOf(c.ledger.workers, fd), WatchOf(d.ledger.workers, fd);
             if fd != g then v == w
             else (v.alive ==> w.alive) && v.lastBeat == if PassedOn(c, d) then 0.0 else w.lastBeat)
  }

  lemma FadesTwice(c: Core, d: Core, e: Core, g: int, fd: int)
    requires FadesOnly(c, d, g, fd) && FadesOnly(d, e, g, fd)
    ensures FadesOnly(c, e, g, fd)
  {
  }

  lemma KillFades(c: Core, g: int, fd: int)
    ensures FadesOnly(c, Kill(c, g), g, fd)
  {
    if FindWorker(c.ledger.workers, g).Some? {
      Isolation.MarkedWorkers(c, g, false, Current(c, g).value.beat, fd);
    }
  }

  lemma HeaderFailFades(c: Core, g: int, fd: int)
    ensures FadesOnly(c, HeaderFail(c, g), g, fd)
  {
    KillFades(c, g, fd);
  }

  lemma AdoptFades(c: Core, g: int, fd: int)
    requires Roles(c)
    ensures FadesOnly(c, Adopt(c, g), g, fd)
  {
    if FindWorker(c.ledger.workers, g).Some? {
      var w := FindWorker(c.ledger.workers, g).value;
      if fd == g {
        Isolation.NotFoundWithout(c.ledger.workers, w);
      } else {
        Isolation.FoundWithout(c.ledger.workers, w, fd);
      }
    }
  }

  /** After a message has been passed on the last beat of its sender is forgotten. */
  lemma ForgottenFades(c: Core, d: Core, g: int, fd: int)
    requires SameWatches(c.ledger.workers, d.ledger.workers) && PassedOn(c, d)
    ensures FadesOnly(c, ForgetBeat(d, g), g, fd)
  {
    SameWatch(c.ledger.workers, d.ledger.workers, fd);
    if FindWorker(d.ledger.workers, g).Some? {
      Isolation.MarkedWorkers(d, g, Current(d, g).value.alive, 0.0, fd);
    }
  }

  lemma SubmitFades(c: Core, g: int, name: Bytes, fd: int)
    ensures FadesOnly(c, ForgetBeat(SubmitJob(c, g, name), g), g, fd)
  {
    var t := Task(|c.submitted|, name);
    ScheduleGrows(c.ledger, t);
    GrewSameWatches(c.ledger.workers, Schedule(c.ledger, t).workers);
    ForgottenFades(c, SubmitJob(c, g, name), g, fd);
  }

  lemma AnswerFades(c: Core, g: int, name: Bytes, fd: int)
    ensures FadesOnly(c, ForgetBeat(AnswerJob(c, g, name), g), g, fd)
  {
    RemoveSameFds(c.ledger, g, name);
    assert SameWatches(c.ledger.workers, RemoveTask(c.ledger, g, name).0.workers);
    ForgottenFades(c, AnswerJob(c, g, name), g, fd);
  }

  lemma DeliverFades(c: Core, g: int, p: Phase, fd: int)
    requires p.Ready?
    ensures FadesOnly(c, Deliver(c, g, p).0, g, fd)
  {
    if g == c.ifaceFd {
      SubmitFades(c, g, p.name, fd);
    } else if Alive(c, g) {
      AnswerFades(c, g, p.name, fd);
    }
  }

  lemma DigestFades(c: Core, g: int, p: Phase, b: byte, fd: int)
    requires Roles(c)
    ensures FadesOnly(c, Digest(c, g, p, b).0, g, fd)
  {
    if Alive(c, g) && !p.Overrun? && !p.Ready? {
      var (q, signal) := Advance(p, b);
      match signal
      case Quiet =>
      case Opened =>
      case Malformed => HeaderFailFades(c, g, fd);
      case Named(_) => AdoptFades(c, g, fd);
      case Empty =>
        var d := Truncate(c, q.name);
        KillFades(d, g, fd);
        DeliverFades(Kill(d, g), g, q, fd);
        FadesTwice(d, Kill(d, g), Deliver(Kill(d, g), g, q).0, g, fd);
      case Written =>
        if q.Ready? {
          DeliverFades(Store(c, p.name, |p.data|, [b]), g, q, fd);
        }
    }
  }

  lemma {:induction false} DigestAllFades(c: Core, g: int, p: Phase, s: Bytes, fd: int)
    requires Roles(c) && AllRouted(c) && g >= 0
    ensures FadesOnly(c, DigestAll(c, g, p, s).0, g, fd)
    decreases |s|
  {
    if s != [] {
      var (d, q) := Digest(c, g, p, s[0]);
      DigestKeepsRoles(c, g, p, s[0]);
      DigestFades(c, g, p, s[0], fd);
      DigestAllFades(d, g, q, s[1..], fd);
      FadesTwice(c, d, DigestAll(d, g, q, s[1..]).0, g, fd);
    }
  }

  /** A call of handle_data that passes a message on leaves its sender's beat at zero; any other leaves it alone. */
  lemma HandleDataFades(c: Core, g: int, p: Phase, s: Bytes, failed: bool, fd: int)
    requires Roles(c) && AllRouted(c) && g >= 0
    ensures FadesOnly(c, HandleData(c, g, p, s, failed).0, g, fd)
  {
    if Alive(c, g) && !p.Overrun? {
      if p.Ready? {
        DeliverFades(c, g, p, fd);
      } else {
        var d := DigestAll(c, g, p, s).0;
        DigestAllFades(c, g, p, s, fd);
        HeaderFailFades(d, g, fd);
        FadesTwice(c, d, HeaderFail(d, g), g, fd);
      }
    }
  }

  // ---------------------------------------------------------------------------
  // A recovery pass
  // ---------------------------------------------------------------------------

  /** A recovery pass leaves the records of the workers it keeps as they were. */
  lemma RecoverySeen(l: Ledger, fd: int)
    requires FdsDistinct(l.workers) && Serving(CheckOnNodes(l).workers, fd)
    ensures Serving(l.workers, fd) && WatchOf(CheckOnNodes(l).workers, fd) == WatchOf(l.workers, fd)
  {
    var live, after := LiveOnly(l.workers), CheckOnNodes(l).workers;
    RecoveryPass(l, Task(0, []));
    GrewSameWatches(live, after);
    SameWatch(live, after, fd);
    LiveAreWorkers(l.workers);
    LiveOnlyDistinct(l.workers, fd);
    var n := live[FindWorker(live, fd).value];
    var i :| 0 <= i < |l.workers| && l.workers[i] == n;
    assert FindWorker(l.workers, fd) == Some(i);
  }

  // ---------------------------------------------------------------------------
  // Runs
  // ---------------------------------------------------------------------------

  /**
   What worker fd's record sees of an event that takes the master from c to d.  A reset is the passing
   on of a message of its own, whatever became of the record.
   */
  function Seen(c: Core, e: Event, d: Core, fd: int): seq<Detector.Event>
    requires Serving(c.ledger.workers, fd) && Serving(d.ledger.workers, fd)
  {
    match e
    case Beat(ip, _, now) =>
      if FindIp(c.ledger.workers, ip) == FindWorker(c.ledger.workers, fd) then [Detector.Beat(now)] else []
    case Scan(now) => [Detector.Scan(now)]
    case Redistribute(now) => [Detector.Scan(now)]
    case Data(g, _, _) =>
      if g != fd then []
      else
        (if PassedOn(c, d) then [Detector.Reset] else [])
        + (if WatchOf(d.ledger.workers, fd).alive != WatchOf(c.ledger.workers, fd).alive then [Detector.Broken] else [])
    case _ => []
  }

  /** The states a run goes through. */
  ghost predicate Trace(states: seq<Master>, events: seq<Event>) {
    && |states| == |events| + 1
    && forall i :: 0 <= i < |events| ==> LeadsAt(states, events, i)
  }

  ghost predicate LeadsAt(states: seq<Master>, events: seq<Event>, i: nat)
    requires i < |events| && |states| == |events| + 1
  {
    Leads(states[i], events[i], states[i + 1])
  }

  lemma {:induction false} RunHasTrace(m: Master, events: seq<Event>, n: Master) returns (states: seq<Master>)
    requires Reaches(m, events, n)
    ensures Trace(states, events) && states[0] == m && states[|events|] == n
    decreases |events|
  {
    if events == [] {
      states := [m];
    } else {
      var next := Apply(m, events[0]).value;
      assert Leads(m, events[0], next);
      var rest := RunHasTrace(next, events[1..], n);
      states := [m] + rest;
      forall i | 0 <= i < |events|
        ensures LeadsAt(states, events, i)
      {
        if i > 0 {
          assert LeadsAt(rest, events[1..], i - 1);
        }
      }
    }
  }

  /** Connection fd is a worker's all the time. */
  ghost predicate ServesThroughout(states: seq<Master>, fd: int) {
    forall i :: 0 <= i < |states| ==> Serving(states[i].core.ledger.workers, fd)
  }

  /** What its record sees of the first k events. */
  ghost function History(states: seq<Master>, events: seq<Event>, fd: int, k: nat): seq<Detector.Event>
    requires |states| == |events| + 1 && ServesThroughout(states, fd) && k <= |events|
  {
    if k == 0 then []
    else History(states, events, fd, k - 1)
         + Seen(states[k - 1].core, events[k - 1], states[k].core, fd)
  }

  lemma OneMore(history: seq<Detector.Event>, e: Detector.Event)
    ensures Detector.After(history + [e]) == Detector.Step(Detector.After(history), e)
  {
    assert (history + [e])[..|history|] == history;
  }

  lemma AfterData(history: seq<Detector.Event>, v: Detector.Watch, reset: bool)
    requires var w := Detector.After(history);
      (v.alive ==> w.alive) && v.lastBeat == if reset then 0.0 else w.lastBeat
    ensures var w := Detector.After(history);
      Detector.After(history + ((if reset then [Detector.Reset] else [])
                                + (if v.alive != w.alive then [Detector.Broken] else []))) == v
  {
    var w := Detector.After(history);
    var once := history + (if reset then [Detector.Reset] else []);
    if reset {
      OneMore(history, Detector.Reset);
    } else {
      assert once == history;
    }
    assert history + ((if reset then [Detector.Reset] else []) + (if v.alive != w.alive then [Detector.Broken] else []))
        == once + (if v.alive != w.alive then [Detector.Broken] else []);
    if v.alive != w.alive {
      OneMore(once, Detector.Broken);
    } else {
      assert once + [] == once;
    }
  }

  /** The record of worker fd is what `history` makes of it. */
  ghost predicate Records(workers: seq<Node>, fd: int, history: seq<Detector.Event>) {
    Serving(workers, fd) && WatchOf(workers, fd) == Detector.After(history)
  }

  lemma AcceptSeen(workers: seq<Node>, n: Node, fd: int)
    requires Serving(workers, fd)
    ensures FindWorker(workers + [n], fd) == FindWorker(workers, fd)
  {
    assert (workers + [n])[..|workers|] == workers;
  }

  lemma StepIsSeen(m: Master, e: Event, n: Master, fd: int, history: seq<Detector.Event>)
    requires Routing(m) && Leads(m, e, n) && Serving(n.core.ledger.workers, fd)
    requires Records(m.core.ledger.workers, fd, history)
    ensures Records(n.core.ledger.workers, fd, history + Seen(m.core, e, n.core, fd))
  {
    var l := m.core.ledger;
    assert history + [] == history;
    match e
    case Accept(g, ip) => AcceptSeen(l.workers, NewNode(g, ip), fd);
    case Beat(ip, cpu, now) =>
      BeatSeen(l, ip, cpu, now, fd);
      OneMore(history, Detector.Beat(now));
    case Scan(now) =>
      ScanSeen(l, now, fd);
      OneMore(history, Detector.Scan(now));
    case Redistribute(now) =>
      RedistributionSeen(l, now, fd);
      OneMore(history, Detector.Scan(now));
    case Data(g, s, failed) =>
      HandleDataFades(m.core, g, m.phases[g], s, failed, fd);
      if g == fd {
        AfterData(history, WatchOf(n.core.ledger.workers, fd), PassedOn(m.core, n.core));
      }
    case Recover => RecoverySeen(l, fd);
  }

  lemma NextIsRouted(m: Master, e: Event, n: Master)
    requires Routing(m) && Leads(m, e, n)
    ensures Routing(n)
  {
    StepKeepsRouting(m, e);
  }

  /** The record of a worker accepted before the run is what its history in the run makes of it. */
  lemma {:induction false} RecordFollowsHistory(states: seq<Master>, events: seq<Event>, fd: int, k: nat)
    requires Trace(states, events) && Routing(states[0]) && ServesThroughout(states, fd) && k <= |events|
    requires WatchOf(states[0].core.ledger.workers, fd) == Detector.FRESH
    ensures Routing(states[k]) && Records(states[k].core.ledger.workers, fd, History(states, events, fd, k))
  {
    if k > 0 {
      RecordFollowsHistory(states, events, fd, k - 1);
      assert LeadsAt(states, events, k - 1);
      NextIsRouted(states[k - 1], events[k - 1], states[k]);
      StepIsSeen(states[k - 1], events[k - 1], states[k], fd, History(states, events, fd, k - 1));
    }
  }

  lemma NewWorkerIsFresh(m: Master, fd: int, ip: Bytes, n: Master)
    requires Leads(m, Accept(fd, ip), n)
    ensures Serving(n.core.ledger.workers, fd) && WatchOf(n.core.ledger.workers, fd) == Detector.FRESH
  {
    var workers := n.core.ledger.workers;
    assert workers[|workers| - 1].fd == fd;
    assert workers[..|workers| - 1] == m.core.ledger.workers;
  }

  /**
   Accuracy in every run: a worker whose beats reach its record often enough, up to now, is not
   found silent by a scan now, whatever else the master does.
   */
  lemma RegularWorkerIsNotSuspected(states: seq<Master>, events: seq<Event>, fd: int, now: real)
    requires Trace(states, events) && Routing(states[0]) && ServesThroughout(states, fd)
    requires WatchOf(states[0].core.ledger.workers, fd) == Detector.FRESH
    requires Detector.Timely(History(states, events, fd, |events|) + [Detector.Scan(now)])
    requires Detector.RegularBeats(History(states, events, fd, |events|) + [Detector.Scan(now)])
    ensures !Detector.Suspects(WatchOf(states[|events|].core.ledger.workers, fd), now)
  {
    RecordFollowsHistory(states, events, fd, |events|);
    RegularNow(History(states, events, fd, |events|), now);
  }

  lemma RegularNow(before: seq<Detector.Event>, now: real)
    requires Detector.Timely(before + [Detector.Scan(now)]) && Detector.RegularBeats(before + [Detector.Scan(now)])
    ensures !Detector.Suspects(Detector.After(before), now)
  {
    var history := before + [Detector.Scan(now)];
    Detector.RegularWorkerStaysAlive(history, |history|);
    assert history[..|before|] == before;
    assert !Detector.Declares(history, |before|);
  }

  /** The same of a worker whose beats are at most three seconds apart, the last one included. */
  lemma PunctualWorkerIsNotSuspected(states: seq<Master>, events: seq<Event>, fd: int, now: real)
    requires Trace(states, events) && Routing(states[0]) && ServesThroughout(states, fd)
    requires WatchOf(states[0].core.ledger.workers, fd) == Detector.FRESH
    requires Detector.Timely(History(states, events, fd, |events|) + [Detector.Scan(now)])
    requires Detector.Punctual(History(states, events, fd, |events|) + [Detector.Scan(now)])
    ensures !Detector.Suspects(WatchOf(states[|events|].core.ledger.workers, fd), now)
  {
    Detector.PunctualIsRegular(History(states, events, fd, |events|) + [Detector.Scan(now)]);
    RegularWorkerIsNotSuspected(states, events, fd, now);
  }

  // ---------------------------------------------------------------------------
  // A message passed on
  // ---------------------------------------------------------------------------

  /** The beat reaches the record of worker fd. */
  predicate Reaching(m: Master, e: Event, fd: int) {
    e.Beat? && FindIp(m.core.ledger.workers, e.ip) == FindWorker(m.core.ledger.workers, fd)
  }

  /** No event but a beat that reaches a worker gives it a beat to remember. */
  lemma UntimedUntilBeat(m: Master, e: Event, n: Master, fd: int)
    requires Routing(m) && Leads(m, e, n) && !Reaching(m, e, fd)
    requires Serving(m.core.ledger.workers, fd) && Serving(n.core.ledger.workers, fd)
    requires WatchOf(m.core.ledger.workers, fd).lastBeat == 0.0
    ensures WatchOf(n.core.ledger.workers, fd).lastBeat == 0.0
  {
    var l := m.core.ledger;
    match e
    case Accept(g, ip) => AcceptSeen(l.workers, NewNode(g, ip), fd);
    case Beat(ip, cpu, now) => BeatSeen(l, ip, cpu, now, fd);
    case Scan(now) => ScanSeen(l, now, fd);
    case Redistribute(now) => RedistributionSeen(l, now, fd);
    case Data(g, s, failed) => HandleDataFades(m.core, g, m.phases[g], s, failed, fd);
    case Recover => RecoverySeen(l, fd);
  }

  lemma PassingOnForgets(m: Master, e: Event, n: Master, fd: int)
    requires Routing(m) && Leads(m, e, n) && e.Data? && e.fd == fd && PassedOn(m.core, n.core)
    requires Serving(n.core.ledger.workers, fd)
    ensures WatchOf(n.core.ledger.workers, fd).lastBeat == 0.0
  {
    HandleDataFades(m.core, fd, m.phases[fd], e.bytes, e.failed, fd);
  }

  /** No beat reaches worker fd from event i up to event k. */
  ghost predicate NoBeatReaches(states: seq<Master>, events: seq<Event>, fd: int, i: nat, k: nat)
    requires k <= |events| < |states|
  {
    forall j :: i <= j < k ==> !Reaching(states[j], events[j], fd)
  }

  lemma UntimedStep(states: seq<Master>, events: seq<Event>, fd: int, k: nat)
    requires Trace(states, events) && ServesThroughout(states, fd) && k < |events| && Routing(states[k])
    requires WatchOf(states[k].core.ledger.workers, fd).lastBeat == 0.0 && !Reaching(states[k], events[k], fd)
    ensures WatchOf(states[k + 1].core.ledger.workers, fd).lastBeat == 0.0
  {
    assert LeadsAt(states, events, k);
    UntimedUntilBeat(states[k], events[k], states[k + 1], fd);
  }

  lemma {:induction false} UntimedThroughout(states: seq<Master>, events: seq<Event>, fd: int, i: nat, k: nat)
    requires Trace(states, events) && Routing(states[0]) && ServesThroughout(states, fd)
    requires i <= k <= |events| && NoBeatReaches(states, events, fd, i, k)
    requires WatchOf(states[i].core.ledger.workers, fd).lastBeat == 0.0
    ensures WatchOf(states[k].core.ledger.workers, fd).lastBeat == 0.0
    decreases k
  {
    if k > i {
      UntimedThroughout(states, events, fd, i, k - 1);
      RoutedThroughout(states, events, k - 1);
      UntimedStep(states, events, fd, k - 1);
    }
  }

  /**
   In every run: once a message of a worker has been passed on, no scan, whenever it comes, finds the
   worker silent until a beat reaches it.
   */
  lemma NotSuspectedUntilBeat(states: seq<Master>, events: seq<Event>, fd: int, i: nat, k: nat, now: real)
    requires Trace(states, events) && Routing(states[0]) && ServesThroughout(states, fd)
    requires i < k <= |events| && events[i].Data? && events[i].fd == fd && PassedOn(states[i].core, states[i + 1].core)
    requires NoBeatReaches(states, events, fd, i + 1, k)
    ensures !Detector.Suspects(WatchOf(states[k].core.ledger.workers, fd), now)
  {
    RoutedThroughout(states, events, i);
    assert LeadsAt(states, events, i);
    PassingOnForgets(states[i], events[i], states[i + 1], fd);
    UntimedThroughout(states, events, fd, i + 1, k);
  }

  lemma {:induction false} RoutedThroughout(states: seq<Master>, events: seq<Event>, k: nat)
    requires Trace(states, events) && Routing(states[0]) && k <= |events|
    ensures Routing(states[k])
  {
    if k > 0 {
      RoutedThroughout(states, events, k - 1);
      assert LeadsAt(states, events, k - 1);
      NextIsRouted(states[k - 1], events[k - 1], states[k]);
    }
  }

  predicate IsScan(e: Event) {
    e.Scan? || e.Redistribute?
  }

  lemma SeenScan(c: Core, e: Event, d: Core, fd: int, k: nat)
    requires Serving(c.ledger.workers, fd) && Serving(d.ledger.workers, fd)
    requires k < |Seen(c, e, d, fd)| && Seen(c, e, d, fd)[k].Scan?
    ensures k == 0 && IsScan(e) && Seen(c, e, d, fd) == [Detector.Scan(e.now)]
  {
  }

  /** A scan behind the history before an event is that event. */
  lemma ScanIsLast(c: Core, e: Event, d: Core, fd: int,
                   before: seq<Detector.Event>, history: seq<Detector.Event>, k: nat)
    requires Serving(c.ledger.workers, fd) && Serving(d.ledger.workers, fd)
    requires history == before + Seen(c, e, d, fd) && |before| <= k < |history| && history[k].Scan?
    ensures IsScan(e) && e.now == history[k].at && history[..k] == before
  {
    SeenScan(c, e, d, fd, k - |before|);
  }

  /** The scan at position k of a history is the last event, or one of the history before that. */
  lemma ScanLastOrBefore(states: seq<Master>, events: seq<Event>, fd: int, n: nat,
                         history: seq<Detector.Event>, k: nat)
    returns (before: seq<Detector.Event>)
    requires |states| == |events| + 1 && ServesThroughout(states, fd) && 0 < n <= |events|
    requires history == History(states, events, fd, n) && k < |history| && history[k].Scan?
    ensures before == History(states, events, fd, n - 1)
    ensures if k < |before| then before[k] == history[k] && before[..k] == history[..k]
            else IsScan(events[n - 1]) && events[n - 1].now == history[k].at && before == history[..k]
  {
    before := History(states, events, fd, n - 1);
    assert before <= history;
    if k >= |before| {
      ScanIsLast(states[n - 1].core, events[n - 1], states[n].core, fd, before, history, k);
    }
  }

  /** Each scan in a worker's history is one of the run, and what it finds is the history up to it. */
  lemma {:induction false} ScanOfRun(states: seq<Master>, events: seq<Event>, fd: int, n: nat,
                                     history: seq<Detector.Event>, k: nat)
    returns (e: nat)
    requires |states| == |events| + 1 && ServesThroughout(states, fd) && n <= |events|
    requires history == History(states, events, fd, n) && k < |history| && history[k].Scan?
    ensures e < n && IsScan(events[e]) && events[e].now == history[k].at
    ensures History(states, events, fd, e) == history[..k]
  {
    var before := ScanLastOrBefore(states, events, fd, n, history, k);
    if k < |before| {
      e := ScanOfRun(states, events, fd, n - 1, before, k);
    } else {
      e := n - 1;
    }
  }

  /** Scan e of the run finds worker fd silent, by the time given. */
  ghost predicate FindsSilent(states: seq<Master>, events: seq<Event>, fd: int, e: nat, deadline: real)
    requires |states| == |events| + 1 && ServesThroughout(states, fd)
  {
    && e < |events| && IsScan(events[e]) && events[e].now <= deadline
    && Detector.Suspects(WatchOf(states[e].core.ledger.workers, fd), events[e].now)
  }

  lemma DeclaredInRun(states: seq<Master>, events: seq<Event>, fd: int, history: seq<Detector.Event>, k: nat,
                      deadline: real)
    returns (e: nat)
    requires Trace(states, events) && Routing(states[0]) && ServesThroughout(states, fd)
    requires WatchOf(states[0].core.ledger.workers, fd) == Detector.FRESH
    requires history == History(states, events, fd, |events|)
    requires k < |history| && Detector.Declares(history, k) && history[k].at <= deadline
    ensures FindsSilent(states, events, fd, e, deadline)
  {
    e := ScanOfRun(states, events, fd, |events|, history, k);
    RecordFollowsHistory(states, events, fd, e);
  }

  /**
   Completeness in every run: a worker from which, after some beat, the record sees nothing but
   scans is found silent by one of them no later than that beat plus three seconds plus the
   largest gap between scans, once the scans reach past the three seconds, and is dead then.
   */
  lemma SilentWorkerIsFoundDead(states: seq<Master>, events: seq<Event>, fd: int, history: seq<Detector.Event>,
                                b: nat, gap: real)
    returns (e: nat)
    requires Trace(states, events) && Routing(states[0]) && ServesThroughout(states, fd)
    requires WatchOf(states[0].core.ledger.workers, fd) == Detector.FRESH
    requires history == History(states, events, fd, |events|)
    requires Detector.Timely(history) && Detector.SilentSince(history, b, gap)
    requires history[|history| - 1].at > history[b].at + 3.0
    ensures FindsSilent(states, events, fd, e, history[b].at + 3.0 + gap)
    ensures !WatchOf(states[|events|].core.ledger.workers, fd).alive
  {
    RecordFollowsHistory(states, events, fd, |events|);
    Detector.SilentWorkerIsDeclared(history, b, gap);
    var k :| b < k < |history| && Detector.Declares(history, k)
      && history[k].at <= history[b].at + 3.0 + gap;
    e := DeclaredInRun(states, events, fd, history, k, history[b].at + 3.0 + gap);
  }
}
