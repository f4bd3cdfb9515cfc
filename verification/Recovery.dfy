/**
 What master.c does to the ledger when a job is answered and when a worker is lost:
 scheduler_remove_task, reschedule and checkOnNodes.
 */
module Recovery {
  import opened Options
  import opened WireFormat
  import opened Scheduling

  // ---------------------------------------------------------------------------
  // Answers
  // ---------------------------------------------------------------------------

  /** The position of the first element with a property. */
  function FirstWhere<T>(s: seq<T>, p: T -> bool): (pos: Option<nat>)
    ensures pos.Some? ==> pos.value < |s| && p(s[pos.value]) && forall i :: 0 <= i < pos.value ==> !p(s[i])
    ensures pos.None? ==> forall i :: 0 <= i < |s| ==> !p(s[i])
  {
    if s == [] then None
    else
      var n := |s| - 1;
      var pos := FirstWhere(s[..n], p);
      if pos.Some? then pos else if p(s[n]) then Some(n) else None
  }

  /** The position of the first worker on a connection. */
  function FindWorker(workers: seq<Node>, fd: int): (pos: Option<nat>)
    ensures pos.Some? ==>
      && pos.value < |workers| && workers[pos.value].fd == fd
      && forall i :: 0 <= i < pos.value ==> workers[i].fd != fd
    ensures pos.None? ==> forall i :: 0 <= i < |workers| ==> workers[i].fd != fd
  {
    FirstWhere(workers, (n: Node) => n.fd == fd)
  }

  /** The position of the first job with a file name. */
  function FindTask(tasks: seq<Task>, name: Bytes): (pos: Option<nat>)
    ensures pos.Some? ==>
      && pos.value < |tasks| && tasks[pos.value].name == name
      && forall i :: 0 <= i < pos.value ==> tasks[i].name != name
    ensures pos.None? ==> forall i :: 0 <= i < |tasks| ==> tasks[i].name != name
  {
    FirstWhere(tasks, (t: Task) => t.name == name)
  }

  function Without<T>(s: seq<T>, i: nat): seq<T>
    requires i < |s|
  {
    s[..i] + s[i + 1..]
  }

  /** scheduler_remove_task, with the job it takes off the list. */
  function RemoveTask(l: Ledger, fd: int, name: Bytes): (Ledger, Option<Task>) {
    match FindWorker(l.workers, fd)
    case None => (l, None)
    case Some(w) =>
      var tasks := l.workers[w].tasks;
      match FindTask(tasks, name)
      case None => (l, None)
      case Some(k) => (l.(workers := l.workers[w := l.workers[w].(tasks := Without(tasks, k))]), Some(tasks[k]))
  }

  lemma CountWithout(tasks: seq<Task>, k: nat, u: Task)
    requires k < |tasks|
    ensures multiset(Without(tasks, k))[u] + One(tasks[k], u) == multiset(tasks)[u]
  {
    assert tasks == tasks[..k] + [tasks[k]] + tasks[k + 1..];
  }

  /** A matched answer takes out exactly one job, however many share its name; an unmatched one none. */
  lemma RemovalTakesOne(l: Ledger, fd: int, name: Bytes, u: Task)
    ensures var (m, t) := RemoveTask(l, fd, name);
      && |m.workers| == |l.workers| && m.pending == l.pending
      && (t.Some? ==> t.value.name == name && Copies(m, u) + One(t.value, u) == Copies(l, u))
      && (t.None? ==> m == l)
      && (t.None? <==> FindWorker(l.workers, fd).None?
                       || FindTask(l.workers[FindWorker(l.workers, fd).value].tasks, name).None?)
  {
    var (m, t) := RemoveTask(l, fd, name);
    if t.Some? {
      var w := FindWorker(l.workers, fd).value;
      HeldUpdated(l.workers, w, m.workers[w], u);
      CountWithout(l.workers[w].tasks, FindTask(l.workers[w].tasks, name).value, u);
    }
  }

  // ---------------------------------------------------------------------------
  // reschedule
  // ---------------------------------------------------------------------------

  /** The erasing loop of reschedule: positions i, i + 1, ..., n - 1, of a list that shrinks meanwhile. */
  function EraseRising(tasks: seq<Task>, i: nat, n: nat): Option<seq<Task>>
    requires i <= n
    decreases n - i
  {
    if i == n then Some(tasks)
    else if i < |tasks| then EraseRising(Without(tasks, i), i + 1, n)
    else None
  }

  lemma {:induction false} EraseRisingFails(tasks: seq<Task>, i: nat, n: nat)
    requires i < n && |tasks| == n - i && n >= 2
    ensures EraseRising(tasks, i, n).None?
    decreases n - i
  {
    if i + 1 < n && i < |tasks| {
      EraseRisingFails(Without(tasks, i), i + 1, n);
    }
  }

  /** The loop stays inside the list, and then empties it, exactly for lists of at most one job. */
  lemma EraseLoopInRangeIff(tasks: seq<Task>)
    ensures EraseRising(tasks, 0, |tasks|).Some? <==> |tasks| <= 1
    ensures |tasks| <= 1 ==> EraseRising(tasks, 0, |tasks|) == Some([])
  {
    if |tasks| >= 2 {
      EraseRisingFails(tasks, 0, |tasks|);
    } else if |tasks| == 1 {
      assert Without(tasks, 0) == [];
    }
  }

  /** reschedule for worker w; None when the erasing loop leaves the list. */
  function Reschedule(l: Ledger, w: nat): Option<Ledger>
    requires w < |l.workers| && !l.workers[w].alive
  {
    var tasks := l.workers[w].tasks;
    var m := ScheduleAll(l, tasks);
    ScheduleAllGrows(l, tasks);
    match EraseRising(tasks, 0, |tasks|)
    case None => None
    case Some(rest) => Some(Emptied(m, w, rest))
  }

  function Emptied(l: Ledger, w: nat, rest: seq<Task>): Ledger
    requires w < |l.workers|
  {
    l.(workers := l.workers[w := l.workers[w].(tasks := rest)])
  }

  /** reschedule as it is meant: the dead worker's jobs handed out and its list emptied, whatever its length. */
  function HandedOut(l: Ledger, w: nat): (m: Ledger)
    requires w < |l.workers|
    ensures |m.workers| == |l.workers|
  {
    ScheduleAllGrows(l, l.workers[w].tasks);
    Emptied(ScheduleAll(l, l.workers[w].tasks), w, [])
  }

  /** What the code does is what is meant if and only if there was at most one job. */
  lemma RescheduleIsMeantIff(l: Ledger, w: nat)
    requires w < |l.workers| && !l.workers[w].alive
    ensures Reschedule(l, w) == if |l.workers[w].tasks| <= 1 then Some(HandedOut(l, w)) else None
  {
    EraseLoopInRangeIff(l.workers[w].tasks);
  }

  /**
   The handing out of a dead worker's jobs, whatever their number: none comes back to it, each
   goes to exactly one live worker or to the pending list, and what every other worker already
   had stays first and in order.
   */
  lemma HandingOut(l: Ledger, w: nat, u: Task)
    requires w < |l.workers| && !l.workers[w].alive
    ensures var m := ScheduleAll(l, l.workers[w].tasks);
      && AllGrew(l.workers, m.workers) && m.workers[w] == l.workers[w]
      && l.pending <= m.pending
      && Copies(m, u) == Copies(l, u) + multiset(l.workers[w].tasks)[u]
      && Copies(HandedOut(l, w), u) == Copies(l, u)
  {
    var tasks := l.workers[w].tasks;
    var m := ScheduleAll(l, tasks);
    ScheduleAllGrows(l, tasks);
    ScheduleAllAdds(l, tasks, u);
    assert Grew(l.workers[w], m.workers[w]);
    HeldUpdated(m.workers, w, m.workers[w].(tasks := []), u);
  }

  /** reschedule itself completes exactly when the dead worker had at most one job, and then loses none. */
  lemma RescheduleConservesIff(l: Ledger, w: nat, u: Task)
    requires w < |l.workers| && !l.workers[w].alive
    ensures Reschedule(l, w).Some? <==> |l.workers[w].tasks| <= 1
    ensures Reschedule(l, w).Some? ==>
      var m := Reschedule(l, w).value;
      && |m.workers| == |l.workers| && m.workers[w] == l.workers[w].(tasks := [])
      && (forall i :: 0 <= i < |l.workers| && i != w ==> Grew(l.workers[i], m.workers[i]))
      && l.pending <= m.pending
      && Copies(m, u) == Copies(l, u)
  {
    EraseLoopInRangeIff(l.workers[w].tasks);
    HandingOut(l, w, u);
  }

  // ---------------------------------------------------------------------------
  // checkOnNodes
  // ---------------------------------------------------------------------------

  /** The first loop: from the last worker down, dead ones are erased and their jobs scheduled anew. */
  function Sweep(l: Ledger, i: nat): Ledger
    requires i <= |l.workers|
    decreases i
  {
    if i == 0 then l
    else if l.workers[i - 1].alive then Sweep(l, i - 1)
    else
      var smaller := l.(workers := Without(l.workers, i - 1));
      ScheduleAllGrows(smaller, l.workers[i - 1].tasks);
      Sweep(ScheduleAll(smaller, l.workers[i - 1].tasks), i - 1)
  }

  /** The second loop: from the last pending job down, each is erased and scheduled anew. */
  function Retry(l: Ledger, i: nat): Ledger
    requires i <= |l.pending|
    decreases i
  {
    if i == 0 then l
    else
      var smaller := l.(pending := Without(l.pending, i - 1));
      ScheduleGrows(smaller, l.pending[i - 1]);
      Retry(Schedule(smaller, l.pending[i - 1]), i - 1)
  }

  function CheckOnNodes(l: Ledger): Ledger {
    var swept := Sweep(l, |l.workers|);
    Retry(swept, |swept.pending|)
  }

  function LiveOnly(workers: seq<Node>): (live: seq<Node>)
    ensures forall i :: 0 <= i < |live| ==> live[i].alive
  {
    if workers == [] then []
    else
      var n := |workers| - 1;
      LiveOnly(workers[..n]) + (if workers[n].alive then [workers[n]] else [])
  }

  lemma {:induction false} LiveOnlyWithout(workers: seq<Node>, i: nat)
    requires i < |workers| && !workers[i].alive
    ensures LiveOnly(Without(workers, i)) == LiveOnly(workers)
  {
    var n := |workers| - 1;
    if i == n {
      assert Without(workers, i) == workers[..n];
    } else {
      LiveOnlyWithout(workers[..n], i);
      assert Without(workers, i)[..n - 1] == Without(workers[..n], i);
    }
  }

  lemma {:induction false} LiveOnlyGrew(before: seq<Node>, after: seq<Node>)
    requires AllGrew(before, after)
    ensures AllGrew(LiveOnly(before), LiveOnly(after))
  {
    if before != [] {
      var n := |before| - 1;
      assert Grew(before[n], after[n]);
      LiveOnlyGrew(before[..n], after[..n]);
    }
  }

  lemma {:induction false} LiveOnlyOfLive(workers: seq<Node>)
    requires forall i :: 0 <= i < |workers| ==> workers[i].alive
    ensures LiveOnly(workers) == workers
  {
    if workers != [] {
      LiveOnlyOfLive(workers[..|workers| - 1]);
    }
  }

  lemma GrewTwice(a: seq<Node>, b: seq<Node>, c: seq<Node>)
    requires AllGrew(a, b) && AllGrew(b, c)
    ensures AllGrew(a, c)
  {
    forall i | 0 <= i < |a|
      ensures Grew(a[i], c[i])
    {
      assert Grew(a[i], b[i]) && Grew(b[i], c[i]);
    }
  }

  lemma GrewAtAll(a: seq<Node>)
    ensures AllGrew(a, a)
  {
  }

  lemma WithoutWorker(l: Ledger, i: nat, u: Task)
    requires i < |l.workers|
    ensures var smaller := l.(workers := Without(l.workers, i));
      Copies(ScheduleAll(smaller, l.workers[i].tasks), u) == Copies(l, u)
  {
    HeldWithout(l.workers, i, u);
    ScheduleAllAdds(l.(workers := Without(l.workers, i)), l.workers[i].tasks, u);
  }

  lemma {:induction false} SweepConserves(l: Ledger, i: nat, u: Task)
    requires i <= |l.workers|
    ensures Copies(Sweep(l, i), u) == Copies(l, u)
    decreases i
  {
    if i > 0 {
      if l.workers[i - 1].alive {
        SweepConserves(l, i - 1, u);
      } else {
        var smaller := l.(workers := Without(l.workers, i - 1));
        WithoutWorker(l, i - 1, u);
        ScheduleAllGrows(smaller, l.workers[i - 1].tasks);
        SweepConserves(ScheduleAll(smaller, l.workers[i - 1].tasks), i - 1, u);
      }
    }
  }

  /** The survivors of the first loop are the live workers, in order, with more to do. */
  lemma {:induction false} SweepKeepsLive(l: Ledger, i: nat)
    requires i <= |l.workers|
    requires forall j :: i <= j < |l.workers| ==> l.workers[j].alive
    ensures forall j :: 0 <= j < |Sweep(l, i).workers| ==> Sweep(l, i).workers[j].alive
    ensures AllGrew(LiveOnly(l.workers), Sweep(l, i).workers)
    decreases i
  {
    if i == 0 {
      LiveOnlyOfLive(l.workers);
      GrewAtAll(l.workers);
    } else if l.workers[i - 1].alive {
      SweepKeepsLive(l, i - 1);
    } else {
      var smaller := l.(workers := Without(l.workers, i - 1));
      var m := ScheduleAll(smaller, l.workers[i - 1].tasks);
      ScheduleAllGrows(smaller, l.workers[i - 1].tasks);
      forall j | i - 1 <= j < |m.workers|
        ensures m.workers[j].alive
      {
        assert Grew(smaller.workers[j], m.workers[j]);
      }
      SweepKeepsLive(m, i - 1);
      LiveOnlyWithout(l.workers, i - 1);
      LiveOnlyGrew(smaller.workers, m.workers);
      GrewTwice(LiveOnly(l.workers), LiveOnly(m.workers), Sweep(m, i - 1).workers);
    }
  }

  lemma RetryOne(l: Ledger, i: nat, u: Task)
    requires 0 < i <= |l.pending|
    ensures var smaller := l.(pending := Without(l.pending, i - 1));
      Copies(Schedule(smaller, l.pending[i - 1]), u) == Copies(l, u)
  {
    CountWithout(l.pending, i - 1, u);
    ScheduleAddsOne(l.(pending := Without(l.pending, i - 1)), l.pending[i - 1], u);
  }

  lemma {:induction false} RetryConserves(l: Ledger, i: nat, u: Task)
    requires i <= |l.pending|
    ensures Copies(Retry(l, i), u) == Copies(l, u)
    decreases i
  {
    if i > 0 {
      var smaller := l.(pending := Without(l.pending, i - 1));
      RetryOne(l, i, u);
      ScheduleGrows(smaller, l.pending[i - 1]);
      RetryConserves(Schedule(smaller, l.pending[i - 1]), i - 1, u);
    }
  }

  /** After the second loop a job is still pending only if no worker is eligible. */
  lemma {:induction false} RetryPlaces(l: Ledger, i: nat)
    requires i <= |l.pending|
    requires i == |l.pending| || NoneEligible(l.workers)
    ensures AllGrew(l.workers, Retry(l, i).workers)
    ensures Retry(l, i).pending == [] || NoneEligible(Retry(l, i).workers)
    decreases i
  {
    if i == 0 {
      GrewAtAll(l.workers);
    } else {
      var smaller := l.(pending := Without(l.pending, i - 1));
      var m := Schedule(smaller, l.pending[i - 1]);
      ScheduleGrows(smaller, l.pending[i - 1]);
      PendingMeansNoneEligible(smaller, l.pending[i - 1]);
      RetryPlaces(m, i - 1);
      GrewTwice(l.workers, m.workers, Retry(m, i - 1).workers);
    }
  }

  function Reverse(ts: seq<Task>): (r: seq<Task>)
    ensures |r| == |ts|
  {
    if ts == [] then [] else [ts[|ts| - 1]] + Reverse(ts[..|ts| - 1])
  }

  lemma {:induction false} RetryReverses(l: Ledger, i: nat)
    requires i <= |l.pending| && NoneEligible(l.workers)
    ensures Retry(l, i) == l.(pending := l.pending[i..] + Reverse(l.pending[..i]))
    decreases i
  {
    if i == 0 {
      assert l.pending[0..] + [] == l.pending;
    } else {
      var t := l.pending[i - 1];
      var smaller := l.(pending := Without(l.pending, i - 1));
      var m := Schedule(smaller, t);
      PendingMeansNoneEligible(smaller, t);
      RetryReverses(m, i - 1);
      assert m.pending[i - 1..] == l.pending[i..] + [t];
      assert m.pending[..i - 1] == l.pending[..i][..i - 1];
      assert l.pending[i..] + [t] + Reverse(m.pending[..i - 1]) == l.pending[i..] + ([t] + Reverse(m.pending[..i - 1]));
    }
  }

  /**
   The recovery pass: no dead worker is left, the live ones keep their jobs first and in order,
   no job is lost or doubled, and a job remains pending only if every live worker is at the
   load cap, so with a worker under the cap afterwards all jobs are on live workers.
   */
  lemma RecoveryPass(l: Ledger, u: Task)
    ensures forall j :: 0 <= j < |CheckOnNodes(l).workers| ==> CheckOnNodes(l).workers[j].alive
    ensures AllGrew(LiveOnly(l.workers), CheckOnNodes(l).workers)
    ensures Copies(CheckOnNodes(l), u) == Copies(l, u)
    ensures CheckOnNodes(l).pending == [] || NoneEligible(CheckOnNodes(l).workers)
  {
    var swept := Sweep(l, |l.workers|);
    SweepKeepsLive(l, |l.workers|);
    SweepConserves(l, |l.workers|, u);
    RetryConserves(swept, |swept.pending|, u);
    RetryPlaces(swept, |swept.pending|);
    var done := CheckOnNodes(l);
    GrewTwice(LiveOnly(l.workers), swept.workers, done.workers);
    forall j | 0 <= j < |done.workers|
      ensures done.workers[j].alive
    {
      assert Grew(swept.workers[j], done.workers[j]);
    }
  }

  /** The jobs of dead workers in the order in which the first loop comes to them. */
  function Orphans(workers: seq<Node>): seq<Task> {
    if workers == [] then []
    else
      var n := |workers| - 1;
      (if workers[n].alive then [] else workers[n].tasks) + Orphans(workers[..n])
  }

  /** One round of the first loop over a dead worker, when nobody can take its jobs. */
  lemma SweepDead(l: Ledger, i: nat)
    requires 0 < i <= |l.workers| && NoneEligible(l.workers) && !l.workers[i - 1].alive
    ensures var m := Ledger(Without(l.workers, i - 1), l.pending + l.workers[i - 1].tasks);
      && Sweep(l, i) == Sweep(m, i - 1)
      && NoneEligible(m.workers) && m.workers[..i - 1] == l.workers[..i - 1]
      && LiveOnly(m.workers) == LiveOnly(l.workers)
    ensures Orphans(l.workers[..i]) == l.workers[i - 1].tasks + Orphans(l.workers[..i - 1])
  {
    var smaller := l.(workers := Without(l.workers, i - 1));
    assert l.workers[..i][..i - 1] == l.workers[..i - 1];
    NoneEligibleAll(smaller, l.workers[i - 1].tasks);
    LiveOnlyWithout(l.workers, i - 1);
  }

  /** One round over a live worker. */
  lemma SweepLive(l: Ledger, i: nat)
    requires 0 < i <= |l.workers| && l.workers[i - 1].alive
    ensures Sweep(l, i) == Sweep(l, i - 1)
    ensures Orphans(l.workers[..i]) == Orphans(l.workers[..i - 1])
  {
    assert l.workers[..i][..i - 1] == l.workers[..i - 1];
    assert [] + Orphans(l.workers[..i - 1]) == Orphans(l.workers[..i - 1]);
  }

  lemma {:induction false} SweepWithoutTakers(l: Ledger, i: nat)
    requires i <= |l.workers| && NoneEligible(l.workers)
    requires forall j :: i <= j < |l.workers| ==> l.workers[j].alive
    ensures Sweep(l, i) == Ledger(LiveOnly(l.workers), l.pending + Orphans(l.workers[..i]))
    decreases i
  {
    if i == 0 {
      LiveOnlyOfLive(l.workers);
      assert l.pending + [] == l.pending;
    } else if l.workers[i - 1].alive {
      SweepWithoutTakers(l, i - 1);
      SweepLive(l, i);
    } else {
      var tasks := l.workers[i - 1].tasks;
      SweepDead(l, i);
      SweepWithoutTakers(Ledger(Without(l.workers, i - 1), l.pending + tasks), i - 1);
      Regroup(l.pending, tasks, Orphans(l.workers[..i - 1]));
    }
  }

  lemma Regroup(a: seq<Task>, b: seq<Task>, c: seq<Task>)
    ensures a + b + c == a + (b + c)
  {
  }

  /**
   With no worker to take anything, a pass gathers the orphans behind the pending jobs and
   exactly reverses the whole list.
   */
  lemma PassWithoutTakersReverses(l: Ledger)
    requires NoneEligible(l.workers)
    ensures CheckOnNodes(l) == Ledger(LiveOnly(l.workers), Reverse(l.pending + Orphans(l.workers)))
  {
    assert l.workers[..|l.workers|] == l.workers;
    SweepWithoutTakers(l, |l.workers|);
    var swept := Sweep(l, |l.workers|);
    LiveAreWorkers(l.workers);
    RetryReverses(swept, |swept.pending|);
    assert swept.pending[..|swept.pending|] == swept.pending;
    assert [] + Reverse(swept.pending) == Reverse(swept.pending);
  }

  lemma {:induction false} LiveAreWorkers(workers: seq<Node>)
    ensures forall i :: 0 <= i < |LiveOnly(workers)| ==> LiveOnly(workers)[i] in workers
  {
    if workers != [] {
      LiveAreWorkers(workers[..|workers| - 1]);
    }
  }
}
