/**
 The scheduler and the ledger of master.c: which worker holds which job, which jobs wait for a
 worker, and what happens to the jobs of a worker that is declared dead.
 */
module Scheduling {
  import opened Options
  import opened WireFormat

  /** A submitted job; the number tells apart jobs with the same file name. */
  datatype Task = Task(id: nat, name: Bytes)

  /** The bookkeeping half of a connection record. */
  datatype Node = Node(fd: int, ip: Bytes, alive: bool, cpu: real, beat: real, tasks: seq<Task>)

  datatype Ledger = Ledger(workers: seq<Node>, pending: seq<Task>)

  const LOAD_CAP: real := 100000000.0

  function Load(n: Node): real {
    n.cpu * 10.0 + |n.tasks| as real
  }

  predicate Eligible(n: Node) {
    n.alive && Load(n) < LOAD_CAP
  }

  // ---------------------------------------------------------------------------
  // schedule
  // ---------------------------------------------------------------------------

  /** The first of the live workers with the least load, if that is under the cap. */
  ghost predicate IsBest(workers: seq<Node>, best: Option<nat>) {
    match best
    case None => forall i :: 0 <= i < |workers| ==> !Eligible(workers[i])
    case Some(b) =>
      && b < |workers| && Eligible(workers[b])
      && (forall i :: 0 <= i < |workers| && workers[i].alive ==> Load(workers[b]) <= Load(workers[i]))
      && (forall i :: 0 <= i < b && workers[i].alive ==> Load(workers[b]) < Load(workers[i]))
  }

  function Best(workers: seq<Node>): (best: Option<nat>)
    ensures IsBest(workers, best)
  {
    if workers == [] then None
    else
      var n := |workers| - 1;
      var best := Best(workers[..n]);
      var bar := if best.Some? then Load(workers[best.value]) else LOAD_CAP;
      if workers[n].alive && Load(workers[n]) < bar then Some(n) else best
  }

  lemma BestIsUnique(workers: seq<Node>, best: Option<nat>)
    requires IsBest(workers, best)
    ensures best == Best(workers)
  {
  }

  /**
   Worker w is the one to be given the next job: it is alive, ten times its CPU usage plus the
   number of its jobs is under a hundred million and at most what it is for any live worker, and
   less than for every live one before it.
   */
  ghost predicate IsNext(workers: seq<Node>, w: nat)
    requires w < |workers|
  {
    && workers[w].alive && workers[w].cpu * 10.0 + |workers[w].tasks| as real < 100000000.0
    && (forall i :: 0 <= i < |workers| && workers[i].alive ==>
          workers[w].cpu * 10.0 + |workers[w].tasks| as real <= workers[i].cpu * 10.0 + |workers[i].tasks| as real)
    && (forall i :: 0 <= i < w && workers[i].alive ==>
          workers[w].cpu * 10.0 + |workers[w].tasks| as real < workers[i].cpu * 10.0 + |workers[i].tasks| as real)
  }

  /** Every live worker is at a hundred million or above. */
  ghost predicate AllOverloaded(workers: seq<Node>) {
    forall n <- workers :: n.alive ==> n.cpu * 10.0 + |n.tasks| as real >= 100000000.0
  }

  /**
   Exactly the worker that is next is given the job, at the end of its list, and nothing else
   changes; the job is left pending exactly when no live worker is under a hundred million.
   */
  lemma NextGetsTheJob(l: Ledger, t: Task)
    ensures |Schedule(l, t).workers| == |l.workers|
    ensures forall w :: 0 <= w < |l.workers| ==>
      var n := l.workers[w];
      Schedule(l, t).workers[w] == if IsNext(l.workers, w) then n.(tasks := n.tasks + [t]) else n
    ensures Schedule(l, t).pending == l.pending + (if AllOverloaded(l.workers) then [t] else [])
    ensures forall w :: 0 <= w < |l.workers| && IsNext(l.workers, w) ==> ChosenFd(l) == l.workers[w].fd
    ensures Schedule(l, t).pending != l.pending ==> ChosenFd(l) == -1
  {
    forall w | 0 <= w < |l.workers|
      ensures IsNext(l.workers, w) <==> Best(l.workers) == Some(w)
    {
      NextIsBest(l.workers, w);
    }
    forall i | 0 <= i < |l.workers|
      ensures Load(l.workers[i]) == l.workers[i].cpu * 10.0 + |l.workers[i].tasks| as real
    {
    }
  }

  lemma NextIsBest(workers: seq<Node>, w: nat)
    requires w < |workers|
    ensures IsNext(workers, w) <==> Best(workers) == Some(w)
  {
    if IsNext(workers, w) {
      assert forall i :: 0 <= i < |workers| ==>
        Load(workers[i]) == workers[i].cpu * 10.0 + |workers[i].tasks| as real;
      BestIsUnique(workers, Some(w));
    }
  }

  function Give(n: Node, t: Task): Node {
    n.(tasks := n.tasks + [t])
  }

  function Schedule(l: Ledger, t: Task): Ledger {
    match Best(l.workers)
    case None => l.(pending := l.pending + [t])
    case Some(b) => l.(workers := l.workers[b := Give(l.workers[b], t)])
  }

  /** The fd that schedule returns. */
  function ChosenFd(l: Ledger): int {
    match Best(l.workers)
    case None => -1
    case Some(b) => l.workers[b].fd
  }

  /** Scheduling a list of jobs, in order. */
  function ScheduleAll(l: Ledger, ts: seq<Task>): Ledger
    decreases |ts|
  {
    if ts == [] then l else ScheduleAll(Schedule(l, ts[0]), ts[1..])
  }

  // ---------------------------------------------------------------------------
  // Counting jobs
  // ---------------------------------------------------------------------------

  /** How many times a job is on the workers' lists. */
  function Held(workers: seq<Node>, t: Task): nat {
    if workers == [] then 0 else multiset(workers[0].tasks)[t] + Held(workers[1..], t)
  }

  /** How many times a job is in the ledger at all. */
  function Copies(l: Ledger, t: Task): nat {
    Held(l.workers, t) + multiset(l.pending)[t]
  }

  lemma {:induction false} HeldUpdated(workers: seq<Node>, i: nat, n: Node, t: Task)
    requires i < |workers|
    ensures Held(workers[i := n], t) + multiset(workers[i].tasks)[t] == Held(workers, t) + multiset(n.tasks)[t]
  {
    if i == 0 {
      assert workers[i := n][1..] == workers[1..];
    } else {
      assert workers[i := n][1..] == workers[1..][i - 1 := n];
      HeldUpdated(workers[1..], i - 1, n, t);
    }
  }

  lemma {:induction false} HeldWithout(workers: seq<Node>, i: nat, t: Task)
    requires i < |workers|
    ensures Held(workers[..i] + workers[i + 1..], t) + multiset(workers[i].tasks)[t] == Held(workers, t)
  {
    if i == 0 {
      assert workers[..i] + workers[i + 1..] == workers[1..];
    } else {
      assert (workers[..i] + workers[i + 1..])[1..] == workers[1..][..i - 1] + workers[1..][i..];
      HeldWithout(workers[1..], i - 1, t);
    }
  }

  lemma {:induction false} HeldOneMore(workers: seq<Node>, n: Node, t: Task)
    ensures Held(workers + [n], t) == Held(workers, t) + multiset(n.tasks)[t]
  {
    if workers == [] {
      assert [n][1..] == [];
    } else {
      assert (workers + [n])[1..] == workers[1..] + [n];
      HeldOneMore(workers[1..], n, t);
    }
  }

  function One(t: Task, u: Task): nat {
    if t == u then 1 else 0
  }

  lemma CountOneMore(ts: seq<Task>, t: Task, u: Task)
    ensures multiset(ts + [t])[u] == multiset(ts)[u] + One(t, u)
  {
  }

  /** Scheduling puts the job in exactly one more place and moves no other job. */
  lemma ScheduleAddsOne(l: Ledger, t: Task, u: Task)
    ensures Copies(Schedule(l, t), u) == Copies(l, u) + One(t, u)
  {
    match Best(l.workers)
    case None => CountOneMore(l.pending, t, u);
    case Some(b) =>
      HeldUpdated(l.workers, b, Give(l.workers[b], t), u);
      CountOneMore(l.workers[b].tasks, t, u);
  }

  lemma {:induction false} ScheduleAllAdds(l: Ledger, ts: seq<Task>, u: Task)
    ensures Copies(ScheduleAll(l, ts), u) == Copies(l, u) + multiset(ts)[u]
    decreases |ts|
  {
    if ts != [] {
      ScheduleAddsOne(l, ts[0], u);
      ScheduleAllAdds(Schedule(l, ts[0]), ts[1..], u);
      assert ts == [ts[0]] + ts[1..];
    }
  }

  // ---------------------------------------------------------------------------
  // What scheduling leaves alone
  // ---------------------------------------------------------------------------

  /** `after` is `before` with jobs added at the end, and that only if it is alive. */
  ghost predicate Grew(before: Node, after: Node) {
    && after == before.(tasks := after.tasks)
    && before.tasks <= after.tasks
    && (!before.alive ==> after == before)
  }

  ghost predicate AllGrew(before: seq<Node>, after: seq<Node>) {
    && |after| == |before|
    && forall i :: 0 <= i < |before| ==> Grew(before[i], after[i])
  }

  lemma ScheduleGrows(l: Ledger, t: Task)
    ensures AllGrew(l.workers, Schedule(l, t).workers)
    ensures l.pending <= Schedule(l, t).pending
  {
  }

  lemma {:induction false} ScheduleAllGrows(l: Ledger, ts: seq<Task>)
    ensures AllGrew(l.workers, ScheduleAll(l, ts).workers)
    ensures l.pending <= ScheduleAll(l, ts).pending
    decreases |ts|
  {
    if ts != [] {
      var m := Schedule(l, ts[0]);
      ScheduleGrows(l, ts[0]);
      ScheduleAllGrows(m, ts[1..]);
      var n := ScheduleAll(m, ts[1..]);
      forall i | 0 <= i < |l.workers|
        ensures Grew(l.workers[i], n.workers[i])
      {
        assert Grew(l.workers[i], m.workers[i]) && Grew(m.workers[i], n.workers[i]);
      }
    }
  }

  ghost predicate NoneEligible(workers: seq<Node>) {
    forall i :: 0 <= i < |workers| ==> !Eligible(workers[i])
  }

  /** A job is left pending exactly when no worker was eligible, and then none is afterwards. */
  lemma PendingMeansNoneEligible(l: Ledger, t: Task)
    ensures NoneEligible(l.workers) <==> Schedule(l, t) == l.(pending := l.pending + [t])
    ensures !NoneEligible(l.workers) <==> Schedule(l, t).pending == l.pending
    ensures NoneEligible(l.workers) ==> NoneEligible(Schedule(l, t).workers)
  {
    if Best(l.workers).None? {
      assert |l.pending + [t]| == |l.pending| + 1;
    }
  }

  lemma {:induction false} NoneEligibleAll(l: Ledger, ts: seq<Task>)
    requires NoneEligible(l.workers)
    ensures ScheduleAll(l, ts) == l.(pending := l.pending + ts)
    decreases |ts|
  {
    if ts == [] {
      assert l.pending + ts == l.pending;
    } else {
      PendingMeansNoneEligible(l, ts[0]);
      NoneEligibleAll(Schedule(l, ts[0]), ts[1..]);
      assert l.pending + [ts[0]] + ts[1..] == l.pending + ts;
    }
  }

  // ---------------------------------------------------------------------------
  // Greedy optimality
  // ---------------------------------------------------------------------------

  function Sum(s: seq<nat>): nat {
    if s == [] then 0 else s[0] + Sum(s[1..])
  }

  lemma {:induction false} SumUpdated(s: seq<nat>, i: nat, n: nat)
    requires i < |s|
    ensures Sum(s[i := n]) + s[i] == Sum(s) + n
  {
    if i == 0 {
      assert s[i := n][1..] == s[1..];
    } else {
      assert s[i := n][1..] == s[1..][i - 1 := n];
      SumUpdated(s[1..], i - 1, n);
    }
  }

  lemma {:induction false} SumMonotone(s: seq<nat>, t: seq<nat>)
    requires |s| == |t| && forall i :: 0 <= i < |s| ==> s[i] <= t[i]
    ensures Sum(s) <= Sum(t)
    ensures (exists i :: 0 <= i < |s| && s[i] < t[i]) ==> Sum(s) < Sum(t)
  {
    if s != [] {
      SumMonotone(s[1..], t[1..]);
      if i :| 0 < i < |s| && s[i] < t[i] {
        assert s[1..][i - 1] < t[1..][i - 1];
      }
    }
  }

  /** How many jobs each worker was given between two states. */
  function Given(before: seq<Node>, after: seq<Node>): (g: seq<nat>)
    requires AllGrew(before, after)
    ensures |g| == |before|
  {
    seq(|before|, i requires 0 <= i < |before| && Grew(before[i], after[i]) => |after[i].tasks| - |before[i].tasks|)
  }

  /** Every worker that was given a job has load at most one above every live worker. */
  ghost predicate Balanced(before: seq<Node>, after: seq<Node>) {
    && AllGrew(before, after)
    && forall i, j :: 0 <= i < |after| && 0 <= j < |after| && after[j].alive && before[i] != after[i] ==>
         Load(after[i]) <= Load(after[j]) + 1.0
  }

  lemma ScheduleKeepsBalance(before: seq<Node>, l: Ledger, t: Task)
    requires Balanced(before, l.workers) && Best(l.workers).Some?
    ensures Balanced(before, Schedule(l, t).workers)
    ensures Sum(Given(before, Schedule(l, t).workers)) == Sum(Given(before, l.workers)) + 1
  {
    var b := Best(l.workers).value;
    var after := Schedule(l, t).workers;
    assert after[b].tasks == l.workers[b].tasks + [t];
    assert Load(after[b]) == Load(l.workers[b]) + 1.0;
    forall i | 0 <= i < |after|
      ensures Grew(before[i], after[i])
    {
      assert Grew(before[i], l.workers[i]);
    }
    GivenOneMore(before, l.workers, b, after[b]);
  }

  lemma GivenOneMore(before: seq<Node>, workers: seq<Node>, b: nat, n: Node)
    requires AllGrew(before, workers) && b < |workers|
    requires AllGrew(before, workers[b := n]) && |n.tasks| == |workers[b].tasks| + 1
    ensures Sum(Given(before, workers[b := n])) == Sum(Given(before, workers)) + 1
  {
    var g := Given(before, workers);
    assert Given(before, workers[b := n]) == g[b := g[b] + 1];
    SumUpdated(g, b, g[b] + 1);
  }

  lemma {:induction false} RunIsBalanced(before: seq<Node>, l: Ledger, ts: seq<Task>)
    requires Balanced(before, l.workers)
    requires ScheduleAll(l, ts).pending == l.pending
    ensures Balanced(before, ScheduleAll(l, ts).workers)
    ensures Sum(Given(before, ScheduleAll(l, ts).workers)) == Sum(Given(before, l.workers)) + |ts|
    decreases |ts|
  {
    if ts != [] {
      var m := Schedule(l, ts[0]);
      ScheduleAllGrows(m, ts[1..]);
      PendingMeansNoneEligible(l, ts[0]);
      assert Best(l.workers).None? ==> |m.pending| > |l.pending|;
      ScheduleKeepsBalance(before, l, ts[0]);
      RunIsBalanced(before, m, ts[1..]);
    }
  }

  /** Another way of handing out jobs: `share[i]` more for worker i, none for a dead one. */
  ghost predicate Distribution(workers: seq<Node>, share: seq<nat>, jobs: nat) {
    && |share| == |workers| && Sum(share) == jobs
    && forall i :: 0 <= i < |workers| && !workers[i].alive ==> share[i] == 0
  }

  /** No live worker has load above `bound` once it has been given its share. */
  ghost predicate WithinBound(workers: seq<Node>, share: seq<nat>, bound: real)
    requires |share| == |workers|
  {
    forall i :: 0 <= i < |workers| && workers[i].alive ==>
      workers[i].cpu * 10.0 + (|workers[i].tasks| + share[i]) as real <= bound
  }

  /**
   Greedy scheduling is optimal: when all of k jobs find a worker, whatever bound any other
   distribution of k jobs over the live workers keeps to, the greedy one keeps to as well.
   */
  lemma GreedyIsOptimal(l: Ledger, ts: seq<Task>, share: seq<nat>, bound: real)
    requires ScheduleAll(l, ts).pending == l.pending
    requires Distribution(l.workers, share, |ts|)
    requires WithinBound(l.workers, share, bound)
    ensures AllGrew(l.workers, ScheduleAll(l, ts).workers)
    ensures forall n <- ScheduleAll(l, ts).workers :: n.alive ==> n.cpu * 10.0 + |n.tasks| as real <= bound
  {
    var after := ScheduleAll(l, ts).workers;
    NothingGivenYet(l.workers);
    RunIsBalanced(l.workers, l, ts);
    var given := Given(l.workers, after);
    forall i | 0 <= i < |l.workers| && l.workers[i].alive
      ensures Load(after[i]) <= bound
    {
      assert Grew(l.workers[i], after[i]);
      assert Load(after[i]) == Load(l.workers[i]) + given[i] as real;
      if share[i] < given[i] {
        var j := SomeoneGotMore(given, share, i);
        assert Grew(l.workers[j], after[j]);
        assert l.workers[j].alive;
        assert Load(after[j]) == Load(l.workers[j]) + given[j] as real;
      }
    }
  }

  lemma {:induction false} NothingGivenYet(workers: seq<Node>)
    ensures Balanced(workers, workers) && Sum(Given(workers, workers)) == 0
  {
    ZeroSum(Given(workers, workers));
  }

  lemma {:induction false} ZeroSum(s: seq<nat>)
    requires forall i :: 0 <= i < |s| ==> s[i] == 0
    ensures Sum(s) == 0
  {
    if s != [] {
      ZeroSum(s[1..]);
    }
  }

  lemma {:induction false} SomeoneGotMore(given: seq<nat>, share: seq<nat>, i: nat) returns (j: nat)
    requires |given| == |share| && Sum(given) == Sum(share)
    requires i < |given| && share[i] < given[i]
    ensures j < |given| && given[j] < share[j]
  {
    if forall k :: 0 <= k < |given| ==> share[k] <= given[k] {
      SumMonotone(share, given);
      assert false;
    }
    j :| 0 <= j < |given| && !(share[j] <= given[j]);
  }

  /** The jobs all find a worker whenever some live worker would stay under the cap with all but one of them. */
  lemma {:induction false} RoomForAll(l: Ledger, ts: seq<Task>, w: nat)
    requires w < |l.workers| && l.workers[w].alive
    requires l.workers[w].cpu * 10.0 + (|l.workers[w].tasks| + |ts|) as real < 100000001.0
    ensures ScheduleAll(l, ts).pending == l.pending
    decreases |ts|
  {
    if ts != [] {
      assert Eligible(l.workers[w]);
      var m := Schedule(l, ts[0]);
      PendingMeansNoneEligible(l, ts[0]);
      ScheduleGrows(l, ts[0]);
      assert Grew(l.workers[w], m.workers[w]);
      assert Load(m.workers[w]) <= Load(l.workers[w]) + 1.0;
      RoomForAll(m, ts[1..], w);
    }
  }
}
