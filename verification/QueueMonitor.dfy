/**
 The blocking protocol of queue_push and queue_pull (queue.c): any number of threads, one
 mutex, one condition variable shared by producers and consumers, and a broadcast only when
 the list becomes non-empty or stops being full.  Each step below is what one thread does
 between two points at which another thread may run.
 */
module QueueMonitor {
  import opened Options

  datatype Op<T> = Push(item: T) | Pull

  /** Where a thread stands. */
  datatype Pc<T> =
    | Idle
    | Wanting(op: Op<T>)      // called or woken, has yet to get the mutex
    | Testing(op: Op<T>)      // holds the mutex, at the test of the wait loop
    | Waiting(op: Op<T>)      // inside pthread_cond_wait
    | Signalling(wake: bool)  // holds the mutex, has changed the list
    | Leaving                 // holds the mutex, about to unlock
  {
    predicate Holding() {
      Testing? || Signalling? || Leaving?
    }
  }

  datatype Monitor<T> = Monitor(
    maxSize: int,
    contents: seq<T>,
    owner: Option<nat>,
    threads: map<nat, Pc<T>>,
    pushed: seq<T>,
    pulled: seq<T>)
  {
    predicate Full() {
      maxSize > 0 && |contents| == maxSize
    }

    /** The condition of the wait loop. */
    predicate Blocked(op: Op<T>) {
      match op
      case Push(_) => Full()
      case Pull => |contents| == 0
    }
  }

  datatype Action<T> =
    | Call(thread: nat, op: Op<T>)
    | Lock(thread: nat)
    | Test(thread: nat)
    | Signal(thread: nat)
    | Unlock(thread: nat)
    | WakeSpuriously(thread: nat)

  predicate Enabled<T>(m: Monitor<T>, a: Action<T>) {
    && a.thread in m.threads
    && var pc := m.threads[a.thread];
       match a
       case Call(_, _) => pc.Idle?
       case Lock(_) => pc.Wanting? && m.owner == None
       case Test(_) => pc.Testing?
       case Signal(_) => pc.Signalling?
       case Unlock(_) => pc.Leaving?
       case WakeSpuriously(_) => pc.Waiting?
  }

  function WakeAll<T>(threads: map<nat, Pc<T>>): map<nat, Pc<T>> {
    map t | t in threads :: if threads[t].Waiting? then Wanting(threads[t].op) else threads[t]
  }

  function Apply<T>(m: Monitor<T>, a: Action<T>): Monitor<T>
    requires Enabled(m, a)
  {
    var t := a.thread;
    var pc := m.threads[t];
    match a
    case Call(_, op) => m.(threads := m.threads[t := Wanting(op)])
    case Lock(_) => m.(threads := m.threads[t := Testing(pc.op)], owner := Some(t))
    case Test(_) =>
      if m.Blocked(pc.op) then
        m.(threads := m.threads[t := Waiting(pc.op)], owner := None)
      else (
        match pc.op
        case Push(item) =>
          m.(contents := m.contents + [item], pushed := m.pushed + [item],
             threads := m.threads[t := Signalling(|m.contents| + 1 == 1)])
        case Pull =>
          m.(contents := m.contents[1..], pulled := m.pulled + [m.contents[0]],
             threads := m.threads[t := Signalling(m.maxSize > 0 && |m.contents| - 1 == m.maxSize - 1)])
      )
    case Signal(_) =>
      m.(threads := (if pc.wake then WakeAll(m.threads) else m.threads)[t := Leaving])
    case Unlock(_) => m.(threads := m.threads[t := Idle], owner := None)
    case WakeSpuriously(_) => m.(threads := m.threads[t := Wanting(pc.op)])
  }

  /** Runs a schedule; None when some action of it is not possible where it stands. */
  function Exec<T>(m: Monitor<T>, schedule: seq<Action<T>>): Option<Monitor<T>>
    decreases |schedule|
  {
    if schedule == [] then Some(m)
    else if Enabled(m, schedule[0]) then Exec(Apply(m, schedule[0]), schedule[1..])
    else None
  }

  ghost predicate Initial<T>(m: Monitor<T>) {
    && m.contents == [] && m.pushed == [] && m.pulled == []
    && m.owner == None
    && forall t | t in m.threads :: m.threads[t] == Idle
  }

  // ---------------------------------------------------------------------------
  // The invariant
  // ---------------------------------------------------------------------------

  /** The mutex is held by the one thread that is inside the critical section. */
  ghost predicate MutualExclusion<T>(m: Monitor<T>) {
    && (forall t | t in m.threads :: m.threads[t].Holding() <==> m.owner == Some(t))
    && (m.owner.Some? ==> m.owner.value in m.threads)
  }

  ghost predicate Fifo<T>(m: Monitor<T>) {
    && m.pushed == m.pulled + m.contents
    && (m.maxSize > 0 ==> |m.contents| <= m.maxSize)
  }

  /** Some thread is about to wake everyone. */
  ghost predicate BroadcastDue<T>(m: Monitor<T>) {
    exists t | t in m.threads :: m.threads[t] == Signalling(true)
  }

  /** Every thread in the wait set has a reason to be there. */
  ghost predicate WaitersBlocked<T>(m: Monitor<T>) {
    forall t | t in m.threads :: m.threads[t].Waiting? ==> m.Blocked(m.threads[t].op)
  }

  ghost predicate Inv<T>(m: Monitor<T>) {
    && MutualExclusion(m)
    && Fifo(m)
    && (BroadcastDue(m) || WaitersBlocked(m))
  }

  lemma TestKeepsWaiters<T>(m: Monitor<T>, t: nat)
    requires Inv(m) && Enabled(m, Test(t))
    ensures var n := Apply(m, Test(t)); BroadcastDue(n) || WaitersBlocked(n)
  {
    var n := Apply(m, Test(t));
    assert !BroadcastDue(m);
    if !m.Blocked(m.threads[t].op) {
      // the list was neither empty for a puller nor full for a pusher: nobody can be asleep
      // unless this very step is the one that has to wake them
      if n.threads[t].wake {
        assert n.threads[t] == Signalling(true);
      }
    }
  }

  lemma StepKeepsInv<T>(m: Monitor<T>, a: Action<T>)
    requires Inv(m) && Enabled(m, a)
    ensures Inv(Apply(m, a))
  {
    var n := Apply(m, a);
    match a {
      case Test(t) =>
        TestKeepsWaiters(m, t);
      case Signal(t) =>
        assert forall u | u in m.threads && u != t :: !m.threads[u].Signalling?;
        if !m.threads[t].wake {
          assert WaitersBlocked(m);
        }
      case Call(t, op) =>
        KeepsBroadcast(m, n, t);
      case Lock(t) =>
        KeepsBroadcast(m, n, t);
      case Unlock(t) =>
        KeepsBroadcast(m, n, t);
      case WakeSpuriously(t) =>
        KeepsBroadcast(m, n, t);
    }
  }

  lemma KeepsBroadcast<T>(m: Monitor<T>, n: Monitor<T>, t: nat)
    requires t in m.threads && m.threads[t] != Signalling(true)
    requires t in n.threads && n.threads == m.threads[t := n.threads[t]]
    ensures BroadcastDue(m) ==> BroadcastDue(n)
  {
    if BroadcastDue(m) {
      var u :| u in m.threads && m.threads[u] == Signalling(true);
      assert n.threads[u] == Signalling(true);
    }
  }

  lemma {:induction false} RunKeepsInv<T>(m: Monitor<T>, schedule: seq<Action<T>>)
    requires Inv(m)
    requires Exec(m, schedule).Some?
    ensures Inv(Exec(m, schedule).value)
    decreases |schedule|
  {
    if schedule != [] {
      StepKeepsInv(m, schedule[0]);
      RunKeepsInv(Apply(m, schedule[0]), schedule[1..]);
    }
  }

  // ---------------------------------------------------------------------------
  // What follows for every run
  // ---------------------------------------------------------------------------

  /**
   No lost wakeup: whatever the interleaving, whenever the mutex is free a consumer in the
   wait set means the list is empty and a producer there means it is full, so no thread that
   could proceed is left asleep.  What was pulled is what was pushed first, in order.
   */
  lemma NoLostWakeup<T>(m: Monitor<T>, schedule: seq<Action<T>>)
    requires Initial(m)
    requires Exec(m, schedule).Some?
    ensures var n := Exec(m, schedule).value;
      && (n.owner == None ==>
            forall t | t in n.threads && n.threads[t].Waiting? ::
              && (n.threads[t].op.Pull? ==> n.contents == [])
              && (n.threads[t].op.Push? ==> n.maxSize > 0 && |n.contents| == n.maxSize))
      && n.pushed == n.pulled + n.contents
      && (n.maxSize > 0 ==> |n.contents| <= n.maxSize)
  {
    RunKeepsInv(m, schedule);
  }

  /** At most one thread is ever inside the critical section. */
  lemma OneThreadInside<T>(m: Monitor<T>, schedule: seq<Action<T>>, t: nat, u: nat)
    requires Initial(m)
    requires Exec(m, schedule).Some?
    requires var n := Exec(m, schedule).value;
      t in n.threads && u in n.threads && n.threads[t].Holding() && n.threads[u].Holding()
    ensures t == u
  {
    RunKeepsInv(m, schedule);
  }

  /** Every thread has either finished its call or sleeps in the wait set. */
  ghost predicate Quiet<T>(m: Monitor<T>) {
    forall t | t in m.threads :: m.threads[t].Idle? || m.threads[t].Waiting?
  }

  /**
   When a system comes to rest all its sleepers are of one kind: consumers of an empty list,
   or producers of a full one.  A producer and a consumer never starve each other.
   */
  lemma RestMeansOneKind<T>(m: Monitor<T>, schedule: seq<Action<T>>)
    requires Initial(m)
    requires Exec(m, schedule).Some? && Quiet(Exec(m, schedule).value)
    ensures var n := Exec(m, schedule).value;
      && n.owner == None
      && (|| (n.contents == [] && forall t | t in n.threads && n.threads[t].Waiting? :: n.threads[t].op.Pull?)
          || (n.Full() && forall t | t in n.threads && n.threads[t].Waiting? :: n.threads[t].op.Push?)
          || (forall t | t in n.threads :: n.threads[t] == Idle))
  {
    RunKeepsInv(m, schedule);
  }

  // ---------------------------------------------------------------------------
  // Every call is carried out
  // ---------------------------------------------------------------------------

  /** The operations thread t calls for in a schedule. */
  function CallsOf<T>(schedule: seq<Action<T>>, t: nat): seq<Op<T>> {
    if schedule == [] then []
    else
      (if schedule[0].Call? && schedule[0].thread == t then [schedule[0].op] else []) + CallsOf(schedule[1..], t)
  }

  /** Those that take effect, with the test of the wait loop that lets thread t through. */
  function TakenBy<T>(m: Monitor<T>, schedule: seq<Action<T>>, t: nat): seq<Op<T>>
    requires Exec(m, schedule).Some?
    decreases |schedule|
  {
    if schedule == [] then []
    else
      var a := schedule[0];
      (if a.Test? && a.thread == t && !m.Blocked(m.threads[t].op) then [m.threads[t].op] else [])
      + TakenBy(Apply(m, a), schedule[1..], t)
  }

  /** The operation a thread has called for that has not taken effect yet. */
  function Pending<T>(pc: Pc<T>): seq<Op<T>> {
    match pc
    case Wanting(op) => [op]
    case Testing(op) => [op]
    case Waiting(op) => [op]
    case _ => []
  }

  lemma Regrouped<T>(a: seq<T>, b: seq<T>, c: seq<T>)
    ensures a + b + c == a + (b + c)
  {
  }

  lemma OneStepInOrder<T>(m: Monitor<T>, a: Action<T>, t: nat)
    requires Enabled(m, a) && t in m.threads
    ensures t in Apply(m, a).threads
    ensures Pending(m.threads[t]) + CallsOf([a], t) == TakenBy(m, [a], t) + Pending(Apply(m, a).threads[t])
  {
    assert [a][1..] == [];
  }

  /**
   In every run each thread's operations take effect in the order in which it calls for them, each
   once and as it was called for, however often the thread is woken, for nothing or not; only the
   last may still be under way.
   */
  lemma {:induction false} CallsAreCarriedOut<T>(m: Monitor<T>, schedule: seq<Action<T>>, t: nat)
    requires Exec(m, schedule).Some? && t in m.threads
    ensures t in Exec(m, schedule).value.threads
    ensures Pending(m.threads[t]) + CallsOf(schedule, t)
         == TakenBy(m, schedule, t) + Pending(Exec(m, schedule).value.threads[t])
    decreases |schedule|
  {
    if schedule != [] {
      var a, n := schedule[0], Apply(m, schedule[0]);
      assert [a][1..] == [];
      OneStepInOrder(m, a, t);
      CallsAreCarriedOut(n, schedule[1..], t);
      Regrouped(Pending(m.threads[t]), CallsOf([a], t), CallsOf(schedule[1..], t));
      Regrouped(TakenBy(m, [a], t), Pending(n.threads[t]), CallsOf(schedule[1..], t));
      Regrouped(TakenBy(m, [a], t), TakenBy(n, schedule[1..], t), Pending(Exec(m, schedule).value.threads[t]));
    }
  }

  // ---------------------------------------------------------------------------
  // Left alone, the threads come to rest
  // ---------------------------------------------------------------------------

  /** What a thread may still cost, its waking of the others included, when there are n threads. */
  function Weight<T>(pc: Pc<T>, n: nat): nat {
    match pc
    case Idle => 0
    case Leaving => 1
    case Signalling(_) => 2 * n + 2
    case Waiting(_) => 2 * n + 3
    case Testing(_) => 2 * n + 4
    case Wanting(_) => 2 * n + 5
  }

  /** The same of the threads listed. */
  function Weights<T>(threads: map<nat, Pc<T>>, ts: seq<nat>, n: nat): nat
    requires forall t <- ts :: t in threads
  {
    if ts == [] then 0 else Weight(threads[ts[0]], n) + Weights(threads, ts[1..], n)
  }

  /** ts lists the threads, each once. */
  ghost predicate Lists<T>(ts: seq<nat>, m: Monitor<T>) {
    && (forall t <- ts :: t in m.threads) && (forall t <- m.threads :: t in ts)
    && forall i, j :: 0 <= i < j < |ts| ==> ts[i] != ts[j]
  }

  lemma {:induction false} WeightsElsewhere<T>(a: map<nat, Pc<T>>, b: map<nat, Pc<T>>, ts: seq<nat>, n: nat)
    requires forall t <- ts :: t in a && t in b && a[t] == b[t]
    ensures Weights(a, ts, n) == Weights(b, ts, n)
  {
    if ts != [] {
      WeightsElsewhere(a, b, ts[1..], n);
    }
  }

  /** Only thread t moves. */
  lemma {:induction false} WeightsOfOne<T>(a: map<nat, Pc<T>>, b: map<nat, Pc<T>>, ts: seq<nat>, n: nat, t: nat)
    requires forall u <- ts :: u in a && u in b && (u != t ==> a[u] == b[u])
    requires t in ts && forall i, j :: 0 <= i < j < |ts| ==> ts[i] != ts[j]
    ensures Weights(b, ts, n) + Weight(a[t], n) == Weights(a, ts, n) + Weight(b[t], n)
  {
    if ts[0] == t {
      WeightsElsewhere(a, b, ts[1..], n);
    } else {
      WeightsOfOne(a, b, ts[1..], n, t);
    }
  }

  /** Waking everybody costs two for each. */
  lemma {:induction false} WeightsOfWoken<T>(threads: map<nat, Pc<T>>, ts: seq<nat>, n: nat)
    requires forall t <- ts :: t in threads
    ensures Weights(WakeAll(threads), ts, n) <= Weights(threads, ts, n) + 2 * |ts|
  {
    if ts != [] {
      WeightsOfWoken(threads, ts[1..], n);
    }
  }

  /** An action of a thread that is on its way, as against a new call and a wakeup for no reason. */
  predicate OnItsWay<T>(a: Action<T>) {
    !a.Call? && !a.WakeSpuriously?
  }

  lemma StepKeepsList<T>(m: Monitor<T>, a: Action<T>, ts: seq<nat>)
    requires Lists(ts, m) && Enabled(m, a)
    ensures Lists(ts, Apply(m, a))
  {
    assert Apply(m, a).threads.Keys == m.threads.Keys;
  }

  lemma SignalCosts<T>(m: Monitor<T>, t: nat, ts: seq<nat>)
    requires Lists(ts, m) && Enabled(m, Signal(t)) && Lists(ts, Apply(m, Signal(t)))
    ensures Weights(Apply(m, Signal(t)).threads, ts, |ts|) < Weights(m.threads, ts, |ts|)
  {
    var woken := if m.threads[t].wake then WakeAll(m.threads) else m.threads;
    if m.threads[t].wake {
      WeightsOfWoken(m.threads, ts, |ts|);
    }
    WeightsOfOne(woken, Apply(m, Signal(t)).threads, ts, |ts|, t);
  }

  /** Any other step moves its own thread only, and makes it cost less. */
  lemma OwnStepCosts<T>(m: Monitor<T>, a: Action<T>, n: nat)
    requires Enabled(m, a) && OnItsWay(a) && !a.Signal?
    ensures Apply(m, a).threads == m.threads[a.thread := Apply(m, a).threads[a.thread]]
    ensures Weight(Apply(m, a).threads[a.thread], n) < Weight(m.threads[a.thread], n)
  {
  }

  lemma StepCosts<T>(m: Monitor<T>, a: Action<T>, ts: seq<nat>)
    requires Lists(ts, m) && Enabled(m, a) && OnItsWay(a)
    ensures Lists(ts, Apply(m, a))
    ensures Weights(Apply(m, a).threads, ts, |ts|) < Weights(m.threads, ts, |ts|)
  {
    StepKeepsList(m, a, ts);
    if a.Signal? {
      SignalCosts(m, a.thread, ts);
    } else {
      OwnStepCosts(m, a, |ts|);
      var after := Apply(m, a).threads;
      WeightsOfOne(m.threads, after, ts, |ts|, a.thread);
    }
  }

  /** With no new call and no wakeup for no reason, no run is longer than the threads' weight. */
  lemma {:induction false} RunsComeToRest<T>(m: Monitor<T>, schedule: seq<Action<T>>, ts: seq<nat>)
    requires Lists(ts, m) && Exec(m, schedule).Some? && forall a <- schedule :: OnItsWay(a)
    ensures |schedule| <= Weights(m.threads, ts, |ts|)
    decreases |schedule|
  {
    if schedule != [] {
      StepCosts(m, schedule[0], ts);
      RunsComeToRest(Apply(m, schedule[0]), schedule[1..], ts);
    }
  }

  /** And until every thread has finished its call or sleeps in the wait set, some thread can go on. */
  lemma SomeThreadIsOnItsWay<T>(m: Monitor<T>) returns (a: Action<T>)
    requires Inv(m) && !Quiet(m)
    ensures Enabled(m, a) && OnItsWay(a)
  {
    if m.owner.Some? {
      var t := m.owner.value;
      assert m.threads[t].Holding();
      a := if m.threads[t].Testing? then Test(t) else if m.threads[t].Signalling? then Signal(t) else Unlock(t);
    } else {
      var t :| t in m.threads && !m.threads[t].Idle? && !m.threads[t].Waiting?;
      assert !m.threads[t].Holding();
      a := Lock(t);
    }
  }
}
