/**
 How the three views of queue.c fit together: the linked list carries out the step of the
 monitor in which a thread passes its test; a whole call, undisturbed, is one operation; and
 these operations are the queue steps of the worker's threads.
 */
module QueueRefinement {
  import opened Options
  import opened QueueMonitor
  import LinkedQueue
  import P = WorkerPipeline

  // ---------------------------------------------------------------------------
  // The list and the monitor
  // ---------------------------------------------------------------------------

  /** The list holds what the monitor says it does. */
  ghost predicate Shows<T>(q: LinkedQueue.Queue<T>, m: Monitor<T>)
    reads q
  {
    && q.maxSize == m.maxSize && q.contents == m.contents
    && q.pushed == m.pushed && q.pulled == m.pulled
  }

  /** queue_push between the end of its wait loop and its broadcast. */
  method PushStep<T>(q: LinkedQueue.Queue<T>, item: T, ghost m: Monitor<T>, ghost t: nat) returns (wake: bool)
    requires q.Valid() && Shows(q, m)
    requires Enabled(m, Test(t)) && m.threads[t] == Testing(Push(item)) && !m.Blocked(Push(item))
    modifies q, q.tail
    ensures q.Valid() && Shows(q, Apply(m, Test(t)))
    ensures Apply(m, Test(t)).threads[t] == Signalling(wake)
  {
    wake := q.Push(item);
  }

  /** queue_pull between the end of its wait loop and its broadcast. */
  method PullStep<T>(q: LinkedQueue.Queue<T>, ghost m: Monitor<T>, ghost t: nat) returns (item: T, wake: bool)
    requires q.Valid() && Shows(q, m)
    requires Enabled(m, Test(t)) && m.threads[t] == Testing(Pull) && !m.Blocked(Pull)
    modifies q
    ensures q.Valid() && Shows(q, Apply(m, Test(t)))
    ensures Apply(m, Test(t)).threads[t] == Signalling(wake) && item == m.contents[0]
  {
    item, wake := q.Pull();
  }

  /** The tests of the two wait loops are the monitor's. */
  lemma SameTests<T>(q: LinkedQueue.Queue<T>, m: Monitor<T>, item: T)
    requires q.Valid() && Shows(q, m)
    ensures q.MayPush() <==> !m.Blocked(Push(item))
    ensures q.MayPull() <==> !m.Blocked(Pull)
  {
  }

  // ---------------------------------------------------------------------------
  // The monitor and single operations
  // ---------------------------------------------------------------------------

  /** What an operation does to the list, when it may proceed. */
  function Operated<T>(contents: seq<T>, op: Op<T>): seq<T>
    requires op.Pull? ==> contents != []
  {
    match op
    case Push(item) => contents + [item]
    case Pull => contents[1..]
  }

  /** The operations that took effect in a schedule, in that order. */
  function Effects<T>(m: Monitor<T>, schedule: seq<Action<T>>): seq<Op<T>>
    decreases |schedule|
  {
    if schedule == [] || !Enabled(m, schedule[0]) then []
    else
      var a := schedule[0];
      (if a.Test? && !m.Blocked(m.threads[a.thread].op) then [m.threads[a.thread].op] else [])
      + Effects(Apply(m, a), schedule[1..])
  }

  /** Operations on a list, one after the other; None when one of them would have had to wait. */
  function Sequential<T>(maxSize: int, contents: seq<T>, ops: seq<Op<T>>): Option<seq<T>>
    decreases |ops|
  {
    if ops == [] then Some(contents)
    else if ops[0].Push? && maxSize > 0 && |contents| == maxSize then None
    else if ops[0].Pull? && contents == [] then None
    else Sequential(maxSize, Operated(contents, ops[0]), ops[1..])
  }

  lemma OneEffect<T>(m: Monitor<T>, a: Action<T>)
    requires Enabled(m, a)
    ensures Apply(m, a).maxSize == m.maxSize
    ensures !(a.Test? && !m.Blocked(m.threads[a.thread].op)) ==> Apply(m, a).contents == m.contents
    ensures a.Test? && !m.Blocked(m.threads[a.thread].op) ==>
      (m.threads[a.thread].op.Pull? ==> m.contents != [])
      && Apply(m, a).contents == Operated(m.contents, m.threads[a.thread].op)
  {
  }

  /**
   Linearisability: whatever the interleaving, the list is what the operations that took effect
   make of it one after the other, none of which would have had to wait in its place.
   */
  lemma {:induction false} RunIsSequential<T>(m: Monitor<T>, schedule: seq<Action<T>>)
    requires Exec(m, schedule).Some?
    ensures Sequential(m.maxSize, m.contents, Effects(m, schedule)) == Some(Exec(m, schedule).value.contents)
    decreases |schedule|
  {
    if schedule != [] {
      var a := schedule[0];
      var rest := Effects(Apply(m, a), schedule[1..]);
      OneEffect(m, a);
      RunIsSequential(Apply(m, a), schedule[1..]);
      if a.Test? && !m.Blocked(m.threads[a.thread].op) {
        var op := m.threads[a.thread].op;
        assert ([op] + rest)[0] == op && ([op] + rest)[1..] == rest;
      } else {
        assert [] + rest == rest;
      }
    }
  }

  // ---------------------------------------------------------------------------
  // Single operations and the worker's threads
  // ---------------------------------------------------------------------------

  /** A step of the pipeline that works on the job queue, as an operation on it. */
  function JobOp(s: P.System, a: P.Action): Option<Op<P.Item>>
    requires P.Enabled(s, a)
  {
    match a
    case Submit => Some(Push(P.Run(s.main.job)))
    case MarkEnd => Some(Push(P.End))
    case Take(_) => Some(Pull)
    case _ => None
  }

  /** And one that works on the result queue. */
  function ResultOp(s: P.System, a: P.Action): Option<Op<P.Item>>
    requires P.Enabled(s, a)
  {
    match a
    case Deliver(i) => Some(Push(P.Run(s.taskers[i].job)))
    case MarkResultsEnd => Some(Push(P.End))
    case TakeResult => Some(Pull)
    case _ => None
  }

  /** After the operation, if there is one, provided that it need not wait. */
  predicate Performs(maxSize: int, before: seq<P.Item>, op: Option<Op<P.Item>>, after: seq<P.Item>) {
    if op == None then after == before else Sequential(maxSize, before, [op.value]) == Some(after)
  }

  lemma OneOperation(maxSize: int, before: seq<P.Item>, op: Op<P.Item>)
    requires !(op.Push? && maxSize > 0 && |before| == maxSize) && !(op.Pull? && before == [])
    ensures Sequential(maxSize, before, [op]) == Some(Operated(before, op))
  {
    assert [op][1..] == [];
  }

  /** The steps of the pipeline are single operations on its two queues, of which the second is unbounded. */
  lemma StepsAreOperations(s: P.System, a: P.Action)
    requires P.Enabled(s, a) && s.capacity > 0
    ensures Performs(s.capacity, s.jobs, JobOp(s, a), P.Apply(s, a).jobs)
    ensures Performs(-1, s.results, ResultOp(s, a), P.Apply(s, a).results)
  {
    if JobOp(s, a).Some? {
      OneOperation(s.capacity, s.jobs, JobOp(s, a).value);
    }
    if ResultOp(s, a).Some? {
      OneOperation(-1, s.results, ResultOp(s, a).value);
    }
  }

  /** A pipeline step that waits for the job queue waits exactly while its operation would. */
  lemma SubmitWaitsIff(s: P.System, m: Monitor<P.Item>)
    requires s.main.Submitting? && m.contents == s.jobs && m.maxSize == s.capacity && s.capacity > 0
    ensures P.Enabled(s, P.Submit) <==> !m.Blocked(Push(P.Run(s.main.job)))
    ensures forall i :: 0 <= i < |s.taskers| && s.taskers[i] == P.Pulling ==>
      (P.Enabled(s, P.Take(i)) <==> !m.Blocked(Pull))
  {
  }
}
