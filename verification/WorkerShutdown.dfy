/**
 How a worker node ends (worker.c): when a shutdown completes and when it hangs in the middle of
 a request, and which results have been sent by then.
 */
module WorkerShutdown {
  import opened WorkerPipeline

  // ---------------------------------------------------------------------------
  // A request that is never completed
  // ---------------------------------------------------------------------------

  /**
   The main thread is receiving a body that will not arrive in full, because the socket was shut
   down or the master hung up: read_file_from_socket takes the empty reads for progress and goes
   round for ever.
   */
  predicate Doomed(s: System) {
    s.main.Receiving? && s.main.missing > s.line.inbox && Dead(s.line)
  }

  lemma DoomedStep(s: System, a: Action)
    requires Doomed(s) && Enabled(s, a)
    ensures Doomed(Apply(s, a)) && Apply(s, a).main.job == s.main.job
  {
  }

  /** Nothing gets the main thread out of that. */
  lemma {:induction false} DoomedForGood(s: System, actions: seq<Action>, t: System)
    requires Doomed(s) && Reaches(s, actions, t)
    ensures Doomed(t) && t.main.job == s.main.job
    decreases |actions|
  {
    if actions != [] {
      DoomedStep(s, actions[0]);
      DoomedForGood(Apply(s, actions[0]), actions[1..], t);
    }
  }

  lemma FirstStep(s: System, a: Action, rest: seq<Action>, t: System)
    requires Reaches(s, [a] + rest, t)
    ensures Enabled(s, a) && Reaches(Apply(s, a), rest, t)
  {
    assert ([a] + rest)[1..] == rest;
  }

  /** A signal while the first request is being received: whatever happens then, no marker is ever pushed. */
  lemma InterruptedReceipt(s: System, job: Job, size: nat, rest: seq<Action>, t: System)
    requires Initial(s) && s.line.requests != [] && s.line.requests[0] == Proper(job, size) && size > 0
    requires Reaches(s, [Bytes(1), Arrive, Interrupt] + rest, t)
    ensures t.main.Receiving? && t.main.job == job && MarksPushed(t) == 0
  {
    assert [Bytes(1), Arrive, Interrupt] + rest == [Bytes(1)] + ([Arrive] + ([Interrupt] + rest));
    FirstStep(s, Bytes(1), [Arrive] + ([Interrupt] + rest), t);
    var m1 := Apply(s, Bytes(1));
    FirstStep(m1, Arrive, [Interrupt] + rest, t);
    var m2 := Apply(m1, Arrive);
    FirstStep(m2, Interrupt, rest, t);
    var m3 := Apply(m2, Interrupt);
    DoomedForGood(m3, rest, t);
  }

  // ---------------------------------------------------------------------------
  // How runs end
  // ---------------------------------------------------------------------------

  /** No thread of the node can get anywhere. */
  ghost predicate AtRest(s: System) {
    forall a :: Enabled(s, a) ==> !Useful(a)
  }

  /** A signal has come or the master has hung up. */
  predicate ShutdownBegun(s: System) {
    s.line.quitting || !s.line.peer
  }

  lemma RestIsExitOrDoom(t: System)
    requires Inv(t) && AtRest(t) && ShutdownBegun(t)
    ensures t.main == Exited <==> !Doomed(t)
  {
    if t.main != Exited && !Starved(t) {
      var a := SomeThreadCanMove(t);
      assert false;
    }
  }

  /**
   A run that comes to rest after a shutdown has begun has exited if and only if it is not
   receiving a request cut short.  If it has exited, every accepted job was started exactly once
   and in order, its result was produced, and every thread took one of the end markers.
   */
  lemma ShutdownCompletesIff(s: System, actions: seq<Action>, t: System)
    requires Initial(s) && Reaches(s, actions, t) && AtRest(t) && ShutdownBegun(t)
    ensures t.main == Exited <==> !Doomed(t)
    ensures t.main == Exited ==>
      && t.sender == Gone && t.taskers == [Stopped, Stopped, Stopped, Stopped, Stopped]
      && t.started == t.accepted && t.jobs == [] && multiset(t.finished) == multiset(t.accepted)
  {
    InitialInv(s);
    RunKeepsInv(s, actions, t);
    RestIsExitOrDoom(t);
    if t.main == Exited {
      CapacityKept(s, actions, t);
      ExitCounts(t);
    }
  }

  /** After a signal no request is taken up, so that one is cut short or not is settled. */
  lemma SignalSettles(s: System, a: Action)
    requires LineInv(s) && s.line.quitting && Enabled(s, a)
    ensures Apply(s, a).line.quitting && (Doomed(Apply(s, a)) <==> Doomed(s))
  {
  }

  lemma {:induction false} SignalSettlesRun(s: System, actions: seq<Action>, t: System)
    requires LineInv(s) && s.line.quitting && Reaches(s, actions, t)
    ensures t.line.quitting && (Doomed(t) <==> Doomed(s))
    decreases |actions|
  {
    if actions != [] {
      SignalSettles(s, actions[0]);
      KeepsLine(s, actions[0]);
      SignalSettlesRun(Apply(s, actions[0]), actions[1..], t);
    }
  }

  /**
   A shutdown by signal completes if and only if, when the signal came, the main thread was not
   receiving a body of which some had yet to arrive.
   */
  lemma SignalExitsIff(s: System, before: seq<Action>, m: System, after: seq<Action>, t: System)
    requires Initial(s) && Reaches(s, before, m) && Enabled(m, Interrupt)
    requires Reaches(Apply(m, Interrupt), after, t) && AtRest(t)
    ensures t.main == Exited <==> !(m.main.Receiving? && m.main.missing > m.line.inbox)
  {
    InitialInv(s);
    RunKeepsInv(s, before, m);
    StepKeepsInv(m, Interrupt);
    RunKeepsInv(Apply(m, Interrupt), after, t);
    SignalSettlesRun(Apply(m, Interrupt), after, t);
    RestIsExitOrDoom(t);
  }

  /** So much of the requests, and no part of another. */
  predicate Whole(requests: seq<Request>, inbox: nat)
    decreases |requests|
  {
    if inbox == 0 || requests == [] then inbox == 0
    else
      var size := 1 + if requests[0].Proper? then requests[0].size else 0;
      size <= inbox && Whole(requests[1..], inbox - size)
  }

  /** What has arrived ends where a request ends. */
  predicate EndsWhole(s: System) {
    match s.main
    case Receiving(_, missing) => missing <= s.line.inbox && Whole(s.line.requests, s.line.inbox - missing)
    case Accepting => Whole(s.line.requests, s.line.inbox)
    case Submitting(_) => Whole(s.line.requests, s.line.inbox)
    case _ => true
  }

  lemma HangUpSettles(s: System, a: Action)
    requires LineInv(s) && !s.line.peer && !s.line.quitting && Enabled(s, a) && !a.Interrupt?
    ensures var t := Apply(s, a); !t.line.peer && !t.line.quitting && (EndsWhole(t) <==> EndsWhole(s))
  {
  }

  lemma {:induction false} HangUpSettlesRun(s: System, actions: seq<Action>, t: System)
    requires LineInv(s) && !s.line.peer && !s.line.quitting && Reaches(s, actions, t) && Interrupt !in actions
    ensures !t.line.peer && (EndsWhole(t) <==> EndsWhole(s))
    decreases |actions|
  {
    if actions != [] {
      HangUpSettles(s, actions[0]);
      KeepsLine(s, actions[0]);
      HangUpSettlesRun(Apply(s, actions[0]), actions[1..], t);
    }
  }

  /**
   A shutdown because the master hangs up, with no signal, completes if and only if what had
   arrived by then ends where a request ends.
   */
  lemma HangUpExitsIff(s: System, before: seq<Action>, m: System, after: seq<Action>, t: System)
    requires Initial(s) && Reaches(s, before, m) && Enabled(m, HangUp) && !m.line.quitting
    requires Reaches(Apply(m, HangUp), after, t) && Interrupt !in after && AtRest(t)
    ensures t.main == Exited <==> EndsWhole(m)
  {
    InitialInv(s);
    RunKeepsInv(s, before, m);
    StepKeepsInv(m, HangUp);
    RunKeepsInv(Apply(m, HangUp), after, t);
    HangUpSettlesRun(Apply(m, HangUp), after, t);
    RestIsExitOrDoom(t);
  }

  // ---------------------------------------------------------------------------
  // What is sent
  // ---------------------------------------------------------------------------

  /** Nothing is sent any more once the socket is shut. */
  lemma {:induction false} NothingSentAfter(s: System, actions: seq<Action>, t: System)
    requires Reaches(s, actions, t) && !s.line.open
    ensures t.sent == s.sent && !t.line.open
    decreases |actions|
  {
    if actions != [] {
      NothingSentAfter(Apply(s, actions[0]), actions[1..], t);
    }
  }

  /** Actions[k], taken in state m of the run, shuts the socket. */
  ghost predicate Shuts(s: System, actions: seq<Action>, t: System, k: nat, m: System) {
    && k < |actions| && (actions[k] == Interrupt || actions[k] == Close)
    && Reaches(s, actions[..k], m) && m.line.open && Enabled(m, actions[k])
    && Reaches(Apply(m, actions[k]), actions[k + 1..], t)
  }

  lemma {:induction false} SomethingShuts(s: System, actions: seq<Action>, t: System) returns (k: nat, m: System)
    requires Reaches(s, actions, t) && s.line.open && !t.line.open
    ensures Shuts(s, actions, t, k, m)
    decreases |actions|
  {
    var n := Apply(s, actions[0]);
    if n.line.open {
      k, m := SomethingShuts(n, actions[1..], t);
      assert actions[..k + 1][1..] == actions[1..][..k];
      assert actions[1..][k + 1..] == actions[k + 2..];
      k := k + 1;
    } else {
      k, m := 0, s;
    }
  }

  /** The job the main thread has taken up and not yet pushed. */
  function TakenUp(main: Main): nat {
    if main.Receiving? || main.Submitting? then 1 else 0
  }

  /** No request will be taken up any more. */
  predicate Closed(s: System) {
    s.line.quitting || s.main.Leaving? || PastClose(s.main)
  }

  lemma ClosedStep(s: System, a: Action)
    requires Closed(s) && Enabled(s, a)
    ensures var t := Apply(s, a);
      Closed(t) && |t.accepted| + TakenUp(t.main) == |s.accepted| + TakenUp(s.main)
  {
  }

  lemma {:induction false} ClosedRun(s: System, actions: seq<Action>, t: System)
    requires Closed(s) && Reaches(s, actions, t)
    ensures |t.accepted| + TakenUp(t.main) == |s.accepted| + TakenUp(s.main)
    decreases |actions|
  {
    if actions != [] {
      ClosedStep(s, actions[0]);
      ClosedRun(Apply(s, actions[0]), actions[1..], t);
    }
  }

  lemma SubsetSize(a: multiset<Job>, b: multiset<Job>)
    requires forall j: Job :: a[j] <= b[j]
    ensures |a| <= |b|
  {
    assert b == a + (b - a);
  }

  /** Never more has been sent than accepted. */
  lemma SentAreAccepted(s: System)
    requires Inv(s)
    ensures |s.sent| <= |s.finished| <= |s.started| <= |s.accepted|
  {
    SubsetSize(multiset(s.finished), multiset(s.started));
    assert |multiset(s.finished)| == |s.finished| && |multiset(s.started)| == |s.started|;
  }

  /**
   Every run that ends in exit shuts the socket at some moment, by a signal or on leaving the
   loop, before any end marker is pushed.  What is sent is exactly what had been sent by then: a
   first part of the results in the order they were produced.  Nothing is lost if and only if at
   that moment every accepted job had been sent and the main thread had taken up no other.
   */
  lemma SentIffBeforeShut(s: System, actions: seq<Action>, t: System) returns (k: nat, m: System)
    requires Initial(s) && Reaches(s, actions, t) && t.main == Exited
    ensures Shuts(s, actions, t, k, m) && MarksPushed(m) == 0
    ensures t.sent == m.sent && t.sent <= t.finished
    ensures multiset(t.sent) == multiset(t.accepted) <==>
      !m.main.Receiving? && !m.main.Submitting? && |m.sent| == |m.accepted|
  {
    InitialInv(s);
    RunKeepsInv(s, actions, t);
    ExitCounts(t);
    k, m := SomethingShuts(s, actions, t);
    RunKeepsInv(s, actions[..k], m);
    SentAreAccepted(m);
    ShutFreezes(s, actions, t, k, m);
  }

  lemma ShutFreezes(s: System, actions: seq<Action>, t: System, k: nat, m: System)
    requires Shuts(s, actions, t, k, m) && LineInv(m)
    ensures t.sent == m.sent && MarksPushed(m) == 0
    ensures |t.accepted| + TakenUp(t.main) == |m.accepted| + TakenUp(m.main)
  {
    ClosedRun(Apply(m, actions[k]), actions[k + 1..], t);
    NothingSentAfter(Apply(m, actions[k]), actions[k + 1..], t);
  }

  lemma ExitCounts(t: System)
    requires Inv(t) && t.main == Exited
    ensures t.sent <= t.finished && multiset(t.finished) == multiset(t.accepted)
    ensures multiset(t.sent) == multiset(t.accepted) <==> |t.sent| == |t.accepted|
  {
    AllStopped(t.taskers);
    CountsOfPrefix(t.sent, t.finished, t.accepted);
  }

  lemma CountsOfPrefix(sent: seq<Job>, finished: seq<Job>, accepted: seq<Job>)
    requires sent <= finished && multiset(finished) == multiset(accepted)
    ensures multiset(sent) == multiset(accepted) <==> |sent| == |accepted|
  {
    assert |multiset(finished)| == |finished| && |multiset(accepted)| == |accepted| && |multiset(sent)| == |sent|;
    assert |sent| == |finished| ==> sent == finished;
  }

  /**
   The end marker of the result queue is pushed without waiting for the tasking threads, so a
   result can land behind it.  When the sending thread never fails, what was sent is exactly
   what was pushed ahead of the marker.
   */
  lemma SentIffTimely(s: System, actions: seq<Action>, t: System)
    requires Initial(s) && Reaches(s, actions, t)
    requires t.main == Exited && !t.failed
    ensures t.cutoff <= |t.finished| && t.sent == t.finished[..t.cutoff]
    ensures multiset(t.sent) == multiset(t.accepted) <==> t.cutoff == |t.accepted|
  {
    InitialInv(s);
    RunKeepsInv(s, actions, t);
    ExitCounts(t);
  }

  lemma {:induction false} Extend(s: System, actions: seq<Action>, m: System, a: Action)
    requires Reaches(s, actions, m) && Enabled(m, a)
    ensures Reaches(s, actions + [a], Apply(m, a))
    decreases |actions|
  {
    if actions == [] {
      assert [a][1..] == [];
    } else {
      assert (actions + [a])[1..] == actions[1..] + [a];
      Extend(Apply(s, actions[0]), actions[1..], m, a);
    }
  }

  lemma MarkAllEnds(s: System, actions: seq<Action>, m: System, k: nat) returns (more: seq<Action>, t: System)
    requires Reaches(s, actions, m)
    requires m.main == Closing(k) && k <= |m.taskers| && |m.jobs| + |m.taskers| - k <= m.capacity
    ensures Reaches(s, more, t)
    ensures t == m.(main := Closing(|m.taskers|), jobs := m.jobs + Ends(|m.taskers| - k))
    decreases |m.taskers| - k
  {
    if k == |m.taskers| {
      more, t := actions, m;
    } else {
      Extend(s, actions, m, MarkEnd);
      more, t := MarkAllEnds(s, actions + [MarkEnd], Apply(m, MarkEnd), k + 1);
    }
  }

  lemma StopFrom(s: System, actions: seq<Action>, m: System, k: nat) returns (more: seq<Action>, t: System)
    requires Reaches(s, actions, m)
    requires k <= |m.taskers| && m.jobs == Ends(|m.taskers| - k)
    requires forall i :: 0 <= i < k ==> m.taskers[i] == Stopped
    requires forall i :: k <= i < |m.taskers| ==> m.taskers[i] == Pulling
    ensures Reaches(s, more, t)
    ensures t == m.(jobs := [], taskers := t.taskers) && |t.taskers| == |m.taskers|
    ensures forall i :: 0 <= i < |t.taskers| ==> t.taskers[i] == Stopped
    decreases |m.taskers| - k
  {
    if k == |m.taskers| {
      more, t := actions, m;
    } else {
      Extend(s, actions, m, Take(k));
      more, t := StopFrom(s, actions + [Take(k)], Apply(m, Take(k)), k + 1);
    }
  }

  /** The first request is received, pushed and taken by the first thread. */
  lemma JobTaken(s: System, job: Job, size: nat) returns (actions: seq<Action>, t: System)
    requires Initial(s) && s.line.requests == [Proper(job, size)]
    ensures Reaches(s, actions, t)
    ensures t == s.(line := s.line.(requests := []), taskers := s.taskers[0 := Running(job)],
                    accepted := [job], started := [job])
  {
    var m := Apply(s, Bytes(1 + size));
    Extend(s, [], s, Bytes(1 + size));
    actions := [] + [Bytes(1 + size)];
    Extend(s, actions, m, Arrive);
    m, actions := Apply(m, Arrive), actions + [Arrive];
    assert m == s.(main := Receiving(job, size), line := s.line.(requests := [], inbox := size));
    if size > 0 {
      Extend(s, actions, m, Read(size));
      m, actions := Apply(m, Read(size)), actions + [Read(size)];
    }
    actions, t := ReceivedAndTaken(s, actions, m, job);
  }

  lemma ReceivedAndTaken(s: System, actions: seq<Action>, m: System, job: Job) returns (more: seq<Action>, t: System)
    requires Initial(s) && Reaches(s, actions, m)
    requires m == s.(main := Receiving(job, 0), line := s.line.(requests := []))
    ensures Reaches(s, more, t)
    ensures t == s.(line := s.line.(requests := []), taskers := s.taskers[0 := Running(job)],
                    accepted := [job], started := [job])
  {
    Extend(s, actions, m, Received);
    var n := Apply(m, Received);
    Extend(s, actions + [Received], n, Submit);
    n, more := Apply(n, Submit), actions + [Received] + [Submit];
    assert n.jobs == [Run(job)];
    Extend(s, more, n, Take(0));
    t, more := Apply(n, Take(0)), more + [Take(0)];
  }

  /** And then a signal comes. */
  lemma QuitWhileRunning(s: System, job: Job, size: nat) returns (actions: seq<Action>, t: System)
    requires Initial(s) && s.line.requests == [Proper(job, size)]
    ensures Reaches(s, actions, t)
    ensures t == s.(line := Line([], 0, true, false, true), main := Closing(0),
                    taskers := s.taskers[0 := Running(job)], accepted := [job], started := [job])
  {
    var m: System;
    actions, m := JobTaken(s, job, size);
    Extend(s, actions, m, Interrupt);
    m, actions := Apply(m, Interrupt), actions + [Interrupt];
    Extend(s, actions, m, Quit);
    m, actions := Apply(m, Quit), actions + [Quit];
    Extend(s, actions, m, Close);
    t, actions := Apply(m, Close), actions + [Close];
  }

  /** One job, overtaken by the shutdown while it runs: accepted and executed, never sent. */
  lemma ResultCanBeLost(s: System, job: Job, size: nat) returns (actions: seq<Action>, t: System)
    requires Initial(s) && s.line.requests == [Proper(job, size)]
    ensures Reaches(s, actions, t)
    ensures t.main == Exited && !t.failed && t.finished == t.accepted == [job] && t.sent == []
  {
    var m: System;
    actions, m := QuitWhileRunning(s, job, size);
    actions, m := MarkAllEnds(s, actions, m, 0);
    Extend(s, actions, m, MarkResultsEnd);
    m, actions := Apply(m, MarkResultsEnd), actions + [MarkResultsEnd];
    Extend(s, actions, m, TakeResult);
    m, actions := Apply(m, TakeResult), actions + [TakeResult];
    actions, t := DrainAfterClose(s, actions, m, job);
  }

  lemma DrainAfterClose(s: System, actions: seq<Action>, m: System, job: Job) returns (more: seq<Action>, t: System)
    requires Reaches(s, actions, m)
    requires m.main == Joining && m.sender == Gone && |m.taskers| > 0
    requires m.taskers[0] == Running(job) && m.jobs == Ends(|m.taskers|)
    requires forall i :: 0 < i < |m.taskers| ==> m.taskers[i] == Pulling
    ensures Reaches(s, more, t)
    ensures t.main == Exited && t.sent == m.sent && t.failed == m.failed
    ensures t.accepted == m.accepted && t.finished == m.finished + [job]
  {
    Extend(s, actions, m, Deliver(0));
    var n := Apply(m, Deliver(0));
    more, n := StopFrom(s, actions + [Deliver(0)], n, 0);
    Extend(s, more, n, Join);
    t, more := Apply(n, Join), more + [Join];
  }
}
