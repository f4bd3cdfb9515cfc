/**
 The threads of a worker node (worker.c): the main thread receiving requests and feeding a
 bounded queue of jobs, the tasking threads draining it into an unbounded queue of results, the
 sending thread draining that, and the shutdown in which the main thread closes the socket and
 then pushes one end marker (a job with a NULL file name) for each tasking thread and one for
 the sending thread.  A signal shuts the socket down before that, and the master may hang up,
 at any moment, also while a request is being received.

 A queue operation is one step here, possible only when its wait loop would let the thread
 through; module QueueMonitor justifies that view of queue.c.  Module WorkerShutdown says what
 becomes of whole runs.
 */
module WorkerPipeline {

  const NUM_THREAD: nat := 5
  const MAX_CONCURRENT_TASK: nat := 15

  /** A job accepted from the master; the number stands for its file name, never NULL. */
  type Job = nat

  datatype Item = Run(job: Job) | End

  /** What the master sends: a request with a body of so many bytes, or a line that is no request. */
  datatype Request = Proper(job: Job, size: nat) | Junk

  /** The connection with the master. */
  datatype Line = Line(
    requests: seq<Request>,  // what the main thread has not taken up yet
    inbox: nat,              // how much has arrived and not been read, a request line counting as one
    peer: bool,              // the master has not hung up
    open: bool,              // the socket is neither shut down nor closed
    quitting: bool)          // the flag that the signal handler sets

  datatype Main =
    | Accepting                           // at the head of the request loop
    | Receiving(job: Job, missing: nat)   // in read_file, with so many bytes still to read
    | Submitting(job: Job)                // in queue_push for a job
    | Leaving                             // has left the loop, the socket not yet closed
    | Closing(marks: nat)                 // has closed it and pushed this many end markers
    | Joining
    | Exited

  datatype Tasker = Pulling | Running(job: Job) | Stopped

  datatype Sender = Idle | Sending(job: Job) | Gone

  datatype System = System(
    line: Line,
    main: Main,
    taskers: seq<Tasker>,
    sender: Sender,
    capacity: nat,
    jobs: seq<Item>,         // task_queue
    results: seq<Item>,      // finished_task_queue
    // histories
    accepted: seq<Job>,      // pushed on the job queue
    started: seq<Job>,       // pulled from it by some tasking thread
    finished: seq<Job>,      // pushed on the result queue
    sent: seq<Job>,          // written back to the master in full
    cutoff: nat,             // |finished| when the end marker of the result queue was pushed
    failed: bool)            // the sending thread gave up on a write error

  datatype Action =
    | Bytes(count: nat)      // more arrives from the master
    | HangUp                 // the master closes the connection
    | Interrupt              // the signal handler: shuts the socket down and sets the flag
    | Arrive                 // a request line is read
    | Refuse                 // a line that is no request is read
    | Read(count: nat)       // a read that brings a part of the body
    | EmptyRound             // a round of read_file_from_socket that reads nothing
    | Received               // the body is complete
    | Submit
    | Quit
    | Close
    | MarkEnd
    | MarkResultsEnd
    | Join
    | Take(thread: nat)
    | Deliver(thread: nat)
    | TakeResult
    | FinishSend
    | FailSend

  function Units(requests: seq<Request>): nat {
    if requests == [] then 0
    else 1 + (if requests[0].Proper? then requests[0].size else 0) + Units(requests[1..])
  }

  /** How much is still to be read, whether it has arrived or not. */
  function Unread(main: Main, l: Line): nat {
    (if main.Receiving? then main.missing else 0) + Units(l.requests)
  }

  /** Nothing more can arrive. */
  predicate Dead(l: Line) {
    !l.peer || !l.open
  }

  /** Whether the next line can be read, and there is no reason to leave instead. */
  predicate LineReady(s: System) {
    s.main.Accepting? && !s.line.quitting && s.line.inbox > 0 && s.line.requests != []
  }

  predicate Enabled(s: System, a: Action) {
    match a
    case Bytes(n) => !Dead(s.line) && 0 < n && s.line.inbox + n <= Unread(s.main, s.line)
    case HangUp => s.line.peer
    case Interrupt => !s.line.quitting
    case Arrive => LineReady(s) && s.line.requests[0].Proper?
    case Refuse => LineReady(s) && s.line.requests[0].Junk?
    case Read(n) => s.main.Receiving? && 0 < n <= s.line.inbox && n <= s.main.missing
    case EmptyRound => s.main.Receiving? && s.main.missing > 0 && s.line.inbox == 0 && Dead(s.line)
    case Received => s.main.Receiving? && s.main.missing == 0
    case Submit => s.main.Submitting? && |s.jobs| != s.capacity
    case Quit => s.main.Accepting? && (s.line.quitting || (!s.line.peer && s.line.inbox == 0))
    case Close => s.main.Leaving?
    case MarkEnd => s.main.Closing? && s.main.marks < |s.taskers| && |s.jobs| != s.capacity
    case MarkResultsEnd => s.main.Closing? && s.main.marks == |s.taskers|
    case Join => s.main.Joining? && s.sender.Gone? && forall i :: 0 <= i < |s.taskers| ==> s.taskers[i] == Stopped
    case Take(i) => i < |s.taskers| && s.taskers[i].Pulling? && |s.jobs| != 0
    case Deliver(i) => i < |s.taskers| && s.taskers[i].Running?
    case TakeResult => s.sender.Idle? && |s.results| != 0
    case FinishSend => s.sender.Sending? && s.line.open
    case FailSend => s.sender.Sending?
  }

  function Apply(s: System, a: Action): System
    requires Enabled(s, a)
  {
    match a
    case Bytes(n) => s.(line := s.line.(inbox := s.line.inbox + n))
    case HangUp => s.(line := s.line.(peer := false))
    case Interrupt => s.(line := s.line.(open := false, quitting := true))
    case Arrive =>
      var r := s.line.requests[0];
      s.(main := Receiving(r.job, r.size), line := s.line.(requests := s.line.requests[1..], inbox := s.line.inbox - 1))
    case Refuse => s.(line := s.line.(requests := s.line.requests[1..], inbox := s.line.inbox - 1))
    case Read(n) =>
      s.(main := Receiving(s.main.job, s.main.missing - n), line := s.line.(inbox := s.line.inbox - n))
    case EmptyRound => s
    case Received => s.(main := Submitting(s.main.job))
    case Submit =>
      s.(main := Accepting, jobs := s.jobs + [Run(s.main.job)], accepted := s.accepted + [s.main.job])
    case Quit => s.(main := Leaving)
    case Close => s.(main := Closing(0), line := s.line.(open := false))
    case MarkEnd => s.(main := Closing(s.main.marks + 1), jobs := s.jobs + [End])
    case MarkResultsEnd => s.(main := Joining, results := s.results + [End], cutoff := |s.finished|)
    case Join => s.(main := Exited)
    case Take(i) =>
      (match s.jobs[0]
       case End => s.(jobs := s.jobs[1..], taskers := s.taskers[i := Stopped])
       case Run(j) =>
         s.(jobs := s.jobs[1..], taskers := s.taskers[i := Running(j)], started := s.started + [j]))
    case Deliver(i) =>
      var j := s.taskers[i].job;
      s.(taskers := s.taskers[i := Pulling], results := s.results + [Run(j)], finished := s.finished + [j])
    case TakeResult =>
      (match s.results[0]
       case End => s.(results := s.results[1..], sender := Gone)
       case Run(j) => s.(results := s.results[1..], sender := Sending(j)))
    case FinishSend => s.(sender := Idle, sent := s.sent + [s.sender.job])
    case FailSend => s.(sender := Gone, failed := true)
  }

  ghost predicate Initial(s: System) {
    && s.main == Accepting
    && s.taskers == seq(NUM_THREAD, _ => Pulling)
    && s.sender == Idle
    && s.capacity == MAX_CONCURRENT_TASK
    && s.jobs == [] && s.results == []
    && s.line == Line(s.line.requests, 0, true, true, false)
    && s.accepted == [] && s.started == [] && s.finished == [] && s.sent == []
    && s.cutoff == 0 && !s.failed
  }

  ghost predicate Reaches(s: System, actions: seq<Action>, t: System)
    decreases |actions|
  {
    if actions == [] then t == s
    else Enabled(s, actions[0]) && Reaches(Apply(s, actions[0]), actions[1..], t)
  }

  // ---------------------------------------------------------------------------
  // Counting threads
  // ---------------------------------------------------------------------------

  /** How many tasking threads have left their loop. */
  function Stops(ts: seq<Tasker>): nat {
    multiset(ts)[Stopped]
  }

  lemma {:induction false} AllStopped(ts: seq<Tasker>)
    ensures Stops(ts) <= |ts|
    ensures Stops(ts) == |ts| <==> forall i :: 0 <= i < |ts| ==> ts[i] == Stopped
  {
    if ts != [] {
      AllStopped(ts[1..]);
      assert ts == [ts[0]] + ts[1..];
    }
  }

  // ---------------------------------------------------------------------------
  // The invariant
  // ---------------------------------------------------------------------------

  function MarksPushed(s: System): nat {
    match s.main
    case Accepting => 0
    case Receiving(_, _) => 0
    case Submitting(_) => 0
    case Leaving => 0
    case Closing(k) => k
    case Joining => |s.taskers|
    case Exited => |s.taskers|
  }

  function Runs(jobs: seq<Job>): (items: seq<Item>)
    ensures |items| == |jobs|
  {
    seq(|jobs|, i requires 0 <= i < |jobs| => Run(jobs[i]))
  }

  function Ends(n: nat): (items: seq<Item>)
    ensures |items| == n
  {
    seq(n, _ => End)
  }

  /** The job queue holds the accepted jobs no thread has started, then the unclaimed markers. */
  ghost predicate JobQueueInv(s: System) {
    && s.started <= s.accepted
    && Stops(s.taskers) <= MarksPushed(s) <= |s.taskers|
    && s.jobs == Runs(s.accepted[|s.started|..]) + Ends(MarksPushed(s) - Stops(s.taskers))
    && |s.jobs| <= s.capacity
    && (Stops(s.taskers) > 0 ==> s.started == s.accepted)
  }

  /** Every started job is in some thread's hands or finished. */
  ghost predicate WorkInv(s: System) {
    forall j: Job :: multiset(s.started)[j] == multiset(s.finished)[j] + multiset(s.taskers)[Running(j)]
  }

  predicate ResultsClosed(s: System) {
    s.main.Joining? || s.main.Exited?
  }

  /** The jobs whose results were pushed ahead of the end marker, if it has been pushed. */
  function Timely(s: System): seq<Job> {
    if ResultsClosed(s) && s.cutoff <= |s.finished| then s.finished[..s.cutoff] else s.finished
  }

  /** What is left in the result queue after the first `n` results went to the sending thread. */
  function ResultsFrom(s: System, n: nat): seq<Item>
    requires n <= |Timely(s)| <= |s.finished|
  {
    Runs(s.finished[n..|Timely(s)|])
    + (if ResultsClosed(s) then [End] + Runs(s.finished[|Timely(s)|..]) else [])
  }

  ghost predicate ResultQueueInv(s: System) {
    && (ResultsClosed(s) ==> s.cutoff <= |s.finished|)
    && s.sent <= Timely(s)
    && match s.sender
       case Idle => s.results == ResultsFrom(s, |s.sent|)
       case Sending(j) =>
         |s.sent| < |Timely(s)| && j == Timely(s)[|s.sent|] && s.results == ResultsFrom(s, |s.sent| + 1)
       case Gone => s.failed || (ResultsClosed(s) && s.sent == Timely(s))
  }

  predicate PastClose(m: Main) {
    m.Closing? || m.Joining? || m.Exited?
  }

  /** The socket is open until a signal or the close, which comes before the first marker. */
  ghost predicate LineInv(s: System) {
    && (s.line.open <==> !s.line.quitting && !PastClose(s.main))
    && s.line.inbox <= Unread(s.main, s.line)
  }

  /** Whatever remains once the process has exited. */
  ghost predicate ExitInv(s: System) {
    s.main.Exited? ==> s.sender.Gone? && forall i :: 0 <= i < |s.taskers| ==> s.taskers[i] == Stopped
  }

  ghost predicate Inv(s: System) {
    && |s.taskers| > 0 && s.capacity > 0
    && JobQueueInv(s)
    && WorkInv(s)
    && ResultQueueInv(s)
    && LineInv(s)
    && ExitInv(s)
  }

  lemma RunsTail(jobs: seq<Job>)
    requires jobs != []
    ensures Runs(jobs)[0] == Run(jobs[0]) && Runs(jobs)[1..] == Runs(jobs[1..])
  {
  }

  lemma HeadOfJobs(waiting: seq<Job>, marks: nat)
    requires |waiting| + marks > 0
    ensures var queue := Runs(waiting) + Ends(marks);
      if waiting == [] then queue[0] == End && queue[1..] == Runs(waiting) + Ends(marks - 1)
      else queue[0] == Run(waiting[0]) && queue[1..] == Runs(waiting[1..]) + Ends(marks)
  {
    if waiting == [] {
      assert Runs(waiting) + Ends(marks) == Ends(marks);
    } else {
      RunsTail(waiting);
    }
  }

  lemma CountUpdated(ts: seq<Tasker>, i: nat, t: Tasker, x: Tasker)
    requires i < |ts|
    ensures multiset(ts[i := t])[x] + (if ts[i] == x then 1 else 0) == multiset(ts)[x] + (if t == x then 1 else 0)
  {
  }

  lemma TakeJobKeepsJobQueue(s: System, i: nat)
    requires JobQueueInv(s) && Enabled(s, Take(i)) && s.started < s.accepted
    ensures JobQueueInv(Apply(s, Take(i)))
  {
    var waiting := s.accepted[|s.started|..];
    HeadOfJobs(waiting, MarksPushed(s) - Stops(s.taskers));
    var t := Apply(s, Take(i));
    assert t.taskers == s.taskers[i := Running(waiting[0])];
    CountUpdated(s.taskers, i, Running(waiting[0]), Stopped);
    assert t.started == s.started + [waiting[0]];
    assert t.accepted[|t.started|..] == waiting[1..];
  }

  lemma TakeEndKeepsJobQueue(s: System, i: nat)
    requires JobQueueInv(s) && Enabled(s, Take(i)) && s.started == s.accepted
    ensures JobQueueInv(Apply(s, Take(i)))
  {
    var waiting := s.accepted[|s.started|..];
    HeadOfJobs(waiting, MarksPushed(s) - Stops(s.taskers));
    var t := Apply(s, Take(i));
    assert t.taskers == s.taskers[i := Stopped];
    CountUpdated(s.taskers, i, Stopped, Stopped);
  }

  lemma CountAppended(jobs: seq<Job>, job: Job, j: Job)
    ensures multiset(jobs + [job])[j] == multiset(jobs)[j] + (if j == job then 1 else 0)
  {
  }

  lemma TakeKeepsWork(s: System, i: nat)
    requires WorkInv(s) && Enabled(s, Take(i))
    ensures WorkInv(Apply(s, Take(i)))
  {
    var t := Apply(s, Take(i)).taskers[i];
    forall j: Job
      ensures multiset(Apply(s, Take(i)).started)[j]
        == multiset(s.finished)[j] + multiset(s.taskers[i := t])[Running(j)]
    {
      CountUpdated(s.taskers, i, t, Running(j));
      if s.jobs[0].Run? {
        CountAppended(s.started, s.jobs[0].job, j);
      }
    }
  }

  lemma DeliverKeepsWork(s: System, i: nat)
    requires WorkInv(s) && Enabled(s, Deliver(i))
    ensures WorkInv(Apply(s, Deliver(i)))
  {
    var job := s.taskers[i].job;
    forall j: Job
      ensures multiset(s.started)[j]
        == multiset(s.finished + [job])[j] + multiset(s.taskers[i := Pulling])[Running(j)]
    {
      CountUpdated(s.taskers, i, Pulling, Running(j));
      CountAppended(s.finished, job, j);
    }
  }

  lemma DeliverKeepsJobQueue(s: System, i: nat)
    requires JobQueueInv(s) && Enabled(s, Deliver(i))
    ensures JobQueueInv(Apply(s, Deliver(i)))
  {
    assert Stops(Apply(s, Deliver(i)).taskers) == Stops(s.taskers);
  }

  lemma RunsOneMore(jobs: seq<Job>, job: Job)
    ensures Runs(jobs + [job]) == Runs(jobs) + [Run(job)]
  {
  }

  lemma OneMoreResult(s: System, t: System, n: nat, job: Job)
    requires ResultsClosed(t) == ResultsClosed(s) && t.cutoff == s.cutoff
    requires t.finished == s.finished + [job]
    requires ResultsClosed(s) ==> s.cutoff <= |s.finished|
    requires n <= |Timely(s)|
    ensures n <= |Timely(t)| <= |t.finished| && Timely(s) <= Timely(t)
    ensures ResultsClosed(s) ==> Timely(t) == Timely(s)
    ensures ResultsFrom(t, n) == ResultsFrom(s, n) + [Run(job)]
  {
    if ResultsClosed(s) {
      var c := s.cutoff;
      assert (s.finished + [job])[n..c] == s.finished[n..c];
      assert (s.finished + [job])[c..] == s.finished[c..] + [job];
      assert (s.finished + [job])[..c] == s.finished[..c];
      RunsOneMore(s.finished[s.cutoff..], job);
    } else {
      assert t.finished[n..|t.finished|] == s.finished[n..|s.finished|] + [job];
      RunsOneMore(s.finished[n..|s.finished|], job);
    }
  }

  lemma DeliverKeepsResultQueue(s: System, i: nat)
    requires ResultQueueInv(s) && Enabled(s, Deliver(i))
    ensures ResultQueueInv(Apply(s, Deliver(i)))
  {
    var n := |s.sent| + if s.sender.Sending? then 1 else 0;
    OneMoreResult(s, Apply(s, Deliver(i)), n, s.taskers[i].job);
  }

  lemma TakeDueKeepsResultQueue(s: System)
    requires ResultQueueInv(s) && Enabled(s, TakeResult) && |s.sent| < |Timely(s)|
    ensures ResultQueueInv(Apply(s, TakeResult))
  {
    var t := Apply(s, TakeResult);
    var due := s.finished[|s.sent|..|Timely(s)|];
    RunsTail(due);
    assert s.results[0] == Run(due[0]);
    assert due[1..] == t.finished[|t.sent| + 1..|Timely(t)|];
    assert t.results == ResultsFrom(t, |t.sent| + 1);
  }

  lemma TakeLastKeepsResultQueue(s: System)
    requires ResultQueueInv(s) && Enabled(s, TakeResult) && |s.sent| == |Timely(s)|
    ensures ResultQueueInv(Apply(s, TakeResult))
  {
    assert s.finished[|s.sent|..|Timely(s)|] == [];
    assert s.results[0] == End;
    assert s.sent == Timely(s);
  }

  lemma TakeResultKeepsResultQueue(s: System)
    requires ResultQueueInv(s) && Enabled(s, TakeResult)
    ensures ResultQueueInv(Apply(s, TakeResult))
  {
    if |s.sent| < |Timely(s)| {
      TakeDueKeepsResultQueue(s);
    } else {
      TakeLastKeepsResultQueue(s);
    }
  }

  lemma SubmitKeepsJobQueue(s: System)
    requires JobQueueInv(s) && Enabled(s, Submit)
    ensures JobQueueInv(Apply(s, Submit))
  {
    var t := Apply(s, Submit);
    assert t.accepted[|t.started|..] == s.accepted[|s.started|..] + [s.main.job];
    assert t.jobs == Runs(t.accepted[|t.started|..]) + Ends(0);
  }

  lemma MarkEndKeepsJobQueue(s: System)
    requires JobQueueInv(s) && Enabled(s, MarkEnd)
    ensures JobQueueInv(Apply(s, MarkEnd))
  {
    var t := Apply(s, MarkEnd);
    assert Ends(MarksPushed(t) - Stops(t.taskers)) == Ends(MarksPushed(s) - Stops(s.taskers)) + [End];
  }

  lemma MarkResultsEndKeepsResultQueue(s: System)
    requires ResultQueueInv(s) && Enabled(s, MarkResultsEnd)
    ensures ResultQueueInv(Apply(s, MarkResultsEnd))
  {
    var t := Apply(s, MarkResultsEnd);
    var n := |s.sent| + if s.sender.Sending? then 1 else 0;
    assert Timely(t) == Timely(s) == s.finished;
    if !s.sender.Gone? {
      assert t.results == ResultsFrom(t, n);
    }
  }

  lemma JobQueueFrame(s: System, t: System)
    requires JobQueueInv(s) && MarksPushed(t) == MarksPushed(s)
    requires t.jobs == s.jobs && t.accepted == s.accepted && t.started == s.started
    requires t.taskers == s.taskers && t.capacity == s.capacity
    ensures JobQueueInv(t)
  {
  }

  lemma TakeKeepsJobQueue(s: System, i: nat)
    requires JobQueueInv(s) && Enabled(s, Take(i))
    ensures JobQueueInv(Apply(s, Take(i)))
  {
    if s.started == s.accepted {
      TakeEndKeepsJobQueue(s, i);
    } else {
      TakeJobKeepsJobQueue(s, i);
    }
  }

  /** Whether an action works on the queue of jobs. */
  predicate OnJobs(a: Action) {
    a.Submit? || a.MarkEnd? || a.Take? || a.Deliver?
  }

  lemma OthersKeepJobQueue(s: System, a: Action)
    requires JobQueueInv(s) && Enabled(s, a) && !OnJobs(a)
    ensures JobQueueInv(Apply(s, a))
  {
    JobQueueFrame(s, Apply(s, a));
  }

  lemma KeepsJobQueue(s: System, a: Action)
    requires JobQueueInv(s) && Enabled(s, a)
    ensures JobQueueInv(Apply(s, a))
  {
    if !OnJobs(a) {
      OthersKeepJobQueue(s, a);
    } else if a.Take? {
      TakeKeepsJobQueue(s, a.thread);
    } else if a.Deliver? {
      DeliverKeepsJobQueue(s, a.thread);
    } else if a.Submit? {
      SubmitKeepsJobQueue(s);
    } else {
      MarkEndKeepsJobQueue(s);
    }
  }

  lemma KeepsWork(s: System, a: Action)
    requires WorkInv(s) && Enabled(s, a)
    ensures WorkInv(Apply(s, a))
  {
    match a
    case Take(i) => TakeKeepsWork(s, i);
    case Deliver(i) => DeliverKeepsWork(s, i);
    case _ =>
  }

  lemma ResultQueueFrame(s: System, t: System)
    requires ResultQueueInv(s) && ResultsClosed(t) == ResultsClosed(s)
    requires t.results == s.results && t.finished == s.finished && t.sent == s.sent
    requires t.sender == s.sender && t.cutoff == s.cutoff && t.failed == s.failed
    ensures ResultQueueInv(t)
  {
    assert Timely(t) == Timely(s);
  }

  lemma SendKeepsResultQueue(s: System, a: Action)
    requires ResultQueueInv(s) && Enabled(s, a) && (a.FinishSend? || a.FailSend?)
    ensures ResultQueueInv(Apply(s, a))
  {
    assert Timely(Apply(s, a)) == Timely(s);
  }

  /** Whether an action works on the queue of results. */
  predicate OnResults(a: Action) {
    a.Deliver? || a.TakeResult? || a.MarkResultsEnd? || a.FinishSend? || a.FailSend?
  }

  lemma OthersKeepResultQueue(s: System, a: Action)
    requires ResultQueueInv(s) && Enabled(s, a) && !OnResults(a)
    ensures ResultQueueInv(Apply(s, a))
  {
    ResultQueueFrame(s, Apply(s, a));
  }

  lemma KeepsResultQueue(s: System, a: Action)
    requires ResultQueueInv(s) && Enabled(s, a)
    ensures ResultQueueInv(Apply(s, a))
  {
    if !OnResults(a) {
      OthersKeepResultQueue(s, a);
    } else if a.Deliver? {
      DeliverKeepsResultQueue(s, a.thread);
    } else if a.TakeResult? {
      TakeResultKeepsResultQueue(s);
    } else if a.MarkResultsEnd? {
      MarkResultsEndKeepsResultQueue(s);
    } else {
      SendKeepsResultQueue(s, a);
    }
  }

  lemma KeepsLine(s: System, a: Action)
    requires LineInv(s) && Enabled(s, a)
    ensures LineInv(Apply(s, a))
  {
  }

  lemma KeepsExit(s: System, a: Action)
    requires ExitInv(s) && Enabled(s, a)
    ensures ExitInv(Apply(s, a)) && |Apply(s, a).taskers| == |s.taskers| && Apply(s, a).capacity == s.capacity
  {
  }

  lemma StepKeepsInv(s: System, a: Action)
    requires Inv(s) && Enabled(s, a)
    ensures Inv(Apply(s, a))
  {
    KeepsJobQueue(s, a);
    KeepsWork(s, a);
    KeepsResultQueue(s, a);
    KeepsLine(s, a);
    KeepsExit(s, a);
  }

  lemma InitialInv(s: System)
    requires Initial(s)
    ensures Inv(s)
  {
  }

  lemma {:induction false} RunKeepsInv(s: System, actions: seq<Action>, t: System)
    requires Inv(s) && Reaches(s, actions, t)
    ensures Inv(t)
    decreases |actions|
  {
    if actions != [] {
      StepKeepsInv(s, actions[0]);
      RunKeepsInv(Apply(s, actions[0]), actions[1..], t);
    }
  }

  // ---------------------------------------------------------------------------
  // Progress
  // ---------------------------------------------------------------------------

  lemma {:induction false} SomeNotStopped(ts: seq<Tasker>) returns (i: nat)
    requires Stops(ts) < |ts|
    ensures i < |ts| && !ts[i].Stopped?
  {
    AllStopped(ts);
    i :| 0 <= i < |ts| && ts[i] != Stopped;
  }

  /** What happens to the node rather than in it. */
  predicate FromOutside(a: Action) {
    a.Bytes? || a.HangUp? || a.Interrupt?
  }

  /** A step of one of its threads that gets somewhere. */
  predicate Useful(a: Action) {
    !FromOutside(a) && !a.EmptyRound?
  }

  /** The main thread waits for the master: for a line, or for more of a body. */
  predicate Starved(s: System) {
    || (s.main.Accepting? && !s.line.quitting && s.line.inbox == 0 && s.line.peer)
    || (s.main.Receiving? && s.main.missing > 0 && s.line.inbox == 0)
  }

  /** What the main thread can do, unless a queue or the other threads hold it up. */
  lemma MainCanMove(s: System) returns (a: Action)
    requires LineInv(s) && !Starved(s)
    requires s.main.Accepting? || s.main.Receiving?
    ensures Enabled(s, a) && Useful(a) && !a.FailSend?
  {
    if s.main.Receiving? {
      a := if s.main.missing == 0 then Received
           else Read(if s.line.inbox < s.main.missing then s.line.inbox else s.main.missing);
    } else if s.line.quitting || s.line.inbox == 0 {
      a := Quit;
    } else {
      a := if s.line.requests[0].Proper? then Arrive else Refuse;
    }
  }

  /** No deadlock: until the process has exited, or while the main thread is not starved, some thread can get on. */
  lemma SomeThreadCanMove(s: System) returns (a: Action)
    requires Inv(s) && s.main != Exited && !Starved(s)
    ensures Enabled(s, a) && Useful(a)
    ensures a == FailSend ==> !s.line.open
  {
    AllStopped(s.taskers);
    if s.main.Accepting? || s.main.Receiving? {
      a := MainCanMove(s);
    } else if s.sender.Sending? {
      a := if s.line.open then FinishSend else FailSend;
    } else if Stops(s.taskers) < |s.taskers| {
      var i := SomeNotStopped(s.taskers);
      if s.taskers[i].Running? {
        a := Deliver(i);
      } else if |s.jobs| > 0 {
        a := Take(i);
      } else {
        match s.main
        case Submitting(_) => a := Submit;
        case Leaving => a := Close;
        case Closing(k) => a := if k < |s.taskers| then MarkEnd else MarkResultsEnd;
      }
    } else {
      match s.main
      case Closing(_) => a := MarkResultsEnd;
      case Joining => a := if s.sender.Idle? then TakeResult else Join;
    }
  }

  function ItemWeights(items: seq<Item>, perJob: nat): nat {
    if items == [] then 0 else (if items[0].End? then 1 else perJob) + ItemWeights(items[1..], perJob)
  }

  function TaskerWeights(ts: seq<Tasker>): nat {
    if ts == [] then 0 else (if ts[0].Running? then 4 else 0) + TaskerWeights(ts[1..])
  }

  function MainWeight(main: Main, threads: nat): nat {
    match main
    case Accepting => 2 * threads + 5
    case Receiving(_, _) => 2 * threads + 13
    case Submitting(_) => 2 * threads + 12
    case Leaving => 2 * threads + 4
    case Closing(k) => (if k <= threads then 2 * (threads - k) else 0) + 3
    case Joining => 1
    case Exited => 0
  }

  /** What the connection can still bring. */
  function LineWeight(main: Main, l: Line): nat {
    8 * |l.requests| + Unread(main, l) + (if l.inbox <= Unread(main, l) then Unread(main, l) - l.inbox else 0)
    + (if l.peer then 1 else 0) + (if l.quitting then 0 else 1)
  }

  /** What the main thread and the connection can still do. */
  function FrontWeight(s: System): nat {
    LineWeight(s.main, s.line) + MainWeight(s.main, |s.taskers|)
  }

  /** What the queues and the other threads can still do. */
  function BackWeight(s: System): nat {
    ItemWeights(s.jobs, 5) + TaskerWeights(s.taskers) + ItemWeights(s.results, 2)
    + (if s.sender.Sending? then 1 else 0)
  }

  /** How many steps other than empty rounds the system can still take, at most. */
  function Measure(s: System): nat {
    FrontWeight(s) + BackWeight(s)
  }

  lemma {:induction false} AppendWeight(items: seq<Item>, item: Item, perJob: nat)
    ensures ItemWeights(items + [item], perJob) == ItemWeights(items, perJob) + if item.End? then 1 else perJob
  {
    if items != [] {
      assert (items + [item])[1..] == items[1..] + [item];
      AppendWeight(items[1..], item, perJob);
    }
  }

  lemma {:induction false} UpdateWeight(ts: seq<Tasker>, i: nat, t: Tasker)
    requires i < |ts|
    ensures TaskerWeights(ts[i := t]) + (if ts[i].Running? then 4 else 0)
         == TaskerWeights(ts) + (if t.Running? then 4 else 0)
  {
    if i == 0 {
      assert ts[i := t][1..] == ts[1..];
    } else {
      assert ts[i := t][1..] == ts[1..][i - 1 := t];
      UpdateWeight(ts[1..], i - 1, t);
    }
  }

  /** A step of the tasking threads or the sending thread. */
  predicate AtTheBack(a: Action) {
    a.Take? || a.Deliver? || a.TakeResult? || a.FinishSend? || a.FailSend?
  }

  lemma TakeShrinks(s: System, i: nat)
    requires Enabled(s, Take(i))
    ensures BackWeight(Apply(s, Take(i))) < BackWeight(s)
  {
    UpdateWeight(s.taskers, i, Apply(s, Take(i)).taskers[i]);
  }

  lemma DeliverShrinks(s: System, i: nat)
    requires Enabled(s, Deliver(i))
    ensures BackWeight(Apply(s, Deliver(i))) < BackWeight(s)
  {
    UpdateWeight(s.taskers, i, Pulling);
    AppendWeight(s.results, Run(s.taskers[i].job), 2);
  }

  lemma BackShrinks(s: System, a: Action)
    requires Enabled(s, a) && AtTheBack(a)
    ensures BackWeight(Apply(s, a)) < BackWeight(s) && FrontWeight(Apply(s, a)) == FrontWeight(s)
  {
    if a.Take? {
      TakeShrinks(s, a.thread);
    } else if a.Deliver? {
      DeliverShrinks(s, a.thread);
    }
  }

  lemma SubmitShrinks(s: System)
    requires Enabled(s, Submit)
    ensures Measure(Apply(s, Submit)) < Measure(s)
  {
    AppendWeight(s.jobs, Run(s.main.job), 5);
  }

  lemma MarkEndShrinks(s: System)
    requires Enabled(s, MarkEnd)
    ensures Measure(Apply(s, MarkEnd)) < Measure(s)
  {
    AppendWeight(s.jobs, End, 5);
  }

  lemma MarkResultsEndShrinks(s: System)
    requires Enabled(s, MarkResultsEnd)
    ensures Measure(Apply(s, MarkResultsEnd)) < Measure(s)
  {
    AppendWeight(s.results, End, 2);
  }

  lemma PushShrinks(s: System, a: Action)
    requires Enabled(s, a) && (a.Submit? || a.MarkEnd? || a.MarkResultsEnd?)
    ensures Measure(Apply(s, a)) < Measure(s)
  {
    match a
    case Submit => SubmitShrinks(s);
    case MarkEnd => MarkEndShrinks(s);
    case MarkResultsEnd => MarkResultsEndShrinks(s);
  }

  /** A step of the main thread that pushes nothing, or of the connection. */
  predicate AtTheFront(a: Action) {
    !AtTheBack(a) && !a.Submit? && !a.MarkEnd? && !a.MarkResultsEnd? && !a.EmptyRound?
  }

  lemma FrontShrinks(s: System, a: Action)
    requires LineInv(s) && Enabled(s, a) && AtTheFront(a)
    ensures FrontWeight(Apply(s, a)) < FrontWeight(s) && BackWeight(Apply(s, a)) == BackWeight(s)
  {
  }

  lemma StepShrinks(s: System, a: Action)
    requires LineInv(s) && Enabled(s, a) && !a.EmptyRound?
    ensures Measure(Apply(s, a)) < Measure(s)
  {
    if AtTheBack(a) {
      BackShrinks(s, a);
    } else if AtTheFront(a) {
      FrontShrinks(s, a);
    } else {
      PushShrinks(s, a);
    }
  }

  /** The steps of a run that are not empty rounds. */
  function Steps(actions: seq<Action>): nat {
    if actions == [] then 0 else (if actions[0].EmptyRound? then 0 else 1) + Steps(actions[1..])
  }

  /**
   No run has more steps than the measure of where it starts, not counting the rounds in which
   a dead connection is read in vain.
   */
  lemma {:induction false} RunsAreBounded(s: System, actions: seq<Action>, t: System)
    requires LineInv(s) && Reaches(s, actions, t)
    ensures Steps(actions) + Measure(t) <= Measure(s)
    decreases |actions|
  {
    if actions != [] {
      KeepsLine(s, actions[0]);
      if !actions[0].EmptyRound? {
        StepShrinks(s, actions[0]);
      }
      RunsAreBounded(Apply(s, actions[0]), actions[1..], t);
    }
  }

  // ---------------------------------------------------------------------------
  // Every reachable state
  // ---------------------------------------------------------------------------

  /** Real jobs come off the queue before any end marker, in every reachable state. */
  lemma MarkersComeLast(s: System, actions: seq<Action>, t: System)
    requires Initial(s) && Reaches(s, actions, t)
    ensures t.started <= t.accepted
    ensures Stops(t.taskers) > 0 ==> t.started == t.accepted
    ensures forall i, j :: 0 <= i < j < |t.jobs| && t.jobs[i].End? ==> t.jobs[j].End?
    ensures |t.jobs| <= 15
  {
    InitialInv(s);
    RunKeepsInv(s, actions, t);
    CapacityKept(s, actions, t);
  }

  lemma {:induction false} CapacityKept(s: System, actions: seq<Action>, t: System)
    requires Reaches(s, actions, t)
    ensures t.capacity == s.capacity && |t.taskers| == |s.taskers|
    decreases |actions|
  {
    if actions != [] {
      CapacityKept(Apply(s, actions[0]), actions[1..], t);
    }
  }

  // ---------------------------------------------------------------------------
  // What is accepted
  // ---------------------------------------------------------------------------

  /** The jobs that the master asks for, in order. */
  function Asked(requests: seq<Request>): seq<Job> {
    if requests == [] then []
    else (if requests[0].Proper? then [requests[0].job] else []) + Asked(requests[1..])
  }

  /** The job that the main thread has taken up and not pushed yet. */
  function InHand(main: Main): seq<Job> {
    match main
    case Receiving(job, _) => [job]
    case Submitting(job) => [job]
    case _ => []
  }

  lemma StepKeepsAsked(s: System, a: Action)
    requires Enabled(s, a)
    ensures var t := Apply(s, a);
      t.accepted + InHand(t.main) + Asked(t.line.requests) == s.accepted + InHand(s.main) + Asked(s.line.requests)
  {
    match a
    case Arrive => Moved(s.accepted, [s.line.requests[0].job], Asked(s.line.requests[1..]));
    case Received => assert InHand(Apply(s, a).main) == InHand(s.main);
    case Read(_) => assert InHand(Apply(s, a).main) == InHand(s.main);
    case Submit => assert s.accepted + [s.main.job] + [] == s.accepted + [s.main.job];
    case _ =>
  }

  lemma Moved(a: seq<Job>, b: seq<Job>, c: seq<Job>)
    ensures a + [] + (b + c) == a + b + c
  {
  }

  /**
   In every run the jobs accepted, the one in hand and those not taken up yet are what the master
   asks for, in its order: none is skipped, doubled, changed or made up, and what is refused was no
   request.
   */
  lemma {:induction false} AcceptedAsAsked(s: System, actions: seq<Action>, t: System)
    requires Initial(s) && Reaches(s, actions, t)
    ensures t.accepted + InHand(t.main) + Asked(t.line.requests) == Asked(s.line.requests)
  {
    AskedThroughout(s, actions, t);
    assert [] + [] + Asked(s.line.requests) == Asked(s.line.requests);
  }

  lemma {:induction false} AskedThroughout(s: System, actions: seq<Action>, t: System)
    requires Reaches(s, actions, t)
    ensures t.accepted + InHand(t.main) + Asked(t.line.requests) == s.accepted + InHand(s.main) + Asked(s.line.requests)
    decreases |actions|
  {
    if actions != [] {
      StepKeepsAsked(s, actions[0]);
      AskedThroughout(Apply(s, actions[0]), actions[1..], t);
    }
  }
}
