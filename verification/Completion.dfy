/**
 When a run of jobs is completed: what the workers' answers take off the ledger, for jobs that the
 scheduler gave them.
 */
module Completion {
  import opened Options
  import opened WireFormat
  import opened FrameParser
  import opened Scheduling
  import opened Recovery
  import opened MasterModel
  import opened MasterInvariants
  import opened Handouts
  import opened Relay
  import Isolation

  // ---------------------------------------------------------------------------
  // The answers of one worker
  // ---------------------------------------------------------------------------

  lemma TaskNamesInTwo(a: seq<Task>, b: seq<Task>)
    ensures TaskNames(a + b) == TaskNames(a) + TaskNames(b)
  {
  }

  /** A name that the first job has not is left with the others. */
  lemma NotTheFirst(first: Bytes, names: seq<Bytes>, rest: seq<Bytes>, taken: seq<Bytes>)
    requires multiset(rest) + multiset(taken) == multiset(names)
    ensures multiset([first] + rest) + multiset(taken) == multiset([first] + names)
  {
  }

  lemma {:induction false} TakenFirst(tasks: seq<Task>, name: Bytes)
    ensures var (rest, taken) := TakeFirst(tasks, name);
      && multiset(TaskNames(rest)) + multiset(TaskNames(taken)) == multiset(TaskNames(tasks))
      && TaskNames(taken) == if name in TaskNames(tasks) then [name] else []
  {
    if tasks != [] {
      var others := TaskNames(tasks[1..]);
      assert TaskNames(tasks) == [tasks[0].name] + others;
      if tasks[0].name == name {
        assert TaskNames([tasks[0]]) == [name];
      } else {
        var (rest, taken) := TakeFirst(tasks[1..], name);
        TakenFirst(tasks[1..], name);
        TaskNamesInTwo([tasks[0]], rest);
        assert TaskNames([tasks[0]]) == [tasks[0].name];
        NotTheFirst(tasks[0].name, others, TaskNames(rest), TaskNames(taken));
        assert name in TaskNames(tasks) <==> name in others;
      }
    }
  }

  /** With one name taken off both, the rest is still among the rest. */
  lemma RestAmongRest(name: Bytes, names: seq<Bytes>, all: multiset<Bytes>, left: multiset<Bytes>)
    requires multiset([name] + names) <= all && left + multiset{name} == all
    ensures multiset(names) <= left
  {
    forall x: Bytes
      ensures multiset(names)[x] <= left[x]
    {
      assert multiset([name] + names)[x] == multiset{name}[x] + multiset(names)[x];
      assert multiset([name] + names)[x] <= all[x] == left[x] + multiset{name}[x];
    }
  }

  /** Answers for jobs that are all on the list each complete one, of the name they bear. */
  lemma {:induction false} EachCompletesOne(tasks: seq<Task>, names: seq<Bytes>)
    requires multiset(names) <= multiset(TaskNames(tasks))
    ensures TaskNames(Answered(tasks, names).1) == names
    decreases |names|
  {
    if names == [] {
      assert TaskNames([]) == [];
    } else {
      var name, others := names[0], names[1..];
      var (rest, taken) := TakeFirst(tasks, name);
      assert names == [name] + others;
      assert name in multiset(names);
      TakenFirst(tasks, name);
      RestAmongRest(name, others, multiset(TaskNames(tasks)), multiset(TaskNames(rest)));
      EachCompletesOne(rest, others);
      TaskNamesInTwo(taken, Answered(rest, others).1);
    }
  }

  /** Answers for the last jobs of a list, in order, complete just these, unless one before has a name of theirs. */
  lemma {:induction false} LastAreCompleted(old_: seq<Task>, given: seq<Task>)
    requires AllNew(old_, given)
    ensures Answered(old_ + given, TaskNames(given)) == (old_, given)
    decreases |given|
  {
    if given == [] {
      assert old_ + given == old_;
    } else {
      var tasks, name, k := old_ + given, given[0].name, |old_|;
      assert TaskNames(given)[0] == name && TaskNames(given)[1..] == TaskNames(given[1..]);
      assert FirstOfName(tasks, name, k) by {
        forall i | 0 <= i < k
          ensures tasks[i].name != name
        {
          assert tasks[i] in old_;
        }
      }
      TakeFirstAt(tasks, name, k);
      assert tasks[..k] + tasks[k + 1..] == old_ + given[1..];
      LastAreCompleted(old_, given[1..]);
      assert [given[0]] + given[1..] == given;
    }
  }

  /** What is passed on to a worker are, by name, the jobs put on its list. */
  lemma {:induction false} PassedAsGiven(l: Ledger, n: nat, fd: int, ms: seq<Message>, w: int)
    ensures Names(FramesTo(JobsOf(l, n, fd, ms), w)) == TaskNames(TasksTo(l, TasksOf(n, ms), w))
    decreases |ms|
  {
    if ms != [] {
      var t, f := NextTask(n, ms[0]), Forward(fd, ChosenFd(l), fd, ms[0].frame);
      var rest := JobsOf(Schedule(l, t), n + 1, fd, ms[1..]);
      PassedAsGiven(Schedule(l, t), n + 1, fd, ms[1..], w);
      FramesToFront(f, rest, w);
      assert TasksOf(n, ms)[1..] == TasksOf(n + 1, ms[1..]);
      NamesInTwo(if ChosenFd(l) == w then [f.frame] else [], FramesTo(rest, w),
                 if ChosenFd(l) == w then [t] else [], TasksTo(Schedule(l, t), TasksOf(n + 1, ms[1..]), w));
    }
  }

  // ---------------------------------------------------------------------------
  // The answers of several
  // ---------------------------------------------------------------------------

  /** The jobs completed once worker w has answered everything that was passed to it. */
  function DoneAt(l: Ledger, passed: seq<Forward>, w: int): (seq<Task>, seq<Task>) {
    if FindWorker(l.workers, w).None? then ([], [])
    else Answered(RecordOf(l.workers, w).tasks, Names(FramesTo(passed, w)))
  }

  /** The same of several workers, one after another. */
  function DoneBy(l: Ledger, passed: seq<Forward>, ws: seq<int>): seq<Task> {
    if ws == [] then []
    else DoneBy(l, passed, ws[..|ws| - 1]) + DoneAt(l, passed, ws[|ws| - 1]).1
  }

  /** The master came from c to d by the answers of these workers to everything that was passed to them. */
  ghost predicate AnswersOf(c: Core, passed: seq<Forward>, ws: seq<int>, d: Core) {
    && SameFds(c.ledger.workers, d.ledger.workers)
    && (forall i :: 0 <= i < |c.ledger.workers| ==>
          d.ledger.workers[i].tasks == LeftAt(c.ledger, passed, ws, c.ledger.workers[i]))
    && d.ledger.pending == c.ledger.pending && d.submitted == c.submitted
    && d.completed == c.completed + DoneBy(c.ledger, passed, ws)
  }

  function LeftAt(l: Ledger, passed: seq<Forward>, ws: seq<int>, n: Node): seq<Task> {
    if n.fd in ws then DoneAt(l, passed, n.fd).0 else n.tasks
  }

  lemma NoAnswersYet(c: Core, passed: seq<Forward>)
    ensures AnswersOf(c, passed, [], c)
  {
    assert c.completed + [] == c.completed;
  }

  lemma OneMoreAnswers(c: Core, passed: seq<Forward>, ws: seq<int>, i: nat, d: Core, e: Core)
    requires FdsDistinct(c.ledger.workers) && Distinct(ws) && i < |ws|
    requires AnswersOf(c, passed, ws[..i], d) && AnswersTaken(d, ws[i], Names(FramesTo(passed, ws[i])), e)
    ensures AnswersOf(c, passed, ws[..i + 1], e)
  {
    var w, done := ws[i], ws[..i];
    assert ws[..i + 1] == done + [w] && (done + [w])[..|done|] == done;
    assert w !in done;
    Isolation.SamePosition(c.ledger.workers, d.ledger.workers, w);
    var p := FindWorker(c.ledger.workers, w).value;
    assert d.ledger.workers[p].tasks == c.ledger.workers[p].tasks;
    var (left, more) := DoneAt(c.ledger, passed, w);
    assert Answered(RecordOf(d.ledger.workers, w).tasks, Names(FramesTo(passed, w))) == (left, more);
    Appended(c.completed, DoneBy(c.ledger, passed, done), more);
    ListsAfterOneMore(c.ledger, passed, done, w, d.ledger.workers, e.ledger.workers, left,
                      if Names(FramesTo(passed, w)) == [] then RecordOf(d.ledger.workers, w).beat else 0.0);
  }

  lemma ListsAfterOneMore(l: Ledger, passed: seq<Forward>, done: seq<int>, w: int, mid: seq<Node>, after: seq<Node>,
                          left: seq<Task>, beat: real)
    requires SameFds(l.workers, mid) && OnlyOf(mid, after, w, left, beat) && left == DoneAt(l, passed, w).0
    requires forall j :: 0 <= j < |l.workers| ==> mid[j].tasks == LeftAt(l, passed, done, l.workers[j])
    ensures SameFds(l.workers, after)
    ensures forall j :: 0 <= j < |l.workers| ==> after[j].tasks == LeftAt(l, passed, done + [w], l.workers[j])
  {
  }

  // ---------------------------------------------------------------------------
  // Jobs and their answers
  // ---------------------------------------------------------------------------

  /** The names of what was passed on to these workers, worker by worker. */
  function NamesPassed(passed: seq<Forward>, ws: seq<int>): seq<Bytes> {
    if ws == [] then []
    else NamesPassed(passed, ws[..|ws| - 1]) + Names(FramesTo(passed, ws[|ws| - 1]))
  }

  /** l is the ledger before a run of jobs, m after it; every worker of ws is there. */
  ghost predicate Loaded(l: Ledger, ts: seq<Task>, m: Ledger, passed: seq<Forward>, ws: seq<int>) {
    && FdsDistinct(l.workers) && m == ScheduleAll(l, ts) && Distinct(ws) && AllGoTo(l, ts, ws)
    && forall w <- ws :: FindWorker(l.workers, w).Some? && Names(FramesTo(passed, w)) == TaskNames(TasksTo(l, ts, w))
  }

  lemma PartLoaded(l: Ledger, ts: seq<Task>, m: Ledger, passed: seq<Forward>, ws: seq<int>, w: int)
    requires Loaded(l, ts, m, passed, ws) && w in ws
    ensures FindWorker(m.workers, w) == FindWorker(l.workers, w)
    ensures RecordOf(m.workers, w).tasks == RecordOf(l.workers, w).tasks + TasksTo(l, ts, w)
  {
    ListsGrowBy(l, ts, w);
  }

  /** Each answer completes a job of its name. */
  lemma {:induction false} NamesCompleted(l: Ledger, ts: seq<Task>, m: Ledger, passed: seq<Forward>, ws: seq<int>,
                                          k: nat)
    requires Loaded(l, ts, m, passed, ws) && k <= |ws|
    ensures TaskNames(DoneBy(m, passed, ws[..k])) == NamesPassed(passed, ws[..k])
  {
    if k > 0 {
      var w := ws[k - 1];
      NamesCompleted(l, ts, m, passed, ws, k - 1);
      assert ws[..k][..k - 1] == ws[..k - 1];
      PartLoaded(l, ts, m, passed, ws, w);
      AnswersAreCompleted(RecordOf(l.workers, w).tasks, TasksTo(l, ts, w));
      TaskNamesInTwo(DoneBy(m, passed, ws[..k - 1]), DoneAt(m, passed, w).1);
    }
  }

  lemma AnswersAreCompleted(before: seq<Task>, given: seq<Task>)
    ensures TaskNames(Answered(before + given, TaskNames(given)).1) == TaskNames(given)
  {
    TaskNamesInTwo(before, given);
    EachCompletesOne(before + given, TaskNames(given));
  }

  /** No worker has a job already that bears the name of one it is given. */
  ghost predicate NewNames(l: Ledger, ts: seq<Task>, ws: seq<int>) {
    forall w <- ws :: FindWorker(l.workers, w).Some? ==> AllNew(RecordOf(l.workers, w).tasks, TasksTo(l, ts, w))
  }

  ghost predicate AllNew(before: seq<Task>, given: seq<Task>) {
    forall t <- before :: t.name !in TaskNames(given)
  }

  lemma GivenAreCompleted(l: Ledger, ts: seq<Task>, m: Ledger, passed: seq<Forward>, ws: seq<int>, w: int)
    requires Loaded(l, ts, m, passed, ws) && NewNames(l, ts, ws) && w in ws
    ensures DoneAt(m, passed, w) == (RecordOf(l.workers, w).tasks, TasksTo(l, ts, w))
  {
    var before, given := RecordOf(l.workers, w).tasks, TasksTo(l, ts, w);
    PartLoaded(l, ts, m, passed, ws, w);
    LastAreCompleted(before, given);
  }

  /** When the names are new, just the jobs of the run are completed, each once. */
  lemma {:induction false} JobsCompleted(l: Ledger, ts: seq<Task>, m: Ledger, passed: seq<Forward>, ws: seq<int>,
                                         k: nat)
    requires Loaded(l, ts, m, passed, ws) && NewNames(l, ts, ws) && k <= |ws|
    ensures DoneBy(m, passed, ws[..k]) == GivenTo(l, ts, ws[..k])
  {
    if k > 0 {
      JobsCompleted(l, ts, m, passed, ws, k - 1);
      assert ws[..k][..k - 1] == ws[..k - 1];
      GivenAreCompleted(l, ts, m, passed, ws, ws[k - 1]);
    }
  }

  /** The ledger has the jobs it had before the run. */
  ghost predicate SameJobs(l: Ledger, m: Ledger) {
    && SameFds(l.workers, m.workers) && m.pending == l.pending
    && forall i :: 0 <= i < |l.workers| ==> m.workers[i].tasks == l.workers[i].tasks
  }

  /** The first of a name is completed when that name is answered at all. */
  lemma {:induction false} FirstIsCompleted(tasks: seq<Task>, names: seq<Bytes>, k: nat)
    requires k < |tasks| && FirstOfName(tasks, tasks[k].name, k) && tasks[k].name in names
    ensures tasks[k] in Answered(tasks, names).1
    decreases |names|
  {
    var (rest, taken) := TakeFirst(tasks, names[0]);
    if tasks[k].name == names[0] {
      TakeFirstAt(tasks, names[0], k);
    } else {
      var p := FirstStays(tasks, names[0], k);
      FirstIsCompleted(rest, names[1..], p);
    }
  }

  lemma {:induction false} FirstStays(tasks: seq<Task>, name: Bytes, k: nat) returns (p: nat)
    requires k < |tasks| && FirstOfName(tasks, tasks[k].name, k) && tasks[k].name != name
    ensures var rest := TakeFirst(tasks, name).0;
      p < |rest| && rest[p] == tasks[k] && FirstOfName(rest, rest[p].name, p)
  {
    if tasks[0].name == name {
      p := k - 1;
    } else if k == 0 {
      p := 0;
    } else {
      assert FirstOfName(tasks[1..], tasks[k].name, k - 1);
      var q := FirstStays(tasks[1..], name, k - 1);
      p := q + 1;
    }
  }

  lemma {:induction false} FirstWithName(tasks: seq<Task>, t: Task) returns (k: nat)
    requires t in tasks
    ensures k < |tasks| && tasks[k].name == t.name && FirstOfName(tasks, t.name, k)
  {
    if tasks[0].name == t.name {
      k := 0;
    } else {
      k := FirstWithName(tasks[1..], t);
      k := k + 1;
    }
  }

  /** If the worker has a job of a name already, that is completed instead. */
  lemma OlderIsCompleted(before: seq<Task>, given: seq<Task>, t: Task) returns (u: Task)
    requires t in before && t.name in TaskNames(given)
    ensures u in before && u in Answered(before + given, TaskNames(given)).1
  {
    var k := FirstWithName(before, t);
    var tasks := before + given;
    assert FirstOfName(tasks, t.name, k);
    FirstIsCompleted(tasks, TaskNames(given), k);
    u := before[k];
  }

  lemma {:induction false} DoneInDone(l: Ledger, passed: seq<Forward>, ws: seq<int>, w: int, u: Task)
    requires w in ws && u in DoneAt(l, passed, w).1
    ensures u in DoneBy(l, passed, ws)
  {
    if w != ws[|ws| - 1] {
      DoneInDone(l, passed, ws[..|ws| - 1], w, u);
    }
  }

  /** None of these is on the list of a worker yet. */
  ghost predicate Unlisted(l: Ledger, ts: seq<Task>) {
    forall n <- l.workers :: forall t <- n.tasks :: t !in ts
  }

  lemma OldNamesAreMissed(l: Ledger, ts: seq<Task>, m: Ledger, passed: seq<Forward>, ws: seq<int>)
    requires Loaded(l, ts, m, passed, ws) && Unlisted(l, ts) && !NewNames(l, ts, ws)
    ensures multiset(DoneBy(m, passed, ws)) != multiset(ts)
  {
    var w :| w in ws && !AllNew(RecordOf(l.workers, w).tasks, TasksTo(l, ts, w));
    var before, given := RecordOf(l.workers, w).tasks, TasksTo(l, ts, w);
    var t :| t in before && t.name in TaskNames(given);
    PartLoaded(l, ts, m, passed, ws, w);
    var u := OlderIsCompleted(before, given, t);
    DoneInDone(m, passed, ws, w, u);
    assert RecordOf(l.workers, w) in l.workers && u in multiset(DoneBy(m, passed, ws));
  }

  /**
   Once every worker has answered all that was passed to it of a run of jobs, each answer has
   completed a job of its name.  Just the jobs of the run are completed, each once, if and only if
   no worker had a job already that bears the name of one it was given; and then the ledger is as
   it was without the run.
   */
  lemma RunIsCompleted(l: Ledger, ts: seq<Task>, c: Core, passed: seq<Forward>, ws: seq<int>, d: Core)
    requires Loaded(l, ts, c.ledger, passed, ws) && AnswersOf(c, passed, ws, d)
    ensures var done := DoneBy(c.ledger, passed, ws);
      && d.completed == c.completed + done && TaskNames(done) == NamesPassed(passed, ws)
      && (NewNames(l, ts, ws) ==> multiset(done) == multiset(ts) && SameJobs(l, d.ledger))
      && (Unlisted(l, ts) && !NewNames(l, ts, ws) ==> multiset(done) != multiset(ts))
  {
    assert ws[..|ws|] == ws;
    NamesCompleted(l, ts, c.ledger, passed, ws, |ws|);
    if NewNames(l, ts, ws) {
      JobsCompleted(l, ts, c.ledger, passed, ws, |ws|);
      GivenAll(l, ts, ws);
      ListsAsBefore(l, ts, c, passed, ws, d);
    } else if Unlisted(l, ts) {
      OldNamesAreMissed(l, ts, c.ledger, passed, ws);
    }
  }

  lemma ListsAsBefore(l: Ledger, ts: seq<Task>, c: Core, passed: seq<Forward>, ws: seq<int>, d: Core)
    requires Loaded(l, ts, c.ledger, passed, ws) && AnswersOf(c, passed, ws, d) && NewNames(l, ts, ws)
    ensures SameJobs(l, d.ledger)
  {
    ListsGrowBy(l, ts, -1);
    NoneGoTo(l, ts, ws, -1);
    ScheduleAllGrows(l, ts);
    GrewSameFds(l.workers, c.ledger.workers);
    forall i | 0 <= i < |l.workers|
      ensures d.ledger.workers[i].tasks == l.workers[i].tasks
    {
      var w := l.workers[i].fd;
      assert FindWorker(l.workers, w) == Some(i);
      ListsGrowBy(l, ts, w);
      if w in ws {
        GivenAreCompleted(l, ts, c.ledger, passed, ws, w);
      } else {
        NoneGoTo(l, ts, ws, w);
      }
    }
  }

  lemma {:induction false} NoneGoTo(l: Ledger, ts: seq<Task>, ws: seq<int>, fd: int)
    requires AllGoTo(l, ts, ws) && fd !in ws
    ensures TasksTo(l, ts, fd) == []
    decreases |ts|
  {
    if ts != [] {
      NoneGoTo(Schedule(l, ts[0]), ts[1..], ws, fd);
    }
  }
}
