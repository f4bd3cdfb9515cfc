/**
 Which worker a list of jobs goes to, job by job: what the scheduler adds to each list, and what
 is put on the wire with it.
 */
module Handouts {
  import opened Options
  import opened WireFormat
  import opened Scheduling
  import opened Recovery
  import opened FrameParser
  import opened MasterModel
  import opened MasterInvariants
  import Isolation

  /** The record of a worker. */
  function RecordOf(workers: seq<Node>, fd: int): Node
    requires FindWorker(workers, fd).Some?
  {
    workers[FindWorker(workers, fd).value]
  }

  function TaskNames(tasks: seq<Task>): (names: seq<Bytes>)
    ensures |names| == |tasks|
  {
    seq(|tasks|, i requires 0 <= i < |tasks| => tasks[i].name)
  }

  function Names(frames: seq<Frame>): (names: seq<Bytes>)
    ensures |names| == |frames|
  {
    seq(|frames|, i requires 0 <= i < |frames| => frames[i].name)
  }

  /** The messages passed on to one descriptor. */
  function FramesTo(forwards: seq<Forward>, fd: int): seq<Frame> {
    if forwards == [] then []
    else
      var n := |forwards| - 1;
      FramesTo(forwards[..n], fd) + (if forwards[n].dest == fd then [forwards[n].frame] else [])
  }

  lemma {:induction false} FramesToInTwo(a: seq<Forward>, b: seq<Forward>, fd: int)
    ensures FramesTo(a + b, fd) == FramesTo(a, fd) + FramesTo(b, fd)
    decreases |b|
  {
    if b == [] {
      assert a + b == a;
    } else {
      var n := |b| - 1;
      assert (a + b)[..|a| + n] == a + b[..n];
      FramesToInTwo(a, b[..n], fd);
    }
  }

  lemma FramesToFront(f: Forward, rest: seq<Forward>, fd: int)
    ensures FramesTo([f] + rest, fd) == (if f.dest == fd then [f.frame] else []) + FramesTo(rest, fd)
  {
    FramesToInTwo([f], rest, fd);
    assert [f][..0] == [];
  }

  // ---------------------------------------------------------------------------
  // The jobs a worker is given
  // ---------------------------------------------------------------------------

  /** The jobs of a list that go to `fd`, each to the worker best for it in its turn; to -1 those left pending. */
  function TasksTo(l: Ledger, ts: seq<Task>, fd: int): seq<Task>
    decreases |ts|
  {
    if ts == [] then []
    else (if ChosenFd(l) == fd then [ts[0]] else []) + TasksTo(Schedule(l, ts[0]), ts[1..], fd)
  }

  /** Scheduling changes the list of the worker whose descriptor is returned, or the pending list, and nothing else. */
  lemma OneGiven(l: Ledger, t: Task, fd: int)
    requires FdsDistinct(l.workers)
    ensures FdsDistinct(Schedule(l, t).workers) && SameFds(l.workers, Schedule(l, t).workers)
    ensures FindWorker(Schedule(l, t).workers, fd) == FindWorker(l.workers, fd)
    ensures FindWorker(l.workers, fd).Some? ==>
      var n := RecordOf(l.workers, fd);
      RecordOf(Schedule(l, t).workers, fd) == n.(tasks := n.tasks + if ChosenFd(l) == fd then [t] else [])
    ensures Schedule(l, t).pending == l.pending + if ChosenFd(l) == -1 then [t] else []
  {
    ScheduleGrows(l, t);
    GrewSameFds(l.workers, Schedule(l, t).workers);
    SameFdsFound(l.workers, Schedule(l, t).workers, fd);
    Isolation.SamePosition(l.workers, Schedule(l, t).workers, fd);
    ChosenIsFound(l);
    if FindWorker(l.workers, fd).Some? && ChosenFd(l) != fd {
      assert RecordOf(l.workers, fd).tasks + [] == RecordOf(l.workers, fd).tasks;
    }
  }

  /** The same for a list of jobs. */
  lemma {:induction false} ListsGrowBy(l: Ledger, ts: seq<Task>, fd: int)
    requires FdsDistinct(l.workers)
    ensures FindWorker(ScheduleAll(l, ts).workers, fd) == FindWorker(l.workers, fd)
    ensures FindWorker(l.workers, fd).Some? ==>
      var n := RecordOf(l.workers, fd);
      RecordOf(ScheduleAll(l, ts).workers, fd) == n.(tasks := n.tasks + TasksTo(l, ts, fd))
    ensures ScheduleAll(l, ts).pending == l.pending + TasksTo(l, ts, -1)
    decreases |ts|
  {
    if ts == [] {
      assert l.pending + [] == l.pending;
      if FindWorker(l.workers, fd).Some? {
        assert RecordOf(l.workers, fd).tasks + [] == RecordOf(l.workers, fd).tasks;
      }
    } else {
      var m := Schedule(l, ts[0]);
      OneGiven(l, ts[0], fd);
      ListsGrowBy(m, ts[1..], fd);
      Appended(l.pending, if ChosenFd(l) == -1 then [ts[0]] else [], TasksTo(m, ts[1..], -1));
      if FindWorker(l.workers, fd).Some? {
        Appended(RecordOf(l.workers, fd).tasks, if ChosenFd(l) == fd then [ts[0]] else [], TasksTo(m, ts[1..], fd));
      }
    }
  }

  lemma Appended<T>(a: seq<T>, b: seq<T>, c: seq<T>)
    ensures a + b + c == a + (b + c)
  {
  }

  /** The jobs that go to the workers of a list, worker by worker. */
  function GivenTo(l: Ledger, ts: seq<Task>, ws: seq<int>): seq<Task> {
    if ws == [] then []
    else GivenTo(l, ts, ws[..|ws| - 1]) + TasksTo(l, ts, ws[|ws| - 1])
  }

  ghost predicate Distinct(ws: seq<int>) {
    forall i, j :: 0 <= i < j < |ws| ==> ws[i] != ws[j]
  }

  function Once<T>(x: T, counted: bool): multiset<T> {
    if counted then multiset{x} else multiset{}
  }

  lemma OneMoreOfBoth<T>(a: seq<T>, b: seq<T>, a': seq<T>, b': seq<T>, x: T, left: bool, right: bool)
    requires !left || !right
    requires multiset(a') == multiset(a) + Once(x, left)
    requires multiset(b') == multiset(b) + Once(x, right)
    ensures multiset(a' + b') == multiset(a + b) + Once(x, left || right)
  {
  }

  lemma LastOrBefore(ws: seq<int>, w: int)
    requires Distinct(ws) && ws != []
    ensures Distinct(ws[..|ws| - 1])
    ensures (w in ws) == (w in ws[..|ws| - 1] || w == ws[|ws| - 1])
    ensures w !in ws[..|ws| - 1] || w != ws[|ws| - 1]
  {
    assert ws == ws[..|ws| - 1] + [ws[|ws| - 1]];
  }

  lemma {:induction false} GivenOneMore(l: Ledger, t: Task, rest: seq<Task>, ws: seq<int>)
    requires Distinct(ws)
    ensures multiset(GivenTo(l, [t] + rest, ws))
         == multiset(GivenTo(Schedule(l, t), rest, ws)) + Once(t, ChosenFd(l) in ws)
    decreases |ws|
  {
    if ws != [] {
      var before, w := ws[..|ws| - 1], ws[|ws| - 1];
      var m := Schedule(l, t);
      LastOrBefore(ws, ChosenFd(l));
      GivenOneMore(l, t, rest, before);
      assert ([t] + rest)[1..] == rest;
      OneMoreOfBoth(GivenTo(m, rest, before), TasksTo(m, rest, w),
                    GivenTo(l, [t] + rest, before), TasksTo(l, [t] + rest, w),
                    t, ChosenFd(l) in before, ChosenFd(l) == w);
    }
  }

  /** The descriptors a list of jobs goes to. */
  ghost predicate AllGoTo(l: Ledger, ts: seq<Task>, ws: seq<int>)
    decreases |ts|
  {
    ts == [] || (ChosenFd(l) in ws && AllGoTo(Schedule(l, ts[0]), ts[1..], ws))
  }

  /** If every job goes to one of them, between them they are given each job once. */
  lemma {:induction false} GivenAll(l: Ledger, ts: seq<Task>, ws: seq<int>)
    requires Distinct(ws) && AllGoTo(l, ts, ws)
    ensures multiset(GivenTo(l, ts, ws)) == multiset(ts)
    decreases |ts|
  {
    if ts == [] {
      NothingGiven(l, ws);
    } else {
      GivenAll(Schedule(l, ts[0]), ts[1..], ws);
      assert ts == [ts[0]] + ts[1..];
      GivenOneMore(l, ts[0], ts[1..], ws);
    }
  }

  lemma {:induction false} NothingGiven(l: Ledger, ws: seq<int>)
    ensures GivenTo(l, [], ws) == []
  {
    if ws != [] {
      NothingGiven(l, ws[..|ws| - 1]);
    }
  }

  // ---------------------------------------------------------------------------
  // What a scan sends
  // ---------------------------------------------------------------------------

  lemma NamesInTwo(a: seq<Frame>, b: seq<Frame>, s: seq<Task>, t: seq<Task>)
    requires Names(a) == TaskNames(s) && Names(b) == TaskNames(t)
    ensures Names(a + b) == TaskNames(s + t)
  {
    forall i | 0 <= i < |a + b|
      ensures Names(a + b)[i] == TaskNames(s + t)[i]
    {
      assert i < |a| ==> Names(a)[i] == TaskNames(s)[i];
      assert i >= |a| ==> Names(b)[i - |a|] == TaskNames(t)[i - |a|];
    }
  }

  /** What reschedule sends to a descriptor are the jobs given to it, by name, and without content. */
  lemma {:induction false} RescuesTo(l: Ledger, ts: seq<Task>, fd: int)
    ensures Names(FramesTo(Rescues(l, ts), fd)) == TaskNames(TasksTo(l, ts, fd))
    ensures forall f <- FramesTo(Rescues(l, ts), fd) :: f.payload == []
    decreases |ts|
  {
    if ts != [] {
      var rest := Rescues(Schedule(l, ts[0]), ts[1..]);
      RescuesTo(Schedule(l, ts[0]), ts[1..], fd);
      FramesToFront(Rescued(l, ts[0]), rest, fd);
      var go := ChosenFd(l) == fd;
      NamesInTwo(if go then [Rescued(l, ts[0]).frame] else [], FramesTo(rest, fd),
                 if go then [ts[0]] else [], TasksTo(Schedule(l, ts[0]), ts[1..], fd));
    }
  }

  /** The scan adds these jobs to the end of a list, and these are what it sends. */
  ghost predicate SentAsGiven(before: seq<Task>, after: seq<Task>, sent: seq<Frame>) {
    && |after| == |before| + |sent| && before == after[..|before|]
    && forall k :: 0 <= k < |sent| ==> sent[k] == Frame(after[|before| + k].name, [])
  }

  lemma GivenAndSent(before: seq<Task>, given: seq<Task>, sent: seq<Frame>)
    requires Names(sent) == TaskNames(given) && forall f <- sent :: f.payload == []
    ensures SentAsGiven(before, before + given, sent)
  {
    forall k | 0 <= k < |sent|
      ensures sent[k] == Frame(given[k].name, [])
    {
      assert Names(sent)[k] == TaskNames(given)[k] && sent[k].payload == [];
    }
  }

  lemma SentInTwo(a: seq<Task>, b: seq<Task>, c: seq<Task>, s: seq<Frame>, t: seq<Frame>)
    requires SentAsGiven(a, b, s) && SentAsGiven(b, c, t)
    ensures SentAsGiven(a, c, s + t)
  {
    assert c[..|a|] == b[..|a|];
    forall k | 0 <= k < |s + t|
      ensures (s + t)[k] == Frame(c[|a| + k].name, [])
    {
      if k < |s| {
        assert c[|a| + k] == c[..|b|][|a| + k] == b[|a| + k];
      } else {
        assert (s + t)[k] == t[k - |s|];
      }
    }
  }

  lemma BuriedAndGiven(l: Ledger, i: nat, j: nat)
    requires FdsDistinct(l.workers) && i < |l.workers| && j < |l.workers| && j != i
    ensures var dead := Bury(l, i);
      var m := HandedOut(dead, i);
      var sent := Rescues(dead, l.workers[i].tasks);
      && FdsDistinct(m.workers) && m.workers[j] == l.workers[j].(tasks := m.workers[j].tasks)
      && SentAsGiven(l.workers[j].tasks, m.workers[j].tasks, FramesTo(sent, l.workers[j].fd))
      && SentAsGiven(l.pending, m.pending, FramesTo(sent, -1))
  {
    var dead := Bury(l, i);
    var fd, ts := l.workers[j].fd, l.workers[i].tasks;
    assert SameFds(l.workers, dead.workers);
    SameFdsFound(l.workers, dead.workers, fd);
    HandedOutSameFds(dead, i);
    SameFdsFound(dead.workers, HandedOut(dead, i).workers, fd);
    assert dead.workers[j].fd == fd && FindWorker(dead.workers, fd) == Some(j);
    ListsGrowBy(dead, ts, fd);
    RescuesTo(dead, ts, fd);
    RescuesTo(dead, ts, -1);
    GivenAndSent(l.workers[j].tasks, TasksTo(dead, ts, fd), FramesTo(Rescues(dead, ts), fd));
    GivenAndSent(l.pending, TasksTo(dead, ts, -1), FramesTo(Rescues(dead, ts), -1));
  }

  /**
   A scan that completes sends every worker it does not find silent exactly the jobs that it adds
   to that worker's list, in that order, each under its name and without content; and it sends
   nowhere exactly those that it leaves pending.
   */
  lemma {:induction false} ScanSendsWhatItGives(l: Ledger, i: nat, now: real, j: nat)
    requires FdsDistinct(l.workers) && i <= |l.workers| && ScanFrom(l, i, now).Some?
    requires j < |l.workers| && !Silent(l.workers[j], now)
    ensures var m, sent := ScanFrom(l, i, now).value, ScanRescues(l, i, now);
      && SentAsGiven(l.workers[j].tasks, m.workers[j].tasks, FramesTo(sent, l.workers[j].fd))
      && SentAsGiven(l.pending, m.pending, FramesTo(sent, -1))
    decreases |l.workers| - i
  {
    if i < |l.workers| {
      if !Silent(l.workers[i], now) {
        ScanSendsWhatItGives(l, i + 1, now, j);
      } else {
        var dead := Bury(l, i);
        var fd, more := l.workers[j].fd, Rescues(dead, l.workers[i].tasks);
        RescheduleIsMeantIff(dead, i);
        var m := HandedOut(dead, i);
        BuriedAndGiven(l, i, j);
        ScanSendsWhatItGives(m, i + 1, now, j);
        var n, rest := ScanFrom(m, i + 1, now).value, ScanRescues(m, i + 1, now);
        FramesToInTwo(more, rest, fd);
        FramesToInTwo(more, rest, -1);
        SentInTwo(l.workers[j].tasks, m.workers[j].tasks, n.workers[j].tasks, FramesTo(more, fd), FramesTo(rest, fd));
        SentInTwo(l.pending, m.pending, n.pending, FramesTo(more, -1), FramesTo(rest, -1));
      }
    }
  }
}
