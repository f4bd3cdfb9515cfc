/**
 A run of jobs and their results through the whole cluster: from the interface through the
 master to the workers, and back.  What each program reads is what the one before it wrote.
 */
module RoundTrip {
  import opened Options
  import opened WireFormat
  import opened Transfers
  import opened FrameParser
  import opened Scheduling
  import opened Recovery
  import opened MasterModel
  import opened MasterInvariants
  import opened Relay
  import opened Handouts
  import opened Completion
  import opened EventLoop
  import opened InterfaceProtocol
  import opened WorkerProtocol
  import Connections
  import Isolation
  import MasterSteps
  import Masters

  // ---------------------------------------------------------------------------
  // Runs of frames
  // ---------------------------------------------------------------------------

  /** The messages that carry these frames under one verb. */
  function Under(verb: Verb, frames: seq<Frame>): (ms: seq<Message>)
    ensures |ms| == |frames|
  {
    seq(|frames|, i requires 0 <= i < |frames| => Message(verb, frames[i]))
  }

  lemma UnderPut(frames: seq<Frame>)
    ensures PrintAll(Under(Put, frames)) == Traffic(frames)
  {
    assert FramesOf(Under(Put, frames)) == frames;
    assert AsPut(Under(Put, frames)) == Under(Put, frames);
    TrafficIsPrinted(Under(Put, frames));
  }

  lemma {:induction false} PrintAllOneMore(ms: seq<Message>, m: Message)
    ensures PrintAll(ms + [m]) == PrintAll(ms) + Print(m.verb, m.frame)
  {
    if ms == [] {
      assert PrintAll([m]) == Print(m.verb, m.frame) + [];
    } else {
      assert (ms + [m])[1..] == ms[1..] + [m];
      PrintAllOneMore(ms[1..], m);
    }
  }

  // ---------------------------------------------------------------------------
  // Jobs, their results, and what is shown
  // ---------------------------------------------------------------------------

  /** What running a job puts out, whatever that is. */
  type Execution = Frame -> Bytes

  function Result(run: Execution, job: Frame): Frame {
    Frame(job.name, run(job))
  }

  function Results(run: Execution, jobs: seq<Frame>): (r: seq<Frame>)
    ensures |r| == |jobs|
  {
    seq(|jobs|, i requires 0 <= i < |jobs| => Result(run, jobs[i]))
  }

  /** The results of the jobs passed on, worker by worker. */
  function Collected(run: Execution, passed: seq<Forward>, ws: seq<int>): seq<Frame> {
    if ws == [] then []
    else
      var n := |ws| - 1;
      Collected(run, passed, ws[..n]) + Results(run, FramesTo(passed, ws[n]))
  }

  lemma ResultsOneMore(run: Execution, passed: seq<Forward>, f: Forward, w: int)
    ensures Results(run, FramesTo(passed + [f], w))
         == Results(run, FramesTo(passed, w)) + if f.dest == w then [Result(run, f.frame)] else []
  {
    assert (passed + [f])[..|passed|] == passed;
  }

  lemma CollectedLast(run: Execution, passed: seq<Forward>, ws: seq<int>)
    requires ws != []
    ensures Collected(run, passed, ws)
         == Collected(run, passed, ws[..|ws| - 1]) + Results(run, FramesTo(passed, ws[|ws| - 1]))
  {
  }

  /** One more job passed on is one more result collected, if its worker is among those asked. */
  lemma {:induction false} CollectedOneMore(run: Execution, passed: seq<Forward>, longer: seq<Forward>,
                                            f: Forward, ws: seq<int>)
    requires Distinct(ws) && longer == passed + [f]
    ensures multiset(Collected(run, longer, ws))
         == multiset(Collected(run, passed, ws)) + Once(Result(run, f.frame), f.dest in ws)
  {
    if ws != [] {
      var before, w := ws[..|ws| - 1], ws[|ws| - 1];
      LastOrBefore(ws, f.dest);
      CollectedOneMore(run, passed, longer, f, before);
      ResultsOneMore(run, passed, f, w);
      CollectedLast(run, passed, ws);
      CollectedLast(run, longer, ws);
      OneMoreOfBoth(Collected(run, passed, before), Results(run, FramesTo(passed, w)),
                    Collected(run, longer, before), Results(run, FramesTo(longer, w)),
                    Result(run, f.frame), f.dest in before, f.dest == w);
    }
  }

  /** Nothing is lost and nothing twice: the results collected are those of the jobs passed on. */
  lemma {:induction false} CollectedAll(run: Execution, passed: seq<Forward>, jobs: seq<Frame>, ws: seq<int>)
    requires Distinct(ws) && |jobs| == |passed|
    requires forall i :: 0 <= i < |passed| ==> passed[i].dest in ws && passed[i].frame == jobs[i]
    ensures multiset(Collected(run, passed, ws)) == multiset(Results(run, jobs))
  {
    if passed == [] {
      NothingCollected(run, ws);
    } else {
      var n := |passed| - 1;
      CollectedAll(run, passed[..n], jobs[..n], ws);
      assert passed == passed[..n] + [passed[n]];
      CollectedOneMore(run, passed[..n], passed, passed[n], ws);
      assert Results(run, jobs) == Results(run, jobs[..n]) + [Result(run, jobs[n])];
    }
  }

  lemma {:induction false} NothingCollected(run: Execution, ws: seq<int>)
    ensures Collected(run, [], ws) == []
  {
    if ws != [] {
      NothingCollected(run, ws[..|ws| - 1]);
    }
  }

  /** The schedule passes the jobs on in order, and to live workers if it finds one for each. */
  lemma {:induction false} JobsFindWorkers(l: Ledger, n: nat, fd: int, jobs: seq<Frame>, ws: seq<int>)
    requires forall i :: 0 <= i < |l.workers| && l.workers[i].alive ==> l.workers[i].fd in ws
    requires ScheduleAll(l, TasksOf(n, Under(InterfacePut, jobs))).pending == l.pending
    ensures var passed := JobsOf(l, n, fd, Under(InterfacePut, jobs));
      |passed| == |jobs| && forall i :: 0 <= i < |jobs| ==> passed[i].dest in ws && passed[i].frame == jobs[i]
    ensures AllGoTo(l, TasksOf(n, Under(InterfacePut, jobs)), ws)
    decreases |jobs|
  {
    if jobs != [] {
      var ms := Under(InterfacePut, jobs);
      var t := NextTask(n, ms[0]);
      assert ms[1..] == Under(InterfacePut, jobs[1..]);
      assert TasksOf(n, ms) == [t] + TasksOf(n + 1, ms[1..]);
      PendingMeansNoneEligible(l, t);
      ScheduleGrows(l, t);
      ScheduleAllGrows(Schedule(l, t), TasksOf(n + 1, ms[1..]));
      JobsFindWorkers(Schedule(l, t), n + 1, fd, jobs[1..], ws);
    }
  }

  /** What the master passes on for these jobs from `fd`. */
  function Passed(c: Core, fd: int, jobs: seq<Frame>): seq<Forward> {
    var hub := WithInterface(c, fd);
    JobsOf(hub.ledger, |hub.submitted|, fd, Under(InterfacePut, jobs))
  }

  /** The jobs as the master numbers them. */
  function Numbered(c: Core, jobs: seq<Frame>): seq<Task> {
    TasksOf(|c.submitted|, Under(InterfacePut, jobs))
  }

  /** The master came from c to d by entering these jobs and scheduling each when its turn came. */
  ghost predicate Entered(c: Core, fd: int, jobs: seq<Frame>, d: Core) {
    var hub := WithInterface(c, fd);
    && d.ledger == ScheduleAll(hub.ledger, Numbered(c, jobs))
    && d.submitted == c.submitted + Numbered(c, jobs) && d.completed == c.completed
  }

  lemma {:induction false} FramesToAreFrames(passed: seq<Forward>, w: int, f: Frame)
    requires f in FramesTo(passed, w)
    ensures exists i :: 0 <= i < |passed| && passed[i].dest == w && passed[i].frame == f
  {
    var n := |passed| - 1;
    if passed[n].dest != w || passed[n].frame != f {
      FramesToAreFrames(passed[..n], w, f);
      var i :| 0 <= i < n && passed[..n][i].dest == w && passed[..n][i].frame == f;
      assert passed[i].dest == w && passed[i].frame == f;
    }
  }

  // ---------------------------------------------------------------------------
  // The programs
  // ---------------------------------------------------------------------------

  /** A job that fits the interface's request buffer, and a result that fits the format. */
  predicate Fits(run: Execution, job: Frame) {
    && WellFormed(Message(InterfacePut, job)) && |HeaderText(InterfacePut, job.name)| + 2 <= BUF_SIZE
    && Printable(Result(run, job))
  }

  ghost predicate AllFit(run: Execution, jobs: seq<Frame>) {
    forall j <- jobs :: Fits(run, j)
  }

  predicate Printable(f: Frame) {
    WellFormed(Message(Put, f)) && AsSigned(|f.payload|) == |f.payload|
  }

  ghost predicate Carries(run: Execution, jobs: seq<Frame>) {
    forall j <- jobs :: Carried(j) && Printable(Result(run, j))
  }

  predicate Carried(f: Frame) {
    GoodName(f.name) && |f.payload| < Radix(SIZE_BYTES)
  }

  /** The interface submits one file, after others. */
  method SubmitNext(s: Stream, ghost before: seq<Message>, job: Frame)
    requires Reliable(s.writeScript) && |HeaderText(InterfacePut, job.name)| + 2 <= BUF_SIZE
    requires s.output == PrintAll(before)
    modifies s`output, s`writeCalls
    ensures s.output == PrintAll(before + [Message(InterfacePut, job)])
  {
    var file := new LocalFile(job.payload);
    var _, _ := Submit(s, job.name, file);
    PrintAllOneMore(before, Message(InterfacePut, job));
  }

  /** The interface submits a run of files. */
  method Submitting(jobs: seq<Frame>, script: seq<Answer>) returns (sent: Bytes)
    requires Reliable(script) && forall j <- jobs :: |HeaderText(InterfacePut, j.name)| + 2 <= BUF_SIZE
    ensures sent == PrintAll(Under(InterfacePut, jobs))
  {
    ghost var ms := Under(InterfacePut, jobs);
    var s := new Stream([], [], script, true);
    for i := 0 to |jobs|
      invariant s.output == PrintAll(ms[..i])
    {
      SubmitNext(s, ms[..i], jobs[i]);
      assert ms[..i + 1] == ms[..i] + [ms[i]];
    }
    assert ms[..|jobs|] == ms;
    sent := s.output;
  }

  lemma RequestIsRead(input: Bytes, at: nat, f: Frame, end: nat, request: Request, cursor: nat)
    requires RequestAt(input, at, f, end) && at < |input| && Requested(input, at, request, cursor)
    ensures request == Request(f.name, f.payload) && cursor == end
  {
    var eol := LineEnd(input, at);
    assert input[at..eol + 1] == input[at..eol] + [NEWLINE];
    LineAsHeader(input[at..eol]);
  }

  lemma Cut(input: Bytes, at: nat, one: Bytes, rest: Bytes)
    requires at <= |input| && input[at..] == one + rest
    ensures at + |one| <= |input| && input == input[..at] + one + rest && input[at + |one|..] == rest
  {
    assert input[at..][|one|..] == input[at + |one|..];
  }

  /** The first of the frames that lie at `at`, as a worker looks for it. */
  lemma FirstRequest(input: Bytes, at: nat, frames: seq<Frame>)
    requires at <= |input| && input[at..] == Traffic(frames) && frames != [] && Carried(frames[0])
    ensures var next := at + |Print(Put, frames[0])|;
      && at < next <= |input| && input[next..] == Traffic(frames[1..]) && RequestAt(input, at, frames[0], next)
  {
    Cut(input, at, Print(Put, frames[0]), Traffic(frames[1..]));
    WorkerReadsFrame(input[..at], frames[0], Traffic(frames[1..]));
  }

  /** And as the interface does. */
  lemma FirstResult(input: Bytes, at: nat, frames: seq<Frame>)
    requires at <= |input| && input[at..] == Traffic(frames) && frames != [] && Carried(frames[0])
    ensures var next := at + |Print(Put, frames[0])|;
      && at < next <= |input| && input[next..] == Traffic(frames[1..]) && ResultAt(input, at, frames[0], next)
  {
    Cut(input, at, Print(Put, frames[0]), Traffic(frames[1..]));
    InterfaceReadsFrame(input[..at], frames[0], Traffic(frames[1..]));
  }

  /** A worker reads and runs whatever requests lie from `from` on in its input, and sends the outputs back. */
  method Working(run: Execution, input: Bytes, from: nat, ghost jobs: seq<Frame>,
                 readScript: seq<Answer>, writeScript: seq<Answer>)
    returns (received: seq<Frame>, sent: Bytes)
    requires from <= |input| && input[from..] == Traffic(jobs) && forall j <- jobs :: Carried(j)
    requires Reliable(readScript) && Reliable(writeScript)
    ensures received == jobs
    ensures sent == Traffic(Results(run, jobs))
  {
    var s := new Stream(input, readScript, writeScript, true);
    s.cursor, received := from, [];
    assert jobs[..0] == [] && jobs[0..] == jobs;
    while s.cursor < |s.input|
      invariant s.Valid() && |received| <= |jobs| && received == jobs[..|received|]
      invariant s.input[s.cursor..] == Traffic(jobs[|received|..])
      invariant s.output == Traffic(Results(run, received))
      decreases |jobs| - |received|
    {
      ghost var k := |received|;
      var job := ReadNext(s, jobs[k..]);
      AnswerNext(s, Results(run, received), Result(run, job));
      received := received + [job];
      assert Results(run, received) == Results(run, received[..k]) + [Result(run, job)];
      assert jobs[k..][1..] == jobs[k + 1..];
    }
    assert |received| == |jobs|;
    sent := s.output;
  }

  /** The worker reads the request that lies where its input stands. */
  method ReadOne(s: Stream, ghost f: Frame, ghost end: nat) returns (job: Frame)
    requires s.Valid() && s.blocking && s.cursor < |s.input| && Reliable(s.readScript)
    requires RequestAt(s.input, s.cursor, f, end)
    modifies s`cursor, s`readCalls
    ensures job == f && s.cursor == end
  {
    ghost var at := s.cursor;
    var request := ReceiveRequest(s);
    RequestIsRead(s.input, at, f, end, request, s.cursor);
    job := Frame(request.name, request.stored);
  }

  /** It reads the first of those that lie there. */
  method ReadNext(s: Stream, ghost waiting: seq<Frame>) returns (job: Frame)
    requires s.Valid() && s.blocking && s.cursor < |s.input| && s.input[s.cursor..] == Traffic(waiting)
    requires waiting != [] && Carried(waiting[0]) && Reliable(s.readScript)
    modifies s`cursor, s`readCalls
    ensures s.Valid() && s.input[s.cursor..] == Traffic(waiting[1..])
    ensures job == waiting[0]
  {
    FirstRequest(s.input, s.cursor, waiting);
    job := ReadOne(s, waiting[0], s.cursor + |Print(Put, waiting[0])|);
  }

  /** It sends one output back, after others. */
  method AnswerNext(s: Stream, ghost before: seq<Frame>, result: Frame)
    requires Reliable(s.writeScript) && s.output == Traffic(before)
    modifies s`output, s`writeCalls
    ensures s.output == Traffic(before + [result])
  {
    var output := new LocalFile(result.payload);
    var _ := SendResult(s, result.name, output);
    TrafficOneMore(before, result);
  }

  /** What the interface has taken in for one result: the header line it read, and what it showed. */
  datatype Shown = Shown(header: Bytes, output: Bytes)

  function OnScreen(results: seq<Frame>): (shown: seq<Shown>)
    ensures |shown| == |results|
  {
    seq(|results|, i requires 0 <= i < |results| => Shown(HeaderText(Put, results[i].name), results[i].payload))
  }

  /** The interface's header and size reads of result k are not interrupted; the others may be. */
  ghost predicate Calm(script: seq<Answer>, f: Frame) {
    Reliable(script) && NoEmptyHanded(script, 0, |HeaderText(Put, f.name)| + 1 + SIZE_BYTES)
  }

  /** The interface shows the result that lies at `from` in its input. */
  method ShowOne(input: Bytes, from: nat, buff: array<byte>, last: byte, before: nat,
                 ghost f: Frame, ghost end: nat, script: seq<Answer>)
    returns (shown: Shown, size: nat, next: nat)
    requires ResultAt(input, from, f, end) && Printable(f) && Calm(script, f)
    requires buff.Length == BUF_SIZE && before < Radix(SIZE_BYTES)
    modifies buff
    ensures shown == Shown(HeaderText(Put, f.name), f.payload)
    ensures next == end && size == |f.payload|
  {
    var s := new Stream(input, script, [], true);
    s.cursor := from;
    var terminal := new LocalFile([]);
    var _, idx, n := ShowResult(s, terminal, buff, last, before, f, end);
    assert [] + f.payload == f.payload;
    shown, size, next := Shown(buff[..idx], terminal.content), n, s.cursor;
  }

  /** It shows the first of the results that lie there. */
  method ShowNext(input: Bytes, from: nat, buff: array<byte>, last: byte, before: nat,
                  ghost results: seq<Frame>, script: seq<Answer>)
    returns (shown: Shown, size: nat, next: nat)
    requires from <= |input| && input[from..] == Traffic(results) && results != []
    requires Printable(results[0]) && Calm(script, results[0])
    requires buff.Length == BUF_SIZE && before < Radix(SIZE_BYTES)
    modifies buff
    ensures shown == Shown(HeaderText(Put, results[0].name), results[0].payload)
    ensures from < next <= |input| && input[next..] == Traffic(results[1..]) && size < Radix(SIZE_BYTES)
  {
    FirstResult(input, from, results);
    shown, size, next := ShowOne(input, from, buff, last, before, results[0], from + |Print(Put, results[0])|, script);
  }

  /** The interface shows whatever results lie from `from` on in its input, in one buffer. */
  method Showing(input: Bytes, from: nat, ghost results: seq<Frame>, scripts: nat -> seq<Answer>,
                 last: byte, before: nat)
    returns (shown: seq<Shown>)
    requires from <= |input| && input[from..] == Traffic(results) && before < Radix(SIZE_BYTES)
    requires AllPrintable(results) && ShownCalmly(scripts, results)
    ensures shown == OnScreen(results)
  {
    var buff := new byte[BUF_SIZE];
    var at: nat, size: nat := from, before;
    shown := [];
    assert results[0..] == results;
    while at < |input|
      invariant at <= |input| && |shown| <= |results| && size < Radix(SIZE_BYTES)
      invariant input[at..] == Traffic(results[|shown|..]) && shown == OnScreen(results[..|shown|])
      decreases |results| - |shown|
    {
      var k := |shown|;
      var one: Shown;
      one, size, at := ShowNext(input, at, buff, last, size, results[k..], scripts(k));
      shown := shown + [one];
      assert results[k..][1..] == results[k + 1..];
      assert OnScreen(results[..k + 1]) == OnScreen(results[..k]) + [one];
    }
    assert results[..|shown|] == results;
  }

  // ---------------------------------------------------------------------------
  // The master, and the way there and back
  // ---------------------------------------------------------------------------

  /** ws are the master's live workers, and its sockets to them and to fd are those it has. */
  ghost predicate Staff(m: Masters.Master, fd: int, ws: seq<int>)
    reads m
  {
    && Distinct(ws) && fd in m.links && fd !in ws
    && (forall w <- ws :: w >= 0 && w in m.links && Alive(m.State(), w))
    && forall n <- WithInterface(m.State(), fd).ledger.workers :: n.alive ==> n.fd in ws
  }

  /** The master can take a run of jobs from `fd`, which is the interface or becomes it, and has workers for them. */
  ghost predicate Takes(m: Masters.Master, fd: int, jobs: seq<Frame>)
    reads m
  {
    && m.Valid() && AllRouted(m.State()) && m.Wired()
    && fd >= 0 && Alive(m.State(), fd) && Submits(m.State(), fd, Under(InterfacePut, jobs))
    && var hub := WithInterface(m.State(), fd);
       ScheduleAll(hub.ledger, Numbered(m.State(), jobs)).pending == hub.ledger.pending
  }

  /** The master is as it should be, with fd the interface and ws live. */
  ghost predicate Ready(m: Masters.Master, fd: int, ws: seq<int>)
    reads m
  {
    && m.Valid() && AllRouted(m.State()) && m.Wired() && m.interfaceFd == fd != -1 && fd in m.links && fd !in ws
    && forall w <- ws :: w >= 0 && w in m.links && Alive(m.State(), w)
  }

  /** The master passes the jobs on. */
  method Passing(m: Masters.Master, fd: int, ghost ws: seq<int>, ghost jobs: seq<Frame>, bytes: Bytes,
                 script: seq<Answer>)
    requires Takes(m, fd, jobs) && Staff(m, fd, ws) && Patient(script)
    requires bytes == PrintAll(Under(InterfacePut, jobs))
    requires forall j <- jobs :: WellFormed(Message(InterfacePut, j))
    modifies m, m.Outs()`output, m.Outs()`writeCalls
    ensures Ready(m, fd, ws) && Entered(old(m.State()), fd, jobs, m.State())
    ensures forall g <- m.links ::
      m.Outputs()[g] == old(m.Outputs())[g] + Traffic(FramesTo(Passed(old(m.State()), fd, jobs), g))
  {
    var s := new Stream(bytes, script, [], false);
    var conn := new Connections.Connection(fd, s);
    assert s.input[s.cursor..] == bytes;
    RelayJobs(m, conn, Under(InterfacePut, jobs));
  }

  /** The master passes the results of one worker on. */
  method PassingBack(m: Masters.Master, fd: int, ghost ws: seq<int>, w: int, ghost results: seq<Frame>, bytes: Bytes,
                     script: seq<Answer>)
    requires Ready(m, fd, ws) && w in ws && bytes == Traffic(results) && Patient(script)
    requires forall r <- results :: Printable(r)
    modifies m, m.Outs()`output, m.Outs()`writeCalls
    ensures Ready(m, fd, ws) && AnswersTaken(old(m.State()), w, Names(results), m.State())
    ensures forall g <- m.links ::
      m.Outputs()[g] == old(m.Outputs())[g] + if g == fd then Traffic(results) else []
  {
    var s := new Stream(bytes, script, [], false);
    var conn := new Connections.Connection(w, s);
    UnderPut(results);
    assert s.input[s.cursor..] == bytes;
    assert AsPut(Under(Put, results)) == Under(Put, results);
    forall i | 0 <= i < |results|
      ensures WellFormed(Under(Put, results)[i])
    {
      assert Printable(results[i]);
    }
    assert NamesOf(Under(Put, results)) == Names(results);
    RelayResults(m, conn, Under(Put, results));
  }

  /** How the system answers the calls of each program on the way; workers are told apart by descriptor. */
  datatype Weather = Weather(
    submitting: seq<Answer>,            // the interface's writes
    jobsIn: seq<Answer>,                // the master's reads from the interface
    requestsIn: int -> seq<Answer>,     // a worker's reads
    resultsOut: int -> seq<Answer>,     // its writes
    resultsIn: int -> seq<Answer>,      // the master's reads from it
    showing: nat -> seq<Answer>)        // the interface's reads of one result after another

  /** Partial counts, interruptions and pauses everywhere. */
  ghost predicate Fair(weather: Weather, ws: seq<int>) {
    && Reliable(weather.submitting) && Patient(weather.jobsIn)
    && forall w <- ws ::
         Reliable(weather.requestsIn(w)) && Reliable(weather.resultsOut(w)) && Patient(weather.resultsIn(w))
  }

  /** One worker reads its jobs behind `from`, and the master passes its results on. */
  method AndBack(m: Masters.Master, fd: int, ghost ws: seq<int>, w: int, from: nat, ghost jobs: seq<Frame>,
                 run: Execution, weather: Weather)
    returns (received: seq<Frame>)
    requires Ready(m, fd, ws) && w in ws && Fair(weather, ws)
    requires from <= |m.links[w].output| && m.links[w].output[from..] == Traffic(jobs)
    requires Carries(run, jobs)
    modifies m, m.Outs()`output, m.Outs()`writeCalls
    ensures Ready(m, fd, ws) && received == jobs && AnswersTaken(old(m.State()), w, Names(jobs), m.State())
    ensures m.links[fd].output == old(m.links[fd].output) + Traffic(Results(run, jobs))
    ensures forall v <- ws :: m.links[v].output == old(m.links[v].output)
  {
    var sent: Bytes;
    received, sent := Working(run, m.links[w].output, from, jobs, weather.requestsIn(w), weather.resultsOut(w));
    ghost var base := m.Outputs();
    assert Names(Results(run, jobs)) == Names(jobs);
    PassingBack(m, fd, ws, w, Results(run, jobs), sent, weather.resultsIn(w));
    assert m.Outputs()[fd] == base[fd] + Traffic(Results(run, jobs));
    forall v | v in ws
      ensures m.links[v].output == base[v]
    {
      assert m.Outputs()[v] == base[v] + [];
    }
  }

  lemma {:induction false} NothingPassed(passed: seq<Forward>, g: int)
    requires forall f <- passed :: f.dest != g
    ensures FramesTo(passed, g) == []
  {
    if passed != [] {
      NothingPassed(passed[..|passed| - 1], g);
    }
  }

  ghost predicate AllCarry(run: Execution, passed: seq<Forward>, ws: seq<int>) {
    forall w <- ws :: Carries(run, FramesTo(passed, w))
  }

  /** What the jobs passed to one worker are fit for. */
  lemma SharesFit(run: Execution, passed: seq<Forward>, jobs: seq<Frame>, w: int)
    requires |passed| == |jobs| && forall i :: 0 <= i < |jobs| ==> passed[i].frame == jobs[i]
    requires AllFit(run, jobs)
    ensures Carries(run, FramesTo(passed, w))
  {
    forall j | j in FramesTo(passed, w)
      ensures Carried(j) && Printable(Result(run, j))
    {
      FramesToAreFrames(passed, w, j);
      assert Fits(run, j);
    }
  }

  /** What each of the workers is passed. */
  function Shares(passed: seq<Forward>, ws: seq<int>): (shares: seq<seq<Frame>>)
    ensures |shares| == |ws|
  {
    seq(|ws|, i requires 0 <= i < |ws| => FramesTo(passed, ws[i]))
  }

  /** The share of worker i lies in the output to it behind from[i], unread. */
  ghost predicate Await(m: Masters.Master, from: seq<nat>, passed: seq<Forward>, ws: seq<int>)
    reads m.Outs()`output
  {
    && |from| == |ws|
    && forall i :: 0 <= i < |ws| ==> ws[i] in m.links && Lies(m.links[ws[i]].output, from[i], passed, ws[i])
  }

  ghost predicate Lies(output: Bytes, from: nat, passed: seq<Forward>, w: int) {
    from <= |output| && output[from..] == Traffic(FramesTo(passed, w))
  }

  lemma OneMoreRun(base: Bytes, a: seq<Frame>, b: seq<Frame>)
    ensures base + Traffic(a) + Traffic(b) == base + Traffic(a + b)
  {
    TrafficInTwo(a, b);
    MasterSteps.Regrouped(base, Traffic(a), Traffic(b));
  }

  lemma CollectedNext(run: Execution, passed: seq<Forward>, ws: seq<int>, i: nat)
    requires i < |ws|
    ensures Collected(run, passed, ws[..i + 1])
         == Collected(run, passed, ws[..i]) + Results(run, FramesTo(passed, ws[i]))
  {
    assert ws[..i + 1][..i] == ws[..i];
  }

  /** Since `start` the first i workers' results have gone to fd, and the shares of all lie as they did. */
  ghost predicate Underway(m: Masters.Master, start: Core, fd: int, base: Bytes, from: seq<nat>, run: Execution,
                           passed: seq<Forward>, ws: seq<int>, i: nat)
    reads m, m.Outs()`output
  {
    && Ready(m, fd, ws) && Await(m, from, passed, ws) && i <= |ws|
    && m.links[fd].output == base + Traffic(Collected(run, passed, ws[..i]))
    && FdsDistinct(start.ledger.workers) && Distinct(ws) && AnswersOf(start, passed, ws[..i], m.State())
  }

  /** Worker i reads its share of what was passed on, and its results are passed on. */
  method NextAndBack(m: Masters.Master, ghost start: Core, fd: int, ghost base: Bytes, from: seq<nat>, run: Execution,
                     ghost passed: seq<Forward>, ws: seq<int>, i: nat, weather: Weather)
    returns (received: seq<Frame>)
    requires i < |ws| && Underway(m, start, fd, base, from, run, passed, ws, i) && Fair(weather, ws)
    requires AllCarry(run, passed, ws)
    modifies m, m.Outs()`output, m.Outs()`writeCalls
    ensures Underway(m, start, fd, base, from, run, passed, ws, i + 1)
    ensures received == FramesTo(passed, ws[i])
  {
    ghost var share, mid := FramesTo(passed, ws[i]), m.State();
    received := AndBack(m, fd, ws, ws[i], from[i], share, run, weather);
    OneMoreRun(base, Collected(run, passed, ws[..i]), Results(run, share));
    OneMoreAnswers(start, passed, ws, i, mid, m.State());
    CollectedNext(run, passed, ws, i);
  }

  lemma SharesFrom(passed: seq<Forward>, ws: seq<int>, i: nat)
    requires i <= |ws|
    ensures Shares(passed, ws)[i..]
         == if i == |ws| then [] else [FramesTo(passed, ws[i])] + Shares(passed, ws)[i + 1..]
  {
  }

  /** One worker after another does, from worker i on. */
  method EachAndBack(m: Masters.Master, ghost start: Core, fd: int, ghost base: Bytes, from: seq<nat>, run: Execution,
                     ghost passed: seq<Forward>, ws: seq<int>, i: nat, weather: Weather)
    returns (received: seq<seq<Frame>>)
    requires Underway(m, start, fd, base, from, run, passed, ws, i) && Fair(weather, ws)
    requires AllCarry(run, passed, ws)
    modifies m, m.Outs()`output, m.Outs()`writeCalls
    ensures Underway(m, start, fd, base, from, run, passed, ws, |ws|) && received == Shares(passed, ws)[i..]
    decreases |ws| - i
  {
    SharesFrom(passed, ws, i);
    if i == |ws| {
      received := [];
    } else {
      var one := NextAndBack(m, start, fd, base, from, run, passed, ws, i, weather);
      var others := EachAndBack(m, start, fd, base, from, run, passed, ws, i + 1, weather);
      received := [one] + others;
    }
  }

  // ---------------------------------------------------------------------------
  // End to end
  // ---------------------------------------------------------------------------

  /** Where the outputs to the workers end. */
  method Marks(m: Masters.Master, ws: seq<int>) returns (from: seq<nat>)
    requires forall w <- ws :: w in m.links
    ensures Ends(m.Outputs(), ws, from)
  {
    from := [];
    for i := 0 to |ws|
      invariant Ends(m.Outputs(), ws[..i], from)
    {
      var w := ws[i];
      assert w in ws;
      from := from + [|m.links[w].output|];
    }
    assert ws[..|ws|] == ws;
  }

  ghost predicate Ends(outputs: map<int, Bytes>, ws: seq<int>, from: seq<nat>) {
    && |from| == |ws|
    && forall i :: 0 <= i < |ws| ==> ws[i] in outputs && from[i] == |outputs[ws[i]]|
  }

  lemma BehindMark(before: Bytes, more: Bytes, from: nat)
    requires from == |before|
    ensures (before + more)[from..] == more
  {
  }

  lemma LieBehindMarks(base: map<int, Bytes>, outputs: map<int, Bytes>, ws: seq<int>, from: seq<nat>,
                       passed: seq<Forward>)
    requires Ends(base, ws, from) && base.Keys == outputs.Keys
    requires forall g <- outputs :: outputs[g] == base[g] + Traffic(FramesTo(passed, g))
    ensures forall i :: 0 <= i < |ws| ==> Lies(outputs[ws[i]], from[i], passed, ws[i])
  {
    forall i | 0 <= i < |ws|
      ensures Lies(outputs[ws[i]], from[i], passed, ws[i])
    {
      BehindMark(base[ws[i]], Traffic(FramesTo(passed, ws[i])), from[i]);
    }
  }

  /** The interface submits the jobs and the master passes them on. */
  method Sending(m: Masters.Master, fd: int, ghost ws: seq<int>, ghost run: Execution, jobs: seq<Frame>,
                 weather: Weather)
    requires Takes(m, fd, jobs) && Staff(m, fd, ws) && Fair(weather, ws) && AllFit(run, jobs)
    modifies m, m.Outs()`output, m.Outs()`writeCalls
    ensures Ready(m, fd, ws) && Entered(old(m.State()), fd, jobs, m.State())
    ensures forall g <- m.links ::
      m.Outputs()[g] == old(m.Outputs())[g] + Traffic(FramesTo(Passed(old(m.State()), fd, jobs), g))
  {
    var bytes := Submitting(jobs, weather.submitting);
    Passing(m, fd, ws, jobs, bytes, weather.jobsIn);
  }

  /** From the interface to the workers. */
  method Forth(m: Masters.Master, fd: int, ws: seq<int>, jobs: seq<Frame>, ghost run: Execution, weather: Weather)
    returns (from: seq<nat>)
    requires Takes(m, fd, jobs) && Staff(m, fd, ws) && Fair(weather, ws) && AllFit(run, jobs)
    modifies m, m.Outs()`output, m.Outs()`writeCalls
    ensures Underway(m, m.State(), fd, m.links[fd].output, from, run, Passed(old(m.State()), fd, jobs), ws, 0)
    ensures Entered(old(m.State()), fd, jobs, m.State())
    ensures m.links[fd].output
         == old(m.links[fd].output) + Traffic(FramesTo(Passed(old(m.State()), fd, jobs), fd))
  {
    ghost var passed, base := Passed(m.State(), fd, jobs), m.Outputs();
    from := Marks(m, ws);
    Sending(m, fd, ws, run, jobs, weather);
    LieBehindMarks(base, m.Outputs(), ws, from, passed);
    assert Await(m, from, passed, ws);
    NoAnswersYet(m.State(), passed);
    assert m.links[fd].output + [] == m.links[fd].output;
    assert m.Outputs()[fd] == base[fd] + Traffic(FramesTo(passed, fd));
  }

  /** The interface's header and size reads of each are not interrupted. */
  ghost predicate ShownCalmly(scripts: nat -> seq<Answer>, results: seq<Frame>) {
    forall k :: 0 <= k < |results| ==> Calm(scripts(k), results[k])
  }

  /** The interface shows what has come. */
  method Finish(m: Masters.Master, ghost start: Core, fd: int, ghost base: Bytes, mark: nat, ghost from: seq<nat>,
                ghost run: Execution, ghost passed: seq<Forward>, ghost ws: seq<int>, scripts: nat -> seq<Answer>,
                last: byte, before: nat)
    returns (shown: seq<Shown>)
    requires Underway(m, start, fd, base, from, run, passed, ws, |ws|) && mark == |base| && before < Radix(SIZE_BYTES)
    requires AllPrintable(Collected(run, passed, ws)) && ShownCalmly(scripts, Collected(run, passed, ws))
    ensures shown == OnScreen(Collected(run, passed, ws))
  {
    ghost var results := Collected(run, passed, ws);
    assert ws[..|ws|] == ws;
    BehindMark(base, Traffic(results), mark);
    shown := Showing(m.links[fd].output, mark, results, scripts, last, before);
  }

  ghost predicate AllPrintable(results: seq<Frame>) {
    forall k :: 0 <= k < |results| ==> Printable(results[k])
  }

  /** What the master passes on of the jobs, and what is collected of it. */
  lemma PassedWell(c: Core, fd: int, ws: seq<int>, run: Execution, jobs: seq<Frame>)
    requires Distinct(ws) && fd !in ws && AllFit(run, jobs)
    requires forall n <- WithInterface(c, fd).ledger.workers :: n.alive ==> n.fd in ws
    requires var hub := WithInterface(c, fd);
      ScheduleAll(hub.ledger, Numbered(c, jobs)).pending == hub.ledger.pending
    ensures var passed := Passed(c, fd, jobs);
      && FramesTo(passed, fd) == [] && AllCarry(run, passed, ws)
      && multiset(Collected(run, passed, ws)) == multiset(Results(run, jobs))
      && AllPrintable(Collected(run, passed, ws))
  {
    var hub, passed := WithInterface(c, fd), Passed(c, fd, jobs);
    JobsFindWorkers(hub.ledger, |hub.submitted|, fd, jobs, ws);
    CollectedAll(run, passed, jobs, ws);
    NothingPassed(passed, fd);
    forall w | w in ws
      ensures Carries(run, FramesTo(passed, w))
    {
      SharesFit(run, passed, jobs, w);
    }
    var results := Collected(run, passed, ws);
    forall k | 0 <= k < |results|
      ensures Printable(results[k])
    {
      assert results[k] in multiset(Results(run, jobs));
      var i :| 0 <= i < |jobs| && Results(run, jobs)[i] == results[k];
      assert Fits(run, jobs[i]);
    }
  }

  /** The names of the results collected are those of the jobs passed on. */
  lemma {:induction false} NamesCollected(run: Execution, passed: seq<Forward>, ws: seq<int>)
    ensures Names(Collected(run, passed, ws)) == NamesPassed(passed, ws)
  {
    if ws != [] {
      var n := |ws| - 1;
      NamesCollected(run, passed, ws[..n]);
      assert Names(Results(run, FramesTo(passed, ws[n]))) == Names(FramesTo(passed, ws[n]));
      FrameNamesInTwo(Collected(run, passed, ws[..n]), Results(run, FramesTo(passed, ws[n])));
    }
  }

  lemma FrameNamesInTwo(a: seq<Frame>, b: seq<Frame>)
    ensures Names(a + b) == Names(a) + Names(b)
  {
  }

  /**
   The run has been completed: each job was entered once, and each answer completed a job of its
   name.  Just the jobs of the run are completed, each once, if and only if no worker had a job
   already that bears the name of one it was given; and then the ledger is as it was without them.
   */
  ghost predicate RunCompleted(c: Core, fd: int, ws: seq<int>, jobs: seq<Frame>, results: seq<Frame>, d: Core) {
    var l, ts := WithInterface(c, fd).ledger, Numbered(c, jobs);
    && d.submitted == c.submitted + ts && c.completed <= d.completed
    && TaskNames(d.completed[|c.completed|..]) == Names(results)
    && (NewNames(l, ts, ws) ==> multiset(d.completed[|c.completed|..]) == multiset(ts) && SameJobs(l, d.ledger))
    && (Unlisted(l, ts) && !NewNames(l, ts, ws) ==> multiset(d.completed[|c.completed|..]) != multiset(ts))
  }

  lemma WorkersAreListed(c: Core, fd: int, ws: seq<int>)
    requires Roles(c) && fd >= 0 && Alive(c, fd) && (c.ifaceFd == fd || c.ifaceFd == -1) && fd !in ws
    requires forall w <- ws :: w >= 0 && Alive(c, w)
    ensures FdsDistinct(WithInterface(c, fd).ledger.workers)
    ensures forall w <- ws :: FindWorker(WithInterface(c, fd).ledger.workers, w).Some?
  {
    if c.ifaceFd == -1 {
      AdoptKeepsRoles(c, fd);
    }
    forall w | w in ws
      ensures FindWorker(WithInterface(c, fd).ledger.workers, w).Some?
    {
      if c.ifaceFd == -1 {
        Isolation.AliveAfterAdopt(c, fd, w);
      }
      LiveWorkerIsListed(WithInterface(c, fd), w);
    }
  }

  lemma RunIsLoaded(c: Core, fd: int, ws: seq<int>, jobs: seq<Frame>, s: Core)
    requires Roles(c) && fd >= 0 && Alive(c, fd) && (c.ifaceFd == fd || c.ifaceFd == -1)
    requires Distinct(ws) && fd !in ws && forall w <- ws :: w >= 0 && Alive(c, w)
    requires forall n <- WithInterface(c, fd).ledger.workers :: n.alive ==> n.fd in ws
    requires var hub := WithInterface(c, fd);
      ScheduleAll(hub.ledger, Numbered(c, jobs)).pending == hub.ledger.pending
    requires Entered(c, fd, jobs, s)
    ensures Loaded(WithInterface(c, fd).ledger, Numbered(c, jobs), s.ledger, Passed(c, fd, jobs), ws)
  {
    var l, n := WithInterface(c, fd).ledger, |c.submitted|;
    WorkersAreListed(c, fd, ws);
    JobsFindWorkers(l, n, fd, jobs, ws);
    forall w | w in ws
      ensures Names(FramesTo(Passed(c, fd, jobs), w)) == TaskNames(TasksTo(l, Numbered(c, jobs), w))
    {
      PassedAsGiven(l, n, fd, Under(InterfacePut, jobs), w);
    }
  }

  lemma RunEnds(c: Core, fd: int, ws: seq<int>, run: Execution, jobs: seq<Frame>, s: Core, d: Core)
    requires Loaded(WithInterface(c, fd).ledger, Numbered(c, jobs), s.ledger, Passed(c, fd, jobs), ws)
    requires Entered(c, fd, jobs, s) && AnswersOf(s, Passed(c, fd, jobs), ws, d)
    ensures RunCompleted(c, fd, ws, jobs, Collected(run, Passed(c, fd, jobs), ws), d)
  {
    var passed := Passed(c, fd, jobs);
    RunIsCompleted(WithInterface(c, fd).ledger, Numbered(c, jobs), s, passed, ws, d);
    NamesCollected(run, passed, ws);
    assert d.completed[|c.completed|..] == DoneBy(s.ledger, passed, ws);
  }

  lemma RunIsDone(c: Core, fd: int, ws: seq<int>, run: Execution, jobs: seq<Frame>, s: Core, d: Core)
    requires Roles(c) && fd >= 0 && Alive(c, fd) && (c.ifaceFd == fd || c.ifaceFd == -1)
    requires Distinct(ws) && fd !in ws && forall w <- ws :: w >= 0 && Alive(c, w)
    requires forall n <- WithInterface(c, fd).ledger.workers :: n.alive ==> n.fd in ws
    requires var hub := WithInterface(c, fd);
      ScheduleAll(hub.ledger, Numbered(c, jobs)).pending == hub.ledger.pending
    requires Entered(c, fd, jobs, s) && AnswersOf(s, Passed(c, fd, jobs), ws[..|ws|], d)
    ensures RunCompleted(c, fd, ws, jobs, Collected(run, Passed(c, fd, jobs), ws), d)
  {
    assert ws[..|ws|] == ws;
    RunIsLoaded(c, fd, ws, jobs, s);
    RunEnds(c, fd, ws, run, jobs, s, d);
  }

  /** The jobs to the workers, and their results to the interface. */
  method ThereAndBack(m: Masters.Master, fd: int, ws: seq<int>, run: Execution, jobs: seq<Frame>, weather: Weather)
    returns (received: seq<seq<Frame>>, ghost start: Core, ghost from: seq<nat>)
    requires Takes(m, fd, jobs) && Staff(m, fd, ws) && Fair(weather, ws) && AllFit(run, jobs)
    requires AllCarry(run, Passed(m.State(), fd, jobs), ws) && FramesTo(Passed(m.State(), fd, jobs), fd) == []
    modifies m, m.Outs()`output, m.Outs()`writeCalls
    ensures received == Shares(Passed(old(m.State()), fd, jobs), ws)
    ensures Underway(m, start, fd, old(m.links[fd].output), from, run, Passed(old(m.State()), fd, jobs), ws, |ws|)
    ensures RunCompleted(old(m.State()), fd, ws, jobs, Collected(run, Passed(old(m.State()), fd, jobs), ws), m.State())
  {
    ghost var c, base := m.State(), m.links[fd].output;
    ghost var passed := Passed(c, fd, jobs);
    var marks := Forth(m, fd, ws, jobs, run, weather);
    assert base + [] == base;
    start, from := m.State(), marks;
    received := EachAndBack(m, start, fd, base, marks, run, passed, ws, 0, weather);
    RunIsDone(c, fd, ws, run, jobs, start, m.State());
  }

  /**
   End to end, from any state of the master in which it can take the jobs: each worker receives
   the files passed to it by the greedy schedule, under their names, and the interface shows
   their outputs under the same names: every job's once, and nothing else.  Then the jobs are
   completed.  Each program reads nothing but what the one before it wrote.
   */
  method EndToEnd(m: Masters.Master, fd: int, ws: seq<int>, run: Execution, jobs: seq<Frame>, weather: Weather,
                  last: byte, before: nat)
    returns (received: seq<seq<Frame>>, shown: seq<Shown>)
    requires Takes(m, fd, jobs) && Staff(m, fd, ws) && Fair(weather, ws) && AllFit(run, jobs)
    requires ShownCalmly(weather.showing, Collected(run, Passed(m.State(), fd, jobs), ws)) && before < Radix(SIZE_BYTES)
    modifies m, m.Outs()`output, m.Outs()`writeCalls
    ensures received == Shares(Passed(old(m.State()), fd, jobs), ws)
    ensures shown == OnScreen(Collected(run, Passed(old(m.State()), fd, jobs), ws))
    ensures multiset(Collected(run, Passed(old(m.State()), fd, jobs), ws)) == multiset(Results(run, jobs))
    ensures RunCompleted(old(m.State()), fd, ws, jobs, Collected(run, Passed(old(m.State()), fd, jobs), ws), m.State())
  {
    ghost var passed, base := Passed(m.State(), fd, jobs), m.links[fd].output;
    PassedWell(m.State(), fd, ws, run, jobs);
    var mark := |m.links[fd].output|;
    ghost var start, from;
    received, start, from := ThereAndBack(m, fd, ws, run, jobs, weather);
    shown := Finish(m, start, fd, base, mark, from, run, passed, ws, weather.showing, last, before);
  }
}
