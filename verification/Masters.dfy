/**
 The master's globals and the functions of master.c that update them: the scheduler, the
 recovery of jobs, the heartbeat bookkeeping, and handle_data.  Each method is tied to the
 function of the same step in modules Scheduling, Recovery and MasterModel.
 */
module Masters {
  import opened Options
  import opened WireFormat
  import opened Transfers
  import opened FrameParser
  import opened Scheduling
  import opened Recovery
  import opened MasterModel
  import opened MasterInvariants
  import opened MasterSteps
  import opened Handouts
  import Connections
  import Isolation

  type Connection = Connections.Connection

  lemma {:induction false} ScheduleOneMore(l: Ledger, ts: seq<Task>, t: Task)
    ensures ScheduleAll(l, ts + [t]) == Schedule(ScheduleAll(l, ts), t)
    decreases |ts|
  {
    if ts == [] {
      assert [t][1..] == [];
    } else {
      assert (ts + [t])[1..] == ts[1..] + [t];
      ScheduleOneMore(Schedule(l, ts[0]), ts[1..], t);
    }
  }

  lemma {:induction false} RescuesOneMore(l: Ledger, ts: seq<Task>, t: Task)
    ensures Rescues(l, ts + [t]) == Rescues(l, ts) + [Rescued(ScheduleAll(l, ts), t)]
    decreases |ts|
  {
    if ts == [] {
      assert [t][1..] == [];
    } else {
      assert (ts + [t])[1..] == ts[1..] + [t];
      RescuesOneMore(Schedule(l, ts[0]), ts[1..], t);
    }
  }

  /**
   Since the outputs were `base` and the messages passed on `known`, what went out on each
   descriptor is the messages passed on to it since, one after another.
   */
  ghost predicate Printed(base: map<int, Bytes>, known: seq<Forward>,
                          outputs: map<int, Bytes>, forwards: seq<Forward>) {
    && outputs.Keys == base.Keys && known <= forwards
    && forall fd <- outputs :: outputs[fd] == base[fd] + Traffic(FramesTo(forwards[|known|..], fd))
  }

  lemma NothingPrinted(base: map<int, Bytes>, known: seq<Forward>)
    ensures Printed(base, known, base, known)
  {
    assert known[|known|..] == [];
    forall fd | fd in base
      ensures base[fd] == base[fd] + Traffic(FramesTo([], fd))
    {
      assert base[fd] + [] == base[fd];
    }
  }

  lemma FramesToOneMore(since: seq<Forward>, f: Forward, fd: int)
    ensures Traffic(FramesTo(since + [f], fd))
         == Traffic(FramesTo(since, fd)) + if f.dest == fd then Print(Put, f.frame) else []
  {
    assert (since + [f])[..|since|] == since;
    if f.dest == fd {
      TrafficOneMore(FramesTo(since, fd), f.frame);
    } else {
      assert FramesTo(since, fd) + [] == FramesTo(since, fd);
    }
  }

  /** Two stretches of output make one. */
  lemma PrintedInTwo(base: map<int, Bytes>, mid: map<int, Bytes>, outputs: map<int, Bytes>,
                     a: seq<Forward>, b: seq<Forward>)
    requires Printed(base, [], mid, a) && Printed(mid, [], outputs, b)
    ensures Printed(base, [], outputs, a + b)
  {
    assert a[0..] == a && b[0..] == b && (a + b)[0..] == a + b;
    forall fd | fd in outputs
      ensures outputs[fd] == base[fd] + Traffic(FramesTo(a + b, fd))
    {
      FramesToInTwo(a, b, fd);
      TrafficInTwo(FramesTo(a, fd), FramesTo(b, fd));
      Regrouped(base[fd], Traffic(FramesTo(a, fd)), Traffic(FramesTo(b, fd)));
    }
  }

  lemma PrintedOn(base: Bytes, before: Bytes, sent: Bytes, since: seq<Forward>, f: Forward, fd: int)
    requires before == base + Traffic(FramesTo(since, fd))
    requires sent == if f.dest == fd then Print(Put, f.frame) else []
    ensures before + sent == base + Traffic(FramesTo(since + [f], fd))
  {
    FramesToOneMore(since, f, fd);
    Regrouped(base, Traffic(FramesTo(since, fd)), sent);
  }

  class Master {
    var workers: seq<Node>
    var pending: seq<Task>
    var interfaceFd: int
    var interface: Option<Node>
    var files: map<Bytes, Bytes>
    var nextTask: nat
    /** The socket behind each descriptor that can be written. */
    const links: map<int, Stream>

    ghost var submitted: seq<Task>
    ghost var completed: seq<Task>
    ghost var retired: seq<Node>
    ghost var forwards: seq<Forward>

    ghost function Book(): Ledger
      reads this
    {
      Ledger(workers, pending)
    }

    /** The whole state as a value. */
    ghost function State(): Core
      reads this
    {
      Core(Book(), interfaceFd, interface, files, submitted, completed, retired, forwards)
    }

    ghost predicate Valid()
      reads this
    {
      nextTask == |submitted| && Roles(State())
    }

    constructor (links: map<int, Stream>)
      ensures Valid() && State() == START.core && this.links == links
    {
      workers, pending := [], [];
      interfaceFd, interface := -1, None;
      files := map[];
      nextTask := 0;
      this.links := links;
      submitted, completed, retired, forwards := [], [], [], [];
    }

    /** accept_connections, for one new descriptor. */
    method AcceptConnection(fd: int, ip: Bytes)
      requires Valid() && fd >= 0 && FindWorker(workers, fd).None? && fd != interfaceFd
      modifies this`workers
      ensures Valid()
      ensures Book() == old(Book()).(workers := old(workers) + [NewNode(fd, ip)])
    {
      AcceptKeepsRoles(State(), fd, ip);
      workers := workers + [Node(fd, ip, true, -1.0, 0.0, [])];
    }

    // -------------------------------------------------------------------------
    // Lookups and scheduling
    // -------------------------------------------------------------------------

    /** find_worker_pos. */
    method FindWorkerPos(fd: int) returns (pos: int)
      ensures pos == match FindWorker(workers, fd) case None => -1 case Some(w) => w
    {
      pos := 0;
      while pos < |workers|
        invariant 0 <= pos <= |workers|
        invariant forall i :: 0 <= i < pos ==> workers[i].fd != fd
      {
        if workers[pos].fd == fd {
          return;
        }
        pos := pos + 1;
      }
      pos := -1;
    }

    /** schedule: one pass with a running minimum. */
    method ScheduleTask(t: Task) returns (fd: int)
      modifies this`workers, this`pending
      ensures Book() == Schedule(old(Book()), t)
      ensures fd == ChosenFd(old(Book()))
    {
      var minLoad := LOAD_CAP;
      var best: Option<nat> := None;
      var i := 0;
      while i < |workers|
        invariant 0 <= i <= |workers|
        invariant IsBest(workers[..i], best)
        invariant minLoad == if best.Some? then Load(workers[best.value]) else LOAD_CAP
      {
        if workers[i].alive {
          var load := Load(workers[i]);
          if load < minLoad {
            minLoad := load;
            best := Some(i);
          }
        }
        i := i + 1;
      }
      assert workers[..i] == workers;
      BestIsUnique(workers, best);
      if best == None {
        pending := pending + [t];
        return -1;
      }
      fd := workers[best.value].fd;
      workers := workers[best.value := Give(workers[best.value], t)];
    }

    /** scheduler_remove_task, with the job it removed. */
    method SchedulerRemoveTask(fd: int, name: Bytes) returns (removed: Option<Task>)
      modifies this`workers
      ensures (Book(), removed) == RemoveTask(old(Book()), fd, name)
    {
      var w := FindWorkerPos(fd);
      if w == -1 {
        return None;
      }
      var tasks := workers[w].tasks;
      var i := 0;
      while i < |tasks|
        invariant 0 <= i <= |tasks|
        invariant forall j :: 0 <= j < i ==> tasks[j].name != name
      {
        if tasks[i].name == name {
          workers := workers[w := workers[w].(tasks := Without(tasks, i))];
          return Some(tasks[i]);
        }
        i := i + 1;
      }
      removed := None;
    }

    // -------------------------------------------------------------------------
    // Recovery
    // -------------------------------------------------------------------------

    /** The inner loop of checkOnNodes. */
    method HandOut(tasks: seq<Task>)
      modifies this`workers, this`pending
      ensures Book() == ScheduleAll(old(Book()), tasks)
    {
      var i := 0;
      while i < |tasks|
        invariant 0 <= i <= |tasks|
        invariant Book() == ScheduleAll(old(Book()), tasks[..i])
      {
        ScheduleOneMore(old(Book()), tasks[..i], tasks[i]);
        assert tasks[..i + 1] == tasks[..i] + [tasks[i]];
        var _ := ScheduleTask(tasks[i]);
        i := i + 1;
      }
      assert tasks[..i] == tasks;
    }

    /** A round of the first loop of reschedule: the job is scheduled, its file emptied, and what is left sent. */
    method RescueOne(t: Task) returns (ghost sent: Forward)
      modifies this`workers, this`pending, this`files, Outs()`output, Outs()`writeCalls
      ensures sent == Rescued(old(Book()), t)
      ensures Book() == Schedule(old(Book()), t) && files == old(files)[t.name := []]
      ensures Sent(old(Outputs()), Outputs(), sent.dest, Print(Put, sent.frame))
    {
      sent := Rescued(Book(), t);
      var fd := ScheduleTask(t);
      files := files[t.name := []];
      PutTo(fd, t.name);
    }

    /** The first loop of reschedule. */
    method Rescue(tasks: seq<Task>) returns (ghost sent: seq<Forward>)
      modifies this`workers, this`pending, this`files, Outs()`output, Outs()`writeCalls
      ensures sent == Rescues(old(Book()), tasks) && Book() == ScheduleAll(old(Book()), tasks)
      ensures Emitted(old(files), old(Outputs()), sent)
    {
      var i := 0;
      sent := [];
      ghost var base := Outputs();
      NothingPrinted(base, []);
      while i < |tasks|
        invariant 0 <= i <= |tasks|
        invariant Book() == ScheduleAll(old(Book()), tasks[..i]) && sent == Rescues(old(Book()), tasks[..i])
        invariant files == Reopened(old(files), sent)
        invariant Wired() ==> Printed(base, [], Outputs(), sent)
      {
        ghost var known, before := sent, Outputs();
        ScheduleOneMore(old(Book()), tasks[..i], tasks[i]);
        RescuesOneMore(old(Book()), tasks[..i], tasks[i]);
        assert tasks[..i + 1] == tasks[..i] + [tasks[i]];
        ghost var one := RescueOne(tasks[i]);
        sent := sent + [one];
        ReopenedInTwo(old(files), known, [one]);
        if Wired() {
          SentIsPrinted(base, [], before, known, Outputs(), sent);
        }
        i := i + 1;
      }
      assert tasks[..i] == tasks;
    }

    /**
     reschedule for a dead worker; `ok` is false when the second loop erases past the end.  The jobs
     are sent to their new workers, but without their content, since opening the files empties them.
     */
    method RescheduleWorker(w: nat) returns (ok: bool, ghost sent: seq<Forward>)
      requires w < |workers| && !workers[w].alive
      modifies this`workers, this`pending, this`files, Outs()`output, Outs()`writeCalls
      ensures ok <==> Reschedule(old(Book()), w).Some?
      ensures ok ==> Book() == Reschedule(old(Book()), w).value
      ensures sent == Rescues(old(Book()), old(workers[w].tasks)) && Emitted(old(files), old(Outputs()), sent)
    {
      var tasks := workers[w].tasks;
      var size := |tasks|;
      ScheduleAllGrows(Book(), tasks);
      sent := Rescue(tasks);
      assert Grew(old(workers[w]), workers[w]);
      ok := EraseAll(w, tasks, size);
    }

    /** The second loop, which erases at rising positions. */
    method EraseAll(w: nat, recoverable: seq<Task>, size: nat) returns (ok: bool)
      requires w < |workers| && workers[w].tasks == recoverable && size == |recoverable|
      modifies this`workers
      ensures ok <==> EraseRising(recoverable, 0, size).Some?
      ensures ok ==> Book() == Emptied(old(Book()), w, EraseRising(recoverable, 0, size).value)
    {
      var tasks := recoverable;
      ghost var handed := Book();
      assert Book() == Emptied(handed, w, tasks);
      var i := 0;
      while i < size
        invariant 0 <= i <= size
        invariant EraseRising(recoverable, 0, size) == EraseRising(tasks, i, size)
        invariant |workers| == |handed.workers| && Book() == Emptied(handed, w, tasks)
      {
        if i >= |tasks| {
          return false;
        }
        tasks := Without(tasks, i);
        workers := workers[w := workers[w].(tasks := tasks)];
        i := i + 1;
      }
      ok := true;
    }

    /** The first loop of checkOnNodes, down from the last worker while the list changes under it. */
    method SweepNodes()
      modifies this`workers, this`pending
      ensures Book() == Sweep(old(Book()), |old(workers)|)
    {
      var i := |workers| - 1;
      while i >= 0
        invariant -1 <= i < |workers|
        invariant Sweep(old(Book()), |old(workers)|) == Sweep(Book(), i + 1)
      {
        if !workers[i].alive {
          var tasks := workers[i].tasks;
          workers := Without(workers, i);
          ScheduleAllGrows(Book(), tasks);
          HandOut(tasks);
        }
        i := i - 1;
      }
    }

    /** The second loop, down from the last pending job. */
    method RetryPending()
      modifies this`workers, this`pending
      ensures Book() == Retry(old(Book()), |old(pending)|)
    {
      var i := |pending| - 1;
      while i >= 0
        invariant -1 <= i < |pending|
        invariant Retry(old(Book()), |old(pending)|) == Retry(Book(), i + 1)
      {
        var t := pending[i];
        pending := Without(pending, i);
        ScheduleGrows(Book(), t);
        var _ := ScheduleTask(t);
        i := i - 1;
      }
    }

    /** checkOnNodes. */
    method CheckNodes()
      modifies this`workers, this`pending
      ensures Book() == CheckOnNodes(old(Book()))
    {
      SweepNodes();
      RetryPending();
    }

    // -------------------------------------------------------------------------
    // Heartbeats
    // -------------------------------------------------------------------------

    /** report_heartbeat at time `now`. */
    method ReportBeat(ip: Bytes, cpu: real, now: real)
      modifies this`workers
      ensures Book() == ReportHeartbeat(old(Book()), ip, cpu, now)
    {
      var i := 0;
      while i < |workers|
        invariant 0 <= i <= |workers|
        invariant forall j :: 0 <= j < i ==> workers[j].ip != ip
      {
        if workers[i].ip == ip {
          workers := workers[i := workers[i].(cpu := cpu, beat := now, alive := true)];
          return;
        }
        i := i + 1;
      }
    }

    /** What has been sent since, and the files emptied for it. */
    ghost predicate Emitted(before: map<Bytes, Bytes>, base: map<int, Bytes>, sent: seq<Forward>)
      reads this, links.Values`output
    {
      files == Reopened(before, sent) && (Wired() ==> Printed(base, [], Outputs(), sent))
    }

    lemma EmittedInTwo(before: map<Bytes, Bytes>, base: map<int, Bytes>, a: seq<Forward>,
                       between: map<Bytes, Bytes>, mid: map<int, Bytes>, b: seq<Forward>)
      requires between == Reopened(before, a) && (Wired() ==> Printed(base, [], mid, a)) && Emitted(between, mid, b)
      ensures Emitted(before, base, a + b)
    {
      ReopenedInTwo(before, a, b);
      if Wired() {
        PrintedInTwo(base, mid, Outputs(), a, b);
      }
    }

    /** The scan's test of one worker. */
    method ScanOne(i: nat, now: real) returns (ok: bool, ghost sent: seq<Forward>)
      requires i < |workers|
      modifies this`workers, this`pending, this`files, Outs()`output, Outs()`writeCalls
      ensures ok ==> |workers| == |old(workers)|
      ensures ScanFrom(old(Book()), i, now) == if ok then ScanFrom(Book(), i + 1, now) else None
      ensures ScanRescues(old(Book()), i, now) == sent + if ok then ScanRescues(Book(), i + 1, now) else []
      ensures Emitted(old(files), old(Outputs()), sent)
    {
      if Silent(workers[i], now) {
        workers := workers[i := workers[i].(alive := false)];
        ghost var dead := Book();
        ScheduleAllGrows(dead, dead.workers[i].tasks);
        ok, sent := RescheduleWorker(i);
      } else {
        NothingPrinted(Outputs(), []);
        ok, sent := true, [];
      }
    }

    /** One scan of detect_heart_failure at time `now`. */
    method ScanOnce(now: real) returns (ok: bool, ghost sent: seq<Forward>)
      modifies this`workers, this`pending, this`files, Outs()`output, Outs()`writeCalls
      ensures ok <==> ScanFrom(old(Book()), 0, now).Some?
      ensures ok ==> Book() == ScanFrom(old(Book()), 0, now).value
      ensures sent == ScanRescues(old(Book()), 0, now) && Emitted(old(files), old(Outputs()), sent)
    {
      var n := |workers|;
      var i := 0;
      sent := [];
      NothingPrinted(Outputs(), []);
      while i < n
        invariant 0 <= i <= n == |workers|
        invariant ScanFrom(old(Book()), 0, now) == ScanFrom(Book(), i, now)
        invariant ScanRescues(old(Book()), 0, now) == sent + ScanRescues(Book(), i, now)
        invariant Emitted(old(files), old(Outputs()), sent)
      {
        ghost var between, mid, known := files, Outputs(), sent;
        ghost var more;
        ok, more := ScanOne(i, now);
        sent := known + more;
        EmittedInTwo(old(files), old(Outputs()), known, between, mid, more);
        if !ok {
          return;
        }
        i := i + 1;
      }
      ok := true;
    }

    // -------------------------------------------------------------------------
    // handle_data
    // -------------------------------------------------------------------------

    /** The record handle_data finds for a descriptor. */
    method Lookup(fd: int) returns (record: Option<Node>)
      ensures record == Current(State(), fd)
    {
      var w := FindWorkerPos(fd);
      if w == -1 {
        record := if interface.Some? && interface.value.fd == fd then interface else None;
      } else {
        record := Some(workers[w]);
      }
    }

    /** Whether the connection behind a descriptor still counts as alive. */
    predicate Listens(fd: int)
      reads this
      ensures Listens(fd) <==> Alive(State(), fd)
    {
      match FindWorker(workers, fd)
      case Some(w) => workers[w].alive
      case None => interface.Some? && interface.value.fd == fd && interface.value.alive
    }

    /** Assigns the flags of that record. */
    method SetFlags(fd: int, alive: bool, beat: real)
      modifies this`workers, this`interface
      ensures State() == Mark(old(State()), fd, alive, beat)
    {
      var w := FindWorkerPos(fd);
      if w != -1 {
        workers := workers[w := workers[w].(alive := alive, beat := beat)];
      } else if interface.Some? && interface.value.fd == fd {
        interface := Some(interface.value.(alive := alive, beat := beat));
      }
    }

    method MarkDead(fd: int)
      requires Valid()
      modifies this`workers, this`interface
      ensures Valid() && State() == Kill(old(State()), fd)
    {
      KillKeepsRoles(State(), fd);
      var record := Lookup(fd);
      if record.Some? {
        SetFlags(fd, false, record.value.beat);
      }
    }

    /** What handle_data does when the header cannot be had. */
    method FailHeader(fd: int)
      requires Valid()
      modifies this`workers, this`interface, this`interfaceFd
      ensures Valid() && State() == HeaderFail(old(State()), fd)
    {
      HeaderFailKeepsRoles(State(), fd);
      MarkDead(fd);
      if fd == interfaceFd {
        interfaceFd := -1;
      }
    }

    /** The sender of the first INTERFACE_PUT becomes the interface and leaves the workers. */
    method AdoptInterface(fd: int)
      requires Valid() && Alive(State(), fd) && interfaceFd == -1 && fd >= 0
      modifies this`workers, this`interface, this`interfaceFd, this`retired
      ensures Valid() && State() == Adopt(old(State()), fd)
    {
      AdoptedIsAWorker(State(), fd);
      AdoptKeepsRoles(State(), fd);
      var w := FindWorkerPos(fd);
      retired := retired + (if interface.Some? then [interface.value] else []);
      interfaceFd := fd;
      interface := Some(workers[w]);
      workers := Without(workers, w);
    }

    /** The START block once the header is complete. */
    method AcceptHeader(conn: Connection, ghost line: Bytes)
      requires Valid() && conn.Usable() && conn.AtHeader() && conn.fd >= 0 && Alive(State(), conn.fd)
      requires conn.fileName.Some? && ParseHeader(line) == Some((conn.todo, conn.fileName.value))
      modifies this`workers, this`interface, this`interfaceFd, this`retired, conn`status
      ensures Valid() && conn.Valid() && conn.status == Connections.NeedSize
      ensures (State(), conn.Phase()) == AfterHeader(old(State()), conn.fd, line)
    {
      conn.status := Connections.NeedSize;
      if conn.todo == InterfacePut && interfaceFd == -1 {
        AdoptInterface(conn.fd);
      }
    }

    /** The same when it cannot be had, because a read failed or because it makes no sense. */
    method RejectHeader(fd: int, ghost line: Bytes, ghost took: Bytes, ghost s: Bytes) returns (ghost failed: bool)
      requires Valid() && Alive(State(), fd) && NEWLINE !in took && |line| + |took| <= COMMAND_BUF_SIZE
      requires s == took
            || (s == took + [NEWLINE] && |line| + |took| < COMMAND_BUF_SIZE && ParseHeader(line + took) == None)
      modifies this`workers, this`interface, this`interfaceFd
      ensures Valid() && (failed <==> s == took)
      ensures (State(), Header(line + took)) == HandleData(old(State()), fd, Header(line), s, failed)
    {
      failed := s == took;
      if s == took {
        HeaderStops(State(), fd, line, took, true);
      } else {
        HeaderRejected(State(), fd, line, took);
      }
      FailHeader(fd);
    }

    /** What the START block leaves: a header taken whole, or a connection to come back to. */
    ghost predicate HeaderTaken(conn: Connection, c: Core, p: Phase, s: Bytes, took: Bytes, failed: bool)
      requires p.Header?
      reads this, conn, conn.command, conn.socket`cursor
    {
      && conn.Valid()
      && if conn.status == Connections.NeedSize then
           && s == took + [NEWLINE] && NEWLINE !in took && |p.line| + |took| < COMMAND_BUF_SIZE
           && ParseHeader(p.line + took).Some?
           && (State(), conn.Phase()) == AfterHeader(c, conn.fd, p.line + took)
         else
           && (conn.status == Connections.Start || conn.status == Connections.Overran)
           && (State(), conn.Phase()) == HandleData(c, conn.fd, p, s, failed)
    }

    /** The START block. */
    method HeaderStage(conn: Connection) returns (ghost failed: bool, ghost took: Bytes)
      requires Valid() && conn.Valid() && conn.status == Connections.Start
      requires conn.fd >= 0 && Alive(State(), conn.fd)
      modifies this`workers, this`interface, this`interfaceFd, this`retired
      modifies conn, conn.command, conn.socket`cursor, conn.socket`readCalls
      ensures Valid() && conn.Usable() && old(conn.socket.cursor) <= conn.socket.cursor
      ensures HeaderTaken(conn, old(State()), old(conn.Phase()), conn.Consumed(old(conn.socket.cursor)), took, failed)
      ensures old(conn.socket.Offers()) ==> old(conn.socket.cursor) < conn.socket.cursor
      ensures old(conn.socket.readCalls) < conn.socket.readCalls
      ensures failed <==> conn.socket.Failed()
      ensures failed ==> conn.status == Connections.Start
    {
      ghost var line, c := conn.Phase().line, State();
      var code: Connections.Code;
      failed := false;
      code, took := conn.GetCommand();
      ghost var s := conn.Consumed(old(conn.socket.cursor));
      if code == Connections.NotDoneSending {
        HeaderStops(c, conn.fd, line, took, false);
      } else if code == Connections.OutOfBuffer {
        HeaderTooLong(c, conn.fd, line, took, s);
      } else if code == Connections.DoneSending {
        AcceptHeader(conn, line + took);
      } else {
        failed := RejectHeader(conn.fd, line, took, s);
      }
    }

    /** The NEED_SIZE block; on completion an announced size of zero has ended the connection's life. */
    method SizeStage(conn: Connection) returns (done: bool, ghost took: Bytes)
      requires Valid() && conn.Valid() && conn.status == Connections.NeedSize && Alive(State(), conn.fd)
      modifies this`workers, this`interface, conn, conn.socket`cursor, conn.socket`readCalls
      ensures Valid() && conn.Usable() && old(conn.socket.cursor) <= conn.socket.cursor
      ensures took == conn.Consumed(old(conn.socket.cursor))
      ensures old(conn.socket.Offers()) ==> old(conn.socket.cursor) < conn.socket.cursor
      ensures old(conn.socket.readCalls) < conn.socket.readCalls
      ensures conn.socket.Failed() ==> !done
      ensures !done ==>
        && conn.Valid() && State() == old(State())
        && conn.status == Connections.NeedSize && conn.fileName == old(conn.fileName)
        && conn.got == old(conn.got) + took && |conn.got| < SIZE_BYTES
      ensures done ==>
        && conn.status == Connections.ReceivingData && conn.AtPayload() && !conn.isOpen
        && conn.fileName == old(conn.fileName)
        && |old(conn.got) + took| == SIZE_BYTES && took != [] && conn.fileSize == Decode(old(conn.got) + took)
        && State() == (if conn.fileSize == 0 then Kill(old(State()), conn.fd) else old(State()))
    {
      var code: Connections.Code;
      code, took := conn.GetSize();
      done := code == Connections.DoneSending;
      if done {
        if conn.fileSize == 0 {
          MarkDead(conn.fd);
        }
        conn.status := Connections.ReceivingData;
      }
    }

    /** The state once get_binary_data has its file open. */
    ghost function Opened(conn: Connection): Core
      requires conn.fileName.Some?
      reads this, conn
    {
      if conn.isOpen then State() else Truncate(State(), conn.fileName.value)
    }

    /** The RECIEVING_DATA block. */
    method DataStage(conn: Connection) returns (done: bool, ghost took: Bytes)
      requires Valid() && conn.Usable() && conn.status == Connections.ReceivingData && conn.AtPayload()
      modifies this`files, conn, conn.socket`cursor, conn.socket`readCalls
      ensures Valid() && conn.Usable() && old(conn.socket.cursor) <= conn.socket.cursor
      ensures took == conn.Consumed(old(conn.socket.cursor))
      ensures conn.fileName == old(conn.fileName) && conn.AtPayload() && conn.isOpen
      ensures conn.data == old(conn.data) + took && |took| + conn.fileSize == old(conn.fileSize)
      ensures State() == StoreBlock(old(Opened(conn)), conn.fileName.value, |old(conn.data)|, took)
      ensures done <==> conn.fileSize == 0
      ensures conn.status == if done then Connections.ForwardData else Connections.ReceivingData
      ensures old(conn.fileSize) > 0 && old(conn.socket.Offers()) ==> old(conn.socket.cursor) < conn.socket.cursor
      ensures old(conn.fileSize) > 0 ==> old(conn.socket.readCalls) < conn.socket.readCalls
      ensures old(conn.fileSize) > 0 && conn.socket.Failed() ==> !done
      ensures old(conn.fileSize) == 0 ==> conn.socket.readCalls == old(conn.socket.readCalls)
    {
      var code: Connections.Code;
      code, files, took := conn.GetBinaryData(files);
      done := code == Connections.DoneSending;
      if done {
        conn.status := Connections.ForwardData;
      }
    }

    /** The sockets a message can go out on. */
    ghost function Outs(): set<Stream> {
      links.Values
    }

    /** Everything written so far, by descriptor. */
    ghost function Outputs(): (outputs: map<int, Bytes>)
      reads links.Values`output
      ensures outputs.Keys == links.Keys
    {
      map fd | fd in links :: links[fd].output
    }

    /** `message` went out to `dest`, or a first part of it if the socket failed, and nothing else anywhere. */
    ghost predicate Sent(before: map<int, Bytes>, after: map<int, Bytes>, dest: int, message: Bytes)
      requires before.Keys == after.Keys == links.Keys
    {
      forall fd :: fd in links ==>
        if dest in links && links[fd] == links[dest] then
          && Extended(before[fd], after[fd], message)
          && (Patient(links[fd].writeScript) ==> after[fd] == before[fd] + message)
        else after[fd] == before[fd]
    }

    /** At most one more message was passed on, and if so it is what went out. */
    ghost predicate SentLast(before: map<int, Bytes>, after: map<int, Bytes>, known: seq<Forward>, now: seq<Forward>)
      requires before.Keys == after.Keys == links.Keys
    {
      if now == known then after == before
      else
        && |now| == |known| + 1 && known <= now
        && Sent(before, after, now[|known|].dest, Print(Put, now[|known|].frame))
    }

    /** Descriptors have sockets of their own, and these never fail for good. */
    ghost predicate Wired() {
      && (forall f, g :: f in links && g in links && f != g ==> links[f] != links[g])
      && (forall f :: f in links ==> Patient(links[f].writeScript))
    }

    /** A call keeps to that. */
    lemma SentIsPrinted(base: map<int, Bytes>, known: seq<Forward>, before: map<int, Bytes>, mid: seq<Forward>,
                        after: map<int, Bytes>, now: seq<Forward>)
      requires before.Keys == after.Keys == links.Keys && Wired()
      requires Printed(base, known, before, mid) && SentLast(before, after, mid, now)
      ensures Printed(base, known, after, now)
    {
      if now != mid {
        var f := now[|mid|];
        assert now[|known|..] == mid[|known|..] + [f];
        forall fd | fd in after
          ensures after[fd] == base[fd] + Traffic(FramesTo(now[|known|..], fd))
        {
          var sent := if f.dest == fd then Print(Put, f.frame) else [];
          assert before[fd] + [] == before[fd];
          PrintedOn(base[fd], before[fd], sent, mid[|known|..], f, fd);
        }
      }
    }

    /** A job from the interface. */
    method SubmitStage(fd: int, name: Bytes) returns (dest: int)
      requires Valid() && AllRouted(State()) && fd == interfaceFd && fd >= 0
      modifies this`workers, this`pending, this`nextTask, this`submitted, this`forwards
      ensures Valid() && AllRouted(State()) && State() == SubmitJob(old(State()), fd, name)
      ensures dest == ChosenFd(old(Book()))
    {
      SubmitKeepsRoles(State(), name);
      ghost var chosen := ChosenFd(Book());
      var t := Task(nextTask, name);
      nextTask := nextTask + 1;
      submitted := submitted + [t];
      dest := ScheduleTask(t);
      forwards := forwards + [Forward(fd, chosen, interfaceFd, Frame(name, Content(files, name)))];
    }

    /** A result from a worker. */
    method AnswerStage(fd: int, name: Bytes) returns (dest: int)
      requires Valid() && AllRouted(State()) && fd != interfaceFd
      modifies this`workers, this`completed, this`forwards
      ensures Valid() && AllRouted(State()) && State() == AnswerJob(old(State()), fd, name)
      ensures dest == interfaceFd
    {
      AnswerKeepsRoles(State(), fd, name);
      var removed := SchedulerRemoveTask(fd, name);
      completed := completed + (if removed.Some? then [removed.value] else []);
      dest := interfaceFd;
      forwards := forwards + [Forward(fd, dest, dest, Frame(name, Content(files, name)))];
    }

    /** do_put to a descriptor, which fails at once when nothing is open there. */
    method PutTo(dest: int, name: Bytes)
      modifies Outs()`output, Outs()`writeCalls
      ensures Sent(old(Outputs()), Outputs(), dest, Print(Put, Frame(name, Content(files, name))))
    {
      if dest in links {
        var _ := Connections.DoPut(links[dest], name, Content(files, name));
      }
    }

    /** The end of the FORWARDING_DATA block: the record is made ready for the next message. */
    method ResetRecord(conn: Connection)
      requires Valid() && conn.Usable()
      modifies this`workers, this`interface, conn, conn.command
      ensures Valid() && conn.Valid() && conn.Phase() == FRESH
      ensures State() == ForgetBeat(old(State()), conn.fd)
    {
      ForgetBeatKeepsRoles(State(), conn.fd);
      conn.Reset();
      var record := Lookup(conn.fd);
      if record.Some? {
        SetFlags(conn.fd, record.value.alive, 0.0);
      }
    }

    /** The FORWARDING_DATA block. */
    method ForwardingStage(conn: Connection, dest: int, name: Bytes)
      requires Valid() && conn.Usable()
      modifies this`workers, this`interface, conn, conn.command, Outs()`output, Outs()`writeCalls
      ensures Valid() && conn.Valid() && conn.Phase() == FRESH
      ensures State() == ForgetBeat(old(State()), conn.fd)
      ensures Sent(old(Outputs()), Outputs(), dest, Print(Put, Frame(name, Content(files, name))))
    {
      PutTo(dest, name);
      ResetRecord(conn);
    }

    /** The FORWARD_DATA block for the interface, and the block after it. */
    method ForwardJob(conn: Connection, name: Bytes)
      requires Valid() && AllRouted(State()) && conn.Usable() && conn.fd == interfaceFd && conn.fd >= 0
      modifies this`workers, this`pending, this`interface, this`nextTask, this`submitted, this`forwards
      modifies conn, conn.command, Outs()`output, Outs()`writeCalls
      ensures Valid() && AllRouted(State()) && conn.Valid() && conn.Phase() == FRESH
      ensures State() == ForgetBeat(SubmitJob(old(State()), conn.fd, name), conn.fd)
      ensures SentLast(old(Outputs()), Outputs(), old(forwards), forwards)
    {
      var dest := SubmitStage(conn.fd, name);
      ForwardingStage(conn, dest, name);
      LastSent(old(Outputs()), Outputs(), old(forwards), forwards);
    }

    /** The same for a worker. */
    method ForwardResult(conn: Connection, name: Bytes)
      requires Valid() && AllRouted(State()) && conn.Usable() && conn.fd != interfaceFd
      modifies this`workers, this`interface, this`completed, this`forwards
      modifies conn, conn.command, Outs()`output, Outs()`writeCalls
      ensures Valid() && AllRouted(State()) && conn.Valid() && conn.Phase() == FRESH
      ensures State() == ForgetBeat(AnswerJob(old(State()), conn.fd, name), conn.fd)
      ensures SentLast(old(Outputs()), Outputs(), old(forwards), forwards)
    {
      var dest := AnswerStage(conn.fd, name);
      ForwardingStage(conn, dest, name);
      LastSent(old(Outputs()), Outputs(), old(forwards), forwards);
    }

    method ForwardStage(conn: Connection)
      requires Valid() && AllRouted(State()) && conn.fd >= 0
      requires conn.Usable() && conn.status == Connections.ForwardData && conn.fileName.Some?
      modifies this`workers, this`pending, this`interface, this`nextTask
      modifies this`submitted, this`completed, this`forwards
      modifies conn, conn.command, Outs()`output, Outs()`writeCalls
      ensures Valid() && AllRouted(State()) && conn.Valid()
      ensures (State(), conn.Phase()) == Deliver(old(State()), conn.fd, Ready(old(conn.fileName.value), old(conn.data)))
      ensures SentLast(old(Outputs()), Outputs(), old(forwards), forwards)
      ensures forwards != old(forwards) ==> conn.Phase() == FRESH
    {
      if conn.fd == interfaceFd {
        ForwardJob(conn, conn.fileName.value);
      } else {
        var record := Lookup(conn.fd);
        if record.Some? && record.value.alive {
          ForwardResult(conn, conn.fileName.value);
        }
      }
    }

    lemma LastSent(before: map<int, Bytes>, after: map<int, Bytes>, known: seq<Forward>, now: seq<Forward>)
      requires before.Keys == after.Keys == links.Keys
      requires |now| == |known| + 1 && known <= now
      requires Sent(before, after, now[|known|].dest, Print(Put, now[|known|].frame))
      ensures SentLast(before, after, known, now)
    {
    }

    /** What a fetch leaves: a message to deliver, or a connection to come back to. */
    ghost predicate Fetched(conn: Connection, whole: bool, c: Core, p: Phase, s: Bytes)
      reads this, conn, conn.command, conn.socket`cursor
    {
      if whole then
        && conn.Usable() && conn.status == Connections.ForwardData && conn.fileName.Some?
        && Completes(c, conn.fd, p, s, State(), Ready(conn.fileName.value, conn.data))
      else
        conn.Valid() && Takes(c, conn.fd, p, s, State(), conn.Phase())
    }

    /** The RECIEVING_DATA block, for a size other than zero. */
    method FetchData(conn: Connection) returns (whole: bool)
      requires Valid() && conn.Usable() && conn.status == Connections.ReceivingData && conn.AtPayload()
      requires conn.fileSize > 0 && Alive(State(), conn.fd)
      modifies this`files, conn, conn.socket`cursor, conn.socket`readCalls
      ensures Valid() && conn.Usable() && old(conn.socket.cursor) <= conn.socket.cursor
      ensures Fetched(conn, whole, old(Opened(conn)),
                      Payload(old(conn.fileName.value), old(conn.fileSize), old(conn.data)),
                      conn.Consumed(old(conn.socket.cursor)))
      ensures old(conn.socket.Offers()) ==> old(conn.socket.cursor) < conn.socket.cursor
      ensures old(conn.socket.readCalls) < conn.socket.readCalls
      ensures (conn.socket.Failed() ==> !whole) && conn.status != Connections.Start
    {
      ghost var c, data := Opened(conn), conn.data;
      ghost var name, left := conn.fileName.value, conn.fileSize;
      AliveWithFiles(State(), c.files, conn.fd);
      ghost var took: Bytes;
      whole, took := DataStage(conn);
      if whole {
        PayloadFetched(conn, c, name, data, took);
      } else {
        PartFetched(conn, c, name, left, data, took);
      }
    }

    lemma PayloadFetched(conn: Connection, c: Core, name: Bytes, data: Bytes, s: Bytes)
      requires conn.Usable() && conn.status == Connections.ForwardData && conn.fileName == Some(name)
      requires Alive(c, conn.fd) && s != [] && conn.data == data + s
      requires State() == StoreBlock(c, name, |data|, s)
      ensures Fetched(conn, true, c, Payload(name, |s|, data), s)
    {
      PayloadCompletes(c, conn.fd, name, data, s);
    }

    lemma PartFetched(conn: Connection, c: Core, name: Bytes, left: nat, data: Bytes, s: Bytes)
      requires conn.Valid() && conn.status == Connections.ReceivingData && conn.fileName == Some(name)
      requires Alive(c, conn.fd) && |s| < left && conn.fileSize == left - |s| && conn.data == data + s
      requires State() == StoreBlock(c, name, |data|, s)
      ensures Fetched(conn, false, c, Payload(name, left, data), s)
    {
      var d, q := State(), conn.Phase();
      assert q == Payload(name, left - |s|, data + s);
      PartOfPayloadTakes(c, conn.fd, name, left, data, s);
      assert Takes(c, conn.fd, Payload(name, left, data), s, d, q);
    }

    /** The RECIEVING_DATA block for a size of zero. */
    method FetchNothing(conn: Connection)
      requires Valid() && conn.Usable() && conn.status == Connections.ReceivingData && conn.AtPayload()
      requires conn.fileSize == 0 && conn.data == [] && !conn.isOpen
      modifies this`files, conn, conn.socket`cursor, conn.socket`readCalls
      ensures Valid() && conn.Usable() && conn.socket.cursor == old(conn.socket.cursor)
      ensures conn.status == Connections.ForwardData && conn.fileName == old(conn.fileName) && conn.data == []
      ensures State() == Truncate(old(State()), old(conn.fileName.value))
      ensures conn.socket.readCalls == old(conn.socket.readCalls)
    {
      var _, took := DataStage(conn);
      assert took == [];
    }

    /** From the NEED_SIZE block on. */
    method FetchSize(conn: Connection) returns (whole: bool)
      requires Valid() && conn.Valid() && conn.status == Connections.NeedSize && Alive(State(), conn.fd)
      modifies this`workers, this`interface, this`files
      modifies conn, conn.socket`cursor, conn.socket`readCalls
      ensures Valid() && conn.Usable() && old(conn.socket.cursor) <= conn.socket.cursor
      ensures Fetched(conn, whole, old(State()), old(conn.Phase()), conn.Consumed(old(conn.socket.cursor)))
      ensures old(conn.socket.Offers()) ==> old(conn.socket.cursor) < conn.socket.cursor
      ensures old(conn.socket.readCalls) < conn.socket.readCalls
      ensures (conn.socket.Failed() ==> !whole) && conn.status != Connections.Start
    {
      ghost var c, name, got, from := State(), conn.fileName.value, conn.got, conn.socket.cursor;
      var done, took := SizeStage(conn);
      if !done {
        PartOfSizeTakes(c, conn.fd, name, got, took);
        return false;
      } else if conn.fileSize == 0 {
        FetchNothing(conn);
        EmptySizeCompletes(c, conn.fd, name, got, took);
        return true;
      }
      SizeTakes(c, conn.fd, name, got, took);
      whole := FetchRest(conn, c, Size(name, got), took, from);
    }

    /** The RECIEVING_DATA block after bytes `s` were taken from position `from` on. */
    method FetchRest(conn: Connection, ghost c: Core, ghost p: Phase, ghost s: Bytes, ghost from: nat)
      returns (whole: bool)
      requires Valid() && conn.Usable() && conn.status == Connections.ReceivingData && conn.AtPayload()
      requires conn.fileSize > 0 && Alive(State(), conn.fd)
      requires from <= conn.socket.cursor && s == conn.Consumed(from)
      requires Takes(c, conn.fd, p, s, Opened(conn), Payload(conn.fileName.value, conn.fileSize, conn.data))
      modifies this`files, conn, conn.socket`cursor, conn.socket`readCalls
      ensures Valid() && conn.Usable() && old(conn.socket.cursor) <= conn.socket.cursor
      ensures Fetched(conn, whole, c, p, conn.Consumed(from))
      ensures old(conn.socket.readCalls) < conn.socket.readCalls
      ensures (conn.socket.Failed() ==> !whole) && conn.status != Connections.Start
    {
      ghost var at, start := conn.socket.cursor, Opened(conn);
      ghost var q := Payload(conn.fileName.value, conn.fileSize, conn.data);
      whole := FetchData(conn);
      Joined(conn.socket.input, from, at, conn.socket.cursor);
      ThenFetched(conn, whole, c, p, s, start, q, conn.Consumed(at));
    }

    /** A fetch that goes on after some bytes were taken. */
    lemma ThenFetched(conn: Connection, whole: bool, c: Core, p: Phase, s: Bytes, d: Core, q: Phase, t: Bytes)
      requires Takes(c, conn.fd, p, s, d, q) && Fetched(conn, whole, d, q, t)
      ensures Fetched(conn, whole, c, p, s + t)
    {
      if whole {
        TakesThenCompletes(c, conn.fd, p, s, d, q, t, State(), Ready(conn.fileName.value, conn.data));
      } else {
        TakesTwice(c, conn.fd, p, s, d, q, t, State(), conn.Phase());
      }
    }

    /** From the NEED_SIZE block on after bytes `s` were taken from position `from` on. */
    method FetchSizeAfter(conn: Connection, ghost c: Core, ghost p: Phase, ghost s: Bytes, ghost from: nat)
      returns (whole: bool)
      requires Valid() && conn.Valid() && conn.status == Connections.NeedSize && Alive(State(), conn.fd)
      requires from <= conn.socket.cursor && s == conn.Consumed(from)
      requires Takes(c, conn.fd, p, s, State(), conn.Phase())
      modifies this`workers, this`interface, this`files
      modifies conn, conn.socket`cursor, conn.socket`readCalls
      ensures Valid() && conn.Usable() && old(conn.socket.cursor) <= conn.socket.cursor
      ensures Fetched(conn, whole, c, p, conn.Consumed(from))
      ensures old(conn.socket.readCalls) < conn.socket.readCalls
      ensures (conn.socket.Failed() ==> !whole) && conn.status != Connections.Start
    {
      ghost var at, d, q := conn.socket.cursor, State(), conn.Phase();
      whole := FetchSize(conn);
      Joined(conn.socket.input, from, at, conn.socket.cursor);
      ThenFetched(conn, whole, c, p, s, d, q, conn.Consumed(at));
    }

    lemma HeaderLeadsOn(conn: Connection, c: Core, p: Phase, s: Bytes, took: Bytes, failed: bool)
      requires p.Header? && Roles(c) && Alive(c, conn.fd) && conn.fd >= 0
      requires HeaderTaken(conn, c, p, s, took, failed) && conn.status == Connections.NeedSize
      ensures Alive(State(), conn.fd) && Takes(c, conn.fd, p, s, State(), conn.Phase())
    {
      AliveAfterHeader(c, conn.fd, p.line + took);
      HeaderTakes(c, conn.fd, p.line, took, State(), conn.Phase());
    }

    /** What a call comes to once its reading blocks are done. */
    ghost predicate Called(conn: Connection, whole: bool, call: (Core, Phase))
      reads this, conn, conn.command, conn.socket`cursor
    {
      if whole then
        && conn.Usable() && conn.status == Connections.ForwardData && conn.fileName.Some?
        && call == Deliver(State(), conn.fd, Ready(conn.fileName.value, conn.data))
      else
        conn.Valid() && call == (State(), conn.Phase())
    }

    lemma CallFetched(conn: Connection, whole: bool, c: Core, p: Phase, s: Bytes)
      requires Fetched(conn, whole, c, p, s) && Alive(c, conn.fd) && !p.Overrun? && !p.Ready?
      ensures Called(conn, whole, HandleData(c, conn.fd, p, s, false))
    {
      if whole {
        CallCompletes(c, conn.fd, p, s, State(), Ready(conn.fileName.value, conn.data));
      } else {
        CallTakes(c, conn.fd, p, s, State(), conn.Phase());
      }
    }

    lemma CallEnded(conn: Connection, c: Core, p: Phase, s: Bytes, took: Bytes, failed: bool)
      requires p.Header? && HeaderTaken(conn, c, p, s, took, failed) && conn.status != Connections.NeedSize
      ensures Called(conn, false, HandleData(c, conn.fd, p, s, failed))
    {
    }

    /** From the START block on. */
    method FetchStart(conn: Connection) returns (whole: bool, ghost failed: bool)
      requires Valid() && conn.Valid() && conn.status == Connections.Start && Alive(State(), conn.fd) && conn.fd >= 0
      modifies this`workers, this`interface, this`interfaceFd, this`retired, this`files
      modifies conn, conn.command, conn.socket`cursor, conn.socket`readCalls
      ensures Valid() && conn.Usable() && old(conn.socket.cursor) <= conn.socket.cursor
      ensures Called(conn, whole, HandleData(old(State()), conn.fd, old(conn.Phase()),
                                             conn.Consumed(old(conn.socket.cursor)), failed))
      ensures old(conn.socket.Offers()) ==> old(conn.socket.cursor) < conn.socket.cursor
      ensures old(conn.socket.readCalls) < conn.socket.readCalls
      ensures failed <==> conn.socket.Failed() && conn.status == Connections.Start
      ensures conn.socket.Failed() ==> !whole
    {
      ghost var c, p, from := State(), conn.Phase(), conn.socket.cursor;
      ghost var took: Bytes;
      failed, took := HeaderStage(conn);
      ghost var s := conn.Consumed(from);
      whole := false;
      if conn.status == Connections.NeedSize {
        HeaderLeadsOn(conn, c, p, s, took, failed);
        whole := FetchSizeAfter(conn, c, p, s, from);
        failed := false;
        CallFetched(conn, whole, c, p, conn.Consumed(from));
      } else {
        CallEnded(conn, c, p, s, took, failed);
      }
    }

    /** The blocks up to RECIEVING_DATA, whichever the connection is at. */
    method Fetch(conn: Connection) returns (whole: bool, ghost failed: bool)
      requires Valid() && conn.Valid() && Alive(State(), conn.fd) && conn.fd >= 0
      requires conn.status != Connections.ForwardData
      modifies this`workers, this`interface, this`interfaceFd, this`retired, this`files
      modifies conn, conn.command, conn.socket`cursor, conn.socket`readCalls
      ensures Valid() && conn.Usable() && old(conn.socket.cursor) <= conn.socket.cursor
      ensures Called(conn, whole, HandleData(old(State()), conn.fd, old(conn.Phase()),
                                             conn.Consumed(old(conn.socket.cursor)), failed))
      ensures old(conn.status) != Connections.Overran ==>
        && old(conn.socket.readCalls) < conn.socket.readCalls
        && (old(conn.socket.Offers()) ==> old(conn.socket.cursor) < conn.socket.cursor)
        && (failed <==> conn.socket.Failed() && conn.status == Connections.Start)
        && (conn.socket.Failed() ==> !whole)
      ensures old(conn.status) == Connections.Overran ==>
        !whole && !failed && conn.status == Connections.Overran
    {
      ghost var c, p, from := State(), conn.Phase(), conn.socket.cursor;
      whole, failed := false, false;
      if conn.status == Connections.Start {
        whole, failed := FetchStart(conn);
      } else if conn.status == Connections.NeedSize {
        whole := FetchSize(conn);
        CallFetched(conn, whole, c, p, conn.Consumed(from));
      } else if conn.status == Connections.ReceivingData {
        whole := FetchData(conn);
        CallFetched(conn, whole, c, p, conn.Consumed(from));
      }
    }

    /** The connection is at a block that reads. */
    ghost predicate AtRead(conn: Connection)
      reads conn`status
    {
      conn.status != Connections.ForwardData && conn.status != Connections.Overran
    }

    /**
     handle_data for an event on a connection.  Whatever pieces its bytes come in, the master
     and the connection end where the bytes consumed take them one by one; a dead connection is
     not read; at most one message is passed on, byte for byte as printed, and then nothing past
     its end has been read.  `failed` is determined: the call ended on a read of the header that
     found the peer gone or the connection broken.  A call at a reading block reads, and makes
     progress when there is something to read.
     */
    method HandleEvent(conn: Connection) returns (ghost failed: bool)
      requires Valid() && AllRouted(State()) && conn.Valid() && conn.fd >= 0
      modifies this`workers, this`pending, this`interface, this`interfaceFd, this`nextTask, this`files
      modifies this`submitted, this`completed, this`forwards, this`retired
      modifies conn, conn.command, conn.socket`cursor, conn.socket`readCalls
      modifies Outs()`output, Outs()`writeCalls
      ensures Valid() && AllRouted(State()) && conn.Valid() && old(conn.socket.cursor) <= conn.socket.cursor
      ensures (State(), conn.Phase())
           == HandleData(old(State()), conn.fd, old(conn.Phase()), conn.Consumed(old(conn.socket.cursor)), failed)
      ensures !Alive(old(State()), conn.fd) ==> conn.socket.cursor == old(conn.socket.cursor)
      ensures SentLast(old(Outputs()), Outputs(), old(forwards), forwards)
      ensures forwards != old(forwards) ==> conn.Phase() == FRESH
      ensures failed <==>
        Alive(old(State()), conn.fd) && old(AtRead(conn)) && conn.socket.Failed() && conn.status == Connections.Start
      ensures Alive(old(State()), conn.fd) && old(AtRead(conn)) ==>
        && old(conn.socket.readCalls) < conn.socket.readCalls
        && (old(conn.socket.Offers()) ==> old(conn.socket.cursor) < conn.socket.cursor)
    {
      failed := false;
      var record := Lookup(conn.fd);
      if record.None? || !record.value.alive {
        return;
      }
      if conn.status == Connections.ForwardData {
        ForwardStage(conn);
      } else {
        failed := FetchAndForward(conn);
      }
    }

    method FetchAndForward(conn: Connection) returns (ghost failed: bool)
      requires Valid() && AllRouted(State()) && conn.Valid() && conn.fd >= 0
      requires Alive(State(), conn.fd) && conn.status != Connections.ForwardData
      modifies this`workers, this`pending, this`interface, this`interfaceFd, this`nextTask, this`files
      modifies this`submitted, this`completed, this`forwards, this`retired
      modifies conn, conn.command, conn.socket`cursor, conn.socket`readCalls
      modifies Outs()`output, Outs()`writeCalls
      ensures Valid() && AllRouted(State()) && conn.Valid() && old(conn.socket.cursor) <= conn.socket.cursor
      ensures (State(), conn.Phase())
           == HandleData(old(State()), conn.fd, old(conn.Phase()), conn.Consumed(old(conn.socket.cursor)), failed)
      ensures SentLast(old(Outputs()), Outputs(), old(forwards), forwards)
      ensures forwards != old(forwards) ==> conn.Phase() == FRESH
      ensures failed <==> old(AtRead(conn)) && conn.socket.Failed() && conn.status == Connections.Start
      ensures old(AtRead(conn)) ==> old(conn.socket.readCalls) < conn.socket.readCalls
      ensures old(AtRead(conn) && conn.socket.Offers()) ==> old(conn.socket.cursor) < conn.socket.cursor
    {
      ghost var c, p, from := State(), conn.Phase(), conn.socket.cursor;
      var whole: bool;
      whole, failed := Fetch(conn);
      ghost var call := HandleData(c, conn.fd, p, conn.Consumed(from), failed);
      if whole {
        ForwardStage(conn);
        assert (State(), conn.Phase()) == call;
      }
    }
  }

  lemma AliveAfterHeader(c: Core, fd: int, line: Bytes)
    requires Roles(c) && Alive(c, fd) && fd >= 0 && ParseHeader(line).Some?
    ensures Alive(AfterHeader(c, fd, line).0, fd) && AfterHeader(c, fd, line).0.forwards == c.forwards
  {
    if c.ifaceFd == -1 {
      Isolation.AliveAfterAdopt(c, fd, fd);
    }
  }
}
