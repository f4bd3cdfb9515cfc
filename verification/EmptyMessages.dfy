/**
 What an announced size of zero does to a connection of the master.  handle_data marks the
 sender dead and goes on: an interface's job is still submitted, but it will never be listened
 to again; a worker's result waits until a heartbeat revives the worker, and is then passed on.
 */
module EmptyMessages {
  import opened Options
  import opened WireFormat
  import opened FrameParser
  import opened Scheduling
  import opened Recovery
  import opened MasterModel
  import opened MasterInvariants
  import opened MasterSteps
  import opened Surveillance
  import Isolation
  import Relay

  /** The bytes of an empty message. */
  function EmptyMessage(verb: Verb, name: Bytes): Bytes {
    Print(verb, Frame(name, []))
  }

  lemma PartsOfEmpty(c: Core, fd: int, line: Bytes, verb: Verb, name: Bytes, word: Bytes)
    requires Alive(c, fd) && NEWLINE !in line && |line| < COMMAND_BUF_SIZE
    requires ParseHeader(line) == Some((verb, name)) && (verb == InterfacePut ==> c.ifaceFd != -1)
    requires |word| == SIZE_BYTES && Decode(word) == 0
    ensures DigestAll(c, fd, FRESH, line + [NEWLINE] + word)
         == Deliver(Kill(Truncate(c, name), fd), fd, Ready(name, []))
  {
    assert [] + line == line && [] + word == word;
    HeaderTakes(c, fd, [], line, c, Size(name, []));
    Continue(c, fd, FRESH, line + [NEWLINE], c, Size(name, []), word);
    SizeEnds(c, fd, name, [], word);
  }

  lemma EmptyIsDelivered(c: Core, fd: int, verb: Verb, name: Bytes)
    requires Alive(c, fd) && GoodName(name) && |HeaderText(verb, name)| < COMMAND_BUF_SIZE
    requires verb == InterfacePut ==> c.ifaceFd != -1
    ensures DigestAll(c, fd, FRESH, EmptyMessage(verb, name))
         == Deliver(Kill(Truncate(c, name), fd), fd, Ready(name, []))
  {
    HeaderRoundTrip(verb, name);
    DecodeEncode(0, SIZE_BYTES);
    PartsOfEmpty(c, fd, HeaderText(verb, name), verb, name, EncodeSize(0));
    var text := HeaderText(verb, name) + [NEWLINE] + EncodeSize(0);
    assert text + [] == text;
  }

  /** Whatever follows on the connection is not looked at. */
  lemma RestIsIgnored(c: Core, fd: int, s: Bytes, rest: Bytes)
    requires !Alive(DigestAll(c, fd, FRESH, s).0, fd) && Alive(c, fd)
    ensures HandleData(c, fd, FRESH, s + rest, false) == DigestAll(c, fd, FRESH, s)
  {
    var (d, q) := DigestAll(c, fd, FRESH, s);
    DigestInTwo(c, fd, FRESH, s, rest);
    Relay.DeafDigest(d, fd, q, rest);
  }

  lemma KilledIsDead(c: Core, fd: int, name: Bytes)
    requires Roles(c) && Alive(c, fd)
    ensures var d := Kill(Truncate(c, name), fd);
      Roles(d) && !Alive(d, fd) && d.ifaceFd == c.ifaceFd && d.forwards == c.forwards && d.submitted == c.submitted
  {
    var d := Truncate(c, name);
    AliveWithFiles(c, d.files, fd);
    assert Roles(d);
    Isolation.AliveAfterMark(d, fd, false, Current(d, fd).value.beat, fd);
    KillKeepsRoles(d, fd);
  }

  // ---------------------------------------------------------------------------
  // From a worker
  // ---------------------------------------------------------------------------

  /** Worker fd is held dead with an empty message of the given name waiting. */
  ghost predicate Muted(m: Master, fd: int, name: Bytes) {
    && Serving(m.core.ledger.workers, fd) && !Alive(m.core, fd)
    && fd in m.phases && m.phases[fd] == Ready(name, [])
  }

  /** An empty message from a worker is not passed on, and nothing after it is looked at. */
  lemma EmptyMutesWorker(m: Master, fd: int, verb: Verb, name: Bytes, rest: Bytes)
    requires Routing(m) && fd in m.phases && m.phases[fd] == FRESH && fd != m.core.ifaceFd
    requires Serving(m.core.ledger.workers, fd) && Alive(m.core, fd)
    requires GoodName(name) && |HeaderText(verb, name)| < COMMAND_BUF_SIZE
    requires verb == InterfacePut ==> m.core.ifaceFd != -1
    ensures var n := Apply(m, Data(fd, EmptyMessage(verb, name) + rest, false));
      n.Some? && Muted(n.value, fd, name) && n.value.core.forwards == m.core.forwards
  {
    var c := m.core;
    var d := Kill(Truncate(c, name), fd);
    EmptyIsDelivered(c, fd, verb, name);
    KilledIsDead(c, fd, name);
    RestIsIgnored(c, fd, EmptyMessage(verb, name), rest);
    Isolation.MarkedWorkers(Truncate(c, name), fd, false, Current(Truncate(c, name), fd).value.beat, fd);
  }

  /** A dead worker that stays one is dead until a beat reaches it. */
  lemma DeadUntilBeat(m: Master, e: Event, n: Master, fd: int)
    requires Routing(m) && Leads(m, e, n) && !Reaching(m, e, fd)
    requires Serving(m.core.ledger.workers, fd) && Serving(n.core.ledger.workers, fd)
    requires !WatchOf(m.core.ledger.workers, fd).alive
    ensures !WatchOf(n.core.ledger.workers, fd).alive
  {
    var l := m.core.ledger;
    match e
    case Accept(g, ip) => AcceptSeen(l.workers, NewNode(g, ip), fd);
    case Beat(ip, cpu, now) => BeatSeen(l, ip, cpu, now, fd);
    case Scan(now) => ScanSeen(l, now, fd);
    case Redistribute(now) => RedistributionSeen(l, now, fd);
    case Data(g, s, failed) => HandleDataFades(m.core, g, m.phases[g], s, failed, fd);
    case Recover => RecoverySeen(l, fd);
  }

  /** Deaf until a beat: no other event changes where the connection stands, and its data change nothing at all. */
  lemma MutedUntilBeat(m: Master, e: Event, n: Master, fd: int, name: Bytes)
    requires Routing(m) && Muted(m, fd, name) && Leads(m, e, n) && !Reaching(m, e, fd)
    requires Serving(n.core.ledger.workers, fd)
    ensures Muted(n, fd, name)
    ensures e.Data? && e.fd == fd ==> n == m
  {
    DeadUntilBeat(m, e, n, fd);
    if e.Data? && e.fd == fd {
      assert m.phases[fd := m.phases[fd]] == m.phases;
    }
  }

  /** The same over whole runs. */
  lemma {:induction false} MutedThroughout(states: seq<Master>, events: seq<Event>, fd: int, name: Bytes, k: nat)
    requires Trace(states, events) && Routing(states[0]) && ServesThroughout(states, fd) && k <= |events|
    requires Muted(states[0], fd, name)
    requires forall i :: 0 <= i < k ==> !Reaching(states[i], events[i], fd)
    ensures Routing(states[k]) && Muted(states[k], fd, name)
  {
    if k > 0 {
      MutedThroughout(states, events, fd, name, k - 1);
      assert LeadsAt(states, events, k - 1);
      NextIsRouted(states[k - 1], events[k - 1], states[k]);
      MutedUntilBeat(states[k - 1], events[k - 1], states[k], fd, name);
    }
  }

  /**
   A beat that reaches the worker revives it, and the next event on its connection, whatever it
   brings, passes the waiting message on as the answer it is and makes the parser fresh.
   */
  lemma BeatDelivers(m: Master, fd: int, name: Bytes, ip: Bytes, cpu: real, now: real, s: Bytes, failed: bool)
    requires Routing(m) && Muted(m, fd, name) && fd != m.core.ifaceFd
    requires Reaching(m, Beat(ip, cpu, now), fd)
    ensures var n := Apply(m, Beat(ip, cpu, now)).value;
      && Alive(n.core, fd) && n.phases == m.phases
      && var o := Apply(n, Data(fd, s, failed));
      && o.Some? && o.value.phases[fd] == FRESH && Alive(o.value.core, fd)
      && o.value.core.forwards == m.core.forwards
           + [Forward(fd, m.core.ifaceFd, m.core.ifaceFd, Frame(name, Content(m.core.files, name)))]
      && Relay.AnswersTaken(n.core, fd, [name], o.value.core)
  {
    var n := Apply(m, Beat(ip, cpu, now)).value;
    BeatSeen(m.core.ledger, ip, cpu, now, fd);
    StepKeepsRouting(m, Beat(ip, cpu, now));
    Isolation.AnswerSeenFrom(n.core, fd, name, fd);
    ForgetKeepsForwards(AnswerJob(n.core, fd, name), fd);
    Relay.LiveWorkerIsListed(n.core, fd);
    Relay.AnswerTakes(n.core, fd, name);
  }

  lemma ForgetKeepsForwards(c: Core, fd: int)
    ensures ForgetBeat(c, fd).forwards == c.forwards && ForgetBeat(c, fd).submitted == c.submitted
    ensures ForgetBeat(c, fd).ifaceFd == c.ifaceFd
  {
  }

  // ---------------------------------------------------------------------------
  // From the interface
  // ---------------------------------------------------------------------------

  /** The interface is held dead and keeps its role. */
  ghost predicate Stuck(m: Master, fd: int) {
    m.core.ifaceFd == fd && fd >= 0 && fd in m.phases && !Alive(m.core, fd)
  }

  lemma SubmittedAtOnce(d: Core, fd: int, name: Bytes)
    requires Roles(d) && AllRouted(d) && fd == d.ifaceFd >= 0
    ensures var e := ForgetBeat(SubmitJob(d, fd, name), fd);
      && e.ifaceFd == fd && Alive(e, fd) == Alive(d, fd)
      && e.submitted == d.submitted + [Task(|d.submitted|, name)]
      && e.ledger == Schedule(d.ledger, Task(|d.submitted|, name))
      && e.forwards == d.forwards + [Forward(fd, ChosenFd(d.ledger), fd, Frame(name, Content(d.files, name)))]
  {
    Isolation.SubmitSeenFrom(d, fd, name, fd);
    SubmitKeepsRoles(d, name);
    Relay.ForgetKeepsLedger(SubmitJob(d, fd, name), fd);
  }

  /** Marking the interface dead leaves the ledger and the file just opened as they are. */
  lemma KillOfInterface(c: Core, fd: int, name: Bytes)
    requires Roles(c) && fd == c.ifaceFd >= 0
    ensures var d := Kill(Truncate(c, name), fd); d.ledger == c.ledger && Content(d.files, name) == []
  {
  }

  /** An empty message from the interface is submitted at once, and nothing after it is looked at. */
  lemma EmptyFromInterface(m: Master, fd: int, verb: Verb, name: Bytes, rest: Bytes)
    requires Routing(m) && fd in m.phases && m.phases[fd] == FRESH && fd == m.core.ifaceFd && Alive(m.core, fd)
    requires GoodName(name) && |HeaderText(verb, name)| < COMMAND_BUF_SIZE
    ensures var n := Apply(m, Data(fd, EmptyMessage(verb, name) + rest, false));
      && n.Some? && Stuck(n.value, fd) && n.value.phases[fd] == FRESH
      && n.value.core.submitted == m.core.submitted + [Task(|m.core.submitted|, name)]
      && n.value.core.ledger == Schedule(m.core.ledger, Task(|m.core.submitted|, name))
      && n.value.core.forwards == m.core.forwards + [Forward(fd, ChosenFd(m.core.ledger), fd, Frame(name, []))]
  {
    var c := m.core;
    var d := Kill(Truncate(c, name), fd);
    EmptyIsDelivered(c, fd, verb, name);
    KilledIsDead(c, fd, name);
    KillOfInterface(c, fd, name);
    assert AllRouted(d);
    SubmittedAtOnce(d, fd, name);
    RestIsIgnored(c, fd, EmptyMessage(verb, name), rest);
  }

  /** The role of the interface and its jobs are as they were. */
  predicate SameRole(c: Core, d: Core) {
    d.ifaceFd == c.ifaceFd && d.submitted == c.submitted
  }

  lemma DeliverOfOthers(c: Core, g: int, p: Phase)
    requires g != c.ifaceFd && p.Ready?
    ensures SameRole(c, Deliver(c, g, p).0)
  {
    ForgetKeepsForwards(AnswerJob(c, g, p.name), g);
  }

  lemma KillKeepsRole(c: Core, g: int)
    ensures SameRole(c, Kill(c, g))
  {
  }

  /** While there is an interface, what other connections send leaves its role and its jobs alone. */
  lemma DigestOfOthers(c: Core, g: int, p: Phase, b: byte)
    requires c.ifaceFd != -1 && g != c.ifaceFd
    ensures SameRole(c, Digest(c, g, p, b).0)
  {
    if Alive(c, g) && !p.Overrun? && !p.Ready? {
      var (q, signal) := Advance(p, b);
      if signal == Malformed {
        KillKeepsRole(c, g);
      } else if signal == Empty {
        KillKeepsRole(Truncate(c, q.name), g);
        DeliverOfOthers(Kill(Truncate(c, q.name), g), g, q);
      } else if signal == Written && q.Ready? {
        DeliverOfOthers(Store(c, p.name, |p.data|, [b]), g, q);
      }
    }
  }

  lemma {:induction false} DigestAllOfOthers(c: Core, g: int, p: Phase, s: Bytes, fd: int)
    requires Roles(c) && AllRouted(c) && g >= 0 && fd == c.ifaceFd >= 0 && g != fd
    ensures var d := DigestAll(c, g, p, s).0;
      d.ifaceFd == fd && d.submitted == c.submitted && Alive(d, fd) == Alive(c, fd)
    decreases |s|
  {
    if s != [] {
      var (d, q) := Digest(c, g, p, s[0]);
      DigestOfOthers(c, g, p, s[0]);
      DigestKeepsRoles(c, g, p, s[0]);
      Isolation.DigestFrame(c, g, p, s[0], fd);
      DigestAllOfOthers(d, g, q, s[1..], fd);
    }
  }

  lemma HandleDataOfOthers(c: Core, g: int, p: Phase, s: Bytes, failed: bool, fd: int)
    requires Roles(c) && AllRouted(c) && g >= 0 && fd == c.ifaceFd >= 0 && g != fd
    ensures var d := HandleData(c, g, p, s, failed).0;
      d.ifaceFd == fd && d.submitted == c.submitted && Alive(d, fd) == Alive(c, fd)
  {
    if Alive(c, g) && !p.Overrun? {
      if p.Ready? {
        Isolation.DeliverElsewhere(c, g, p, fd);
      } else {
        DigestAllOfOthers(c, g, p, s, fd);
        DigestAllKeepsRoles(c, g, p, s);
        Isolation.AliveAfterHeaderFail(DigestAll(c, g, p, s).0, g, fd);
      }
    }
  }

  /** No event revives a dead interface, replaces it, or gets another job submitted. */
  lemma StepKeepsStuck(m: Master, e: Event, fd: int)
    requires Routing(m) && Stuck(m, fd) && Possible(m, e) && Apply(m, e).Some?
    ensures Stuck(Apply(m, e).value, fd) && Apply(m, e).value.core.submitted == m.core.submitted
    ensures Apply(m, e).value.phases[fd] == m.phases[fd]
  {
    StepKeepsRouting(m, e);
    if e.Data? && e.fd != fd {
      HandleDataOfOthers(m.core, e.fd, m.phases[e.fd], e.bytes, e.failed, fd);
    }
  }

  /**
   After an empty message from the interface the master never accepts another job, from it or
   from any other connection, in any run whatever.
   */
  lemma {:induction false} InterfaceIsStuckForGood(m: Master, events: seq<Event>, n: Master, fd: int)
    requires Routing(m) && Stuck(m, fd) && Reaches(m, events, n)
    ensures Stuck(n, fd) && n.core.submitted == m.core.submitted && n.phases[fd] == m.phases[fd]
    decreases |events|
  {
    if events != [] {
      StepKeepsRouting(m, events[0]);
      StepKeepsStuck(m, events[0], fd);
      InterfaceIsStuckForGood(Apply(m, events[0]).value, events[1..], n, fd);
    }
  }
}
