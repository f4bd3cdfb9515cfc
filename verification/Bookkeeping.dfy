/**
 Where handle_data finds the record of a connection.  An event on a descriptor that is not a
 worker's is taken to be the interface's; these lemmas show that it is, as long as no recovery
 pass has erased a worker whose socket is still open.
 */
module Bookkeeping {
  import opened Options
  import opened WireFormat
  import opened FrameParser
  import opened Scheduling
  import opened Recovery
  import opened MasterModel
  import opened MasterInvariants
  import Isolation

  /** The connection is a worker's, the interface's, or a former interface's, which has been closed. */
  predicate Known(c: Core, fd: int) {
    FindWorker(c.ledger.workers, fd).Some? || IsIface(c, fd) || FindWorker(c.retired, fd).Some?
  }

  ghost predicate StaysKnown(c: Core, d: Core, fd: int) {
    Known(c, fd) ==> Known(d, fd)
  }

  lemma LedgerStaysKnown(c: Core, d: Core, fd: int)
    requires SameFds(c.ledger.workers, d.ledger.workers) && d.iface == c.iface && d.retired == c.retired
    ensures StaysKnown(c, d, fd)
  {
    SameFdsFound(c.ledger.workers, d.ledger.workers, fd);
  }

  lemma MarkStaysKnown(c: Core, g: int, alive: bool, beat: real, fd: int)
    ensures StaysKnown(c, Mark(c, g, alive, beat), fd)
  {
    if FindWorker(c.ledger.workers, g).Some? {
      Isolation.MarkedWorkers(c, g, alive, beat, fd);
    }
  }

  lemma KillStaysKnown(c: Core, g: int, fd: int)
    ensures StaysKnown(c, Kill(c, g), fd)
  {
    if Current(c, g).Some? {
      MarkStaysKnown(c, g, false, Current(c, g).value.beat, fd);
    }
  }

  lemma ForgetStaysKnown(c: Core, g: int, fd: int)
    ensures StaysKnown(c, ForgetBeat(c, g), fd)
  {
    if Current(c, g).Some? {
      MarkStaysKnown(c, g, Current(c, g).value.alive, 0.0, fd);
    }
  }

  lemma FoundInLonger(nodes: seq<Node>, n: Node, fd: int)
    ensures FindWorker(nodes + [n], fd).Some? <==> FindWorker(nodes, fd).Some? || n.fd == fd
  {
    assert (nodes + [n])[..|nodes|] == nodes;
  }

  lemma AdoptStaysKnown(c: Core, g: int, fd: int)
    requires Roles(c)
    ensures StaysKnown(c, Adopt(c, g), fd)
  {
    if FindWorker(c.ledger.workers, g).Some? {
      var w := FindWorker(c.ledger.workers, g).value;
      if fd != g {
        Isolation.FoundWithout(c.ledger.workers, w, fd);
      }
      if c.iface.Some? {
        FoundInLonger(c.retired, c.iface.value, fd);
      } else {
        assert c.retired + [] == c.retired;
      }
    }
  }

  lemma DeliverStaysKnown(c: Core, g: int, p: Phase, fd: int)
    requires p.Ready?
    ensures StaysKnown(c, Deliver(c, g, p).0, fd)
  {
    if g == c.ifaceFd {
      var t := Task(|c.submitted|, p.name);
      ScheduleGrows(c.ledger, t);
      GrewSameFds(c.ledger.workers, Schedule(c.ledger, t).workers);
      LedgerStaysKnown(c, SubmitJob(c, g, p.name), fd);
      ForgetStaysKnown(SubmitJob(c, g, p.name), g, fd);
    } else if Alive(c, g) {
      RemoveSameFds(c.ledger, g, p.name);
      LedgerStaysKnown(c, AnswerJob(c, g, p.name), fd);
      ForgetStaysKnown(AnswerJob(c, g, p.name), g, fd);
    }
  }

  lemma DigestStaysKnown(c: Core, g: int, p: Phase, b: byte, fd: int)
    requires Roles(c)
    ensures StaysKnown(c, Digest(c, g, p, b).0, fd)
  {
    if Alive(c, g) && !p.Overrun? && !p.Ready? {
      var (q, signal) := Advance(p, b);
      match signal
      case Quiet =>
      case Opened =>
      case Malformed => KillStaysKnown(c, g, fd);
      case Named(_) => AdoptStaysKnown(c, g, fd);
      case Empty =>
        KillStaysKnown(Truncate(c, q.name), g, fd);
        DeliverStaysKnown(Kill(Truncate(c, q.name), g), g, q, fd);
      case Written =>
        if q.Ready? {
          DeliverStaysKnown(Store(c, p.name, |p.data|, [b]), g, q, fd);
        }
    }
  }

  lemma {:induction false} DigestAllStaysKnown(c: Core, g: int, p: Phase, s: Bytes, fd: int)
    requires Roles(c) && AllRouted(c) && g >= 0
    ensures StaysKnown(c, DigestAll(c, g, p, s).0, fd)
    decreases |s|
  {
    if s != [] {
      var (d, q) := Digest(c, g, p, s[0]);
      DigestKeepsRoles(c, g, p, s[0]);
      DigestStaysKnown(c, g, p, s[0], fd);
      DigestAllStaysKnown(d, g, q, s[1..], fd);
    }
  }

  lemma HandleDataStaysKnown(c: Core, g: int, p: Phase, s: Bytes, failed: bool, fd: int)
    requires Roles(c) && AllRouted(c) && g >= 0
    ensures StaysKnown(c, HandleData(c, g, p, s, failed).0, fd)
  {
    if Alive(c, g) && !p.Overrun? {
      if p.Ready? {
        DeliverStaysKnown(c, g, p, fd);
      } else {
        DigestAllStaysKnown(c, g, p, s, fd);
        KillStaysKnown(DigestAll(c, g, p, s).0, g, fd);
      }
    }
  }

  ghost predicate AllKnown(m: Master) {
    forall fd <- m.phases :: Known(m.core, fd)
  }

  lemma StepStaysKnown(m: Master, e: Event, fd: int)
    requires Routing(m) && Possible(m, e) && Apply(m, e).Some? && !e.Recover?
    ensures StaysKnown(m.core, Apply(m, e).value.core, fd)
    ensures e.Accept? ==> Known(Apply(m, e).value.core, e.fd)
    ensures Apply(m, e).value.phases.Keys == m.phases.Keys + if e.Accept? then {e.fd} else {}
  {
    match e
    case Accept(g, ip) =>
      FoundInLonger(m.core.ledger.workers, NewNode(g, ip), fd);
      FoundInLonger(m.core.ledger.workers, NewNode(g, ip), g);
    case Data(g, s, failed) => HandleDataStaysKnown(m.core, g, m.phases[g], s, failed, fd);
    case Beat(ip, cpu, now) => LedgerStaysKnown(m.core, Apply(m, e).value.core, fd);
    case Scan(now) =>
      ScanSameFds(m.core.ledger, 0, now);
      LedgerStaysKnown(m.core, Apply(m, e).value.core, fd);
    case Redistribute(now) =>
      IntendedSameFds(m.core.ledger, |m.core.ledger.workers|, now);
      LedgerStaysKnown(m.core, Apply(m, e).value.core, fd);
  }

  lemma StepKeepsAllKnown(m: Master, e: Event)
    requires Routing(m) && AllKnown(m) && Possible(m, e) && Apply(m, e).Some? && !e.Recover?
    ensures AllKnown(Apply(m, e).value)
  {
    var n := Apply(m, e).value;
    forall fd | fd in n.phases
      ensures Known(n.core, fd)
    {
      StepStaysKnown(m, e, fd);
    }
  }

  lemma {:induction false} KnownThroughout(m: Master, events: seq<Event>, n: Master)
    requires Routing(m) && AllKnown(m) && Reaches(m, events, n) && Recover !in events
    ensures AllKnown(n)
    decreases |events|
  {
    if events != [] {
      StepKeepsRouting(m, events[0]);
      StepKeepsAllKnown(m, events[0]);
      KnownThroughout(Apply(m, events[0]).value, events[1..], n);
    }
  }

  /**
   In every run without a recovery pass, the record handle_data works on for an event on a
   connection is that connection's own, unless it is an interface's that was closed and replaced.
   */
  lemma EventFindsItsRecord(events: seq<Event>, m: Master, fd: int)
    requires Reaches(START, events, m) && Recover !in events && fd in m.phases
    ensures FindWorker(m.core.retired, fd).None? ==> Current(m.core, fd).Some? && Current(m.core, fd).value.fd == fd
  {
    KnownThroughout(START, events, m);
    assert Known(m.core, fd);
  }

  lemma DeadIsNotLive(workers: seq<Node>, fd: int)
    requires FdsDistinct(workers) && FindWorker(workers, fd).Some?
    requires !workers[FindWorker(workers, fd).value].alive
    ensures FindWorker(LiveOnly(workers), fd).None?
  {
    var live := LiveOnly(workers);
    LiveAreWorkers(workers);
    forall j | 0 <= j < |live|
      ensures live[j].fd != fd
    {
      var i :| 0 <= i < |workers| && workers[i] == live[j];
    }
  }

  lemma DeadIsErased(l: Ledger, fd: int)
    requires FdsDistinct(l.workers) && FindWorker(l.workers, fd).Some?
    requires !l.workers[FindWorker(l.workers, fd).value].alive
    ensures FindWorker(CheckOnNodes(l).workers, fd).None?
  {
    var live, after := LiveOnly(l.workers), CheckOnNodes(l).workers;
    DeadIsNotLive(l.workers, fd);
    RecoveryPass(l, Task(0, []));
    GrewSameFds(live, after);
    SameFdsFound(live, after, fd);
  }

  /** It can fail after one: the pass erases a dead worker and leaves its socket open. */
  lemma PassLeavesStray(m: Master, fd: int)
    requires Routing(m) && fd in m.phases
    requires FindWorker(m.core.ledger.workers, fd).Some? && !Alive(m.core, fd) && !IsIface(m.core, fd)
    ensures fd in Apply(m, Recover).value.phases && Current(Apply(m, Recover).value.core, fd).None?
  {
    DeadIsErased(m.core.ledger, fd);
  }
}
