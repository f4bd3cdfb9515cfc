/**
 Two connections sending the same file name at once: a run of the master, from its start, in
 which what is passed on for one of them is not what it sent.
 */
module Interference {
  import opened Options
  import opened WireFormat
  import opened FrameParser
  import opened Scheduling
  import opened MasterModel
  import opened MasterInvariants
  import opened MasterSteps
  import Isolation

  /** The header and the size of a message. */
  function Announcement(name: Bytes, size: nat): Bytes {
    HeaderText(Put, name) + [NEWLINE] + EncodeSize(size)
  }

  lemma PartsAnnounce(c: Core, fd: int, line: Bytes, name: Bytes, word: Bytes)
    requires Alive(c, fd) && NEWLINE !in line && |line| < COMMAND_BUF_SIZE
    requires ParseHeader(line) == Some((Put, name)) && |word| == SIZE_BYTES && Decode(word) > 0
    ensures Takes(c, fd, FRESH, line + [NEWLINE] + word, Truncate(c, name), Payload(name, Decode(word), []))
  {
    assert [] + line == line && [] + word == word;
    HeaderTakes(c, fd, [], line, c, Size(name, []));
    SizeTakes(c, fd, name, [], word);
    TakesTwice(c, fd, FRESH, line + [NEWLINE], c, Size(name, []), word,
               Truncate(c, name), Payload(name, Decode(word), []));
  }

  /** Announcing a payload opens the file, and so empties it. */
  lemma AnnouncementTruncates(c: Core, fd: int, name: Bytes, size: nat)
    requires Alive(c, fd) && GoodName(name) && |HeaderText(Put, name)| < COMMAND_BUF_SIZE
    requires 0 < size < Radix(SIZE_BYTES)
    ensures Takes(c, fd, FRESH, Announcement(name, size), Truncate(c, name), Payload(name, size, []))
  {
    HeaderRoundTrip(Put, name);
    DecodeEncode(size, SIZE_BYTES);
    PartsAnnounce(c, fd, HeaderText(Put, name), name, EncodeSize(size));
  }

  lemma FirstByteStored(c: Core, fd: int, name: Bytes, x: byte)
    requires Alive(c, fd) && GoodName(name) && |HeaderText(Put, name)| < COMMAND_BUF_SIZE
    ensures HandleData(c, fd, FRESH, Announcement(name, 2) + [x], false)
         == (StoreBlock(Truncate(c, name), name, 0, [x]), Payload(name, 1, [x]))
  {
    AnnouncementTruncates(c, fd, name, 2);
    AliveWithFiles(c, Truncate(c, name).files, fd);
    Continue(c, fd, FRESH, Announcement(name, 2), Truncate(c, name), Payload(name, 2, []), [x]);
    PayloadStretch(Truncate(c, name), fd, name, 2, [], [x]);
    assert [] + [x] == [x];
  }

  lemma OtherTruncates(c: Core, fd: int, name: Bytes)
    requires Alive(c, fd) && GoodName(name) && |HeaderText(Put, name)| < COMMAND_BUF_SIZE
    ensures HandleData(c, fd, FRESH, Announcement(name, 2), false) == (Truncate(c, name), Payload(name, 2, []))
  {
    AnnouncementTruncates(c, fd, name, 2);
    CallTakes(c, fd, FRESH, Announcement(name, 2), Truncate(c, name), Payload(name, 2, []));
  }

  lemma SecondByteMisplaced(c: Core, fd: int, name: Bytes, x: byte, z: byte)
    requires Roles(c) && AllRouted(c) && Alive(c, fd) && fd >= 0 && fd != c.ifaceFd
    requires Content(c.files, name) == []
    ensures var (d, q) := HandleData(c, fd, Payload(name, 1, [x]), [z], false);
      q == FRESH && d.forwards == c.forwards + [Forward(fd, c.ifaceFd, c.ifaceFd, Frame(name, [0, z]))]
  {
    var d := StoreBlock(c, name, 1, [z]);
    assert [x] + [z] == [x, z];
    PayloadCompletes(c, fd, name, [x], [z]);
    CallCompletes(c, fd, Payload(name, 1, [x]), [z], d, Ready(name, [x, z]));
    assert WriteAt([], 1, [z]) == [0, z];
    AliveWithFiles(c, d.files, fd);
  }

  // ---------------------------------------------------------------------------
  // The run
  // ---------------------------------------------------------------------------

  /** Connections f and g as they stand, both alive, with nothing passed on and no interface. */
  ghost predicate Stage(m: Master, f: int, g: int, p: Phase, q: Phase) {
    && Routing(m) && f in m.phases && g in m.phases && m.phases[f] == p && m.phases[g] == q
    && Alive(m.core, f) && Alive(m.core, g) && m.core.ifaceFd == -1 && m.core.forwards == []
  }

  lemma FirstAccepted(f: int) returns (n: Master)
    requires f >= 0
    ensures Leads(START, Accept(f, []), n) && Routing(n) && n.phases == map[f := FRESH]
    ensures n.core == START.core.(ledger := Ledger([NewNode(f, [])], []))
  {
    n := Apply(START, Accept(f, [])).value;
    StepKeepsRouting(START, Accept(f, []));
    assert [] + [NewNode(f, [])] == [NewNode(f, [])];
  }

  lemma SecondAccepted(n: Master, f: int, g: int) returns (m: Master)
    requires f >= 0 && g >= 0 && f != g && Routing(n) && n.phases == map[f := FRESH]
    requires n.core == START.core.(ledger := Ledger([NewNode(f, [])], []))
    ensures Leads(n, Accept(g, []), m) && Stage(m, f, g, FRESH, FRESH)
  {
    m := Apply(n, Accept(g, [])).value;
    StepKeepsRouting(n, Accept(g, []));
    assert m.core.ledger.workers == [NewNode(f, []), NewNode(g, [])];
  }

  lemma Accepted(f: int, g: int) returns (m: Master)
    requires f >= 0 && g >= 0 && f != g
    ensures Reaches(START, [Accept(f, [])] + [Accept(g, [])], m) && Stage(m, f, g, FRESH, FRESH)
  {
    var n := FirstAccepted(f);
    m := SecondAccepted(n, f, g);
    OneMoreEvent(START, [], START, Accept(f, []), n);
    assert [] + [Accept(f, [])] == [Accept(f, [])];
    OneMoreEvent(START, [Accept(f, [])], n, Accept(g, []), m);
  }

  lemma FirstSends(m: Master, f: int, g: int, name: Bytes, x: byte) returns (n: Master)
    requires Stage(m, f, g, FRESH, FRESH) && f != g
    requires GoodName(name) && |HeaderText(Put, name)| < COMMAND_BUF_SIZE
    ensures Leads(m, Data(f, Announcement(name, 2) + [x], false), n) && Stage(n, f, g, Payload(name, 1, [x]), FRESH)
  {
    var e := Data(f, Announcement(name, 2) + [x], false);
    FirstByteStored(m.core, f, name, x);
    n := Apply(m, e).value;
    StepKeepsRouting(m, e);
    AliveWithFiles(m.core, n.core.files, f);
    AliveWithFiles(m.core, n.core.files, g);
  }

  lemma SecondAnnounces(m: Master, f: int, g: int, name: Bytes, p: Phase) returns (n: Master)
    requires Stage(m, f, g, p, FRESH) && f != g
    requires GoodName(name) && |HeaderText(Put, name)| < COMMAND_BUF_SIZE
    ensures Leads(m, Data(g, Announcement(name, 2), false), n) && Stage(n, f, g, p, Payload(name, 2, []))
    ensures Content(n.core.files, name) == []
  {
    var e := Data(g, Announcement(name, 2), false);
    OtherTruncates(m.core, g, name);
    n := Apply(m, e).value;
    StepKeepsRouting(m, e);
    AliveWithFiles(m.core, n.core.files, f);
    AliveWithFiles(m.core, n.core.files, g);
  }

  lemma FirstEnds(m: Master, f: int, g: int, name: Bytes, q: Phase, x: byte, z: byte) returns (n: Master)
    requires Stage(m, f, g, Payload(name, 1, [x]), q) && Content(m.core.files, name) == []
    ensures Leads(m, Data(f, [z], false), n)
    ensures n.core.forwards == [Forward(f, -1, -1, Frame(name, [0, z]))]
  {
    SecondByteMisplaced(m.core, f, name, x, z);
    assert [] + [Forward(f, -1, -1, Frame(name, [0, z]))] == [Forward(f, -1, -1, Frame(name, [0, z]))];
    n := Apply(m, Data(f, [z], false)).value;
  }

  lemma FourEvents(f: int, g: int, name: Bytes, x: byte) returns (events: seq<Event>, m: Master)
    requires f >= 0 && g >= 0 && f != g
    requires GoodName(name) && |HeaderText(Put, name)| < COMMAND_BUF_SIZE
    ensures events == [Accept(f, [])] + [Accept(g, [])] + [Data(f, Announcement(name, 2) + [x], false)]
                      + [Data(g, Announcement(name, 2), false)]
    ensures Reaches(START, events, m) && Content(m.core.files, name) == []
    ensures Stage(m, f, g, Payload(name, 1, [x]), Payload(name, 2, []))
  {
    var m2 := Accepted(f, g);
    events := [Accept(f, [])] + [Accept(g, [])];
    var m3 := FirstSends(m2, f, g, name, x);
    OneMoreEvent(START, events, m2, Data(f, Announcement(name, 2) + [x], false), m3);
    events := events + [Data(f, Announcement(name, 2) + [x], false)];
    m := SecondAnnounces(m3, f, g, name, Payload(name, 1, [x]));
    OneMoreEvent(START, events, m3, Data(g, Announcement(name, 2), false), m);
    events := events + [Data(g, Announcement(name, 2), false)];
  }

  /**
   Connection f announces two bytes and sends the first; g announces the same name, which
   empties the file; f sends its second byte, which lands behind a gap.  What is passed on for f
   begins with a zero in place of its first byte.
   */
  lemma SameNameInterferes(f: int, g: int, name: Bytes, x: byte, z: byte) returns (events: seq<Event>, m: Master)
    requires f >= 0 && g >= 0 && f != g && x != 0
    requires GoodName(name) && |HeaderText(Put, name)| < COMMAND_BUF_SIZE
    ensures events == [Accept(f, [])] + [Accept(g, [])] + [Data(f, Announcement(name, 2) + [x], false)]
                      + [Data(g, Announcement(name, 2), false)] + [Data(f, [z], false)]
    ensures Reaches(START, events, m)
    ensures m.core.forwards == [Forward(f, -1, -1, Frame(name, [0, z]))] && [0, z] != [x, z]
  {
    var m4: Master;
    events, m4 := FourEvents(f, g, name, x);
    m := FirstEnds(m4, f, g, name, Payload(name, 2, []), x, z);
    OneMoreEvent(START, events, m4, Data(f, [z], false), m);
    events := events + [Data(f, [z], false)];
    assert [0, z][0] != [x, z][0];
  }
}
