/**
 Whole stretches of bytes at once: what the byte-wise steps of MasterModel amount to when a
 header, a size or a block of payload is consumed in one piece.
 */
module MasterSteps {
  import opened Options
  import opened WireFormat
  import opened FrameParser
  import opened Scheduling
  import opened Recovery
  import opened MasterModel

  lemma DigestMore(c: Core, fd: int, p: Phase, s: Bytes, b: byte)
    ensures DigestAll(c, fd, p, s + [b]) == var (d, q) := DigestAll(c, fd, p, s); Digest(d, fd, q, b)
  {
    DigestInTwo(c, fd, p, s, [b]);
    assert [b][1..] == [];
  }

  lemma {:induction false} HeaderStretch(c: Core, fd: int, line: Bytes, s: Bytes)
    requires Alive(c, fd) && NEWLINE !in s && |line| + |s| <= COMMAND_BUF_SIZE
    ensures DigestAll(c, fd, Header(line), s) == (c, Header(line + s))
    decreases |s|
  {
    if s == [] {
      assert line + s == line;
    } else {
      HeaderStretch(c, fd, line + [s[0]], s[1..]);
      assert line + [s[0]] + s[1..] == line + s;
    }
  }

  /** The state after a newline completes the header `line`. */
  function AfterHeader(c: Core, fd: int, line: Bytes): (Core, Phase) {
    match ParseHeader(line)
    case None => (HeaderFail(c, fd), Header(line))
    case Some((verb, name)) =>
      (if verb == InterfacePut && c.ifaceFd == -1 then Adopt(c, fd) else c, Size(name, []))
  }

  lemma HeaderEnds(c: Core, fd: int, line: Bytes, s: Bytes)
    requires Alive(c, fd) && NEWLINE !in s && |line| + |s| < COMMAND_BUF_SIZE
    ensures DigestAll(c, fd, Header(line), s + [NEWLINE]) == AfterHeader(c, fd, line + s)
  {
    HeaderStretch(c, fd, line, s);
    DigestMore(c, fd, Header(line), s, NEWLINE);
  }

  lemma HeaderOverruns(c: Core, fd: int, line: Bytes, s: Bytes, b: byte)
    requires Alive(c, fd) && NEWLINE !in s && |line| + |s| == COMMAND_BUF_SIZE
    ensures DigestAll(c, fd, Header(line), s + [b]) == (c, Overrun)
  {
    HeaderStretch(c, fd, line, s);
    DigestMore(c, fd, Header(line), s, b);
  }

  lemma {:induction false} SizeStretch(c: Core, fd: int, name: Bytes, got: Bytes, s: Bytes)
    requires Alive(c, fd) && |got| + |s| < SIZE_BYTES
    ensures DigestAll(c, fd, Size(name, got), s) == (c, Size(name, got + s))
    decreases |s|
  {
    if s == [] {
      assert got + s == got;
    } else {
      SizeStretch(c, fd, name, got + [s[0]], s[1..]);
      assert got + [s[0]] + s[1..] == got + s;
    }
  }

  lemma SplitLast(before: Bytes, s: Bytes) returns (front: Bytes, last: byte)
    requires s != []
    ensures s == front + [last] && before + front + [last] == before + s
  {
    front, last := s[..|s| - 1], s[|s| - 1];
  }

  lemma SplitFirst(before: Bytes, s: Bytes)
    requires s != []
    ensures s == [s[0]] + s[1..] && before + [s[0]] + s[1..] == before + s
  {
  }

  /** The state after the eighth byte of a size. */
  function AfterSize(c: Core, fd: int, name: Bytes, size: nat): (Core, Phase) {
    if size == 0 then Deliver(Kill(Truncate(c, name), fd), fd, Ready(name, []))
    else (Truncate(c, name), Payload(name, size, []))
  }

  lemma SizeEnds(c: Core, fd: int, name: Bytes, got: Bytes, s: Bytes)
    requires Alive(c, fd) && |got| + |s| == SIZE_BYTES && s != []
    ensures DigestAll(c, fd, Size(name, got), s) == AfterSize(c, fd, name, Decode(got + s))
  {
    var front, last := SplitLast(got, s);
    SizeStretch(c, fd, name, got, front);
    DigestMore(c, fd, Size(name, got), front, last);
  }

  // ---------------------------------------------------------------------------
  // Payload
  // ---------------------------------------------------------------------------

  /** The files after a block is written; an empty one is not written at all. */
  function BlockFiles(files: map<Bytes, Bytes>, name: Bytes, at: nat, s: Bytes): map<Bytes, Bytes> {
    if s == [] then files else files[name := WriteAt(Content(files, name), at, s)]
  }

  function StoreBlock(c: Core, name: Bytes, at: nat, s: Bytes): Core {
    c.(files := BlockFiles(c.files, name, at, s))
  }

  lemma WriteAtTwice(content: Bytes, at: nat, s: Bytes, t: Bytes)
    requires s != []
    ensures WriteAt(WriteAt(content, at, s), at + |s|, t) == WriteAt(content, at, s + t)
  {
    var base := if |content| < at then content + Zeros(at - |content|) else content;
    var once := WriteAt(content, at, s);
    assert |once| >= at + |s| && once[..at + |s|] == base[..at] + s;
    assert base[..at] + s + t == base[..at] + (s + t);
    if at + |s| + |t| < |once| {
      assert once[at + |s| + |t|..] == base[at + |s| + |t|..];
    }
  }

  lemma BlockTwice(files: map<Bytes, Bytes>, name: Bytes, at: nat, s: Bytes, t: Bytes)
    ensures BlockFiles(BlockFiles(files, name, at, s), name, at + |s|, t) == BlockFiles(files, name, at, s + t)
  {
    if s == [] {
      assert s + t == t;
    } else if t == [] {
      assert s + t == s;
    } else {
      WriteAtTwice(Content(files, name), at, s, t);
      var once := BlockFiles(files, name, at, s);
      assert Content(once, name) == WriteAt(Content(files, name), at, s);
      assert once[name := WriteAt(Content(files, name), at, s + t)]
          == files[name := WriteAt(Content(files, name), at, s + t)];
    }
  }

  lemma StoreTwice(c: Core, name: Bytes, at: nat, s: Bytes, t: Bytes)
    ensures StoreBlock(StoreBlock(c, name, at, s), name, at + |s|, t) == StoreBlock(c, name, at, s + t)
  {
    BlockTwice(c.files, name, at, s, t);
  }

  lemma AliveWithFiles(c: Core, files: map<Bytes, Bytes>, fd: int)
    ensures Alive(c.(files := files), fd) == Alive(c, fd)
  {
  }

  lemma PayloadByte(c: Core, fd: int, name: Bytes, left: nat, data: Bytes, b: byte)
    requires Alive(c, fd) && left > 0
    ensures Digest(c, fd, Payload(name, left, data), b) ==
      var d := Store(c, name, |data|, [b]);
      if left == 1 then Deliver(d, fd, Ready(name, data + [b])) else (d, Payload(name, left - 1, data + [b]))
    ensures Alive(Store(c, name, |data|, [b]), fd)
  {
    AliveWithFiles(c, Store(c, name, |data|, [b]).files, fd);
  }

  lemma {:induction false} PayloadStretch(c: Core, fd: int, name: Bytes, left: nat, data: Bytes, s: Bytes)
    requires Alive(c, fd) && |s| < left
    ensures DigestAll(c, fd, Payload(name, left, data), s)
         == (StoreBlock(c, name, |data|, s), Payload(name, left - |s|, data + s))
    decreases |s|
  {
    if s == [] {
      assert data + s == data;
    } else {
      PayloadByte(c, fd, name, left, data, s[0]);
      SplitFirst(data, s);
      StoreTwice(c, name, |data|, [s[0]], s[1..]);
      PayloadStretch(Store(c, name, |data|, [s[0]]), fd, name, left - 1, data + [s[0]], s[1..]);
    }
  }

  lemma PayloadUpToLast(c: Core, fd: int, name: Bytes, data: Bytes, front: Bytes, last: byte)
    requires Alive(c, fd)
    ensures DigestAll(c, fd, Payload(name, |front| + 1, data), front + [last])
         == Digest(StoreBlock(c, name, |data|, front), fd, Payload(name, 1, data + front), last)
    ensures Alive(StoreBlock(c, name, |data|, front), fd)
  {
    PayloadStretch(c, fd, name, |front| + 1, data, front);
    DigestMore(c, fd, Payload(name, |front| + 1, data), front, last);
    AliveWithFiles(c, StoreBlock(c, name, |data|, front).files, fd);
  }

  lemma StoreLast(c: Core, name: Bytes, data: Bytes, front: Bytes, last: byte)
    ensures Store(StoreBlock(c, name, |data|, front), name, |data + front|, [last])
         == Store(c, name, |data|, front + [last])
  {
    StoreTwice(c, name, |data|, front, [last]);
  }

  lemma PayloadUpToEnd(c: Core, fd: int, name: Bytes, data: Bytes, front: Bytes, last: byte)
    requires Alive(c, fd)
    ensures DigestAll(c, fd, Payload(name, |front| + 1, data), front + [last])
         == Deliver(Store(c, name, |data|, front + [last]), fd, Ready(name, data + front + [last]))
  {
    var d := StoreBlock(c, name, |data|, front);
    PayloadUpToLast(c, fd, name, data, front, last);
    PayloadByte(d, fd, name, 1, data + front, last);
    StoreLast(c, name, data, front, last);
  }

  lemma PayloadEnds(c: Core, fd: int, name: Bytes, data: Bytes, s: Bytes)
    requires Alive(c, fd) && s != []
    ensures DigestAll(c, fd, Payload(name, |s|, data), s)
         == Deliver(Store(c, name, |data|, s), fd, Ready(name, data + s))
  {
    var front, last := SplitLast(data, s);
    PayloadUpToEnd(c, fd, name, data, front, last);
  }

  // ---------------------------------------------------------------------------
  // Header text in its buffer, size in its variable
  // ---------------------------------------------------------------------------

  /** A line followed by zeros reads as the line. */
  lemma {:induction false} TerminatedLine(line: Bytes, buffer: Bytes)
    requires |line| < |buffer| && line == buffer[..|line|] && buffer[|line|] == NUL
    ensures CString(buffer) == CString(line)
    decreases |line|
  {
    if line != [] && line[0] != NUL {
      TerminatedLine(line[1..], buffer[1..]);
    }
  }

  lemma {:induction false} DecodeAppended(got: Bytes, b: byte)
    ensures Decode(got + [b]) == SetByte(Decode(got), |got|, b)
  {
    if got == [] {
      assert [b][1..] == [];
    } else {
      assert (got + [b])[1..] == got[1..] + [b];
      DecodeAppended(got[1..], b);
      Digits(Decode(got[1..]), got[0]);
    }
  }

  // ---------------------------------------------------------------------------
  // One call of handle_data, by the way its first stage ends
  // ---------------------------------------------------------------------------

  lemma HeaderStops(c: Core, fd: int, line: Bytes, s: Bytes, failed: bool)
    requires Alive(c, fd) && NEWLINE !in s && |line| + |s| <= COMMAND_BUF_SIZE
    ensures HandleData(c, fd, Header(line), s, failed) == (if failed then HeaderFail(c, fd) else c, Header(line + s))
  {
    HeaderStretch(c, fd, line, s);
  }

  lemma HeaderRejected(c: Core, fd: int, line: Bytes, s: Bytes)
    requires Alive(c, fd) && NEWLINE !in s && |line| + |s| < COMMAND_BUF_SIZE && ParseHeader(line + s).None?
    ensures HandleData(c, fd, Header(line), s + [NEWLINE], false) == (HeaderFail(c, fd), Header(line + s))
  {
    HeaderEnds(c, fd, line, s);
  }

  lemma HeaderTooLong(c: Core, fd: int, line: Bytes, t: Bytes, s: Bytes)
    requires Alive(c, fd) && NEWLINE !in t && |line| + |t| == COMMAND_BUF_SIZE
    requires |s| == |t| + 1 && t <= s
    ensures HandleData(c, fd, Header(line), s, false) == (c, Overrun)
  {
    assert s == t + [s[|t|]];
    HeaderOverruns(c, fd, line, t, s[|t|]);
  }

  lemma KillAndTruncate(c: Core, fd: int, name: Bytes)
    ensures Truncate(Kill(c, fd), name) == Kill(Truncate(c, name), fd)
  {
  }

  // ---------------------------------------------------------------------------
  // Consuming bytes, whatever follows them
  // ---------------------------------------------------------------------------

  /** Consuming `s` takes (c, p) to (d, q): whatever comes next, it is the same to go on from there. */
  ghost predicate Takes(c: Core, fd: int, p: Phase, s: Bytes, d: Core, q: Phase) {
    forall t: Bytes {:trigger DigestAll(d, fd, q, t)} :: DigestAll(c, fd, p, s + t) == DigestAll(d, fd, q, t)
  }

  lemma TakesIff(c: Core, fd: int, p: Phase, s: Bytes, d: Core, q: Phase)
    ensures Takes(c, fd, p, s, d, q) <==> DigestAll(c, fd, p, s) == (d, q)
  {
    if DigestAll(c, fd, p, s) == (d, q) {
      forall t: Bytes
        ensures DigestAll(c, fd, p, s + t) == DigestAll(d, fd, q, t)
      {
        DigestInTwo(c, fd, p, s, t);
      }
    }
    if Takes(c, fd, p, s, d, q) {
      assert DigestAll(d, fd, q, []) == (d, q);
      assert s + [] == s;
    }
  }

  lemma Regrouped(s: Bytes, t: Bytes, u: Bytes)
    ensures s + t + u == s + (t + u)
  {
  }

  /** The definition, for one continuation. */
  lemma Continue(c: Core, fd: int, p: Phase, s: Bytes, d: Core, q: Phase, t: Bytes)
    requires Takes(c, fd, p, s, d, q)
    ensures DigestAll(c, fd, p, s + t) == DigestAll(d, fd, q, t)
  {
  }

  lemma TakesTwice(c: Core, fd: int, p: Phase, s: Bytes, d: Core, q: Phase, t: Bytes, e: Core, r: Phase)
    requires Takes(c, fd, p, s, d, q) && Takes(d, fd, q, t, e, r)
    ensures Takes(c, fd, p, s + t, e, r)
  {
    forall u: Bytes
      ensures DigestAll(c, fd, p, s + t + u) == DigestAll(e, fd, r, u)
    {
      Regrouped(s, t, u);
      Continue(c, fd, p, s, d, q, t + u);
      Continue(d, fd, q, t, e, r, u);
    }
  }

  lemma HeaderTakes(c: Core, fd: int, line: Bytes, s: Bytes, d: Core, q: Phase)
    requires Alive(c, fd) && NEWLINE !in s && |line| + |s| < COMMAND_BUF_SIZE
    requires (d, q) == AfterHeader(c, fd, line + s)
    ensures Takes(c, fd, Header(line), s + [NEWLINE], d, q)
  {
    HeaderEnds(c, fd, line, s);
    TakesIff(c, fd, Header(line), s + [NEWLINE], d, q);
  }

  lemma PartOfSizeTakes(c: Core, fd: int, name: Bytes, got: Bytes, s: Bytes)
    requires Alive(c, fd) && |got| + |s| < SIZE_BYTES
    ensures Takes(c, fd, Size(name, got), s, c, Size(name, got + s))
  {
    SizeStretch(c, fd, name, got, s);
    TakesIff(c, fd, Size(name, got), s, c, Size(name, got + s));
  }

  lemma SizeTakes(c: Core, fd: int, name: Bytes, got: Bytes, s: Bytes)
    requires Alive(c, fd) && |got| + |s| == SIZE_BYTES && s != [] && Decode(got + s) > 0
    ensures Takes(c, fd, Size(name, got), s, Truncate(c, name), Payload(name, Decode(got + s), []))
  {
    SizeEnds(c, fd, name, got, s);
    TakesIff(c, fd, Size(name, got), s, Truncate(c, name), Payload(name, Decode(got + s), []));
  }

  lemma PartOfPayloadTakes(c: Core, fd: int, name: Bytes, left: nat, data: Bytes, s: Bytes)
    requires Alive(c, fd) && |s| < left
    ensures Takes(c, fd, Payload(name, left, data), s,
                  StoreBlock(c, name, |data|, s), Payload(name, left - |s|, data + s))
  {
    PayloadStretch(c, fd, name, left, data, s);
    TakesIff(c, fd, Payload(name, left, data), s,
             StoreBlock(c, name, |data|, s), Payload(name, left - |s|, data + s));
  }

  /** Consuming `s` completes a message: what is left is to deliver it, and to go on from there. */
  ghost predicate Completes(c: Core, fd: int, p: Phase, s: Bytes, d: Core, q: Phase) {
    && q.Ready?
    && forall e: Core, r: Phase, t: Bytes {:trigger DigestAll(e, fd, r, t)} ::
         (e, r) == Deliver(d, fd, q) ==> DigestAll(c, fd, p, s + t) == DigestAll(e, fd, r, t)
  }

  lemma CompletesIf(c: Core, fd: int, p: Phase, s: Bytes, d: Core, q: Phase)
    requires q.Ready? && DigestAll(c, fd, p, s) == Deliver(d, fd, q)
    ensures Completes(c, fd, p, s, d, q)
  {
    forall e: Core, r: Phase, t: Bytes | (e, r) == Deliver(d, fd, q)
      ensures DigestAll(c, fd, p, s + t) == DigestAll(e, fd, r, t)
    {
      DigestInTwo(c, fd, p, s, t);
    }
  }

  lemma TakesThenCompletes(c: Core, fd: int, p: Phase, s: Bytes, d: Core, q: Phase, t: Bytes, e: Core, r: Phase)
    requires Takes(c, fd, p, s, d, q) && Completes(d, fd, q, t, e, r)
    ensures Completes(c, fd, p, s + t, e, r)
  {
    forall f: Core, o: Phase, u: Bytes | (f, o) == Deliver(e, fd, r)
      ensures DigestAll(c, fd, p, s + t + u) == DigestAll(f, fd, o, u)
    {
      Regrouped(s, t, u);
      Continue(c, fd, p, s, d, q, t + u);
    }
  }

  lemma EmptySizeCompletes(c: Core, fd: int, name: Bytes, got: Bytes, s: Bytes)
    requires Alive(c, fd) && |got| + |s| == SIZE_BYTES && s != [] && Decode(got + s) == 0
    ensures Completes(c, fd, Size(name, got), s, Truncate(Kill(c, fd), name), Ready(name, []))
  {
    SizeEnds(c, fd, name, got, s);
    KillAndTruncate(c, fd, name);
    CompletesIf(c, fd, Size(name, got), s, Truncate(Kill(c, fd), name), Ready(name, []));
  }

  lemma PayloadCompletes(c: Core, fd: int, name: Bytes, data: Bytes, s: Bytes)
    requires Alive(c, fd) && s != []
    ensures Completes(c, fd, Payload(name, |s|, data), s, StoreBlock(c, name, |data|, s), Ready(name, data + s))
  {
    PayloadEnds(c, fd, name, data, s);
    CompletesIf(c, fd, Payload(name, |s|, data), s, StoreBlock(c, name, |data|, s), Ready(name, data + s));
  }

  /** What a call of handle_data comes to, from what its bytes take the state to. */
  lemma CallTakes(c: Core, fd: int, p: Phase, s: Bytes, d: Core, q: Phase)
    requires Alive(c, fd) && !p.Overrun? && !p.Ready? && Takes(c, fd, p, s, d, q)
    ensures HandleData(c, fd, p, s, false) == (d, q)
  {
    TakesIff(c, fd, p, s, d, q);
  }

  lemma CallCompletes(c: Core, fd: int, p: Phase, s: Bytes, d: Core, q: Phase)
    requires Alive(c, fd) && !p.Overrun? && !p.Ready? && Completes(c, fd, p, s, d, q)
    ensures HandleData(c, fd, p, s, false) == Deliver(d, fd, q)
  {
    var (e, r) := Deliver(d, fd, q);
    assert DigestAll(e, fd, r, []) == (e, r);
    assert s + [] == s;
  }
}
