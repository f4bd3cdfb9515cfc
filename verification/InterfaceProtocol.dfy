/**
 How the interface submits a file and shows the results that come back (interface.c).
 */
module InterfaceProtocol {
  import opened Options
  import opened WireFormat
  import opened Transfers

  /** Of the header, of the size and of each block of the content some first part goes out, in that order. */
  ghost predicate SentInParts(header: Bytes, size: Bytes, content: Bytes,
                              before: Bytes, after: Bytes, pieces: seq<Bytes>) {
    && |pieces| >= 2 && pieces[0] <= header && pieces[1] <= size && PartOfEach(content, pieces[2..])
    && after == before + (pieces[0] + pieces[1] + Together(pieces[2..]))
  }

  /**
   send_request, the size and write_binary_data, in the order interface_main calls them.  A
   name too long for the request buffer makes strcat leave it, and the model stops.  No write is
   checked, so when one fails there is a hole.
   */
  method Submit(s: Stream, name: Bytes, file: LocalFile) returns (fits: bool, ghost pieces: seq<Bytes>)
    requires file.position == 0
    modifies s`output, s`writeCalls, file`position
    ensures fits <==> |HeaderText(InterfacePut, name)| + 2 <= 1024
    ensures fits && Reliable(s.writeScript) ==>
      s.output == old(s.output) + Print(InterfacePut, Frame(name, file.content))
    ensures fits ==>
      SentInParts(HeaderText(InterfacePut, name) + [NEWLINE], EncodeSize(|file.content|), file.content,
                  old(s.output), s.output, pieces)
    ensures !fits ==> s.output == old(s.output)
  {
    var buffer := INTERFACE_PUT;
    buffer := buffer + [SPACE];
    buffer := buffer + name;
    buffer := buffer + [NEWLINE];
    if |buffer| + 1 > BUF_SIZE {
      return false, [];
    }
    fits := true;
    pieces := SubmitParts(s, buffer, EncodeSize(|file.content|), file);
  }

  /** The three writes. */
  method SubmitParts(s: Stream, header: Bytes, size: Bytes, file: LocalFile) returns (ghost pieces: seq<Bytes>)
    requires file.position == 0
    modifies s`output, s`writeCalls, file`position
    ensures SentInParts(header, size, file.content, old(s.output), s.output, pieces)
    ensures Reliable(s.writeScript) ==> s.output == old(s.output) + (header + size + file.content)
  {
    ghost var start := s.output;
    ghost var head, word := Announce(s, header, size);
    ghost var body := WriteBinaryData(file, s);
    pieces := [head, word] + body;
    assert pieces[2..] == body;
    InOrder(start, head, word, Together(body));
    InOrder(start, head, word, file.content);
  }

  lemma InOrder(a: Bytes, b: Bytes, c: Bytes, d: Bytes)
    ensures a + b + c + d == a + (b + c + d)
  {
  }

  /** The header and the size. */
  method Announce(s: Stream, header: Bytes, size: Bytes) returns (ghost head: Bytes, ghost word: Bytes)
    modifies s`output, s`writeCalls
    ensures head <= header && word <= size && s.output == old(s.output) + head + word
    ensures Reliable(s.writeScript) ==> head == header && word == size
  {
    ghost var start := s.output;
    var _ := MyWrite(s, header);
    ghost var mid := s.output;
    head := mid[|start|..];
    var _ := MyWrite(s, size);
    word := s.output[|mid|..];
  }

  // ---------------------------------------------------------------------------
  // The inline header reader
  // ---------------------------------------------------------------------------

  /** What a scan of the input took, and where it stopped. */
  datatype Scan = Scan(text: Bytes, calls: nat, at: nat)

  function Prepend(b: byte, scan: Option<Scan>): Option<Scan> {
    match scan
    case None => None
    case Some(s) => Some(s.(text := [b] + s.text))
  }

  /** True when call number k brings a byte as long as there is one. */
  predicate Brings(script: seq<Answer>, k: nat) {
    k < |script| ==> script[k].Moves?
  }

  /**
   What the header loop of output_reciever collects from position `at` on, `b` being the byte
   it read last.  It ignores the result of read, so any call that brings no byte makes it take
   the previous byte again.  None when it never ends.
   */
  function Inline(script: seq<Answer>, k: nat, input: Bytes, at: nat, b: byte): Option<Scan>
    requires at <= |input|
    decreases |input| - at, if k <= |script| then |script| - k else 0
  {
    if Brings(script, k) && at < |input| then
      if input[at] == NEWLINE then Some(Scan([], k + 1, at + 1))
      else Prepend(input[at], Inline(script, k + 1, input, at + 1, input[at]))
    else if b == NEWLINE then Some(Scan([], k + 1, at))
    else if k < |script| then Prepend(b, Inline(script, k + 1, input, at, b))
    else None
  }

  lemma {:induction false} InlineIsLongEnough(script: seq<Answer>, k: nat, input: Bytes, at: nat, eol: nat, b: byte)
    requires at <= eol < |input| && b != NEWLINE
    requires forall i :: at <= i < eol ==> input[i] != NEWLINE
    ensures var got := Inline(script, k, input, at, b); got.Some? ==> |got.value.text| >= eol - at
    decreases eol - at, if k <= |script| then |script| - k else 0
  {
    if !Brings(script, k) {
      InlineIsLongEnough(script, k + 1, input, at, eol, b);
    } else if at < eol {
      InlineIsLongEnough(script, k + 1, input, at + 1, eol, input[at]);
    }
  }

  /** Each of the n calls from number k on brings a byte. */
  ghost predicate NoEmptyHanded(script: seq<Answer>, k: nat, n: nat) {
    forall i :: k <= i < k + n ==> Brings(script, i)
  }

  /**
   The reader captures exactly the header line if and only if none of the calls up to the one
   that brings the newline is interrupted or otherwise comes back empty-handed; then it also
   stops right behind the newline.
   */
  lemma {:induction false} InlineCapturesIff(script: seq<Answer>, k: nat, input: Bytes, at: nat, eol: nat, b: byte)
    requires at <= eol < |input| && input[eol] == NEWLINE
    requires forall i :: at <= i < eol ==> input[i] != NEWLINE
    requires at < eol || b != NEWLINE
    ensures var got := Inline(script, k, input, at, b);
      && (got.Some? && got.value.text == input[at..eol] <==> NoEmptyHanded(script, k, eol - at + 1))
      && (NoEmptyHanded(script, k, eol - at + 1) ==>
            got.Some? && got.value.at == eol + 1 && got.value.calls == k + eol - at + 1)
    decreases eol - at
  {
    if !Brings(script, k) {
      if b != NEWLINE {
        InlineIsLongEnough(script, k + 1, input, at, eol, b);
      }
    } else if at < eol {
      InlineCapturesIff(script, k + 1, input, at + 1, eol, input[at]);
      assert input[at..eol] == [input[at]] + input[at + 1..eol];
      assert NoEmptyHanded(script, k, eol - at + 1) <==> NoEmptyHanded(script, k + 1, eol - at);
    }
  }

  /** A single interrupted call doubles the byte before it. */
  lemma InterruptedReadDoublesAByte(rest: Bytes)
    ensures Inline([Moves(1), Interrupted], 0, PUT + [NEWLINE] + rest, 0, NUL) == Some(Scan([80, 80, 85, 84], 5, 4))
  {
    var script, input := [Moves(1), Interrupted], PUT + [NEWLINE] + rest;
    assert input[0] == 80 && input[1] == 85 && input[2] == 84 && input[3] == NEWLINE;
    assert Inline(script, 4, input, 3, 84) == Some(Scan([], 5, 4));
    assert Inline(script, 3, input, 2, 85).value.text == [84] + [] == [84];
    assert Inline(script, 2, input, 1, 80).value.text == [85] + [84] == [85, 84];
    assert Inline(script, 1, input, 1, 80).value.text == [80] + [85, 84] == [80, 85, 84];
    assert Inline(script, 0, input, 0, NUL).value.text == [80] + [80, 85, 84] == [80, 80, 85, 84];
  }

  function PrependAll(text: Bytes, scan: Option<Scan>): Option<Scan> {
    match scan
    case None => None
    case Some(s) => Some(s.(text := text + s.text))
  }

  lemma PrependOneMore(text: Bytes, b: byte, scan: Option<Scan>)
    ensures PrependAll(text, Prepend(b, scan)) == PrependAll(text + [b], scan)
  {
    if scan.Some? {
      assert text + ([b] + scan.value.text) == text + [b] + scan.value.text;
    }
  }

  /**
   The header loop itself, writing into a buffer whose end it does not check; the model stops
   where it would write past it, as it does sooner or later when no newline comes.
   */
  method ReadHeader(s: Stream, buff: array<byte>, last: byte) returns (ok: bool, idx: nat, b: byte)
    requires s.Valid() && s.blocking
    modifies s`cursor, s`readCalls, buff
    ensures s.Valid() && idx <= buff.Length
    ensures var scan := old(Inline(s.readScript, s.readCalls, s.input, s.cursor, last));
      && (ok <==> scan.Some? && |scan.value.text| <= buff.Length)
      && (ok ==> b == NEWLINE && scan == Some(Scan(buff[..idx], s.readCalls, s.cursor)))
  {
    idx, b := 0, last;
    ghost var all := Inline(s.readScript, s.readCalls, s.input, s.cursor, last);
    var cell := new byte[1];
    assert PrependAll([], all) == all by {
      if all.Some? {
        assert [] + all.value.text == all.value.text;
      }
    }
    while true
      invariant s.Valid() && idx <= buff.Length
      invariant all == PrependAll(buff[..idx], Inline(s.readScript, s.readCalls, s.input, s.cursor, b))
      decreases buff.Length - idx
    {
      cell[0] := b;
      var r, _ := s.Read(cell, 0, 1);
      b := cell[0];
      if b == NEWLINE {
        assert buff[..idx] + [] == buff[..idx];
        return true, idx, b;
      }
      if idx == buff.Length {
        return false, idx, b;
      }
      ghost var text := buff[..idx];
      PrependOneMore(text, b, Inline(s.readScript, s.readCalls, s.input, s.cursor, b));
      buff[idx] := b;
      idx := idx + 1;
      assert buff[..idx] == text + [b];
    }
  }

  /**
   The n bytes that as many calls leave in the variable `b`, one after the other, where a call
   that brings no byte leaves the previous one, and the position reached.
   */
  function Stored(script: seq<Answer>, k: nat, input: Bytes, at: nat, b: byte, n: nat): (r: (Bytes, nat))
    requires at <= |input|
    ensures |r.0| == n && at <= r.1 <= |input| && r.1 <= at + n
    decreases n
  {
    if n == 0 then ([], at)
    else
      var brought := Brings(script, k) && at < |input|;
      var c := if brought then input[at] else b;
      var (rest, end) := Stored(script, k + 1, input, if brought then at + 1 else at, c, n - 1);
      ([c] + rest, end)
  }

  /** They are the next n bytes, and these are consumed, iff each call brings one. */
  lemma {:induction false} StoredExactlyIff(script: seq<Answer>, k: nat, input: Bytes, at: nat, b: byte, n: nat)
    requires at <= |input|
    ensures Stored(script, k, input, at, b, n).1 == at + n <==> at + n <= |input| && NoEmptyHanded(script, k, n)
    ensures Stored(script, k, input, at, b, n).1 == at + n ==>
      Stored(script, k, input, at, b, n).0 == input[at..at + n]
    decreases n
  {
    if n > 0 {
      if Brings(script, k) && at < |input| {
        StoredExactlyIff(script, k + 1, input, at + 1, input[at], n - 1);
        assert NoEmptyHanded(script, k, n) <==> NoEmptyHanded(script, k + 1, n - 1);
        if at + n <= |input| {
          assert input[at..at + n] == [input[at]] + input[at + 1..at + n];
        }
      }
    }
  }

  /** The size loop: `width` bytes stored one by one over the previous value of the variable. */
  method StoreBytes(s: Stream, before: nat, last: byte, width: nat) returns (size: nat)
    requires s.Valid() && s.blocking
    modifies s`cursor, s`readCalls
    ensures s.Valid()
    ensures var (word, end) := old(Stored(s.readScript, s.readCalls, s.input, s.cursor, last, width));
      && size == Assemble(before, word, width)
      && s.cursor == end && s.readCalls == old(s.readCalls) + width
  {
    size := before;
    var b := last;
    var cell := new byte[1];
    ghost var (word, end) := Stored(s.readScript, s.readCalls, s.input, s.cursor, last, width);
    for i := 0 to width
      invariant s.Valid() && s.readCalls == old(s.readCalls) + i
      invariant (word[i..], end) == Stored(s.readScript, s.readCalls, s.input, s.cursor, b, width - i)
      invariant size == Assemble(before, word, i)
    {
      cell[0] := b;
      var r, _ := s.Read(cell, 0, 1);
      b := cell[0];
      assert word[i] == b && word[i..][1..] == word[i + 1..];
      size := SetByte(size, i, b);
    }
  }

  /** The next eight calls bring the eight bytes of a size. */
  ghost predicate SizeAhead(s: Stream, n: nat)
    reads s`cursor, s`readCalls
  {
    && s.cursor + SIZE_BYTES <= |s.input| && n < Radix(SIZE_BYTES)
    && s.input[s.cursor..s.cursor + SIZE_BYTES] == EncodeSize(n)
    && NoEmptyHanded(s.readScript, s.readCalls, SIZE_BYTES)
  }

  /** Where eight bytes come without interruption they are the size, whatever the variable held before. */
  method ReadSize(s: Stream, before: nat, last: byte, ghost announced: nat) returns (size: nat)
    requires s.Valid() && s.blocking && before < Radix(SIZE_BYTES)
    modifies s`cursor, s`readCalls
    ensures s.Valid() && size < Radix(SIZE_BYTES)
    ensures old(SizeAhead(s, announced)) ==> size == announced && s.cursor == old(s.cursor) + SIZE_BYTES
  {
    ghost var word := Stored(s.readScript, s.readCalls, s.input, s.cursor, last, SIZE_BYTES).0;
    StoredExactlyIff(s.readScript, s.readCalls, s.input, s.cursor, last, SIZE_BYTES);
    AssembledBytes(before, word, SIZE_BYTES);
    if announced < Radix(SIZE_BYTES) {
      SizesInRange();
      SizeRoundTrip(announced, before);
    }
    size := StoreBytes(s, before, last, SIZE_BYTES);
  }

  /** A message from the master, as the interface sees it in its input. */
  ghost predicate ResultAt(input: Bytes, at: nat, f: Frame, end: nat) {
    && at <= |input| && |f.payload| < Radix(SIZE_BYTES)
    && var eol := at + |HeaderText(Put, f.name)|;
    && eol + 1 + SIZE_BYTES + |f.payload| == end <= |input|
    && input[at..eol] == HeaderText(Put, f.name) && NEWLINE !in input[at..eol] && input[eol] == NEWLINE
    && input[eol + 1..eol + 1 + SIZE_BYTES] == EncodeSize(|f.payload|)
    && input[eol + 1 + SIZE_BYTES..end] == f.payload
  }

  /** A message printed by the master is such a message, wherever it lies. */
  lemma InterfaceReadsFrame(before: Bytes, f: Frame, rest: Bytes)
    requires GoodName(f.name) && |f.payload| < Radix(SIZE_BYTES)
    ensures ResultAt(before + Print(Put, f) + rest, |before|, f, |before| + |Print(Put, f)|)
  {
    HeaderRoundTrip(Put, f.name);
    MessageParts(before, HeaderText(Put, f.name), EncodeSize(|f.payload|), f.payload, rest);
  }

  lemma MessageParts(before: Bytes, line: Bytes, size: Bytes, payload: Bytes, rest: Bytes)
    requires |size| == SIZE_BYTES
    ensures var input := before + (line + [NEWLINE] + size + payload) + rest;
      var eol := |before| + |line|;
      && input[|before|..eol] == line && input[eol] == NEWLINE
      && input[eol + 1..eol + 1 + SIZE_BYTES] == size
      && input[eol + 1 + SIZE_BYTES..eol + 1 + SIZE_BYTES + |payload|] == payload
  {
  }

  lemma HeaderCaptured(script: seq<Answer>, k: nat, input: Bytes, at: nat, f: Frame, end: nat, b: byte)
    requires ResultAt(input, at, f, end) && NoEmptyHanded(script, k, |HeaderText(Put, f.name)| + 1)
    ensures var got, n := Inline(script, k, input, at, b), |HeaderText(Put, f.name)| + 1;
      got == Some(Scan(HeaderText(Put, f.name), k + n, at + n))
  {
    var eol := at + |HeaderText(Put, f.name)|;
    assert forall i :: at <= i < eol ==> input[i] == input[at..eol][i - at];
    InlineCapturesIff(script, k, input, at, eol, b);
  }

  /** A size_t passed as an ssize_t. */
  function AsSigned(size: nat): int {
    if size < 0x8000_0000_0000_0000 then size else size - 0x1_0000_0000_0000_0000
  }

  /** A message lies ahead whose header fits the buffer and whose size is not taken for a negative one. */
  ghost predicate Showable(s: Stream, f: Frame, end: nat)
    reads s`cursor, s`readCalls
  {
    && ResultAt(s.input, s.cursor, f, end)
    && |HeaderText(Put, f.name)| <= BUF_SIZE && AsSigned(|f.payload|) == |f.payload|
    && NoEmptyHanded(s.readScript, s.readCalls, |HeaderText(Put, f.name)| + 1 + SIZE_BYTES)
    && Reliable(s.readScript)
  }

  /**
   One round of output_reciever.  While no call for the header or the size is interrupted,
   exactly the payload is shown, whatever the size variable held before, and the next message
   is left unread.
   */
  method ShowResult(s: Stream, terminal: LocalFile, buff: array<byte>, last: byte, before: nat,
                    ghost f: Frame, ghost end: nat)
    returns (ok: bool, idx: nat, size: nat)
    requires s.Valid() && s.blocking && buff.Length == BUF_SIZE && before < Radix(SIZE_BYTES)
    modifies s`cursor, s`readCalls, buff, terminal`content
    ensures s.Valid() && idx <= buff.Length
    ensures old(Showable(s, f, end)) ==>
      && ok && s.cursor == end
      && buff[..idx] == HeaderText(Put, f.name) && size == |f.payload|
      && terminal.content == old(terminal.content) + f.payload
  {
    if Showable(s, f, end) {
      HeaderCaptured(s.readScript, s.readCalls, s.input, s.cursor, f, end, last);
    }
    var b: byte;
    ok, idx, b := ReadHeader(s, buff, last);
    if !ok {
      return false, idx, 0;
    }
    size := ReadSize(s, before, b, |f.payload|);
    var _ := WriteAllFromSocketToFd(s, terminal, AsSigned(size));
  }
}
