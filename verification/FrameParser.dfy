/**
 The resumable parser of handle_data (master.c), one byte at a time, and the one-shot reading
 of the same stream.  What get_command, get_size and get_binary_data do on a connection, however
 the bytes come in, is to run this automaton over the bytes they consume; see module Master.
 */
module FrameParser {
  import opened Options
  import opened WireFormat

  const COMMAND_BUF_SIZE: nat := 1024

  /** How far a connection has got with the present message. */
  datatype Phase =
    | Header(line: Bytes)
    | Size(name: Bytes, got: Bytes)
    | Payload(name: Bytes, left: nat, data: Bytes)
    | Ready(name: Bytes, data: Bytes)  // complete, about to be forwarded
    | Overrun                          // wrote or read past the end of the command buffer

  /** What else a byte means, besides moving the parser on. */
  datatype Signal = Quiet | Named(verb: Verb) | Malformed | Opened | Written | Empty

  const FRESH: Phase := Header([])

  /**
   The reading of one byte.  A header of 1024 bytes fills the buffer and leaves no room for its
   terminator, so neither a further byte nor the newline can be handled.
   */
  function Advance(p: Phase, b: byte): (Phase, Signal) {
    match p
    case Header(line) =>
      if |line| >= COMMAND_BUF_SIZE then (Overrun, Quiet)
      else if b != NEWLINE then (Header(line + [b]), Quiet)
      else (
        match ParseHeader(line)
        case None => (p, Malformed)
        case Some((verb, name)) => (Size(name, []), Named(verb))
      )
    case Size(name, got) =>
      var word := got + [b];
      if |word| < SIZE_BYTES then (Size(name, word), Quiet)
      else if Decode(word) == 0 then (Ready(name, []), Empty)
      else (Payload(name, Decode(word), []), Opened)
    case Payload(name, left, data) =>
      (if left <= 1 then Ready(name, data + [b]) else Payload(name, left - 1, data + [b]), Written)
    case Ready(_, _) => (p, Quiet)
    case Overrun => (p, Quiet)
  }

  // ---------------------------------------------------------------------------
  // One connection on its own
  // ---------------------------------------------------------------------------

  /**
   A connection: its parser, whether it still counts as alive, and the messages it has
   completed.  A malformed header and an announced size of zero both end its life.
   */
  datatype Conn = Conn(phase: Phase, alive: bool, frames: seq<Frame>)

  predicate Listening(c: Conn) {
    c.alive && !c.phase.Overrun?
  }

  function Receive(c: Conn, b: byte): Conn {
    if !Listening(c) then c
    else
      var (p, signal) := Advance(c.phase, b);
      match signal
      case Malformed => c.(alive := false)
      case Empty => c.(phase := p, alive := false)
      case Written =>
        if p.Ready? then Conn(FRESH, true, c.frames + [Frame(p.name, p.data)]) else c.(phase := p)
      case _ => c.(phase := p)
  }

  function ReceiveAll(c: Conn, s: Bytes): Conn
    decreases |s|
  {
    if s == [] then c else ReceiveAll(Receive(c, s[0]), s[1..])
  }

  /** Cutting a stream in two makes no difference. */
  lemma {:induction false} ReceiveInTwo(c: Conn, s: Bytes, t: Bytes)
    ensures ReceiveAll(c, s + t) == ReceiveAll(ReceiveAll(c, s), t)
    decreases |s|
  {
    if s == [] {
      assert s + t == t;
    } else {
      assert (s + t)[1..] == s[1..] + t;
      ReceiveInTwo(Receive(c, s[0]), s[1..], t);
    }
  }

  function Flatten(chunks: seq<Bytes>): Bytes {
    if chunks == [] then [] else chunks[0] + Flatten(chunks[1..])
  }

  function ReceiveChunks(c: Conn, chunks: seq<Bytes>): Conn
    decreases |chunks|
  {
    if chunks == [] then c else ReceiveChunks(ReceiveAll(c, chunks[0]), chunks[1..])
  }

  lemma {:induction false} ChunksFlatten(c: Conn, chunks: seq<Bytes>)
    ensures ReceiveChunks(c, chunks) == ReceiveAll(c, Flatten(chunks))
    decreases |chunks|
  {
    if chunks != [] {
      ReceiveInTwo(c, chunks[0], Flatten(chunks[1..]));
      ChunksFlatten(ReceiveAll(c, chunks[0]), chunks[1..]);
    }
  }

  // ---------------------------------------------------------------------------
  // Reading a whole stream in one go
  // ---------------------------------------------------------------------------

  /** The length of the first line, newline excluded, when there is one. */
  function FirstLine(s: Bytes): (line: Bytes)
    ensures |line| <= |s| && line == s[..|line|] && NEWLINE !in line
    ensures |line| < |s| ==> s[|line|] == NEWLINE
  {
    Before(s, NEWLINE)
  }

  /** The messages in a stream and what is left over: split at the newline, take eight bytes, take the payload. */
  function OneShot(frames: seq<Frame>, s: Bytes): Conn
    decreases |s|
  {
    var line := FirstLine(s);
    if |line| >= COMMAND_BUF_SIZE && |s| > COMMAND_BUF_SIZE then Conn(Overrun, true, frames)
    else if |line| == |s| then Conn(Header(s), true, frames)
    else (
      match ParseHeader(line)
      case None => Conn(Header(line), false, frames)
      case Some((_, name)) =>
        var body := s[|line| + 1..];
        if |body| < SIZE_BYTES then Conn(Size(name, body), true, frames)
        else
          var n := Decode(body[..SIZE_BYTES]);
          var rest := body[SIZE_BYTES..];
          if n == 0 then Conn(Ready(name, []), false, frames)
          else if |rest| < n then Conn(Payload(name, n - |rest|, rest), true, frames)
          else OneShot(frames + [Frame(name, rest[..n])], rest[n..])
    )
  }

  lemma {:induction false} DeafAfterwards(c: Conn, s: Bytes)
    requires !Listening(c)
    ensures ReceiveAll(c, s) == c
  {
    if s != [] {
      DeafAfterwards(c, s[1..]);
    }
  }

  lemma {:induction false} HeaderBytes(c: Conn, line: Bytes, s: Bytes)
    requires Listening(c) && c.phase == Header(line)
    requires NEWLINE !in s && |line| + |s| <= COMMAND_BUF_SIZE
    ensures ReceiveAll(c, s) == c.(phase := Header(line + s))
    decreases |s|
  {
    if s == [] {
      assert line + s == line;
    } else {
      HeaderBytes(c.(phase := Header(line + [s[0]])), line + [s[0]], s[1..]);
      assert line + [s[0]] + s[1..] == line + s;
    }
  }

  lemma {:induction false} SizeBytes(c: Conn, name: Bytes, got: Bytes, s: Bytes)
    requires Listening(c) && c.phase == Size(name, got)
    requires |got| + |s| < SIZE_BYTES
    ensures ReceiveAll(c, s) == c.(phase := Size(name, got + s))
    decreases |s|
  {
    if s == [] {
      assert got + s == got;
    } else {
      SizeBytes(c.(phase := Size(name, got + [s[0]])), name, got + [s[0]], s[1..]);
      assert got + [s[0]] + s[1..] == got + s;
    }
  }

  lemma {:induction false} PayloadBytes(c: Conn, name: Bytes, left: nat, data: Bytes, s: Bytes)
    requires Listening(c) && c.phase == Payload(name, left, data)
    requires |s| < left
    ensures ReceiveAll(c, s) == c.(phase := Payload(name, left - |s|, data + s))
    decreases |s|
  {
    if s == [] {
      assert data + s == data;
    } else {
      PayloadBytes(c.(phase := Payload(name, left - 1, data + [s[0]])), name, left - 1, data + [s[0]], s[1..]);
      assert data + [s[0]] + s[1..] == data + s;
    }
  }

  /** Receiving some bytes and then one more. */
  lemma AndOneMore(c: Conn, s: Bytes, b: byte)
    ensures ReceiveAll(c, s + [b]) == Receive(ReceiveAll(c, s), b)
  {
    ReceiveInTwo(c, s, [b]);
    assert [b][1..] == [];
  }

  lemma WholeHeader(c: Conn, line: Bytes)
    requires Listening(c) && c.phase == FRESH
    requires NEWLINE !in line && |line| < COMMAND_BUF_SIZE
    ensures ReceiveAll(c, line + [NEWLINE]) ==
      match ParseHeader(line)
      case None => c.(phase := Header(line), alive := false)
      case Some((_, name)) => c.(phase := Size(name, []))
  {
    HeaderBytes(c, [], line);
    assert [] + line == line;
    AndOneMore(c, line, NEWLINE);
  }

  lemma WholeSize(c: Conn, name: Bytes, word: Bytes)
    requires Listening(c) && c.phase == Size(name, []) && |word| == SIZE_BYTES
    ensures ReceiveAll(c, word) ==
      if Decode(word) == 0 then c.(phase := Ready(name, []), alive := false)
      else c.(phase := Payload(name, Decode(word), []))
  {
    var n := SIZE_BYTES - 1;
    SizeBytes(c, name, [], word[..n]);
    assert [] + word[..n] == word[..n] && word[..n] + [word[n]] == word;
    AndOneMore(c, word[..n], word[n]);
  }

  lemma WholePayload(c: Conn, name: Bytes, data: Bytes)
    requires Listening(c) && c.phase == Payload(name, |data|, []) && data != []
    ensures ReceiveAll(c, data) == Conn(FRESH, true, c.frames + [Frame(name, data)])
  {
    var n := |data| - 1;
    PayloadBytes(c, name, |data|, [], data[..n]);
    assert [] + data[..n] == data[..n] && data[..n] + [data[n]] == data;
    AndOneMore(c, data[..n], data[n]);
  }

  lemma OverlongHeader(c: Conn, s: Bytes)
    requires Listening(c) && c.phase == FRESH
    requires |FirstLine(s)| >= COMMAND_BUF_SIZE && |s| > COMMAND_BUF_SIZE
    ensures ReceiveAll(c, s) == c.(phase := Overrun)
  {
    var full := s[..COMMAND_BUF_SIZE];
    assert s == full + s[COMMAND_BUF_SIZE..];
    assert full == FirstLine(s)[..COMMAND_BUF_SIZE];
    ReceiveInTwo(c, full, s[COMMAND_BUF_SIZE..]);
    HeaderBytes(c, [], full);
    assert [] + full == full;
    DeafAfterwards(c.(phase := Overrun), s[COMMAND_BUF_SIZE..][1..]);
  }

  /**
   Fragmentation independence: for every stream of bytes whatever, well-formed or not, reading
   it byte by byte across any number of resumptions ends in the same messages and the same
   state as reading it in one go.
   */
  lemma {:induction false} ResumableIsOneShot(frames: seq<Frame>, s: Bytes)
    ensures ReceiveAll(Conn(FRESH, true, frames), s) == OneShot(frames, s)
    decreases |s|
  {
    var c := Conn(FRESH, true, frames);
    var line := FirstLine(s);
    if |line| >= COMMAND_BUF_SIZE && |s| > COMMAND_BUF_SIZE {
      OverlongHeader(c, s);
    } else if |line| == |s| {
      HeaderBytes(c, [], s);
      assert [] + s == s;
    } else {
      var body := s[|line| + 1..];
      assert s == line + [NEWLINE] + body;
      WholeHeader(c, line);
      ReceiveInTwo(c, line + [NEWLINE], body);
      if ParseHeader(line).None? {
        DeafAfterwards(c.(phase := Header(line), alive := false), body);
      } else {
        BodyIsOneShot(c, ParseHeader(line).value.1, body);
        if |body| >= SIZE_BYTES {
          var n := Decode(body[..SIZE_BYTES]);
          var rest := body[SIZE_BYTES..];
          if 0 < n <= |rest| {
            ResumableIsOneShot(frames + [Frame(ParseHeader(line).value.1, rest[..n])], rest[n..]);
          }
        }
      }
    }
  }

  /** A payload that has come whole, and whatever follows it. */
  lemma PayloadAndMore(c: Conn, name: Bytes, n: nat, rest: Bytes)
    requires Listening(c) && 0 < n <= |rest|
    ensures ReceiveAll(c.(phase := Payload(name, n, [])), rest)
         == ReceiveAll(Conn(FRESH, true, c.frames + [Frame(name, rest[..n])]), rest[n..])
  {
    var d := c.(phase := Payload(name, n, []));
    assert rest == rest[..n] + rest[n..];
    WholePayload(d, name, rest[..n]);
    ReceiveInTwo(d, rest[..n], rest[n..]);
  }

  /** A payload of which only a part has come. */
  lemma PayloadPart(c: Conn, name: Bytes, n: nat, rest: Bytes)
    requires Listening(c) && |rest| < n
    ensures ReceiveAll(c.(phase := Payload(name, n, [])), rest) == c.(phase := Payload(name, n - |rest|, rest))
  {
    PayloadBytes(c.(phase := Payload(name, n, [])), name, n, [], rest);
    assert [] + rest == rest;
  }

  lemma SizeAndMore(c: Conn, name: Bytes, word: Bytes, rest: Bytes)
    requires Listening(c) && |word| == SIZE_BYTES
    ensures ReceiveAll(c.(phase := Size(name, [])), word + rest) ==
      if Decode(word) == 0 then c.(phase := Ready(name, []), alive := false)
      else ReceiveAll(c.(phase := Payload(name, Decode(word), [])), rest)
  {
    WholeSize(c.(phase := Size(name, [])), name, word);
    ReceiveInTwo(c.(phase := Size(name, [])), word, rest);
    if Decode(word) == 0 {
      DeafAfterwards(c.(phase := Ready(name, []), alive := false), rest);
    }
  }

  lemma BodyIsOneShot(c: Conn, name: Bytes, body: Bytes)
    requires Listening(c)
    ensures ReceiveAll(c.(phase := Size(name, [])), body) ==
      if |body| < SIZE_BYTES then c.(phase := Size(name, body))
      else
        var n := Decode(body[..SIZE_BYTES]);
        var rest := body[SIZE_BYTES..];
        if n == 0 then c.(phase := Ready(name, []), alive := false)
        else if |rest| < n then c.(phase := Payload(name, n - |rest|, rest))
        else ReceiveAll(Conn(FRESH, true, c.frames + [Frame(name, rest[..n])]), rest[n..])
  {
    if |body| < SIZE_BYTES {
      SizeBytes(c.(phase := Size(name, [])), name, [], body);
      assert [] + body == body;
    } else {
      assert body == body[..SIZE_BYTES] + body[SIZE_BYTES..];
      var n, rest := Decode(body[..SIZE_BYTES]), body[SIZE_BYTES..];
      SizeAndMore(c, name, body[..SIZE_BYTES], rest);
      if 0 < n <= |rest| {
        PayloadAndMore(c, name, n, rest);
      } else if 0 < n {
        PayloadPart(c, name, n, rest);
      }
    }
  }

  // ---------------------------------------------------------------------------
  // Well-formed streams
  // ---------------------------------------------------------------------------

  datatype Message = Message(verb: Verb, frame: Frame)

  predicate WellFormed(m: Message) {
    && GoodName(m.frame.name)
    && |HeaderText(m.verb, m.frame.name)| < COMMAND_BUF_SIZE
    && 0 < |m.frame.payload| < Radix(SIZE_BYTES)
  }

  function PrintAll(ms: seq<Message>): Bytes {
    if ms == [] then [] else Print(ms[0].verb, ms[0].frame) + PrintAll(ms[1..])
  }

  /** The bytes do_put sends for a run of messages. */
  function Traffic(frames: seq<Frame>): Bytes {
    if frames == [] then [] else Print(Put, frames[0]) + Traffic(frames[1..])
  }

  lemma {:induction false} TrafficInTwo(a: seq<Frame>, b: seq<Frame>)
    ensures Traffic(a + b) == Traffic(a) + Traffic(b)
  {
    if a == [] {
      assert a + b == b;
    } else {
      assert (a + b)[1..] == a[1..] + b;
      TrafficInTwo(a[1..], b);
    }
  }

  lemma {:induction false} TrafficOneMore(frames: seq<Frame>, f: Frame)
    ensures Traffic(frames + [f]) == Traffic(frames) + Print(Put, f)
  {
    if frames == [] {
      assert [f][1..] == [];
    } else {
      assert (frames + [f])[1..] == frames[1..] + [f];
      TrafficOneMore(frames[1..], f);
    }
  }

  function FramesOf(ms: seq<Message>): (fs: seq<Frame>)
    ensures |fs| == |ms|
  {
    seq(|ms|, i requires 0 <= i < |ms| => ms[i].frame)
  }

  lemma PartsOfMessage(c: Conn, header: Bytes, name: Bytes, word: Bytes, payload: Bytes)
    requires Listening(c) && c.phase == FRESH
    requires NEWLINE !in header && |header| < COMMAND_BUF_SIZE
    requires ParseHeader(header).Some? && ParseHeader(header).value.1 == name
    requires |word| == SIZE_BYTES && Decode(word) == |payload| > 0
    ensures ReceiveAll(c, header + [NEWLINE] + word + payload)
         == Conn(FRESH, true, c.frames + [Frame(name, payload)])
  {
    var d := c.(phase := Size(name, []));
    var e := c.(phase := Payload(name, |payload|, []));
    WholeHeader(c, header);
    ReceiveInTwo(c, header + [NEWLINE], word + payload);
    WholeSize(d, name, word);
    ReceiveInTwo(d, word, payload);
    WholePayload(e, name, payload);
    assert header + [NEWLINE] + word + payload == header + [NEWLINE] + (word + payload);
  }

  /** One message, whatever its verb, is read back as it was printed and leaves the parser fresh. */
  lemma MessageIsRead(c: Conn, m: Message)
    requires Listening(c) && c.phase == FRESH && WellFormed(m)
    ensures ReceiveAll(c, Print(m.verb, m.frame)) == Conn(FRESH, true, c.frames + [m.frame])
  {
    HeaderRoundTrip(m.verb, m.frame.name);
    DecodeEncode(|m.frame.payload|, SIZE_BYTES);
    PartsOfMessage(c, HeaderText(m.verb, m.frame.name), m.frame.name, EncodeSize(|m.frame.payload|), m.frame.payload);
  }

  lemma FramesOfFront(ms: seq<Message>)
    requires ms != []
    ensures FramesOf(ms) == [ms[0].frame] + FramesOf(ms[1..])
  {
  }

  lemma FramesInTwo(a: seq<Frame>, b: seq<Frame>, c: seq<Frame>)
    ensures a + b + c == a + (b + c)
  {
  }

  /** A stream of well-formed messages gives exactly those messages and leaves the parser as new. */
  lemma {:induction false} StreamIsRead(frames: seq<Frame>, ms: seq<Message>)
    requires forall i :: 0 <= i < |ms| ==> WellFormed(ms[i])
    ensures ReceiveAll(Conn(FRESH, true, frames), PrintAll(ms)) == Conn(FRESH, true, frames + FramesOf(ms))
    decreases |ms|
  {
    if ms == [] {
      assert frames + FramesOf(ms) == frames;
    } else {
      var c := Conn(FRESH, true, frames);
      MessageIsRead(c, ms[0]);
      ReceiveInTwo(c, Print(ms[0].verb, ms[0].frame), PrintAll(ms[1..]));
      StreamIsRead(frames + [ms[0].frame], ms[1..]);
      FramesOfFront(ms);
      FramesInTwo(frames, [ms[0].frame], FramesOf(ms[1..]));
    }
  }

  /** A header line is handled inside its buffer exactly when it has at most 1023 bytes. */
  lemma HeaderFitsIff(c: Conn, line: Bytes)
    requires Listening(c) && c.phase == FRESH && NEWLINE !in line
    ensures ReceiveAll(c, line + [NEWLINE]).phase != Overrun <==> |line| <= 1023
  {
    var s := line + [NEWLINE];
    if |line| < COMMAND_BUF_SIZE {
      WholeHeader(c, line);
    } else {
      BeforeOfSplit(line, NEWLINE, []);
      assert line + [NEWLINE] + [] == s;
      OverlongHeader(c, s);
    }
  }

  lemma PartsOfEmptyMessage(c: Conn, header: Bytes, name: Bytes, word: Bytes, rest: Bytes)
    requires Listening(c) && c.phase == FRESH
    requires NEWLINE !in header && |header| < COMMAND_BUF_SIZE
    requires ParseHeader(header).Some? && ParseHeader(header).value.1 == name
    requires |word| == SIZE_BYTES && Decode(word) == 0
    ensures ReceiveAll(c, header + [NEWLINE] + (word + rest)) == c.(phase := Ready(name, []), alive := false)
  {
    var d := c.(phase := Size(name, []));
    WholeHeader(c, header);
    ReceiveInTwo(c, header + [NEWLINE], word + rest);
    WholeSize(d, name, word);
    ReceiveInTwo(d, word, rest);
    DeafAfterwards(c.(phase := Ready(name, []), alive := false), rest);
  }

  /**
   An announced size of zero silences a connection as far as its own bytes go: none sent after
   it is looked at.  What a heartbeat makes of it is the subject of module EmptyMessages.
   */
  lemma EmptyPayloadSilences(c: Conn, verb: Verb, name: Bytes, rest: Bytes)
    requires Listening(c) && c.phase == FRESH
    requires GoodName(name) && |HeaderText(verb, name)| < COMMAND_BUF_SIZE
    ensures ReceiveAll(c, Print(verb, Frame(name, [])) + rest) == c.(phase := Ready(name, []), alive := false)
  {
    HeaderRoundTrip(verb, name);
    DecodeEncode(0, SIZE_BYTES);
    PartsOfEmptyMessage(c, HeaderText(verb, name), name, EncodeSize(0), rest);
    Reassociate(HeaderText(verb, name) + [NEWLINE], EncodeSize(0), rest);
  }

  lemma Reassociate(a: Bytes, b: Bytes, c: Bytes)
    ensures a + b + [] + c == a + (b + c)
  {
  }
}
