/**
 How a worker node reads a request and sends a result back (worker.c): the line reader with
 its growing buffer, the header printer and reader, and the loop bodies built from them.
 */
module WorkerProtocol {
  import opened Options
  import opened WireFormat
  import opened Transfers

  const LINE_BUFFER_SIZE: nat := 32

  datatype Request =
    | Hangup                             // the master closed the connection
    | Failure                            // a read failed, and the program exits
    | BadRequest
    | Stuck                              // the payload never comes, and the program waits for it in a loop
    | Request(name: Bytes, stored: Bytes)

  datatype Outcome = Done | Failed | Endless

  /** realloc: a larger block that starts with the old one. */
  method AllocateBuffer(block: array<byte>, size: nat) returns (buffer: array<byte>)
    requires block.Length <= size
    ensures fresh(buffer) && buffer.Length == size
    ensures forall i :: 0 <= i < block.Length ==> buffer[i] == block[i]
  {
    buffer := new byte[size];
    for i := 0 to block.Length
      invariant forall j :: 0 <= j < i ==> buffer[j] == block[j]
    {
      buffer[i] := block[i];
    }
  }

  /** Where the line that starts at `from` stops: at its newline, or at the end of the text. */
  function LineEnd(text: Bytes, from: nat): (end: nat)
    requires from <= |text|
    ensures from <= end <= |text|
    ensures forall i :: from <= i < end ==> text[i] != NEWLINE
    ensures end < |text| ==> text[end] == NEWLINE
    decreases |text| - from
  {
    if from == |text| || text[from] == NEWLINE then from else LineEnd(text, from + 1)
  }

  lemma LineEndIs(text: Bytes, from: nat, end: nat)
    requires from <= end <= |text| && forall i :: from <= i < end ==> text[i] != NEWLINE
    requires end == |text| || text[end] == NEWLINE
    ensures LineEnd(text, from) == end
  {
  }

  /** read_line_from_socket: the line with its newline, in a buffer that grows as it must. */
  method ReadLineFromSocket(s: Stream) returns (total: int, buffer: array<byte>)
    requires s.Valid() && s.blocking
    modifies s`cursor, s`readCalls
    ensures s.Valid() && old(s.cursor) <= s.cursor
    ensures fresh(buffer) && -1 <= total <= buffer.Length && LINE_BUFFER_SIZE <= buffer.Length
    ensures total >= 0 ==>
      && s.cursor == old(s.cursor) + total
      && buffer[..total] == s.input[old(s.cursor)..s.cursor]
    ensures forall i :: old(s.cursor) <= i < s.cursor - 1 ==> s.input[i] != NEWLINE
    ensures Closed !in s.readScript ==>
      total == -1 || s.cursor == |s.input| || (total > 0 && s.input[s.cursor - 1] == NEWLINE)
    ensures Reliable(s.readScript) ==> total >= 0
  {
    var size := LINE_BUFFER_SIZE;
    var nothing := new byte[0];
    buffer := AllocateBuffer(nothing, size);
    total := 0;
    while true
      invariant fresh(buffer) && LINE_BUFFER_SIZE <= buffer.Length == size && 0 <= total < size
      invariant s.Valid() && s.cursor == old(s.cursor) + total
      invariant Holds(buffer, total, s.input, old(s.cursor))
      invariant forall i :: old(s.cursor) <= i < s.cursor ==> s.input[i] != NEWLINE
      decreases s.ReadPatience(), |s.input| - s.cursor
    {
      var r, errno := s.Read(buffer, total, 1);
      if r == 0 {
        break;
      }
      if r == -1 {
        if errno != EINTR {
          return -1, buffer;
        }
        continue;
      }
      total := total + r;
      if buffer[total - 1] == NEWLINE {
        break;
      }
      if total == size {
        size := size + LINE_BUFFER_SIZE;
        buffer := AllocateBuffer(buffer, size);
      }
    }
    HeldBytes(buffer, total, s.input, old(s.cursor));
  }

  /** get_filename_from_header; a header too short for any name gives None. */
  function GetFilenameFromHeader(header: Bytes, verbSize: nat): (name: Option<Bytes>)
    ensures name.Some? <==> |header| >= verbSize + 2
    ensures name.Some? ==> |name.value| <= |header| - verbSize - 2 && NUL !in name.value
  {
    if |header| < verbSize + 2 then None
    else Some(CString(header[verbSize + 1..|header| - 1]))
  }

  /** create_header. */
  function CreateHeader(name: Bytes): Bytes {
    PUT + [SPACE] + name + [NEWLINE]
  }

  /** The worker recovers the name from the header the master prints. */
  lemma WorkerReadsHeader(name: Bytes)
    requires GoodName(name)
    ensures CreateHeader(name) == HeaderText(Put, name) + [NEWLINE]
    ensures GetFilenameFromHeader(CreateHeader(name), |PUT|) == Some(name)
  {
    var header := CreateHeader(name);
    assert header[|PUT| + 1..|header| - 1] == name;
    BeforeOfSplit(name, NUL, []);
  }

  /** The size announced at position `at` of a text. */
  function SizeAt(text: Bytes, at: nat): nat
    requires at + SIZE_BYTES <= |text|
  {
    Decode(text[at..at + SIZE_BYTES])
  }

  /**
   What is to come of a size at position `at` and the payload behind it: a stored file, or a
   wait without end when the peer closes before it is complete.  Of a size that is cut short
   the rest is what the variable held, so it may also come to an empty file.
   */
  ghost predicate FileRead(input: Bytes, at: nat, outcome: Outcome, stored: Bytes, end: nat) {
    if at + SIZE_BYTES > |input| then
      (outcome == Done || outcome == Endless) && stored == [] && end == |input|
    else
      var start := at + SIZE_BYTES;
      if start + SizeAt(input, at) <= |input| then
        outcome == Done && end == start + SizeAt(input, at) && stored == input[start..end]
      else
        outcome == Endless && stored == input[start..] && end == |input|
  }

  /**
   read_file: the size, and then that many bytes into a local file.
   */
  method ReadFile(s: Stream) returns (outcome: Outcome, stored: Bytes)
    requires s.Valid() && s.blocking
    modifies s`cursor, s`readCalls
    ensures s.Valid() && old(s.cursor) <= s.cursor
    ensures Reliable(s.readScript) ==> outcome != Failed
    ensures outcome != Failed && Closed !in s.readScript ==>
      FileRead(s.input, old(s.cursor), outcome, stored, s.cursor)
  {
    var word := new byte[SIZE_BYTES];
    var r := ReadFromSocket(s, word, SIZE_BYTES);
    if r == -1 {
      return Failed, [];
    }
    var size := Decode(word[..SIZE_BYTES]);
    var file := new LocalFile([]);
    var stuck: bool;
    r, stuck := ReadFileFromSocket(s, file, size);
    outcome, stored := if r == -1 then Failed else if stuck then Endless else Done, file.content;
  }

  /** strncmp(line, PUT, 3) == 0, with room for a name behind it. */
  predicate WellHeaded(line: Bytes) {
    PUT <= line && |line| > |PUT|
  }

  /** The name a line asks to run, if it is a request: what lies between the verb and the last byte. */
  function NameAsked(text: Bytes): (name: Option<Bytes>) {
    if PUT <= text && |text| >= |PUT| + 2 then Some(CString(text[|PUT| + 1..|text| - 1])) else None
  }

  /** For a line with its newline. */
  lemma LineAsHeader(line: Bytes)
    requires NEWLINE !in line
    ensures NameAsked(line + [NEWLINE]) == if WellHeaded(line) then Some(CString(line[|PUT| + 1..])) else None
  {
    var text := line + [NEWLINE];
    if PUT <= text && |text| >= |PUT| + 2 {
      assert line[..|PUT|] == text[..|PUT|];
    }
    if WellHeaded(line) {
      assert text[|PUT| + 1..|text| - 1] == line[|PUT| + 1..] && text[..|PUT|] == line[..|PUT|];
    }
  }

  /** The tests of the request loop, on a buffer of at least 32 bytes of which the first n were read. */
  method NameInLine(buffer: array<byte>, n: nat) returns (name: Option<Bytes>)
    requires n <= buffer.Length && LINE_BUFFER_SIZE <= buffer.Length
    ensures name == NameAsked(buffer[..n])
  {
    ghost var text := buffer[..n];
    if n >= |PUT| {
      assert text[..|PUT|] == buffer[..|PUT|];
    }
    if buffer[..|PUT|] != PUT {
      return None;
    }
    name := GetFilenameFromHeader(buffer[..n], |PUT|);
  }

  /** A request for a name whose file has come so far as `read` says. */
  ghost predicate Pending(request: Request, name: Bytes, input: Bytes, at: nat, end: nat) {
    exists outcome: Outcome, stored: Bytes :: FileRead(input, at, outcome, stored, end)
      && request == if outcome == Done then Request(name, stored) else Stuck
  }

  /** The line at `at` with its newline, or what there is of it. */
  function LineAt(input: Bytes, at: nat): Bytes
    requires at < |input|
  {
    var eol := LineEnd(input, at);
    input[at..if eol < |input| then eol + 1 else eol]
  }

  /** What the line at `at` calls for, cut short by the peer or not. */
  ghost predicate Requested(input: Bytes, at: nat, request: Request, end: nat)
    requires at < |input|
  {
    var text := LineAt(input, at);
    match NameAsked(text)
    case None => request == BadRequest && end == at + |text|
    case Some(name) => Pending(request, name, input, at + |text|, end)
  }

  /** The rest of a round once the name is known. */
  method ReceiveBody(s: Stream, name: Bytes) returns (request: Request)
    requires s.Valid() && s.blocking
    modifies s`cursor, s`readCalls
    ensures s.Valid() && old(s.cursor) <= s.cursor
    ensures Reliable(s.readScript) ==> request != Failure
    ensures request != Failure && Closed !in s.readScript ==>
      Pending(request, name, s.input, old(s.cursor), s.cursor)
  {
    var outcome, stored := ReadFile(s);
    match outcome {
      case Failed => request := Failure;
      case Endless => request := Stuck;
      case Done => request := Request(name, stored);
    }
    if outcome != Failed && Closed !in s.readScript {
      assert FileRead(s.input, old(s.cursor), outcome, stored, s.cursor);
    }
  }

  /** What the line reader leaves is the line. */
  lemma LineIsAt(input: Bytes, at: nat, to: nat)
    requires at < to <= |input|
    requires forall i :: at <= i < to - 1 ==> input[i] != NEWLINE
    requires to == |input| || input[to - 1] == NEWLINE
    ensures LineAt(input, at) == input[at..to]
  {
    LineEndIs(input, at, if input[to - 1] == NEWLINE then to - 1 else to);
  }

  /**
   One round of the request loop of worker_main, up to the push on the job queue.  However the
   bytes come in, the round ends in what the line it starts at calls for, unless a read fails.
   */
  method ReceiveRequest(s: Stream) returns (request: Request)
    requires s.Valid() && s.blocking
    modifies s`cursor, s`readCalls
    ensures s.Valid() && old(s.cursor) <= s.cursor
    ensures Reliable(s.readScript) ==> request != Failure
    ensures request != Failure && Closed !in s.readScript ==>
      if old(s.cursor) == |s.input| then request == Hangup
      else Requested(s.input, old(s.cursor), request, s.cursor)
  {
    var n, buffer := ReadLineFromSocket(s);
    if n == -1 {
      return Failure;
    }
    if n == 0 {
      return Hangup;
    }
    if Closed !in s.readScript {
      LineIsAt(s.input, old(s.cursor), s.cursor);
    }
    var name := NameInLine(buffer, n);
    if name == None {
      return BadRequest;
    }
    request := ReceiveBody(s, name.value);
  }

  /** `input` has a request for `f` at position `at`, as far as the worker can tell. */
  ghost predicate RequestAt(input: Bytes, at: nat, f: Frame, end: nat) {
    && at <= |input|
    && var eol := LineEnd(input, at);
    && eol + 1 + SIZE_BYTES + |f.payload| == end <= |input|
    && WellHeaded(input[at..eol]) && CString(input[at..eol][|PUT| + 1..]) == f.name
    && SizeAt(input, eol + 1) == |f.payload|
    && input[eol + 1 + SIZE_BYTES..end] == f.payload
  }

  /**
   Wherever a message printed by the master lies in the worker's input, that round finds the
   name, the payload and the end of the message.
   */
  lemma WorkerReadsFrame(before: Bytes, f: Frame, rest: Bytes)
    requires GoodName(f.name) && |f.payload| < Radix(SIZE_BYTES)
    ensures RequestAt(before + Print(Put, f) + rest, |before|, f, |before| + |Print(Put, f)|)
  {
    HeaderRoundTrip(Put, f.name);
    NameInHeader(f.name);
    DecodeEncode(|f.payload|, SIZE_BYTES);
    PartsMakeRequest(before, HeaderText(Put, f.name), f, EncodeSize(|f.payload|), rest);
  }

  lemma PartsMakeRequest(before: Bytes, line: Bytes, f: Frame, size: Bytes, rest: Bytes)
    requires |size| == SIZE_BYTES && Decode(size) == |f.payload|
    requires NEWLINE !in line && WellHeaded(line) && CString(line[|PUT| + 1..]) == f.name
    ensures var message := line + [NEWLINE] + size + f.payload;
      RequestAt(before + message + rest, |before|, f, |before| + |message|)
  {
    FrameParts(before, line, size, f.payload, rest);
  }

  lemma NameInHeader(name: Bytes)
    requires GoodName(name)
    ensures var line := HeaderText(Put, name); WellHeaded(line) && CString(line[|PUT| + 1..]) == name
  {
    var line := HeaderText(Put, name);
    assert line[|PUT| + 1..] == name && line[..|PUT|] == PUT;
    BeforeOfSplit(name, NUL, []);
  }

  lemma FrameParts(before: Bytes, line: Bytes, size: Bytes, payload: Bytes, rest: Bytes)
    requires |size| == SIZE_BYTES && NEWLINE !in line
    ensures var input := before + (line + [NEWLINE] + size + payload) + rest;
      var end := |before| + |line|;
      && LineEnd(input, |before|) == end < |input| && input[|before|..end] == line
      && input[end + 1..end + 1 + SIZE_BYTES] == size
      && input[end + 1 + SIZE_BYTES..end + 1 + SIZE_BYTES + |payload|] == payload
  {
    var input := before + (line + [NEWLINE] + size + payload) + rest;
    assert forall i :: |before| <= i < |before| + |line| ==> input[i] == line[i - |before|];
    LineEndIs(input, |before|, |before| + |line|);
  }

  /** One round of the sending thread: the result goes out as one message. */
  method SendResult(s: Stream, name: Bytes, output: LocalFile) returns (ok: bool)
    requires output.position == 0
    modifies s`output, s`writeCalls, output`position
    ensures ok && Closed !in s.writeScript ==> s.output == old(s.output) + Print(Put, Frame(name, output.content))
    ensures Closed !in s.writeScript ==> Extended(old(s.output), s.output, Print(Put, Frame(name, output.content)))
    ensures old(s.output) <= s.output && |s.output| <= |old(s.output)| + |Print(Put, Frame(name, output.content))|
    ensures Reliable(s.writeScript) ==> ok
  {
    ok := SendParts(s, CreateHeader(name), EncodeSize(|output.content|), output);
  }

  /** The three writes. */
  method SendParts(s: Stream, header: Bytes, size: Bytes, output: LocalFile) returns (ok: bool)
    requires output.position == 0
    modifies s`output, s`writeCalls, output`position
    ensures ok && Closed !in s.writeScript ==> s.output == old(s.output) + (header + size + output.content)
    ensures Closed !in s.writeScript ==> Extended(old(s.output), s.output, header + size + output.content)
    ensures old(s.output) <= s.output && |s.output| <= |old(s.output)| + |header| + |size| + |output.content|
    ensures Reliable(s.writeScript) ==> ok
  {
    ghost var start, content := s.output, output.content;
    var r := WriteToSocket(s, header);
    if r == -1 {
      ExtendedMore(start, s.output, header + size + content, header, size + content);
      return false;
    }
    r := WriteToSocket(s, size);
    if r == -1 {
      if Closed !in s.writeScript {
        ExtendedOnwards(start, s.output, header + size, header, size);
        ExtendedMore(start, s.output, header + size + content, header + size, content);
      }
      return false;
    }
    r := WriteFileToSocket(s, output, |output.content|);
    if Closed !in s.writeScript {
      ExtendedOnwards(start, s.output, header + size + content, header + size, content);
    }
    ok := r != -1;
  }
}
