/**
 The short-transfer loops of worker.c, master.c and interface.c, against an operating
 system that moves as few bytes as it likes per call and may interrupt any call.
 */
module Transfers {
  import opened Options
  import opened WireFormat

  const FILE_BUFFER_SIZE: nat := 4096
  const BUF_SIZE: nat := 1024

  /** How the system answers one call. */
  datatype Answer =
    | Moves(atMost: nat)  // some bytes, at least one if any can move
    | Interrupted         // -1 with EINTR
    | WouldBlock          // -1 with EAGAIN
    | Broken              // -1 with any other error
    | Closed              // 0

  datatype Errno = NoError | EINTR | EAGAIN | EOTHER

  /** No answer but progress and interruption. */
  ghost predicate Reliable(script: seq<Answer>) {
    forall i :: 0 <= i < |script| ==> script[i].Moves? || script[i].Interrupted?
  }

  function Least(a: nat, b: nat): nat {
    if a <= b then a else b
  }

  /** How many bytes the next call moves when it is allowed to move `room` at most. */
  function Granted(a: Answer, room: nat): (n: nat)
    requires a.Moves?
    ensures n <= room && (room > 0 ==> n > 0)
  {
    Least(room, if a.atMost == 0 then 1 else a.atMost)
  }

  /**
   One end of a connection.  `input` is everything the other end will ever have sent, of which
   the first `cursor` bytes were read; the scripts answer the calls made on this end, one
   after the other, and where a script runs out the system behaves as well as it can.
   */
  class Stream {
    const input: Bytes
    const readScript: seq<Answer>
    const writeScript: seq<Answer>
    const blocking: bool
    var cursor: nat
    var readCalls: nat
    var writeCalls: nat
    var output: Bytes

    ghost predicate Valid()
      reads this`cursor
    {
      cursor <= |input|
    }

    constructor (input: Bytes, readScript: seq<Answer>, writeScript: seq<Answer>, blocking: bool)
      ensures Valid() && cursor == 0 && readCalls == 0 && writeCalls == 0 && output == []
      ensures this.input == input && this.blocking == blocking
      ensures this.readScript == readScript && this.writeScript == writeScript
    {
      this.input := input;
      this.readScript := readScript;
      this.writeScript := writeScript;
      this.blocking := blocking;
      cursor, readCalls, writeCalls := 0, 0, 0;
      output := [];
    }

    /** The answer to read call number k. */
    function AnswerTo(k: nat): Answer {
      if k < |readScript| then readScript[k] else Moves(|input|)
    }

    function NextRead(): Answer
      reads this`readCalls
    {
      AnswerTo(readCalls)
    }

    /** The last read failed: the peer had closed, or the connection broke. */
    predicate Failed()
      reads this`readCalls
    {
      readCalls > 0 && (AnswerTo(readCalls - 1).Closed? || AnswerTo(readCalls - 1).Broken?)
    }

    /** The next read would bring something. */
    predicate Offers()
      reads this`cursor, this`readCalls
    {
      cursor < |input| && NextRead().Moves?
    }

    function NextWrite(room: nat): Answer
      reads this`writeCalls
    {
      if writeCalls < |writeScript| then writeScript[writeCalls] else Moves(room)
    }

    /** A bound on the calls that can still fail. */
    function ReadPatience(): nat
      reads this`readCalls
    {
      if readCalls < |readScript| then |readScript| - readCalls else 0
    }

    function WritePatience(): nat
      reads this`writeCalls
    {
      if writeCalls < |writeScript| then |writeScript| - writeCalls else 0
    }

    /** read(fd, buffer + at, count). */
    method Read(buffer: array<byte>, at: nat, count: nat) returns (r: int, errno: Errno)
      requires Valid() && at + count <= buffer.Length
      modifies this`cursor, this`readCalls, buffer
      ensures Valid() && readCalls == old(readCalls) + 1
      ensures -1 <= r <= count && (r == -1 <==> errno != NoError)
      ensures r == -1 ==> cursor == old(cursor)
      ensures r >= 0 ==> cursor == old(cursor) + r
      ensures forall i :: at <= i < at + r ==> buffer[i] == input[old(cursor) + i - at]
      ensures forall i :: 0 <= i < buffer.Length && !(at <= i < at + r) ==> buffer[i] == old(buffer[i])
      ensures match old(NextRead())
        case Interrupted => errno == EINTR
        case WouldBlock => errno == EAGAIN
        case Broken => errno == EOTHER
        case Closed => r == 0
        case Moves(n) =>
          if old(cursor) == |input| && count > 0 && !blocking then errno == EAGAIN
          else r == Granted(Moves(n), Least(count, |input| - old(cursor)))
    {
      errno := NoError;
      var answer := NextRead();
      readCalls := readCalls + 1;
      match answer {
        case Interrupted => return -1, EINTR;
        case WouldBlock => return -1, EAGAIN;
        case Broken => return -1, EOTHER;
        case Closed => return 0, NoError;
        case Moves(_) =>
          if cursor == |input| && count > 0 && !blocking {
            return -1, EAGAIN;
          }
          r := Granted(answer, Least(count, |input| - cursor));
          for i := 0 to r
            invariant cursor == old(cursor) && readCalls == old(readCalls) + 1
            invariant forall j :: at <= j < at + i ==> buffer[j] == input[cursor + j - at]
            invariant forall j :: 0 <= j < buffer.Length && !(at <= j < at + i) ==> buffer[j] == old(buffer[j])
          {
            buffer[at + i] := input[cursor + i];
          }
          cursor := cursor + r;
      }
    }

    /** write(fd, data + at, |data| - at). */
    method Write(data: Bytes, at: nat) returns (r: int, errno: Errno)
      requires at <= |data|
      modifies this`output, this`writeCalls
      ensures writeCalls == old(writeCalls) + 1
      ensures -1 <= r <= |data| - at && (r == -1 <==> errno != NoError)
      ensures output == if r == -1 then old(output) else old(output) + data[at..at + r]
      ensures match old(NextWrite(|data| - at))
        case Interrupted => errno == EINTR
        case WouldBlock => errno == EAGAIN
        case Broken => errno == EOTHER
        case Closed => r == 0
        case Moves(n) => r == Granted(Moves(n), |data| - at)
    {
      errno := NoError;
      var answer := NextWrite(|data| - at);
      writeCalls := writeCalls + 1;
      match answer {
        case Interrupted => return -1, EINTR;
        case WouldBlock => return -1, EAGAIN;
        case Broken => return -1, EOTHER;
        case Closed => return 0, NoError;
        case Moves(_) =>
          r := Granted(answer, |data| - at);
          output := output + data[at..at + r];
      }
    }
  }

  /** `buffer` starts with the `n` bytes of `input` from `start` on. */
  ghost predicate Holds(buffer: array<byte>, n: nat, input: Bytes, start: nat)
    requires n <= buffer.Length && start + n <= |input|
    reads buffer
  {
    forall i :: 0 <= i < n ==> buffer[i] == input[start + i]
  }

  lemma HeldBytes(buffer: array<byte>, n: nat, input: Bytes, start: nat)
    requires n <= buffer.Length && start + n <= |input| && Holds(buffer, n, input, start)
    ensures buffer[..n] == input[start..start + n]
  {
  }

  /** `after` is `before` and then some first part of `data`. */
  ghost predicate Extended(before: Bytes, after: Bytes, data: Bytes) {
    && |before| <= |after| <= |before| + |data|
    && after == before + data[..|after| - |before|]
  }

  lemma Appended(before: Bytes, data: Bytes, at: nat, to: nat)
    requires at <= to <= |data|
    ensures before + data[..at] + data[at..to] == before + data[..to]
  {
    assert data[..at] + data[at..to] == data[..to];
  }

  lemma ExtendedTo(before: Bytes, data: Bytes, at: nat)
    requires at <= |data|
    ensures Extended(before, before + data[..at], data)
  {
  }

  lemma ExtendedTwice(before: Bytes, after: Bytes, data: Bytes, at: nat, to: nat)
    requires at <= to <= |data| && Extended(before + data[..at], after, data[at..to])
    ensures Extended(before, after, data)
  {
    var k := |after| - |before| - at;
    assert data[at..to][..k] == data[at..at + k];
    Appended(before, data, at, at + k);
  }

  lemma ExtendedMore(before: Bytes, after: Bytes, data: Bytes, part: Bytes, rest: Bytes)
    requires data == part + rest && Extended(before, after, part)
    ensures Extended(before, after, data)
  {
    var k := |after| - |before|;
    assert data[..k] == part[..k];
  }

  lemma ExtendedOnwards(before: Bytes, after: Bytes, data: Bytes, part: Bytes, rest: Bytes)
    requires data == part + rest && Extended(before + part, after, rest)
    ensures Extended(before, after, data)
  {
    var k := |after| - |before| - |part|;
    assert data[..|part| + k] == part + rest[..k];
    assert before + part + rest[..k] == before + (part + rest[..k]);
  }

  // ---------------------------------------------------------------------------
  // Byte loops
  // ---------------------------------------------------------------------------

  /** read_from_socket of worker.c. */
  method ReadFromSocket(s: Stream, buffer: array<byte>, count: nat) returns (total: int)
    requires s.Valid() && s.blocking && count <= buffer.Length
    modifies s`cursor, s`readCalls, buffer
    ensures s.Valid() && old(s.cursor) <= s.cursor <= old(s.cursor) + count
    ensures -1 <= total <= count
    ensures total >= 0 ==>
      && s.cursor == old(s.cursor) + total
      && buffer[..total] == s.input[old(s.cursor)..s.cursor]
    ensures Closed !in s.readScript ==> total == -1 || total == Least(count, |s.input| - old(s.cursor))
    ensures Reliable(s.readScript) ==> total == Least(count, |s.input| - old(s.cursor))
    ensures old(s.readCalls) < s.readCalls
    ensures 0 <= total < count ==> s.cursor == |s.input| || old(s.readCalls) < |s.readScript|
  {
    var done := 0;
    while true
      invariant s.Valid() && 0 <= done <= count && s.cursor == old(s.cursor) + done
      invariant Holds(buffer, done, s.input, old(s.cursor))
      invariant done == count ==> count == 0
      invariant old(s.readCalls) <= s.readCalls
      decreases s.ReadPatience(), count - done
    {
      var r, errno := s.Read(buffer, done, count - done);
      if r == 0 {
        HeldBytes(buffer, done, s.input, old(s.cursor));
        return done;
      }
      if r == -1 {
        if errno != EINTR {
          return -1;
        }
        continue;
      }
      done := done + r;
      if done >= count {
        break;
      }
    }
    HeldBytes(buffer, done, s.input, old(s.cursor));
    total := done;
  }

  /** write_to_socket of worker.c. */
  method WriteToSocket(s: Stream, data: Bytes) returns (total: int)
    modifies s`output, s`writeCalls
    ensures -1 <= total <= |data|
    ensures total >= 0 ==> s.output == old(s.output) + data[..total]
    ensures Extended(old(s.output), s.output, data)
    ensures Closed !in s.writeScript ==> total == -1 || total == |data|
    ensures Reliable(s.writeScript) ==> total == |data|
    ensures s.WritePatience() <= old(s.WritePatience())
    ensures 0 <= total < |data| ==> s.WritePatience() < old(s.WritePatience())
  {
    var done := 0;
    while true
      invariant 0 <= done <= |data|
      invariant s.output == old(s.output) + data[..done]
      invariant done == |data| ==> data == []
      invariant s.WritePatience() <= old(s.WritePatience())
      decreases s.WritePatience(), |data| - done
    {
      ExtendedTo(old(s.output), data, done);
      var r, errno := s.Write(data, done);
      if r == 0 {
        return done;
      }
      if r == -1 {
        if errno != EINTR {
          return -1;
        }
        continue;
      }
      Appended(old(s.output), data, done, done + r);
      done := done + r;
      if done >= |data| {
        break;
      }
    }
    ExtendedTo(old(s.output), data, done);
    total := done;
  }

  /** What the writers of master.c tolerate besides. */
  ghost predicate Patient(script: seq<Answer>) {
    forall i :: 0 <= i < |script| ==> script[i].Moves? || script[i].Interrupted? || script[i].WouldBlock?
  }

  /** write_all_to_socket of master.c: a full socket buffer is retried at once. */
  method WriteAllToSocket(s: Stream, data: Bytes) returns (total: int)
    modifies s`output, s`writeCalls
    ensures -1 <= total <= |data|
    ensures total >= 0 ==> s.output == old(s.output) + data[..total]
    ensures Extended(old(s.output), s.output, data)
    ensures Patient(s.writeScript) ==> total == |data|
  {
    total := 0;
    var count := |data|;
    while count != 0
      invariant 0 <= total <= |data| && count == |data| - total
      invariant s.output == old(s.output) + data[..total]
      decreases s.WritePatience(), count
    {
      var r, errno := s.Write(data, total);
      if r == -1 {
        if errno == EINTR || errno == EAGAIN {
          continue;
        }
        return -1;
      } else if r == 0 {
        break;
      }
      Appended(old(s.output), data, total, total + r);
      count := count - r;
      total := total + r;
    }
  }

  /** my_write of interface.c. */
  method MyWrite(s: Stream, data: Bytes) returns (total: int)
    modifies s`output, s`writeCalls
    ensures -1 <= total <= |data|
    ensures total >= 0 ==> s.output == old(s.output) + data[..total]
    ensures Extended(old(s.output), s.output, data)
    ensures Reliable(s.writeScript) ==> total == |data|
  {
    var count, at := |data|, 0;
    var y, errno := s.Write(data, 0);
    if y != -1 {
      at, count := y, count - y;
    }
    while (count > 0 && 0 < y) || (y == -1 && errno == EINTR)
      invariant -1 <= y && 0 <= at && 0 <= count && at + count == |data|
      invariant s.output == old(s.output) + data[..at]
      invariant Reliable(s.writeScript) ==> (count == 0 || y != 0) && (y != -1 || errno == EINTR)
      decreases s.WritePatience(), count, y != 0
    {
      y, errno := s.Write(data, at);
      if y != -1 {
        Appended(old(s.output), data, at, at + y);
        at, count := at + y, count - y;
      }
    }
    if y == -1 && errno != EINTR {
      return -1;
    }
    total := |data| - count;
  }

  /** my_read of interface.c. */
  method MyRead(s: Stream, buffer: array<byte>, wanted: nat) returns (total: int)
    requires s.Valid() && s.blocking && wanted <= buffer.Length
    modifies s`cursor, s`readCalls, buffer
    ensures s.Valid() && old(s.cursor) <= s.cursor <= old(s.cursor) + wanted
    ensures -1 <= total <= wanted
    ensures total >= 0 ==>
      && s.cursor == old(s.cursor) + total
      && buffer[..total] == s.input[old(s.cursor)..s.cursor]
    ensures Reliable(s.readScript) ==> total == Least(wanted, |s.input| - old(s.cursor))
  {
    var count, at := wanted, 0;
    var y, errno := s.Read(buffer, 0, count);
    if y != -1 {
      at, count := y, count - y;
    }
    while (count > 0 && 0 < y) || (y == -1 && errno == EINTR)
      invariant -1 <= y && 0 <= at && 0 <= count && at + count == wanted
      invariant s.Valid() && s.cursor == old(s.cursor) + at
      invariant Holds(buffer, at, s.input, old(s.cursor))
      invariant Reliable(s.readScript) ==>
        (count == 0 || s.cursor == |s.input| || y != 0) && (y != -1 || errno == EINTR)
      decreases s.ReadPatience(), count, y > 0 || (y == -1 && errno == EINTR)
    {
      y, errno := s.Read(buffer, at, count);
      if y != -1 {
        at, count := at + y, count - y;
      }
    }
    if y == -1 && errno != EINTR {
      return -1;
    }
    HeldBytes(buffer, at, s.input, old(s.cursor));
    total := wanted - count;
  }

  // ---------------------------------------------------------------------------
  // Whole files
  // ---------------------------------------------------------------------------

  /** An open local file; disk transfers are complete whenever the bytes are there. */
  class LocalFile {
    var content: Bytes
    var position: nat

    constructor (content: Bytes)
      ensures this.content == content && this.position == 0
    {
      this.content := content;
      this.position := 0;
    }

    method Append(data: Bytes)
      modifies this`content
      ensures content == old(content) + data
    {
      content := content + data;
    }

    /** read(fd, buffer, count) from the current position. */
    method Read(buffer: array<byte>, count: nat) returns (r: nat)
      requires count <= buffer.Length && position <= |content|
      modifies this`position, buffer
      ensures r == Least(count, |content| - old(position)) && position == old(position) + r
      ensures buffer[..r] == content[old(position)..position]
    {
      r := Least(count, |content| - position);
      for i := 0 to r
        invariant position == old(position) && Holds(buffer, i, content, position)
      {
        buffer[i] := content[position + i];
      }
      HeldBytes(buffer, r, content, position);
      position := position + r;
    }
  }

  lemma Joined(s: Bytes, a: nat, b: nat, c: nat)
    requires a <= b <= c <= |s|
    ensures s[a..b] + s[b..c] == s[a..c]
  {
  }

  lemma Inner(s: Bytes, a: nat, b: nat, c: nat, d: nat)
    requires a <= b <= |s| && c <= d <= b - a
    ensures s[a..b][c..d] == s[a + c..a + d]
  {
    var part := s[a..b];
    assert forall i :: c <= i < d ==> part[i] == s[a + i];
    assert forall i :: 0 <= i < d - c ==> part[c..d][i] == s[a + c..a + d][i];
  }

  /**
   read_file_from_socket of worker.c.  The loop ends only on an error or once all `count`
   bytes have come: when the peer has closed before that and nothing more can happen, it goes
   round for ever, which is reported here as `stuck` (see FileReadEnds).
   */
  method ReadFileFromSocket(s: Stream, file: LocalFile, count: nat) returns (total: int, stuck: bool)
    requires s.Valid() && s.blocking
    modifies s`cursor, s`readCalls, file`content
    ensures s.Valid() && old(s.cursor) <= s.cursor <= old(s.cursor) + count
    ensures -1 <= total <= count && (total == count ==> !stuck)
    ensures stuck <==> 0 <= total < count
    ensures stuck ==> s.cursor == |s.input|
    ensures total >= 0 ==>
      && s.cursor == old(s.cursor) + total
      && file.content == old(file.content) + s.input[old(s.cursor)..s.cursor]
    ensures Extended(old(file.content), file.content, s.input[old(s.cursor)..])
    ensures Reliable(s.readScript) ==> total == Least(count, |s.input| - old(s.cursor))
  {
    var remain := count;
    total, stuck := 0, false;
    var buffer := new byte[FILE_BUFFER_SIZE];
    ghost var coming := s.input[old(s.cursor)..];
    while true
      invariant 0 <= remain <= count && total == count - remain
      invariant remain == 0 ==> count == 0
      invariant s.Valid() && s.cursor == old(s.cursor) + total
      invariant file.content == old(file.content) + coming[..total]
      decreases s.ReadPatience(), remain
    {
      var r := ReadFromSocket(s, buffer, if remain >= FILE_BUFFER_SIZE then FILE_BUFFER_SIZE else remain);
      if r == -1 {
        return -1, false;
      }
      Inner(s.input, old(s.cursor), |s.input|, total, total + r);
      Appended(old(file.content), coming, total, total + r);
      file.Append(buffer[..r]);
      total := total + r;
      remain := remain - r;
      assert coming[..total] == s.input[old(s.cursor)..s.cursor];
      if remain == 0 {
        break;
      }
      if r == 0 && s.cursor == |s.input| && s.readCalls >= |s.readScript| {
        return total, true;
      }
    }
  }

  /** What is left to read after k rounds of that loop, from a peer that sends `available` bytes and closes. */
  function RoundsLeave(available: nat, remain: nat, k: nat): nat {
    if k == 0 then remain
    else
      var r := Least(available, Least(remain, FILE_BUFFER_SIZE));
      RoundsLeave(available - r, remain - r, k - 1)
  }

  lemma {:induction false} RoundsCount(available: nat, remain: nat, k: nat)
    ensures RoundsLeave(available, remain, k) >= remain - available
    ensures remain <= available && remain <= k ==> RoundsLeave(available, remain, k) == 0
  {
    if k != 0 {
      var r := Least(available, Least(remain, FILE_BUFFER_SIZE));
      RoundsCount(available - r, remain - r, k - 1);
    }
  }

  /** The reading loop ends if and only if the peer sends everything it announced. */
  lemma FileReadEnds(available: nat, count: nat)
    ensures (exists k: nat :: RoundsLeave(available, count, k) == 0) <==> count <= available
  {
    if count <= available {
      RoundsCount(available, count, count);
    } else {
      forall k: nat
        ensures RoundsLeave(available, count, k) != 0
      {
        RoundsCount(available, count, k);
      }
    }
  }

  /**
   write_file_to_socket of worker.c.  As many bytes go out as were announced, unless a write
   fails; they are the file's unless a write moves nothing, after which the loop goes on with
   the next block of the file.
   */
  method WriteFileToSocket(s: Stream, file: LocalFile, size: nat) returns (total: int)
    requires file.position == 0 && size == |file.content|
    modifies s`output, s`writeCalls, file`position
    ensures total == -1 || total == size
    ensures total == size ==> |s.output| == |old(s.output)| + size
    ensures old(s.output) <= s.output && |s.output| <= |old(s.output)| + size
    ensures Closed !in s.writeScript && total == size ==> s.output == old(s.output) + file.content
    ensures Closed !in s.writeScript ==> Extended(old(s.output), s.output, file.content)
    ensures Reliable(s.writeScript) ==> total == size
  {
    total := 0;
    var buffer := new byte[FILE_BUFFER_SIZE];
    var remain := size;
    while remain > 0
      invariant 0 <= remain <= size && total == size - remain && file.position <= size
      invariant |s.output| == |old(s.output)| + total && old(s.output) <= s.output
      invariant Closed !in s.writeScript ==>
        total == file.position && s.output == old(s.output) + file.content[..total]
      decreases s.WritePatience(), remain
    {
      var count := if remain >= FILE_BUFFER_SIZE then FILE_BUFFER_SIZE else remain;
      ghost var at := file.position;
      var _ := file.Read(buffer, count);
      var r := WriteToSocket(s, buffer[..count]);
      if Closed !in s.writeScript {
        ExtendedTwice(old(s.output), s.output, file.content, at, at + count);
        Appended(old(s.output), file.content, at, at + count);
      }
      if r == -1 {
        return -1;
      }
      total := total + r;
      remain := remain - r;
    }
  }

  /** write_all_from_socket_to_fd of interface.c; a negative size means "until the end". */
  method WriteAllFromSocketToFd(s: Stream, file: LocalFile, size: int) returns (total: int)
    requires s.Valid() && s.blocking
    modifies s`cursor, s`readCalls, file`content
    ensures s.Valid() && old(s.cursor) <= s.cursor
    ensures -1 <= total && (size >= 0 ==> total <= size)
    ensures total >= 0 ==>
      && s.cursor == old(s.cursor) + total
      && file.content == old(file.content) + s.input[old(s.cursor)..s.cursor]
    ensures Reliable(s.readScript) ==>
      total == if 0 <= size <= |s.input| - old(s.cursor) then size else |s.input| - old(s.cursor)
  {
    var buffer := new byte[4096];
    total := 0;
    var left := size;
    while left != 0
      invariant 0 <= total && left == size - total && (size >= 0 ==> left >= 0)
      invariant s.Valid() && s.cursor == old(s.cursor) + total
      invariant file.content == old(file.content) + s.input[old(s.cursor)..s.cursor]
      decreases s.ReadPatience(), |s.input| - s.cursor
    {
      ghost var at := s.cursor;
      var r, errno := s.Read(buffer, 0, if 4096 < left || left < 0 then 4096 else left);
      if r == -1 {
        if errno == EINTR || errno == EAGAIN {
          continue;
        }
        return -1;
      } else if r == 0 {
        break;
      }
      HeldBytes(buffer, r, s.input, at);
      Joined(s.input, old(s.cursor), at, s.cursor);
      left := left - r;
      total := total + r;
      file.Append(buffer[..r]);
    }
  }

  /** Pieces one after the other. */
  function Together(pieces: seq<Bytes>): Bytes {
    if pieces == [] then []
    else
      var n := |pieces| - 1;
      Together(pieces[..n]) + pieces[n]
  }

  lemma TogetherOneMore(pieces: seq<Bytes>, piece: Bytes)
    ensures Together(pieces + [piece]) == Together(pieces) + piece
  {
    assert (pieces + [piece])[..|pieces|] == pieces;
  }

  /** Where the block that ends at `to` begins, in data cut into blocks of BUF_SIZE bytes. */
  function BlockStart(to: nat): (from: nat)
    requires to > 0
    ensures from < to
  {
    (to - 1) - (to - 1) % BUF_SIZE
  }

  /** `pieces` are first parts of the blocks up to a position, one of each. */
  predicate PartOfFirst(data: Bytes, pieces: seq<Bytes>, position: nat)
    requires position <= |data|
  {
    if pieces == [] || position == 0 then pieces == [] && position == 0
    else
      var n, from := |pieces| - 1, BlockStart(position);
      pieces[n] <= data[from..position] && PartOfFirst(data, pieces[..n], from)
  }

  /** The same of all the blocks. */
  predicate PartOfEach(data: Bytes, pieces: seq<Bytes>) {
    PartOfFirst(data, pieces, |data|)
  }

  lemma BlockEnds(at: nat, n: nat)
    requires at % BUF_SIZE == 0 && 0 < n <= BUF_SIZE
    ensures BlockStart(at + n) == at
    ensures n == BUF_SIZE ==> (at + n) % BUF_SIZE == 0
  {
  }

  lemma NextPart(data: Bytes, pieces: seq<Bytes>, position: nat, n: nat, piece: Bytes)
    requires position + n <= |data| && 0 < n <= BUF_SIZE && position % BUF_SIZE == 0
    requires PartOfFirst(data, pieces, position) && piece <= data[position..position + n]
    ensures PartOfFirst(data, pieces + [piece], position + n)
  {
    BlockEnds(position, n);
    assert (pieces + [piece])[..|pieces|] == pieces;
  }

  /** What has gone out when the file has been read up to a position. */
  ghost predicate SoFar(base: Bytes, data: Bytes, position: nat, output: Bytes, reliable: bool, pieces: seq<Bytes>) {
    && position <= |data| && (position == |data| || position % BUF_SIZE == 0)
    && PartOfFirst(data, pieces, position) && output == base + Together(pieces)
    && (reliable ==> output == base + data[..position])
  }

  lemma SoFarMore(base: Bytes, data: Bytes, at: nat, n: nat, before: Bytes, after: Bytes, reliable: bool,
                  pieces: seq<Bytes>)
    requires SoFar(base, data, at, before, reliable, pieces)
    requires 0 < n == Least(BUF_SIZE, |data| - at)
    requires Extended(before, after, data[at..at + n]) && (reliable ==> after == before + data[at..at + n])
    ensures SoFar(base, data, at + n, after, reliable, pieces + [after[|before|..]])
  {
    var block := data[at..at + n];
    BlockEnds(at, n);
    OnePieceMore(base, pieces, before, after, block);
    NextPart(data, pieces, at, n, after[|before|..]);
    if reliable {
      Appended(base, data, at, at + n);
    }
  }

  /**
   write_binary_data of interface.c: the results of the writes are not looked at, so of each
   block of the file some first part goes out.
   */
  method WriteBinaryData(file: LocalFile, s: Stream) returns (ghost pieces: seq<Bytes>)
    requires file.position == 0
    modifies s`output, s`writeCalls, file`position
    ensures s.output == old(s.output) + Together(pieces) && PartOfEach(file.content, pieces)
    ensures Reliable(s.writeScript) ==> s.output == old(s.output) + file.content
    ensures file.position == |file.content|
  {
    var buffer := new byte[BUF_SIZE];
    var n := 1;
    pieces := [];
    ghost var base, reliable := s.output, Reliable(s.writeScript);
    assert base + [] == base && file.content[..0] == [];
    while n != 0
      invariant SoFar(base, file.content, file.position, s.output, reliable, pieces)
      invariant n == 0 ==> file.position == |file.content|
      decreases |file.content| - file.position, n
    {
      ghost var before, at := s.output, file.position;
      n := SendBlock(file, s, buffer);
      if n != 0 {
        SoFarMore(base, file.content, at, n, before, s.output, reliable, pieces);
        pieces := pieces + [s.output[|before|..]];
      }
    }
    assert file.content[..|file.content|] == file.content;
  }

  /** A round of its loop: the next block, if there is one. */
  method SendBlock(file: LocalFile, s: Stream, buffer: array<byte>) returns (n: nat)
    requires file.position <= |file.content| && buffer.Length == BUF_SIZE
    modifies s`output, s`writeCalls, file`position, buffer
    ensures n == Least(BUF_SIZE, |file.content| - old(file.position)) && file.position == old(file.position) + n
    ensures Extended(old(s.output), s.output, file.content[old(file.position)..file.position])
    ensures Reliable(s.writeScript) ==> s.output == old(s.output) + file.content[old(file.position)..file.position]
  {
    n := file.Read(buffer, BUF_SIZE);
    ghost var block := file.content[old(file.position)..file.position];
    assert block[..|block|] == block;
    if n != 0 {
      var _ := MyWrite(s, buffer[..n]);
    } else {
      assert s.output + block[..0] == s.output && s.output + block == s.output;
    }
  }

  lemma OnePieceMore(base: Bytes, pieces: seq<Bytes>, before: Bytes, after: Bytes, block: Bytes)
    requires before == base + Together(pieces) && Extended(before, after, block)
    ensures after[|before|..] <= block && after == base + Together(pieces + [after[|before|..]])
  {
    var piece := after[|before|..];
    TogetherOneMore(pieces, piece);
    assert base + Together(pieces) + piece == base + (Together(pieces) + piece);
  }
}
