/**
 The parsing half of a connection record of master.c, updated in place: get_command, get_size
 and get_binary_data over a non-blocking socket, the reset between messages, and do_put.
 */
module Connections {
  import opened Options
  import opened WireFormat
  import opened Transfers
  import opened FrameParser
  import opened MasterModel
  import opened MasterSteps

  datatype Status = Start | NeedSize | ReceivingData | ForwardData | ForwardingData | Overran

  datatype Code = DoneSending | NotDoneSending | BigFailure | OutOfBuffer

  /** What a read of the header ended with, as far as the bytes it consumed tell. */
  datatype Ending = Stopped | Broke | Newline | TooLong

  /** One read(), as the loops below tell its results apart. */
  datatype Answered = Brought | Retry | Again | Failure

  /** How they tell them: by the return value and errno. */
  function Verdict(a: Answer, more: bool): Answered {
    match a
    case Moves(_) => if more then Brought else Again
    case Interrupted => Retry
    case WouldBlock => Again
    case Broken => Failure
    case Closed => Failure
  }

  class Connection {
    const fd: int
    const socket: Stream
    const command: array<byte>
    var status: Status
    var commandSize: nat
    var todo: Verb
    var fileName: Option<Bytes>
    var fileSize: nat
    var sizeBufferPos: nat
    var isOpen: bool
    var fileOffset: nat

    /** The bytes of the size, and of the payload, that have come so far. */
    ghost var got: Bytes
    ghost var data: Bytes

    ghost predicate Valid()
      reads this, command, socket`cursor
    {
      && Usable()
      && match status
         case Start => AtHeader()
         case NeedSize => AtSize()
         case ReceivingData => AtPayload() && isOpen && fileSize > 0
         case ForwardData => fileName.Some?
         case ForwardingData => false
         case Overran => true
    }

    /** What the socket and the buffer are like at any time. */
    ghost predicate Usable()
      reads this, socket`cursor
    {
      socket.Valid() && !socket.blocking && command.Length == COMMAND_BUF_SIZE
    }

    ghost predicate AtHeader()
      reads this, command
    {
      && commandSize <= command.Length
      && (forall i :: commandSize <= i < command.Length ==> command[i] == NUL)
      && Cleared()
    }

    ghost predicate Cleared()
      reads this
    {
      fileSize == 0 && sizeBufferPos == 0 && !isOpen && fileOffset == 0 && got == [] && data == []
    }

    ghost predicate AtSize()
      reads this
    {
      && fileName.Some? && !isOpen && fileOffset == 0 && data == []
      && sizeBufferPos == |got| < SIZE_BYTES && fileSize == Decode(got)
    }

    ghost predicate AtPayload()
      reads this
    {
      fileName.Some? && fileOffset == |data| && (!isOpen ==> data == [])
    }

    /** Where the parser stands. */
    ghost function Phase(): FrameParser.Phase
      requires Valid()
      reads this, command, socket`cursor
    {
      match status
      case Start => Header(command[..commandSize])
      case NeedSize => Size(fileName.value, got)
      case ReceivingData => Payload(fileName.value, fileSize, data)
      case ForwardData => Ready(fileName.value, data)
      case Overran => FrameParser.Overrun
    }

    constructor (fd: int, socket: Stream)
      requires socket.Valid() && !socket.blocking
      ensures Valid() && this.fd == fd && this.socket == socket && fresh(command)
      ensures Phase() == FrameParser.FRESH
    {
      this.fd := fd;
      this.socket := socket;
      command := new byte[COMMAND_BUF_SIZE](_ => NUL);
      status := Start;
      commandSize, fileSize, sizeBufferPos, fileOffset := 0, 0, 0, 0;
      todo, fileName, isOpen := Put, None, false;
      got, data := [], [];
    }

    /** reset_worker_for_parsing, and the return to START after it. */
    method Reset()
      requires socket.Valid() && !socket.blocking && command.Length == COMMAND_BUF_SIZE
      modifies this, command
      ensures Valid() && Phase() == FrameParser.FRESH
      ensures forall i :: 0 <= i < command.Length ==> command[i] == NUL
    {
      var i := 0;
      while i < COMMAND_BUF_SIZE
        invariant 0 <= i <= COMMAND_BUF_SIZE == command.Length
        invariant socket.Valid()
        invariant forall j :: 0 <= j < i ==> command[j] == NUL
      {
        command[i] := NUL;
        i := i + 1;
      }
      commandSize, sizeBufferPos, fileSize, fileOffset := 0, 0, 0, 0;
      fileName, isOpen := None, false;
      got, data := [], [];
      status := Start;
    }

    /** What a call has consumed of the socket's input. */
    ghost function Consumed(from: nat): Bytes
      requires socket.Valid() && from <= socket.cursor
      reads this, socket`cursor
    {
      socket.input[from..socket.cursor]
    }

    /** read() into a local buffer of `count` bytes, and the look at its result and errno. */
    method ReadSome(count: nat) returns (answer: Answered, block: Bytes)
      requires socket.Valid() && !socket.blocking && 0 < count
      modifies socket`cursor, socket`readCalls
      ensures socket.Valid()
      ensures if answer == Brought then
          old(socket.cursor) < socket.cursor <= old(socket.cursor) + count
          && block == socket.input[old(socket.cursor)..socket.cursor]
        else socket.cursor == old(socket.cursor)
      ensures answer == Verdict(old(socket.NextRead()), old(socket.cursor) < |socket.input|)
      ensures socket.readCalls == old(socket.readCalls) + 1
    {
      var buff := new byte[count];
      ghost var at := socket.cursor;
      var r, errno := socket.Read(buff, 0, count);
      if r == -1 {
        return if errno == EAGAIN then Again else if errno == EINTR then Retry else Failure, [];
      } else if r == 0 {
        return Failure, [];
      }
      HeldBytes(buff, r, socket.input, at);
      return Brought, buff[..r];
    }

    /**
     The reading loop of get_command: header bytes go into the buffer until a newline, a
     failed read, or a byte for which there is no room.  `took` is what went into the buffer.
     */
    method ReadHeader() returns (ending: Ending, ghost took: Bytes)
      requires Valid() && status == Start
      modifies this`commandSize, command, socket`cursor, socket`readCalls
      ensures socket.Valid() && AtHeader() && old(socket.cursor) <= socket.cursor
      ensures command[..commandSize] == old(command[..commandSize]) + took && NEWLINE !in took
      ensures match ending
        case Newline => Consumed(old(socket.cursor)) == took + [NEWLINE]
        case TooLong =>
          && commandSize == COMMAND_BUF_SIZE && |Consumed(old(socket.cursor))| == |took| + 1
          && took <= Consumed(old(socket.cursor))
        case _ => Consumed(old(socket.cursor)) == took
      ensures ending == Broke <==> socket.Failed()
      ensures old(socket.readCalls) < socket.readCalls
      ensures old(socket.Offers()) ==> old(socket.cursor) < socket.cursor
    {
      ghost var line, from := command[..commandSize], socket.cursor;
      took := [];
      while true
        invariant socket.Valid() && from <= socket.cursor && status == Start
        invariant AtHeader() && commandSize == |line + took|
        invariant command[..commandSize] == line + took && NEWLINE !in took
        invariant took == socket.input[from..socket.cursor]
        invariant old(socket.readCalls) <= socket.readCalls
        invariant socket.cursor == from && old(socket.Offers()) ==> socket.Offers()
        decreases socket.ReadPatience(), |socket.input| - socket.cursor
      {
        ghost var at := socket.cursor;
        var answer, block := ReadSome(1);
        if answer == Again {
          return Stopped, took;
        } else if answer == Retry {
          continue;
        } else if answer == Failure {
          return Broke, took;
        }
        var b := block[0];
        OneMoreByte(line, took, socket.input, from, at);
        if b == NEWLINE {
          return Newline, took;
        }
        if commandSize == COMMAND_BUF_SIZE {
          return TooLong, took;
        }
        StoreByte(b, took, line);
        took := took + [b];
      }
    }

    /** command[command_size++] = b. */
    method StoreByte(b: byte, ghost took: Bytes, ghost line: Bytes)
      requires AtHeader() && commandSize < command.Length
      requires command[..commandSize] == line + took
      modifies this`commandSize, command
      ensures AtHeader() && commandSize == old(commandSize) + 1
      ensures command[..commandSize] == line + (took + [b])
    {
      ghost var before := command[..commandSize];
      command[commandSize] := b;
      commandSize := commandSize + 1;
      assert command[..commandSize] == before + [b];
      assert line + took + [b] == line + (took + [b]);
    }

    /** The end of get_command: the verb and the name in a complete line. */
    method ParseCommand() returns (code: Code)
      requires AtHeader() && commandSize < command.Length
      modifies this`todo, this`fileName
      ensures ParseHeader(command[..commandSize])
           == if code == DoneSending && fileName.Some? then Some((todo, fileName.value)) else None
      ensures code == BigFailure || (code == DoneSending && fileName.Some?)
    {
      TerminatedLine(command[..commandSize], command[..]);
      var text := CString(command[..]);
      var verb := VerbOf(text);
      if verb == None {
        return BigFailure;
      }
      todo := verb.value;
      fileName := Some(NameOf(text));
      code := if fileName.value == [] then BigFailure else DoneSending;
    }

    /** get_command. */
    method GetCommand() returns (code: Code, ghost took: Bytes)
      requires Valid() && status == Start
      modifies this`commandSize, this`status, this`todo, this`fileName, command, socket`cursor, socket`readCalls
      ensures socket.Valid() && old(socket.cursor) <= socket.cursor && NEWLINE !in took
      ensures var line := old(command[..commandSize]) + took;
        var s := Consumed(old(socket.cursor));
        match code
        case NotDoneSending => Valid() && status == Start && Phase() == Header(line) && s == took
        case BigFailure =>
          && Valid() && status == Start && Phase() == Header(line)
          && (s == took || (s == took + [NEWLINE] && |line| < COMMAND_BUF_SIZE && ParseHeader(line) == None))
        case DoneSending =>
          && AtHeader() && status == Start && s == took + [NEWLINE] && |line| < COMMAND_BUF_SIZE
          && fileName.Some? && ParseHeader(line) == Some((todo, fileName.value))
        case OutOfBuffer =>
          && Valid() && status == Overran && |line| == COMMAND_BUF_SIZE
          && |s| == |took| + 1 && took <= s
      ensures socket.Failed() <==> code == BigFailure && Consumed(old(socket.cursor)) == took
      ensures old(socket.readCalls) < socket.readCalls
      ensures old(socket.Offers()) ==> old(socket.cursor) < socket.cursor
    {
      var ending: Ending;
      ending, took := ReadHeader();
      if ending == Stopped {
        return NotDoneSending, took;
      } else if ending == Broke {
        return BigFailure, took;
      } else if ending == TooLong || commandSize == COMMAND_BUF_SIZE {
        // a byte past the end, or a full buffer read as a string that nothing terminates
        status := Overran;
        return OutOfBuffer, took;
      }
      code := ParseCommand();
    }

    /** filesize[size_buffer_pos++] = b. */
    method StoreSizeByte(b: byte)
      requires AtSize()
      modifies this`fileSize, this`sizeBufferPos, this`got
      ensures got == old(got) + [b] && fileSize == Decode(got) && sizeBufferPos == |got|
      ensures |got| < SIZE_BYTES ==> AtSize()
    {
      DecodeAppended(got, b);
      fileSize := SetByte(fileSize, sizeBufferPos, b);
      sizeBufferPos := sizeBufferPos + 1;
      got := got + [b];
    }

    /** get_size: the bytes go straight into the size variable. */
    method GetSize() returns (code: Code, ghost took: Bytes)
      requires socket.Valid() && !socket.blocking && AtSize()
      modifies this`fileSize, this`sizeBufferPos, this`got, socket`cursor, socket`readCalls
      ensures socket.Valid() && old(socket.cursor) <= socket.cursor && took == Consumed(old(socket.cursor))
      ensures got == old(got) + took
      ensures match code
        case DoneSending => |got| == SIZE_BYTES && took != [] && fileSize == Decode(got)
        case OutOfBuffer => false
        case _ => AtSize()
      ensures code == BigFailure <==> socket.Failed()
      ensures old(socket.readCalls) < socket.readCalls
      ensures old(socket.Offers()) ==> old(socket.cursor) < socket.cursor
    {
      ghost var from, before := socket.cursor, got;
      took := [];
      while true
        invariant socket.Valid() && from <= socket.cursor && AtSize()
        invariant got == before + took && took == socket.input[from..socket.cursor]
        invariant old(socket.readCalls) <= socket.readCalls
        invariant socket.cursor == from && old(socket.Offers()) ==> socket.Offers()
        decreases socket.ReadPatience(), |socket.input| - socket.cursor
      {
        ghost var at := socket.cursor;
        var answer, block := ReadSome(1);
        if answer == Again {
          return NotDoneSending, took;
        } else if answer == Retry {
          continue;
        } else if answer == Failure {
          return BigFailure, took;
        }
        OneMoreByte(before, took, socket.input, from, at);
        StoreSizeByte(block[0]);
        took := took + [block[0]];
        if sizeBufferPos == SIZE_BYTES {
          return DoneSending, took;
        }
      }
    }

    /** write_all_to_socket on the temporary file, which takes every byte. */
    method WriteBlock(files: map<Bytes, Bytes>, block: Bytes) returns (after: map<Bytes, Bytes>)
      requires AtPayload() && isOpen && 0 < |block| <= fileSize
      modifies this`fileSize, this`fileOffset, this`data
      ensures AtPayload() && data == old(data) + block && fileSize == old(fileSize) - |block|
      ensures after == BlockFiles(files, fileName.value, |old(data)|, block)
    {
      after := files[fileName.value := WriteAt(Content(files, fileName.value), fileOffset, block)];
      fileOffset := fileOffset + |block|;
      data := data + block;
      fileSize := fileSize - |block|;
    }

    /** get_binary_data, with the files before and after. */
    method GetBinaryData(files: map<Bytes, Bytes>) returns (code: Code, after: map<Bytes, Bytes>, ghost took: Bytes)
      requires socket.Valid() && !socket.blocking && AtPayload()
      modifies this`fileSize, this`isOpen, this`fileOffset, this`data, socket`cursor, socket`readCalls
      ensures socket.Valid() && old(socket.cursor) <= socket.cursor && took == Consumed(old(socket.cursor))
      ensures isOpen && AtPayload() && data == old(data) + took && |took| + fileSize == old(fileSize)
      ensures after == BlockFiles(if old(isOpen) then files else files[fileName.value := []],
                                  fileName.value, |old(data)|, took)
      ensures code == DoneSending <==> fileSize == 0
      ensures code != OutOfBuffer
      ensures old(fileSize) > 0 ==>
        old(socket.readCalls) < socket.readCalls && (code == BigFailure <==> socket.Failed())
      ensures old(fileSize) == 0 ==> socket.readCalls == old(socket.readCalls)
      ensures old(fileSize) > 0 && old(socket.Offers()) ==> old(socket.cursor) < socket.cursor
    {
      after := files;
      if !isOpen {
        after := after[fileName.value := []];
        isOpen, fileOffset := true, 0;
      }
      code, after, took := Fill(after);
    }

    /** A round of its loop: one read of a block, and its way into the file. */
    method FillSome(files: map<Bytes, Bytes>) returns (answer: Answered, after: map<Bytes, Bytes>, ghost block: Bytes)
      requires socket.Valid() && !socket.blocking && AtPayload() && isOpen && fileSize > 0
      modifies this`fileSize, this`fileOffset, this`data, socket`cursor, socket`readCalls
      ensures socket.Valid() && AtPayload() && socket.readCalls == old(socket.readCalls) + 1
      ensures answer == Verdict(old(socket.NextRead()), old(socket.cursor) < |socket.input|)
      ensures old(socket.cursor) <= socket.cursor && block == socket.input[old(socket.cursor)..socket.cursor]
      ensures answer == Brought <==> block != []
      ensures data == old(data) + block && |block| + fileSize == old(fileSize)
      ensures after == BlockFiles(files, fileName.value, |old(data)|, block)
    {
      var bytes: Bytes;
      answer, bytes := ReadSome(if fileSize < FILE_BUFFER_SIZE then fileSize else FILE_BUFFER_SIZE);
      after, block := files, [];
      if answer == Brought {
        block := bytes;
        after := WriteBlock(files, bytes);
      } else {
        assert data + [] == data;
      }
    }

    /** Its loop. */
    method Fill(files: map<Bytes, Bytes>) returns (code: Code, after: map<Bytes, Bytes>, ghost took: Bytes)
      requires socket.Valid() && !socket.blocking && AtPayload() && isOpen
      modifies this`fileSize, this`fileOffset, this`data, socket`cursor, socket`readCalls
      ensures socket.Valid() && old(socket.cursor) <= socket.cursor && took == Consumed(old(socket.cursor))
      ensures AtPayload() && data == old(data) + took && |took| + fileSize == old(fileSize)
      ensures after == BlockFiles(files, fileName.value, |old(data)|, took)
      ensures code == DoneSending <==> fileSize == 0
      ensures code != OutOfBuffer
      ensures old(fileSize) > 0 ==>
        old(socket.readCalls) < socket.readCalls && (code == BigFailure <==> socket.Failed())
      ensures old(fileSize) == 0 ==> socket.readCalls == old(socket.readCalls)
      ensures old(fileSize) > 0 && old(socket.Offers()) ==> old(socket.cursor) < socket.cursor
    {
      after, took := files, [];
      ghost var from, before, name := socket.cursor, data, fileName.value;
      while fileSize > 0
        invariant socket.Valid() && from <= socket.cursor && AtPayload()
        invariant took == socket.input[from..socket.cursor]
        invariant data == before + took && |took| + fileSize == old(fileSize)
        invariant after == BlockFiles(files, name, |before|, took)
        invariant old(socket.readCalls) <= socket.readCalls
        invariant old(fileSize) == 0 ==> socket.readCalls == old(socket.readCalls)
        invariant fileSize < old(fileSize) ==> old(socket.readCalls) < socket.readCalls && !socket.Failed()
        invariant socket.cursor == from && old(socket.Offers()) ==> socket.Offers()
        decreases socket.ReadPatience(), fileSize
      {
        ghost var at, block := socket.cursor, [];
        var answer: Answered;
        BlocksTwice(files, name, before, took);
        answer, after, block := FillSome(after);
        MoreBytes(before, took, block, socket.input, from, at, socket.cursor);
        took := took + block;
        if answer == Again {
          return NotDoneSending, after, took;
        } else if answer == Failure {
          return BigFailure, after, took;
        }
      }
      code := DoneSending;
    }
  }

  lemma OneMoreByte(before: Bytes, took: Bytes, input: Bytes, from: nat, at: nat)
    requires from <= at < |input| && took == input[from..at]
    ensures took + [input[at]] == input[from..at + 1]
    ensures before + took + [input[at]] == before + (took + [input[at]])
  {
  }

  lemma BlocksTwice(files: map<Bytes, Bytes>, name: Bytes, before: Bytes, s: Bytes)
    ensures forall t: Bytes ::
      BlockFiles(BlockFiles(files, name, |before|, s), name, |before + s|, t)
      == BlockFiles(files, name, |before|, s + t)
  {
    forall t: Bytes
      ensures BlockFiles(BlockFiles(files, name, |before|, s), name, |before + s|, t)
           == BlockFiles(files, name, |before|, s + t)
    {
      BlockTwice(files, name, |before|, s, t);
    }
  }

  lemma MoreBytes(before: Bytes, took: Bytes, block: Bytes, input: Bytes, from: nat, at: nat, to: nat)
    requires from <= at <= to <= |input| && took == input[from..at] && block == input[at..to]
    ensures took + block == input[from..to]
    ensures before + took + block == before + (took + block)
  {
  }

  // ---------------------------------------------------------------------------
  // Passing a message on
  // ---------------------------------------------------------------------------

  /**
   do_put for a stored file of the given name and content.  Nothing but a first part of the
   message ever goes out.
   */
  method DoPut(dest: Stream, name: Bytes, content: Bytes) returns (code: Code)
    modifies dest`output, dest`writeCalls
    ensures var message := Print(Put, Frame(name, content));
      && Extended(old(dest.output), dest.output, message)
      && (code == DoneSending ==> dest.output == old(dest.output) + message)
      && (Patient(dest.writeScript) ==> code == DoneSending)
  {
    var head := PUT + [SPACE] + name + [NEWLINE];
    code := SendParts(dest, head, EncodeSize(|content|), content);
  }

  /** Its three parts, one after the other. */
  method SendParts(dest: Stream, head: Bytes, size: Bytes, content: Bytes) returns (code: Code)
    modifies dest`output, dest`writeCalls
    ensures Extended(old(dest.output), dest.output, head + size + content)
    ensures code == DoneSending ==> dest.output == old(dest.output) + (head + size + content)
    ensures Patient(dest.writeScript) ==> code == DoneSending
  {
    ghost var start := dest.output;
    var n := WriteAllToSocket(dest, head);
    if n != |head| {
      ExtendedMore(start, dest.output, head + size + content, head, size + content);
      return BigFailure;
    }
    n := WriteAllToSocket(dest, size);
    if n != |size| {
      ExtendedOnwards(start, dest.output, head + size, head, size);
      ExtendedMore(start, dest.output, head + size + content, head + size, content);
      return BigFailure;
    }
    code := SendContent(dest, content);
    ExtendedOnwards(start, dest.output, head + size + content, head + size, content);
  }

  /** The loop of do_put over the stored file, 4096 bytes at a time. */
  method SendContent(dest: Stream, content: Bytes) returns (code: Code)
    modifies dest`output, dest`writeCalls
    ensures Extended(old(dest.output), dest.output, content)
    ensures code == DoneSending ==> dest.output == old(dest.output) + content
    ensures code == DoneSending || code == BigFailure
    ensures Patient(dest.writeScript) ==> code == DoneSending
  {
    var fileSize, position := |content|, 0;
    while fileSize != 0
      invariant 0 <= position && 0 <= fileSize && position + fileSize == |content|
      invariant dest.output == old(dest.output) + content[..position]
      decreases fileSize
    {
      var r := if fileSize < FILE_BUFFER_SIZE then fileSize else FILE_BUFFER_SIZE;
      var buff := content[position..position + r];
      var n := WriteAllToSocket(dest, buff);
      ExtendedTwice(old(dest.output), dest.output, content, position, position + r);
      if n == -1 || n == 0 || n != r {
        return BigFailure;
      }
      Appended(old(dest.output), content, position, position + r);
      position := position + r;
      fileSize := fileSize - r;
    }
    code := DoneSending;
  }
}
