/** The byte-at-a-time C parser, with its fixed buffer and in-place resynchronisation. */
module Parser {
  import opened Bytes
  import opened Crc
  import opened Frames
  import opened FrameBuffers
  import opened Scanner

  datatype ParseResult = NoFrame | FrameReady | HeaderError | PayloadCrcError | Overflow

  /** What one more byte does to a pending buffer, case by case. */
  lemma PushScan(s: seq<byte>, b: byte)
    requires Pending(s)
    ensures var t := s + [b]; var scan := ScanStream(t);
      if |t| == 1 then scan == Scan([], if b == SOF_FIRST then t else [])
      else if |t| == 2 && b == SOF_FIRST then scan == Scan([], s)
      else if |t| == 2 && b != SOF_SECOND then scan == Scan([], [])
      else if |t| < HEADER_SIZE then scan == Scan([], t)
      else if !HeaderOk(t) then |t| == HEADER_SIZE && scan == ScanStream(t[1..])
      else if |t| < MIN_FRAME + PayloadLength(t) then scan == Scan([], t)
      else |t| == MIN_FRAME + PayloadLength(t) && scan == Emit(Decode(t), Scan([], []))
  {
    var t := s + [b];
    if |t| == 2 {
      assert t[1..] == [b];
    } else if |t| > HEADER_SIZE {
      HeaderStable(s, [b]);
      assert t[..|t|] == t && t[|t|..] == [];
    }
  }

  lemma PendingIsShort(s: seq<byte>)
    requires Pending(s)
    ensures |s| < MAX_FRAME
  {
  }

  class Parser {
    const buffer: array<byte>
    var length: nat

    constructor ()
      ensures Valid() && length == 0 && fresh(buffer)
    {
      buffer := new byte[MAX_FRAME];
      length := 0;
    }

    ghost predicate Valid()
      reads this, buffer
    {
      buffer.Length == MAX_FRAME && length <= MAX_FRAME && Pending(buffer[..length])
    }

    /** `parser_keep_possible_sof`: keep the bytes from the next possible start of frame. */
    method KeepPossibleSof()
      requires buffer.Length == MAX_FRAME && length == HEADER_SIZE
      modifies this`length, buffer
      ensures length < HEADER_SIZE
      ensures Scan([], buffer[..length]) == ScanStream(old(buffer[1..length]))
    {
      ghost var s := buffer[..length];
      assert s[1..] == buffer[1..length];
      var index := 1;
      while index + 1 < length
        invariant 1 <= index < length == HEADER_SIZE
        invariant buffer[..length] == s
        invariant ScanStream(s[1..]) == ScanStream(s[index..])
      {
        if buffer[index] == SOF_FIRST && buffer[index + 1] == SOF_SECOND {
          var remaining := length - index;
          assert StartsFrame(s[index..]);
          forall i | 0 <= i < remaining {
            buffer[i] := buffer[index + i];
          }
          length := remaining;
          assert buffer[..length] == s[index..];
          return;
        }
        assert !StartsFrame(s[index..]) && s[index..][1..] == s[index + 1..];
        index := index + 1;
      }
      assert s[index..] == [buffer[length - 1]];
      if length > 0 && buffer[length - 1] == SOF_FIRST {
        buffer[0] := SOF_FIRST;
        length := 1;
        assert buffer[..length] == [SOF_FIRST];
      } else {
        length := 0;
      }
    }

    /** `iap_protocol_parser_push`: one byte advances the parser exactly as the reference scan does. */
    method Push(b: byte, frame: FrameBuffer) returns (result: ParseResult)
      requires Valid() && frame.payload.Length == MAX_PAYLOAD && frame.payload != buffer
      modifies this`length, buffer, frame, frame.payload
      ensures Valid()
      ensures buffer[..length] == ScanStream(old(buffer[..length]) + [b]).rest
      ensures result == FrameReady ==>
        frame.Valid() && ScanStream(old(buffer[..length]) + [b]).frames == [frame.Value()]
      ensures result != FrameReady ==> ScanStream(old(buffer[..length]) + [b]).frames == []
      ensures result != FrameReady ==> unchanged(frame) && unchanged(frame.payload)
      ensures result == HeaderError ==> old(length) == HEADER_SIZE - 1 && length < HEADER_SIZE
      ensures result == FrameReady || result == PayloadCrcError ==> length == 0
      ensures result != Overflow
    {
      hide ScanStream, Decode, HeaderOk, PayloadLength;
      ghost var s := buffer[..length];
      PendingIsShort(s);
      PushScan(s, b);
      RestIsPending(s + [b]);
      if length == 0 && b != SOF_FIRST {
        return NoFrame;
      }
      if length == 1 {
        if b == SOF_FIRST {
          buffer[0] := b;
          assert buffer[..length] == s;
          return NoFrame;
        }
        if b != SOF_SECOND {
          length := 0;
          return NoFrame;
        }
      }
      if length >= buffer.Length {
        assert false;
      }
      buffer[length] := b;
      length := length + 1;
      assert buffer[..length] == s + [b];
      if length < HEADER_SIZE {
        return NoFrame;
      }
      result := Examine(frame);
    }

    /** The candidate has a full header: it is dropped, waited for, or complete. */
    method Examine(frame: FrameBuffer) returns (result: ParseResult)
      requires buffer.Length == MAX_FRAME && frame.payload.Length == MAX_PAYLOAD && frame.payload != buffer
      requires HEADER_SIZE <= length <= MAX_FRAME && StartsFrame(buffer[..length])
      requires !HeaderOk(buffer[..length]) ==> length == HEADER_SIZE
      requires HeaderOk(buffer[..length]) ==> length <= MIN_FRAME + PayloadLength(buffer[..length])
      modifies this`length, buffer, frame, frame.payload
      ensures length <= MAX_FRAME && buffer[..length] == ScanStream(old(buffer[..length])).rest
      ensures result == FrameReady ==> frame.Valid() && ScanStream(old(buffer[..length])).frames == [frame.Value()]
      ensures result != FrameReady ==> ScanStream(old(buffer[..length])).frames == []
      ensures result != FrameReady ==> unchanged(frame) && unchanged(frame.payload)
      ensures result == HeaderError ==> old(length) == HEADER_SIZE && length < HEADER_SIZE
      ensures result == FrameReady || result == PayloadCrcError ==> length == 0
      ensures result != Overflow
    {
      ghost var t := buffer[..length];
      var headerOk, payloadLength := CheckHeader();
      if !headerOk {
        assert t[1..] == buffer[1..length];
        KeepPossibleSof();
        return HeaderError;
      }
      var expectedLength := HEADER_SIZE + payloadLength + TRAILER_SIZE;
      if length < expectedLength {
        return NoFrame;
      }
      assert t[..length] == t && t[length..] == [];
      var payloadOk := CheckPayload(payloadLength);
      if !payloadOk {
        length := 0;
        return PayloadCrcError;
      }
      CopyFrame(payloadLength, frame);
      length := 0;
      return FrameReady;
    }

    method CheckHeader() returns (ok: bool, payloadLength: u16)
      requires HEADER_SIZE <= length <= buffer.Length
      ensures payloadLength == PayloadLength(buffer[..length])
      ensures ok == HeaderOk(buffer[..length])
    {
      ghost var t := buffer[..length];
      payloadLength := ReadLe16(buffer[6..8], 0);
      var received := ReadLe16(buffer[8..10], 0);
      var actual := ComputeCrc16(buffer, 2, 6);
      assert buffer[2..8] == t[2..8];
      ok := !(payloadLength > MAX_PAYLOAD || received != actual);
    }

    method CheckPayload(payloadLength: u16) returns (ok: bool)
      requires length == MIN_FRAME + payloadLength <= buffer.Length
      requires StartsFrame(buffer[..length]) && HeaderOk(buffer[..length])
      requires payloadLength == PayloadLength(buffer[..length])
      ensures ok == Decode(buffer[..length]).Ok?
    {
      ghost var t := buffer[..length];
      var n := HEADER_SIZE + payloadLength;
      var received := ReadLe32(buffer[n..n + 4], 0);
      var actual := ComputeCrc32(buffer, HEADER_SIZE, payloadLength);
      assert t[..n] == buffer[..n] && buffer[HEADER_SIZE..n] == t[..n][HEADER_SIZE..];
      ok := received == actual;
    }

    method CopyFrame(payloadLength: u16, frame: FrameBuffer)
      requires length == MIN_FRAME + payloadLength <= buffer.Length == MAX_FRAME
      requires frame.payload.Length == MAX_PAYLOAD && frame.payload != buffer
      requires Decode(buffer[..length]).Ok?
      modifies frame, frame.payload
      ensures frame.Valid() && Decode(buffer[..length]) == Ok(frame.Value())
    {
      ghost var t := buffer[..length];
      var n := HEADER_SIZE + payloadLength;
      frame.version, frame.command := buffer[2], buffer[3];
      frame.sequence := ReadLe16(buffer[4..6], 0);
      frame.payloadLength := payloadLength;
      forall i | 0 <= i < payloadLength {
        frame.payload[i] := buffer[HEADER_SIZE + i];
      }
      assert forall i :: 0 <= i < payloadLength ==> frame.payload[i] == t[HEADER_SIZE + i];
      assert frame.payload[..payloadLength] == t[HEADER_SIZE..n];
      assert buffer[..length] == t && n == |t| - TRAILER_SIZE;
      ghost var value := frame.Value();
      assert value.payload == t[HEADER_SIZE..n] && value.sequence == ReadLe16(t, 4);
    }

    /** The receive loop of `iap_service_task`: a whole input, byte by byte. */
    method PushAll(input: seq<byte>, frame: FrameBuffer) returns (frames: seq<Frame>)
      requires Valid() && frame.payload.Length == MAX_PAYLOAD && frame.payload != buffer
      modifies this`length, buffer, frame, frame.payload
      ensures Valid()
      ensures Scan(frames, buffer[..length]) == ScanStream(old(buffer[..length]) + input)
    {
      ghost var start := buffer[..length];
      frames := [];
      PendingIsFixed(start);
      assert start + input[..0] == start;
      for index := 0 to |input|
        invariant Valid()
        invariant Scan(frames, buffer[..length]) == ScanStream(start + input[..index])
      {
        ScanAppend(start + input[..index], [input[index]]);
        assert start + input[..index + 1] == start + input[..index] + [input[index]];
        var result := Push(input[index], frame);
        if result == FrameReady {
          var payload := frame.payload[..frame.payloadLength];
          frames := frames + [Frame(frame.version, frame.command, frame.sequence, payload)];
        }
      }
      assert input[..|input|] == input;
    }
  }
}
