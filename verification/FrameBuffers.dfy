/** `iap_frame_t` as a mutable record, and the C encoder that serialises it into an output array. */
module FrameBuffers {
  import opened Bytes
  import opened Crc
  import opened Frames

  class FrameBuffer {
    var version: byte
    var command: byte
    var sequence: u16
    var payloadLength: u16
    const payload: array<byte>

    constructor ()
      ensures fresh(payload) && payload.Length == MAX_PAYLOAD
      ensures payloadLength == 0
    {
      version, command, sequence, payloadLength := 0, 0, 0, 0;
      payload := new byte[MAX_PAYLOAD];
    }

    ghost predicate Valid()
      reads this
    {
      payload.Length == MAX_PAYLOAD && payloadLength <= MAX_PAYLOAD
    }

    ghost function Value(): Frame
      requires payloadLength <= payload.Length
      reads this, payload
    {
      Frame(version, command, sequence, payload[..payloadLength])
    }
  }

  method WriteLe16(output: array<byte>, at: nat, value: u16)
    requires at + 2 <= output.Length
    modifies output
    ensures output[at..at + 2] == Le16(value)
    ensures forall i :: 0 <= i < output.Length && !(at <= i < at + 2) ==> output[i] == old(output[i])
  {
    output[at], output[at + 1] := value % 0x100, value / 0x100;
  }

  method WriteLe32(output: array<byte>, at: nat, value: u32)
    requires at + 4 <= output.Length
    modifies output
    ensures output[at..at + 4] == Le32(value)
    ensures forall i :: 0 <= i < output.Length && !(at <= i < at + 4) ==> output[i] == old(output[i])
  {
    output[at], output[at + 1] := value % 0x100, value / 0x100 % 0x100;
    output[at + 2], output[at + 3] := value / 0x1_0000 % 0x100, value / 0x100_0000;
  }

  /** `iap_protocol_encode`: the C encoder writes exactly the bytes of the Python encoder, or nothing. */
  method EncodeInto(frame: FrameBuffer, output: array<byte>) returns (ok: bool, length: nat)
    requires frame.payload.Length == MAX_PAYLOAD && output != frame.payload
    modifies output
    ensures ok <==> frame.payloadLength <= MAX_PAYLOAD && output.Length >= MIN_FRAME + frame.payloadLength
    ensures ok ==> length == MIN_FRAME + frame.payloadLength
    ensures ok ==> EncodeFrame(frame.Value()) == Some(output[..length]) && output[length..] == old(output[length..])
    ensures !ok ==> length == 0 && output[..] == old(output[..])
  {
    hide Crc32, Crc16, Le32, HeaderInput;
    if frame.payloadLength > MAX_PAYLOAD {
      return false, 0;
    }
    var frameLength := HEADER_SIZE + frame.payloadLength + TRAILER_SIZE;
    if output.Length < frameLength {
      return false, 0;
    }
    WriteHeader(frame, output);
    WriteBody(frame, output);
    ghost var n := HEADER_SIZE + frame.payloadLength;
    assert output[..frameLength] == output[..HEADER_SIZE] + output[HEADER_SIZE..n] + output[n..frameLength];
    return true, frameLength;
  }

  method WriteHeader(frame: FrameBuffer, output: array<byte>)
    requires frame.Valid() && output != frame.payload && output.Length >= HEADER_SIZE
    modifies output
    ensures output[..HEADER_SIZE] == Header(frame.Value())
    ensures forall i :: HEADER_SIZE <= i < output.Length ==> output[i] == old(output[i])
  {
    ghost var f := frame.Value();
    output[0], output[1], output[2], output[3] := SOF_FIRST, SOF_SECOND, frame.version, frame.command;
    WriteLe16(output, 4, frame.sequence);
    ghost var sequence := output[4..6];
    WriteLe16(output, 6, frame.payloadLength);
    assert output[4..6] == sequence;
    assert output[2..8] == [output[2], output[3]] + output[4..6] + output[6..8] == HeaderInput(f);
    var headerCrc := ComputeCrc16(output, 2, 6);
    ghost var input := output[2..8];
    WriteLe16(output, 8, headerCrc);
    assert output[2..8] == input;
    assert output[..HEADER_SIZE] == [output[0], output[1]] + output[2..8] + output[8..10];
  }

  method WriteBody(frame: FrameBuffer, output: array<byte>)
    requires frame.Valid() && output != frame.payload && output.Length >= MIN_FRAME + frame.payloadLength
    modifies output
    ensures output[..HEADER_SIZE] == old(output[..HEADER_SIZE])
    ensures output[HEADER_SIZE..HEADER_SIZE + frame.payloadLength] == frame.Value().payload
    ensures output[HEADER_SIZE + frame.payloadLength..MIN_FRAME + frame.payloadLength]
      == Le32(Crc32(frame.Value().payload))
    ensures forall i :: MIN_FRAME + frame.payloadLength <= i < output.Length ==> output[i] == old(output[i])
  {
    var n := HEADER_SIZE + frame.payloadLength;
    ghost var payload := frame.Value().payload;
    forall i | 0 <= i < frame.payloadLength {
      output[HEADER_SIZE + i] := frame.payload[i];
    }
    assert output[HEADER_SIZE..n] == payload;
    var payloadCrc := ComputeCrc32(frame.payload, 0, frame.payloadLength);
    assert frame.payload[0..0 + frame.payloadLength as int] == payload;
    WriteLe32(output, n, payloadCrc);
  }
}
