/** The frame format: encoding, decoding, and the proof that they are inverse in both directions. */
module Frames {
  import opened Bytes
  import opened Crc

  const SOF_FIRST: byte := 0xA5
  const SOF_SECOND: byte := 0x5A
  const PROTOCOL_VERSION: byte := 1
  const MAX_PAYLOAD: nat := 1024
  const HEADER_SIZE: nat := 10
  const TRAILER_SIZE: nat := 4
  const MIN_FRAME: nat := 14
  const MAX_FRAME: nat := 1038

  const HELLO: byte := 0x01
  const INFO: byte := 0x02
  const BEGIN: byte := 0x10
  const DATA: byte := 0x11
  const END: byte := 0x12
  const ABORT: byte := 0x13
  const BOOT: byte := 0x20

  datatype Frame = Frame(version: byte, command: byte, sequence: u16, payload: seq<byte>)
  {
    predicate Valid() {
      |payload| <= MAX_PAYLOAD
    }
  }

  datatype DecodeError = Truncated | BadSof | TooLong | BadHeaderCrc | LengthMismatch | BadPayloadCrc

  /** A response carries the request command with its top bit set. */
  function ResponseCommand(command: byte): byte {
    if command < 0x80 then command + 0x80 else command
  }

  /** The six bytes covered by the header checksum. */
  function HeaderInput(f: Frame): (s: seq<byte>)
    requires f.Valid()
    ensures |s| == 6
  {
    [f.version, f.command] + Le16(f.sequence) + Le16(|f.payload|)
  }

  function Header(f: Frame): (s: seq<byte>)
    requires f.Valid()
    ensures |s| == HEADER_SIZE
  {
    [SOF_FIRST, SOF_SECOND] + HeaderInput(f) + Le16(Crc16(HeaderInput(f)))
  }

  function Encode(f: Frame): (s: seq<byte>)
    requires f.Valid()
    ensures |s| == MIN_FRAME + |f.payload|
  {
    Header(f) + f.payload + Le32(Crc32(f.payload))
  }

  /** `encode_frame`: the only rejection that field types do not already exclude. */
  function EncodeFrame(f: Frame): Option<seq<byte>> {
    if f.Valid() then Some(Encode(f)) else None
  }

  predicate StartsFrame(s: seq<byte>) {
    |s| >= 2 && s[0] == SOF_FIRST && s[1] == SOF_SECOND
  }

  function PayloadLength(s: seq<byte>): u16
    requires |s| >= HEADER_SIZE
  {
    ReadLe16(s, 6)
  }

  predicate HeaderOk(s: seq<byte>)
    requires |s| >= HEADER_SIZE
  {
    PayloadLength(s) <= MAX_PAYLOAD && ReadLe16(s, 8) == Crc16(s[2..8])
  }

  /** `decode_frame`, with its checks in the order in which it makes them. */
  function Decode(raw: seq<byte>): Result<Frame, DecodeError> {
    if |raw| < MIN_FRAME then Err(Truncated)
    else if !StartsFrame(raw) then Err(BadSof)
    else if PayloadLength(raw) > MAX_PAYLOAD then Err(TooLong)
    else if !HeaderOk(raw) then Err(BadHeaderCrc)
    else if |raw| != MIN_FRAME + PayloadLength(raw) then Err(LengthMismatch)
    else
      var payload := raw[HEADER_SIZE..|raw| - TRAILER_SIZE];
      if ReadLe32(raw, |raw| - TRAILER_SIZE) != Crc32(payload) then Err(BadPayloadCrc)
      else Ok(Frame(raw[2], raw[3], ReadLe16(raw, 4), payload))
  }

  lemma EncodedLayout(f: Frame)
    requires f.Valid()
    ensures var s := Encode(f);
      && StartsFrame(s) && HeaderOk(s) && PayloadLength(s) == |f.payload|
      && s[2] == f.version && s[3] == f.command && ReadLe16(s, 4) == f.sequence
      && s[HEADER_SIZE..|s| - TRAILER_SIZE] == f.payload
      && ReadLe32(s, |s| - TRAILER_SIZE) == Crc32(f.payload)
  {
    var s := Encode(f);
    assert s[4..6] == Le16(f.sequence) && s[6..8] == Le16(|f.payload|);
    assert s[2..8] == HeaderInput(f) && s[8..10] == Le16(Crc16(HeaderInput(f)));
    Le16Inverse(s, 4, f.sequence);
    Le16Inverse(s, 6, |f.payload|);
    Le16Inverse(s, 8, Crc16(HeaderInput(f)));
    assert s[|s| - 4..|s|] == Le32(Crc32(f.payload));
    Le32Inverse(s, |s| - 4, Crc32(f.payload));
  }

  /** Each rejection by its cause: the first check that fails. */
  lemma DecodeErrorsExactly(raw: seq<byte>)
    ensures Decode(raw) == Err(Truncated) <==> |raw| < 14
    ensures Decode(raw) == Err(BadSof) <==> |raw| >= 14 && raw[..2] != [0xA5, 0x5A]
    ensures |raw| >= 14 && raw[..2] == [0xA5, 0x5A] ==>
      var n := ReadLe16(raw, 6);
      && (Decode(raw) == Err(TooLong) <==> n > 1024)
      && (Decode(raw) == Err(BadHeaderCrc) <==> n <= 1024 && ReadLe16(raw, 8) != Crc16(raw[2..8]))
      && (n <= 1024 && ReadLe16(raw, 8) == Crc16(raw[2..8]) ==>
        && (Decode(raw) == Err(LengthMismatch) <==> |raw| != 14 + n)
        && (Decode(raw) == Err(BadPayloadCrc) <==>
          |raw| == 14 + n && ReadLe32(raw, |raw| - 4) != Crc32(raw[10..|raw| - 4])))
  {
    hide Crc16, Crc32;
    if |raw| >= 2 {
      assert raw[..2] == [raw[0], raw[1]];
    }
  }

  /** Everything a receiver reads from a header depends on its ten bytes only. */
  lemma HeaderPrefix(f: Frame, s: seq<byte>)
    requires f.Valid() && |s| >= HEADER_SIZE && s[..HEADER_SIZE] == Header(f)
    ensures StartsFrame(s) && HeaderOk(s) && PayloadLength(s) == |f.payload|
  {
    var e := Encode(f);
    EncodedLayout(f);
    assert e[..HEADER_SIZE] == s[..HEADER_SIZE];
    assert forall k :: 0 <= k < HEADER_SIZE ==> s[k] == s[..HEADER_SIZE][k] == e[k];
    assert s[2..8] == e[2..8];
  }

  lemma DecodedLayout(raw: seq<byte>)
    requires Decode(raw).Ok?
    ensures Decode(raw).value.Valid() && Encode(Decode(raw).value) == raw
  {
    var f := Decode(raw).value;
    var n := |raw| - TRAILER_SIZE;
    Le16Inverse(raw, 4, f.sequence);
    Le16Inverse(raw, 6, |f.payload|);
    assert raw[2..8] == [raw[2], raw[3]] + raw[4..6] + raw[6..8];
    Le16Inverse(raw, 8, Crc16(raw[2..8]));
    Le32Inverse(raw, n, Crc32(f.payload));
    assert raw == [raw[0], raw[1]] + raw[2..8] + raw[8..10] + raw[10..n] + raw[n..n + 4];
  }

  /** Exactly the encodings decode, each to the frame it encodes. */
  lemma CodecInverse(raw: seq<byte>, f: Frame)
    ensures Decode(raw) == Ok(f) <==> f.Valid() && raw == Encode(f)
  {
    if Decode(raw) == Ok(f) {
      DecodedLayout(raw);
    }
    if f.Valid() && raw == Encode(f) {
      EncodedLayout(f);
    }
  }

  /** A burst inside two consecutive header bytes leaves a header that no receiver accepts. */
  lemma HeaderBurstRejected(f: Frame, raw: seq<byte>, from: nat)
    requires f.Valid() && |raw| >= HEADER_SIZE
    requires raw[..2] == Encode(f)[..2] && raw[8..10] == Encode(f)[8..10]
    requires raw[2..8] != Encode(f)[2..8]
    requires forall k :: 2 <= k < 8 && !(from <= k < from + 2) ==> raw[k] == Encode(f)[k]
    ensures !HeaderOk(raw)
  {
    var s := Encode(f);
    EncodedLayout(f);
    var a, b := raw[2..8], s[2..8];
    Crc16DetectsByteBurst(a, b, if from < 2 then 0 else from - 2);
    assert raw[8] == raw[8..10][0] == s[8] && raw[9] == raw[8..10][1] == s[9];
  }

  /** A burst inside four consecutive payload bytes is caught by the payload checksum. */
  lemma PayloadBurstRejected(f: Frame, payload: seq<byte>, from: nat)
    requires f.Valid() && |payload| == |f.payload| && payload != f.payload
    requires forall k :: 0 <= k < |payload| && !(from <= k < from + 4) ==> payload[k] == f.payload[k]
    ensures Decode(Header(f) + payload + Le32(Crc32(f.payload))) == Err(BadPayloadCrc)
  {
    var raw := Header(f) + payload + Le32(Crc32(f.payload));
    HeaderPrefix(f, raw);
    var n := |raw| - TRAILER_SIZE;
    assert raw[10..n] == payload;
    assert raw[n..n + 4] == Le32(Crc32(f.payload));
    Le32Inverse(raw, n, Crc32(f.payload));
    Crc32DetectsByteBurst(payload, f.payload, from);
  }
}
