/** The wire format on known inputs: the golden HELLO, the byte order, and the self-test of the protocol core. */
module SelfTest {
  import opened Bytes
  import opened Crc
  import opened CrcValues
  import opened Frames
  import opened FrameBuffers
  import opened Scanner
  import opened Parser

  const GOLDEN_HELLO: seq<byte> :=
    [0xA5, 0x5A, 0x01, 0x01, 0x00, 0x00, 0x00, 0x00, 0xE1, 0xE1, 0x00, 0x00, 0x00, 0x00]

  const FIRST_HELLO: Frame := Frame(1, 0x01, 0, [])

  /** The first HELLO on the wire, byte for byte. */
  lemma GoldenHello()
    ensures Encode(FIRST_HELLO) == GOLDEN_HELLO
  {
    hide Crc16, Crc32;
    HelloHeaderValue();
    EmptyValues();
    assert HeaderInput(FIRST_HELLO) == HELLO_INPUT;
  }

  /** Where every field of a frame lies, lowest byte first. */
  lemma WireOrder(f: Frame)
    requires f.Valid()
    ensures var s, n := Encode(f), |f.payload|;
      && |s| == n + 14 && s[0] == 0xA5 && s[1] == 0x5A && s[2] == f.version && s[3] == f.command
      && s[4] == f.sequence % 256 && s[5] == f.sequence / 256 && s[6] == n % 256 && s[7] == n / 256
      && s[8] == Crc16(s[2..8]) % 256 && s[9] == Crc16(s[2..8]) / 256 && s[10..10 + n] == f.payload
      && s[n + 10] == Crc32(f.payload) % 256 && s[n + 11] == Crc32(f.payload) / 256 % 256
      && s[n + 12] == Crc32(f.payload) / 0x1_0000 % 256 && s[n + 13] == Crc32(f.payload) / 0x100_0000
  {
    hide Crc16, Crc32;
    var s := Encode(f);
    assert s[2..8] == HeaderInput(f);
    assert s[4..6] == Le16(f.sequence) && s[6..8] == Le16(|f.payload|);
    assert s[8..10] == Le16(Crc16(HeaderInput(f)));
    assert s[|f.payload| + 10..] == Le32(Crc32(f.payload));
  }

  /** The 13 bytes before the last are held back, and the last one completes the HELLO. */
  lemma GoldenScans()
    ensures ScanStream(GOLDEN_HELLO[..13]) == Scan([], GOLDEN_HELLO[..13])
    ensures ScanStream(GOLDEN_HELLO[..13] + [GOLDEN_HELLO[13]]) == Scan([FIRST_HELLO], [])
  {
    hide ScanStream, Crc16, Crc32, Decode;
    GoldenHello();
    var s := GOLDEN_HELLO[..13];
    assert s[..HEADER_SIZE] == GOLDEN_HELLO[..HEADER_SIZE] == Header(FIRST_HELLO);
    HeaderPrefix(FIRST_HELLO, s);
    PendingIsFixed(s);
    assert s + [GOLDEN_HELLO[13]] == GOLDEN_HELLO + [];
    ScanEncoded(FIRST_HELLO, []);
    NothingScanned();
  }

  lemma NothingScanned()
    ensures ScanStream([]) == Scan([], [])
  {
  }

  method CopyOf(data: seq<byte>) returns (a: array<byte>)
    ensures fresh(a) && a[..] == data
  {
    a := new byte[|data|](i requires 0 <= i < |data| => data[i]);
  }

  /** `iap_protocol_self_test`: on this core it always succeeds. */
  method RunSelfTest() returns (ok: bool)
    ensures ok
  {
    hide Crc16, Crc32, Encode, ScanStream, Header;
    var text := CopyOf(CHECK);
    assert text[0..0 + text.Length] == CHECK;
    var textCrc := ComputeCrc16(text, 0, text.Length);
    CheckValue16();
    var nothing := ComputeCrc32(text, 0, 0);
    assert text[0..0] == [];
    EmptyValues();
    var hello := new FrameBuffer();
    var encoded := new byte[MIN_FRAME];
    hello.version, hello.command, hello.sequence, hello.payloadLength := PROTOCOL_VERSION, HELLO, 0, 0;
    assert hello.Value() == FIRST_HELLO;
    var written, length := EncodeInto(hello, encoded);
    GoldenHello();
    if textCrc != 0x29B1 || nothing != 0 || !written || length != |GOLDEN_HELLO| || encoded[..length] != GOLDEN_HELLO {
      return false;
    }
    var parser := new Parser();
    var decoded := new FrameBuffer();
    var result := NoFrame;
    GoldenScans();
    for index := 0 to |GOLDEN_HELLO|
      invariant parser.Valid() && decoded.payload.Length == MAX_PAYLOAD && fresh(decoded) && fresh(decoded.payload)
      invariant fresh(parser) && fresh(parser.buffer) && decoded.payload != parser.buffer
      invariant index < |GOLDEN_HELLO| ==> parser.buffer[..parser.length] == GOLDEN_HELLO[..index]
      invariant index == |GOLDEN_HELLO| ==>
        result == FrameReady && decoded.Valid() && decoded.Value() == FIRST_HELLO
    {
      PrefixHeld(index);
      result := parser.Push(GOLDEN_HELLO[index], decoded);
    }
    ok := result == FrameReady && decoded.version == PROTOCOL_VERSION && decoded.command == HELLO
      && decoded.sequence == 0 && decoded.payloadLength == 0;
    assert |decoded.Value().payload| == 0;
  }

  /** Every proper prefix of the golden HELLO stays pending. */
  lemma PrefixHeld(n: nat)
    requires n < |GOLDEN_HELLO|
    ensures GOLDEN_HELLO[..n] + [GOLDEN_HELLO[n]] == GOLDEN_HELLO[..n + 1]
    ensures n + 1 < |GOLDEN_HELLO| ==> ScanStream(GOLDEN_HELLO[..n + 1]) == Scan([], GOLDEN_HELLO[..n + 1])
    ensures n + 1 == |GOLDEN_HELLO| ==> ScanStream(GOLDEN_HELLO[..n] + [GOLDEN_HELLO[n]]) == Scan([FIRST_HELLO], [])
  {
    hide ScanStream, Crc16, Crc32, Decode;
    GoldenScans();
    if n + 1 < |GOLDEN_HELLO| {
      var s := GOLDEN_HELLO[..n + 1];
      GoldenHello();
      if |s| >= HEADER_SIZE {
        assert s[..HEADER_SIZE] == GOLDEN_HELLO[..HEADER_SIZE] == Header(FIRST_HELLO);
        HeaderPrefix(FIRST_HELLO, s);
      }
      PendingIsFixed(s);
    }
  }
}
