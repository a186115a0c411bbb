/** What the two checksums are: their values on known inputs, and the residue of data with their own checksum. */
module CrcValues {
  import opened Bytes
  import opened ShiftRegister
  import opened Crc

  // ----- A message that ends with its own CRC-32 -----

  function Halved(b: nat, n: nat): nat {
    if n == 0 then b else Halved(b / 2, n - 1)
  }

  lemma {:induction false} LowSplit(b: nat, n: nat, m: nat)
    ensures DigitsLow(b, n + m) == DigitsLow(b, n) + DigitsLow(Halved(b, n), m)
  {
    if n > 0 {
      LowSplit(b / 2, n - 1, m);
    } else {
      assert DigitsLow(b, 0) + DigitsLow(b, m) == DigitsLow(b, m);
    }
  }

  lemma LowNext(b: nat, n: nat)
    requires n > 0
    ensures DigitsLow(b, n) == [b % 2 == 1] + DigitsLow(b / 2, n - 1) && Halved(b, n) == Halved(b / 2, n - 1)
  {
  }

  lemma NothingLow(b: nat)
    ensures DigitsLow(b, 0) == [] && Halved(b, 0) == b
  {
  }

  /** The low byte of a number is its lowest eight digits, and the rest is the number divided by 256. */
  lemma LowByte(b: nat)
    ensures DigitsLow(b, 8) == DigitsLow(b % 0x100, 8) && Halved(b, 8) == b / 0x100
  {
    hide DigitsLow, Halved;
    var q, c := b / 0x100, b % 0x100;
    LowNibble(c, 16 * q, 8);
    LowNibble(c / 16, q, 4);
    NothingLow(c / 16 / 16 + q);
    var whole, upper := DigitsLow(b, 8), DigitsLow(c / 16 + 16 * q, 4);
    var low, lower := DigitsLow(c, 8), DigitsLow(c / 16, 4);
    assert upper == upper[..4] && lower == lower[..4];
    assert whole == whole[..4] + whole[4..] && low == low[..4] + low[4..];
  }

  lemma LowNibble(c: nat, q: nat, n: nat)
    requires n >= 4
    ensures DigitsLow(c + 16 * q, n)[..4] == DigitsLow(c, n)[..4]
    ensures DigitsLow(c + 16 * q, n)[4..] == DigitsLow(c / 16 + q, n - 4)
    ensures DigitsLow(c, n)[4..] == DigitsLow(c / 16, n - 4)
    ensures Halved(c + 16 * q, n) == Halved(c / 16 + q, n - 4)
  {
    hide DigitsLow, Halved;
    var c1, c2, c3 := c / 2, c / 2 / 2, c / 2 / 2 / 2;
    LowStep(c, 8 * q, n);
    LowStep(c1, 4 * q, n - 1);
    LowStep(c2, 2 * q, n - 2);
    LowStep(c3, q, n - 3);
    assert c3 / 2 == c / 16;
  }

  /** One digit of a number and of the number without a multiple of two times `half`. */
  lemma LowStep(c: nat, half: nat, n: nat)
    requires n > 0
    ensures DigitsLow(c + 2 * half, n) == [c % 2 == 1] + DigitsLow(c / 2 + half, n - 1)
    ensures DigitsLow(c, n) == [c % 2 == 1] + DigitsLow(c / 2, n - 1)
    ensures Halved(c + 2 * half, n) == Halved(c / 2 + half, n - 1)
  {
    LowNext(c + 2 * half, n);
    LowNext(c, n);
    assert (c + 2 * half) / 2 == c / 2 + half && (c + 2 * half) % 2 == c % 2;
  }

  /** The four bytes of a numeral feed its binary digits into the reflected register. */
  lemma LittleEndianDigits(x: u32)
    ensures Stream(BitsLow, Le32(x)) == DigitsLow(x, 32)
  {
    hide DigitsLow;
    var x1, x2, x3 := x / 0x100, x / 0x1_0000, x / 0x100_0000;
    LowByte(x);
    LowByte(x1);
    LowByte(x2);
    LowSplit(x, 8, 24);
    LowSplit(x1, 8, 16);
    LowSplit(x2, 8, 8);
    FourBytes(BitsLow, x % 0x100, x1 % 0x100, x2 % 0x100, x3);
  }

  lemma FourBytes(bits: byte -> seq<bool>, a: byte, b: byte, c: byte, d: byte)
    ensures Stream(bits, [a, b, c, d]) == bits(a) + (bits(b) + (bits(c) + bits(d)))
  {
    assert [a, b, c, d] == [a] + ([b] + ([c] + [d]));
    StreamAppend(bits, [a], [b] + ([c] + [d]));
    StreamAppend(bits, [b], [c] + [d]);
    StreamAppend(bits, [c], [d]);
    OneByte(bits, a);
    OneByte(bits, b);
    OneByte(bits, c);
    OneByte(bits, d);
  }

  lemma OneByte(bits: byte -> seq<bool>, a: byte)
    ensures Stream(bits, [a]) == bits(a)
  {
    assert Stream(bits, [a]) == bits(a) + Stream(bits, []);
  }

  lemma SameNumeral32(v: bv32, w: bv32)
    requires v as nat == w as nat
    ensures v == w
  {
    Numeral32(v, w as nat);
    Numeral32(w, w as nat);
  }

  lemma Complement32(register: bv32)
    ensures Xor32(register, register ^ 0xFFFFFFFF) == 0xFFFFFFFF
  {
  }

  function Eight32(c: bv32): bv32 {
    Step32(Step32(Step32(Step32(Step32(Step32(Step32(Step32(c))))))))
  }

  lemma StepNext32(c: bv32, n: nat)
    ensures Steps(REGISTER_32, c, n + 1) == Step32(Steps(REGISTER_32, c, n))
  {
  }

  lemma StepsEight32(c: bv32, n: nat)
    ensures Steps(REGISTER_32, c, n + 8) == Eight32(Steps(REGISTER_32, c, n))
  {
    hide Steps, Step32;
    StepNext32(c, n);
    StepNext32(c, n + 1);
    StepNext32(c, n + 2);
    StepNext32(c, n + 3);
    StepNext32(c, n + 4);
    StepNext32(c, n + 5);
    StepNext32(c, n + 6);
    StepNext32(c, n + 7);
  }

  lemma NoSteps32(c: bv32)
    ensures Steps(REGISTER_32, c, 0) == c
  {
  }

  lemma AllOnes32()
    ensures Steps(REGISTER_32, 0xFFFFFFFF, 32) == 0xDEBB20E3
  {
    hide Eight32, Steps;
    NoSteps32(0xFFFFFFFF);
    StepsEight32(0xFFFFFFFF, 24);
    StepsEight32(0xFFFFFFFF, 16);
    StepsEight32(0xFFFFFFFF, 8);
    StepsEight32(0xFFFFFFFF, 0);
    OnesShifted32();
  }

  lemma OnesShifted32()
    ensures Eight32(Eight32(Eight32(Eight32(0xFFFFFFFF)))) == 0xDEBB20E3
  {
  }

  /** The word that completes a register to its own checksum. */
  lemma OwnWord32(register: bv32, word: bv32)
    requires word as nat == Finish32(register)
    ensures Xor32(register, word) == 0xFFFFFFFF
  {
    SameNumeral32(word, register ^ 0xFFFFFFFF);
    Complement32(register);
  }

  lemma FeedWord32(register: bv32, bits: seq<bool>)
    requires |bits| == 32
    ensures Feed(REGISTER_32, register, bits) == Steps(REGISTER_32, Xor32(register, Word(REGISTER_32, bits)), 32)
  {
    hide Feed, Steps, Word;
    Register32Lawful();
    FeedIsWord(REGISTER_32, register, bits);
  }

  lemma FeedOwn32(register: bv32, crc: u32)
    requires crc == Finish32(register)
    ensures Feed(REGISTER_32, register, Stream(BitsLow, Le32(crc))) == 0xDEBB20E3
  {
    hide Feed, Steps, Word, Stream, Le32, DigitsLow, Power, Finish32, Xor32;
    LittleEndianDigits(crc);
    FeedWord32(register, DigitsLow(crc, 32));
    Powers();
    DigitsValue32(crc, 32);
    OwnWord32(register, Word(REGISTER_32, DigitsLow(crc, 32)));
    AllOnes32();
  }

  /** The residue of CRC-32: whatever the data, they and their checksum together always have the same checksum. */
  lemma Crc32Residue(data: seq<byte>)
    ensures Crc32(data + Le32(Crc32(data))) == 0x2144DF1C
  {
    hide Feed, Stream, Le32, Finish32;
    var crc := Crc32(data);
    StreamAppend(BitsLow, data, Le32(crc));
    FeedAppend(REGISTER_32, 0xFFFFFFFF, Stream(BitsLow, data), Stream(BitsLow, Le32(crc)));
    FeedOwn32(Feed(REGISTER_32, 0xFFFFFFFF, Stream(BitsLow, data)), crc);
    FinishedOnes32();
  }

  lemma FinishedOnes32()
    ensures Finish32(0xDEBB20E3) == 0x2144DF1C
  {
  }

  // ----- The same for CRC-16 -----

  function Or16(v: bv16, w: bv16): bv16 {
    v | w
  }

  function Half16(w: bv16): bv16 {
    w >> 1
  }

  function High16(w: bv16): bv16 {
    w << 8
  }

  function Numeral16(b: nat): bv16
    requires b < 256
  {
    b as bv16
  }

  function Right16(w: bv16, n: nat): bv16 {
    if n == 0 then w else Half16(Right16(w, n - 1))
  }

  lemma {:induction false} WordAppend16(a: seq<bool>, b: seq<bool>)
    ensures Word(REGISTER_16, a + b) == Or16(Word(REGISTER_16, a), Right16(Word(REGISTER_16, b), |a|))
  {
    hide Word, Push16, Or16, Half16;
    if a == [] {
      assert a + b == b;
      NoWord16();
      NothingBefore16(Word(REGISTER_16, b));
    } else {
      assert (a + b)[1..] == a[1..] + b && (a + b)[0] == a[0];
      WordAppend16(a[1..], b);
      Word16Next(a + b);
      Word16Next(a);
      PushBehind16(Word(REGISTER_16, a[1..]), Right16(Word(REGISTER_16, b), |a| - 1), a[0]);
    }
  }

  lemma NothingBefore16(w: bv16)
    ensures Or16(0, w) == w
  {
  }

  lemma PushBehind16(w: bv16, low: bv16, b: bool)
    ensures Push16(Or16(w, low), b) == Or16(Push16(w, b), Half16(low))
  {
    hide Input16;
    InputBehind16(w, low, Input16(b));
  }

  lemma InputBehind16(w: bv16, low: bv16, input: bv16)
    ensures ((w | low) >> 1) | input == ((w >> 1) | input) | (low >> 1)
  {
    HalfOfBoth16(w, low);
    SwapLast16(w >> 1, low >> 1, input);
  }

  lemma HalfOfBoth16(v: bv16, w: bv16)
    ensures (v | w) >> 1 == (v >> 1) | (w >> 1)
  {
  }

  lemma SwapLast16(u: bv16, v: bv16, w: bv16)
    ensures (u | v) | w == (u | w) | v
  {
  }

  lemma RightNext16(w: bv16, n: nat)
    ensures Right16(w, n + 1) == Half16(Right16(w, n)) && Right16(w, 0) == w
  {
  }

  lemma ByteBehind16(w: bv16)
    requires w < 256
    ensures Right16(High16(w), 8) == w
  {
    hide Right16, Half16, High16;
    var h := High16(w);
    RightNext16(h, 0);
    RightNext16(h, 1);
    RightNext16(h, 2);
    RightNext16(h, 3);
    RightNext16(h, 4);
    RightNext16(h, 5);
    RightNext16(h, 6);
    RightNext16(h, 7);
    HalvedAgain16(w);
  }

  lemma HalvedAgain16(w: bv16)
    requires w < 256
    ensures Half16(Half16(Half16(Half16(Half16(Half16(Half16(Half16(High16(w))))))))) == w
  {
  }

  lemma SmallNumeral16(b: nat)
    requires b < 256
    ensures Numeral16(b) as nat == b && Numeral16(b) < 256
  {
    BackAgain16(b);
    SmallWord16(b as bv16);
  }

  lemma BackAgain16(b: nat)
    requires b < 256
    ensures (b as bv16) as nat == b
  {
    Powers();
    BuiltValue16(b, 8);
    BuiltNumeral16(Built16(b, 8), b);
  }

  lemma BuiltNumeral16(w: bv16, n: nat)
    requires w as nat == n
    ensures n as bv16 == w
  {
  }

  /** The numeral put together from its binary digits. */
  function Built16(b: nat, n: nat): bv16 {
    if n == 0 then 0 else Doubled16(Built16(b / 2, n - 1), b % 2 == 1)
  }

  function Doubled16(w: bv16, digit: bool): bv16 {
    if digit then (w << 1) | 1 else w << 1
  }

  lemma BuiltNext16(b: nat, n: nat)
    ensures n == 0 ==> Built16(b, n) as nat == 0
    ensures n > 0 ==> Built16(b, n) == Doubled16(Built16(b / 2, n - 1), b % 2 == 1)
  {
    hide Doubled16;
  }

  lemma {:induction false} BuiltValue16(b: nat, n: nat)
    requires n <= 8 && b < Power(n)
    ensures Built16(b, n) as nat == b
    decreases n
  {
    hide Doubled16, Power, Built16;
    PowerNext(n);
    BuiltNext16(b, n);
    if n > 0 {
      PowerGrows(n, 8);
      Powers();
      BuiltValue16(b / 2, n - 1);
      DoubledValue16(Built16(b / 2, n - 1), b / 2, b % 2 == 1);
    }
  }

  lemma DoubledValue16(w: bv16, half: nat, digit: bool)
    requires w as nat == half < 128
    ensures Doubled16(w, digit) as nat == 2 * half + (if digit then 1 else 0)
  {
    SmallWord16(w);
    if digit {
      ShiftedOne16(w);
    } else {
      ShiftedZero16(w);
    }
  }

  lemma ShiftedOne16(w: bv16)
    requires w < 256
    ensures ((w << 1) | 1) as nat == 2 * (w as nat) + 1
  {
  }

  lemma ShiftedZero16(w: bv16)
    requires w < 256
    ensures (w << 1) as nat == 2 * (w as nat)
  {
  }

  lemma SmallWord16(w: bv16)
    requires w as nat < 256
    ensures w < 256
  {
  }

  lemma JoinedValue16(high: bv16, low: bv16)
    requires high < 256 && low < 256
    ensures ((high << 8) | low) as nat == 256 * (high as nat) + (low as nat)
  {
  }

  lemma SameNumeral16(v: bv16, w: bv16)
    requires v as nat == w as nat
    ensures v == w
  {
    assert (v as nat) as bv16 == v && (w as nat) as bv16 == w;
  }

  lemma Joined16(register: bv16, high: bv16, low: bv16)
    requires high < 256 && low < 256 && register as nat == 256 * (high as nat) + (low as nat)
    ensures Or16(High16(high), low) == register
  {
    hide Or16, High16;
    JoinedNumeral16(high, low);
    SameNumeral16(register, Or16(High16(high), low));
  }

  lemma JoinedNumeral16(high: bv16, low: bv16)
    requires high < 256 && low < 256
    ensures Or16(High16(high), low) as nat == 256 * (high as nat) + (low as nat)
  {
    JoinedValue16(high, low);
  }

  lemma WidenedHigh16(b: byte)
    ensures Word(REGISTER_16, BitsHigh(b)) == High16(Numeral16(b))
  {
    Widen16Promotes(b);
  }

  lemma TwoBytes(bits: byte -> seq<bool>, a: byte, b: byte)
    ensures Stream(bits, [a, b]) == bits(a) + bits(b)
  {
    assert [a, b] == [a] + [b];
    StreamAppend(bits, [a], [b]);
    OneByte(bits, a);
    OneByte(bits, b);
  }

  /** Two bytes, high one first, put their numeral into the register. */
  lemma BigEndianWord(register: bv16, high: byte, low: byte)
    requires register as nat == 256 * high + low
    ensures Word(REGISTER_16, BitsHigh(high) + BitsHigh(low)) == register
  {
    hide Word, BitsHigh, Right16, Or16, High16, Numeral16;
    WordAppend16(BitsHigh(high), BitsHigh(low));
    WidenedHigh16(high);
    WidenedHigh16(low);
    SmallNumeral16(high);
    SmallNumeral16(low);
    ByteBehind16(Numeral16(low));
    Joined16(register, Numeral16(high), Numeral16(low));
  }

  lemma {:induction false} ZeroStays16(n: nat)
    ensures Steps(REGISTER_16, 0, n) == 0
  {
    if n > 0 {
      ZeroStays16(n - 1);
    }
  }

  lemma Cancels16(w: bv16)
    ensures Xor16(w, w) == 0 && Finish16(0) == 0
  {
  }

  /** The residue of CRC-16/CCITT-FALSE is zero. */
  lemma Crc16Residue(data: seq<byte>)
    ensures Crc16(data + [Crc16(data) / 0x100, Crc16(data) % 0x100]) == 0
  {
    hide Word, Steps, BitsHigh, Feed;
    var m, crc := REGISTER_16, Crc16(data);
    var register, tail := Feed(m, 0xFFFF, Stream(BitsHigh, data)), [crc / 0x100, crc % 0x100];
    StreamAppend(BitsHigh, data, tail);
    FeedAppend(m, 0xFFFF, Stream(BitsHigh, data), Stream(BitsHigh, tail));
    TwoBytes(BitsHigh, crc / 0x100, crc % 0x100);
    BigEndianWord(register, crc / 0x100, crc % 0x100);
    Register16Lawful();
    FeedIsWord(m, register, BitsHigh(crc / 0x100) + BitsHigh(crc % 0x100));
    Cancels16(register);
    ZeroStays16(16);
  }

  // ----- Values -----

  lemma EmptyValues()
    ensures Crc32([]) == 0 && Crc16([]) == 0xFFFF
  {
  }

  const CHECK: seq<byte> := [0x31, 0x32, 0x33, 0x34, 0x35, 0x36, 0x37, 0x38, 0x39]

  function Eight16(c: bv16): bv16 {
    Step16(Step16(Step16(Step16(Step16(Step16(Step16(Step16(c))))))))
  }

  lemma StepNext16(c: bv16, n: nat)
    ensures Steps(REGISTER_16, c, n + 1) == Step16(Steps(REGISTER_16, c, n)) && Steps(REGISTER_16, c, 0) == c
  {
  }

  lemma StepsEight16(c: bv16)
    ensures Steps(REGISTER_16, c, 8) == Eight16(c)
  {
    hide Steps, Step16;
    StepNext16(c, 0);
    StepNext16(c, 1);
    StepNext16(c, 2);
    StepNext16(c, 3);
    StepNext16(c, 4);
    StepNext16(c, 5);
    StepNext16(c, 6);
    StepNext16(c, 7);
  }

  function Taken16(c: bv16, b: byte): bv16 {
    Xor16(c, High16(Numeral16(b)))
  }

  function Word32(b: byte): bv32 {
    b as bv32
  }

  function Taken32(c: bv32, b: byte): bv32 {
    Xor32(c, Word32(b))
  }

  lemma CheckWords32()
    ensures Word32(0x31) == 0x31 && Word32(0x32) == 0x32 && Word32(0x33) == 0x33 && Word32(0x34) == 0x34
    ensures Word32(0x35) == 0x35 && Word32(0x36) == 0x36 && Word32(0x37) == 0x37 && Word32(0x38) == 0x38
    ensures Word32(0x39) == 0x39
  {
  }

  /** The registers after so many bytes. */
  function Fed16(c: bv16, data: seq<byte>): bv16
    decreases data
  {
    if data == [] then c else Fed16(Eight16(Taken16(c, data[0])), data[1..])
  }

  function Fed32(c: bv32, data: seq<byte>): bv32
    decreases data
  {
    if data == [] then c else Fed32(Eight32(Taken32(c, data[0])), data[1..])
  }

  lemma FeedByte16(c: bv16, b: byte)
    ensures Feed(REGISTER_16, c, BitsHigh(b)) == Eight16(Taken16(c, b))
  {
    hide Feed, Steps, Word, Eight16;
    Register16Lawful();
    FeedIsWord(REGISTER_16, c, BitsHigh(b));
    WidenedHigh16(b);
    StepsEight16(Taken16(c, b));
  }

  lemma FeedByte32(c: bv32, b: byte)
    ensures Feed(REGISTER_32, c, BitsLow(b)) == Eight32(Taken32(c, b))
  {
    hide Feed, Steps, Word, Eight32;
    Register32Lawful();
    FeedIsWord(REGISTER_32, c, BitsLow(b));
    Widen32Promotes(b);
    NoSteps32(Taken32(c, b));
    StepsEight32(Taken32(c, b), 0);
  }

  lemma {:induction false} FeedIsFed16(c: bv16, data: seq<byte>)
    ensures Feed(REGISTER_16, c, Stream(BitsHigh, data)) == Fed16(c, data)
    decreases data
  {
    hide Eight16, Taken16, BitsHigh;
    if data != [] {
      FeedAppend(REGISTER_16, c, BitsHigh(data[0]), Stream(BitsHigh, data[1..]));
      FeedByte16(c, data[0]);
      FeedIsFed16(Eight16(Taken16(c, data[0])), data[1..]);
    }
  }

  lemma {:induction false} FeedIsFed32(c: bv32, data: seq<byte>)
    ensures Feed(REGISTER_32, c, Stream(BitsLow, data)) == Fed32(c, data)
    decreases data
  {
    hide Eight32, Taken32, BitsLow;
    if data != [] {
      FeedAppend(REGISTER_32, c, BitsLow(data[0]), Stream(BitsLow, data[1..]));
      FeedByte32(c, data[0]);
      FeedIsFed32(Eight32(Taken32(c, data[0])), data[1..]);
    }
  }

  lemma NextFed16(c: bv16, data: seq<byte>, i: nat)
    requires i < |data|
    ensures Fed16(c, data[i..]) == Fed16(Eight16(Taken16(c, data[i])), data[i + 1..])
  {
    assert data[i..][1..] == data[i + 1..];
  }

  lemma NextFed32(c: bv32, data: seq<byte>, i: nat)
    requires i < |data|
    ensures Fed32(c, data[i..]) == Fed32(Eight32(Taken32(c, data[i])), data[i + 1..])
  {
    assert data[i..][1..] == data[i + 1..];
  }

  lemma NothingFed(c: bv16, d: bv32, data: seq<byte>)
    ensures Fed16(c, data[|data|..]) == c && Fed32(d, data[|data|..]) == d && data[0..] == data
  {
  }

  lemma CheckRegisters16()
    ensures
      && Eight16(Taken16(0xFFFF, 0x31)) == 0xC782
      && Eight16(Taken16(0xC782, 0x32)) == 0x3DBA
      && Eight16(Taken16(0x3DBA, 0x33)) == 0x5BCE
      && Eight16(Taken16(0x5BCE, 0x34)) == 0x5349
      && Eight16(Taken16(0x5349, 0x35)) == 0x4560
      && Eight16(Taken16(0x4560, 0x36)) == 0x2EF4
      && Eight16(Taken16(0x2EF4, 0x37)) == 0x7718
      && Eight16(Taken16(0x7718, 0x38)) == 0xA12B
      && Eight16(Taken16(0xA12B, 0x39)) == 0x29B1
  {
  }

  lemma CheckRegisters32()
    ensures
      && Eight32(Taken32(0xFFFFFFFF, 0x31)) == 0x7C231048
      && Eight32(Taken32(0x7C231048, 0x32)) == 0xB0ACBB32
      && Eight32(Taken32(0xB0ACBB32, 0x33)) == 0x77B79C2D
      && Eight32(Taken32(0x77B79C2D, 0x34)) == 0x641C1F5C
      && Eight32(Taken32(0x641C1F5C, 0x35)) == 0x340AC5E3
      && Eight32(Taken32(0x340AC5E3, 0x36)) == 0xF68D2C9E
      && Eight32(Taken32(0xF68D2C9E, 0x37)) == 0xAFFC9660
      && Eight32(Taken32(0xAFFC9660, 0x38)) == 0x651F2550
      && Eight32(Taken32(0x651F2550, 0x39)) == 0x340BC6D9
  {
    hide Eight32, Taken32;
    FirstRegisters32();
    MiddleRegisters32();
    LastRegisters32();
  }

  lemma FirstRegisters32()
    ensures
      && Eight32(Taken32(0xFFFFFFFF, 0x31)) == 0x7C231048
      && Eight32(Taken32(0x7C231048, 0x32)) == 0xB0ACBB32
      && Eight32(Taken32(0xB0ACBB32, 0x33)) == 0x77B79C2D
  {
    hide Word32, Eight32, Xor32;
    CheckWords32();
    FirstShifted32();
  }

  lemma FirstShifted32()
    ensures
      && Eight32(Xor32(0xFFFFFFFF, 0x31)) == 0x7C231048
      && Eight32(Xor32(0x7C231048, 0x32)) == 0xB0ACBB32
      && Eight32(Xor32(0xB0ACBB32, 0x33)) == 0x77B79C2D
  {
  }

  lemma MiddleRegisters32()
    ensures
      && Eight32(Taken32(0x77B79C2D, 0x34)) == 0x641C1F5C
      && Eight32(Taken32(0x641C1F5C, 0x35)) == 0x340AC5E3
      && Eight32(Taken32(0x340AC5E3, 0x36)) == 0xF68D2C9E
  {
    hide Word32, Eight32, Xor32;
    CheckWords32();
    MiddleShifted32();
  }

  lemma MiddleShifted32()
    ensures
      && Eight32(Xor32(0x77B79C2D, 0x34)) == 0x641C1F5C
      && Eight32(Xor32(0x641C1F5C, 0x35)) == 0x340AC5E3
      && Eight32(Xor32(0x340AC5E3, 0x36)) == 0xF68D2C9E
  {
  }

  lemma LastRegisters32()
    ensures
      && Eight32(Taken32(0xF68D2C9E, 0x37)) == 0xAFFC9660
      && Eight32(Taken32(0xAFFC9660, 0x38)) == 0x651F2550
      && Eight32(Taken32(0x651F2550, 0x39)) == 0x340BC6D9
  {
    hide Word32, Eight32, Xor32;
    CheckWords32();
    LastShifted32();
  }

  lemma LastShifted32()
    ensures
      && Eight32(Xor32(0xF68D2C9E, 0x37)) == 0xAFFC9660
      && Eight32(Xor32(0xAFFC9660, 0x38)) == 0x651F2550
      && Eight32(Xor32(0x651F2550, 0x39)) == 0x340BC6D9
  {
  }

  /** The standard check value of CRC-16/CCITT-FALSE, which `iap_protocol_self_test` also computes. */
  lemma CheckValue16()
    ensures Crc16(CHECK) == 0x29B1
  {
    hide Eight16, Taken16, Fed16, Feed, Stream;
    FeedIsFed16(0xFFFF, CHECK);
    NothingFed(0x29B1, 0x00000000, CHECK);
    CheckRegisters16();
    NextFed16(0xFFFF, CHECK, 0);
    NextFed16(0xC782, CHECK, 1);
    NextFed16(0x3DBA, CHECK, 2);
    NextFed16(0x5BCE, CHECK, 3);
    NextFed16(0x5349, CHECK, 4);
    NextFed16(0x4560, CHECK, 5);
    NextFed16(0x2EF4, CHECK, 6);
    NextFed16(0x7718, CHECK, 7);
    NextFed16(0xA12B, CHECK, 8);
  }

  /** The standard check value of CRC-32. */
  lemma CheckValue32()
    ensures Crc32(CHECK) == 0xCBF43926
  {
    hide Eight32, Taken32, Fed32, Feed, Stream;
    FeedIsFed32(0xFFFFFFFF, CHECK);
    NothingFed(0x0000, 0x340BC6D9, CHECK);
    CheckRegisters32();
    NextFed32(0xFFFFFFFF, CHECK, 0);
    NextFed32(0x7C231048, CHECK, 1);
    NextFed32(0xB0ACBB32, CHECK, 2);
    NextFed32(0x77B79C2D, CHECK, 3);
    NextFed32(0x641C1F5C, CHECK, 4);
    NextFed32(0x340AC5E3, CHECK, 5);
    NextFed32(0xF68D2C9E, CHECK, 6);
    NextFed32(0xAFFC9660, CHECK, 7);
    NextFed32(0x651F2550, CHECK, 8);
  }

  const HELLO_INPUT: seq<byte> := [1, 1, 0, 0, 0, 0]

  lemma HelloRegisters()
    ensures
      && Eight16(Taken16(0xFFFF, 0x01)) == 0xF1D1
      && Eight16(Taken16(0xF1D1, 0x01)) == 0x3E1F
      && Eight16(Taken16(0x3E1F, 0x00)) == 0xC89D
      && Eight16(Taken16(0xC89D, 0x00)) == 0xC544
      && Eight16(Taken16(0xC544, 0x00)) == 0xCDE9
      && Eight16(Taken16(0xCDE9, 0x00)) == 0xE1E1
  {
  }

  /** The header checksum of the first HELLO. */
  lemma HelloHeaderValue()
    ensures Crc16(HELLO_INPUT) == 0xE1E1
  {
    hide Eight16, Taken16, Fed16, Feed, Stream;
    FeedIsFed16(0xFFFF, HELLO_INPUT);
    NothingFed(0xE1E1, 0x00000000, HELLO_INPUT);
    HelloRegisters();
    NextFed16(0xFFFF, HELLO_INPUT, 0);
    NextFed16(0xF1D1, HELLO_INPUT, 1);
    NextFed16(0x3E1F, HELLO_INPUT, 2);
    NextFed16(0xC89D, HELLO_INPUT, 3);
    NextFed16(0xC544, HELLO_INPUT, 4);
    NextFed16(0xCDE9, HELLO_INPUT, 5);
  }
}
