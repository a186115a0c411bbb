/** The two checksums of the frame format, with their burst-error detection bounds.

    CRC-32 is the IEEE CRC-32 of section 3.2.9 of IEEE 802.3 (reflected; sample code in section 8
    of RFC 1952); CRC-16 is CRC-16/CCITT-FALSE.  Registers are bit-vectors, results are integers. */
module Crc {
  import opened Bytes
  import opened ShiftRegister

  // ----- The registers -----

  function Step32(c: bv32): bv32 {
    (c >> 1) ^ (if c & 1 == 1 then 0xEDB88320 else 0)
  }

  function Step16(c: bv16): bv16 {
    (c << 1) ^ (if c & 0x8000 == 0x8000 then 0x1021 else 0)
  }

  function Xor32(a: bv32, b: bv32): bv32 {
    a ^ b
  }

  function Input32(b: bool): bv32 {
    if b then 1 else 0
  }

  function Xor16(a: bv16, b: bv16): bv16 {
    a ^ b
  }

  function Input16(b: bool): bv16 {
    if b then 0x8000 else 0
  }

  function Push32(w: bv32, b: bool): bv32 {
    (w << 1) | Input32(b)
  }

  function Push16(w: bv16, b: bool): bv16 {
    (w >> 1) | Input16(b)
  }

  predicate Room32(w: bv32) {
    w & 0x80000000 == 0
  }

  predicate Room16(w: bv16) {
    w & 1 == 0
  }

  const REGISTER_32: Register<bv32> := Register(
    32, 0, Step32, Xor32, Input32, Push32, Room32)

  const REGISTER_16: Register<bv16> := Register(
    16, 0, Step16, Xor16, Input16, Push16, Room16)

  // ----- Bit streams: the order in which each register consumes the bits of a byte -----

  /** The low `n` binary digits of a number, least significant first. */
  function DigitsLow(b: nat, n: nat): (bits: seq<bool>)
    ensures |bits| == n
  {
    if n == 0 then [] else [b % 2 == 1] + DigitsLow(b / 2, n - 1)
  }

  /** The low `n` binary digits of a number, most significant first. */
  function DigitsHigh(b: nat, n: nat): (bits: seq<bool>)
    ensures |bits| == n
  {
    if n == 0 then [] else DigitsHigh(b / 2, n - 1) + [b % 2 == 1]
  }

  /** The order in which the reflected CRC-32 consumes a byte. */
  function BitsLow(b: byte): (bits: seq<bool>)
    ensures |bits| == 8
  {
    DigitsLow(b, 8)
  }

  /** The order in which CRC-16/CCITT-FALSE consumes a byte. */
  function BitsHigh(b: byte): (bits: seq<bool>)
    ensures |bits| == 8
  {
    DigitsHigh(b, 8)
  }

  function Power2(n: nat): nat {
    if n == 0 then 1 else 2 * Power2(n - 1)
  }

  lemma {:induction false} DigitsLowInjective(a: nat, b: nat, n: nat)
    requires a < Power2(n) && b < Power2(n) && DigitsLow(a, n) == DigitsLow(b, n)
    ensures a == b
  {
    if n > 0 {
      assert DigitsLow(a, n)[0] == DigitsLow(b, n)[0];
      assert DigitsLow(a, n)[1..] == DigitsLow(a / 2, n - 1) && DigitsLow(b, n)[1..] == DigitsLow(b / 2, n - 1);
      DigitsLowInjective(a / 2, b / 2, n - 1);
    }
  }

  lemma {:induction false} DigitsHighInjective(a: nat, b: nat, n: nat)
    requires a < Power2(n) && b < Power2(n) && DigitsHigh(a, n) == DigitsHigh(b, n)
    ensures a == b
  {
    if n > 0 {
      assert DigitsHigh(a, n)[n - 1] == DigitsHigh(b, n)[n - 1];
      assert DigitsHigh(a, n)[..n - 1] == DigitsHigh(a / 2, n - 1);
      assert DigitsHigh(b, n)[..n - 1] == DigitsHigh(b / 2, n - 1);
      DigitsHighInjective(a / 2, b / 2, n - 1);
    }
  }

  function Stream(bits: byte -> seq<bool>, data: seq<byte>): seq<bool> {
    if data == [] then [] else bits(data[0]) + Stream(bits, data[1..])
  }

  function Finish32(register: bv32): u32 {
    (register ^ 0xFFFFFFFF) as int
  }

  function Finish16(register: bv16): u16 {
    register as int
  }

  function Crc32(data: seq<byte>): u32 {
    Finish32(Feed(REGISTER_32, 0xFFFFFFFF, Stream(BitsLow, data)))
  }

  function Crc16(data: seq<byte>): u16 {
    Finish16(Feed(REGISTER_16, 0xFFFF, Stream(BitsHigh, data)))
  }

  // ----- Both registers obey the laws -----

  /** The inverse of `Step32`: the top bit tells whether the polynomial was added. */
  function Unstep32(c: bv32): bv32 {
    if c & 0x80000000 == 0x80000000 then ((c ^ 0xEDB88320) << 1) | 1 else c << 1
  }

  function Unstep16(c: bv16): bv16 {
    if c & 1 == 1 then ((c ^ 0x1021) >> 1) | 0x8000 else c >> 1
  }

  /** The places a word of `n` message bits may occupy. */
  function Mask32(n: nat): bv32 {
    if n == 0 then 0 else WiderMask32(Mask32(n - 1))
  }

  function WiderMask32(mask: bv32): bv32 {
    (mask << 1) | 1
  }

  predicate Within32(w: bv32, mask: bv32) {
    w & !mask == 0
  }

  function Mask16(n: nat): bv16 {
    if n == 0 then 0 else WiderMask16(Mask16(n - 1))
  }

  function WiderMask16(mask: bv16): bv16 {
    (mask >> 1) | 0x8000
  }

  predicate Within16(w: bv16, mask: bv16) {
    w & !mask == 0
  }

  lemma {:induction false} Mask32Grows(n: nat, m: nat)
    requires n <= m
    ensures Within32(Mask32(n), Mask32(m))
  {
    if n > 0 {
      Mask32Grows(n - 1, m - 1);
      WiderMask32Grows(Mask32(n - 1), Mask32(m - 1));
    } else {
      Nothing32Within(Mask32(m));
    }
  }

  lemma Nothing32Within(mask: bv32)
    ensures Within32(0, mask)
  {
  }

  lemma WiderMask32Grows(v: bv32, w: bv32)
    requires Within32(v, w)
    ensures Within32(WiderMask32(v), WiderMask32(w))
  {
  }

  lemma {:induction false} Mask16Grows(n: nat, m: nat)
    requires n <= m
    ensures Within16(Mask16(n), Mask16(m))
  {
    if n > 0 {
      Mask16Grows(n - 1, m - 1);
      WiderMask16Grows(Mask16(n - 1), Mask16(m - 1));
    } else {
      Nothing16Within(Mask16(m));
    }
  }

  lemma Nothing16Within(mask: bv16)
    ensures Within16(0, mask)
  {
  }

  lemma WiderMask16Grows(v: bv16, w: bv16)
    requires Within16(v, w)
    ensures Within16(WiderMask16(v), WiderMask16(w))
  {
  }

  lemma Mask32Top()
    ensures Mask32(31) == 0x7FFFFFFF
  {
    assert Mask32(2) == 0x3;
    assert Mask32(4) == 0xF;
    assert Mask32(6) == 0x3F;
    assert Mask32(8) == 0xFF;
    assert Mask32(10) == 0x3FF;
    assert Mask32(12) == 0xFFF;
    assert Mask32(14) == 0x3FFF;
    assert Mask32(16) == 0xFFFF;
    assert Mask32(18) == 0x3FFFF;
    assert Mask32(20) == 0xFFFFF;
    assert Mask32(22) == 0x3FFFFF;
    assert Mask32(24) == 0xFFFFFF;
    assert Mask32(26) == 0x3FFFFFF;
    assert Mask32(28) == 0xFFFFFFF;
    assert Mask32(30) == 0x3FFFFFFF;
  }

  lemma Mask16Top()
    ensures Mask16(15) == 0xFFFE
  {
    assert Mask16(2) == 0xC000;
    assert Mask16(4) == 0xF000;
    assert Mask16(6) == 0xFC00;
    assert Mask16(8) == 0xFF00;
    assert Mask16(10) == 0xFFC0;
    assert Mask16(12) == 0xFFF0;
    assert Mask16(14) == 0xFFFC;
  }

  // ----- CRC-32 -----

  lemma Step32InverseFed(c: bv32)
    requires c & 1 == 1
    ensures Unstep32(Step32(c)) == c
  {
  }

  lemma Step32InversePlain(c: bv32)
    requires c & 1 != 1
    ensures Unstep32(Step32(c)) == c
  {
  }

  lemma Step32Injective()
    ensures StepInjective(REGISTER_32)
  {
    forall c, d | REGISTER_32.step(c) == REGISTER_32.step(d) ensures c == d {
      Step32Inverse(c);
      Step32Inverse(d);
    }
  }

  lemma Step32Inverse(c: bv32)
    ensures Unstep32(Step32(c)) == c
  {
    if c & 1 == 1 {
      Step32InverseFed(c);
    } else {
      Step32InversePlain(c);
    }
  }

  lemma Xor32CancelsAt(c: bv32, v: bv32, w: bv32)
    ensures XorCancelsAt(REGISTER_32, c, v, w)
  {
  }

  lemma Xor32Cancels()
    ensures XorCancels(REGISTER_32)
  {
    forall c, v, w ensures XorCancelsAt(REGISTER_32, c, v, w) {
      Xor32CancelsAt(c, v, w);
    }
  }

  lemma Split32(pushed: bv32, plain: bv32, c: bv32, w: bv32, word: bv32, input: bv32)
    requires pushed == c ^ word && plain == c ^ input && word == (w << 1) | input && input & 0xFFFFFFFE == 0
    ensures pushed == plain ^ (w << 1)
  {
  }

  lemma Shift32(pushed: bv32, plain: bv32, w: bv32)
    requires w & 0x80000000 == 0 && pushed == plain ^ (w << 1)
    ensures Step32(pushed) == Xor32(Step32(plain), w)
  {
  }

  lemma Input32IsOneBit(b: bool)
    ensures Input32(b) & 0xFFFFFFFE == 0
  {
  }

  lemma Push32Injective(v: bv32, w: bv32, a: bool, b: bool)
    requires Room32(v) && Room32(w) && Push32(v, a) == Push32(w, b)
    ensures v == w && a == b
  {
  }

  lemma Push32Shifts(c: bv32, w: bv32, b: bool)
    requires Room32(w)
    ensures Step32(Xor32(c, Push32(w, b))) == Xor32(Step32(Xor32(c, Input32(b))), w)
  {
    var pushed, plain := Xor32(c, Push32(w, b)), Xor32(c, Input32(b));
    Input32IsOneBit(b);
    Split32(pushed, plain, c, w, Push32(w, b), Input32(b));
    Shift32(pushed, plain, w);
  }

  lemma ShiftsOut32At(c: bv32, w: bv32, b: bool)
    ensures ShiftsOutAt(REGISTER_32, c, w, b)
  {
    if Room32(w) {
      Push32Shifts(c, w, b);
    }
  }

  lemma PushInjective32At(v: bv32, w: bv32, a: bool, b: bool)
    ensures PushInjectiveAt(REGISTER_32, v, w, a, b)
  {
    if Room32(v) && Room32(w) && Push32(v, a) == Push32(w, b) {
      Push32Injective(v, w, a, b);
    }
  }

  lemma Push32ShiftsOut()
    ensures PushShiftsOut(REGISTER_32)
  {
    forall c, w, b ensures ShiftsOutAt(REGISTER_32, c, w, b) {
      ShiftsOut32At(c, w, b);
    }
    forall v, w, a, b ensures PushInjectiveAt(REGISTER_32, v, w, a, b) {
      PushInjective32At(v, w, a, b);
    }
  }

  lemma Push32Masked(w: bv32, b: bool, mask: bv32)
    requires Within32(w, mask)
    ensures Within32(Push32(w, b), WiderMask32(mask))
  {
    Input32IsOneBit(b);
    PushedWithin32(w, Input32(b), mask);
  }

  lemma PushedWithin32(w: bv32, input: bv32, mask: bv32)
    requires w & !mask == 0 && input & 0xFFFFFFFE == 0
    ensures ((w << 1) | input) & !((mask << 1) | 1) == 0
  {
  }

  lemma {:induction false} Word32Masked(bits: seq<bool>)
    ensures Within32(Word(REGISTER_32, bits), Mask32(|bits|))
  {
    if bits != [] {
      Word32Masked(bits[1..]);
      var w := Word(REGISTER_32, bits[1..]);
      var mask := Mask32(|bits| - 1);
      Push32Masked(w, bits[0], mask);
      assert Word(REGISTER_32, bits) == Push32(w, bits[0]);
    }
  }

  lemma Masked32HasRoom(w: bv32, mask: bv32, limit: bv32)
    requires Within32(w, mask) && Within32(mask, limit) && limit == 0x7FFFFFFF
    ensures Room32(w)
  {
  }

  lemma Words32HaveRoom()
    ensures ShortWordsHaveRoom(REGISTER_32)
  {
    var m := REGISTER_32;
    forall bits: seq<bool> | |bits| < 32 ensures m.room(Word(m, bits)) {
      Word32Masked(bits);
      Mask32Grows(|bits|, 31);
      Mask32Top();
      Masked32HasRoom(Word(m, bits), Mask32(|bits|), Mask32(31));
    }
  }

  lemma Register32Lawful()
    ensures Lawful(REGISTER_32)
  {
    Step32Injective();
    Xor32Cancels();
    Push32ShiftsOut();
    Words32HaveRoom();
  }

  // ----- CRC-16 -----

  lemma Step16InverseFed(c: bv16)
    requires c & 0x8000 == 0x8000
    ensures Unstep16(Step16(c)) == c
  {
  }

  lemma Step16InversePlain(c: bv16)
    requires c & 0x8000 != 0x8000
    ensures Unstep16(Step16(c)) == c
  {
  }

  lemma Step16Injective()
    ensures StepInjective(REGISTER_16)
  {
    forall c, d | REGISTER_16.step(c) == REGISTER_16.step(d) ensures c == d {
      Step16Inverse(c);
      Step16Inverse(d);
    }
  }

  lemma Step16Inverse(c: bv16)
    ensures Unstep16(Step16(c)) == c
  {
    if c & 0x8000 == 0x8000 {
      Step16InverseFed(c);
    } else {
      Step16InversePlain(c);
    }
  }

  lemma Xor16CancelsAt(c: bv16, v: bv16, w: bv16)
    ensures XorCancelsAt(REGISTER_16, c, v, w)
  {
  }

  lemma Xor16Cancels()
    ensures XorCancels(REGISTER_16)
  {
    forall c, v, w ensures XorCancelsAt(REGISTER_16, c, v, w) {
      Xor16CancelsAt(c, v, w);
    }
  }

  lemma Split16(pushed: bv16, plain: bv16, c: bv16, w: bv16, word: bv16, input: bv16)
    requires pushed == c ^ word && plain == c ^ input && word == (w >> 1) | input && input & 0x7FFF == 0
    ensures pushed == plain ^ (w >> 1)
  {
  }

  lemma Shift16(pushed: bv16, plain: bv16, w: bv16)
    requires w & 1 == 0 && pushed == plain ^ (w >> 1)
    ensures Step16(pushed) == Xor16(Step16(plain), w)
  {
  }

  lemma Input16IsOneBit(b: bool)
    ensures Input16(b) & 0x7FFF == 0
  {
  }

  lemma Push16Injective(v: bv16, w: bv16, a: bool, b: bool)
    requires Room16(v) && Room16(w) && Push16(v, a) == Push16(w, b)
    ensures v == w && a == b
  {
  }

  lemma Push16Shifts(c: bv16, w: bv16, b: bool)
    requires Room16(w)
    ensures Step16(Xor16(c, Push16(w, b))) == Xor16(Step16(Xor16(c, Input16(b))), w)
  {
    var pushed, plain := Xor16(c, Push16(w, b)), Xor16(c, Input16(b));
    Input16IsOneBit(b);
    Split16(pushed, plain, c, w, Push16(w, b), Input16(b));
    Shift16(pushed, plain, w);
  }

  lemma ShiftsOut16At(c: bv16, w: bv16, b: bool)
    ensures ShiftsOutAt(REGISTER_16, c, w, b)
  {
    if Room16(w) {
      Push16Shifts(c, w, b);
    }
  }

  lemma PushInjective16At(v: bv16, w: bv16, a: bool, b: bool)
    ensures PushInjectiveAt(REGISTER_16, v, w, a, b)
  {
    if Room16(v) && Room16(w) && Push16(v, a) == Push16(w, b) {
      Push16Injective(v, w, a, b);
    }
  }

  lemma Push16ShiftsOut()
    ensures PushShiftsOut(REGISTER_16)
  {
    forall c, w, b ensures ShiftsOutAt(REGISTER_16, c, w, b) {
      ShiftsOut16At(c, w, b);
    }
    forall v, w, a, b ensures PushInjectiveAt(REGISTER_16, v, w, a, b) {
      PushInjective16At(v, w, a, b);
    }
  }

  lemma Push16Masked(w: bv16, b: bool, mask: bv16)
    requires Within16(w, mask)
    ensures Within16(Push16(w, b), WiderMask16(mask))
  {
  }

  lemma {:induction false} Word16Masked(bits: seq<bool>)
    ensures Within16(Word(REGISTER_16, bits), Mask16(|bits|))
  {
    if bits != [] {
      Word16Masked(bits[1..]);
      var w := Word(REGISTER_16, bits[1..]);
      var mask := Mask16(|bits| - 1);
      Push16Masked(w, bits[0], mask);
      assert Word(REGISTER_16, bits) == Push16(w, bits[0]);
    }
  }

  lemma Masked16HasRoom(w: bv16, mask: bv16, limit: bv16)
    requires Within16(w, mask) && Within16(mask, limit) && limit == 0xFFFE
    ensures Room16(w)
  {
  }

  lemma Words16HaveRoom()
    ensures ShortWordsHaveRoom(REGISTER_16)
  {
    var m := REGISTER_16;
    forall bits: seq<bool> | |bits| < 16 ensures m.room(Word(m, bits)) {
      Word16Masked(bits);
      Mask16Grows(|bits|, 15);
      Mask16Top();
      Masked16HasRoom(Word(m, bits), Mask16(|bits|), Mask16(15));
    }
  }

  lemma Register16Lawful()
    ensures Lawful(REGISTER_16)
  {
    Step16Injective();
    Xor16Cancels();
    Push16ShiftsOut();
    Words16HaveRoom();
  }

  // ----- The loops of the sources compute the bit-serial definition -----

  /** A byte as the C expression promotes it: the binary numeral in the low end of the register. */
  function Widen32(b: byte): bv32 {
    Word(REGISTER_32, BitsLow(b))
  }

  /** `(uint16_t)data[index] << 8`: the binary numeral in the high end of the register. */
  function Widen16(b: byte): bv16 {
    Word(REGISTER_16, BitsHigh(b))
  }

  lemma PushedValue32(w: bv32, half: nat, digit: bool)
    requires w as nat == half < 0x8000_0000
    ensures Push32(w, digit) as nat == 2 * half + (if digit then 1 else 0)
  {
    HasRoom32(w, half);
    if digit {
      PushedOne32(w);
    } else {
      PushedZero32(w);
    }
  }

  lemma HasRoom32(w: bv32, n: nat)
    requires w as nat == n < 0x8000_0000
    ensures w < 0x8000_0000
  {
  }

  lemma PushedOne32(w: bv32)
    requires w < 0x8000_0000
    ensures Push32(w, true) as nat == 2 * (w as nat) + 1
  {
    ShiftedOne32(w);
  }

  lemma ShiftedOne32(w: bv32)
    requires w < 0x8000_0000
    ensures ((w << 1) | 1) as nat == 2 * (w as nat) + 1
  {
  }

  lemma ShiftedZero32(w: bv32)
    requires w < 0x8000_0000
    ensures ((w << 1) | 0) as nat == 2 * (w as nat)
  {
    assert (w << 1) | 0 == w << 1;
  }

  lemma PushedZero32(w: bv32)
    requires w < 0x8000_0000
    ensures Push32(w, false) as nat == 2 * (w as nat)
  {
    ShiftedZero32(w);
  }

  function Power(n: nat): nat {
    if n == 0 then 1 else 2 * Power(n - 1)
  }

  lemma {:induction false} PowerGrows(m: nat, n: nat)
    requires m <= n
    ensures Power(m) <= Power(n)
    decreases n
  {
    if m < n {
      PowerGrows(m, n - 1);
    }
  }

  lemma PowerNext(n: nat)
    ensures Power(n) == if n == 0 then 1 else 2 * Power(n - 1)
  {
  }

  lemma Powers()
    ensures Power(8) == 0x100 && Power(16) == 0x1_0000 && Power(32) == 0x1_0000_0000
  {
    assert Power(4) == 16 && Power(8) == 0x100 && Power(12) == 0x1000 && Power(16) == 0x1_0000;
    assert Power(20) == 0x10_0000 && Power(24) == 0x100_0000 && Power(28) == 0x1000_0000;
  }

  lemma Word32Next(bits: seq<bool>)
    requires bits != []
    ensures Word(REGISTER_32, bits) == Push32(Word(REGISTER_32, bits[1..]), bits[0])
  {
  }

  lemma {:induction false} DigitsValue32(b: nat, n: nat)
    requires n <= 32 && b < Power(n)
    ensures Word(REGISTER_32, DigitsLow(b, n)) as nat == b
    decreases n
  {
    hide Word, Push32, Power;
    if n == 0 {
      PowerNext(0);
      NoWord32();
    } else {
      PowerNext(n);
      PowerGrows(n, 32);
      Powers();
      DigitsValue32(b / 2, n - 1);
      assert DigitsLow(b, n)[1..] == DigitsLow(b / 2, n - 1);
      Word32Next(DigitsLow(b, n));
      PushedValue32(Word(REGISTER_32, DigitsLow(b / 2, n - 1)), b / 2, b % 2 == 1);
    }
  }

  lemma NoWord32()
    ensures Word(REGISTER_32, []) as nat == 0
  {
  }

  lemma Numeral32(w: bv32, n: nat)
    requires w as nat == n
    ensures n as bv32 == w
  {
  }

  /** The bits in the order of consumption are the binary numeral that the C promotion of the byte yields. */
  lemma Widen32Promotes(b: byte)
    ensures Widen32(b) == b as bv32
  {
    hide Word, Power;
    Powers();
    DigitsValue32(b, 8);
    Numeral32(Widen32(b), b);
  }

  /** Binary digit `k` of a number. */
  function Digit(b: nat, k: nat): bool {
    if k == 0 then b % 2 == 1 else Digit(b / 2, k - 1)
  }

  lemma {:induction false} HighestFirst(b: nat, n: nat)
    requires n > 0
    ensures DigitsHigh(b, n) == [Digit(b, n - 1)] + DigitsHigh(b, n - 1)
  {
    if n > 1 {
      HighestFirst(b / 2, n - 1);
    }
  }

  lemma Word16Next(bits: seq<bool>)
    requires bits != []
    ensures Word(REGISTER_16, bits) == Push16(Word(REGISTER_16, bits[1..]), bits[0])
  {
  }

  lemma NoWord16()
    ensures Word(REGISTER_16, []) == 0
  {
  }

  lemma HalfNumeral16(b: nat)
    requires b < 256
    ensures (b as bv16) & 1 == (if b % 2 == 1 then 1 else 0)
    ensures (b as bv16) >> 1 == (b / 2) as bv16
  {
  }

  lemma RightTwice16(w: bv16, k: nat)
    requires 0 < k < 8
    ensures (w >> 1) >> (k - 1) == w >> k
  {
    match k
    case 1 => assert (w >> 1) >> 0 == w >> 1;
    case 2 => assert (w >> 1) >> 1 == w >> 2;
    case 3 => assert (w >> 1) >> 2 == w >> 3;
    case 4 => assert (w >> 1) >> 3 == w >> 4;
    case 5 => assert (w >> 1) >> 4 == w >> 5;
    case 6 => assert (w >> 1) >> 5 == w >> 6;
    case _ => assert (w >> 1) >> 6 == w >> 7;
  }

  lemma {:induction false} NumeralDigit(b: nat, k: nat)
    requires b < 256 && k < 8
    ensures ((b as bv16) >> k) & 1 == (if Digit(b, k) then 1 else 0)
    decreases k
  {
    HalfNumeral16(b);
    if k == 0 {
      NotShifted16(b as bv16);
    } else {
      NumeralDigit(b / 2, k - 1);
      RightTwice16(b as bv16, k);
    }
  }

  lemma NotShifted16(w: bv16)
    ensures w >> 0 == w
  {
  }

  predicate HasDigit(w: bv16, b: nat, k: nat)
    requires k < 8
  {
    (w >> k) & 1 == (if Digit(b, k) then 1 else 0)
  }

  /** The low `n` digits at the high end of the register. */
  function Top16(w: bv16, n: nat): bv16
    requires n <= 8
  {
    w << (16 - n)
  }

  /** The register takes in the next higher digit of a numeral at its top. */
  lemma TakesIn16(w: bv16, b: nat, n: nat)
    requires 0 < n <= 8 && HasDigit(w, b, n - 1)
    ensures Push16(Top16(w, n - 1), Digit(b, n - 1)) == Top16(w, n)
  {
    hide Digit, Push16;
    if n <= 2 {
      TakesInLow16(w, n, Digit(b, n - 1));
    } else if n <= 4 {
      TakesInMiddle16(w, n, Digit(b, n - 1));
    } else if n <= 6 {
      TakesInUpper16(w, n, Digit(b, n - 1));
    } else {
      TakesInHigh16(w, n, Digit(b, n - 1));
    }
  }

  lemma TakesInLow16(w: bv16, n: nat, digit: bool)
    requires 0 < n <= 2 && (w >> (n - 1)) & 1 == (if digit then 1 else 0)
    ensures Push16(w << (17 - n), digit) == w << (16 - n)
  {
  }

  lemma TakesInMiddle16(w: bv16, n: nat, digit: bool)
    requires 2 < n <= 4 && (w >> (n - 1)) & 1 == (if digit then 1 else 0)
    ensures Push16(w << (17 - n), digit) == w << (16 - n)
  {
  }

  lemma TakesInUpper16(w: bv16, n: nat, digit: bool)
    requires 4 < n <= 6 && (w >> (n - 1)) & 1 == (if digit then 1 else 0)
    ensures Push16(w << (17 - n), digit) == w << (16 - n)
  {
  }

  lemma TakesInHigh16(w: bv16, n: nat, digit: bool)
    requires 6 < n <= 8 && (w >> (n - 1)) & 1 == (if digit then 1 else 0)
    ensures Push16(w << (17 - n), digit) == w << (16 - n)
  {
  }

  lemma {:induction false} DigitsValue16(b: nat, w: bv16, n: nat)
    requires n <= 8 && forall k: nat :: k < 8 ==> HasDigit(w, b, k)
    ensures Word(REGISTER_16, DigitsHigh(b, n)) == Top16(w, n)
    decreases n
  {
    hide Word, Push16, DigitsHigh, Digit, HasDigit, Top16;
    if n == 0 {
      NoWord16();
      NothingTop16(w);
      NoDigits(b);
    } else {
      DigitsValue16(b, w, n - 1);
      HighestFirst(b, n);
      Word16Next(DigitsHigh(b, n));
      assert DigitsHigh(b, n)[1..] == DigitsHigh(b, n - 1);
      TakesIn16(w, b, n);
    }
  }

  lemma NothingTop16(w: bv16)
    ensures Top16(w, 0) == 0
  {
  }

  lemma NoDigits(b: nat)
    ensures DigitsHigh(b, 0) == []
  {
  }

  /** `(uint16_t)data[index] << 8`. */
  lemma Widen16Promotes(b: byte)
    ensures Widen16(b) == (b as bv16) << 8
  {
    hide Word;
    var w := b as bv16;
    forall k: nat | k < 8 ensures HasDigit(w, b, k) {
      NumeralDigit(b, k);
    }
    DigitsValue16(b, w, 8);
  }

  lemma {:induction false} StreamAppend(bits: byte -> seq<bool>, a: seq<byte>, b: seq<byte>)
    ensures Stream(bits, a + b) == Stream(bits, a) + Stream(bits, b)
  {
    if a == [] {
      assert a + b == b;
    } else {
      assert (a + b)[1..] == a[1..] + b;
      StreamAppend(bits, a[1..], b);
    }
  }

  lemma StreamSplit(bits: byte -> seq<bool>, a: seq<byte>, b: seq<byte>, c: seq<byte>)
    ensures Stream(bits, a + b + c) == Stream(bits, a) + Stream(bits, b) + Stream(bits, c)
  {
    StreamAppend(bits, a + b, c);
    StreamAppend(bits, a, b);
  }

  lemma StreamSnoc(bits: byte -> seq<bool>, a: seq<byte>, b: byte)
    ensures Stream(bits, a + [b]) == Stream(bits, a) + bits(b)
  {
    StreamAppend(bits, a, [b]);
    assert Stream(bits, [b]) == bits(b) + Stream(bits, []);
  }

  /** The source selects the polynomial with an all-ones or all-zeros mask instead of a branch. */
  lemma Masked32(c: bv32, mask: bv32)
    requires mask == 0 - (c & 1)
    ensures (c >> 1) ^ (0xEDB88320 & mask) == Step32(c)
  {
    if c & 1 == 1 {
      MaskSet32(mask);
    } else {
      MaskClear32(c, mask);
    }
  }

  lemma MaskSet32(mask: bv32)
    requires mask == 0 - 1
    ensures 0xEDB88320 & mask == 0xEDB88320
  {
  }

  lemma MaskClear32(c: bv32, mask: bv32)
    requires mask == 0 - (c & 1) && c & 1 != 1
    ensures 0xEDB88320 & mask == 0
  {
  }

  method AbsorbByte32(entry: bv32, b: byte) returns (register: bv32)
    ensures register == Feed(REGISTER_32, entry, BitsLow(b))
  {
    register := Xor32(entry, Widen32(b));
    ghost var added := register;
    for bit := 0 to 8
      invariant register == Steps(REGISTER_32, added, bit)
    {
      var mask: bv32 := 0 - (register & 1);
      Masked32(register, mask);
      register := (register >> 1) ^ (0xEDB88320 & mask);
    }
    Register32Lawful();
    FeedIsWord(REGISTER_32, entry, BitsLow(b));
  }

  /** `iap_protocol_crc32` over the `length` bytes from `start`. */
  method ComputeCrc32(data: array<byte>, start: nat, length: nat) returns (crc: u32)
    requires start + length <= data.Length
    ensures crc == Crc32(data[start..start + length])
  {
    var register: bv32 := 0xFFFFFFFF;
    for index := 0 to length
      invariant register == Feed(REGISTER_32, 0xFFFFFFFF, Stream(BitsLow, data[start..start + index]))
    {
      ghost var done, next := data[start..start + index], data[start + index];
      register := AbsorbByte32(register, data[start + index]);
      StreamSnoc(BitsLow, done, next);
      FeedAppend(REGISTER_32, 0xFFFFFFFF, Stream(BitsLow, done), BitsLow(next));
      assert data[start..start + index + 1] == done + [next];
    }
    crc := Finish32(register);
  }

  lemma StepFed16(c: bv16)
    requires c & 0x8000 == 0x8000
    ensures (c << 1) ^ 0x1021 == Step16(c)
  {
  }

  lemma StepPlain16(c: bv16)
    requires c & 0x8000 != 0x8000
    ensures c << 1 == Step16(c)
  {
  }

  method AbsorbByte16(entry: bv16, b: byte) returns (register: bv16)
    ensures register == Feed(REGISTER_16, entry, BitsHigh(b))
  {
    register := Xor16(entry, Widen16(b));
    ghost var added := register;
    for bit := 0 to 8
      invariant register == Steps(REGISTER_16, added, bit)
    {
      if register & 0x8000 == 0x8000 {
        StepFed16(register);
        register := (register << 1) ^ 0x1021;
      } else {
        StepPlain16(register);
        register := register << 1;
      }
    }
    Register16Lawful();
    FeedIsWord(REGISTER_16, entry, BitsHigh(b));
  }

  /** `iap_protocol_crc16` over the `length` bytes from `start`. */
  method ComputeCrc16(data: array<byte>, start: nat, length: nat) returns (crc: u16)
    requires start + length <= data.Length
    ensures crc == Crc16(data[start..start + length])
  {
    var register: bv16 := 0xFFFF;
    for index := 0 to length
      invariant register == Feed(REGISTER_16, 0xFFFF, Stream(BitsHigh, data[start..start + index]))
    {
      ghost var done, next := data[start..start + index], data[start + index];
      register := AbsorbByte16(register, data[start + index]);
      StreamSnoc(BitsHigh, done, next);
      FeedAppend(REGISTER_16, 0xFFFF, Stream(BitsHigh, done), BitsHigh(next));
      assert data[start..start + index + 1] == done + [next];
    }
    crc := Finish16(register);
  }

  // ----- Burst errors -----

  lemma Bv32Fits(x: bv32)
    ensures (x as int) as bv32 == x
  {
  }

  lemma Bv16Fits(x: bv16)
    ensures (x as int) as bv16 == x
  {
  }

  lemma Finish32Injective(x: bv32, y: bv32)
    ensures Finish32(x) == Finish32(y) ==> x == y
  {
    Bv32Fits(x ^ 0xFFFFFFFF);
    Bv32Fits(y ^ 0xFFFFFFFF);
  }

  lemma Finish16Injective(x: bv16, y: bv16)
    ensures Finish16(x) == Finish16(y) ==> x == y
  {
    Bv16Fits(x);
    Bv16Fits(y);
  }

  /** Any change confined to 32 consecutive transmitted bits, aligned to bytes or not, changes CRC-32. */
  lemma Crc32DetectsBitBurst(
    a: seq<byte>, b: seq<byte>, before: seq<bool>, v: seq<bool>, w: seq<bool>, after: seq<bool>)
    requires Stream(BitsLow, a) == before + v + after
    requires Stream(BitsLow, b) == before + w + after
    requires |v| == |w| <= 32 && v != w
    ensures Crc32(a) != Crc32(b)
  {
    Register32Lawful();
    BurstDetected(REGISTER_32, 0xFFFFFFFF, before, v, w, after);
    var x, y := Feed(REGISTER_32, 0xFFFFFFFF, Stream(BitsLow, a)), Feed(REGISTER_32, 0xFFFFFFFF, Stream(BitsLow, b));
    Finish32Injective(x, y);
  }

  lemma {:induction false} StreamLowInjective(a: seq<byte>, b: seq<byte>)
    requires |a| == |b| && Stream(BitsLow, a) == Stream(BitsLow, b)
    ensures a == b
  {
    if a != [] {
      var s, t := Stream(BitsLow, a), Stream(BitsLow, b);
      assert s[..8] == BitsLow(a[0]) && t[..8] == BitsLow(b[0]);
      assert s[8..] == Stream(BitsLow, a[1..]) && t[8..] == Stream(BitsLow, b[1..]);
      BitsLowInjective(a[0], b[0]);
      StreamLowInjective(a[1..], b[1..]);
      assert a == [a[0]] + a[1..] && b == [b[0]] + b[1..];
    }
  }

  lemma BitsLowInjective(a: byte, b: byte)
    requires BitsLow(a) == BitsLow(b)
    ensures a == b
  {
    assert Power2(2) == 4 && Power2(4) == 16 && Power2(6) == 64 && Power2(8) == 256;
    DigitsLowInjective(a, b, 8);
  }

  lemma {:induction false} StreamLowLength(a: seq<byte>)
    ensures |Stream(BitsLow, a)| == 8 * |a|
  {
    if a != [] {
      StreamLowLength(a[1..]);
    }
  }

  /** Any change confined to 4 consecutive bytes of an input of any length changes CRC-32. */
  lemma Crc32DetectsByteBurst(a: seq<byte>, b: seq<byte>, from: nat)
    requires |a| == |b| && a != b
    requires forall k :: 0 <= k < |a| && !(from <= k < from + 4) ==> a[k] == b[k]
    ensures Crc32(a) != Crc32(b)
  {
    var i, j := Min(from, |a|), Min(from + 4, |a|);
    var before, after := a[..i], a[j..];
    var v, w := a[i..j], b[i..j];
    assert a == before + v + after && b == before + w + after;
    StreamSplit(BitsLow, before, v, after);
    StreamSplit(BitsLow, before, w, after);
    StreamLowLength(v);
    StreamLowLength(w);
    if Stream(BitsLow, v) == Stream(BitsLow, w) {
      StreamLowInjective(v, w);
    }
    Crc32DetectsBitBurst(a, b, Stream(BitsLow, before), Stream(BitsLow, v), Stream(BitsLow, w),
      Stream(BitsLow, after));
  }

  /** Any change confined to 16 consecutive transmitted bits, aligned to bytes or not, changes CRC-16. */
  lemma Crc16DetectsBitBurst(
    a: seq<byte>, b: seq<byte>, before: seq<bool>, v: seq<bool>, w: seq<bool>, after: seq<bool>)
    requires Stream(BitsHigh, a) == before + v + after
    requires Stream(BitsHigh, b) == before + w + after
    requires |v| == |w| <= 16 && v != w
    ensures Crc16(a) != Crc16(b)
  {
    Register16Lawful();
    BurstDetected(REGISTER_16, 0xFFFF, before, v, w, after);
    var x, y := Feed(REGISTER_16, 0xFFFF, Stream(BitsHigh, a)), Feed(REGISTER_16, 0xFFFF, Stream(BitsHigh, b));
    Finish16Injective(x, y);
  }

  lemma {:induction false} StreamHighInjective(a: seq<byte>, b: seq<byte>)
    requires |a| == |b| && Stream(BitsHigh, a) == Stream(BitsHigh, b)
    ensures a == b
  {
    if a != [] {
      var s, t := Stream(BitsHigh, a), Stream(BitsHigh, b);
      assert s[..8] == BitsHigh(a[0]) && t[..8] == BitsHigh(b[0]);
      assert s[8..] == Stream(BitsHigh, a[1..]) && t[8..] == Stream(BitsHigh, b[1..]);
      BitsHighInjective(a[0], b[0]);
      StreamHighInjective(a[1..], b[1..]);
      assert a == [a[0]] + a[1..] && b == [b[0]] + b[1..];
    }
  }

  lemma BitsHighInjective(a: byte, b: byte)
    requires BitsHigh(a) == BitsHigh(b)
    ensures a == b
  {
    assert Power2(2) == 4 && Power2(4) == 16 && Power2(6) == 64 && Power2(8) == 256;
    DigitsHighInjective(a, b, 8);
  }

  lemma {:induction false} StreamHighLength(a: seq<byte>)
    ensures |Stream(BitsHigh, a)| == 8 * |a|
  {
    if a != [] {
      StreamHighLength(a[1..]);
    }
  }

  /** Any change confined to 2 consecutive bytes of an input of any length changes CRC-16. */
  lemma Crc16DetectsByteBurst(a: seq<byte>, b: seq<byte>, from: nat)
    requires |a| == |b| && a != b
    requires forall k :: 0 <= k < |a| && !(from <= k < from + 2) ==> a[k] == b[k]
    ensures Crc16(a) != Crc16(b)
  {
    var i, j := Min(from, |a|), Min(from + 2, |a|);
    var before, after := a[..i], a[j..];
    var v, w := a[i..j], b[i..j];
    assert a == before + v + after && b == before + w + after;
    StreamSplit(BitsHigh, before, v, after);
    StreamSplit(BitsHigh, before, w, after);
    StreamHighLength(v);
    StreamHighLength(w);
    if Stream(BitsHigh, v) == Stream(BitsHigh, w) {
      StreamHighInjective(v, w);
    }
    Crc16DetectsBitBurst(a, b, Stream(BitsHigh, before), Stream(BitsHigh, v), Stream(BitsHigh, w),
      Stream(BitsHigh, after));
  }
}
