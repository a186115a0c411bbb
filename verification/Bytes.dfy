/** Bytes, the fixed-width unsigned integers of the wire format, and their little-endian encodings. */
module Bytes {
  type byte = x: int | 0 <= x < 0x100
  type u16 = x: int | 0 <= x < 0x1_0000
  type u32 = x: int | 0 <= x < 0x1_0000_0000

  const U16_MODULUS: int := 0x1_0000
  const U32_MAX: int := 0xFFFF_FFFF

  datatype Option<+T> = None | Some(value: T)

  datatype Result<+T, +E> = Ok(value: T) | Err(error: E)

  function Min(a: int, b: int): int {
    if a <= b then a else b
  }

  /** The 16-bit successor with the wrap-around of a C `uint16_t` increment. */
  function Next16(x: u16): u16 {
    (x + 1) % U16_MODULUS
  }

  function Le16(x: u16): seq<byte> {
    [x % 0x100, x / 0x100]
  }

  function Le32(x: u32): seq<byte> {
    [x % 0x100, x / 0x100 % 0x100, x / 0x1_0000 % 0x100, x / 0x100_0000]
  }

  function ReadLe16(s: seq<byte>, at: nat): u16
    requires at + 2 <= |s|
  {
    (s[at] as int) + 0x100 * (s[at + 1] as int)
  }

  function ReadLe32(s: seq<byte>, at: nat): u32
    requires at + 4 <= |s|
  {
    (s[at] as int) + 0x100 * (s[at + 1] as int) + 0x1_0000 * (s[at + 2] as int) + 0x100_0000 * (s[at + 3] as int)
  }

  /** Reading a 16-bit field and writing it back are mutually inverse. */
  lemma Le16Inverse(s: seq<byte>, at: nat, x: u16)
    requires at + 2 <= |s|
    ensures ReadLe16(s, at) == x <==> s[at..at + 2] == Le16(x)
  {
    assert s[at..at + 2] == [s[at], s[at + 1]];
  }

  /** Reading a 32-bit field and writing it back are mutually inverse. */
  lemma Le32Inverse(s: seq<byte>, at: nat, x: u32)
    requires at + 4 <= |s|
    ensures ReadLe32(s, at) == x <==> s[at..at + 4] == Le32(x)
  {
    assert s[at..at + 4] == [s[at], s[at + 1], s[at + 2], s[at + 3]];
    var a: int, b: int, c: int, d: int := s[at], s[at + 1], s[at + 2], s[at + 3];
    if ReadLe32(s, at) == x {
      assert x % 0x100 == a && x / 0x100 == b + 0x100 * c + 0x1_0000 * d;
      assert x / 0x1_0000 == c + 0x100 * d;
      assert x / 0x100_0000 == d;
    }
    Le32Digits(x);
  }

  lemma Le32Digits(x: u32)
    ensures ReadLe32(Le32(x), 0) == x
  {
    assert x / 0x1_0000 == (x / 0x100) / 0x100;
    assert x / 0x100_0000 == (x / 0x1_0000) / 0x100;
  }

  function Flatten<T>(chunks: seq<seq<T>>): seq<T> {
    if chunks == [] then [] else Flatten(chunks[..|chunks| - 1]) + chunks[|chunks| - 1]
  }

  lemma FlattenNext<T>(chunks: seq<seq<T>>, j: nat)
    requires j < |chunks|
    ensures Flatten(chunks[..j + 1]) == Flatten(chunks[..j]) + chunks[j]
  {
    assert chunks[..j + 1][..j] == chunks[..j];
  }

  lemma {:induction false} FlattenAppend<T>(a: seq<seq<T>>, b: seq<seq<T>>)
    ensures Flatten(a + b) == Flatten(a) + Flatten(b)
    decreases |b|
  {
    if b == [] {
      assert a + b == a && Flatten(a) + [] == Flatten(a);
    } else {
      assert (a + b)[..|a + b| - 1] == a + b[..|b| - 1];
      FlattenAppend(a, b[..|b| - 1]);
      assert Flatten(a) + (Flatten(b[..|b| - 1]) + b[|b| - 1]) == Flatten(a) + Flatten(b[..|b| - 1]) + b[|b| - 1];
    }
  }

  lemma {:induction false} FlattenPrefix<T>(chunks: seq<seq<T>>, j: nat)
    requires j <= |chunks|
    ensures |Flatten(chunks[..j])| <= |Flatten(chunks)|
    ensures Flatten(chunks)[..|Flatten(chunks[..j])|] == Flatten(chunks[..j])
    decreases |chunks| - j
  {
    if j < |chunks| {
      FlattenPrefix(chunks, j + 1);
      FlattenNext(chunks, j);
      var all, n := Flatten(chunks), |Flatten(chunks[..j])|;
      assert all[..n] == all[..|Flatten(chunks[..j + 1])|][..n];
    } else {
      assert chunks[..j] == chunks;
    }
  }
}
