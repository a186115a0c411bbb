/** NOR flash: erasing sets whole sectors to ones, programming can only clear bits. */
module Flash {
  import opened Bytes

  const SECTOR: nat := 0x1000
  const ERASED: byte := 0xFF

  /** `(n + 3) & ~3` and `(n + 4095) & ~4095`: the least multiple that is not below `n`. */
  function Words(n: nat): (r: nat)
    ensures r % 4 == 0 && n <= r < n + 4
  {
    (n + 3) / 4 * 4
  }

  lemma WordsAfterAligned(a: nat, b: nat)
    requires a % 4 == 0
    ensures Words(a) == a && Words(a + b) == a + Words(b)
  {
  }

  lemma WordsLeast(a: nat, m: nat)
    requires a <= m && m % 4 == 0
    ensures Words(a) <= m
  {
  }

  lemma SectorsAreWords(n: nat)
    ensures Sectors(n) % 4 == 0
  {
    var q := (n + 0xFFF) / 0x1000;
    assert Sectors(n) == 4 * (0x400 * q);
  }

  function Sectors(n: nat): (r: nat)
    ensures r % SECTOR == 0 && n <= r < n + SECTOR
  {
    (n + 0xFFF) / 0x1000 * 0x1000
  }

  /** Bitwise conjunction of the low `n` binary digits. */
  function AndDigits(a: nat, b: nat, n: nat): (r: nat)
    ensures r <= a && r <= b
  {
    if n == 0 then 0 else (if a % 2 == 1 && b % 2 == 1 then 1 else 0) + 2 * AndDigits(a / 2, b / 2, n - 1)
  }

  function And(a: byte, b: byte): byte {
    AndDigits(a, b, 8)
  }

  function Ones(n: nat): nat {
    if n == 0 then 0 else 2 * Ones(n - 1) + 1
  }

  lemma {:induction false} AndOnes(b: nat, n: nat)
    requires b <= Ones(n)
    ensures AndDigits(Ones(n), b, n) == b
  {
    if n > 0 {
      var rest := Ones(n - 1);
      assert Ones(n) % 2 == 1 && Ones(n) / 2 == rest && b / 2 <= rest;
      AndOnes(b / 2, n - 1);
    }
  }

  lemma {:induction false} AndDigitsTwice(a: nat, b: nat, n: nat)
    ensures AndDigits(AndDigits(a, b, n), b, n) == AndDigits(a, b, n)
  {
    if n > 0 {
      AndDigitsTwice(a / 2, b / 2, n - 1);
      assert AndDigits(a, b, n) / 2 == AndDigits(a / 2, b / 2, n - 1);
    }
  }

  /** An erased cell takes any value. */
  lemma AndErased(b: byte)
    ensures And(ERASED, b) == b
  {
    assert Ones(2) == 3 && Ones(4) == 15 && Ones(6) == 63 && Ones(8) == 255;
    AndOnes(b, 8);
  }

  /** Programming the same value again changes nothing. */
  lemma AndTwice(a: byte, b: byte)
    ensures And(And(a, b), b) == And(a, b)
  {
    AndDigitsTwice(a, b, 8);
  }

  lemma AndSelf(b: byte)
    ensures And(b, b) == b
  {
    AndErased(b);
    AndTwice(ERASED, b);
  }

  function BitOf(b: nat, k: nat): bool {
    if k == 0 then b % 2 == 1 else BitOf(b / 2, k - 1)
  }

  lemma {:induction false} AndDigitsBits(a: nat, b: nat, n: nat, k: nat)
    requires k < n
    ensures BitOf(AndDigits(a, b, n), k) <==> BitOf(a, k) && BitOf(b, k)
  {
    var r := AndDigits(a / 2, b / 2, n - 1);
    assert AndDigits(a, b, n) / 2 == r;
    if k > 0 {
      AndDigitsBits(a / 2, b / 2, n - 1, k - 1);
    }
  }

  /** Programming a cell keeps exactly the bits that are set both in the cell and in the data. */
  lemma AndIsBitwise(a: byte, b: byte, k: nat)
    requires k < 8
    ensures BitOf(And(a, b), k) <==> BitOf(a, k) && BitOf(b, k)
  {
    AndDigitsBits(a, b, 8, k);
  }

  function Erase(cells: seq<byte>, at: nat, n: nat): (r: seq<byte>)
    ensures |r| == |cells|
    ensures forall i :: 0 <= i < |cells| ==> r[i] == if at <= i < at + n then ERASED else cells[i]
  {
    seq(|cells|, i requires 0 <= i < |cells| => if at <= i < at + n then ERASED else cells[i])
  }

  function Program(cells: seq<byte>, at: nat, data: seq<byte>): (r: seq<byte>)
    ensures |r| == |cells|
    ensures forall i :: 0 <= i < |cells| ==>
      r[i] == if at <= i < at + |data| then And(cells[i], data[i - at]) else cells[i]
  {
    seq(|cells|, i requires 0 <= i < |cells| => if at <= i < at + |data| then And(cells[i], data[i - at]) else cells[i])
  }

  /** An operation on `n` cells that failed part-way: each of them may hold anything. */
  function Damage(cells: seq<byte>, at: nat, n: nat, residue: seq<byte>): (r: seq<byte>)
    ensures |r| == |cells|
    ensures forall i :: 0 <= i < |cells| ==>
      r[i] == if at <= i < at + n && i - at < |residue| then residue[i - at] else cells[i]
  {
    seq(|cells|, i requires 0 <= i < |cells| =>
      if at <= i < at + n && i - at < |residue| then residue[i - at] else cells[i])
  }

  lemma SliceKept(a: seq<byte>, b: seq<byte>, from: nat, to: nat)
    requires from <= to <= |a| == |b|
    requires forall i :: from <= i < to ==> a[i] == b[i]
    ensures a[from..to] == b[from..to]
  {
  }

  /** Programming erased cells stores the data exactly. */
  lemma ProgramErased(cells: seq<byte>, at: nat, data: seq<byte>)
    requires at + |data| <= |cells|
    requires forall i :: at <= i < at + |data| ==> cells[i] == ERASED
    ensures Program(cells, at, data)[at..at + |data|] == data
  {
    var after := Program(cells, at, data);
    forall i | at <= i < at + |data| ensures after[i] == data[i - at] {
      AndErased(data[i - at]);
    }
    assert forall k :: 0 <= k < |data| ==> after[at..at + |data|][k] == after[at + k] == data[k];
  }

  /** The flash device; every operation reports success or fails part-way as its environment decides. */
  class FlashChip {
    var cells: seq<byte>

    constructor (contents: seq<byte>)
      ensures cells == contents
    {
      cells := contents;
    }

    method EraseRange(at: nat, n: nat, fault: Option<seq<byte>>) returns (ok: bool)
      requires at % SECTOR == 0 && n % SECTOR == 0 && at + n <= |cells|
      modifies this
      ensures ok == fault.None?
      ensures cells == if ok then Erase(old(cells), at, n) else Damage(old(cells), at, n, fault.value)
    {
      ok := fault.None?;
      cells := if ok then Erase(cells, at, n) else Damage(cells, at, n, fault.value);
    }

    method Write(at: nat, data: seq<byte>, fault: Option<seq<byte>>) returns (ok: bool)
      requires at % 4 == 0 && |data| % 4 == 0 && at + |data| <= |cells|
      modifies this
      ensures ok == fault.None?
      ensures cells == if ok then Program(old(cells), at, data) else Damage(old(cells), at, |data|, fault.value)
    {
      ok := fault.None?;
      cells := if ok then Program(cells, at, data) else Damage(cells, at, |data|, fault.value);
    }
  }
}
