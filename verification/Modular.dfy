/** Residues modulo a variable number of slots. */
module Modular {

  lemma MultipleBounds(k: int, n: int)
    requires n > 0
    ensures k > 0 ==> k * n >= n
    ensures k < 0 ==> k * n <= -n
    ensures k == 0 ==> k * n == 0
  {
  }

  lemma Distribute(p: int, q: int, n: int)
    ensures (p - q) * n == p * n - q * n
    ensures (p + 1) * n == p * n + n
  {
  }

  lemma DivMod(a: int, n: int)
    requires n > 0
    ensures a == (a / n) * n + a % n && 0 <= a % n < n
  {
  }

  lemma ResidueUnique(a: int, q: int, r: int, n: int)
    requires n > 0 && 0 <= r < n && a == q * n + r
    ensures a % n == r
  {
    DivMod(a, n);
    Distribute(q, a / n, n);
    MultipleBounds(q - a / n, n);
  }

  lemma AddModulus(a: int, n: int)
    requires n > 0
    ensures (a + n) % n == a % n
  {
    DivMod(a, n);
    Distribute(a / n, 0, n);
    ResidueUnique(a + n, a / n + 1, a % n, n);
  }

  /** Two numbers less than one modulus apart have different residues. */
  lemma CloseResiduesDiffer(a: int, b: int, n: int)
    requires n > 0 && a < b < a + n
    ensures a % n != b % n
  {
    DivMod(a, n);
    DivMod(b, n);
    Distribute(b / n, a / n, n);
    MultipleBounds(b / n - a / n, n);
  }
}
