/** Powers of two, and remainders modulo them. A pattern of n bits is a number below the n-th power of
    two; leaving out its bits from the k-th on is the remainder modulo the k-th power, and the bits that
    were left out are the quotient. */
module Powers {
  import opened Basics

  function Pow2(k: nat): (r: nat)
    ensures r > 0
  {
    if k == 0 then 1 else 2 * Pow2(k - 1)
  }

  lemma {:induction false} Pow2Add(a: nat, b: nat)
    ensures Pow2(a) * Pow2(b) == Pow2(a + b)
  {
    if a > 0 {
      Pow2Add(a - 1, b);
      assert Pow2(a) * Pow2(b) == 2 * (Pow2(a - 1) * Pow2(b));
    }
  }

  lemma {:induction false} Pow2Monotone(a: nat, b: nat)
    requires a <= b
    ensures Pow2(a) <= Pow2(b)
  {
    if a < b { Pow2Monotone(a, b - 1); }
  }

  /** A remainder is known by its quotient. */
  lemma ModIs(s: nat, m: nat, q: nat, r: nat)
    requires r < m && s == q * m + r
    ensures s % m == r
  {
    var q2, r2 := s / m, s % m;
    assert (q2 - q) * m == r - r2;
    if q2 > q { MulGrows(1, q2 - q, m); }
    if q > q2 { MulGrows(1, q - q2, m); }
  }

  lemma SmallMod(r: nat, m: nat)
    requires r < m
    ensures r % m == r
  {
    ModIs(r, m, 0, r);
  }

  lemma Divide(s: nat, n: nat) returns (q: nat, r: nat)
    requires n > 0
    ensures s == q * n + r && r < n && r == s % n
  {
    q, r := s / n, s % n;
  }

  lemma Regroup(q: nat, m: nat, n: nat)
    requires n == 2 * m
    ensures q * n == 2 * q * m && (2 * q + 1) * m == 2 * q * m + m
  {
  }

  lemma Fold(s: nat, m: nat, q: nat, r: nat)
    requires m > 0 && s == 2 * q * m + r && r < 2 * m && (2 * q + 1) * m == 2 * q * m + m
    ensures s % m == if r < m then r else r - m
  {
    if r < m {
      ModIs(s, m, 2 * q, r);
    } else {
      ModIs(s, m, 2 * q + 1, r - m);
    }
  }

  /** The upper half of a remainder modulo n = 2m is folded onto the lower one modulo m. */
  lemma Halves(s: nat, m: nat, n: nat)
    requires m > 0 && n == 2 * m
    ensures s % n < n && s % m == if s % n < m then s % n else s % n - m
  {
    var q, r := Divide(s, n);
    Regroup(q, m, n);
    Fold(s, m, q, r);
  }
}
