/** Shifts and bit fields on naturals, and the few product and quotient facts the proofs lean on. */
module Arith {

  function Pow2(n: nat): (r: nat)
    ensures r >= 1
  {
    if n == 0 then 1 else 2 * Pow2(n - 1)
  }

  /** a * b and a / b, by repeated addition and subtraction: unfolded one step at a time in proofs. */
  function Times(a: nat, b: nat): nat { if a == 0 then 0 else b + Times(a - 1, b) }

  function Quot(a: nat, b: nat): nat
    requires b > 0
  {
    if a < b then 0 else 1 + Quot(a - b, b)
  }

  /** x << n, without losing bits. */
  function Shl(x: nat, n: nat): nat { if n == 0 then x else 2 * Shl(x, n - 1) }

  /** x >> n. */
  function Shr(x: nat, n: nat): nat { if n == 0 then x else Shr(x / 2, n - 1) }

  /** The n low bits of x. */
  function Low(x: nat, n: nat): (r: nat)
    ensures r < Pow2(n)
  {
    if n == 0 then 0 else x % 2 + 2 * Low(x / 2, n - 1)
  }

  /** Number of significant bits: floor(log2(x)) + 1, and 0 for 0. */
  function Ilog(x: nat): nat { if x == 0 then 0 else 1 + Ilog(x / 2) }

  /** x with its n low bits cleared. */
  function ClearLow(x: nat, n: nat): nat { Shl(Shr(x, n), n) }

  /** x rounded up to a multiple of 2^n: add the mask, clear the mask. */
  function AlignUp(x: nat, n: nat): (r: nat)
    ensures x <= r < x + Pow2(n) && Low(r, n) == 0
  {
    ClearLowBounds(x + Pow2(n) - 1, n);
    ClearLow(x + Pow2(n) - 1, n)
  }

  // ---------------------------------------------------------------- products and quotients

  lemma DivBounds(x: nat, p: nat)
    requires p > 0
    ensures p * (x / p) <= x < p * (x / p) + p
  {
  }

  lemma MulMono(a: int, b: int, c: int)
    requires a <= b && c >= 0
    ensures c * a <= c * b
    ensures a * c <= b * c
  {
    assert c * b - c * a == c * (b - a);
    assert c * (b - a) >= 0;
  }

  lemma MulDist(a: int, b: int, c: int)
    ensures a * (b + c) == a * b + a * c
    ensures a * (b - c) == a * b - a * c
  {
  }

  lemma DivModUnique(x: int, m: int, q: int, r: int)
    requires 0 <= r < m && x == m * q + r
    ensures x / m == q && x % m == r
  {
    var q', r' := x / m, x % m;
    assert x == m * q' + r';
    if q' > q { MulMono(q + 1, q', m); }
    if q' < q { MulMono(q' + 1, q, m); }
  }

  lemma {:induction false} TimesIs(a: nat, b: nat)
    ensures Times(a, b) == a * b
  {
    if a > 0 { TimesIs(a - 1, b); }
  }

  lemma {:induction false} QuotIs(a: nat, b: nat)
    requires b > 0
    ensures Quot(a, b) == a / b
  {
    if a >= b {
      QuotIs(a - b, b);
      DivModUnique(a, b, (a - b) / b + 1, (a - b) % b);
    } else {
      DivModUnique(a, b, 0, a);
    }
  }

  lemma {:induction false} TimesMono(r: nat, a: nat, b: nat)
    requires a <= b
    ensures Times(r, a) <= Times(r, b)
    ensures r > 0 && a < b ==> Times(r, a) < Times(r, b)
  {
    if r > 0 { TimesMono(r - 1, a, b); }
  }

  lemma {:induction false} TimesDist(r: nat, a: nat, b: nat)
    ensures Times(r, a + b) == Times(r, a) + Times(r, b)
  {
    if r > 0 { TimesDist(r - 1, a, b); }
  }

  lemma {:induction false} TimesZero(a: nat)
    ensures Times(a, 0) == 0
  {
    if a > 0 { TimesZero(a - 1); }
  }

  lemma TimesComm(a: nat, b: nat)
    ensures Times(a, b) == Times(b, a)
  {
    TimesIs(a, b);
    TimesIs(b, a);
  }

  lemma {:induction false} QuotBounds(x: nat, p: nat)
    requires p > 0
    ensures Times(Quot(x, p), p) <= x < Times(Quot(x, p), p) + p
    ensures x >= p ==> Quot(x, p) > 0
  {
    if x >= p { QuotBounds(x - p, p); }
  }

  lemma {:induction false} QuotientAtLeast(x: nat, r: nat, k: nat)
    requires r > 0
    ensures Quot(x, r) >= k <==> x >= Times(r, k)
    decreases k
  {
    TimesComm(r, k);
    if k > 0 {
      TimesComm(r, k - 1);
      if x >= r { QuotientAtLeast(x - r, r, k - 1); }
    }
  }

  // ---------------------------------------------------------------- powers, shifts and bit fields

  lemma Pow2Values()
    ensures Pow2(8) == 0x100 && Pow2(16) == 0x1_0000 && Pow2(22) == 0x40_0000 && Pow2(23) == 0x80_0000 && Pow2(24) == 0x100_0000
    ensures Pow2(31) == 0x8000_0000 && Pow2(32) == 0x1_0000_0000
  {
    assert Pow2(4) == 16;
    assert Pow2(8) == 0x100;
    assert Pow2(12) == 0x1000;
    assert Pow2(16) == 0x1_0000;
    assert Pow2(20) == 0x10_0000;
    assert Pow2(22) == 4 * Pow2(20);
    assert Pow2(23) == 8 * Pow2(20);
    assert Pow2(24) == 16 * Pow2(20);
    assert Pow2(28) == 16 * Pow2(24);
    assert Pow2(31) == 8 * Pow2(28);
    assert Pow2(32) == 16 * Pow2(28);
  }

  lemma {:induction false} Pow2Mono(a: nat, b: nat)
    requires a <= b
    ensures Pow2(a) <= Pow2(b)
    ensures a < b ==> 2 * Pow2(a) <= Pow2(b)
    decreases b
  {
    if a < b { Pow2Mono(a, b - 1); }
  }

  lemma {:induction false} IlogFits(x: nat, n: nat)
    requires x < Pow2(n)
    ensures Ilog(x) <= n
  {
    if x > 0 { IlogFits(x / 2, n - 1); }
  }

  lemma {:induction false} ShlIsProduct(x: nat, n: nat)
    ensures Shl(x, n) == x * Pow2(n)
  {
    if n > 0 { ShlIsProduct(x, n - 1); }
  }

  lemma {:induction false} ShlAdd(x: nat, y: nat, n: nat)
    ensures Shl(x + y, n) == Shl(x, n) + Shl(y, n)
  {
    if n > 0 { ShlAdd(x, y, n - 1); }
  }

  lemma {:induction false} ShlShl(x: nat, a: nat, b: nat)
    ensures Shl(Shl(x, a), b) == Shl(x, a + b)
    decreases b
  {
    if b > 0 { ShlShl(x, a, b - 1); }
  }

  lemma {:induction false} ShlByte(x: nat, n: nat)
    ensures Shl(x, n + 8) == Shl(256 * x, n)
  {
    if n > 0 {
      ShlByte(x, n - 1);
    } else {
      ShlIsProduct(x, 8);
      Pow2Values();
    }
  }

  lemma {:induction false} ShlBelow(x: nat, n: nat, k: nat, r: nat)
    requires x < Pow2(k) && r < Pow2(n)
    ensures Shl(x, n) + r < Pow2(n + k)
  {
    if n > 0 { ShlBelow(x, n - 1, k, r / 2); }
  }

  lemma {:induction false} SplitBits(x: nat, n: nat)
    ensures x == Shl(Shr(x, n), n) + Low(x, n)
  {
    if n > 0 { SplitBits(x / 2, n - 1); }
  }

  lemma {:induction false} BitsUnique(x: nat, n: nat, q: nat, r: nat)
    requires r < Pow2(n) && x == Shl(q, n) + r
    ensures Shr(x, n) == q && Low(x, n) == r
  {
    if n > 0 { BitsUnique(x / 2, n - 1, q, r / 2); }
  }

  /** Shifting by a and then by b, and cutting a + b bits in two. */
  lemma {:induction false} ShrLow(x: nat, a: nat, b: nat)
    ensures Shr(x, a + b) == Shr(Shr(x, a), b)
    ensures Low(x, a + b) == Low(x, a) + Shl(Low(Shr(x, a), b), a)
  {
    if a > 0 { ShrLow(x / 2, a - 1, b); }
  }

  lemma LowLow(x: nat, a: nat, b: nat)
    requires b <= a
    ensures Low(Low(x, a), b) == Low(x, b)
    ensures Shr(Low(x, a), b) == Low(Shr(x, b), a - b)
  {
    ShrLow(x, b, a - b);
    BitsUnique(Low(x, a), b, Low(Shr(x, b), a - b), Low(x, b));
  }

  lemma {:induction false} ShrBounds(x: nat, n: nat)
    ensures Shr(x, n) <= x && (n > 0 && x > 0 ==> Shr(x, n) < x)
    ensures x >= Pow2(n) ==> Shr(x, n) > 0
  {
    if n > 0 { ShrBounds(x / 2, n - 1); }
  }

  lemma ShrIsQuotient(x: nat, n: nat)
    ensures Shr(x, n) == x / Pow2(n)
  {
    SplitBits(x, n);
    ShlIsProduct(Shr(x, n), n);
    DivModUnique(x, Pow2(n), Shr(x, n), Low(x, n));
  }

  lemma LowIsMod(x: nat, n: nat)
    ensures Low(x, n) == x % Pow2(n)
  {
    SplitBits(x, n);
    ShlIsProduct(Shr(x, n), n);
    DivModUnique(x, Pow2(n), Shr(x, n), Low(x, n));
  }

  /** Rounding up to a multiple of a power of two. */
  lemma ClearLowBounds(x: nat, n: nat)
    ensures ClearLow(x, n) == x - Low(x, n) && Low(ClearLow(x, n), n) == 0
  {
    SplitBits(x, n);
    BitsUnique(ClearLow(x, n), n, Shr(x, n), 0);
  }

  lemma {:induction false} LowSmall(x: nat, n: nat)
    requires x < Pow2(n)
    ensures Low(x, n) == x && Shr(x, n) == 0
  {
    if n > 0 { LowSmall(x / 2, n - 1); }
  }
}
