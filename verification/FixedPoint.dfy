/** The integer logarithms, exponentials and probabilities that the pulse tables are computed from. */
module FixedPoint {
  import opened Arith
  import opened Words

  const ONE_Q31 := 0x8000_0000
  const LOG2_EXP1_Q15 := 47274
  const LOG_2_2PI_Q14 := 43442
  const HALF_PULSES := 80
  const MAX_SPLIT := 159

  // ---------------------------------------------------------------- logarithm and exponential

  /** The low 16 bits as a signed number. */
  function ToI16(x: int): i16 { (x + 0x8000) % 0x1_0000 - 0x8000 }

  function Smulbb(a: int, b: int): int { ToI16(a) * ToI16(b) }

  /** a plus the product of b and the low half of c, less its 16 low bits. */
  function Smlawb(a: int, b: int, c: int): int { a + b * ToI16(c) / 0x1_0000 }

  function RotateRight(u: u32, s: nat): nat
    requires s < 32
  {
    Shr(u, s) + Shl(Low(u, s), 32 - s)
  }

  /** Leading zeros of a 32-bit word, and the seven bits behind its leading one. */
  function ClzFrac(x: u32): (r: (int, int))
    ensures 0 <= r.0 <= 32 && 0 <= r.1 < 128 && (x > 0 ==> r.0 < 32)
  {
    Pow2Values();
    IlogFits(x, 32);
    var lz := 32 - Ilog(x);
    (lz, RotateRight(x, (24 - lz) % 32) % 128)
  }

  /** Base-2 logarithm with seven fractional bits. */
  function Lin2log(x: u32): (r: i32)
    ensures -128 <= r < 4200 && (x > 0 ==> r >= 0)
  {
    hide Smlawb, ClzFrac;
    var (lz, frac) := ClzFrac(x);
    CurveBounds(frac);
    Smlawb(frac, frac * (128 - frac), 179) + (31 - lz) * 128
  }

  /** Its inverse, saturating; both branches stay inside 32 bits. */
  function Log2lin(x: int): (r: i32)
    ensures if x < 0 then r == 0 else 1 <= r
    ensures 0 <= x <= 30 * 128 ==> r <= 0x4000_0000
  {
    if x < 0 then 0
    else if x >= 3967 then 0x7fff_ffff
    else
      var e, frac := x / 128, x % 128;
      var out := Pow2(e);
      CurveBounds(frac);
      Smulbbs(frac);
      var inner := Smlawb(frac, Smulbb(frac, 128 - frac), -174);
      ExpFits(x, e, inner);
      if x < 2048 then out + out * inner / 128 else out + out / 128 * inner
  }

  /** The parabola under the curve of both. */
  lemma CurveBounds(f: int)
    requires 0 <= f < 128
    ensures f <= Smlawb(f, f * (128 - f), 179) <= f + 11
    ensures 0 <= Smlawb(f, f * (128 - f), -174) <= f && (f == 0 ==> Smlawb(f, f * (128 - f), -174) == 0)
  {
    var b := f * (128 - f);
    MulMono(128 - f, 128, f);
    MulMono(0, 128 - f, f);
    Parabola(f);
    assert ToI16(179) == 179 && ToI16(-174) == -174;
    assert 0 <= b * 179 < 12 * 0x1_0000;
    assert -f * 0x1_0000 <= b * -174 <= 0;
  }

  lemma Parabola(f: int)
    ensures f * (128 - f) <= 4096
  {
    var g := f - 64;
    assert f * (128 - f) == 4096 - g * g;
    if g >= 0 { MulMono(0, g, g); } else { MulMono(g, 0, -g); }
  }

  lemma Smulbbs(f: int)
    requires 0 <= f < 128
    ensures Smulbb(f, 128 - f) == f * (128 - f)
  {
    assert ToI16(f) == f && ToI16(128 - f) == 128 - f;
  }

  lemma ExpFits(x: int, e: int, inner: int)
    requires 0 <= x < 3967 && e == x / 128 && 0 <= inner <= x % 128
    ensures 0 <= e <= 30 && 1 <= Pow2(e) <= 0x4000_0000
    ensures x < 2048 ==> 0 <= Pow2(e) * inner / 128 <= Pow2(e) * inner < 0x40_0000
    ensures x >= 2048 ==> 0 <= Pow2(e) / 128 * inner < Pow2(e) <= 0x4000_0000
    ensures x < 2048 ==> Pow2(e) <= 0x8000
    ensures x == 30 * 128 ==> inner == 0 && Pow2(e) / 128 * inner == 0
    ensures 2048 <= x < 30 * 128 ==> Pow2(e) <= 0x2000_0000
  {
    Pow2Values();
    assert Pow2(31) == 2 * Pow2(30);
    assert Pow2(30) == 2 * Pow2(29);
    assert Pow2(16) == 2 * Pow2(15);
    Pow2Mono(e, 30);
    if x < 2048 { Pow2Mono(e, 15); }
    if x < 30 * 128 { Pow2Mono(e, 29); }
    var p, q := Pow2(e), Pow2(e) / 128;
    MulMono(inner, 127, p);
    MulMono(inner, 127, q);
    MulMono(0, inner, p);
    MulMono(0, inner, q);
    assert q * 128 <= p;
  }

  // ---------------------------------------------------------------- split probabilities

  /** Logarithm of n factorial, with fifteen fractional bits. */
  function Stirling(n: nat): (r: i32)
    requires n <= MAX_SPLIT
    ensures -0x100_0000 <= r <= 0x1100_0000
  {
    if n == 0 then 0
    else
      StirlingFits(n, Lin2log(n));
      (2 * n + 1) * (Lin2log(n) * 128) - LOG2_EXP1_Q15 * n + LOG_2_2PI_Q14 + LOG2_EXP1_Q15 / (12 * n)
  }

  lemma StirlingFits(n: nat, l: int)
    requires 1 <= n <= MAX_SPLIT && 0 <= l < 4200
    ensures 0 <= (2 * n + 1) * (l * 128) <= 0x1000_0000 && 0 <= LOG2_EXP1_Q15 / (12 * n) <= LOG2_EXP1_Q15
  {
    MulMono(0, l * 128, 2 * n + 1);
    MulMono(l * 128, 4200 * 128, 2 * n + 1);
    DivModBounds(LOG2_EXP1_Q15, 12 * n);
  }

  lemma DivModBounds(x: nat, d: nat)
    requires d >= 1
    ensures 0 <= x / d <= x
  {
    DivBounds(x, d);
    if x / d > x { MulMono(1, d, x / d); }
  }

  /** Minus the logarithm of the share of k out of n, before rounding to seven fractional bits; it fits 32 bits with either sign. */
  function SplitExponent(k: nat, n: nat): (t: i32)
    requires k <= n <= MAX_SPLIT
    ensures -0x8000_0000 < t
  {
    hide Stirling;
    n * 0x8000 - (Stirling(n) - Stirling(k) - Stirling(n - k))
  }

  /** Fixed-point probability that k out of n pulses fall into the first half. */
  function ProbSplitFast(k: nat, n: nat): (p: nat)
    requires k <= n <= MAX_SPLIT && k <= HALF_PULSES && n - k <= HALF_PULSES && n >= 1
    ensures p <= 0x4000_0000
  {
    hide Stirling, Log2lin;
    SplitExponentPositive(k, n);
    var t := SplitExponent(k, n);
    if t == 0 then 0x4000_0000
    else
      var d := Log2lin(t / 256);
      DivModBounds(0x4000_0000, d);
      0x4000_0000 / d
  }

  // ---------------------------------------------------------------- the divisor is never zero

  /** The part of a fraction that the logarithm's curve adds, level by level. */
  function Correction(f: int): int
  {
    var g := Min(f, 128 - f);
    if g < 3 then 0
    else if g < 7 then 1
    else if g < 10 then 2
    else if g < 13 then 3
    else if g < 17 then 4
    else if g < 21 then 5
    else if g < 25 then 6
    else if g < 30 then 7
    else if g < 36 then 8
    else if g < 44 then 9
    else if g < 56 then 10
    else 11
  }

  lemma Rises(a: int, b: int)
    requires 0 <= a <= b <= 64
    ensures a * (128 - a) <= b * (128 - b)
  {
    assert b * (128 - b) - a * (128 - a) == (b - a) * (128 - a - b);
    MulMono(0, 128 - a - b, b - a);
  }

  lemma Level(g: int, lo: int, hi: int, k: int)
    requires 0 <= lo <= g <= hi <= 64 && k * 0x1_0000 <= lo * (128 - lo) * 179 && hi * (128 - hi) * 179 < (k + 1) * 0x1_0000
    ensures g * (128 - g) * 179 / 0x1_0000 == k
  {
    Rises(lo, g);
    Rises(g, hi);
  }

  lemma CorrectionIs(f: int)
    requires 0 <= f < 128
    ensures f * (128 - f) * 179 / 0x1_0000 == Correction(f)
  {
    var g := Min(f, 128 - f);
    assert f * (128 - f) == g * (128 - g);
    if g < 3 { Level(g, 0, 2, 0); } else
    if g < 7 { Level(g, 3, 6, 1); } else
    if g < 10 { Level(g, 7, 9, 2); } else
    if g < 13 { Level(g, 10, 12, 3); } else
    if g < 17 { Level(g, 13, 16, 4); } else
    if g < 21 { Level(g, 17, 20, 5); } else
    if g < 25 { Level(g, 21, 24, 6); } else
    if g < 30 { Level(g, 25, 29, 7); } else
    if g < 36 { Level(g, 30, 35, 8); } else
    if g < 44 { Level(g, 36, 43, 9); } else
    if g < 56 { Level(g, 44, 55, 10); } else { Level(g, 56, 64, 11); }
  }

  /** The logarithm of a number below 256, octave by octave. */
  function SmallLog(n: nat): int
    requires 1 <= n < 256
  {
    if n < 2 then 0
    else if n < 4 then 128 + (n - 2) * 64 + Correction((n - 2) * 64)
    else if n < 8 then 256 + (n - 4) * 32 + Correction((n - 4) * 32)
    else if n < 16 then 384 + (n - 8) * 16 + Correction((n - 8) * 16)
    else if n < 32 then 512 + (n - 16) * 8 + Correction((n - 16) * 8)
    else if n < 64 then 640 + (n - 32) * 4 + Correction((n - 32) * 4)
    else if n < 128 then 768 + (n - 64) * 2 + Correction((n - 64) * 2)
    else 896 + n - 128 + Correction(n - 128)
  }

  lemma {:induction false} IlogIs(x: nat, e: nat)
    requires Pow2(e) <= x < Pow2(e + 1)
    ensures Ilog(x) == e + 1
  {
    if e > 0 { IlogIs(x / 2, e - 1); } else { assert x == 1 && Ilog(0) == 0; }
  }

  /** In octave e the fraction is what is behind the leading one, spread to seven bits. */
  lemma OctaveLog(n: nat, e: nat)
    requires e <= 7 && n < 256 && Pow2(e) <= n < Pow2(e + 1)
    ensures Lin2log(n) == 128 * e + (n - Pow2(e)) * Pow2(7 - e) + Correction((n - Pow2(e)) * Pow2(7 - e))
  {
    hide Correction;
    var f := (n - Pow2(e)) * Pow2(7 - e);
    IlogIs(n, e);
    Pow2Mono(e + 1, 8);
    Pow2Values();
    Spread(n, e);
    CorrectionIs(f);
    assert ToI16(179) == 179;
  }

  lemma Spread(n: nat, e: nat)
    requires e <= 7 && n < 256 && Pow2(e) <= n < Pow2(e + 1)
    ensures var f := (n - Pow2(e)) * Pow2(7 - e);
      0 <= f < 128 && RotateRight(n, (e - 7) % 32) % 128 == f
  {
    hide RotateRight, Pow2;
    SmallPowers();
    PowSplit(e, 7 - e);
    var p, q := Pow2(e), Pow2(7 - e);
    PowStep(e);
    Rotated(n, e);
    assert (n - p) * q >= 0 by { MulMono(0, n - p, q); }
    assert (n - p) * q <= (p - 1) * q by { MulMono(n - p, p - 1, q); }
    assert (p - 1) * q == 128 - q && n * q == 128 + (n - p) * q by { Expand(n, p, q); }
    DivModUnique(n * q, 128, 1, (n - p) * q);
  }

  lemma PowStep(e: nat)
    ensures Pow2(e + 1) == 2 * Pow2(e)
  {
  }

  lemma Expand(n: int, p: int, q: int)
    ensures (p - 1) * q == p * q - q && n * q == p * q + (n - p) * q
  {
  }

  /** Rotating right by e - 7 is multiplying by 2^(7 - e): no bit comes round. */
  lemma Rotated(n: nat, e: nat)
    requires e <= 7 && n < 256
    ensures RotateRight(n, (e - 7) % 32) == n * Pow2(7 - e)
  {
    if e == 7 {
      ShlIsProduct(0, 32);
      assert Pow2(0) == 1;
    } else {
      var s := e + 25;
      DivModUnique(e - 7, 32, -1, s);
      hide Pow2, Shr, Low, Shl;
      SmallPowers();
      Pow2Mono(8, s);
      LowSmall(n, s);
      ShlIsProduct(n, 7 - e);
    }
  }

  lemma {:induction false} PowSplit(a: nat, b: nat)
    ensures Pow2(a + b) == Pow2(a) * Pow2(b)
  {
    if a > 0 {
      PowSplit(a - 1, b);
      assert 2 * (Pow2(a - 1) * Pow2(b)) == (2 * Pow2(a - 1)) * Pow2(b);
    }
  }

  lemma Lin2logIs(n: nat)
    requires 1 <= n < 256
    ensures Lin2log(n) == SmallLog(n)
  {
    hide Lin2log, Correction;
    SmallPowers();
    if n < 2 { OctaveLog(n, 0); Flat0(); } else if n < 4 { OctaveLog(n, 1); } else if n < 8 { OctaveLog(n, 2); } else if n < 16 { OctaveLog(n, 3); }
    else if n < 32 { OctaveLog(n, 4); } else if n < 64 { OctaveLog(n, 5); } else if n < 128 { OctaveLog(n, 6); } else { OctaveLog(n, 7); }
  }

  lemma Flat0()
    ensures Correction(0) == 0
  {
  }

  lemma SmallPowers()
    ensures Pow2(0) == 1 && Pow2(1) == 2 && Pow2(2) == 4 && Pow2(3) == 8 && Pow2(4) == 16 && Pow2(5) == 32 && Pow2(6) == 64 && Pow2(7) == 128 && Pow2(8) == 256
  {
  }

  /** Those logarithms, listed. */
  function LogTable(n: nat): int
    requires n <= MAX_SPLIT
  {
    if n < 16 then [0, 0, 128, 203, 256, 296, 331, 360, 384, 404, 424, 442, 459, 474, 488, 500][n]
    else if n < 32 then [512, 522, 532, 542, 552, 561, 570, 579, 587, 595, 602, 609, 616, 622, 628, 634][n - 16]
    else if n < 48 then [640, 645, 650, 655, 660, 665, 670, 675, 680, 685, 689, 694, 698, 702, 707, 711][n - 32]
    else if n < 64 then [715, 719, 723, 726, 730, 734, 737, 741, 744, 747, 750, 753, 756, 759, 762, 765][n - 48]
    else if n < 80 then [768, 770, 773, 775, 778, 781, 783, 786, 788, 791, 793, 796, 798, 801, 803, 806][n - 64]
    else if n < 96 then [808, 810, 813, 815, 817, 819, 822, 824, 826, 828, 830, 832, 835, 837, 839, 841][n - 80]
    else if n < 112 then [843, 845, 847, 849, 851, 852, 854, 856, 858, 860, 862, 863, 865, 867, 869, 870][n - 96]
    else if n < 128 then [872, 874, 875, 877, 878, 880, 881, 883, 884, 886, 887, 889, 890, 891, 893, 894][n - 112]
    else if n < 144 then [896, 897, 898, 900, 901, 902, 903, 905, 906, 907, 909, 910, 911, 913, 914, 915][n - 128]
    else [916, 918, 919, 920, 921, 923, 924, 925, 926, 928, 929, 930, 931, 932, 934, 935][n - 144]
  }

  lemma LogTableLow(n: nat)
    requires 1 <= n < 48
    ensures LogTable(n) == SmallLog(n)
  {
  }

  lemma LogTableMiddle(n: nat)
    requires 48 <= n < 96
    ensures LogTable(n) == SmallLog(n)
  {
  }

  lemma LogTableHigh(n: nat)
    requires 96 <= n <= MAX_SPLIT
    ensures LogTable(n) == SmallLog(n)
  {
  }

  /** The factorial's logarithm off the list. */
  function Value(n: nat): int
    requires n <= MAX_SPLIT
  {
    if n == 0 then 0 else (2 * n + 1) * (LogTable(n) * 128) - LOG2_EXP1_Q15 * n + LOG_2_2PI_Q14 + LOG2_EXP1_Q15 / (12 * n)
  }

  lemma ValueIs(n: nat)
    requires n <= MAX_SPLIT
    ensures Stirling(n) == Value(n)
  {
    hide LogTable, SmallLog, Lin2log;
    if n > 0 {
      Lin2logIs(n);
      if n < 48 { LogTableLow(n); } else if n < 96 { LogTableMiddle(n); } else { LogTableHigh(n); }
    }
  }

  /** A straight line, by its slope and how far below zero it starts. */
  datatype Line = Line(drop: int, slope: int)

  predicate Under(l: Line, j: nat)
    requires j <= MAX_SPLIT
  {
    l.slope * j - l.drop <= Value(j)
  }

  /** Eight lines, the flatter ones first. */
  function LineAt(i: nat): Line
  {
    if i == 0 then Line(20165, 20272)
    else if i == 1 then Line(185213, 81968)
    else if i == 2 then Line(567566, 125744)
    else if i == 3 then Line(659169, 131632)
    else if i == 4 then Line(1334325, 162096)
    else if i == 5 then Line(1584777, 169264)
    else if i == 6 then Line(2606885, 192048)
    else Line(3027874, 198448)
  }

  /** Which of them is highest at j. */
  function TopLine(j: nat): (i: nat)
    ensures i < 8
  {
    if j <= 2 then 0 else if j <= 8 then 1 else if j <= 15 then 2 else if j <= 22 then 3 else if j <= 34 then 4 else if j <= 44 then 5 else if j <= 65 then 6 else 7
  }

  lemma TopUnderLow(j: nat)
    requires j < 40
    ensures Under(LineAt(TopLine(j)), j)
  {
  }

  lemma TopUnderHigh(j: nat)
    requires 40 <= j <= HALF_PULSES
    ensures Under(LineAt(TopLine(j)), j)
  {
  }

  /** So all of them are below the listed values up to 80. */
  lemma LinesUnder(i: nat, j: nat)
    requires j <= HALF_PULSES
    ensures Under(LineAt(i), j)
  {
    hide Value;
    if j < 40 { TopUnderLow(j); } else { TopUnderHigh(j); }
  }

  /** The line steep enough for the halves of n. */
  function LineNo(n: nat): nat
  {
    if n <= 5 then 0 else if n <= 17 then 1 else if n <= 40 then 2 else if n <= 44 then 3 else if n <= 81 then 4 else if n <= 89 then 5 else if n <= 147 then 6 else 7
  }

  function LineFor(n: nat): Line { LineAt(LineNo(n)) }

  /** Two points of the line stay below the whole by less than one bit a pulse. */
  lemma LineReachesLow(n: nat)
    requires 1 <= n < 80
    ensures Value(n) + 2 * LineFor(n).drop <= (LineFor(n).slope + 0x8000) * n
  {
  }

  lemma LineReachesHigh(n: nat)
    requires 80 <= n <= MAX_SPLIT
    ensures Value(n) + 2 * LineFor(n).drop <= (LineFor(n).slope + 0x8000) * n
  {
  }

  lemma TwoPoints(l: Line, k: int, m: int)
    ensures (l.slope + 0x8000) * (k + m) == l.slope * k + l.slope * m + 0x8000 * (k + m)
  {
  }

  /** No split has a probability above one: the exponent is never negative, so the divisor never zero. */
  lemma SplitExponentPositive(k: nat, n: nat)
    requires k <= n <= MAX_SPLIT && k <= HALF_PULSES && n - k <= HALF_PULSES && n >= 1
    ensures SplitExponent(k, n) >= 0
  {
    hide Stirling, Value, LineAt, LineNo;
    ValueIs(n);
    ValueIs(k);
    ValueIs(n - k);
    LinesUnder(LineNo(n), k);
    LinesUnder(LineNo(n), n - k);
    if n < 80 { LineReachesLow(n); } else { LineReachesHigh(n); }
    TwoPoints(LineFor(n), k, n - k);
  }

  // ---------------------------------------------------------------- some split has a probability worth a cell

  lemma HalvesBelow(j: nat)
    requires 15 <= j <= 30
    ensures Value(j) + 891573 <= 147345 * j
  {
  }

  lemma WholeAbove(n: nat)
    requires 31 <= n <= 60
    ensures Value(n) + 2016985 >= 180224 * n
  {
  }

  lemma HighHalvesBelow(j: nat)
    requires 30 <= j <= HALF_PULSES
    ensures Value(j) + 2101645 <= 187681 * j
  {
  }

  lemma HighWholeAbove(n: nat)
    requires 61 <= n < 110
    ensures Value(n) + 4828985 >= 220160 * n
  {
  }

  lemma HighestWholeAbove(n: nat)
    requires 110 <= n <= MAX_SPLIT
    ensures Value(n) + 4828985 >= 220160 * n
  {
  }

  /** The even split, or no pulse at all while there are few, has a share of more than 2^-31. */
  function Likely(n: nat): nat { if n <= 30 then 0 else n / 2 }

  lemma LikelyExponent(n: nat)
    requires 1 <= n <= MAX_SPLIT
    ensures Likely(n) <= HALF_PULSES && n - Likely(n) <= HALF_PULSES && SplitExponent(Likely(n), n) < 3841 * 256
  {
    hide Stirling, Value;
    var k := Likely(n);
    ValueIs(n);
    ValueIs(k);
    ValueIs(n - k);
    if n <= 30 {
      assert Stirling(0) == 0 by { ZeroFactorial(); }
    } else if n <= 60 {
      HalvesBelow(k);
      HalvesBelow(n - k);
      WholeAbove(n);
    } else {
      HighHalvesBelow(k);
      HighHalvesBelow(n - k);
      if n < 110 { HighWholeAbove(n); } else { HighestWholeAbove(n); }
    }
  }

  lemma ZeroFactorial()
    ensures Stirling(0) == 0
  {
  }

  lemma LikelyPositive(n: nat)
    requires 1 <= n <= MAX_SPLIT
    ensures Likely(n) <= HALF_PULSES && n - Likely(n) <= HALF_PULSES && ProbSplitFast(Likely(n), n) >= 1
  {
    hide Stirling, Log2lin, SplitExponent;
    LikelyExponent(n);
    SplitExponentPositive(Likely(n), n);
    var t := SplitExponent(Likely(n), n);
    if t != 0 {
      var d := Log2lin(t / 256);
      assert 1 <= d <= 0x4000_0000;
      OneFits(d);
    }
  }

  lemma OneFits(d: nat)
    requires 1 <= d <= 0x4000_0000
    ensures 0x4000_0000 / d >= 1
  {
    DivBounds(0x4000_0000, d);
    if 0x4000_0000 / d <= 0 { MulMono(0x4000_0000 / d, 0, d); }
  }

  // ---------------------------------------------------------------- run-length probabilities

  const P1_MAX := 2147376274
  const SIGM_BIAS_Q5 := 146
  const SCALE_MAX_Q15 := 36000
  const SCALE_MIN_Q15 := 26000

  const SLOPE: seq<int> := [237, 153, 73, 30, 12, 7]
  const POS: seq<int> := [16384, 23955, 28861, 31213, 32178, 32548]
  const NEG: seq<int> := [16384, 8812, 3906, 1554, 589, 219]

  function SigmQ15(inQ5: int): (r: i32)
    ensures 0 <= r <= 32767
  {
    if inQ5 < 0 then
      var v := -inQ5;
      if v >= 6 * 32 then 0 else NEG[v / 32] - SLOPE[v / 32] * (v % 32)
    else if inQ5 >= 6 * 32 then 32767
    else POS[inQ5 / 32] + SLOPE[inQ5 / 32] * (inQ5 % 32)
  }

  /** A product of two fractions of 2^31, rounded down. */
  function MulQ31(a: nat, b: nat): (r: nat)
    requires a <= ONE_Q31 && b <= ONE_Q31
    ensures r <= a && r <= b && (b == ONE_Q31 ==> r == a) && (a == ONE_Q31 ==> r == b)
  {
    MulMono(b, ONE_Q31, a);
    MulMono(a, ONE_Q31, b);
    MulMono(0, b, a);
    DivQ31(a * b, a, b);
    a * b / ONE_Q31
  }

  lemma DivQ31(x: nat, a: nat, b: nat)
    requires x <= a * ONE_Q31 && x <= b * ONE_Q31
    ensures 0 <= x / ONE_Q31 <= a && x / ONE_Q31 <= b
  {
  }

  function PowerQ31(t: nat, r: nat): (p: nat)
    requires t <= ONE_Q31
    ensures p <= t
  {
    if r == 0 then t else MulQ31(PowerQ31(t, r - 1), t)
  }

  /** Chance that none of nump pulses falls on the next sample, before correction. */
  function MissQ31(ms: nat, nump: nat, nums: nat): (p: nat)
    requires 1 <= nums <= ms <= 160 && nump >= 1
    ensures p < ONE_Q31
  {
    var left := ms - nums + 1;
    OneFitsQ31(left);
    PowerQ31(ONE_Q31 - ONE_Q31 / left, nump - 1)
  }

  lemma OneFitsQ31(left: nat)
    requires 1 <= left <= 160
    ensures 1 <= ONE_Q31 / left <= ONE_Q31
  {
    DivBounds(ONE_Q31, left);
    var q := ONE_Q31 / left;
    if q <= 0 { MulMono(q, 0, left); }
    if q > ONE_Q31 { MulMono(1, left, q); }
  }

  /** How far pulses per sample are from one, as a logarithm. */
  function DensityQ7(ms: nat, nump: nat): (r: i32)
    requires 1 <= ms <= 160 && 1 <= nump <= 40
    ensures -5000 <= r <= 5000
  {
    hide Lin2log;
    RatioFits(nump, ms);
    RatioFits(ms, nump);
    if nump > ms then Lin2log(nump * 1024 / ms) - 10 * 128 else -(Lin2log(ms * 1024 / nump) - 10 * 128)
  }

  lemma RatioFits(a: nat, b: nat)
    requires a <= 160 && b >= 1
    ensures 0 <= a * 1024 / b <= 0x4_0000
  {
    DivModBounds(a * 1024, b);
  }

  function ScaleQ15(ms: nat, nump: nat): (s: i32)
    requires 1 <= ms <= 160 && 1 <= nump <= 40
    ensures SCALE_MIN_Q15 <= s <= SCALE_MAX_Q15
  {
    hide SigmQ15, DensityQ7;
    SCALE_MAX_Q15 - (SCALE_MAX_Q15 - SCALE_MIN_Q15) * SigmQ15(DensityQ7(ms, nump) / 4 + SIGM_BIAS_Q5) / 0x8000
  }

  /** Chance that the run ends on sample nums, corrected for density; never zero, never one. */
  function HitQ31(ms: nat, nump: nat, nums: nat): (p: nat)
    requires 1 <= nums <= ms <= 160 && 1 <= nump <= 40
    ensures 1 <= p <= P1_MAX
  {
    hide MissQ31, ScaleQ15, Lin2log, Log2lin;
    var raw := Min(ONE_Q31 - MissQ31(ms, nump, nums), P1_MAX);
    var scale, l := ScaleQ15(ms, nump), Lin2log(ONE_Q31 - raw);
    ScaleFits(scale, l);
    var expo: i32 := scale * (l - 31 * 128) / 0x8000 + 31 * 128;
    Min(ONE_Q31 - Log2lin(expo), P1_MAX)
  }

  lemma ScaleFits(s: int, l: int)
    requires 0 <= s <= SCALE_MAX_Q15 && -128 <= l < 4200
    ensures -0x1000_0000 <= s * (l - 31 * 128) <= 0x1000_0000
  {
    MulMono(l - 31 * 128, 300, s);
    MulMono(-4200, l - 31 * 128, s);
  }

  /** Chance that the run is longer than nums samples. */
  function LongerQ31(ms: nat, nump: nat, nums: nat): (p: nat)
    requires nums <= ms <= 160 && 1 <= nump <= 40
    ensures p <= ONE_Q31
  {
    if nums == 0 then ONE_Q31 else MulQ31(LongerQ31(ms, nump, nums - 1), ONE_Q31 - HitQ31(ms, nump, nums))
  }

  /** Distribution of run lengths over ms samples with nump pulses left. */
  function RunPdf(ms: nat, nump: nat): (p: seq<nat>)
    requires 1 <= ms <= 160 && 1 <= nump <= 40
    ensures |p| == ms
  {
    seq(ms, i requires 0 <= i < ms => MulQ31(LongerQ31(ms, nump, i), HitQ31(ms, nump, i + 1)))
  }

  /** Every weight fits 32 bits with its sign, and the first is not zero. */
  lemma RunPdfPositive(ms: nat, nump: nat)
    requires 1 <= ms <= 160 && 1 <= nump <= 40
    ensures RunPdf(ms, nump)[0] >= 1 && forall i :: 0 <= i < ms ==> RunPdf(ms, nump)[i] < 0x8000_0000
  {
    hide HitQ31, MulQ31;
    assert LongerQ31(ms, nump, 0) == ONE_Q31;
  }

  /** The distribution as the builder's loops compute it. */
  method ComputeRunPdf(ms: nat, nump: nat) returns (p: seq<nat>)
    requires 1 <= ms <= 160 && 1 <= nump <= 40
    ensures p == RunPdf(ms, nump)
  {
    hide MulQ31, HitQ31;
    var plonger: nat := ONE_Q31;
    p := [];
    for nums := 1 to ms + 1
      invariant |p| == nums - 1 && plonger == LongerQ31(ms, nump, nums - 1)
      invariant forall i :: 0 <= i < |p| ==> p[i] == RunPdf(ms, nump)[i]
    {
      var p1 := ComputeHit(ms, nump, nums);
      p := p + [MulQ31(plonger, p1)];
      plonger := MulQ31(plonger, ONE_Q31 - p1);
    }
  }

  method ComputeHit(ms: nat, nump: nat, nums: nat) returns (p1: nat)
    requires 1 <= nums <= ms <= 160 && 1 <= nump <= 40
    ensures p1 == HitQ31(ms, nump, nums)
  {
    hide MulQ31, ScaleQ15, Lin2log, Log2lin;
    OneFitsQ31(ms - nums + 1);
    var tmp := ONE_Q31 - ONE_Q31 / (ms - nums + 1);
    p1 := tmp;
    for r := 0 to nump - 1
      invariant p1 == PowerQ31(tmp, r)
    {
      p1 := MulQ31(p1, tmp);
    }
    assert p1 == MissQ31(ms, nump, nums);
    p1 := ONE_Q31 - p1;
    if p1 > P1_MAX { p1 := P1_MAX; }
    var scaleFac := ScaleQ15(ms, nump);
    ScaleFits(scaleFac, Lin2log(ONE_Q31 - p1));
    p1 := ONE_Q31 - Log2lin(scaleFac * (Lin2log(ONE_Q31 - p1) - 31 * 128) / 0x8000 + 31 * 128);
    if p1 > P1_MAX { p1 := P1_MAX; }
  }
}
