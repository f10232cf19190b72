/** What the integer logarithms, exponentials and probabilities stand for: laws that do not speak of their bits. */
module FixedPointLaws {
  import opened Arith
  import opened Words
  import opened FixedPoint

  // ---------------------------------------------------------------- logarithm and exponential

  /** In octave e, from 7 up, the logarithm is that of the eight leading bits. */
  lemma HighOctave(x: u32, e: nat)
    requires 7 <= e < 32 && Pow2(e) <= x < Pow2(e + 1)
    ensures Pow2(e - 7) > 0 && 128 <= x / Pow2(e - 7) < 256
    ensures Lin2log(x) == 128 * e + (x / Pow2(e - 7) - 128) + Correction(x / Pow2(e - 7) - 128)
  {
    hide Correction, RotateRight;
    IlogIs(x, e);
    LeadingBits(x, e);
    CorrectionIs(x / Pow2(e - 7) - 128);
    assert ToI16(179) == 179;
  }

  lemma LeadingBits(x: u32, e: nat)
    requires 7 <= e < 32 && Pow2(e) <= x < Pow2(e + 1)
    ensures 128 <= x / Pow2(e - 7) < 256 && RotateRight(x, (e - 7) % 32) % 128 == x / Pow2(e - 7) - 128
  {
    hide Pow2, Shr, Shl, Low, RotateRight;
    var s, q := e - 7, x / Pow2(e - 7);
    EightBits(x, s);
    ShrIsQuotient(x, s);
    Turned(x, s);
    DivModUnique(q + 128 * (Low(x, s) * Pow2(25 - s)), 128, 1 + Low(x, s) * Pow2(25 - s), q - 128);
  }

  lemma EightBits(x: nat, s: nat)
    requires Pow2(s + 7) <= x < Pow2(s + 8)
    ensures 128 <= x / Pow2(s) < 256
  {
    hide Pow2;
    SmallPowers();
    PowSplit(s, 7);
    PowSplit(s, 8);
    var p, q := Pow2(s), x / Pow2(s);
    DivBounds(x, p);
    if q < 128 { MulMono(q + 1, 128, p); }
    if q >= 256 { MulMono(256, q, p); }
  }

  /** What a rotation brings round lies above the seven low bits. */
  lemma Turned(x: u32, s: nat)
    requires s <= 24
    ensures s % 32 == s && RotateRight(x, s) == Shr(x, s) + 128 * (Low(x, s) * Pow2(25 - s))
  {
    hide Pow2, Shr, Shl, Low;
    SmallPowers();
    PowSplit(25 - s, 7);
    ShlIsProduct(Low(x, s), 32 - s);
    ThreeFactors(Low(x, s), Pow2(25 - s));
  }

  lemma ThreeFactors(a: int, b: int)
    ensures a * (b * 128) == 128 * (a * b)
  {
  }

  /** Powers of two have whole logarithms. */
  lemma LogOfPower(e: nat)
    requires e < 32
    ensures Pow2(e) < 0x1_0000_0000 && Lin2log(Pow2(e)) == 128 * e
  {
    hide Pow2, Correction, Lin2log;
    Pow2Values();
    Pow2Mono(e, 31);
    PowStep(e);
    Flat0();
    if e < 7 {
      SmallPowers();
      Pow2Mono(e + 1, 8);
      OctaveLog(Pow2(e), e);
    } else {
      HighOctave(Pow2(e), e);
      SmallPowers();
      PowSplit(e - 7, 7);
      DivModUnique(Pow2(e), Pow2(e - 7), 128, 0);
    }
  }

  /** The fraction of an octave as the exponential sees it. */
  function Sunk(f: int): int { Smlawb(f, Smulbb(f, 128 - f), -174) }

  /** What the exponential's curve takes off a fraction, level by level. */
  function Drop(f: int): int
  {
    var g := Min(f, 128 - f);
    if g < 1 then 0
    else if g < 4 then 1
    else if g < 7 then 2
    else if g < 10 then 3
    else if g < 14 then 4
    else if g < 17 then 5
    else if g < 22 then 6
    else if g < 26 then 7
    else if g < 32 then 8
    else if g < 38 then 9
    else if g < 46 then 10
    else 11
  }

  lemma DropLevel(g: int, lo: int, hi: int, k: int)
    requires 0 <= lo <= g <= hi <= 64 && (k - 1) * 0x1_0000 < lo * (128 - lo) * 174 && hi * (128 - hi) * 174 <= k * 0x1_0000
    ensures g * (128 - g) * -174 / 0x1_0000 == -k
  {
    Rises(lo, g);
    Rises(g, hi);
  }

  lemma SunkIs(f: int)
    requires 0 <= f < 128
    ensures Sunk(f) == f - Drop(f)
  {
    var g := Min(f, 128 - f);
    Smulbbs(f);
    assert ToI16(-174) == -174 && f * (128 - f) == g * (128 - g);
    if g < 1 { DropLevel(g, 0, 0, 0); } else
    if g < 4 { DropLevel(g, 1, 3, 1); } else
    if g < 7 { DropLevel(g, 4, 6, 2); } else
    if g < 10 { DropLevel(g, 7, 9, 3); } else
    if g < 14 { DropLevel(g, 10, 13, 4); } else
    if g < 17 { DropLevel(g, 14, 16, 5); } else
    if g < 22 { DropLevel(g, 17, 21, 6); } else
    if g < 26 { DropLevel(g, 22, 25, 7); } else
    if g < 32 { DropLevel(g, 26, 31, 8); } else
    if g < 38 { DropLevel(g, 32, 37, 9); } else
    if g < 46 { DropLevel(g, 38, 45, 10); } else { DropLevel(g, 46, 64, 11); }
  }

  lemma CurvesCancel(f: int)
    requires 0 <= f < 128
    ensures 0 <= f - Drop(f) < 128 && -3 <= Correction(f - Drop(f)) - Drop(f) <= 1
  {
  }

  /** From octave 7 on the exponential is whole in units of its eighth leading bit. */
  lemma ExpByOctave(x: int)
    requires 896 <= x < 3967
    ensures 7 <= x / 128 <= 30 && 0 <= Sunk(x % 128) < 128 && Log2lin(x) == Pow2(x / 128 - 7) * (128 + Sunk(x % 128))
  {
    hide Pow2, Smlawb, Smulbb;
    var e, f := x / 128, x % 128;
    var inner := Sunk(f);
    CurveBounds(f);
    Smulbbs(f);
    SmallPowers();
    PowSplit(e - 7, 7);
    var p := Pow2(e - 7);
    ThreeFactors(inner, p);
    DivModUnique(p * 128, 128, p, 0);
    assert Pow2(e) * inner == 128 * (inner * p);
    DivModUnique(Pow2(e) * inner, 128, inner * p, 0);
  }

  /** The exponential of a whole number is that power of two. */
  lemma ExpOfWhole(e: nat)
    requires e <= 30
    ensures Log2lin(128 * e) == Pow2(e)
  {
    hide Pow2, Smlawb, Smulbb;
    CurveBounds(0);
    Smulbbs(0);
    assert 128 * e / 128 == e && 128 * e % 128 == 0;
    assert Pow2(e) * 0 / 128 == 0 && Pow2(e) / 128 * 0 == 0;
  }

  /** The logarithm takes the exponential back to within three 128ths below and one above. */
  lemma LogOfExp(x: int)
    requires 896 <= x < 3967
    ensures x - 3 <= Lin2log(Log2lin(x)) <= x + 1
  {
    hide Lin2log, Log2lin, Pow2, Correction, Drop, Sunk;
    var e, f := x / 128, x % 128;
    ExpByOctave(x);
    SunkIs(f);
    CurvesCancel(f);
    var p, top := Pow2(e - 7), 128 + Sunk(f);
    SmallPowers();
    PowSplit(e - 7, 7);
    PowSplit(e - 7, 8);
    assert e - 7 + 8 == e + 1;
    MulMono(128, top, p);
    assert p * top < p * 256 by { MulMono(top, 255, p); MulDist(p, 255, 1); }
    HighOctave(p * top, e);
    DivModUnique(p * top, p, top, 0);
  }

  lemma SunkRises(f: int)
    requires 0 <= f < 127
    ensures Sunk(f) <= Sunk(f + 1)
  {
    SunkIs(f);
    SunkIs(f + 1);
  }

  /** The exponential by octave and fraction. */
  lemma ExpValue(e: int, f: int)
    requires 0 <= e <= 30 && 0 <= f < 128 && 128 * e + f < 3967
    ensures Log2lin(128 * e + f) == Pow2(e) + (if e < 16 then Pow2(e) * Sunk(f) / 128 else Pow2(e) / 128 * Sunk(f))
    ensures 0 <= Sunk(f) <= f
  {
    hide Pow2, Smlawb, Smulbb;
    CurveBounds(f);
    Smulbbs(f);
    DivModUnique(128 * e + f, 128, e, f);
  }

  lemma Quotients(a: int, b: int)
    requires a <= b
    ensures a / 128 <= b / 128
  {
  }

  /** Within an octave. */
  lemma ExpStepInside(e: int, f: int)
    requires 0 <= e <= 30 && 0 <= f < 127 && 128 * e + f + 1 < 3967
    ensures Log2lin(128 * e + f) <= Log2lin(128 * e + f + 1)
  {
    hide Pow2, Sunk, Log2lin;
    ExpValue(e, f);
    ExpValue(e, f + 1);
    SunkRises(f);
    var p := Pow2(e);
    MulMono(Sunk(f), Sunk(f + 1), p);
    MulMono(Sunk(f), Sunk(f + 1), p / 128);
    Quotients(p * Sunk(f), p * Sunk(f + 1));
  }

  /** Into the next octave. */
  lemma ExpStepAcross(e: int)
    requires 0 <= e < 30
    ensures Log2lin(128 * e + 127) <= Log2lin(128 * (e + 1))
  {
    hide Pow2, Sunk, Log2lin;
    ExpValue(e, 127);
    ExpValue(e + 1, 0);
    PowStep(e);
    var p, i := Pow2(e), Sunk(127);
    MulMono(i, 128, p);
    MulMono(i, 128, p / 128);
    Quotients(p * i, p * 128);
    DivModUnique(p * 128, 128, p, 0);
    DivBounds(p, 128);
    assert Sunk(0) == 0;
    assert Pow2(e + 1) * 0 / 128 == 0 && Pow2(e + 1) / 128 * 0 == 0;
  }

  /** The exponential never falls. */
  lemma ExpStep(x: int)
    ensures Log2lin(x) <= Log2lin(x + 1)
  {
    if 0 <= x < 3966 {
      hide Log2lin;
      var e, f := x / 128, x % 128;
      assert x == 128 * e + f && 0 <= e <= 30;
      if f < 127 { ExpStepInside(e, f); } else { ExpStepAcross(e); }
    }
  }

  lemma {:induction false} ExpRises(x: int, y: int)
    requires x <= y
    ensures Log2lin(x) <= Log2lin(y)
    decreases y - x
  {
    hide Log2lin;
    if x < y {
      ExpStep(x);
      ExpRises(x + 1, y);
    }
  }

  // ---------------------------------------------------------------- the sigmoid

  /** The curve turns over at the middle, to within one of its units. */
  lemma SigmoidTurns(x: int)
    ensures SigmQ15(0) == 16384 && 32767 <= SigmQ15(x) + SigmQ15(-x) <= 32768
  {
  }

  lemma SigmoidUpper(x: int)
    requires x >= 0
    ensures 16384 <= SigmQ15(x) <= SigmQ15(x + 1) + 2
    ensures x >= 192 ==> SigmQ15(x) == 32767
  {
  }

  /** It does fall once, where two of its straight pieces do not meet. */
  lemma SigmoidDips()
    ensures SigmQ15(159) == SigmQ15(160) + 2 && SigmQ15(-159) == SigmQ15(-160) - 2
  {
  }

  // ---------------------------------------------------------------- factorials and splits

  /** The fixed-point factorial grows by the logarithm of each factor, give or take a little over one bit. */
  lemma FactorialStep(n: nat)
    requires 1 <= n <= MAX_SPLIT
    ensures -38000 <= Stirling(n) - Stirling(n - 1) - 256 * Lin2log(n) <= 38000
  {
    hide Lin2log, LogTable, Stirling, SmallLog, Value;
    ValueIs(n);
    ValueIs(n - 1);
    Lin2logIs(n);
    if n < 48 { LogTableLow(n); } else if n < 96 { LogTableMiddle(n); } else { LogTableHigh(n); }
    ValueStep(n);
  }

  lemma ValueStep(n: nat)
    requires 1 <= n <= MAX_SPLIT
    ensures -38000 <= Value(n) - Value(n - 1) - 256 * LogTable(n) <= 38000
  {
    hide LogTable, Value;
    if n == 1 {
      FirstValues();
    } else {
      StepOf(n);
      Growth(n, LogTable(n), LogTable(n - 1), Rest(n), Rest(n - 1));
      ValueAt(n);
      ValueAt(n - 1);
    }
  }

  lemma FirstValues()
    ensures LogTable(1) == 0 && Value(0) == 0 && Value(1) == 107
  {
  }

  /** The last term of the approximation. */
  function Rest(n: nat): (r: int)
    requires n >= 1
    ensures 0 <= r <= 3939
  {
    Remainder(n);
    LOG2_EXP1_Q15 / (12 * n)
  }

  lemma ValueAt(n: nat)
    requires 1 <= n <= MAX_SPLIT
    ensures Value(n) == (2 * n + 1) * (LogTable(n) * 128) - LOG2_EXP1_Q15 * n + LOG_2_2PI_Q14 + Rest(n)
  {
    hide LogTable;
  }

  lemma Growth(n: int, a: int, b: int, r: int, s: int)
    requires 0 <= r <= 3939 && 0 <= s <= 3939 && 25000 <= 128 * ((2 * n - 1) * (a - b)) <= 80700
    ensures -38000 <= ((2 * n + 1) * (a * 128) - LOG2_EXP1_Q15 * n + r) - ((2 * (n - 1) + 1) * (b * 128) - LOG2_EXP1_Q15 * (n - 1) + s) - 256 * a <= 38000
  {
    Telescopes(n, a, b);
  }

  lemma Telescopes(n: int, a: int, b: int)
    ensures (2 * n + 1) * (a * 128) - (2 * (n - 1) + 1) * (b * 128) - 256 * a == 128 * ((2 * n - 1) * (a - b))
  {
  }

  lemma Remainder(n: nat)
    requires n >= 1
    ensures 0 <= LOG2_EXP1_Q15 / (12 * n) <= 3939
  {
    DivBounds(LOG2_EXP1_Q15, 12 * n);
    var q := LOG2_EXP1_Q15 / (12 * n);
    if q > 3939 { MulMono(3940, q, 12 * n); MulMono(12, 12 * n, 3940); }
    if q < 0 { MulMono(q, -1, 12 * n); }
  }

  /** Neighbouring logarithms differ by about 1 / n. */
  lemma StepOf(n: nat)
    requires 2 <= n <= MAX_SPLIT
    ensures 25000 <= 128 * ((2 * n - 1) * (LogTable(n) - LogTable(n - 1))) <= 80700
  {
    hide LogTable;
    if n < 40 { StepLow(n); } else if n < 80 { StepMiddle(n); } else if n < 120 { StepHigh(n); } else { StepHighest(n); }
  }

  lemma StepLow(n: nat)
    requires 2 <= n < 40
    ensures 25000 <= 128 * ((2 * n - 1) * (LogTable(n) - LogTable(n - 1))) <= 80700
  {
  }

  lemma StepMiddle(n: nat)
    requires 40 <= n < 80
    ensures 25000 <= 128 * ((2 * n - 1) * (LogTable(n) - LogTable(n - 1))) <= 80700
  {
  }

  lemma StepHigh(n: nat)
    requires 80 <= n < 120
    ensures 25000 <= 128 * ((2 * n - 1) * (LogTable(n) - LogTable(n - 1))) <= 80700
  {
  }

  lemma StepHighest(n: nat)
    requires 120 <= n <= MAX_SPLIT
    ensures 25000 <= 128 * ((2 * n - 1) * (LogTable(n) - LogTable(n - 1))) <= 80700
  {
  }

  /** Halves are interchangeable. */
  lemma SplitTurns(k: nat, n: nat)
    requires k <= n <= MAX_SPLIT && k <= HALF_PULSES && n - k <= HALF_PULSES && n >= 1
    ensures ProbSplitFast(k, n) == ProbSplitFast(n - k, n)
  {
    hide Stirling, Log2lin;
  }

  /** One pulse is as likely in either half, exactly. */
  lemma OnePulseSplits()
    ensures ProbSplitFast(0, 1) == ProbSplitFast(1, 1) == 0x2000_0000
  {
    hide Stirling, Log2lin, Lin2log;
    ValueIs(0);
    ValueIs(1);
    assert Value(0) == 0 && Value(1) == 107;
    assert SplitExponent(0, 1) == SplitExponent(1, 1) == 0x8000;
    ExpOfWhole(1);
    assert Pow2(1) == 2;
  }

  // ---------------------------------------------------------------- runs

  /** With one pulse the chance to miss the next of `left` samples is all but one part in `left`, and each further pulse multiplies by it. */
  lemma MissByPulse(ms: nat, nump: nat, nums: nat)
    requires 1 <= nums <= ms <= 160 && nump >= 1
    ensures MissQ31(ms, 1, nums) == ONE_Q31 - ONE_Q31 / (ms - nums + 1)
    ensures MissQ31(ms, nump + 1, nums) == MissQ31(ms, nump, nums) * MissQ31(ms, 1, nums) / ONE_Q31
  {
    OneFitsQ31(ms - nums + 1);
  }

  /** Density is turned over when pulses and samples change places, and is 128 for each doubling. */
  lemma DensityTurns(a: nat, b: nat)
    requires 1 <= a <= 40 && 1 <= b <= 40
    ensures DensityQ7(a, b) == -DensityQ7(b, a)
  {
    hide Lin2log;
    if a == b { LogOfThousand(a); }
  }

  lemma LogOfThousand(a: nat)
    requires 1 <= a <= 160
    ensures Lin2log(a * 1024 / a) == 1280
  {
    hide Lin2log;
    DivModUnique(a * 1024, a, 1024, 0);
    LogOfPower(10);
    assert Pow2(10) == 1024;
  }

  lemma DensityByOctave(ms: nat, j: nat)
    requires 1 <= ms <= 160 && j <= 5 && ms * Pow2(j) <= 40
    ensures 1 <= ms * Pow2(j) && DensityQ7(ms, ms * Pow2(j)) == 128 * j
  {
    hide Lin2log, Pow2;
    Pow2Mono(0, j);
    SmallPowers();
    MulMono(1, Pow2(j), ms);
    if j == 0 {
      LogOfThousand(ms);
    } else {
      Pow2Mono(1, j);
      MulMono(2, Pow2(j), ms);
      LogOfRatio(ms, j);
    }
  }

  lemma LogOfRatio(ms: nat, j: nat)
    requires 1 <= ms && j <= 5
    ensures ms * Pow2(j) * 1024 / ms < 0x1_0000_0000 && Lin2log(ms * Pow2(j) * 1024 / ms) == 128 * (j + 10)
  {
    hide Lin2log;
    var p := Pow2(j);
    assert ms * p * 1024 == ms * (p * 1024);
    DivModUnique(ms * p * 1024, ms, p * 1024, 0);
    PowSplit(j, 10);
    assert Pow2(10) == 1024;
    LogOfPower(j + 10);
  }

  /**
   The chance of a hit is one less the chance to miss, raised to a power between 26000 and 36000 of 32768: in logarithms with seven
   fractional bits, the distance of the miss from certainty is scaled by as much.
   */
  lemma HitCorrects(ms: nat, nump: nat, nums: nat) returns (miss: nat, e: int)
    requires 1 <= nums <= ms <= 160 && 1 <= nump <= 40
    ensures miss == Max(MissQ31(ms, nump, nums), ONE_Q31 - P1_MAX)
    ensures HitQ31(ms, nump, nums) == Min(ONE_Q31 - Log2lin(e), P1_MAX)
    ensures var away := 31 * 128 - Lin2log(miss);
      away >= 0 && SCALE_MIN_Q15 * away <= 0x8000 * (31 * 128 - e) <= SCALE_MAX_Q15 * away + 0x8000
  {
    hide MissQ31, ScaleQ15, Lin2log, Log2lin, HitQ31;
    miss := Max(MissQ31(ms, nump, nums), ONE_Q31 - P1_MAX);
    LogBelow(miss);
    var away := 31 * 128 - Lin2log(miss);
    e := ScaleQ15(ms, nump) * (0 - away) / 0x8000 + 31 * 128;
    HitUnfolds(ms, nump, nums, miss, away);
    Scaled(ScaleQ15(ms, nump), away);
  }

  lemma HitUnfolds(ms: nat, nump: nat, nums: nat, miss: nat, away: int)
    requires 1 <= nums <= ms <= 160 && 1 <= nump <= 40
    requires miss == Max(MissQ31(ms, nump, nums), ONE_Q31 - P1_MAX) && away == 31 * 128 - Lin2log(miss)
    ensures HitQ31(ms, nump, nums) == Min(ONE_Q31 - Log2lin(ScaleQ15(ms, nump) * (0 - away) / 0x8000 + 31 * 128), P1_MAX)
  {
    hide MissQ31, ScaleQ15, Lin2log, Log2lin;
    assert miss == ONE_Q31 - Min(ONE_Q31 - MissQ31(ms, nump, nums), P1_MAX);
    assert 0 - away == Lin2log(miss) - 31 * 128;
  }

  lemma Scaled(scale: int, away: nat)
    requires SCALE_MIN_Q15 <= scale <= SCALE_MAX_Q15
    ensures var e := scale * (0 - away) / 0x8000; SCALE_MIN_Q15 * away <= 0x8000 * -e <= SCALE_MAX_Q15 * away + 0x8000
  {
    MulMono(SCALE_MIN_Q15, scale, away);
    MulMono(scale, SCALE_MAX_Q15, away);
    var x := scale * (0 - away);
    assert x == -(scale * away);
    assert x == 0x8000 * (x / 0x8000) + x % 0x8000;
  }

  /** Numbers below 2^31 have logarithms below 31. */
  lemma LogBelow(x: nat)
    requires x < 0x8000_0000
    ensures Lin2log(x) <= 31 * 128
  {
    hide RotateRight;
    Pow2Values();
    IlogFits(x, 31);
    var (lz, frac) := ClzFrac(x);
    CurveBounds(frac);
    LogWithinOctave(frac);
  }

  lemma LogWithinOctave(f: int)
    requires 0 <= f < 128
    ensures f + f * (128 - f) * 179 / 0x1_0000 <= 128 && Smlawb(f, f * (128 - f), 179) <= 128
  {
    CorrectionIs(f);
    assert ToI16(179) == 179;
  }

  /** Sum of the first n weights. */
  function RunSum(ms: nat, nump: nat, n: nat): nat
    requires n <= ms <= 160 && 1 <= ms && 1 <= nump <= 40
  {
    if n == 0 then 0 else RunSum(ms, nump, n - 1) + RunPdf(ms, nump)[n - 1]
  }

  /** Probability is conserved: what the first n run lengths have and what is left for longer ones add up to one, less at most n units. */
  lemma {:induction false} RunsConserve(ms: nat, nump: nat, n: nat)
    requires n <= ms <= 160 && 1 <= ms && 1 <= nump <= 40
    ensures ONE_Q31 - n <= RunSum(ms, nump, n) + LongerQ31(ms, nump, n) <= ONE_Q31
  {
    hide HitQ31, MulQ31, RunPdf, LongerQ31;
    if n > 0 {
      RunStep(ms, nump, n);
      RunsConserve(ms, nump, n - 1);
      PartsOf(LongerQ31(ms, nump, n - 1), HitQ31(ms, nump, n));
    } else {
      NoRunYet(ms, nump);
    }
  }

  lemma NoRunYet(ms: nat, nump: nat)
    requires 1 <= ms <= 160 && 1 <= nump <= 40
    ensures LongerQ31(ms, nump, 0) == ONE_Q31
  {
  }

  lemma RunStep(ms: nat, nump: nat, n: nat)
    requires 1 <= n <= ms <= 160 && 1 <= nump <= 40
    ensures RunPdf(ms, nump)[n - 1] == MulQ31(LongerQ31(ms, nump, n - 1), HitQ31(ms, nump, n))
    ensures LongerQ31(ms, nump, n) == MulQ31(LongerQ31(ms, nump, n - 1), ONE_Q31 - HitQ31(ms, nump, n))
  {
    hide HitQ31, MulQ31;
  }

  lemma PartsOf(a: nat, p: nat)
    requires a <= ONE_Q31 && p <= ONE_Q31
    ensures a - 1 <= MulQ31(a, p) + MulQ31(a, ONE_Q31 - p) <= a
  {
    MulDist(a, ONE_Q31, p);
    DivBounds(a * p, ONE_Q31);
    MulMono(p, ONE_Q31, a);
    DivBounds(a * (ONE_Q31 - p), ONE_Q31);
  }
}
