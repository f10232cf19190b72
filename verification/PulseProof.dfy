/** Decoding undoes encoding for the pulse syntax, and every stream decodes to parameters that could have been encoded. */
module PulseProof {
  import opened Arith
  import opened Words
  import opened RangeSpec
  import opened CdfSpec
  import opened CcTables
  import opened Reading
  import opened PulseSpec

  // ---------------------------------------------------------------- reading what was written

  lemma {:induction false} RunsRead(cc: CcTables, d: Dec, left: int, runs: seq<int>, w: Walk, e: Dec)
    requires WellFormed(cc) && DecRange(d) && |runs| <= SUBFR_PULSES && 1 <= left <= SUBFR_LEN && RunsFit(left, runs)
    requires Reads(d, RunOps(cc, left, runs), e)
    ensures DecodeRuns(cc, d, |runs|, left, w) == (e, StepAll(w, runs))
    decreases |runs|
  {
    hide Reads, WellFormed, RunWindow, DecodeCdf, Step, CdfOp;
    if runs == [] {
      NothingRead(d, [], e);
    } else {
      var cdf := RunWindow(cc, left, |runs|);
      StrictCodes(cdf, runs[0]);
      var m := SplitAt(d, [CdfOp(cdf, runs[0])], RunOps(cc, left - runs[0], runs[1..]), e);
      ReadCdf(d, cdf, runs[0], m);
      RunsRead(cc, m, left - runs[0], runs[1..], Step(w, runs[0]), e);
    }
  }

  lemma {:induction false} MagsRead(cc: CcTables, d: Dec, subfr: seq<int>, runs: seq<int>, sf: nat, w: Walk, e: Dec)
    requires WellFormed(cc) && DecRange(d) && Counts(subfr) && sf <= SUBFRAMES && RunsOk(subfr, runs, sf)
    requires Reads(d, MagOps(cc, subfr, runs, sf), e)
    ensures DecodeMags(cc, d, subfr, sf, w) == (e, WalkAll(subfr, runs, sf, w))
    decreases SUBFRAMES - sf
  {
    hide Reads, WellFormed, RunOps, DecodeRuns, RunsFit, StepAll;
    if sf == SUBFRAMES {
      NothingRead(d, [], e);
    } else {
      var c := subfr[sf];
      var m := SplitAt(d, RunOps(cc, SUBFR_LEN, runs[..c]), MagOps(cc, subfr, runs[c..], sf + 1), e);
      RunsRead(cc, d, SUBFR_LEN, runs[..c], Begin(w, SUBFR_LEN * sf), m);
      MagsRead(cc, m, subfr, runs[c..], sf + 1, StepAll(Begin(w, SUBFR_LEN * sf), runs[..c]), e);
    }
  }

  lemma HalfRead(cc: CcTables, d: Dec, count: int, s0: int, e: Dec)
    requires WellFormed(cc) && DecRange(d) && 0 <= count <= 2 * SUBFR_PULSES && HalfMin(count) <= s0 <= HalfMax(count)
    requires Reads(d, HalfOps(cc, count, s0), e)
    ensures DecodeHalf(cc, d, count) == (e, s0)
  {
    hide Reads, WellFormed, HalfWindow, DecodeCdf;
    if HalfMin(count) == HalfMax(count) {
      NothingRead(d, [], e);
    } else {
      StrictCodes(HalfWindow(cc, count), s0 - HalfMin(count));
      ReadCdf(d, HalfWindow(cc, count), s0 - HalfMin(count), e);
    }
  }

  lemma SumRead(cc: CcTables, d: Dec, total: int, sum: int, e: Dec)
    requires WellFormed(cc) && DecRange(d) && 1 <= total <= FRAME_PULSES && SumMin(total) <= sum <= total - SumMin(total)
    requires Reads(d, SumOps(cc, total, sum), e)
    ensures DecodeSum(cc, d, total) == (e, sum)
  {
    hide Reads, WellFormed, SumWindow, DecodeCdf;
    if total == FRAME_PULSES {
      NothingRead(d, [], e);
    } else {
      StrictCodes(SumWindow(cc, total), sum - SumMin(total));
      ReadCdf(d, SumWindow(cc, total), sum - SumMin(total), e);
    }
  }

  lemma HalvesRead(cc: CcTables, d: Dec, subfr: seq<int>, e: Dec)
    requires WellFormed(cc) && DecRange(d) && Counts(subfr) && Reads(d, HalvesOps(cc, subfr), e)
    ensures DecodeHalves(cc, d, Total(subfr), subfr[0] + subfr[1]) == (e, subfr)
  {
    hide Reads, WellFormed, HalfOps, DecodeHalf;
    var sum, other := subfr[0] + subfr[1], subfr[2] + subfr[3];
    var m := SplitAt(d, HalfOps(cc, sum, subfr[0]), HalfOps(cc, other, subfr[2]), e);
    HalfRead(cc, d, sum, subfr[0], m);
    HalfRead(cc, m, other, subfr[2], e);
    assert subfr == [subfr[0], sum - subfr[0], subfr[2], other - subfr[2]];
  }

  lemma SplitRead(cc: CcTables, d: Dec, subfr: seq<int>, e: Dec)
    requires WellFormed(cc) && DecRange(d) && Counts(subfr) && Reads(d, SplitOps(cc, subfr), e)
    ensures 0 <= Total(subfr) <= FRAME_PULSES && DecodeSplit(cc, d, Total(subfr)) == (e, subfr)
  {
    hide Reads, WellFormed, SumOps, HalvesOps, DecodeSum, DecodeHalves;
    var total, sum := Total(subfr), subfr[0] + subfr[1];
    if total == 0 {
      NothingRead(d, [], e);
      assert subfr == [0, 0, 0, 0];
    } else {
      var m := SplitAt(d, SumOps(cc, total, sum), HalvesOps(cc, subfr), e);
      SumRead(cc, d, total, sum, m);
      HalvesRead(cc, m, subfr, e);
    }
  }

  lemma {:induction false} SignsRead(d: Dec, n: nat, syms: seq<RawSymbol>, acc: seq<RawSymbol>, e: Dec)
    requires DecRange(d) && Batches(syms, n) && Reads(d, SignOps(syms, n), e)
    ensures DecodeSigns(d, n, acc) == (e, acc + syms)
    decreases n
  {
    hide Reads, Pow2, DecodeUniform;
    if n == 0 {
      NothingRead(d, [], e);
      assert acc + syms == acc;
    } else {
      var s := syms[0];
      SmallPow2(s.nbits);
      var m := SplitAt(d, [RawSymOp(s.sym, s.nbits)], SignOps(syms[1..], n - s.nbits), e);
      ReadUniform(d, s.sym, Pow2(s.nbits), m);
      SignsRead(m, n - s.nbits, syms[1..], acc + [s], e);
      assert acc + syms == acc + [s] + syms[1..];
    }
  }

  /** Pulse parameters survive the wire, whatever follows them. */
  lemma ParamsRead(cc: CcTables, d: Dec, p: PulseParams, e: Dec)
    requires WellFormed(cc) && DecRange(d) && Replayable(p) && Reads(d, PulseOps(cc, p), e)
    ensures DecodeParams(cc, d) == (e, p)
  {
    hide Reads, WellFormed, SplitOps, MagOps, SignOps, DecodeSplit, DecodeMags, DecodeSigns, DecodeCdf, CountTable, WalkAll, RunsOk, Batches;
    var w := WalkAll(p.subfr, p.magRuns, 0, Fresh);
    TotalFits(p.subfr);
    var a, b, c := SplitOps(cc, p.subfr), MagOps(cc, p.subfr, p.magRuns, 0), SignOps(p.signSyms, |w.pos|);
    var m1 := SplitAt(d, [CdfOp(CountTable(), p.total)], a + (b + c), e);
    var m2 := SplitAt(m1, a, b + c, e);
    var m3 := SplitAt(m2, b, c, e);
    ReadCdf(d, CountTable(), p.total, m1);
    SplitRead(cc, m1, p.subfr, m2);
    MagsRead(cc, m2, p.subfr, p.magRuns, 0, Fresh, m3);
    SignsRead(m3, |w.pos|, p.signSyms, [], e);
    WalkAllSound(p.subfr, p.magRuns, 0, Fresh);
    assert [] + p.signSyms == p.signSyms && [] + p.magRuns == p.magRuns;
  }

  // ---------------------------------------------------------------- totality

  lemma RunOpsCons(cc: CcTables, left: int, m: int, rest: seq<int>)
    requires WellFormed(cc) && |rest| < SUBFR_PULSES && 0 <= m < left <= SUBFR_LEN && RunsFit(left - m, rest)
    ensures RunsFit(left, [m] + rest)
    ensures Codes(RunWindow(cc, left, |rest| + 1), m)
    ensures RunOps(cc, left, [m] + rest) == [CdfOp(RunWindow(cc, left, |rest| + 1), m)] + RunOps(cc, left - m, rest)
  {
    hide WellFormed;
    assert ([m] + rest)[1..] == rest;
    StrictCodes(RunWindow(cc, left, |rest| + 1), m);
  }

  lemma RunRead(cc: CcTables, d: Dec, c: nat, left: int)
    requires WellFormed(cc) && DecRange(d) && 1 <= c <= SUBFR_PULSES && 1 <= left <= SUBFR_LEN
    ensures var (e, m) := DecodeCdf(d, RunWindow(cc, left, c));
      0 <= m < left && Codes(RunWindow(cc, left, c), m) && Reads(d, [CdfOp(RunWindow(cc, left, c), m)], e)
  {
    hide Reads, WellFormed, RunWindow, DecodeCdf;
    CdfRead(d, RunWindow(cc, left, c));
  }

  lemma {:induction false} RunsParsed(cc: CcTables, d: Dec, c: nat, left: int, w: Walk) returns (runs: seq<int>)
    requires WellFormed(cc) && DecRange(d) && c <= SUBFR_PULSES && 1 <= left <= SUBFR_LEN
    ensures |runs| == c && RunsFit(left, runs)
    ensures DecodeRuns(cc, d, c, left, w).1 == StepAll(w, runs)
    ensures Reads(d, RunOps(cc, left, runs), DecodeRuns(cc, d, c, left, w).0)
    decreases c
  {
    hide Reads, WellFormed, RunWindow, DecodeCdf, Step, Codes, Strict, Table;
    if c == 0 {
      runs := [];
      NothingRead(d, [], d);
    } else {
      RunRead(cc, d, c, left);
      hide RunOps, RunsFit;
      var (d1, m) := DecodeCdf(d, RunWindow(cc, left, c));
      var rest := RunsParsed(cc, d1, c - 1, left - m, Step(w, m));
      runs := [m] + rest;
      assert runs[1..] == rest;
      RunOpsCons(cc, left, m, rest);
      Joined(d, [CdfOp(RunWindow(cc, left, c), m)], d1, RunOps(cc, left - m, rest), DecodeRuns(cc, d, c, left, w).0);
    }
  }

  lemma {:induction false} MagsParsed(cc: CcTables, d: Dec, subfr: seq<int>, sf: nat, w: Walk) returns (runs: seq<int>)
    requires WellFormed(cc) && DecRange(d) && Counts(subfr) && sf <= SUBFRAMES
    ensures RunsOk(subfr, runs, sf) && DecodeMags(cc, d, subfr, sf, w).1 == WalkAll(subfr, runs, sf, w)
    ensures Reads(d, MagOps(cc, subfr, runs, sf), DecodeMags(cc, d, subfr, sf, w).0)
    decreases SUBFRAMES - sf
  {
    hide Reads, WellFormed, RunOps, DecodeRuns, RunsFit, StepAll;
    if sf == SUBFRAMES {
      runs := [];
      NothingRead(d, [], d);
    } else {
      var w0 := Begin(w, SUBFR_LEN * sf);
      var (d1, w1) := DecodeRuns(cc, d, subfr[sf], SUBFR_LEN, w0);
      var head := RunsParsed(cc, d, subfr[sf], SUBFR_LEN, w0);
      var rest := MagsParsed(cc, d1, subfr, sf + 1, w1);
      runs := head + rest;
      assert runs[..subfr[sf]] == head && runs[subfr[sf]..] == rest;
      Joined(d, RunOps(cc, SUBFR_LEN, head), d1, MagOps(cc, subfr, rest, sf + 1), DecodeMags(cc, d, subfr, sf, w).0);
    }
  }

  lemma HalfParsed(cc: CcTables, d: Dec, count: int)
    requires WellFormed(cc) && DecRange(d) && 0 <= count <= 2 * SUBFR_PULSES
    ensures var (e, s0) := DecodeHalf(cc, d, count); Reads(d, HalfOps(cc, count, s0), e)
  {
    hide Reads, WellFormed, HalfWindow, DecodeCdf;
    if HalfMin(count) == HalfMax(count) { NothingRead(d, [], d); } else { CdfRead(d, HalfWindow(cc, count)); }
  }

  lemma SumParsed(cc: CcTables, d: Dec, total: int)
    requires WellFormed(cc) && DecRange(d) && 1 <= total <= FRAME_PULSES
    ensures var (e, sum) := DecodeSum(cc, d, total); Reads(d, SumOps(cc, total, sum), e)
  {
    hide Reads, WellFormed, SumWindow, DecodeCdf;
    if total == FRAME_PULSES { NothingRead(d, [], d); } else { CdfRead(d, SumWindow(cc, total)); }
  }

  lemma HalvesParsed(cc: CcTables, d: Dec, total: int, sum: int)
    requires WellFormed(cc) && DecRange(d) && 0 <= sum <= 2 * SUBFR_PULSES && 0 <= total - sum <= 2 * SUBFR_PULSES
    ensures var (e, subfr) := DecodeHalves(cc, d, total, sum);
      Reads(d, HalvesOps(cc, subfr), e) && subfr[0] + subfr[1] == sum
  {
    hide Reads, WellFormed, HalfOps, DecodeHalf;
    var (d2, s0) := DecodeHalf(cc, d, sum);
    var (e, s2) := DecodeHalf(cc, d2, total - sum);
    HalfParsed(cc, d, sum);
    HalfParsed(cc, d2, total - sum);
    Joined(d, HalfOps(cc, sum, s0), d2, HalfOps(cc, total - sum, s2), e);
  }

  lemma SplitParsed(cc: CcTables, d: Dec, total: int)
    requires WellFormed(cc) && DecRange(d) && 0 <= total <= FRAME_PULSES
    ensures var (e, subfr) := DecodeSplit(cc, d, total); Reads(d, SplitOps(cc, subfr), e)
  {
    hide Reads, WellFormed, SumOps, HalvesOps, DecodeSum, DecodeHalves;
    if total == 0 {
      NothingRead(d, [], d);
    } else {
      var (d1, sum) := DecodeSum(cc, d, total);
      var (e, subfr) := DecodeHalves(cc, d1, total, sum);
      SumParsed(cc, d, total);
      HalvesParsed(cc, d1, total, sum);
      Joined(d, SumOps(cc, total, sum), d1, HalvesOps(cc, subfr), e);
    }
  }

  lemma {:induction false} SignsParsed(d: Dec, n: nat, acc: seq<RawSymbol>) returns (syms: seq<RawSymbol>)
    requires DecRange(d)
    ensures Batches(syms, n) && DecodeSigns(d, n, acc).1 == acc + syms && Reads(d, SignOps(syms, n), DecodeSigns(d, n, acc).0)
    decreases n
  {
    hide Reads, Pow2, DecodeUniform;
    if n == 0 {
      syms := [];
      NothingRead(d, [], d);
    } else {
      var nb := Min(15, n);
      SmallPow2(nb);
      UniformRead(d, Pow2(nb));
      var (d1, s) := DecodeUniform(d, Pow2(nb));
      var rest := SignsParsed(d1, n - nb, acc + [RawSymbol(s, nb)]);
      syms := [RawSymbol(s, nb)] + rest;
      assert syms[1..] == rest;
      Joined(d, [RawSymOp(s, nb)], d1, SignOps(rest, n - nb), DecodeSigns(d, n, acc).0);
    }
  }

  /** On any stream whatever, the decoder reads parameters the encoder would have written with the very same steps. */
  lemma ParamsParsed(cc: CcTables, d: Dec)
    requires WellFormed(cc) && DecRange(d)
    ensures var (e, p) := DecodeParams(cc, d); Replayable(p) && Reads(d, PulseOps(cc, p), e)
  {
    hide Reads, WellFormed, SplitOps, MagOps, SignOps, DecodeSplit, DecodeMags, DecodeSigns, DecodeCdf, CountTable, WalkAll, RunsOk, Batches;
    var (d1, total) := DecodeCdf(d, CountTable());
    var (d2, subfr) := DecodeSplit(cc, d1, total);
    var (d3, w) := DecodeMags(cc, d2, subfr, 0, Fresh);
    CdfRead(d, CountTable());
    SplitParsed(cc, d1, total);
    var runs := MagsParsed(cc, d2, subfr, 0, Fresh);
    WalkAllSound(subfr, runs, 0, Fresh);
    var syms := SignsParsed(d3, |w.pos|, []);
    var (e, p) := DecodeParams(cc, d);
    assert p == PulseParams(total, subfr, runs, syms);
    Joined(d2, MagOps(cc, subfr, runs, 0), d3, SignOps(syms, |w.pos|), e);
    Joined(d1, SplitOps(cc, subfr), d2, ShapeOps(cc, p), e);
    Joined(d, [CdfOp(CountTable(), total)], d1, SplitOps(cc, subfr) + ShapeOps(cc, p), e);
  }
}
