/** The pulse encoder, decoder and parameter builder as loops over the coders, refining PulseSpec. */
module PulseCoder {
  import opened Arith
  import opened Words
  import opened RangeSpec
  import opened CdfSpec
  import opened CmfTables
  import opened CcTables
  import opened PulseSpec
  import opened PulseVector
  import RangeEncoder
  import RangeDecoder
  import PulseProof
  import Reading

  // ---------------------------------------------------------------- encoding

  method EncodeWindow(enc: RangeEncoder.RangeEncoder, base: seq<u16>, start: int, n: nat, s: int)
    requires enc.Clean() && Codes(Window(base, start, n), s)
    modifies enc, enc.buf
    ensures enc.Clean() && enc.written == old(enc.written) + [CdfOp(Window(base, start, n), s)]
  {
    var w := CdfWindow(base, start, n);
    enc.EncodeCDF(s, w[..]);
  }

  method EncodeCount(enc: RangeEncoder.RangeEncoder, total: int)
    requires enc.Clean() && 0 <= total <= FRAME_PULSES
    modifies enc, enc.buf
    ensures enc.Clean() && Codes(CountTable(), total) && enc.written == old(enc.written) + [CdfOp(CountTable(), total)]
  {
    hide TriT, Strict, Table;
    StrictCodes(CountTable(), total);
    var ft := TriT(FRAME_PULSES, FRAME_PULSES);
    assert ft != 0;
    var fl := 0;
    if total > 0 { fl := TriT(FRAME_PULSES, total - 1); }
    var fh := TriT(FRAME_PULSES, total);
    assert CdfOp(CountTable(), total) == Sym(fl, fh, ft);
    enc.Encode(fl, fh, ft);
  }

  method EncodeSplit3537(enc: RangeEncoder.RangeEncoder, cc: CcTables, count: int, s0: int)
    requires enc.Clean() && WellFormed(cc) && 0 <= count <= 2 * SUBFR_PULSES && HalfMin(count) <= s0 <= HalfMax(count)
    modifies enc, enc.buf
    ensures enc.Clean() && enc.written == old(enc.written) + HalfOps(cc, count, s0)
  {
    hide WellFormed;
    var lo := count;
    if SUBFR_PULSES < lo { lo := SUBFR_PULSES; }
    var minSplit := count - SUBFR_PULSES;
    if minSplit < 0 { minSplit := 0; }
    if minSplit == lo { return; }
    StrictCodes(HalfWindow(cc, count), s0 - minSplit);
    EncodeWindow(enc, SplitCmf(cc, count), minSplit, lo - minSplit + 2, s0 - minSplit);
  }

  method EncodeSplit(enc: RangeEncoder.RangeEncoder, cc: CcTables, subfr: seq<int>)
    requires enc.Clean() && WellFormed(cc) && Counts(subfr) && Total(subfr) > 0
    modifies enc, enc.buf
    ensures enc.Clean() && enc.written == old(enc.written) + SplitOps(cc, subfr)
  {
    hide WellFormed, HalfOps, HalfWindow, SumWindow, SumOps, CdfOp, Codes, RangeEncoder.RangeEncoder.Clean, RangeEncoder.RangeEncoder.Valid;
    TotalFits(subfr);
    ghost var before := enc.written;
    var total, finalSum := Total(subfr), subfr[0] + subfr[1];
    var initSum := total - 2 * SUBFR_PULSES;
    if initSum < 0 { initSum := 0; }
    var lo := total - 80;
    if lo < 0 { lo := 0; }
    var hiBound := total - lo;
    if initSum < hiBound {
      SumCodes(cc, total, finalSum);
      EncodeWindow(enc, SplitCmf(cc, total), initSum - lo, hiBound - initSum + 2, finalSum - initSum);
    }
    FullSum(cc);
    assert enc.written == before + SumOps(cc, total, finalSum);
    EncodeHalves(enc, cc, subfr);
    assert enc.written == before + (SumOps(cc, total, finalSum) + HalvesOps(cc, subfr));
  }

  method EncodeHalves(enc: RangeEncoder.RangeEncoder, cc: CcTables, subfr: seq<int>)
    requires enc.Clean() && WellFormed(cc) && Counts(subfr)
    modifies enc, enc.buf
    ensures enc.Clean() && enc.written == old(enc.written) + HalvesOps(cc, subfr)
  {
    hide WellFormed, HalfOps, HalfWindow, RangeEncoder.RangeEncoder.Clean, RangeEncoder.RangeEncoder.Valid;
    ghost var before := enc.written;
    var total, finalSum := Total(subfr), subfr[0] + subfr[1];
    NoHalf(cc);
    if finalSum > 0 { EncodeSplit3537(enc, cc, finalSum, subfr[0]); }
    assert enc.written == before + HalfOps(cc, finalSum, subfr[0]);
    if finalSum < total { EncodeSplit3537(enc, cc, total - finalSum, subfr[2]); }
    assert enc.written == before + HalfOps(cc, finalSum, subfr[0]) + HalfOps(cc, total - finalSum, subfr[2]);
  }

  lemma FullSum(cc: CcTables)
    requires WellFormed(cc)
    ensures SumOps(cc, FRAME_PULSES, 80) == []
  {
    hide WellFormed;
  }

  lemma SumCodes(cc: CcTables, total: int, sum: int)
    requires WellFormed(cc) && 1 <= total < FRAME_PULSES && SumMin(total) <= sum <= total - SumMin(total)
    ensures var w := SplitWindow(cc, total, 0, total - 2 * SumMin(total) + 2);
      w == SumWindow(cc, total) && Codes(w, sum - SumMin(total)) && SumOps(cc, total, sum) == [CdfOp(w, sum - SumMin(total))]
  {
    hide WellFormed;
    StrictCodes(SumWindow(cc, total), sum - SumMin(total));
  }

  lemma NoHalf(cc: CcTables)
    requires WellFormed(cc)
    ensures HalfOps(cc, 0, 0) == []
  {
    hide WellFormed;
  }

  /** One subframe's runs, replayed through the shrinking windows. */
  method EncodeRuns(enc: RangeEncoder.RangeEncoder, cc: CcTables, runs: seq<int>)
    requires enc.Clean() && WellFormed(cc) && |runs| <= SUBFR_PULSES && RunsFit(SUBFR_LEN, runs)
    modifies enc, enc.buf
    ensures enc.Clean() && enc.written == old(enc.written) + RunOps(cc, SUBFR_LEN, runs)
  {
    hide WellFormed, RunWindow, RunOps, RunsFit, Codes, CdfOp, RangeEncoder.RangeEncoder.Clean, RangeEncoder.RangeEncoder.Valid;
    var pos, c, k := SUBFR_LEN, |runs|, 0;
    assert runs[0..] == runs;
    while k < |runs|
      invariant 0 <= k <= |runs| && c == |runs| - k && pos <= SUBFR_LEN && enc.Clean()
      invariant RunsFit(pos, runs[k..])
      invariant enc.written + RunOps(cc, pos, runs[k..]) == old(enc.written) + RunOps(cc, SUBFR_LEN, runs)
    {
      var m, oct := runs[k], (pos + 7) / 8;
      NextRun(cc, pos, c, runs[k..]);
      assert runs[k..][1..] == runs[k + 1..];
      EncodeWindow(enc, cc.runlen[oct - 1][c - 1], 8 * oct - pos, pos + 1, m);
      if m > 0 || k == 0 { pos := pos - m; }
      c := c - 1;
      k := k + 1;
    }
    NoRunOps(cc, pos);
    assert runs[k..] == [];
    assert enc.written + [] == enc.written;
  }

  lemma NoRunOps(cc: CcTables, left: int)
    requires WellFormed(cc) && left <= SUBFR_LEN
    ensures RunsFit(left, []) && RunOps(cc, left, []) == []
  {
  }

  lemma NextRun(cc: CcTables, left: int, c: int, runs: seq<int>)
    requires WellFormed(cc) && 1 <= c == |runs| <= SUBFR_PULSES && left <= SUBFR_LEN && RunsFit(left, runs)
    ensures var oct := (left + 7) / 8;
      && 1 <= oct <= |cc.runlen| && |cc.runlen[oct - 1]| == MAX_PULSES_PER_SF
      && Window(cc.runlen[oct - 1][c - 1], 8 * oct - left, left + 1) == RunWindow(cc, left, c)
      && 0 <= runs[0] < left && Codes(RunWindow(cc, left, c), runs[0]) && RunsFit(left - runs[0], runs[1..])
      && RunOps(cc, left, runs) == [CdfOp(RunWindow(cc, left, c), runs[0])] + RunOps(cc, left - runs[0], runs[1..])
  {
    RunWindowShape(cc, left, c);
    hide WellFormed;
    StrictCodes(RunWindow(cc, left, c), runs[0]);
  }

  method EncodeMags(enc: RangeEncoder.RangeEncoder, cc: CcTables, subfr: seq<int>, magRuns: seq<int>)
    requires enc.Clean() && WellFormed(cc) && Counts(subfr) && RunsOk(subfr, magRuns, 0)
    modifies enc, enc.buf
    ensures enc.Clean() && enc.written == old(enc.written) + MagOps(cc, subfr, magRuns, 0)
  {
    hide WellFormed, RunOps, RunsFit, RunsOk, MagOps, RangeEncoder.RangeEncoder.Clean, RangeEncoder.RangeEncoder.Valid;
    assert magRuns[0..] == magRuns;
    var magIdx := 0;
    for sf := 0 to SUBFRAMES
      invariant 0 <= magIdx <= |magRuns| && enc.Clean() && RunsOk(subfr, magRuns[magIdx..], sf)
      invariant enc.written + MagOps(cc, subfr, magRuns[magIdx..], sf) == old(enc.written) + MagOps(cc, subfr, magRuns, 0)
    {
      NextMags(cc, subfr, magRuns[magIdx..], sf);
      var cnt := subfr[sf];
      var runs := magRuns[magIdx..magIdx + cnt];
      assert runs == magRuns[magIdx..][..cnt] && magRuns[magIdx..][cnt..] == magRuns[magIdx + cnt..];
      EncodeRuns(enc, cc, runs);
      magIdx := magIdx + cnt;
    }
    assert MagOps(cc, subfr, magRuns[magIdx..], SUBFRAMES) == [] by { NoMags(cc, subfr, magRuns[magIdx..]); }
    assert enc.written + [] == enc.written;
  }

  lemma NextMags(cc: CcTables, subfr: seq<int>, runs: seq<int>, sf: nat)
    requires WellFormed(cc) && Counts(subfr) && sf < SUBFRAMES && RunsOk(subfr, runs, sf)
    ensures 0 <= subfr[sf] <= |runs| && RunsFit(SUBFR_LEN, runs[..subfr[sf]]) && RunsOk(subfr, runs[subfr[sf]..], sf + 1)
    ensures MagOps(cc, subfr, runs, sf) == RunOps(cc, SUBFR_LEN, runs[..subfr[sf]]) + MagOps(cc, subfr, runs[subfr[sf]..], sf + 1)
  {
    hide WellFormed, RunOps, RunsFit;
  }

  lemma NoMags(cc: CcTables, subfr: seq<int>, runs: seq<int>)
    requires WellFormed(cc) && Counts(subfr) && RunsOk(subfr, runs, SUBFRAMES)
    ensures MagOps(cc, subfr, runs, SUBFRAMES) == []
  {
  }

  method EncodeSigns(enc: RangeEncoder.RangeEncoder, syms: seq<RawSymbol>, ghost n: nat)
    requires enc.Clean() && Batches(syms, n)
    modifies enc, enc.buf
    ensures enc.Clean() && enc.written == old(enc.written) + SignOps(syms, n)
  {
    hide Pow2, SignOps, RawSymOp, RangeEncoder.RangeEncoder.Clean, RangeEncoder.RangeEncoder.Valid;
    ghost var left: nat := n;
    assert syms[0..] == syms;
    for i := 0 to |syms|
      invariant enc.Clean() && Batches(syms[i..], left)
      invariant enc.written + SignOps(syms[i..], left) == old(enc.written) + SignOps(syms, n)
    {
      assert syms[i..][1..] == syms[i + 1..];
      NextSigns(syms[i..], left);
      left := left - syms[i].nbits;
      enc.EncodeRawSymbol(syms[i].sym, syms[i].nbits);
    }
    NextSigns([], left);
    assert enc.written + [] == enc.written;
  }

  lemma NextSigns(syms: seq<RawSymbol>, n: nat)
    requires Batches(syms, n)
    ensures syms == [] ==> SignOps(syms, n) == []
    ensures syms != [] ==>
      (syms[0].nbits <= 15 && syms[0].nbits <= n && syms[0].sym < Pow2(syms[0].nbits) && Batches(syms[1..], n - syms[0].nbits)
       && SignOps(syms, n) == [RawSymOp(syms[0].sym, syms[0].nbits)] + SignOps(syms[1..], n - syms[0].nbits))
  {
    hide Pow2;
  }

  /** Replays pulse parameters through count, split, runs and signs. */
  method EncodeSmplPulses(enc: RangeEncoder.RangeEncoder, cc: CcTables, pp: PulseParams)
    requires enc.Clean() && WellFormed(cc) && Replayable(pp)
    modifies enc, enc.buf
    ensures enc.Clean() && enc.written == old(enc.written) + PulseOps(cc, pp)
  {
    hide WellFormed, SplitOps, MagOps, SignOps, CountTable, RunsOk, WalkAll, Batches, CdfOp, Codes, RangeEncoder.RangeEncoder.Clean, RangeEncoder.RangeEncoder.Valid;
    TotalFits(pp.subfr);
    ghost var n := |WalkAll(pp.subfr, pp.magRuns, 0, Fresh).pos|;
    ghost var before := enc.written;
    EncodeCount(enc, pp.total);
    if pp.total == 0 {
      SilentOps(cc, pp);
      return;
    }
    EncodeSplit(enc, cc, pp.subfr);
    EncodeMags(enc, cc, pp.subfr, pp.magRuns);
    EncodeSigns(enc, pp.signSyms, n);
    assert enc.written == before + [CdfOp(CountTable(), pp.total)] + SplitOps(cc, pp.subfr)
      + MagOps(cc, pp.subfr, pp.magRuns, 0) + SignOps(pp.signSyms, n);
    assert enc.written == before + PulseOps(cc, pp);
  }

  /** No pulses: nothing follows the count. */
  lemma SilentOps(cc: CcTables, p: PulseParams)
    requires WellFormed(cc) && Replayable(p) && p.total == 0
    ensures Codes(CountTable(), 0) && PulseOps(cc, p) == [CdfOp(CountTable(), 0)]
  {
    hide WellFormed, CountTable;
    TotalFits(p.subfr);
    SilentRuns(cc, p.subfr, p.magRuns, 0, Fresh);
    assert SplitOps(cc, p.subfr) == [];
    assert ShapeOps(cc, p) == [];
  }

  lemma {:induction false} SilentRuns(cc: CcTables, subfr: seq<int>, runs: seq<int>, sf: nat, w: Walk)
    requires WellFormed(cc) && Counts(subfr) && Total(subfr) == 0 && sf <= SUBFRAMES && RunsOk(subfr, runs, sf)
    ensures MagOps(cc, subfr, runs, sf) == [] && WalkAll(subfr, runs, sf, w).pos == w.pos
    decreases SUBFRAMES - sf
  {
    hide WellFormed;
    if sf < SUBFRAMES {
      assert subfr[sf] == 0;
      SilentRuns(cc, subfr, runs[0..], sf + 1, Begin(w, SUBFR_LEN * sf));
    }
  }

  // ---------------------------------------------------------------- decoding

  method DecodeWindow(dec: RangeDecoder.RangeDecoder, base: seq<u16>, start: int, n: nat) returns (k: int)
    requires dec.Valid() && Table(Window(base, start, n))
    modifies dec
    ensures dec.Valid() && (dec.State(), k) == DecodeCdf(old(dec.State()), Window(base, start, n))
  {
    var w := CdfWindow(base, start, n);
    k := dec.DecodeCDF(w[..]);
  }

  /** The count: the triangular interval holding the decoded frequency. */
  method DecodeCount(dec: RangeDecoder.RangeDecoder) returns (total: int)
    requires dec.Valid()
    modifies dec
    ensures dec.Valid() && (dec.State(), total) == DecodeCdf(old(dec.State()), CountTable())
  {
    hide TriT, CountTable, Strict, DecNormalize, Quot, Times, Span, Codable, DecodesTo, Advance, CdfIndex, DecodeSym, RangeSpec.Update;
    ghost var before, table := dec.State(), CountTable();
    var ft: int := TriT(FRAME_PULSES, FRAME_PULSES);
    assert ft == 13521;
    FreqBelow(dec.State(), ft);
    var val := dec.Decode(ft);
    var k := FindCount(val);
    var prevCum, cum := if k == 0 then 0 else TriT(FRAME_PULSES, k - 1), TriT(FRAME_PULSES, k);
    assert prevCum == table[k] && cum == table[k + 1];
    RangeDecoder.TakeKeepsTail(before, prevCum, cum, ft);
    dec.Take(prevCum, cum, ft, before);
    total := k;
  }

  /** Walks the cumulative prior; what it stops at is the table's own cell, so the limit is never reached. */
  method FindCount(val: nat) returns (k: nat)
    requires val < 13521
    ensures k <= FRAME_PULSES && k == CdfIndex(CountTable(), val, 0)
    ensures CountTable()[k] <= val < CountTable()[k + 1]
  {
    hide TriT, CountTable, Strict;
    ghost var table := CountTable();
    var limit := FRAME_PULSES + 1;
    var prevCum: int := 0;
    k := 0;
    while k != limit
      invariant 0 <= k < limit && prevCum == table[k] <= val
      invariant CdfIndex(table, val, k) == CdfIndex(table, val, 0)
      decreases limit - k
    {
      var cum: int := TriT(FRAME_PULSES, k);
      assert cum == table[k + 1];
      if prevCum <= val && val < cum { break; }
      prevCum := cum;
      k := k + 1;
    }
  }

  method SmplSplit3537(dec: RangeDecoder.RangeDecoder, cc: CcTables, count: int) returns (s0: int)
    requires dec.Valid() && WellFormed(cc) && 0 <= count <= 2 * SUBFR_PULSES
    modifies dec
    ensures dec.Valid() && (dec.State(), s0) == DecodeHalf(cc, old(dec.State()), count)
  {
    hide WellFormed, DecodeCdf, HalfWindow, Strict, RangeDecoder.RangeDecoder.Valid, RangeDecoder.RangeDecoder.State;
    var lo := count;
    if SUBFR_PULSES < lo { lo := SUBFR_PULSES; }
    var minSplit := count - SUBFR_PULSES;
    if minSplit < 0 { minSplit := 0; }
    if minSplit == lo { return minSplit; }
    HalfTable(cc, count);
    var k := DecodeWindow(dec, SplitCmf(cc, count), minSplit, lo - minSplit + 2);
    s0 := k + minSplit;
  }

  lemma HalfTable(cc: CcTables, count: int)
    requires WellFormed(cc) && 1 <= count < 2 * SUBFR_PULSES
    ensures SplitWindow(cc, count, HalfMin(count), HalfMax(count) - HalfMin(count) + 2) == HalfWindow(cc, count)
    ensures Table(HalfWindow(cc, count))
  {
    hide WellFormed;
  }

  /** Splitting never fails here: the guards against corrupt splits cannot fire for totals up to 160. */
  method DecodePulseSubframeCounts(dec: RangeDecoder.RangeDecoder, cc: CcTables, total: int) returns (split: seq<int>)
    requires dec.Valid() && WellFormed(cc) && 0 <= total <= FRAME_PULSES
    modifies dec
    ensures dec.Valid() && (dec.State(), split) == DecodeSplit(cc, old(dec.State()), total)
  {
    hide WellFormed, DecodeHalves, DecodeCdf, SumWindow, RangeDecoder.RangeDecoder.Valid, RangeDecoder.RangeDecoder.State;
    if total == 0 { return [0, 0, 0, 0]; }
    var sum := DecodeFirstSum(dec, cc, total);
    split := DecodeQuarters(dec, cc, total, sum);
  }

  method DecodeFirstSum(dec: RangeDecoder.RangeDecoder, cc: CcTables, total: int) returns (sum: int)
    requires dec.Valid() && WellFormed(cc) && 1 <= total <= FRAME_PULSES
    modifies dec
    ensures dec.Valid() && (dec.State(), sum) == DecodeSum(cc, old(dec.State()), total)
  {
    hide WellFormed, DecodeCdf, SumWindow, RangeDecoder.RangeDecoder.Valid, RangeDecoder.RangeDecoder.State;
    sum := total - 2 * SUBFR_PULSES;
    if sum < 0 { sum := 0; }
    var lo := total - 80;
    if lo < 0 { lo := 0; }
    var hiBound := total - lo;
    if sum < hiBound {
      SumTable(cc, total);
      var k := DecodeWindow(dec, SplitCmf(cc, total), sum - lo, hiBound - sum + 2);
      sum := sum + k;
    }
  }

  method DecodeQuarters(dec: RangeDecoder.RangeDecoder, cc: CcTables, total: int, sum: int) returns (split: seq<int>)
    requires dec.Valid() && WellFormed(cc) && 0 <= sum <= 2 * SUBFR_PULSES && 0 <= total - sum <= 2 * SUBFR_PULSES
    modifies dec
    ensures dec.Valid() && (dec.State(), split) == DecodeHalves(cc, old(dec.State()), total, sum)
  {
    hide WellFormed, DecodeHalf, RangeDecoder.RangeDecoder.Valid, RangeDecoder.RangeDecoder.State;
    NoneHalf(cc, dec.State());
    var s0, s1, s2, s3 := 0, 0, 0, 0;
    if sum > 0 {
      s0 := SmplSplit3537(dec, cc, sum);
      s1 := sum - s0;
    }
    NoneHalf(cc, dec.State());
    if sum < total {
      s2 := SmplSplit3537(dec, cc, total - sum);
      s3 := total - sum - s2;
    }
    split := [s0, s1, s2, s3];
  }

  lemma SumTable(cc: CcTables, total: int)
    requires WellFormed(cc) && 1 <= total < FRAME_PULSES
    ensures SplitWindow(cc, total, 0, total - 2 * SumMin(total) + 2) == SumWindow(cc, total)
    ensures Table(SumWindow(cc, total))
  {
    hide WellFormed;
  }

  lemma NoneHalf(cc: CcTables, d: Dec)
    requires WellFormed(cc) && DecRange(d)
    ensures DecodeHalf(cc, d, 0) == (d, 0)
  {
    hide WellFormed;
  }

  /** One subframe: its runs open positions or grow the last pulse. */
  method DecodeSubframe(dec: RangeDecoder.RangeDecoder, cc: CcTables, cnt: int, basePos: int, runs0: seq<int>, pos0: seq<int>, mag0: seq<int>)
    returns (magRuns: seq<int>, posList: seq<int>, magList: seq<int>, ghost runPos: int)
    requires dec.Valid() && WellFormed(cc) && 0 <= cnt <= SUBFR_PULSES && |pos0| == |mag0|
    modifies dec
    ensures dec.Valid()
    ensures (dec.State(), Walk(magRuns, posList, magList, runPos, cnt == 0))
         == DecodeRuns(cc, old(dec.State()), cnt, SUBFR_LEN, Walk(runs0, pos0, mag0, basePos, true))
    ensures |posList| == |magList|
  {
    hide WellFormed, DecodeCdf, RunWindow, Window, Table, DecodeRuns, RangeDecoder.RangeDecoder.Valid, RangeDecoder.RangeDecoder.State;
    magRuns, posList, magList := runs0, pos0, mag0;
    ghost var w := Walk(runs0, pos0, mag0, basePos, true);
    var at, pos, c, k := basePos, SUBFR_LEN, cnt, 0;
    while k < cnt
      invariant dec.Valid() && 0 <= k <= cnt && c == cnt - k && 1 <= pos <= SUBFR_LEN
      invariant |posList| == |magList| && (k > 0 ==> |posList| > 0)
      invariant w == Walk(magRuns, posList, magList, at, k == 0)
      invariant DecodeRuns(cc, dec.State(), c, pos, w)
             == DecodeRuns(cc, old(dec.State()), cnt, SUBFR_LEN, Walk(runs0, pos0, mag0, basePos, true))
    {
      var oct := (pos + 7) / 8;
      RunTable(cc, pos, c);
      ghost var d := dec.State();
      var m := DecodeWindow(dec, cc.runlen[oct - 1][c - 1], 8 * oct - pos, pos + 1);
      RunStep(cc, d, c, pos, w);
      w := Step(w, m);
      magRuns := magRuns + [m];
      if m > 0 || k == 0 {
        at := at + m;
        posList := posList + [at];
        magList := magList + [1];
        pos := pos - m;
      } else if |magList| > 0 {
        magList := magList[|magList| - 1 := magList[|magList| - 1] + 1];
      }
      c := c - 1;
      k := k + 1;
    }
    runPos := at;
    NoRuns(cc, dec.State(), pos, w);
  }

  lemma RunTable(cc: CcTables, left: int, c: int)
    requires WellFormed(cc) && 1 <= c <= SUBFR_PULSES && 1 <= left <= SUBFR_LEN
    ensures var oct := (left + 7) / 8;
      && 1 <= oct <= |cc.runlen| && |cc.runlen[oct - 1]| == MAX_PULSES_PER_SF
      && Window(cc.runlen[oct - 1][c - 1], 8 * oct - left, left + 1) == RunWindow(cc, left, c)
      && Table(RunWindow(cc, left, c))
  {
    RunWindowShape(cc, left, c);
    hide WellFormed;
  }

  lemma NoRuns(cc: CcTables, d: Dec, left: int, w: Walk)
    requires WellFormed(cc) && DecRange(d) && 1 <= left <= SUBFR_LEN
    ensures DecodeRuns(cc, d, 0, left, w) == (d, w)
  {
  }

  lemma RunStep(cc: CcTables, d: Dec, c: int, left: int, w: Walk)
    requires WellFormed(cc) && DecRange(d) && 1 <= c <= SUBFR_PULSES && 1 <= left <= SUBFR_LEN
    ensures var (d1, m) := DecodeCdf(d, RunWindow(cc, left, c));
      0 <= m < left && DecRange(d1) && DecodeRuns(cc, d, c, left, w) == DecodeRuns(cc, d1, c - 1, left - m, Step(w, m))
  {
    hide WellFormed, DecodeCdf, RunWindow;
    assert Table(RunWindow(cc, left, c));
  }

  method DecodeMagnitudes(dec: RangeDecoder.RangeDecoder, cc: CcTables, split: seq<int>)
    returns (magRuns: seq<int>, posList: seq<int>, magList: seq<int>)
    requires dec.Valid() && WellFormed(cc) && Counts(split)
    modifies dec
    ensures dec.Valid() && |posList| == |magList|
    ensures var (e, w) := DecodeMags(cc, old(dec.State()), split, 0, Fresh);
      dec.State() == e && (magRuns, posList, magList) == (w.runs, w.pos, w.mag)
  {
    hide WellFormed, DecodeRuns, RangeDecoder.RangeDecoder.Valid, RangeDecoder.RangeDecoder.State;
    magRuns, posList, magList := [], [], [];
    ghost var w := Fresh;
    for subfr := 0 to SUBFRAMES
      invariant dec.Valid() && |posList| == |magList| && (magRuns, posList, magList) == (w.runs, w.pos, w.mag)
      invariant DecodeMags(cc, dec.State(), split, subfr, w) == DecodeMags(cc, old(dec.State()), split, 0, Fresh)
    {
      ghost var at;
      magRuns, posList, magList, at := DecodeSubframe(dec, cc, split[subfr], SUBFR_LEN * subfr, magRuns, posList, magList);
      w := Walk(magRuns, posList, magList, at, split[subfr] == 0);
    }
  }

  /** Signs in batches of up to fifteen, most significant first; each turns its magnitude in place. */
  method DecodeSignBlock(dec: RangeDecoder.RangeDecoder, mags: seq<int>) returns (syms: seq<RawSymbol>, amp: seq<int>)
    requires dec.Valid()
    modifies dec
    ensures dec.Valid() && (dec.State(), syms) == DecodeSigns(old(dec.State()), |mags|, [])
    ensures |Signs(syms)| == |mags| && amp == Signed(mags, Signs(syms))
  {
    hide Pow2, DecodeUniform, DecodeSigns, Signs, SignBits, SignBit, RangeDecoder.RangeDecoder.Valid, RangeDecoder.RangeDecoder.State;
    syms, amp := [], mags;
    var numPos, p := |mags|, 0;
    SignsSnoc([], RawSymbol(0, 0));
    while p < numPos
      invariant dec.Valid() && 0 <= p <= numPos && |amp| == numPos && |Signs(syms)| == p
      invariant DecodeSigns(dec.State(), numPos - p, syms) == DecodeSigns(old(dec.State()), numPos, [])
      invariant forall i :: 0 <= i < p ==> amp[i] == if Signs(syms)[i] then mags[i] else -mags[i]
      invariant forall i :: p <= i < numPos ==> amp[i] == mags[i]
    {
      var nbits := numPos - p;
      if nbits >= 15 { nbits := 15; }
      SmallPow2(nbits);
      SignStep(dec.State(), numPos - p, syms);
      var sym := dec.DecodeRawSymbol(nbits);
      SignsSnoc(syms, RawSymbol(sym, nbits));
      BitsOf(RawSymbol(sym, nbits));
      syms := syms + [RawSymbol(sym, nbits)];
      amp := TurnBatch(amp, p, sym, nbits);
      p := p + nbits;
    }
    NoSignsLeft(dec.State(), syms);
  }

  lemma NoSignsLeft(d: Dec, acc: seq<RawSymbol>)
    requires DecRange(d)
    ensures DecodeSigns(d, 0, acc) == (d, acc)
  {
  }

  lemma SignStep(d: Dec, n: nat, acc: seq<RawSymbol>)
    requires DecRange(d) && n > 0
    ensures var nb := Min(15, n);
      0 < Pow2(nb) <= BOT && var (d1, s) := DecodeUniform(d, Pow2(nb));
      s < Pow2(nb) && DecRange(d1) && DecodeSigns(d, n, acc) == DecodeSigns(d1, n - nb, acc + [RawSymbol(s, nb)])
  {
    hide Pow2, DecodeUniform;
    SmallPow2(Min(15, n));
  }

  lemma BitsOf(s: RawSymbol)
    ensures |SignBits(s)| == s.nbits && forall q :: 0 <= q < s.nbits ==> SignBits(s)[q] == SignBit(s.sym, s.nbits, q)
  {
  }

  lemma {:induction false} SignsSnoc(syms: seq<RawSymbol>, s: RawSymbol)
    ensures Signs(syms + [s]) == Signs(syms) + SignBits(s) && Signs([]) == []
    decreases |syms|
  {
    if syms == [] {
      assert Signs([s]) == SignBits(s) + Signs([]);
    } else {
      assert (syms + [s])[1..] == syms[1..] + [s];
      SignsSnoc(syms[1..], s);
    }
  }

  /** The field is aligned to 16 bits and shifted left once per sign; bit 15 decides. */
  method TurnBatch(mags: seq<int>, p: nat, sym: nat, nbits: nat) returns (amp: seq<int>)
    requires 1 <= nbits <= 15 && p + nbits <= |mags| && sym < Pow2(nbits)
    ensures |amp| == |mags|
    ensures forall i :: 0 <= i < |mags| ==>
      amp[i] == if p <= i < p + nbits && !SignBit(sym, nbits, i - p) then -mags[i] else mags[i]
  {
    hide Pow2, Shr, Shl;
    amp := mags;
    FieldFits(sym, nbits, 0);
    var bitfield: u32 := Shl(sym, 16 - nbits);
    for q := p to p + nbits
      invariant |amp| == |mags| && bitfield == Shl(sym, 16 - nbits + (q - p))
      invariant forall i :: 0 <= i < |mags| ==>
        amp[i] == if p <= i < q && !SignBit(sym, nbits, i - p) then -mags[i] else mags[i]
    {
      FieldBit(sym, nbits, q - p);
      var sign := bitfield / 0x4000 % 4 / 2 * 2 - 1;
      amp := amp[q := amp[q] * sign];
      FieldFits(sym, nbits, q - p + 1);
      bitfield := bitfield * 2 % WORD;
    }
  }

  lemma FieldFits(sym: nat, nbits: nat, q: nat)
    requires 1 <= nbits <= 15 && q <= nbits && sym < Pow2(nbits)
    ensures Shl(sym, 16 - nbits + q) < 0x8000_0000
    ensures q > 0 ==> Shl(sym, 16 - nbits + q) == 2 * Shl(sym, 16 - nbits + (q - 1))
  {
    ShlBelow(sym, 16 - nbits + q, nbits, 0);
    Pow2Mono(16 + q, 31);
    Pow2Values();
  }

  /** Bit 15 of the shifted field is bit nbits - 1 - q of the symbol. */
  lemma FieldBit(sym: nat, nbits: nat, q: nat)
    requires 1 <= nbits <= 15 && q < nbits
    ensures var f := Shl(sym, 16 - nbits + q);
      f / 0x4000 % 4 / 2 * 2 - 1 == if SignBit(sym, nbits, q) then 1 else -1
  {
    hide Shl, Shr, Pow2;
    var f := Shl(sym, 16 - nbits + q);
    ShiftedField(sym, 16 - nbits + q, nbits - 1 - q);
    ShrIsQuotient(f, 15);
    Pow15();
    TopBit(f);
  }

  lemma ShiftedField(sym: nat, a: nat, b: nat)
    requires a + b == 15
    ensures Shr(Shl(sym, a), 15) == Shr(sym, b)
  {
    hide Shl, Shr, Pow2;
    SplitBits(sym, b);
    ShlAdd(Shl(Shr(sym, b), b), Low(sym, b), a);
    ShlShl(Shr(sym, b), b, a);
    ShlBelow(Low(sym, b), a, b, 0);
    PowPositive(a);
    BitsUnique(Shl(sym, a), 15, Shr(sym, b), Shl(Low(sym, b), a));
  }

  lemma PowPositive(a: nat)
    ensures Pow2(a) > 0
  {
  }

  lemma Pow15()
    ensures Pow2(15) == 0x8000
  {
    Pow2Values();
    assert Pow2(16) == 2 * Pow2(15);
  }

  lemma TopBit(f: nat)
    ensures f / 0x4000 % 4 / 2 == f / 0x8000 % 2
  {
  }

  datatype PulseResult = PulseResult(pulses: seq<int>, subfr: seq<int>, magRuns: seq<int>, signSyms: seq<RawSymbol>)

  /** Decodes the excitation of one internal frame. */
  method DecodeSmplPulses(dec: RangeDecoder.RangeDecoder, cc: CcTables) returns (res: PulseResult)
    requires dec.Valid() && WellFormed(cc)
    modifies dec
    ensures dec.Valid()
    ensures var (e, p) := DecodeParams(cc, old(dec.State()));
      dec.State() == e && (res.subfr, res.magRuns, res.signSyms) == (p.subfr, p.magRuns, p.signSyms)
      && Replayable(p) && res.pulses == Expand(p)
  {
    hide WellFormed, DecodeSplit, DecodeMags, DecodeSigns, WalkAll, RunsOk, Batches, Scatter, CountTable, DecodeCdf, Signs, Signed, RangeDecoder.RangeDecoder.Valid, RangeDecoder.RangeDecoder.State;
    ghost var d := dec.State();
    ParsedParams(cc, d);
    WalkOfParams(cc, d);
    var total := DecodeCount(dec);
    TotalInRange(d);
    var split := DecodePulseSubframeCounts(dec, cc, total);
    var magRuns, posList, magList := DecodeMagnitudes(dec, cc, split);
    var syms, amp := DecodeSignBlock(dec, magList);
    var pulses := Place(posList, amp);
    res := PulseResult(pulses, split, magRuns, syms);
  }

  /** Scatters the signed magnitudes into a silent frame. */
  method Place(posList: seq<int>, amp: seq<int>) returns (pulses: seq<int>)
    requires |posList| == |amp|
    ensures pulses == Scatter(posList, amp)
  {
    hide Scatter;
    pulses := Zeros(INTF_LEN);
    NoneScattered(posList, amp);
    for i := 0 to |posList|
      invariant |pulses| == INTF_LEN && pulses == Scatter(posList[..i], amp[..i])
    {
      var pp := posList[i];
      ScatterNext(posList, amp, i);
      if pp >= 0 && pp < |pulses| { pulses := pulses[pp := amp[i]]; }
    }
    assert posList[..|posList|] == posList && amp[..|posList|] == amp;
  }

  lemma TotalInRange(d: Dec)
    requires DecRange(d)
    ensures 0 <= DecodeCdf(d, CountTable()).1 <= FRAME_PULSES
  {
    hide DecodeCdf, TriT;
    assert Table(CountTable());
  }

  lemma NoneScattered(pos: seq<int>, amp: seq<int>)
    requires |pos| == |amp|
    ensures Scatter(pos[..0], amp[..0]) == Zeros(INTF_LEN)
  {
  }

  lemma ScatterNext(pos: seq<int>, amp: seq<int>, i: nat)
    requires |pos| == |amp| && i < |pos|
    ensures var v := Scatter(pos[..i], amp[..i]);
      Scatter(pos[..i + 1], amp[..i + 1]) == if 0 <= pos[i] < INTF_LEN then v[pos[i] := amp[i]] else v
  {
    assert pos[..i + 1][..i] == pos[..i] && amp[..i + 1][..i] == amp[..i];
  }

  lemma ParsedParams(cc: CcTables, d: Dec)
    requires WellFormed(cc) && DecRange(d)
    ensures Replayable(DecodeParams(cc, d).1)
  {
    PulsesTotal(cc, d);
  }

  /** The walk the decoder took is the one its recorded symbols describe. */
  lemma WalkOfParams(cc: CcTables, d: Dec)
    requires WellFormed(cc) && DecRange(d) && Replayable(DecodeParams(cc, d).1)
    ensures var (d1, total) := DecodeCdf(d, CountTable());
      var (d2, subfr) := DecodeSplit(cc, d1, total);
      var w, p := DecodeMags(cc, d2, subfr, 0, Fresh).1, DecodeParams(cc, d).1;
      w == WalkAll(p.subfr, p.magRuns, 0, Fresh)
  {
    hide WellFormed, DecodeSplit, DecodeMags, DecodeSigns, WalkAll, RunsOk, Batches, CountTable, DecodeCdf;
    TotalInRange(d);
    var (d1, total) := DecodeCdf(d, CountTable());
    var (d2, subfr) := DecodeSplit(cc, d1, total);
    var runs := MagsWalk(cc, d2, subfr);
  }

  lemma MagsWalk(cc: CcTables, d: Dec, subfr: seq<int>) returns (runs: seq<int>)
    requires WellFormed(cc) && DecRange(d) && Counts(subfr)
    ensures var w := DecodeMags(cc, d, subfr, 0, Fresh).1;
      RunsOk(subfr, runs, 0) && w.runs == runs && w == WalkAll(subfr, runs, 0, Fresh)
  {
    hide WellFormed, DecodeMags, WalkAll, RunsOk, MagOps, Reading.Reads;
    runs := PulseProof.MagsParsed(cc, d, subfr, 0, Fresh);
    RunsOfWalk(subfr, runs);
  }

  lemma RunsOfWalk(subfr: seq<int>, runs: seq<int>)
    requires Counts(subfr) && RunsOk(subfr, runs, 0)
    ensures WalkAll(subfr, runs, 0, Fresh).runs == runs
  {
    hide WalkAll, RunsOk;
    WalkAllSound(subfr, runs, 0, Fresh);
    assert [] + runs == runs;
  }

  // ---------------------------------------------------------------- building

  method SubframeNorms(pulse: seq<int>) returns (subfr: seq<int>)
    requires |pulse| == INTF_LEN
    ensures subfr == Norms(pulse)
  {
    hide L1;
    subfr := [];
    for sf := 0 to SUBFRAMES
      invariant |subfr| == sf && forall j :: 0 <= j < sf ==> subfr[j] == Norm(pulse, j)
    {
      var s := 0;
      for n := sf * SUBFR_LEN to (sf + 1) * SUBFR_LEN
        invariant s == L1(pulse, n) - L1(pulse, sf * SUBFR_LEN)
      {
        L1Next(pulse, n);
        var a := pulse[n];
        if a < 0 { a := -a; }
        s := s + a;
      }
      subfr := subfr + [s];
    }
  }

  lemma L1Next(v: seq<int>, n: nat)
    requires n < |v|
    ensures L1(v, n + 1) == L1(v, n) + Abs(v[n])
  {
  }

  /** Runs and signs of one subframe appended to those before. */
  method SubframeParams(pulse: seq<int>, basePos: nat, runs0: seq<int>, signs0: seq<bool>, ghost w0: Walk)
    returns (magRuns: seq<int>, signs: seq<bool>, ghost w: Walk)
    requires |pulse| == INTF_LEN && basePos + SUBFR_LEN <= INTF_LEN
    requires w0.first && w0.at == basePos && w0.runs == runs0 && signs0 == SignsOf(pulse, basePos)
    ensures w == PutAll(pulse, basePos, basePos + SUBFR_LEN, w0) && magRuns == w.runs
    ensures signs == SignsOf(pulse, basePos + SUBFR_LEN)
  {
    magRuns, signs, w := runs0, signs0, w0;
    var runPos, first := basePos, true;
    for n := basePos to basePos + SUBFR_LEN
      invariant w == PutAll(pulse, basePos, n, w0)
      invariant magRuns == w.runs && runPos == w.at && first == w.first && (first ==> runPos == basePos)
      invariant signs == SignsOf(pulse, n)
    {
      w := Put(w, n, pulse[n]);
      assert SignsOf(pulse, n + 1) == SignsOf(pulse, n) + (if pulse[n] != 0 then [pulse[n] > 0] else []);
      if pulse[n] != 0 {
        var mag := pulse[n];
        if mag < 0 { mag := -mag; }
        var m;
        if first { m := n - basePos; } else { m := n - runPos; }
        magRuns := magRuns + [m];
        runPos := n;
        if mag > 1 {
          ghost var head := magRuns;
          for k := 0 to mag - 1
            invariant magRuns == head + Zeros(k)
          {
            assert Zeros(k + 1) == Zeros(k) + [0];
            magRuns := magRuns + [0];
          }
        }
        signs := signs + [pulse[n] > 0];
        first := false;
      }
    }
  }

  lemma SilentSubframe(v: seq<int>, base: nat, n: nat, w: Walk)
    requires |v| == INTF_LEN && base <= n <= INTF_LEN && L1(v, n) == L1(v, base)
    ensures PutAll(v, base, n, w) == w && SignsOf(v, n) == SignsOf(v, base)
    decreases n
  {
    if n > base {
      L1Rises(v, base, n - 1);
      SilentSubframe(v, base, n - 1, w);
    }
  }

  lemma {:induction false} L1Rises(v: seq<int>, a: nat, b: nat)
    requires a <= b <= |v|
    ensures L1(v, a) <= L1(v, b)
  {
    if a < b { L1Rises(v, a, b - 1); }
  }

  /** Signs to batches, the first sign in the most significant bit. */
  method BatchSigns(signs: seq<bool>) returns (signSyms: seq<RawSymbol>)
    ensures signSyms == PackSigns(signs)
  {
    signSyms := [];
    var p := 0;
    while p < |signs|
      invariant 0 <= p <= |signs| && signSyms + PackSigns(signs[p..]) == PackSigns(signs)
    {
      var nbits := |signs| - p;
      if nbits > 15 { nbits := 15; }
      var sym := PackBatch(signs[p..p + nbits]);
      assert signs[p..][..nbits] == signs[p..p + nbits] && signs[p..][nbits..] == signs[p + nbits..];
      signSyms := signSyms + [RawSymbol(sym, nbits)];
      p := p + nbits;
    }
    assert signSyms + [] == signSyms;
  }

  /** The bits set are disjoint, so or-ing them in adds them. */
  method PackBatch(bits: seq<bool>) returns (sym: nat)
    ensures sym == Pack(bits)
  {
    hide Shl;
    sym := 0;
    EmptyPack(|bits|);
    for q := 0 to |bits|
      invariant sym == Shl(Pack(bits[..q]), |bits| - q)
    {
      assert bits[..q + 1][..q] == bits[..q];
      var bit := if bits[q] then 1 else 0;
      ShlAdd(2 * Pack(bits[..q]), bit, |bits| - 1 - q);
      ShlShl(Pack(bits[..q]), 1, |bits| - 1 - q);
      ShlOne(Pack(bits[..q]));
      sym := sym + Shl(bit, |bits| - 1 - q);
    }
    assert bits[..|bits|] == bits;
    ShlNone(Pack(bits));
  }

  lemma EmptyPack(n: nat)
    ensures Shl(Pack([]), n) == 0
  {
    ShlIsProduct(0, n);
  }

  lemma ShlOne(x: nat)
    ensures Shl(x, 1) == 2 * x
  {
  }

  lemma ShlNone(x: nat)
    ensures Shl(x, 0) == x
  {
  }

  method BuildPulseParams(pulse: seq<int>) returns (pp: PulseParams)
    requires |pulse| == INTF_LEN
    ensures pp == BuildParams(pulse)
  {
    hide L1, PutAll, SignsOf, PackSigns;
    var subfr := SubframeNorms(pulse);
    var total := subfr[0] + subfr[1] + subfr[2] + subfr[3];
    var magRuns: seq<int>, signs: seq<bool> := [], [];
    ghost var w := Fresh;
    NoSigns(pulse);
    for sf := 0 to SUBFRAMES
      invariant w == Track(pulse, sf) && magRuns == w.runs && signs == SignsOf(pulse, SUBFR_LEN * sf)
    {
      var basePos := SUBFR_LEN * sf;
      if subfr[sf] <= 0 {
        L1Rises(pulse, basePos, basePos + SUBFR_LEN);
        SilentSubframe(pulse, basePos, basePos + SUBFR_LEN, Begin(w, basePos));
        w := Begin(w, basePos);
      } else {
        magRuns, signs, w := SubframeParams(pulse, basePos, magRuns, signs, Begin(w, basePos));
      }
    }
    var signSyms := BatchSigns(signs);
    pp := PulseParams(total, subfr, magRuns, signSyms);
  }

  lemma NoSigns(v: seq<int>)
    ensures SignsOf(v, 0) == []
  {
  }
}
