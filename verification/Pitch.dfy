/** Long-term prediction gains and the lag contour of a voiced internal frame. */
module Pitch {
  import opened Words
  import opened Arith
  import opened RangeSpec
  import opened CdfSpec
  import opened CmfTables
  import opened CcTables
  import opened PitchTables
  import opened Reading
  import opened Gains
  import Lsf

  datatype PitchParams = PitchParams(gainIdx: seq<int>, filtIdx: seq<int>, contour: int, laginds: seq<int>)

  predicate InBlock(blk: int, idx: int) { BLOCK * blk <= idx < BLOCK * blk + BLOCK }

  /** Predictor values a run of frames can leave behind. */
  predicate Ready(st: Lsf.Predictor)
  {
    && -1 <= st.gainIdx < ACBG_N && -1 <= st.filtIdx < FCBG_N
    && (st.lagBlk == -1 || (0 <= st.lagBlk < NUM_BLOCKS && InBlock(st.lagBlk, st.lagIdx)))
  }

  // ---------------------------------------------------------------- gains and filters

  predicate LtpFits(counts: seq<int>, gain: seq<int>, filt: seq<int>)
    requires SubframeCounts(counts)
  {
    && |gain| == SUBFRAMES && |filt| == SUBFRAMES
    && forall sf :: 0 <= sf < SUBFRAMES ==> 0 <= gain[sf] < ACBG_N && (if counts[sf] > 0 then 0 <= filt[sf] < FCBG_N else filt[sf] == -1)
  }

  function FiltCdf(cc: CcTables, prev: int): (w: seq<u16>)
    requires WellFormed(cc) && -1 <= prev < FCBG_N
    ensures Strict(w) && Table(w) && |w| == FCBG_N + 1
  {
    if prev == -1 then cc.fcbgainsV else FcbgainVDelta(cc, prev)
  }

  function NextFilt(cnt: int, filt: int, prev: int): int { if cnt > 0 then filt else prev }

  function FiltOps(cc: CcTables, cnt: int, filt: int, prev: int): (ops: seq<Op>)
    requires WellFormed(cc) && -1 <= prev < FCBG_N && (cnt > 0 ==> 0 <= filt < FCBG_N)
    ensures AllCodable(ops)
  {
    if cnt > 0 then [CdfOp(FiltCdf(cc, prev), filt)] else []
  }

  function LtpOps(cc: CcTables, counts: seq<int>, gain: seq<int>, filt: seq<int>, sf: nat, prevGain: int, prevFilt: int): (ops: seq<Op>)
    requires WellFormed(cc) && SubframeCounts(counts) && LtpFits(counts, gain, filt) && sf <= SUBFRAMES
    requires -1 <= prevGain < ACBG_N && -1 <= prevFilt < FCBG_N
    ensures AllCodable(ops)
    decreases SUBFRAMES - sf
  {
    hide WellFormed, AcbgainRow, FiltOps, Strict;
    if sf == SUBFRAMES then []
    else
      StrictCodes(AcbgainRow(cc, prevGain), gain[sf]);
      [CdfOp(AcbgainRow(cc, prevGain), gain[sf])]
      + (FiltOps(cc, counts[sf], filt[sf], prevFilt)
         + LtpOps(cc, counts, gain, filt, sf + 1, gain[sf], NextFilt(counts[sf], filt[sf], prevFilt)))
  }

  function DecodeFilt(cc: CcTables, d: Dec, cnt: int, prev: int): (r: (Dec, int))
    requires WellFormed(cc) && DecRange(d) && -1 <= prev < FCBG_N
    ensures DecRange(r.0) && (if cnt > 0 then 0 <= r.1 < FCBG_N else r.1 == -1)
  {
    if cnt > 0 then DecodeCdf(d, FiltCdf(cc, prev)) else (d, -1)
  }

  function DecodeLtp(cc: CcTables, d: Dec, counts: seq<int>, gain: seq<int>, filt: seq<int>, prevGain: int, prevFilt: int)
    : (r: (Dec, seq<int>, seq<int>))
    requires WellFormed(cc) && DecRange(d) && SubframeCounts(counts) && |gain| == |filt| <= SUBFRAMES
    requires -1 <= prevGain < ACBG_N && -1 <= prevFilt < FCBG_N
    ensures DecRange(r.0) && |r.1| == |r.2| == SUBFRAMES && gain <= r.1 && filt <= r.2
    decreases SUBFRAMES - |gain|
  {
    hide WellFormed, AcbgainRow, DecodeFilt, DecodeCdf;
    var sf := |gain|;
    if sf == SUBFRAMES then (d, gain, filt)
    else
      var (d1, gi) := DecodeCdf(d, AcbgainRow(cc, prevGain));
      var (d2, fi) := DecodeFilt(cc, d1, counts[sf], prevFilt);
      DecodeLtp(cc, d2, counts, gain + [gi], filt + [fi], gi, NextFilt(counts[sf], fi, prevFilt))
  }

  /** The filter predictor after n subframes. */
  function FiltUpto(counts: seq<int>, filt: seq<int>, n: nat, prev: int): int
    requires SubframeCounts(counts) && n <= |filt| <= SUBFRAMES
  {
    if n == 0 then prev else NextFilt(counts[n - 1], filt[n - 1], FiltUpto(counts, filt, n - 1, prev))
  }

  /** It is the filter of the last subframe so far that had pulses, if any had. */
  lemma {:induction false} FiltIsLast(counts: seq<int>, filt: seq<int>, n: nat, prev: int, j: int)
    requires SubframeCounts(counts) && n <= |filt| <= SUBFRAMES && -1 <= j < n
    requires (j >= 0 ==> counts[j] > 0) && forall i :: j < i < n ==> counts[i] <= 0
    ensures FiltUpto(counts, filt, n, prev) == if j < 0 then prev else filt[j]
  {
    if j + 1 < n { FiltIsLast(counts, filt, n - 1, prev, j); }
  }

  function GainWeight(cc: CcTables, gi: int): int
    requires WellFormed(cc) && 0 <= gi < ACBG_N
  {
    var (w0, w2) := AcbgainWeights(cc, gi);
    var a: int, b: int := w0, w2;
    a + 2 * b
  }

  function GainSum(cc: CcTables, gain: seq<int>): int
    requires WellFormed(cc) && forall i :: 0 <= i < |gain| ==> 0 <= gain[i] < ACBG_N
  {
    if gain == [] then 0 else GainSum(cc, gain[..|gain| - 1]) + GainWeight(cc, gain[|gain| - 1])
  }

  /** Division by four that rounds towards zero. */
  function Quarter(x: int): int { if x >= 0 then x / 4 else -(-x / 4) }

  /** Which of the three lag-step tables the mean gain selects. */
  function Mode(avgGain: int): (m: nat)
    ensures m < 3
  {
    if avgGain >= 10007 then (if avgGain < 14085 then 1 else 2) else 0
  }

  function ModeOf(cc: CcTables, gain: seq<int>): (m: nat)
    requires WellFormed(cc) && forall i :: 0 <= i < |gain| ==> 0 <= gain[i] < ACBG_N
    ensures m < 3
  {
    Mode(Quarter(GainSum(cc, gain)))
  }

  /**
   The step table by the four gains' codebook entries, the second of each counting twice: their sum is held against four times
   10007 and four times 14085.
   */
  lemma ModeByTotal(cc: CcTables, gain: seq<int>)
    requires WellFormed(cc) && |gain| == SUBFRAMES && forall i :: 0 <= i < |gain| ==> 0 <= gain[i] < ACBG_N
    ensures var cb := cc.acbgainsCbHr;
      var w0: int, w1: int, w2: int, w3: int := cb[2 * gain[0]], cb[2 * gain[1]], cb[2 * gain[2]], cb[2 * gain[3]];
      var v0: int, v1: int, v2: int, v3: int := cb[2 * gain[0] + 1], cb[2 * gain[1] + 1], cb[2 * gain[2] + 1], cb[2 * gain[3] + 1];
      var total := w0 + w1 + w2 + w3 + 2 * (v0 + v1 + v2 + v3);
      ModeOf(cc, gain) == if total < 40028 then 0 else if total < 56340 then 1 else 2
  {
    hide WellFormed;
    SumSnoc(cc, gain, 4);
    SumSnoc(cc, gain, 3);
    SumSnoc(cc, gain, 2);
    SumSnoc(cc, gain, 1);
    assert gain[..4] == gain && gain[..0] == [];
  }

  lemma SumSnoc(cc: CcTables, gain: seq<int>, n: nat)
    requires WellFormed(cc) && 0 < n <= |gain| && forall i :: 0 <= i < |gain| ==> 0 <= gain[i] < ACBG_N
    ensures GainSum(cc, gain[..n]) == GainSum(cc, gain[..n - 1]) + GainWeight(cc, gain[n - 1])
  {
    hide WellFormed, GainWeight;
    assert gain[..n][..n - 1] == gain[..n - 1];
  }

  // ---------------------------------------------------------------- which contour

  function RangeCmf(t: PitchTables, b: int): (w: seq<u16>)
    requires Consistent(t) && 0 <= b < NUM_BLOCKS
    ensures Strict(w) && Table(w) && |w| == t.ranges[b].1 - t.ranges[b].0 + 2
  {
    var w := t.idxCmf[t.ranges[b].0..t.ranges[b].1 + 2];
    ShapeIsStrict(t.idxCmf);
    w
  }

  function FirstBlock(t: PitchTables, c: int): (b: int)
    requires Consistent(t) && 0 <= c < CONTOURS
    ensures 0 <= b < NUM_BLOCKS && t.ranges[b].0 <= t.toIdx[c] - 1 <= t.ranges[b].1
  {
    assert SegShape(t.segs[c]);
    t.segs[c].blocks[0]
  }

  function ContourOps(t: PitchTables, prevBlk: int, c: int): (ops: seq<Op>)
    requires Consistent(t) && -1 <= prevBlk < NUM_BLOCKS && 0 <= c < CONTOURS
    ensures AllCodable(ops)
  {
    PlainTables(t, prevBlk);
    if prevBlk < 0 then
      StrictCodes(t.idxCmf, t.toIdx[c] - 1);
      [CdfOp(t.idxCmf, t.toIdx[c] - 1)]
    else
      var b := FirstBlock(t, c);
      StrictCodes(t.moveCmfs[prevBlk], b);
      StrictCodes(RangeCmf(t, b), t.toIdx[c] - 1 - t.ranges[b].0);
      [CdfOp(t.moveCmfs[prevBlk], b)] + [CdfOp(RangeCmf(t, b), t.toIdx[c] - 1 - t.ranges[b].0)]
  }

  lemma PlainTables(t: PitchTables, prevBlk: int)
    requires Built(t) && -1 <= prevBlk < NUM_BLOCKS
    ensures Strict(t.idxCmf) && Table(t.idxCmf)
    ensures prevBlk >= 0 ==> Strict(t.moveCmfs[prevBlk]) && Table(t.moveCmfs[prevBlk])
  {
    ShapeIsStrict(t.idxCmf);
    if prevBlk >= 0 { ShapeIsStrict(t.moveCmfs[prevBlk]); }
  }

  /** The lag symbol, whole or in two steps. */
  function DecodeLagSymbol(t: PitchTables, d: Dec, prevBlk: int): (r: (Dec, int))
    requires Consistent(t) && DecRange(d) && -1 <= prevBlk < NUM_BLOCKS
    ensures DecRange(r.0) && 0 <= r.1 < CONTOURS
  {
    hide Contour, Built, DecodeCdf;
    PlainTables(t, prevBlk);
    TableSizes(t);
    if prevBlk < 0 then DecodeCdf(d, t.idxCmf)
    else
      var (d1, di) := DecodeCdf(d, t.moveCmfs[prevBlk]);
      var (d2, sym) := DecodeCdf(d1, RangeCmf(t, di));
      (d2, sym + t.ranges[di].0)
  }

  lemma TableSizes(t: PitchTables)
    requires Built(t)
    ensures |t.idxCmf| == CONTOURS + 1 && |t.moveCmfs| == NUM_BLOCKS && |t.ranges| == NUM_BLOCKS && |t.toIdx| == |t.segs| == CONTOURS
    ensures forall b :: 0 <= b < NUM_BLOCKS ==> |t.moveCmfs[b]| == NUM_BLOCKS + 1
  {
  }

  function DecodeContour(t: PitchTables, d: Dec, prevBlk: int): (r: (Dec, int))
    requires Consistent(t) && DecRange(d) && -1 <= prevBlk < NUM_BLOCKS
    ensures DecRange(r.0) && 0 <= r.1 < CONTOURS
  {
    hide Contour, Built, DecodeLagSymbol;
    TableSizes(t);
    var (d1, lag) := DecodeLagSymbol(t, d, prevBlk);
    Onto(t, lag);
    (d1, FindContour(t, lag, 0))
  }

  // ---------------------------------------------------------------- the lags along it

  function RepeatLag(x: int, n: nat): (s: seq<int>)
    ensures |s| == n && forall i :: 0 <= i < n ==> s[i] == x
  {
    seq(n, _ => x)
  }

  lemma {:induction false} CoveredRises(s: BlockSeg, a: nat, b: nat)
    requires SegShape(s) && a <= b <= |s.seglens|
    ensures Covered(s, a) + (b - a) <= Covered(s, b)
  {
    if a < b { CoveredRises(s, a, b - 1); }
  }

  /** One index per segment, inside the segment's block. */
  predicate LagsFit(s: BlockSeg, lag: seq<int>)
    requires Contour(s)
  {
    && |lag| == BLOCK_LAGS
    && forall k :: 0 <= k < |s.blocks| ==> SegLag(s, lag, k)
  }

  predicate SegLag(s: BlockSeg, lag: seq<int>, k: nat)
    requires Contour(s) && |lag| == BLOCK_LAGS && k < |s.blocks|
  {
    CoveredRises(s, k, |s.seglens|);
    CoveredRises(s, k + 1, |s.seglens|);
    InBlock(s.blocks[k], lag[Covered(s, k)]) && lag[Covered(s, k)..Covered(s, k + 1)] == RepeatLag(lag[Covered(s, k)], s.seglens[k])
  }

  function LagAt(s: BlockSeg, lag: seq<int>, k: nat): (idx: int)
    requires Contour(s) && LagsFit(s, lag) && k < |s.blocks|
    ensures InBlock(s.blocks[k], idx) && Covered(s, k) < BLOCK_LAGS && idx == lag[Covered(s, k)]
  {
    assert SegLag(s, lag, k);
    CoveredRises(s, k, |s.seglens|);
    lag[Covered(s, k)]
  }

  /** The 64 steps into block blk as seen from prevIdx, out of the 319 the table holds: never past its end. */
  function DeltaWindow(t: PitchTables, mode: nat, prevBlk: int, prevIdx: int, blk: int): (w: seq<u16>)
    requires Built(t) && mode < 3 && InBlock(prevBlk, prevIdx) && Near(prevBlk, blk)
    ensures Strict(w) && Table(w) && |w| == BLOCK + 1
    ensures 0 <= BLOCK * blk - prevIdx + 2 * BLOCK - 1 && BLOCK * blk - prevIdx + 3 * BLOCK <= |t.deltaCmfs[mode]|
  {
    var base := BLOCK * blk - prevIdx + 2 * BLOCK - 1;
    ShapeIsStrict(t.deltaCmfs[mode]);
    t.deltaCmfs[mode][base..base + BLOCK + 1]
  }

  /** The blocks counted as near are exactly those whose steps the table holds from every index of the block before. */
  lemma NearReaches(prevBlk: int, blk: int)
    ensures Near(prevBlk, blk)
      <==> forall prevIdx :: InBlock(prevBlk, prevIdx) ==> 0 <= BLOCK * blk - prevIdx + 2 * BLOCK - 1 && BLOCK * blk - prevIdx + 3 * BLOCK <= 5 * BLOCK
  {
    var low, high := BLOCK * prevBlk, BLOCK * prevBlk + BLOCK - 1;
    assert InBlock(prevBlk, low) && InBlock(prevBlk, high);
  }

  /** Seen from prevIdx, the symbol for idx has the width of the step between them, whichever block they are in. */
  lemma LagStep(t: PitchTables, mode: nat, prevBlk: int, prevIdx: int, blk: int, idx: int)
    requires Built(t) && mode < 3 && InBlock(prevBlk, prevIdx) && Near(prevBlk, blk) && InBlock(blk, idx)
    ensures 0 <= idx - prevIdx + 127 && idx - prevIdx + 128 < |t.deltaCmfs[mode]|
    ensures var w := DeltaWindow(t, mode, prevBlk, prevIdx, blk);
      w[idx - BLOCK * blk + 1] - w[idx - BLOCK * blk] == t.deltaCmfs[mode][idx - prevIdx + 128] - t.deltaCmfs[mode][idx - prevIdx + 127]
  {
    hide Built;
    var w := DeltaWindow(t, mode, prevBlk, prevIdx, blk);
    LagWindow(t, mode, prevBlk, prevIdx, blk);
  }

  lemma LagWindow(t: PitchTables, mode: nat, prevBlk: int, prevIdx: int, blk: int)
    requires Built(t) && mode < 3 && InBlock(prevBlk, prevIdx) && Near(prevBlk, blk)
    ensures var base := BLOCK * blk - prevIdx + 2 * BLOCK - 1;
      0 <= base && base + BLOCK + 1 <= |t.deltaCmfs[mode]| && DeltaWindow(t, mode, prevBlk, prevIdx, blk) == t.deltaCmfs[mode][base..base + BLOCK + 1]
  {
  }

  function SegOps(t: PitchTables, mode: nat, s: BlockSeg, lag: seq<int>, k: nat, prevBlk: int, prevIdx: int): (ops: seq<Op>)
    requires Built(t) && mode < 3 && Contour(s) && LagsFit(s, lag) && k <= |s.blocks| && InBlock(prevBlk, prevIdx)
    requires k < |s.blocks| ==> Near(prevBlk, s.blocks[k])
    ensures AllCodable(ops)
    decreases |s.blocks| - k
  {
    hide Built, DeltaWindow, LagsFit;
    if k == |s.blocks| then []
    else
      var blk, idx := s.blocks[k], LagAt(s, lag, k);
      StrictCodes(DeltaWindow(t, mode, prevBlk, prevIdx, blk), idx - BLOCK * blk);
      [CdfOp(DeltaWindow(t, mode, prevBlk, prevIdx, blk), idx - BLOCK * blk)] + SegOps(t, mode, s, lag, k + 1, blk, idx)
  }

  function DecodeSegs(t: PitchTables, d: Dec, mode: nat, s: BlockSeg, k: nat, prevBlk: int, prevIdx: int, acc: seq<int>): (r: (Dec, seq<int>))
    requires Built(t) && DecRange(d) && mode < 3 && Contour(s) && k <= |s.blocks| && InBlock(prevBlk, prevIdx)
    requires k < |s.blocks| ==> Near(prevBlk, s.blocks[k])
    requires |acc| == Covered(s, k)
    ensures DecRange(r.0) && |r.1| == BLOCK_LAGS && acc <= r.1
    decreases |s.blocks| - k
  {
    hide Built, DeltaWindow, DecodeCdf;
    if k == |s.blocks| then (d, acc)
    else
      var blk := s.blocks[k];
      var (d1, sym) := DecodeCdf(d, DeltaWindow(t, mode, prevBlk, prevIdx, blk));
      DecodeSegs(t, d1, mode, s, k + 1, blk, BLOCK * blk + sym, acc + RepeatLag(BLOCK * blk + sym, s.seglens[k]))
  }

  /** The first lag needs no fine symbol when the contour starts near the block before. */
  predicate Predicted(prevBlk: int, blk: int) { prevBlk >= 0 && Near(prevBlk, blk) }

  function FineOp(blk: nat, idx: int): (op: Op)
    requires InBlock(blk, idx)
    ensures Codable(op)
  {
    Sym(idx - BLOCK * blk, idx - BLOCK * blk + 1, BLOCK)
  }

  function TrackOps(t: PitchTables, mode: nat, prevBlk: int, prevIdx: int, s: BlockSeg, lag: seq<int>): (ops: seq<Op>)
    requires Built(t) && mode < 3 && Contour(s) && LagsFit(s, lag) && (prevBlk >= 0 ==> InBlock(prevBlk, prevIdx))
    ensures AllCodable(ops)
  {
    hide Built, SegOps;
    if Predicted(prevBlk, s.blocks[0]) then SegOps(t, mode, s, lag, 0, prevBlk, prevIdx)
    else [FineOp(s.blocks[0], LagAt(s, lag, 0))] + SegOps(t, mode, s, lag, 1, s.blocks[0], LagAt(s, lag, 0))
  }

  function DecodeTrack(t: PitchTables, d: Dec, mode: nat, prevBlk: int, prevIdx: int, s: BlockSeg): (r: (Dec, seq<int>))
    requires Built(t) && DecRange(d) && mode < 3 && Contour(s) && (prevBlk >= 0 ==> InBlock(prevBlk, prevIdx))
    ensures DecRange(r.0) && |r.1| == BLOCK_LAGS
  {
    hide Built, DecodeSegs;
    if Predicted(prevBlk, s.blocks[0]) then DecodeSegs(t, d, mode, s, 0, prevBlk, prevIdx, [])
    else
      var (d1, sym) := DecodeUniform(d, BLOCK);
      DecodeSegs(t, d1, mode, s, 1, s.blocks[0], BLOCK * s.blocks[0] + sym, RepeatLag(BLOCK * s.blocks[0] + sym, s.seglens[0]))
  }

  // ---------------------------------------------------------------- the block

  predicate Valid(cc: CcTables, t: PitchTables, counts: seq<int>, p: PitchParams)
    requires WellFormed(cc) && Consistent(t) && SubframeCounts(counts)
  {
    LtpFits(counts, p.gainIdx, p.filtIdx) && 0 <= p.contour < CONTOURS && LagsFit(t.segs[p.contour], p.laginds)
  }

  /** Contour, then the lags along it. */
  function LagOps(t: PitchTables, mode: nat, st: Lsf.Predictor, c: int, lag: seq<int>): (ops: seq<Op>)
    requires Consistent(t) && Ready(st) && mode < 3 && 0 <= c < CONTOURS && LagsFit(t.segs[c], lag)
    ensures AllCodable(ops)
  {
    hide Built, Contour, ContourOps, TrackOps, LagsFit;
    TableSizes(t);
    ContourOps(t, st.lagBlk, c) + TrackOps(t, mode, st.lagBlk, st.lagIdx, t.segs[c], lag)
  }

  function PitchOps(cc: CcTables, t: PitchTables, counts: seq<int>, st: Lsf.Predictor, p: PitchParams): (ops: seq<Op>)
    requires WellFormed(cc) && Consistent(t) && SubframeCounts(counts) && Ready(st) && Valid(cc, t, counts, p)
    ensures AllCodable(ops)
  {
    hide WellFormed, Consistent, LtpOps, LagOps, LagsFit, LtpFits, ModeOf, Codable, AllCodable;
    FitsModes(counts, p.gainIdx, p.filtIdx);
    var a := LtpOps(cc, counts, p.gainIdx, p.filtIdx, 0, st.gainIdx, st.filtIdx);
    var b := LagOps(t, ModeOf(cc, p.gainIdx), st, p.contour, p.laginds);
    CatCodable(a, b);
    a + b
  }

  /** The predictors after the block: the encoder reads them off the contour and the last lag. */
  function After(t: PitchTables, counts: seq<int>, st: Lsf.Predictor, p: PitchParams): Lsf.Predictor
    requires Consistent(t) && SubframeCounts(counts) && 0 <= p.contour < CONTOURS
    requires |p.gainIdx| == |p.filtIdx| == SUBFRAMES && |p.laginds| == BLOCK_LAGS
  {
    var blocks := t.segs[p.contour].blocks;
    assert SegShape(t.segs[p.contour]);
    st.(gainIdx := p.gainIdx[SUBFRAMES - 1], filtIdx := FiltUpto(counts, p.filtIdx, SUBFRAMES, st.filtIdx),
        lagBlk := blocks[|blocks| - 1], lagIdx := p.laginds[BLOCK_LAGS - 1])
  }

  function DecodePitch(cc: CcTables, t: PitchTables, d: Dec, counts: seq<int>, st: Lsf.Predictor): (r: (Dec, PitchParams))
    requires WellFormed(cc) && Consistent(t) && DecRange(d) && SubframeCounts(counts) && Ready(st)
    ensures DecRange(r.0)
  {
    hide WellFormed, Built, Contour, DecodeLtp, DecodeContour, DecodeTrack;
    TableSizes(t);
    var (d1, gain, filt) := DecodeLtp(cc, d, counts, [], [], st.gainIdx, st.filtIdx);
    LtpParsed(cc, d, counts, [], [], st.gainIdx, st.filtIdx);
    var (d2, c) := DecodeContour(t, d1, st.lagBlk);
    var (d3, lag) := DecodeTrack(t, d2, ModeOf(cc, gain), st.lagBlk, st.lagIdx, t.segs[c]);
    (d3, PitchParams(gain, filt, c, lag))
  }

  // ---------------------------------------------------------------- reading what was written

  lemma FiltRead(cc: CcTables, d: Dec, cnt: int, filt: int, prev: int, e: Dec)
    requires WellFormed(cc) && DecRange(d) && -1 <= prev < FCBG_N && (if cnt > 0 then 0 <= filt < FCBG_N else filt == -1)
    requires Reads(d, FiltOps(cc, cnt, filt, prev), e)
    ensures DecodeFilt(cc, d, cnt, prev) == (e, filt)
  {
    hide WellFormed, Reads, DecodeCdf, FiltCdf;
    if cnt > 0 {
      StrictCodes(FiltCdf(cc, prev), filt);
      ReadCdf(d, FiltCdf(cc, prev), filt, e);
    } else {
      NothingRead(d, [], e);
    }
  }

  lemma LtpUnfolds(cc: CcTables, counts: seq<int>, gain: seq<int>, filt: seq<int>, sf: nat, prevGain: int, prevFilt: int)
    requires WellFormed(cc) && SubframeCounts(counts) && LtpFits(counts, gain, filt) && sf <= SUBFRAMES
    requires -1 <= prevGain < ACBG_N && -1 <= prevFilt < FCBG_N
    ensures |gain| == |filt| == SUBFRAMES
    ensures sf == SUBFRAMES ==> LtpOps(cc, counts, gain, filt, sf, prevGain, prevFilt) == []
    ensures sf < SUBFRAMES ==>
      && 0 <= gain[sf] < ACBG_N && (if counts[sf] > 0 then 0 <= filt[sf] < FCBG_N else filt[sf] == -1)
      && Codes(AcbgainRow(cc, prevGain), gain[sf])
      && LtpOps(cc, counts, gain, filt, sf, prevGain, prevFilt)
         == [CdfOp(AcbgainRow(cc, prevGain), gain[sf])]
            + (FiltOps(cc, counts[sf], filt[sf], prevFilt)
               + LtpOps(cc, counts, gain, filt, sf + 1, gain[sf], NextFilt(counts[sf], filt[sf], prevFilt)))
  {
    hide WellFormed, AcbgainRow, FiltOps;
    if sf < SUBFRAMES { StrictCodes(AcbgainRow(cc, prevGain), gain[sf]); }
  }

  lemma LtpPrefix(counts: seq<int>, gain: seq<int>, filt: seq<int>, sf: nat)
    requires SubframeCounts(counts) && LtpFits(counts, gain, filt) && sf <= SUBFRAMES
    ensures LtpSoFar(counts, gain[..sf], filt[..sf])
  {
  }

  lemma LtpDone(cc: CcTables, d: Dec, counts: seq<int>, gain: seq<int>, filt: seq<int>, prevGain: int, prevFilt: int)
    requires WellFormed(cc) && DecRange(d) && SubframeCounts(counts) && |gain| == |filt| == SUBFRAMES
    requires -1 <= prevGain < ACBG_N && -1 <= prevFilt < FCBG_N
    ensures DecodeLtp(cc, d, counts, gain, filt, prevGain, prevFilt) == (d, gain, filt)
  {
  }

  lemma {:induction false} LtpRead(cc: CcTables, d: Dec, counts: seq<int>, gain: seq<int>, filt: seq<int>, sf: nat, prevGain: int, prevFilt: int, e: Dec)
    requires WellFormed(cc) && DecRange(d) && SubframeCounts(counts) && LtpFits(counts, gain, filt) && sf <= SUBFRAMES
    requires -1 <= prevGain < ACBG_N && -1 <= prevFilt < FCBG_N
    requires Reads(d, LtpOps(cc, counts, gain, filt, sf, prevGain, prevFilt), e)
    ensures DecodeLtp(cc, d, counts, gain[..sf], filt[..sf], prevGain, prevFilt) == (e, gain, filt)
    decreases SUBFRAMES - sf
  {
    hide WellFormed, Reads, DecodeCdf, AcbgainRow, FiltOps, DecodeFilt, LtpOps, DecodeLtp, LtpFits, LtpSoFar, Codes;
    LtpUnfolds(cc, counts, gain, filt, sf, prevGain, prevFilt);
    LtpPrefix(counts, gain, filt, sf);
    if sf == SUBFRAMES {
      NothingRead(d, [], e);
      assert gain[..SUBFRAMES] == gain && filt[..SUBFRAMES] == filt;
      LtpDone(cc, d, counts, gain, filt, prevGain, prevFilt);
    } else {
      var row, next := AcbgainRow(cc, prevGain), NextFilt(counts[sf], filt[sf], prevFilt);
      var b, c := FiltOps(cc, counts[sf], filt[sf], prevFilt), LtpOps(cc, counts, gain, filt, sf + 1, gain[sf], next);
      var m1 := SplitAt(d, [CdfOp(row, gain[sf])], b + c, e);
      var m2 := SplitAt(m1, b, c, e);
      ReadCdf(d, row, gain[sf], m1);
      FiltRead(cc, m1, counts[sf], filt[sf], prevFilt, m2);
      LtpStep(cc, d, counts, gain[..sf], filt[..sf], prevGain, prevFilt);
      LtpRead(cc, m2, counts, gain, filt, sf + 1, gain[sf], next, e);
      assert gain[..sf + 1] == gain[..sf] + [gain[sf]] && filt[..sf + 1] == filt[..sf] + [filt[sf]];
    }
  }

  lemma LagSymbolRead(t: PitchTables, d: Dec, prevBlk: int, c: int, e: Dec)
    requires Consistent(t) && DecRange(d) && -1 <= prevBlk < NUM_BLOCKS && 0 <= c < CONTOURS
    requires Reads(d, ContourOps(t, prevBlk, c), e)
    ensures DecodeLagSymbol(t, d, prevBlk) == (e, t.toIdx[c] - 1)
  {
    hide Built, Contour, Reads, DecodeCdf, RangeCmf, FirstBlock, Strict;
    PlainTables(t, prevBlk);
    TableSizes(t);
    if prevBlk < 0 {
      StrictCodes(t.idxCmf, t.toIdx[c] - 1);
      ReadCdf(d, t.idxCmf, t.toIdx[c] - 1, e);
    } else {
      var b := FirstBlock(t, c);
      var sym := t.toIdx[c] - 1 - t.ranges[b].0;
      StrictCodes(t.moveCmfs[prevBlk], b);
      StrictCodes(RangeCmf(t, b), sym);
      var m := SplitAt(d, [CdfOp(t.moveCmfs[prevBlk], b)], [CdfOp(RangeCmf(t, b), sym)], e);
      ReadCdf(d, t.moveCmfs[prevBlk], b, m);
      ReadCdf(m, RangeCmf(t, b), sym, e);
    }
  }

  lemma ContourRead(t: PitchTables, d: Dec, prevBlk: int, c: int, e: Dec)
    requires Consistent(t) && DecRange(d) && -1 <= prevBlk < NUM_BLOCKS && 0 <= c < CONTOURS
    requires Reads(d, ContourOps(t, prevBlk, c), e)
    ensures DecodeContour(t, d, prevBlk) == (e, c)
  {
    hide Built, Contour, Reads, DecodeLagSymbol, ContourOps;
    LagSymbolRead(t, d, prevBlk, c, e);
    FindsOwn(t, c);
  }

  /** Appending a segment's lags to those before. */
  lemma SegmentLags(s: BlockSeg, lag: seq<int>, k: nat)
    requires Contour(s) && LagsFit(s, lag) && k < |s.blocks|
    ensures Covered(s, k + 1) <= BLOCK_LAGS
    ensures lag[..Covered(s, k)] + RepeatLag(LagAt(s, lag, k), s.seglens[k]) == lag[..Covered(s, k + 1)]
  {
    CoveredRises(s, k + 1, |s.seglens|);
    assert SegLag(s, lag, k);
    assert lag[..Covered(s, k + 1)] == lag[..Covered(s, k)] + lag[Covered(s, k)..Covered(s, k + 1)];
  }

  lemma {:induction false} SegsRead(t: PitchTables, d: Dec, mode: nat, s: BlockSeg, lag: seq<int>, k: nat, prevBlk: int, prevIdx: int, e: Dec)
    requires Built(t) && DecRange(d) && mode < 3 && Contour(s) && LagsFit(s, lag) && k <= |s.blocks| && InBlock(prevBlk, prevIdx)
    requires k < |s.blocks| ==> Near(prevBlk, s.blocks[k])
    requires Reads(d, SegOps(t, mode, s, lag, k, prevBlk, prevIdx), e)
    ensures Covered(s, k) <= BLOCK_LAGS && DecodeSegs(t, d, mode, s, k, prevBlk, prevIdx, lag[..Covered(s, k)]) == (e, lag)
    decreases |s.blocks| - k
  {
    hide Built, Reads, DecodeCdf, DeltaWindow, LagsFit, Strict, RepeatLag;
    if k == |s.blocks| {
      NothingRead(d, [], e);
      WholeLag(s, lag);
    } else {
      var blk, idx := s.blocks[k], LagAt(s, lag, k);
      var w := DeltaWindow(t, mode, prevBlk, prevIdx, blk);
      StrictCodes(w, idx - BLOCK * blk);
      SegmentLags(s, lag, k);
      CoveredRises(s, k, k + 1);
      var m := SplitAt(d, [CdfOp(w, idx - BLOCK * blk)], SegOps(t, mode, s, lag, k + 1, blk, idx), e);
      ReadCdf(d, w, idx - BLOCK * blk, m);
      SegsRead(t, m, mode, s, lag, k + 1, blk, idx, e);
    }
  }

  lemma WholeLag(s: BlockSeg, lag: seq<int>)
    requires Contour(s) && LagsFit(s, lag)
    ensures Covered(s, |s.blocks|) == |lag| == BLOCK_LAGS && lag[..|lag|] == lag
  {
  }

  lemma TrackRead(t: PitchTables, d: Dec, mode: nat, prevBlk: int, prevIdx: int, s: BlockSeg, lag: seq<int>, e: Dec)
    requires Built(t) && DecRange(d) && mode < 3 && Contour(s) && LagsFit(s, lag) && (prevBlk >= 0 ==> InBlock(prevBlk, prevIdx))
    requires Reads(d, TrackOps(t, mode, prevBlk, prevIdx, s, lag), e)
    ensures DecodeTrack(t, d, mode, prevBlk, prevIdx, s) == (e, lag)
  {
    hide Built, Reads, SegOps, DecodeSegs, DecodeUniform, LagsFit, RepeatLag;
    if Predicted(prevBlk, s.blocks[0]) {
      SegsRead(t, d, mode, s, lag, 0, prevBlk, prevIdx, e);
      FirstLags(s, lag);
    } else {
      var blk, idx := s.blocks[0], LagAt(s, lag, 0);
      var m := SplitAt(d, [FineOp(blk, idx)], SegOps(t, mode, s, lag, 1, blk, idx), e);
      ReadUniform(d, idx - BLOCK * blk, BLOCK, m);
      SegsRead(t, m, mode, s, lag, 1, blk, idx, e);
      FirstLags(s, lag);
    }
  }

  lemma FirstLags(s: BlockSeg, lag: seq<int>)
    requires Contour(s) && LagsFit(s, lag)
    ensures Covered(s, 0) == 0 && lag[..0] == []
    ensures Covered(s, 1) <= |lag| && lag[..Covered(s, 1)] == RepeatLag(LagAt(s, lag, 0), s.seglens[0])
  {
    SegmentLags(s, lag, 0);
    assert lag[..0] + RepeatLag(LagAt(s, lag, 0), s.seglens[0]) == RepeatLag(LagAt(s, lag, 0), s.seglens[0]);
  }

  /** Gains, filters, contour and all eight lags survive the wire. */
  lemma PitchRead(cc: CcTables, t: PitchTables, d: Dec, counts: seq<int>, st: Lsf.Predictor, p: PitchParams, e: Dec)
    requires WellFormed(cc) && Consistent(t) && DecRange(d) && SubframeCounts(counts) && Ready(st) && Valid(cc, t, counts, p)
    requires Reads(d, PitchOps(cc, t, counts, st, p), e)
    ensures DecodePitch(cc, t, d, counts, st) == (e, p)
  {
    hide WellFormed, Built, Contour, Reads, LtpOps, ContourOps, TrackOps, DecodeLtp, DecodeContour, DecodeTrack, LagsFit, LtpFits, ModeOf;
    TableSizes(t);
    FitsModes(counts, p.gainIdx, p.filtIdx);
    var a := LtpOps(cc, counts, p.gainIdx, p.filtIdx, 0, st.gainIdx, st.filtIdx);
    var b := ContourOps(t, st.lagBlk, p.contour);
    var c := TrackOps(t, ModeOf(cc, p.gainIdx), st.lagBlk, st.lagIdx, t.segs[p.contour], p.laginds);
    var m1 := SplitAt(d, a, b + c, e);
    var m2 := SplitAt(m1, b, c, e);
    LtpRead(cc, d, counts, p.gainIdx, p.filtIdx, 0, st.gainIdx, st.filtIdx, m1);
    assert p.gainIdx[..0] == [] && p.filtIdx[..0] == [];
    ContourRead(t, m1, st.lagBlk, p.contour, m2);
    TrackRead(t, m2, ModeOf(cc, p.gainIdx), st.lagBlk, st.lagIdx, t.segs[p.contour], p.laginds, e);
  }

  lemma FitsModes(counts: seq<int>, gain: seq<int>, filt: seq<int>)
    requires SubframeCounts(counts) && LtpFits(counts, gain, filt)
    ensures |gain| == |filt| == SUBFRAMES && forall i :: 0 <= i < |gain| ==> 0 <= gain[i] < ACBG_N
  {
  }

  // ---------------------------------------------------------------- totality

  lemma FiltParsed(cc: CcTables, d: Dec, cnt: int, prev: int)
    requires WellFormed(cc) && DecRange(d) && -1 <= prev < FCBG_N
    ensures var (e, fi) := DecodeFilt(cc, d, cnt, prev); Reads(d, FiltOps(cc, cnt, fi, prev), e)
  {
    hide WellFormed, Reads, DecodeCdf, FiltCdf;
    if cnt > 0 { CdfRead(d, FiltCdf(cc, prev)); } else { NothingRead(d, [], d); }
  }

  predicate LtpSoFar(counts: seq<int>, gain: seq<int>, filt: seq<int>)
    requires SubframeCounts(counts)
  {
    && |gain| == |filt| <= SUBFRAMES
    && forall sf :: 0 <= sf < |gain| ==> 0 <= gain[sf] < ACBG_N && (if counts[sf] > 0 then 0 <= filt[sf] < FCBG_N else filt[sf] == -1)
  }

  lemma LtpStep(cc: CcTables, d: Dec, counts: seq<int>, gain: seq<int>, filt: seq<int>, prevGain: int, prevFilt: int)
    requires WellFormed(cc) && DecRange(d) && SubframeCounts(counts) && LtpSoFar(counts, gain, filt) && |gain| < SUBFRAMES
    requires -1 <= prevGain < ACBG_N && -1 <= prevFilt < FCBG_N
    ensures var row, sf := AcbgainRow(cc, prevGain), |gain|;
      var (d1, gi) := DecodeCdf(d, row);
      var (d2, fi) := DecodeFilt(cc, d1, counts[sf], prevFilt);
      && DecRange(d1) && DecRange(d2) && 0 <= gi < ACBG_N && -1 <= NextFilt(counts[sf], fi, prevFilt) < FCBG_N
      && Codes(row, gi) && Reads(d, [CdfOp(row, gi)], d1) && Reads(d1, FiltOps(cc, counts[sf], fi, prevFilt), d2)
      && LtpSoFar(counts, gain + [gi], filt + [fi])
      && DecodeLtp(cc, d, counts, gain, filt, prevGain, prevFilt)
         == DecodeLtp(cc, d2, counts, gain + [gi], filt + [fi], gi, NextFilt(counts[sf], fi, prevFilt))
  {
    hide WellFormed, AcbgainRow, DecodeCdf, DecodeFilt, FiltOps, Reads;
    CdfRead(d, AcbgainRow(cc, prevGain));
    FiltParsed(cc, DecodeCdf(d, AcbgainRow(cc, prevGain)).0, counts[|gain|], prevFilt);
  }

  lemma {:induction false} LtpParsed(cc: CcTables, d: Dec, counts: seq<int>, gain: seq<int>, filt: seq<int>, prevGain: int, prevFilt: int)
    requires WellFormed(cc) && DecRange(d) && SubframeCounts(counts) && LtpSoFar(counts, gain, filt)
    requires -1 <= prevGain < ACBG_N && -1 <= prevFilt < FCBG_N
    ensures var (e, g, f) := DecodeLtp(cc, d, counts, gain, filt, prevGain, prevFilt);
      && LtpFits(counts, g, f) && (forall i :: 0 <= i < |g| ==> 0 <= g[i] < ACBG_N)
      && Reads(d, LtpOps(cc, counts, g, f, |gain|, prevGain, prevFilt), e)
    decreases SUBFRAMES - |gain|
  {
    hide WellFormed, Reads, DecodeCdf, AcbgainRow, FiltOps, DecodeFilt, Codes, Strict, Table;
    var sf := |gain|;
    if sf == SUBFRAMES {
      NothingRead(d, [], d);
    } else {
      LtpStep(cc, d, counts, gain, filt, prevGain, prevFilt);
      hide DecodeLtp, LtpSoFar;
      var row := AcbgainRow(cc, prevGain);
      var (d1, gi) := DecodeCdf(d, row);
      var (d2, fi) := DecodeFilt(cc, d1, counts[sf], prevFilt);
      var next := NextFilt(counts[sf], fi, prevFilt);
      LtpParsed(cc, d2, counts, gain + [gi], filt + [fi], gi, next);
      var (e, g, f) := DecodeLtp(cc, d, counts, gain, filt, prevGain, prevFilt);
      assert g[sf] == (gain + [gi])[sf] && f[sf] == (filt + [fi])[sf];
      var rest := LtpOps(cc, counts, g, f, sf + 1, gi, next);
      Joined(d1, FiltOps(cc, counts[sf], fi, prevFilt), d2, rest, e);
      Joined(d, [CdfOp(row, gi)], d1, FiltOps(cc, counts[sf], fi, prevFilt) + rest, e);
    }
  }

  lemma ContourParsed(t: PitchTables, d: Dec, prevBlk: int)
    requires Consistent(t) && DecRange(d) && -1 <= prevBlk < NUM_BLOCKS
    ensures var (e, c) := DecodeContour(t, d, prevBlk); Reads(d, ContourOps(t, prevBlk, c), e)
  {
    hide Built, Contour, Reads, DecodeCdf, RangeCmf, Strict, FindContour;
    PlainTables(t, prevBlk);
    TableSizes(t);
    var c := DecodeContour(t, d, prevBlk).1;
    if prevBlk < 0 {
      CdfRead(d, t.idxCmf);
    } else {
      CdfRead(d, t.moveCmfs[prevBlk]);
      var (d1, di) := DecodeCdf(d, t.moveCmfs[prevBlk]);
      CdfRead(d1, RangeCmf(t, di));
      var (e, sym) := DecodeCdf(d1, RangeCmf(t, di));
      assert t.ranges[di].0 <= t.toIdx[c] - 1 <= t.ranges[di].1;
      assert FirstBlock(t, c) == di;
      Joined(d, [CdfOp(t.moveCmfs[prevBlk], di)], d1, [CdfOp(RangeCmf(t, di), sym)], e);
    }
  }

  /** Segments 0 .. k - 1 decoded so far fit their blocks. */
  predicate LagsSoFar(s: BlockSeg, k: nat, acc: seq<int>)
    requires Contour(s) && k <= |s.blocks|
  {
    && |acc| == Covered(s, k) <= BLOCK_LAGS
    && forall j :: 0 <= j < k ==> SoFarAt(s, k, acc, j)
  }

  predicate SoFarAt(s: BlockSeg, k: nat, acc: seq<int>, j: nat)
    requires Contour(s) && k <= |s.blocks| && j < k && |acc| == Covered(s, k)
  {
    CoveredRises(s, j, k);
    CoveredRises(s, j + 1, k);
    InBlock(s.blocks[j], acc[Covered(s, j)]) && acc[Covered(s, j)..Covered(s, j + 1)] == RepeatLag(acc[Covered(s, j)], s.seglens[j])
  }

  lemma SoFarGrows(s: BlockSeg, k: nat, acc: seq<int>, idx: int)
    requires Contour(s) && k < |s.blocks| && LagsSoFar(s, k, acc) && InBlock(s.blocks[k], idx)
    ensures LagsSoFar(s, k + 1, acc + RepeatLag(idx, s.seglens[k]))
  {
    var acc1, k1 := acc + RepeatLag(idx, s.seglens[k]), k + 1;
    CoveredRises(s, k1, |s.seglens|);
    forall j | 0 <= j < k1 ensures SoFarAt(s, k1, acc1, j) {
      CoveredRises(s, j + 1, k1);
      CoveredRises(s, j, j + 1);
      if j < k {
        assert SoFarAt(s, k, acc, j);
        CoveredRises(s, j + 1, k);
        assert acc1[Covered(s, j)..Covered(s, j + 1)] == acc[Covered(s, j)..Covered(s, j + 1)];
      } else {
        assert acc1[Covered(s, k)..Covered(s, k + 1)] == RepeatLag(idx, s.seglens[k]);
      }
    }
  }

  lemma SoFarDone(s: BlockSeg, acc: seq<int>)
    requires Contour(s) && LagsSoFar(s, |s.blocks|, acc)
    ensures LagsFit(s, acc)
  {
    forall k | 0 <= k < |s.blocks| ensures SegLag(s, acc, k) { assert SoFarAt(s, |s.blocks|, acc, k); }
  }

  lemma SegStep(t: PitchTables, d: Dec, mode: nat, s: BlockSeg, k: nat, prevBlk: int, prevIdx: int, acc: seq<int>)
    requires Built(t) && DecRange(d) && mode < 3 && Contour(s) && k < |s.blocks| && InBlock(prevBlk, prevIdx)
    requires Near(prevBlk, s.blocks[k]) && LagsSoFar(s, k, acc)
    ensures var w, blk := DeltaWindow(t, mode, prevBlk, prevIdx, s.blocks[k]), s.blocks[k];
      var (d1, sym) := DecodeCdf(d, w);
      var idx, acc1 := BLOCK * blk + sym, acc + RepeatLag(BLOCK * blk + sym, s.seglens[k]);
      && DecRange(d1) && InBlock(blk, idx) && Codes(w, sym) && Reads(d, [CdfOp(w, sym)], d1)
      && LagsSoFar(s, k + 1, acc1) && (k + 1 < |s.blocks| ==> Near(blk, s.blocks[k + 1]))
      && DecodeSegs(t, d, mode, s, k, prevBlk, prevIdx, acc) == DecodeSegs(t, d1, mode, s, k + 1, blk, idx, acc1)
  {
    hide Built, DeltaWindow, DecodeCdf, Reads, RepeatLag, LagsSoFar;
    SoFarLength(s, k, acc);
    var w, blk := DeltaWindow(t, mode, prevBlk, prevIdx, s.blocks[k]), s.blocks[k];
    CdfRead(d, w);
    SoFarGrows(s, k, acc, BLOCK * blk + DecodeCdf(d, w).1);
    SoFarLength(s, k + 1, acc + RepeatLag(BLOCK * blk + DecodeCdf(d, w).1, s.seglens[k]));
  }

  lemma SoFarLength(s: BlockSeg, k: nat, acc: seq<int>)
    requires Contour(s) && k <= |s.blocks| && LagsSoFar(s, k, acc)
    ensures |acc| == Covered(s, k)
  {
  }

  lemma SegsDone(t: PitchTables, d: Dec, mode: nat, s: BlockSeg, prevBlk: int, prevIdx: int, lag: seq<int>)
    requires Built(t) && DecRange(d) && mode < 3 && Contour(s) && InBlock(prevBlk, prevIdx) && LagsFit(s, lag)
    ensures |lag| == Covered(s, |s.blocks|) && DecodeSegs(t, d, mode, s, |s.blocks|, prevBlk, prevIdx, lag) == (d, lag)
    ensures SegOps(t, mode, s, lag, |s.blocks|, prevBlk, prevIdx) == []
  {
  }

  lemma SegUnfolds(t: PitchTables, mode: nat, s: BlockSeg, lag: seq<int>, k: nat, prevBlk: int, prevIdx: int)
    requires Built(t) && mode < 3 && Contour(s) && LagsFit(s, lag) && k < |s.blocks| && InBlock(prevBlk, prevIdx) && Near(prevBlk, s.blocks[k])
    ensures var w, blk, idx := DeltaWindow(t, mode, prevBlk, prevIdx, s.blocks[k]), s.blocks[k], LagAt(s, lag, k);
      && Codes(w, idx - BLOCK * blk) && (k + 1 < |s.blocks| ==> Near(blk, s.blocks[k + 1]))
      && SegOps(t, mode, s, lag, k, prevBlk, prevIdx) == [CdfOp(w, idx - BLOCK * blk)] + SegOps(t, mode, s, lag, k + 1, blk, idx)
  {
    hide Built, DeltaWindow, LagsFit;
    StrictCodes(DeltaWindow(t, mode, prevBlk, prevIdx, s.blocks[k]), LagAt(s, lag, k) - BLOCK * s.blocks[k]);
  }

  lemma ContourShape(s: BlockSeg)
    requires Contour(s)
    ensures |s.seglens| == |s.blocks| && forall k :: 0 <= k < |s.blocks| ==> s.seglens[k] > 0
  {
  }

  lemma LagFromPrefix(s: BlockSeg, lag: seq<int>, k: nat, acc: seq<int>, x: int)
    requires Contour(s) && LagsFit(s, lag) && k < |s.blocks| && acc <= lag && Covered(s, k) < |acc| && acc[Covered(s, k)] == x
    ensures LagAt(s, lag, k) == x
  {
  }

  lemma {:induction false} SegsParsed(t: PitchTables, d: Dec, mode: nat, s: BlockSeg, k: nat, prevBlk: int, prevIdx: int, acc: seq<int>)
    requires Built(t) && DecRange(d) && mode < 3 && Contour(s) && k <= |s.blocks| && InBlock(prevBlk, prevIdx)
    requires k < |s.blocks| ==> Near(prevBlk, s.blocks[k])
    requires LagsSoFar(s, k, acc)
    ensures |acc| == Covered(s, k) && var (e, lag) := DecodeSegs(t, d, mode, s, k, prevBlk, prevIdx, acc);
      LagsFit(s, lag) && acc <= lag && Reads(d, SegOps(t, mode, s, lag, k, prevBlk, prevIdx), e)
    decreases |s.blocks| - k
  {
    hide Built, DeltaWindow, DecodeCdf, Reads, RepeatLag, LagsSoFar, LagsFit, Codes, SegOps, DecodeSegs, Contour, Covered;
    SoFarLength(s, k, acc);
    ContourShape(s);
    if k == |s.blocks| {
      SoFarDone(s, acc);
      SegsDone(t, d, mode, s, prevBlk, prevIdx, acc);
      NothingRead(d, [], d);
    } else {
      SegStep(t, d, mode, s, k, prevBlk, prevIdx, acc);
      var w, blk := DeltaWindow(t, mode, prevBlk, prevIdx, s.blocks[k]), s.blocks[k];
      var (d1, sym) := DecodeCdf(d, w);
      var acc1 := acc + RepeatLag(BLOCK * blk + sym, s.seglens[k]);
      SegsParsed(t, d1, mode, s, k + 1, blk, BLOCK * blk + sym, acc1);
      var (e, lag) := DecodeSegs(t, d, mode, s, k, prevBlk, prevIdx, acc);
      HeadOf(acc, BLOCK * blk + sym, s.seglens[k]);
      LagFromPrefix(s, lag, k, acc1, BLOCK * blk + sym);
      SegUnfolds(t, mode, s, lag, k, prevBlk, prevIdx);
      Joined(d, [CdfOp(w, sym)], d1, SegOps(t, mode, s, lag, k + 1, blk, BLOCK * blk + sym), e);
    }
  }

  lemma HeadOf(acc: seq<int>, x: int, n: nat)
    requires n > 0
    ensures (acc + RepeatLag(x, n))[|acc|] == x
  {
  }

  lemma TrackParsed(t: PitchTables, d: Dec, mode: nat, prevBlk: int, prevIdx: int, s: BlockSeg)
    requires Built(t) && DecRange(d) && mode < 3 && Contour(s) && (prevBlk >= 0 ==> InBlock(prevBlk, prevIdx))
    ensures var (e, lag) := DecodeTrack(t, d, mode, prevBlk, prevIdx, s);
      LagsFit(s, lag) && Reads(d, TrackOps(t, mode, prevBlk, prevIdx, s, lag), e)
  {
    hide Built, Reads, SegOps, DecodeSegs, DecodeUniform, LagsFit, RepeatLag;
    NoLags(s);
    if Predicted(prevBlk, s.blocks[0]) {
      SegsParsed(t, d, mode, s, 0, prevBlk, prevIdx, []);
    } else {
      var blk := s.blocks[0];
      UniformRead(d, BLOCK);
      var (d1, sym) := DecodeUniform(d, BLOCK);
      SoFarGrows(s, 0, [], BLOCK * blk + sym);
      var acc := RepeatLag(BLOCK * blk + sym, s.seglens[0]);
      assert [] + acc == acc;
      HeadOf([], BLOCK * blk + sym, s.seglens[0]);
      SegsParsed(t, d1, mode, s, 1, blk, BLOCK * blk + sym, acc);
      var (e, lag) := DecodeTrack(t, d, mode, prevBlk, prevIdx, s);
      assert lag[0] == acc[0];
      Joined(d, [FineOp(blk, BLOCK * blk + sym)], d1, SegOps(t, mode, s, lag, 1, blk, BLOCK * blk + sym), e);
    }
  }

  lemma NoLags(s: BlockSeg)
    requires Contour(s)
    ensures LagsSoFar(s, 0, [])
  {
  }

  /** On any stream the block decodes to parameters the encoder would have written with the same steps. */
  lemma PitchParsed(cc: CcTables, t: PitchTables, d: Dec, counts: seq<int>, st: Lsf.Predictor)
    requires WellFormed(cc) && Consistent(t) && DecRange(d) && SubframeCounts(counts) && Ready(st)
    ensures var (e, p) := DecodePitch(cc, t, d, counts, st);
      Valid(cc, t, counts, p) && Reads(d, PitchOps(cc, t, counts, st, p), e)
  {
    hide WellFormed, Built, Contour, Reads, LtpOps, ContourOps, TrackOps, DecodeLtp, DecodeContour, DecodeTrack, LagsFit, LtpFits, ModeOf;
    TableSizes(t);
    var (d1, gain, filt) := DecodeLtp(cc, d, counts, [], [], st.gainIdx, st.filtIdx);
    LtpParsed(cc, d, counts, [], [], st.gainIdx, st.filtIdx);
    ContourParsed(t, d1, st.lagBlk);
    var (d2, c) := DecodeContour(t, d1, st.lagBlk);
    TrackParsed(t, d2, ModeOf(cc, gain), st.lagBlk, st.lagIdx, t.segs[c]);
    var (e, p) := DecodePitch(cc, t, d, counts, st);
    var b := ContourOps(t, st.lagBlk, c);
    var tr := TrackOps(t, ModeOf(cc, gain), st.lagBlk, st.lagIdx, t.segs[c], p.laginds);
    Joined(d1, b, d2, tr, e);
    Joined(d, LtpOps(cc, counts, gain, filt, 0, st.gainIdx, st.filtIdx), d1, LagOps(t, ModeOf(cc, gain), st, c, p.laginds), e);
  }

  /** The predictors left behind are ones the next voiced frame can start from. */
  lemma AfterReady(cc: CcTables, t: PitchTables, counts: seq<int>, st: Lsf.Predictor, p: PitchParams)
    requires WellFormed(cc) && Consistent(t) && SubframeCounts(counts) && Ready(st) && Valid(cc, t, counts, p)
    ensures Ready(After(t, counts, st, p))
  {
    hide WellFormed, Built;
    TableSizes(t);
    FiltUptoFits(counts, p.gainIdx, p.filtIdx, SUBFRAMES, st.filtIdx);
    var s := t.segs[p.contour];
    var n := |s.blocks| - 1;
    assert SegLag(s, p.laginds, n);
    assert p.laginds[Covered(s, n)..Covered(s, n + 1)][s.seglens[n] - 1] == p.laginds[BLOCK_LAGS - 1];
  }

  lemma {:induction false} FiltUptoFits(counts: seq<int>, gain: seq<int>, filt: seq<int>, n: nat, prev: int)
    requires SubframeCounts(counts) && LtpFits(counts, gain, filt) && n <= SUBFRAMES && -1 <= prev < FCBG_N
    ensures -1 <= FiltUpto(counts, filt, n, prev) < FCBG_N
  {
    if n > 0 { FiltUptoFits(counts, gain, filt, n - 1, prev); }
  }
}
