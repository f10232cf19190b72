/** The pitch encoder on logical tables and the pitch decoder on the address window, both refining Pitch. */
module PitchCoder {
  import opened Words
  import opened Arith
  import opened RangeSpec
  import opened CdfSpec
  import opened CmfTables
  import opened CcTables
  import opened PitchTables
  import opened Gains
  import opened Pitch
  import Lsf
  import RangeEncoder
  import RangeDecoder
  import Reading

  // ---------------------------------------------------------------- encoding

  method EncodeLtp(enc: RangeEncoder.RangeEncoder, cc: CcTables, st: Lsf.LsfState, counts: seq<int>, gain: seq<int>, filt: seq<int>)
    returns (gainAccum: int)
    requires enc.Clean() && WellFormed(cc) && SubframeCounts(counts) && LtpFits(counts, gain, filt)
    requires -1 <= st.prevGainIdx < ACBG_N && -1 <= st.prevFiltIdx < FCBG_N
    modifies enc, enc.buf, st`prevGainIdx, st`prevFiltIdx
    ensures enc.Clean()
    ensures enc.written == old(enc.written) + LtpOps(cc, counts, gain, filt, 0, old(st.prevGainIdx), old(st.prevFiltIdx))
    ensures st.prevGainIdx == gain[SUBFRAMES - 1] && st.prevFiltIdx == FiltUpto(counts, filt, SUBFRAMES, old(st.prevFiltIdx))
    ensures (forall i :: 0 <= i < |gain| ==> 0 <= gain[i] < ACBG_N) && gainAccum == GainSum(cc, gain)
  {
    hide WellFormed, AcbgainRow, FiltOps, LtpOps, Codes, CdfOp, GainWeight, AcbgainWeights, RangeEncoder.RangeEncoder.Clean, RangeEncoder.RangeEncoder.Valid;
    FitsModes(counts, gain, filt);
    gainAccum := 0;
    for sf := 0 to SUBFRAMES
      invariant enc.Clean() && -1 <= st.prevGainIdx < ACBG_N && -1 <= st.prevFiltIdx < FCBG_N
      invariant sf > 0 ==> st.prevGainIdx == gain[sf - 1]
      invariant st.prevFiltIdx == FiltUpto(counts, filt, sf, old(st.prevFiltIdx))
      invariant enc.written + LtpOps(cc, counts, gain, filt, sf, st.prevGainIdx, st.prevFiltIdx)
             == old(enc.written) + LtpOps(cc, counts, gain, filt, 0, old(st.prevGainIdx), old(st.prevFiltIdx))
      invariant gainAccum == GainSum(cc, gain[..sf])
    {
      LtpUnfolds(cc, counts, gain, filt, sf, st.prevGainIdx, st.prevFiltIdx);
      assert gain[..sf + 1][..sf] == gain[..sf];
      var cnt, gi := counts[sf], gain[sf];
      enc.EncodeCDF(gi, AcbgainRow(cc, st.prevGainIdx));
      st.prevGainIdx := gi;
      gainAccum := gainAccum + GainWeight(cc, gi);
      EncodeFilter(enc, cc, cnt, filt[sf], st.prevFiltIdx);
      if cnt > 0 { st.prevFiltIdx := filt[sf]; }
    }
    LtpUnfolds(cc, counts, gain, filt, SUBFRAMES, st.prevGainIdx, st.prevFiltIdx);
    assert enc.written + [] == enc.written && gain[..SUBFRAMES] == gain;
  }

  method EncodeFilter(enc: RangeEncoder.RangeEncoder, cc: CcTables, cnt: int, fi: int, prev: int)
    requires enc.Clean() && WellFormed(cc) && -1 <= prev < FCBG_N && (cnt > 0 ==> 0 <= fi < FCBG_N)
    modifies enc, enc.buf
    ensures enc.Clean() && enc.written == old(enc.written) + FiltOps(cc, cnt, fi, prev)
  {
    hide WellFormed, RangeEncoder.RangeEncoder.Clean, RangeEncoder.RangeEncoder.Valid, FcbgainVDelta;
    if cnt > 0 {
      StrictCodes(FiltCdf(cc, prev), fi);
      if prev == -1 { enc.EncodeCDF(fi, cc.fcbgainsV); } else { enc.EncodeCDF(fi, FcbgainVDelta(cc, prev)); }
    }
  }

  /** The contour selector: its number outright, or its first block and its place among the contours starting there. */
  method EncodeSelector(t: PitchTables, enc: RangeEncoder.RangeEncoder, c: int, prevLagblk: int)
    requires enc.Clean() && Consistent(t) && -1 <= prevLagblk < NUM_BLOCKS && 0 <= c < CONTOURS
    modifies enc, enc.buf
    ensures enc.Clean() && enc.written == old(enc.written) + ContourOps(t, prevLagblk, c)
  {
    hide Consistent, ContourOps, MoveTerms, RangeEncoder.RangeEncoder.Clean, RangeEncoder.RangeEncoder.Valid;
    SelectorTerms(t, c, prevLagblk);
    if prevLagblk < 0 {
      var ixJulia: int := t.toIdx[c];
      var cmf := t.idxCmf;
      enc.Encode(cmf[ixJulia - 1], cmf[ixJulia], cmf[|t.segs|]);
    } else {
      EncodeMove(t, enc, c, prevLagblk);
    }
  }

  method EncodeMove(t: PitchTables, enc: RangeEncoder.RangeEncoder, c: int, prevLagblk: int)
    requires enc.Clean() && Consistent(t) && 0 <= prevLagblk < NUM_BLOCKS && 0 <= c < CONTOURS
    requires |t.idxCmf| == CONTOURS + 1 && |t.toIdx| == |t.segs| == CONTOURS && |t.moveCmfs| == |t.ranges| == NUM_BLOCKS
    requires |t.segs[c].blocks| > 0 && MoveTerms(t, c, prevLagblk)
    modifies enc, enc.buf
    ensures enc.Clean() && enc.written == old(enc.written) + ContourOps(t, prevLagblk, c)
  {
    hide Consistent, ContourOps, RangeEncoder.RangeEncoder.Clean, RangeEncoder.RangeEncoder.Valid;
    ghost var before := enc.written;
    var ixJulia: int := t.toIdx[c];
    var cmf, b0 := t.moveCmfs[prevLagblk], t.segs[c].blocks[0];
    enc.Encode(cmf[b0], cmf[b0 + 1], cmf[NUM_BLOCKS]);
    var startIx: int, endIx: int := t.ranges[b0].0, t.ranges[b0].1;
    var cmfLen := endIx - startIx + 1;
    var cmf2 := t.idxCmf[startIx..];
    var lo, hi := ixJulia - startIx - 1, ixJulia - startIx;
    enc.Encode(cmf2[lo] - cmf2[0], cmf2[hi] - cmf2[0], cmf2[cmfLen] - cmf2[0]);
    assert enc.written == before + ContourOps(t, prevLagblk, c);
  }

  lemma SelectorTerms(t: PitchTables, c: int, prevBlk: int)
    requires Consistent(t) && -1 <= prevBlk < NUM_BLOCKS && 0 <= c < CONTOURS
    ensures |t.idxCmf| == CONTOURS + 1 && |t.toIdx| == |t.segs| == CONTOURS && 1 <= t.toIdx[c] <= CONTOURS
    ensures |t.moveCmfs| == |t.ranges| == NUM_BLOCKS && |t.segs[c].blocks| > 0
    ensures prevBlk < 0 ==> var i: int := t.toIdx[c];
      Codable(Sym(t.idxCmf[i - 1], t.idxCmf[i], t.idxCmf[CONTOURS]))
      && ContourOps(t, prevBlk, c) == [Sym(t.idxCmf[i - 1], t.idxCmf[i], t.idxCmf[CONTOURS])]
    ensures prevBlk >= 0 ==> MoveTerms(t, c, prevBlk)
  {
    hide Contour;
    TableSizes(t);
    PlainTables(t, prevBlk);
    var b := FirstBlock(t, c);
    assert SegShape(t.segs[c]);
    if prevBlk < 0 {
      var i: int := t.toIdx[c];
      StrictCodes(t.idxCmf, i - 1);
      assert Codable(CdfOp(t.idxCmf, i - 1));
    } else {
      MoveTermsHold(t, c, prevBlk);
    }
  }

  predicate MoveTerms(t: PitchTables, c: int, prevBlk: int)
    requires Consistent(t) && 0 <= prevBlk < NUM_BLOCKS && 0 <= c < CONTOURS
  {
    var b, m := t.segs[c].blocks[0], t.moveCmfs[prevBlk];
    && 0 <= b < NUM_BLOCKS && |m| == NUM_BLOCKS + 1
    && var lo: int, hi: int, i: int := t.ranges[b].0, t.ranges[b].1, t.toIdx[c];
    && lo < i <= hi + 1 <= CONTOURS
    && Codable(Sym(m[b], m[b + 1], m[NUM_BLOCKS]))
    && t.idxCmf[lo] <= t.idxCmf[i - 1] < t.idxCmf[i] <= t.idxCmf[hi + 1]
    && var z: int, x: int, y: int, w: int := t.idxCmf[lo], t.idxCmf[i - 1], t.idxCmf[i], t.idxCmf[hi + 1];
    && Codable(Sym(x - z, y - z, w - z))
    && ContourOps(t, prevBlk, c) == [Sym(m[b], m[b + 1], m[NUM_BLOCKS]), Sym(x - z, y - z, w - z)]
  }

  lemma MoveTermsHold(t: PitchTables, c: int, prevBlk: int)
    requires Consistent(t) && 0 <= prevBlk < NUM_BLOCKS && 0 <= c < CONTOURS
    ensures MoveTerms(t, c, prevBlk)
  {
    hide Contour, Built, Strict, Table, CdfOp, Codable;
    TableSizes(t);
    PlainTables(t, prevBlk);
    var b, m := FirstBlock(t, c), t.moveCmfs[prevBlk];
    var lo: int, hi: int, i: int := t.ranges[b].0, t.ranges[b].1, t.toIdx[c];
    StartsAtZero(t, prevBlk);
    RangeCmfIs(t, b);
    WholeSymbol(m, b);
    SliceSymbol(t.idxCmf, lo, i - 1, hi + 1);
    RisesWithin(t, lo, i - 1, hi + 1);
  }

  lemma WholeSymbol(cmf: seq<u16>, s: int)
    requires Strict(cmf) && Table(cmf) && cmf[0] == 0 && 0 <= s < |cmf| - 1
    ensures Codes(cmf, s) && CdfOp(cmf, s) == Sym(cmf[s], cmf[s + 1], cmf[|cmf| - 1]) && Codable(Sym(cmf[s], cmf[s + 1], cmf[|cmf| - 1]))
  {
    StrictCodes(cmf, s);
    assert Codable(CdfOp(cmf, s));
  }

  lemma SliceSymbol(cmf: seq<u16>, lo: nat, i: nat, hi: nat)
    requires Strict(cmf) && lo <= i < hi < |cmf|
    ensures var w := cmf[lo..hi + 1];
      var z: int, x: int, y: int, u: int := cmf[lo], cmf[i], cmf[i + 1], cmf[hi];
      Codes(w, i - lo) && x >= z && CdfOp(w, i - lo) == Sym(x - z, y - z, u - z) && Codable(Sym(x - z, y - z, u - z))
  {
    StrictCodes(cmf[lo..hi + 1], i - lo);
    assert Codable(CdfOp(cmf[lo..hi + 1], i - lo));
  }

  lemma RisesWithin(t: PitchTables, lo: nat, i: nat, hi: nat)
    requires Built(t) && lo <= i < hi <= CONTOURS
    ensures t.idxCmf[lo] <= t.idxCmf[i] < t.idxCmf[i + 1] <= t.idxCmf[hi]
  {
  }

  lemma RangeCmfIs(t: PitchTables, b: int)
    requires Consistent(t) && 0 <= b < NUM_BLOCKS
    ensures 0 <= t.ranges[b].0 <= t.ranges[b].1 + 2 <= |t.idxCmf| && RangeCmf(t, b) == t.idxCmf[t.ranges[b].0..t.ranges[b].1 + 2]
  {
  }

  lemma StartsAtZero(t: PitchTables, b: int)
    requires Built(t) && 0 <= b < NUM_BLOCKS
    ensures t.idxCmf[0] == 0 && t.moveCmfs[b][0] == 0
  {
  }

  /** Contour selector, then the lags: a fine first lag unless it is predicted, then steps through the wide table. */
  method EncodeLagsWire(t: PitchTables, enc: RangeEncoder.RangeEncoder, c: int, laginds: seq<int>, prevBlk: int, prevIdx: int, mode: nat)
    requires enc.Clean() && Consistent(t) && -1 <= prevBlk < NUM_BLOCKS && 0 <= c < CONTOURS && mode < 3
    requires (prevBlk >= 0 ==> InBlock(prevBlk, prevIdx)) && LagsFit(t.segs[c], laginds)
    modifies enc, enc.buf
    ensures enc.Clean()
    ensures enc.written == old(enc.written) + (ContourOps(t, prevBlk, c) + TrackOps(t, mode, prevBlk, prevIdx, t.segs[c], laginds))
  {
    hide Built, Contour, LagsFit, ContourOps, SegOps, RangeEncoder.RangeEncoder.Clean, RangeEncoder.RangeEncoder.Valid;
    ghost var before := enc.written;
    TableSizes(t);
    EncodeSelector(t, enc, c, prevBlk);
    var s := t.segs[c];
    EncodeTrack(t, enc, s, laginds, prevBlk, prevIdx, mode);
    assert enc.written == before + ContourOps(t, prevBlk, c) + TrackOps(t, mode, prevBlk, prevIdx, s, laginds);
  }

  method EncodeTrack(t: PitchTables, enc: RangeEncoder.RangeEncoder, s: BlockSeg, laginds: seq<int>, prevBlk: int, prevIdx: int, mode: nat)
    requires enc.Clean() && Built(t) && mode < 3 && Contour(s) && LagsFit(s, laginds) && (prevBlk >= 0 ==> InBlock(prevBlk, prevIdx))
    modifies enc, enc.buf
    ensures enc.Clean() && enc.written == old(enc.written) + TrackOps(t, mode, prevBlk, prevIdx, s, laginds)
  {
    hide Built, LagsFit, SegOps, Contour, Codes, CdfOp, DeltaWindow, RangeEncoder.RangeEncoder.Clean, RangeEncoder.RangeEncoder.Valid;
    ghost var before := enc.written;
    ContourShape(s);
    TrackTerms(s, laginds);
    var lagBlk, lagIdx, startSeg, lagindsIx := prevBlk, prevIdx, 0, 0;
    var blk := s.blocks[0];
    var deltaBlk := blk - lagBlk;
    if !(lagBlk > -1 && deltaBlk >= -1 && deltaBlk <= 2) {
      var idxMod := laginds[lagindsIx] - blk * BLOCK;
      enc.Encode(idxMod, idxMod + 1, BLOCK);
      lagBlk := blk;
      lagIdx := laginds[lagindsIx];
      lagindsIx := lagindsIx + s.seglens[0];
      startSeg := 1;
      assert enc.written == before + [FineOp(blk, LagAt(s, laginds, 0))];
      assert before + TrackOps(t, mode, prevBlk, prevIdx, s, laginds) == enc.written + SegOps(t, mode, s, laginds, 1, lagBlk, lagIdx);
    }
    ghost var goal := before + TrackOps(t, mode, prevBlk, prevIdx, s, laginds);
    var k := startSeg;
    while k < |s.blocks|
      invariant startSeg <= k <= |s.blocks| && lagindsIx == Covered(s, k) && enc.Clean()
      invariant InBlock(lagBlk, lagIdx) && (k < |s.blocks| ==> Near(lagBlk, s.blocks[k]))
      invariant enc.written + SegOps(t, mode, s, laginds, k, lagBlk, lagIdx) == goal
    {
      SegUnfolds(t, mode, s, laginds, k, lagBlk, lagIdx);
      blk := s.blocks[k];
      LagIndex(s, laginds, k);
      var idx := laginds[lagindsIx];
      lagindsIx := lagindsIx + s.seglens[k];
      EncodeStep(t, enc, mode, lagBlk, lagIdx, blk, idx);
      lagBlk, lagIdx := blk, idx;
      k := k + 1;
    }
    SegsEnd(t, mode, s, laginds, lagBlk, lagIdx);
    assert enc.written + [] == enc.written;
  }

  lemma TrackTerms(s: BlockSeg, lag: seq<int>)
    requires Contour(s) && LagsFit(s, lag)
    ensures |s.blocks| >= 1 && |lag| == BLOCK_LAGS && lag[0] == LagAt(s, lag, 0) && s.blocks[0] < NUM_BLOCKS
    ensures Covered(s, 0) == 0 && Covered(s, 1) == s.seglens[0]
    ensures |s.blocks| > 1 ==> Near(s.blocks[0], s.blocks[1])
  {
  }

  lemma LagIndex(s: BlockSeg, lag: seq<int>, k: nat)
    requires Contour(s) && LagsFit(s, lag) && k < |s.blocks|
    ensures 0 <= Covered(s, k) < |lag| && lag[Covered(s, k)] == LagAt(s, lag, k) && Covered(s, k + 1) == Covered(s, k) + s.seglens[k]
  {
    var idx := LagAt(s, lag, k);
  }

  lemma SegsEnd(t: PitchTables, mode: nat, s: BlockSeg, lag: seq<int>, prevBlk: int, prevIdx: int)
    requires Built(t) && mode < 3 && Contour(s) && LagsFit(s, lag) && InBlock(prevBlk, prevIdx)
    ensures SegOps(t, mode, s, lag, |s.blocks|, prevBlk, prevIdx) == []
  {
  }

  /** One segment's lag as a step from the lag before. */
  method EncodeStep(t: PitchTables, enc: RangeEncoder.RangeEncoder, mode: nat, prevLagblk: int, prevLagidx: int, blk: int, idx: int)
    requires enc.Clean() && Built(t) && mode < 3 && InBlock(prevLagblk, prevLagidx) && Near(prevLagblk, blk) && InBlock(blk, idx)
    modifies enc, enc.buf
    ensures enc.Clean() && var w := DeltaWindow(t, mode, prevLagblk, prevLagidx, blk);
      Codes(w, idx - BLOCK * blk) && enc.written == old(enc.written) + [CdfOp(w, idx - BLOCK * blk)]
  {
    hide RangeEncoder.RangeEncoder.Clean, RangeEncoder.RangeEncoder.Valid, Strict;
    ghost var w := DeltaWindow(t, mode, prevLagblk, prevLagidx, blk);
    StrictCodes(w, idx - BLOCK * blk);
    assert Codable(CdfOp(w, idx - BLOCK * blk));
    var deltaBlk, deltaIdx := blk - prevLagblk, idx - prevLagidx;
    var prevLagidxMod := prevLagidx - prevLagblk * BLOCK;
    var deltaRangeStart := -prevLagidxMod + deltaBlk * BLOCK;
    var cmfBase, ix := deltaRangeStart + 2 * BLOCK - 1, deltaIdx - deltaRangeStart;
    var cmf := t.deltaCmfs[mode];
    assert w == cmf[cmfBase..cmfBase + BLOCK + 1] && ix == idx - BLOCK * blk;
    var p0 := cmf[cmfBase];
    enc.Encode(cmf[cmfBase + ix] - p0, cmf[cmfBase + ix + 1] - p0, cmf[cmfBase + BLOCK] - p0);
  }

  /** The last lag of a fitting row lies in the contour's last block. */
  lemma LastLagInBlock(s: BlockSeg, lag: seq<int>)
    requires Contour(s) && LagsFit(s, lag)
    ensures InBlock(s.blocks[|s.blocks| - 1], lag[BLOCK_LAGS - 1])
  {
    var k := |s.blocks| - 1;
    assert SegLag(s, lag, k);
    CoveredRises(s, k, |s.seglens|);
    CoveredRises(s, k + 1, |s.seglens|);
    assert lag[Covered(s, k)..BLOCK_LAGS][s.seglens[k] - 1] == lag[BLOCK_LAGS - 1];
  }

  /** The lag predictor the encoder carries on with: where the next voiced frame's first step starts. */
  method LagsPredictorAfter(t: PitchTables, c: int, laginds: seq<int>) returns (lagBlk: int, lagIdx: int)
    requires Consistent(t) && 0 <= c < CONTOURS && |laginds| == BLOCK_LAGS
    ensures |t.segs[c].blocks| > 0 && lagBlk == t.segs[c].blocks[|t.segs[c].blocks| - 1] && lagIdx == laginds[BLOCK_LAGS - 1]
    ensures 0 <= lagBlk < NUM_BLOCKS && (LagsFit(t.segs[c], laginds) ==> InBlock(lagBlk, lagIdx))
  {
    assert SegShape(t.segs[c]);
    var seg := t.segs[c];
    if LagsFit(seg, laginds) { LastLagInBlock(seg, laginds); }
    lagBlk, lagIdx := seg.blocks[|seg.blocks| - 1], laginds[BLOCK_LAGS - 1];
  }

  method EncodeSmplPitch(enc: RangeEncoder.RangeEncoder, cc: CcTables, t: PitchTables, st: Lsf.LsfState, counts: seq<int>, pp: PitchParams)
    requires enc.Clean() && WellFormed(cc) && Consistent(t) && SubframeCounts(counts) && Pitch.Valid(cc, t, counts, pp) && Ready(st.EncoderView())
    modifies enc, enc.buf, st
    ensures enc.Clean() && enc.written == old(enc.written) + PitchOps(cc, t, counts, old(st.EncoderView()), pp)
    ensures |pp.gainIdx| == |pp.filtIdx| == SUBFRAMES && |pp.laginds| == BLOCK_LAGS
    ensures st.EncoderView() == After(t, counts, old(st.EncoderView()), pp)
  {
    hide WellFormed, Built, Contour, LtpOps, ContourOps, TrackOps, LtpFits, LagsFit, GainSum, RangeEncoder.RangeEncoder.Clean, RangeEncoder.RangeEncoder.Valid;
    ghost var before, view := enc.written, st.EncoderView();
    FitsModes(counts, pp.gainIdx, pp.filtIdx);
    TableSizes(t);
    EightLags(t, pp);
    var gainAccum := EncodeLtp(enc, cc, st, counts, pp.gainIdx, pp.filtIdx);
    var avgGain := Quarter(gainAccum);
    var mode := 0;
    if avgGain >= 10007 {
      if avgGain < 14085 { mode := 1; } else { mode := 2; }
    }
    EncodeLagsWire(t, enc, pp.contour, pp.laginds, st.prevLagblk, st.prevLagidx, mode);
    var nblk, nidx := LagsPredictorAfter(t, pp.contour, pp.laginds);
    st.prevLagblk, st.prevLagidx := nblk, nidx;
    assert enc.written == before + (LtpOps(cc, counts, pp.gainIdx, pp.filtIdx, 0, view.gainIdx, view.filtIdx)
      + LagOps(t, ModeOf(cc, pp.gainIdx), view, pp.contour, pp.laginds));
  }

  lemma EightLags(t: PitchTables, p: PitchParams)
    requires Consistent(t) && 0 <= p.contour < CONTOURS && LagsFit(t.segs[p.contour], p.laginds)
    ensures |p.laginds| == BLOCK_LAGS
  {
  }

  // ---------------------------------------------------------------- decoding

  method DecodeLtpGains(dec: RangeDecoder.RangeDecoder, cc: CcTables, st: Lsf.LsfState, counts: seq<int>)
    returns (gain: seq<int>, filt: seq<int>, gainAccum: int)
    requires dec.Valid() && WellFormed(cc) && SubframeCounts(counts) && -1 <= st.prevGainIdx < ACBG_N && -1 <= st.prevFiltIdx < FCBG_N
    modifies dec, st`prevGainIdx, st`prevFiltIdx
    ensures dec.Valid()
    ensures (dec.State(), gain, filt) == DecodeLtp(cc, old(dec.State()), counts, [], [], old(st.prevGainIdx), old(st.prevFiltIdx))
    ensures LtpSoFar(counts, gain, filt) && |gain| == SUBFRAMES && (forall i :: 0 <= i < |gain| ==> 0 <= gain[i] < ACBG_N)
    ensures st.prevGainIdx == gain[SUBFRAMES - 1] && st.prevFiltIdx == FiltUpto(counts, filt, SUBFRAMES, old(st.prevFiltIdx))
    ensures gainAccum == GainSum(cc, gain)
  {
    hide WellFormed, AcbgainRow, DecodeCdf, DecodeFilt, DecodeLtp, FiltOps, Reading.Reads, GainWeight, AcbgainWeights,
      FiltUpto, GainSum, RangeDecoder.RangeDecoder.Valid, RangeDecoder.RangeDecoder.State;
    gain, filt, gainAccum := [], [], 0;
    SumsStart(cc, counts, st.prevFiltIdx);
    for sf := 0 to SUBFRAMES
      invariant dec.Valid() && |gain| == |filt| == sf && LtpSoFar(counts, gain, filt)
      invariant forall i :: 0 <= i < |gain| ==> 0 <= gain[i] < ACBG_N
      invariant -1 <= st.prevGainIdx < ACBG_N && -1 <= st.prevFiltIdx < FCBG_N
      invariant sf > 0 ==> st.prevGainIdx == gain[sf - 1]
      invariant st.prevFiltIdx == FiltUpto(counts, filt, sf, old(st.prevFiltIdx))
      invariant DecodeLtp(cc, dec.State(), counts, gain, filt, st.prevGainIdx, st.prevFiltIdx)
             == DecodeLtp(cc, old(dec.State()), counts, [], [], old(st.prevGainIdx), old(st.prevFiltIdx))
      invariant gainAccum == GainSum(cc, gain)
    {
      LtpStep(cc, dec.State(), counts, gain, filt, st.prevGainIdx, st.prevFiltIdx);
      var cnt := counts[sf];
      var gi := dec.DecodeCDF(AcbgainRow(cc, st.prevGainIdx));
      st.prevGainIdx := gi;
      gainAccum := gainAccum + GainWeight(cc, gi);
      GainSnoc(cc, gain, gi);
      var fi := DecodeFilter(dec, cc, cnt, st.prevFiltIdx);
      FiltPrefix(counts, filt, fi, old(st.prevFiltIdx));
      if cnt > 0 { st.prevFiltIdx := fi; }
      gain, filt := gain + [gi], filt + [fi];
    }
    LtpDone(cc, dec.State(), counts, gain, filt, st.prevGainIdx, st.prevFiltIdx);
  }

  lemma SumsStart(cc: CcTables, counts: seq<int>, prev: int)
    requires WellFormed(cc) && SubframeCounts(counts)
    ensures GainSum(cc, []) == 0 && FiltUpto(counts, [], 0, prev) == prev
  {
  }

  lemma GainSnoc(cc: CcTables, gain: seq<int>, gi: int)
    requires WellFormed(cc) && 0 <= gi < ACBG_N && forall i :: 0 <= i < |gain| ==> 0 <= gain[i] < ACBG_N
    ensures (forall i :: 0 <= i < |gain + [gi]| ==> 0 <= (gain + [gi])[i] < ACBG_N) && GainSum(cc, gain + [gi]) == GainSum(cc, gain) + GainWeight(cc, gi)
  {
    hide WellFormed, GainWeight;
    assert (gain + [gi])[..|gain|] == gain;
  }

  lemma FiltPrefix(counts: seq<int>, filt: seq<int>, fi: int, prev: int)
    requires SubframeCounts(counts) && |filt| < SUBFRAMES
    ensures FiltUpto(counts, filt + [fi], |filt| + 1, prev) == NextFilt(counts[|filt|], fi, FiltUpto(counts, filt, |filt|, prev))
  {
    FiltSame(counts, filt, fi, |filt|, prev);
  }

  lemma {:induction false} FiltSame(counts: seq<int>, filt: seq<int>, fi: int, n: nat, prev: int)
    requires SubframeCounts(counts) && n <= |filt| < SUBFRAMES
    ensures FiltUpto(counts, filt + [fi], n, prev) == FiltUpto(counts, filt, n, prev)
  {
    if n > 0 { FiltSame(counts, filt, fi, n - 1, prev); }
  }

  method DecodeFilter(dec: RangeDecoder.RangeDecoder, cc: CcTables, cnt: int, prev: int) returns (fi: int)
    requires dec.Valid() && WellFormed(cc) && -1 <= prev < FCBG_N
    modifies dec
    ensures dec.Valid() && (dec.State(), fi) == DecodeFilt(cc, old(dec.State()), cnt, prev)
  {
    hide WellFormed, DecodeCdf, FcbgainVDelta, RangeDecoder.RangeDecoder.Valid, RangeDecoder.RangeDecoder.State;
    fi := -1;
    assert Table(FiltCdf(cc, prev));
    if cnt > 0 {
      if prev == -1 { fi := dec.DecodeCDF(cc.fcbgainsV); } else { fi := dec.DecodeCDF(FcbgainVDelta(cc, prev)); }
    }
  }

  /** The lag symbol, its tables found through the window's header. */
  method DecodeLag(dec: RangeDecoder.RangeDecoder, mem: SmplMem, ghost t: PitchTables, prevLag: int) returns (lag: int)
    requires dec.Valid() && Consistent(t) && mem == MemOf(t) && -1 <= prevLag < NUM_BLOCKS
    modifies dec
    ensures dec.Valid() && (dec.State(), lag) == DecodeLagSymbol(t, old(dec.State()), prevLag)
  {
    hide Consistent, MemOf, CdfAt, U32, DecodeCdf, DecodeLagSymbol, RangeDecoder.RangeDecoder.Valid, RangeDecoder.RangeDecoder.State;
    LagTables(t, prevLag);
    LagStep(t, dec.State(), prevLag);
    var numContours, lagCdf, deltaCdf := U32(mem, PCFG + 22240), U32(mem, PCFG + 22248), U32(mem, PCFG + 22268);
    if prevLag < 0 {
      lag := dec.DecodeCDF(CdfAt(mem, lagCdf, numContours + 1));
    } else {
      var di := dec.DecodeCDF(CdfAt(mem, deltaCdf + prevLag * 20, 10));
      lag := DecodeInRange(dec, mem, t, lagCdf, di);
    }
  }

  /** The header and the first table a lag is read from. */
  lemma LagTables(t: PitchTables, prevLag: int)
    requires Consistent(t) && -1 <= prevLag < NUM_BLOCKS
    ensures var m := MemOf(t);
      && U32(m, PCFG + 22240) == CONTOURS && U32(m, PCFG + 22248) == LAG_CDF && U32(m, PCFG + 22268) == DELTA_CDF
      && (prevLag < 0 ==> Table(t.idxCmf) && CdfAt(m, LAG_CDF, CONTOURS + 1) == t.idxCmf)
      && (prevLag >= 0 ==> |t.moveCmfs| == NUM_BLOCKS && Table(t.moveCmfs[prevLag]) && CdfAt(m, DELTA_CDF + prevLag * 20, 10) == t.moveCmfs[prevLag])
  {
    hide Contour, MemOf, CdfAt, U32;
    HeaderAt(t);
    TableSizes(t);
    PlainTables(t, prevLag);
    LagCdfAt(t, 0, CONTOURS + 1);
    assert t.idxCmf[0..CONTOURS + 1] == t.idxCmf;
    if prevLag >= 0 { MoveCdfAt(t, prevLag); }
  }

  /** What the lag symbol decodes to, spelled out. */
  lemma LagStep(t: PitchTables, d: Dec, prevLag: int)
    requires Consistent(t) && DecRange(d) && -1 <= prevLag < NUM_BLOCKS
    ensures |t.moveCmfs| == |t.ranges| == NUM_BLOCKS && Table(t.idxCmf) && (prevLag >= 0 ==> Table(t.moveCmfs[prevLag]))
    ensures prevLag < 0 ==> DecodeLagSymbol(t, d, prevLag) == DecodeCdf(d, t.idxCmf)
    ensures prevLag >= 0 ==> var (d1, di) := DecodeCdf(d, t.moveCmfs[prevLag]);
      DecRange(d1) && 0 <= di < NUM_BLOCKS && var (d2, sym) := DecodeCdf(d1, RangeCmf(t, di));
      DecodeLagSymbol(t, d, prevLag) == (d2, sym + t.ranges[di].0)
  {
    hide Contour, Built, DecodeCdf, RangeCmf;
    TableSizes(t);
    PlainTables(t, prevLag);
    if prevLag >= 0 { assert |t.moveCmfs[prevLag]| == NUM_BLOCKS + 1; }
  }

  /** The place among the contours that start in block di. */
  method DecodeInRange(dec: RangeDecoder.RangeDecoder, mem: SmplMem, ghost t: PitchTables, lagCdf: u32, di: int) returns (lag: int)
    requires dec.Valid() && Consistent(t) && mem == MemOf(t) && lagCdf == LAG_CDF && 0 <= di < NUM_BLOCKS && |t.ranges| == NUM_BLOCKS
    modifies dec
    ensures dec.Valid() && var (d2, sym) := DecodeCdf(old(dec.State()), RangeCmf(t, di));
      dec.State() == d2 && lag == sym + t.ranges[di].0
  {
    hide Contour, MemOf, CdfAt, U8, DecodeCdf, Strict, RangeDecoder.RangeDecoder.Valid, RangeDecoder.RangeDecoder.State;
    BoundsAt(t, di);
    var lo: int, hi: int := U8(mem, DELTA_BOUNDS + di * 2), U8(mem, DELTA_BOUNDS + di * 2 + 1);
    var rN := hi - lo + 2;
    LagCdfAt(t, lo, rN);
    RangeCmfIs(t, di);
    assert Table(RangeCmf(t, di));
    var sym := dec.DecodeCDF(CdfAt(mem, lagCdf + lo * 2, rN));
    lag := sym + lo;
  }

  /** The contour whose number follows the lag symbol. */
  lemma IsBuilt(t: PitchTables)
    requires Consistent(t)
    ensures Built(t)
  {
  }

  lemma FindStep(t: PitchTables, lag: int, i: nat)
    requires Consistent(t) && i <= CONTOURS
    ensures |t.toIdx| == CONTOURS
    ensures i == CONTOURS ==> FindContour(t, lag, i) == -1
    ensures i < CONTOURS ==> FindContour(t, lag, i) == if t.toIdx[i] == lag + 1 then i else FindContour(t, lag, i + 1)
  {
  }

  method SearchContour(mem: SmplMem, ghost t: PitchTables, lag: int) returns (contour: int)
    requires Consistent(t) && mem == MemOf(t)
    ensures |t.toIdx| == CONTOURS && contour == FindContour(t, lag, 0)
  {
    hide Contour, MemOf, U32, U8, Consistent, Built, FindContour;
    IsBuilt(t);
    TableSizes(t);
    HeaderAt(t);
    var contourMap := U32(mem, PCFG + 22244);
    var target := lag + 1;
    contour := -1;
    var i := 0;
    while i < 217
      invariant 0 <= i <= 217 && FindContour(t, lag, i) == FindContour(t, lag, 0)
      invariant contour == -1
    {
      FindStep(t, lag, i);
      MapAt(t, i);
      var x := U8(mem, contourMap + i);
      if x == target {
        contour := i;
        return;
      }
      i := i + 1;
    }
    FindStep(t, lag, 217);
  }

  /** Writes one segment's lag into the block lags and, for the first four blocks, the subframe lags. */
  method FillSegment(blockLags: array<int>, intLags: array<int>, at: nat, n: nat, x: int)
    requires blockLags.Length == BLOCK_LAGS && intLags.Length == SUBFRAMES && at + n <= BLOCK_LAGS && blockLags != intLags
    requires forall i :: 0 <= i < at && i < SUBFRAMES ==> intLags[i] == blockLags[i]
    modifies blockLags, intLags
    ensures blockLags[..at + n] == old(blockLags[..at]) + RepeatLag(x, n)
    ensures forall i :: 0 <= i < at + n && i < SUBFRAMES ==> intLags[i] == blockLags[i]
  {
    var w := at;
    for i := 0 to n
      invariant w == at + i
      invariant forall j :: 0 <= j < at ==> blockLags[j] == old(blockLags[j])
      invariant forall j :: at <= j < w ==> blockLags[j] == x
      invariant forall j :: 0 <= j < w && j < SUBFRAMES ==> intLags[j] == blockLags[j]
    {
      if w < 4 { intLags[w] := x; }
      if w < 8 { blockLags[w] := x; }
      w := w + 1;
    }
  }

  /** One segment of the contour: its coarse lag and length from the window, its step from the wide table. */
  method DecodeStep(dec: RangeDecoder.RangeDecoder, mem: SmplMem, ghost t: PitchTables, segSel: nat, segLag: int, prevLag: int, prevFracLag: int)
    returns (l3: int)
    requires dec.Valid() && Built(t) && mem == MemOf(t) && segSel < 3 && InBlock(prevLag, prevFracLag) && Near(prevLag, segLag)
    modifies dec
    ensures dec.Valid() && var (d1, sym) := DecodeCdf(old(dec.State()), DeltaWindow(t, segSel, prevLag, prevFracLag, segLag));
      dec.State() == d1 && l3 == BLOCK * segLag + sym
    ensures InBlock(segLag, l3)
  {
    hide Built, MemOf, CdfAt, U32, DecodeCdf, Strict, RangeDecoder.RangeDecoder.Valid, RangeDecoder.RangeDecoder.State;
    HeaderAt(t);
    var fracBase := U32(mem, PCFG + 22252);
    var fracSegBase := fracBase + segSel * 0x280;
    var nl2 := (prevLag * BLOCK - prevFracLag) + (segLag - prevLag) * BLOCK;
    var off := (fracSegBase + nl2 * 2 % WORD + 0xfe) % WORD;
    DeltaAddress(t, segSel, prevLag, prevFracLag, segLag);
    WrapsToTable(fracSegBase, nl2);
    var sym := dec.DecodeCDF(CdfAt(mem, off, 65));
    l3 := sym + prevFracLag + nl2;
  }

  lemma WrapsToTable(base: int, nl2: int)
    requires FRAC_BASE <= base < 0x1000_0000 && -127 <= nl2 <= 128
    ensures (base + nl2 * 2 % WORD + 0xfe) % WORD == base + 2 * (nl2 + 127)
  {
    if nl2 < 0 { DivModUnique(nl2 * 2, WORD, -1, nl2 * 2 + WORD); } else { DivModUnique(nl2 * 2, WORD, 0, nl2 * 2); }
  }

  lemma DeltaAddress(t: PitchTables, mode: nat, prevBlk: int, prevIdx: int, blk: int)
    requires Built(t) && mode < 3 && InBlock(prevBlk, prevIdx) && Near(prevBlk, blk)
    ensures var start := BLOCK * blk - prevIdx + 127;
      && 0 <= start <= 255
      && CdfAt(MemOf(t), FRAC_BASE + 0x280 * mode + 2 * start, 65) == DeltaWindow(t, mode, prevBlk, prevIdx, blk)
      && Table(DeltaWindow(t, mode, prevBlk, prevIdx, blk))
  {
    hide MemOf, CdfAt;
    FracCdfAt(t, mode, BLOCK * blk - prevIdx + 127);
  }

  /** Fine lag unless predicted, then every further segment; the frame's eight block lags. */
  method DecodeLagTrack(dec: RangeDecoder.RangeDecoder, mem: SmplMem, ghost t: PitchTables, st: Lsf.LsfState, contour: int, segSel: nat)
    returns (blockLags: array<int>, intLags: array<int>, numSeg: int)
    requires dec.Valid() && Consistent(t) && mem == MemOf(t) && 0 <= contour < CONTOURS && segSel < 3
    requires -1 <= st.prevLag < NUM_BLOCKS && (st.prevLag >= 0 ==> InBlock(st.prevLag, st.prevFracLag))
    modifies dec, st`prevLag, st`prevFracLag
    ensures fresh(blockLags) && fresh(intLags) && blockLags.Length == BLOCK_LAGS && intLags.Length == SUBFRAMES && dec.Valid()
    ensures (dec.State(), blockLags[..]) == DecodeTrack(t, old(dec.State()), segSel, old(st.prevLag), old(st.prevFracLag), t.segs[contour])
    ensures forall i :: 0 <= i < SUBFRAMES ==> intLags[i] == blockLags[i]
    ensures var blocks := t.segs[contour].blocks;
      numSeg == |blocks| > 0 && st.prevLag == blocks[|blocks| - 1] && st.prevFracLag == blockLags[BLOCK_LAGS - 1]
  {
    hide Built, Contour, MemOf, I32, DecodeSegs, DecodeTrack, LagsSoFar, RepeatLag, Covered,
      RangeDecoder.RangeDecoder.Valid, RangeDecoder.RangeDecoder.State;
    SegmentStart(t, contour);
    ghost var s := t.segs[contour];
    NoLags(s);
    NoneCovered(s);
    blockLags, intLags := new int[BLOCK_LAGS](_ => 0), new int[SUBFRAMES](_ => 0);
    var ctrBase := PCFG + contour * 0x44;
    var baseLag := I32(mem, ctrBase + 0x1d38);
    var readFine := true;
    if st.prevLag >= 0 {
      var delta := baseLag - st.prevLag;
      if delta >= -1 && delta < 3 { readFine := false; }
    }
    numSeg := I32(mem, ctrBase + 0x1d78);
    if readFine {
      DecodeFromFine(dec, mem, t, st, contour, segSel, blockLags, intLags);
    } else {
      PredictedTrack(t, dec.State(), segSel, st.prevLag, st.prevFracLag, s);
      DecodeTail(dec, mem, t, st, contour, segSel, 0, 0, blockLags, intLags, []);
    }
  }

  lemma NoneCovered(s: BlockSeg)
    ensures Covered(s, 0) == 0
  {
  }

  lemma PredictedTrack(t: PitchTables, d: Dec, mode: nat, prevBlk: int, prevIdx: int, s: BlockSeg)
    requires Built(t) && DecRange(d) && mode < 3 && Contour(s) && prevBlk >= 0 && InBlock(prevBlk, prevIdx) && Near(prevBlk, s.blocks[0])
    ensures DecodeTrack(t, d, mode, prevBlk, prevIdx, s) == DecodeSegs(t, d, mode, s, 0, prevBlk, prevIdx, [])
  {
  }

  lemma FineTrack(t: PitchTables, d: Dec, mode: nat, prevBlk: int, prevIdx: int, s: BlockSeg)
    requires Built(t) && DecRange(d) && mode < 3 && Contour(s) && (prevBlk >= 0 ==> InBlock(prevBlk, prevIdx)) && !Predicted(prevBlk, s.blocks[0])
    ensures var (d1, sym) := DecodeUniform(d, BLOCK);
      var idx := BLOCK * s.blocks[0] + sym;
      && DecRange(d1) && InBlock(s.blocks[0], idx) && |RepeatLag(idx, s.seglens[0])| == Covered(s, 1) && LagsSoFar(s, 1, RepeatLag(idx, s.seglens[0]))
      && (|s.blocks| > 1 ==> Near(s.blocks[0], s.blocks[1]))
      && DecodeTrack(t, d, mode, prevBlk, prevIdx, s) == DecodeSegs(t, d1, mode, s, 1, s.blocks[0], idx, RepeatLag(idx, s.seglens[0]))
  {
    hide Built, DecodeUniform, DecodeSegs, LagsSoFar;
    var idx := BLOCK * s.blocks[0] + DecodeUniform(d, BLOCK).1;
    NoLags(s);
    SoFarGrows(s, 0, [], idx);
    assert [] + RepeatLag(idx, s.seglens[0]) == RepeatLag(idx, s.seglens[0]);
  }

  /** The first lag to within 1/64, then the segments after the first. */
  method DecodeFromFine(dec: RangeDecoder.RangeDecoder, mem: SmplMem, ghost t: PitchTables, st: Lsf.LsfState, contour: int, segSel: nat,
                        blockLags: array<int>, intLags: array<int>)
    requires dec.Valid() && Consistent(t) && mem == MemOf(t) && 0 <= contour < CONTOURS && segSel < 3
    requires -1 <= st.prevLag < NUM_BLOCKS && (st.prevLag >= 0 ==> InBlock(st.prevLag, st.prevFracLag))
    requires !Predicted(st.prevLag, FirstBlock(t, contour))
    requires blockLags.Length == BLOCK_LAGS && intLags.Length == SUBFRAMES && blockLags != intLags
    modifies dec, st`prevLag, st`prevFracLag, blockLags, intLags
    ensures dec.Valid()
    ensures (dec.State(), blockLags[..]) == DecodeTrack(t, old(dec.State()), segSel, old(st.prevLag), old(st.prevFracLag), t.segs[contour])
    ensures forall i :: 0 <= i < SUBFRAMES ==> intLags[i] == blockLags[i]
    ensures var blocks := t.segs[contour].blocks;
      |blocks| > 0 && st.prevLag == blocks[|blocks| - 1] && st.prevFracLag == blockLags[BLOCK_LAGS - 1]
  {
    hide Built, Contour, MemOf, I32, DecodeSegs, DecodeUniform, DecodeTrack, LagsSoFar, RepeatLag, Covered,
      RangeDecoder.RangeDecoder.Valid, RangeDecoder.RangeDecoder.State;
    SegmentStart(t, contour);
    ghost var s := t.segs[contour];
    FirstSegment(s);
    FineTrack(t, dec.State(), segSel, st.prevLag, st.prevFracLag, s);
    var ctrBase := PCFG + contour * 0x44;
    var baseLag, segLen0 := I32(mem, ctrBase + 0x1d38), I32(mem, ctrBase + 0x1d58);
    var curLag2 := DecodeFine(dec, baseLag, blockLags, intLags, segLen0);
    st.prevFracLag, st.prevLag := curLag2, baseLag;
    HeadLast(curLag2, segLen0);
    DecodeTail(dec, mem, t, st, contour, segSel, 1, segLen0, blockLags, intLags, RepeatLag(curLag2, segLen0));
  }

  lemma FirstSegment(s: BlockSeg)
    requires Contour(s)
    ensures |s.blocks| > 0 && Covered(s, 1) == s.seglens[0] <= BLOCK_LAGS && s.seglens[0] > 0
    ensures |s.blocks| > 1 ==> Near(s.blocks[0], s.blocks[1])
  {
    CoveredRises(s, 1, |s.seglens|);
  }

  lemma HeadLast(x: int, n: nat)
    requires n > 0
    ensures RepeatLag(x, n) != [] && RepeatLag(x, n)[n - 1] == x && |RepeatLag(x, n)| == n
  {
  }

  lemma SegmentStart(t: PitchTables, c: int)
    requires Consistent(t) && 0 <= c < CONTOURS
    ensures |t.segs| == CONTOURS && Contour(t.segs[c]) && var s, m, ctr := t.segs[c], MemOf(t), PCFG + c * 0x44;
      && 1 <= |s.blocks| == |s.seglens| <= 6 && s.blocks[0] < NUM_BLOCKS && s.seglens[0] <= 4
      && I32(m, ctr + 0x1d78) == |s.blocks| && I32(m, ctr + 0x1d38) == s.blocks[0] && I32(m, ctr + 0x1d58) == s.seglens[0]
  {
    hide MemOf, I32;
    SegmentReads(t, c);
    assert SegShape(t.segs[c]);
  }

  /** The fine lag fills the first segment, and one block beyond it that the next segment overwrites. */
  method DecodeFine(dec: RangeDecoder.RangeDecoder, baseLag: int, blockLags: array<int>, intLags: array<int>, segLen0: nat) returns (curLag2: int)
    requires dec.Valid() && blockLags.Length == BLOCK_LAGS && intLags.Length == SUBFRAMES && blockLags != intLags && segLen0 <= BLOCK_LAGS
    modifies dec, blockLags, intLags
    ensures dec.Valid() && var (d1, sym) := DecodeUniform(old(dec.State()), BLOCK); dec.State() == d1 && curLag2 == BLOCK * baseLag + sym
    ensures InBlock(baseLag, curLag2) && blockLags[..segLen0] == RepeatLag(curLag2, segLen0)
    ensures forall i :: 0 <= i < segLen0 && i < SUBFRAMES ==> intLags[i] == blockLags[i]
  {
    hide DecodeUniform, RangeDecoder.RangeDecoder.Valid, RangeDecoder.RangeDecoder.State;
    var sym := dec.Decode64FineSym();
    curLag2 := baseLag * 64 + sym;
    FillSegment(blockLags, intLags, 0, segLen0, curLag2);
    ghost var filled := blockLags[..segLen0];
    assert filled == [] + RepeatLag(curLag2, segLen0) == RepeatLag(curLag2, segLen0);
    if segLen0 < 4 { intLags[segLen0] := curLag2; }
    if segLen0 < 8 { blockLags[segLen0] := curLag2; }
    assert blockLags[..segLen0] == filled;
  }

  /** Segments from seg on. */
  method DecodeTail(dec: RangeDecoder.RangeDecoder, mem: SmplMem, ghost t: PitchTables, st: Lsf.LsfState, contour: int, segSel: nat,
                    seg0: nat, subfrW0: nat, blockLags: array<int>, intLags: array<int>, ghost acc0: seq<int>)
    requires dec.Valid() && Consistent(t) && mem == MemOf(t) && 0 <= contour < CONTOURS && segSel < 3
    requires blockLags.Length == BLOCK_LAGS && intLags.Length == SUBFRAMES && blockLags != intLags
    requires var s := t.segs[contour];
      && seg0 <= |s.blocks| && InBlock(st.prevLag, st.prevFracLag) && (seg0 < |s.blocks| ==> Near(st.prevLag, s.blocks[seg0]))
      && (seg0 > 0 ==> st.prevLag == s.blocks[seg0 - 1] && acc0 != [] && acc0[|acc0| - 1] == st.prevFracLag)
      && LagsSoFar(s, seg0, acc0) && |acc0| == subfrW0 == Covered(s, seg0) && subfrW0 <= BLOCK_LAGS && blockLags[..subfrW0] == acc0
      && (forall i :: 0 <= i < subfrW0 && i < SUBFRAMES ==> intLags[i] == blockLags[i])
    modifies dec, st`prevLag, st`prevFracLag, blockLags, intLags
    ensures dec.Valid()
    ensures (dec.State(), blockLags[..]) == DecodeSegs(t, old(dec.State()), segSel, t.segs[contour], seg0, old(st.prevLag), old(st.prevFracLag), acc0)
    ensures forall i :: 0 <= i < SUBFRAMES ==> intLags[i] == blockLags[i]
    ensures var blocks := t.segs[contour].blocks;
      |blocks| > 0 && st.prevLag == blocks[|blocks| - 1] && st.prevFracLag == blockLags[BLOCK_LAGS - 1]
  {
    hide Built, Contour, MemOf, I32, DecodeCdf, DecodeSegs, LagsSoFar, DeltaWindow, Reading.Reads, RepeatLag, Covered, Codes, CdfOp, Near, InBlock,
      RangeDecoder.RangeDecoder.Valid, RangeDecoder.RangeDecoder.State;
    TableSizes(t);
    ghost var s, acc := t.segs[contour], acc0;
    SegmentReads(t, contour);
    ghost var goal := DecodeSegs(t, dec.State(), segSel, s, seg0, st.prevLag, st.prevFracLag, acc0);
    var ctrBase := PCFG + contour * 0x44;
    var cnt2 := I32(mem, ctrBase + 0x1d78);
    var seg, subfrW: nat := seg0, subfrW0;
    while seg < cnt2
      invariant 0 <= seg <= cnt2 == |s.blocks| && dec.Valid() && InBlock(st.prevLag, st.prevFracLag)
      invariant seg < |s.blocks| ==> Near(st.prevLag, s.blocks[seg])
      invariant seg > 0 ==> st.prevLag == s.blocks[seg - 1] && acc != [] && acc[|acc| - 1] == st.prevFracLag
      invariant LagsSoFar(s, seg, acc) && |acc| == subfrW == Covered(s, seg) && subfrW <= BLOCK_LAGS && blockLags[..subfrW] == acc
      invariant forall i :: 0 <= i < subfrW && i < SUBFRAMES ==> intLags[i] == blockLags[i]
      invariant DecodeSegs(t, dec.State(), segSel, s, seg, st.prevLag, st.prevFracLag, acc) == goal
    {
      SegStep(t, dec.State(), segSel, s, seg, st.prevLag, st.prevFracLag, acc);
      var segLag := I32(mem, ctrBase + 0x1d38 + seg * 4);
      var l3 := DecodeStep(dec, mem, t, segSel, segLag, st.prevLag, st.prevFracLag);
      var segLen := I32(mem, ctrBase + 0x1d58 + seg * 4);
      NextCovered(s, seg, acc, l3);
      FillSegment(blockLags, intLags, subfrW, segLen, l3);
      acc := acc + RepeatLag(l3, segLen);
      subfrW := subfrW + segLen;
      st.prevFracLag, st.prevLag := l3, segLag;
      seg := seg + 1;
    }
    TrackEnds(t, dec.State(), segSel, s, st.prevLag, st.prevFracLag, acc);
    assert blockLags[..] == blockLags[..BLOCK_LAGS];
  }

  lemma SegmentReads(t: PitchTables, c: int)
    requires Consistent(t) && 0 <= c < CONTOURS
    ensures |t.segs| == CONTOURS && var s, m, ctr := t.segs[c], MemOf(t), PCFG + c * 0x44;
      && 1 <= |s.blocks| == |s.seglens| <= 6 && I32(m, ctr + 0x1d78) == |s.blocks|
      && I32(m, ctr + 0x1d38) == s.blocks[0] && I32(m, ctr + 0x1d58) == s.seglens[0]
      && (forall k :: 0 <= k < |s.blocks| ==> I32(m, ctr + 0x1d38 + k * 4) == s.blocks[k] && I32(m, ctr + 0x1d58 + k * 4) == s.seglens[k])
  {
    hide MemOf, I32, Contour;
    assert SegShape(t.segs[c]);
    var s, ctr := t.segs[c], PCFG + c * 0x44;
    RecordAt(t, c, 0);
    RecordAt(t, c, 8);
    RecordAt(t, c, 16);
    forall k | 0 <= k < |s.blocks|
      ensures I32(MemOf(t), ctr + 0x1d38 + k * 4) == s.blocks[k] && I32(MemOf(t), ctr + 0x1d58 + k * 4) == s.seglens[k]
    {
      RecordAt(t, c, k);
      RecordAt(t, c, 8 + k);
    }
  }

  lemma NextCovered(s: BlockSeg, k: nat, acc: seq<int>, x: int)
    requires Contour(s) && k < |s.blocks| && |acc| == Covered(s, k)
    ensures Covered(s, k + 1) == Covered(s, k) + s.seglens[k] <= BLOCK_LAGS && s.seglens[k] > 0
    ensures |acc + RepeatLag(x, s.seglens[k])| == Covered(s, k + 1)
    ensures (acc + RepeatLag(x, s.seglens[k]))[Covered(s, k + 1) - 1] == x
  {
    CoveredRises(s, k + 1, |s.seglens|);
  }

  lemma TrackEnds(t: PitchTables, d: Dec, mode: nat, s: BlockSeg, prevBlk: int, prevIdx: int, acc: seq<int>)
    requires Built(t) && DecRange(d) && mode < 3 && Contour(s) && InBlock(prevBlk, prevIdx) && |acc| == Covered(s, |s.blocks|)
    ensures |acc| == BLOCK_LAGS && DecodeSegs(t, d, mode, s, |s.blocks|, prevBlk, prevIdx, acc) == (d, acc)
  {
  }

  datatype PitchResult = PitchResult(params: PitchParams, lag: int, intLagQ6: seq<int>, numSeg: int)

  method DecodeSmplPitch(dec: RangeDecoder.RangeDecoder, cc: CcTables, mem: SmplMem, ghost t: PitchTables, st: Lsf.LsfState, counts: seq<int>)
    returns (res: PitchResult)
    requires dec.Valid() && WellFormed(cc) && Consistent(t) && mem == MemOf(t) && SubframeCounts(counts) && Ready(st.DecoderView())
    modifies dec, st
    ensures dec.Valid() && (dec.State(), res.params) == DecodePitch(cc, t, old(dec.State()), counts, old(st.DecoderView()))
    ensures Pitch.Valid(cc, t, counts, res.params)
    ensures |res.params.gainIdx| == |res.params.filtIdx| == SUBFRAMES && |res.params.laginds| == BLOCK_LAGS
    ensures st.DecoderView() == After(t, counts, old(st.DecoderView()), res.params)
    ensures res.intLagQ6 == res.params.laginds[..SUBFRAMES] && res.lag == t.toIdx[res.params.contour] - 1
    ensures st.prevLagblk == old(st.prevLagblk) && st.prevLagidx == old(st.prevLagidx)
  {
    hide WellFormed, Built, Contour, MemOf, DecodeLtp, DecodeLagSymbol, DecodeTrack, GainSum, LtpFits, LagsFit, LtpSoFar, PitchOps, Reading.Reads, FindContour,
      RangeDecoder.RangeDecoder.Valid, RangeDecoder.RangeDecoder.State;
    TableSizes(t);
    PitchParsed(cc, t, dec.State(), counts, st.DecoderView());
    var gain, filt, gainAccum := DecodeLtpGains(dec, cc, st, counts);
    var avgGain := Quarter(gainAccum);
    var lag := DecodeLag(dec, mem, t, st.prevLag);
    Onto(t, lag);
    var contour := SearchContour(mem, t, lag);
    var segSel := 0;
    if avgGain >= 10007 {
      if avgGain < 14085 { segSel := 1; } else { segSel := 2; }
    }
    var blockLags, intLags, numSeg := DecodeLagTrack(dec, mem, t, st, contour, segSel);
    res := PitchResult(PitchParams(gain, filt, contour, blockLags[..]), lag, intLags[..], numSeg);
    assert intLags[..] == blockLags[..][..SUBFRAMES];
  }
}
