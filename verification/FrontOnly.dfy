/** None of the parameter syntaxes puts raw bits at the back of the buffer, so a packet is its front bytes. */
module FrontOnly {
  import opened Words
  import opened RangeSpec
  import opened CdfSpec
  import opened RawProof
  import opened RangeProof
  import opened RangeRoundTrip
  import opened CcTables
  import opened PulseSpec
  import PitchTables
  import Pitch
  import Gains
  import Lsf

  lemma NoRawCat(a: seq<Op>, b: seq<Op>)
    requires NoRaw(a) && NoRaw(b)
    ensures NoRaw(a + b)
  {
  }

  lemma {:induction false} RunsNoRaw(cc: CcTables, left: int, runs: seq<int>)
    requires WellFormed(cc) && |runs| <= SUBFR_PULSES && left <= SUBFR_LEN && RunsFit(left, runs)
    ensures NoRaw(RunOps(cc, left, runs))
    decreases |runs|
  {
    hide WellFormed, RunWindow, Codable;
    if runs != [] { RunsNoRaw(cc, left - runs[0], runs[1..]); }
  }

  lemma {:induction false} MagsNoRaw(cc: CcTables, subfr: seq<int>, runs: seq<int>, sf: nat)
    requires WellFormed(cc) && Counts(subfr) && sf <= SUBFRAMES && RunsOk(subfr, runs, sf)
    ensures NoRaw(MagOps(cc, subfr, runs, sf))
    decreases SUBFRAMES - sf
  {
    hide WellFormed, RunOps, RunsFit, NoRaw, Codable;
    if sf < SUBFRAMES {
      RunsNoRaw(cc, SUBFR_LEN, runs[..subfr[sf]]);
      MagsNoRaw(cc, subfr, runs[subfr[sf]..], sf + 1);
      NoRawCat(RunOps(cc, SUBFR_LEN, runs[..subfr[sf]]), MagOps(cc, subfr, runs[subfr[sf]..], sf + 1));
    } else {
      NoRawNil();
    }
  }

  lemma NoRawNil()
    ensures NoRaw([])
  {
  }

  lemma {:induction false} SignsNoRaw(syms: seq<RawSymbol>, n: nat)
    requires Batches(syms, n)
    ensures NoRaw(SignOps(syms, n))
    decreases |syms|
  {
    hide Codable;
    if n > 0 { SignsNoRaw(syms[1..], n - syms[0].nbits); }
  }

  lemma SplitNoRaw(cc: CcTables, subfr: seq<int>)
    requires WellFormed(cc) && Counts(subfr)
    ensures NoRaw(SplitOps(cc, subfr))
  {
    hide WellFormed, HalfWindow, SumWindow, Codable, Codes;
  }

  lemma PulsesNoRaw(cc: CcTables, p: PulseParams)
    requires WellFormed(cc) && Replayable(p)
    ensures NoRaw(PulseOps(cc, p))
  {
    hide WellFormed, SplitOps, MagOps, SignOps, CountTable, RunsOk, WalkAll, Batches, NoRaw, Codable;
    var n := |WalkAll(p.subfr, p.magRuns, 0, Fresh).pos|;
    TotalFits(p.subfr);
    SplitNoRaw(cc, p.subfr);
    MagsNoRaw(cc, p.subfr, p.magRuns, 0);
    SignsNoRaw(p.signSyms, n);
    NoRawCat(MagOps(cc, p.subfr, p.magRuns, 0), SignOps(p.signSyms, n));
    NoRawCat(SplitOps(cc, p.subfr), ShapeOps(cc, p));
    OneNoRaw(CountTable(), p.total);
    NoRawCat([CdfOp(CountTable(), p.total)], SplitOps(cc, p.subfr) + ShapeOps(cc, p));
  }

  lemma OneNoRaw(cdf: seq<u16>, s: int)
    requires Codes(cdf, s)
    ensures NoRaw([CdfOp(cdf, s)])
  {
  }

  lemma {:induction false} ListNoRaw(tables: seq<seq<u16>>, syms: seq<int>)
    requires Lsf.AllCode(tables, syms)
    ensures NoRaw(Lsf.ListOps(tables, syms))
    decreases |tables|
  {
    hide Codable, Codes;
    if tables != [] { ListNoRaw(tables[1..], syms[1..]); }
  }

  lemma LsfNoRaw(t: Lsf.LsfTables, st: Lsf.Predictor, config: nat, intf: nat, p: Lsf.LsfParams)
    requires Lsf.WellFormed(t) && config < 2 && Lsf.Valid(t, st, config, intf, p)
    ensures NoRaw(Lsf.LsfOps(t, st, config, intf, p))
  {
    hide Lsf.WellFormed, Lsf.ListOps, Lsf.LsfTail, Lsf.LsfHead, Lsf.LsfGridCdf, Codable, Codes;
    ListNoRaw(Lsf.LsfTail(t, config, p.stage1, p.grid), p.stage2 + [p.extra]);
  }

  lemma {:induction false} NrgNoRaw(cc: CcTables, counts: seq<int>, p: Gains.GainParams, sf: nat)
    requires WellFormed(cc) && Gains.SubframeCounts(counts) && Gains.Valid(cc, counts, p) && sf <= Gains.SUBFRAMES
    ensures NoRaw(Gains.NrgOps(cc, counts, p, sf))
    decreases Gains.SUBFRAMES - sf
  {
    hide WellFormed, Gains.NrgWindow, Codable;
    if sf < Gains.SUBFRAMES { NrgNoRaw(cc, counts, p, sf + 1); }
  }

  lemma GainsNoRaw(cc: CcTables, counts: seq<int>, p: Gains.GainParams)
    requires WellFormed(cc) && Gains.SubframeCounts(counts) && Gains.Valid(cc, counts, p)
    ensures NoRaw(Gains.GainOps(cc, counts, p))
  {
    hide WellFormed, Gains.NrgOps, Codable;
    NrgNoRaw(cc, counts, p, 0);
  }

  lemma {:induction false} LtpNoRaw(cc: CcTables, counts: seq<int>, gain: seq<int>, filt: seq<int>, sf: nat, prevGain: int, prevFilt: int)
    requires WellFormed(cc) && Gains.SubframeCounts(counts) && Pitch.LtpFits(counts, gain, filt) && sf <= Gains.SUBFRAMES
    requires -1 <= prevGain < ACBG_N && -1 <= prevFilt < FCBG_N
    ensures NoRaw(Pitch.LtpOps(cc, counts, gain, filt, sf, prevGain, prevFilt))
    decreases Gains.SUBFRAMES - sf
  {
    hide WellFormed, AcbgainRow, Pitch.FiltOps, Pitch.LtpOps, Codable, Codes, NoRaw;
    Pitch.LtpUnfolds(cc, counts, gain, filt, sf, prevGain, prevFilt);
    if sf < Gains.SUBFRAMES {
      var row, next := AcbgainRow(cc, prevGain), Pitch.NextFilt(counts[sf], filt[sf], prevFilt);
      var b, c := Pitch.FiltOps(cc, counts[sf], filt[sf], prevFilt), Pitch.LtpOps(cc, counts, gain, filt, sf + 1, gain[sf], next);
      FiltNoRaw(cc, counts[sf], filt[sf], prevFilt);
      LtpNoRaw(cc, counts, gain, filt, sf + 1, gain[sf], next);
      OneNoRaw(row, gain[sf]);
      NoRawCat(b, c);
      NoRawCat([CdfOp(row, gain[sf])], b + c);
    } else {
      NoRawNil();
    }
  }

  lemma FiltNoRaw(cc: CcTables, cnt: int, filt: int, prev: int)
    requires WellFormed(cc) && -1 <= prev < FCBG_N && (cnt > 0 ==> 0 <= filt < FCBG_N)
    ensures NoRaw(Pitch.FiltOps(cc, cnt, filt, prev))
  {
    hide WellFormed, Pitch.FiltCdf, Codable;
  }

  lemma {:induction false} SegsNoRaw(t: PitchTables.PitchTables, mode: nat, s: PitchTables.BlockSeg, lag: seq<int>, k: nat, prevBlk: int, prevIdx: int)
    requires PitchTables.Built(t) && mode < 3 && PitchTables.Contour(s) && Pitch.LagsFit(s, lag) && k <= |s.blocks| && Pitch.InBlock(prevBlk, prevIdx)
    requires k < |s.blocks| ==> PitchTables.Near(prevBlk, s.blocks[k])
    ensures NoRaw(Pitch.SegOps(t, mode, s, lag, k, prevBlk, prevIdx))
    decreases |s.blocks| - k
  {
    hide PitchTables.Built, Pitch.DeltaWindow, Pitch.LagsFit, Codable;
    if k < |s.blocks| { SegsNoRaw(t, mode, s, lag, k + 1, s.blocks[k], Pitch.LagAt(s, lag, k)); }
  }

  lemma TrackNoRaw(t: PitchTables.PitchTables, mode: nat, prevBlk: int, prevIdx: int, s: PitchTables.BlockSeg, lag: seq<int>)
    requires PitchTables.Built(t) && mode < 3 && PitchTables.Contour(s) && Pitch.LagsFit(s, lag) && (prevBlk >= 0 ==> Pitch.InBlock(prevBlk, prevIdx))
    ensures NoRaw(Pitch.TrackOps(t, mode, prevBlk, prevIdx, s, lag))
  {
    hide PitchTables.Built, Pitch.SegOps, Pitch.LagsFit, Codable;
    if Pitch.Predicted(prevBlk, s.blocks[0]) {
      SegsNoRaw(t, mode, s, lag, 0, prevBlk, prevIdx);
    } else {
      SegsNoRaw(t, mode, s, lag, 1, s.blocks[0], Pitch.LagAt(s, lag, 0));
    }
  }

  lemma ContourNoRaw(t: PitchTables.PitchTables, prevBlk: int, c: int)
    requires PitchTables.Consistent(t) && -1 <= prevBlk < PitchTables.NUM_BLOCKS && 0 <= c < PitchTables.CONTOURS
    ensures NoRaw(Pitch.ContourOps(t, prevBlk, c))
  {
    hide PitchTables.Built, PitchTables.Contour, Pitch.RangeCmf, Codable, Codes;
  }

  lemma PitchNoRaw(cc: CcTables, t: PitchTables.PitchTables, counts: seq<int>, st: Lsf.Predictor, p: Pitch.PitchParams)
    requires WellFormed(cc) && PitchTables.Consistent(t) && Gains.SubframeCounts(counts) && Pitch.Ready(st) && Pitch.Valid(cc, t, counts, p)
    ensures NoRaw(Pitch.PitchOps(cc, t, counts, st, p))
  {
    hide WellFormed, PitchTables.Built, PitchTables.Contour, Pitch.LtpOps, Pitch.ContourOps, Pitch.TrackOps, Pitch.LtpFits, Pitch.LagsFit, Pitch.ModeOf,
      NoRaw, Codable;
    Pitch.TableSizes(t);
    Pitch.FitsModes(counts, p.gainIdx, p.filtIdx);
    var mode := Pitch.ModeOf(cc, p.gainIdx);
    LtpNoRaw(cc, counts, p.gainIdx, p.filtIdx, 0, st.gainIdx, st.filtIdx);
    ContourNoRaw(t, st.lagBlk, p.contour);
    TrackNoRaw(t, mode, st.lagBlk, st.lagIdx, t.segs[p.contour], p.laginds);
    NoRawCat(Pitch.ContourOps(t, st.lagBlk, p.contour), Pitch.TrackOps(t, mode, st.lagBlk, st.lagIdx, t.segs[p.contour], p.laginds));
    NoRawCat(Pitch.LtpOps(cc, counts, p.gainIdx, p.filtIdx, 0, st.gainIdx, st.filtIdx), Pitch.LagOps(t, mode, st, p.contour, p.laginds));
  }

  /** A run of front steps leaves nothing at the back: the bytes consumed are the front bytes. */
  lemma FrontIsAll(room: nat, ops: seq<Op>)
    requires AllCodable(ops) && NoRaw(ops) && Done(EncodeAll(NewEnc(room), ops)).ok
    ensures var f := Done(EncodeAll(NewEnc(room), ops)); f.back == [] && f.used == 0
  {
    hide NoRaw, Codable;
    var e := EncodeAll(NewEnc(room), ops);
    NewInStep([], room);
    DoneKeepsOk(e);
    NoRawBits(NewEnc(room), ops);
    DoneNoTail(e);
  }

  lemma DoneNoTail(e: Enc)
    requires EncRange(e) && e.back == [] && e.used == 0
    ensures Done(e).back == [] && Done(e).used == 0
  {
    var (l, _, end) := FlushBlock(e.val, e.rng);
    FlushTail(e, end, l);
    var e1 := FlushSyms(e, end, l);
    CarryTail(e1, 0);
  }

  lemma {:induction false} RunTail(e: Enc, b: int)
    ensures WriteRun(e, b).back == e.back && WriteRun(e, b).used == e.used
    decreases e.ext
  {
    if e.ext > 0 { RunTail(WriteByte(e, b).(ext := e.ext - 1), b); }
  }

  lemma CarryTail(e: Enc, c: nat)
    ensures CarryOut(e, c).back == e.back && CarryOut(e, c).used == e.used
  {
    var carry := c / 0x100;
    RunTail(if e.rem >= 0 then WriteByte(e, e.rem + carry) else e, (0xFF + carry) % 0x100);
  }

  lemma {:induction false} FlushTail(e: Enc, end: nat, l: int)
    ensures FlushSyms(e, end, l).back == e.back && FlushSyms(e, end, l).used == e.used
    decreases l
  {
    if l > 0 {
      CarryTail(e, end / BOT);
      FlushTail(CarryOut(e, end / BOT), end * 0x100 % TOP, l - 8);
    }
  }
}
