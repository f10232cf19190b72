/** The line-spectrum block of one internal frame, and the predictor state it resets. */
module Lsf {
  import opened Words
  import opened RangeSpec
  import opened CdfSpec
  import opened Reading
  import RangeEncoder
  import RangeDecoder

  const LSF_ORDER := 16

  datatype LsfGrid = LsfGrid(match1: seq<u16>, match1Alt: seq<u16>, match0: seq<u16>, match0Alt: seq<u16>)

  /** stage2 is indexed by stage-1 symbol, configuration, grid and coefficient. */
  datatype LsfTables = LsfTables(sel: seq<seq<u16>>, grid: LsfGrid, stage2: seq<seq<seq<seq<seq<u16>>>>>, extra: seq<u16>)

  datatype LsfParams = LsfParams(stage1: int, grid: int, stage2: seq<int>, extra: int)

  predicate Usable(cdf: seq<u16>) { Strict(cdf) && Table(cdf) }

  predicate Tables(tables: seq<seq<u16>>) { forall k :: 0 <= k < |tables| ==> Table(tables[k]) }

  lemma UsableTables(tables: seq<seq<u16>>)
    requires forall k :: 0 <= k < |tables| ==> Usable(tables[k])
    ensures Tables(tables)
  {
    forall k | 0 <= k < |tables| ensures Table(tables[k]) { assert Usable(tables[k]); }
  }

  predicate GridFits(cdf: seq<u16>, grids: nat) { Usable(cdf) && |cdf| - 1 <= grids }

  predicate Stage2Fits(rows: seq<seq<seq<u16>>>)
  {
    forall g :: 0 <= g < |rows| ==> |rows[g]| == LSF_ORDER && forall k :: 0 <= k < LSF_ORDER ==> Usable(rows[g][k])
  }

  predicate WellFormed(t: LsfTables)
  {
    && |t.sel| == 3 && (forall i :: 0 <= i < 3 ==> Usable(t.sel[i]) && |t.sel[i]| == 3)
    && |t.stage2| == 2
    && (forall v :: 0 <= v < 2 ==> |t.stage2[v]| == 2 && forall c :: 0 <= c < 2 ==> Stage2Fits(t.stage2[v][c]))
    && (forall v, c :: 0 <= v < 2 && 0 <= c < 2 ==>
         && GridFits(t.grid.match1, |t.stage2[v][c]|) && GridFits(t.grid.match1Alt, |t.stage2[v][c]|)
         && GridFits(t.grid.match0, |t.stage2[v][c]|) && GridFits(t.grid.match0Alt, |t.stage2[v][c]|))
    && Usable(t.extra)
  }

  // ---------------------------------------------------------------- predictor state

  /** What one side remembers between internal frames; -1 where there is nothing to predict from. */
  datatype Predictor = Predictor(stage1: int, matched: bool, havePrev: bool, gainIdx: int, filtIdx: int, lagBlk: int, lagIdx: int)

  /** A state never used. */
  const Fresh := Predictor(0, false, false, 0, 0, 0, 0)

  predicate Matches(st: Predictor, intf: nat, stage1: int) { intf != 0 && stage1 == st.stage1 }

  /** The stage-1 symbol enters the state; without a match the pitch and gain predictors start over. */
  function Advanced(st: Predictor, intf: nat, stage1: int): Predictor
  {
    if Matches(st, intf, stage1) then st.(matched := true, havePrev := true)
    else Predictor(stage1, false, true, -1, -1, -1, -1)
  }

  /** The state object both sides keep; the encoder uses the last pair of lag fields, the decoder the pair before. */
  class LsfState {
    var prevStage1: int
    var prevMatch: bool
    var havePrev: bool
    var prevGainIdx: int
    var prevFiltIdx: int
    var prevLag: int
    var prevFracLag: int
    var prevLagblk: int
    var prevLagidx: int

    constructor ()
      ensures EncoderView() == DecoderView() == Fresh
    {
      prevStage1, prevMatch, havePrev := 0, false, false;
      prevGainIdx, prevFiltIdx, prevLag, prevFracLag, prevLagblk, prevLagidx := 0, 0, 0, 0, 0, 0;
    }

    ghost function EncoderView(): Predictor
      reads this
    {
      Predictor(prevStage1, prevMatch, havePrev, prevGainIdx, prevFiltIdx, prevLagblk, prevLagidx)
    }

    ghost function DecoderView(): Predictor
      reads this
    {
      Predictor(prevStage1, prevMatch, havePrev, prevGainIdx, prevFiltIdx, prevLag, prevFracLag)
    }

    /** The encoder's and the analysis' reset: both lag pairs. */
    method Advance(intf: nat, stage1: int) returns (m: bool)
      modifies this
      ensures m == Matches(old(EncoderView()), intf, stage1)
      ensures EncoderView() == Advanced(old(EncoderView()), intf, stage1)
      ensures DecoderView() == Advanced(old(DecoderView()), intf, stage1)
    {
      m := intf != 0 && stage1 == prevStage1;
      if !m { prevGainIdx, prevFiltIdx, prevLag, prevFracLag, prevLagblk, prevLagidx := -1, -1, -1, -1, -1, -1; }
      prevStage1, prevMatch, havePrev := stage1, m, true;
    }

    /** The decoder's reset, which leaves the encoder's pair alone. */
    method AdvanceDecoder(intf: nat, stage1: int) returns (m: bool)
      modifies this
      ensures m == Matches(old(DecoderView()), intf, stage1)
      ensures DecoderView() == Advanced(old(DecoderView()), intf, stage1)
      ensures prevLagblk == old(prevLagblk) && prevLagidx == old(prevLagidx)
    {
      m := intf != 0 && stage1 == prevStage1;
      if !m { prevGainIdx, prevFiltIdx, prevLag, prevFracLag := -1, -1, -1, -1; }
      prevStage1, prevMatch, havePrev := stage1, m, true;
    }
  }

  /** The first internal frame wipes out whatever an earlier packet left behind. */
  lemma FirstFrameForgets(a: Predictor, b: Predictor, stage1: int)
    ensures Advanced(a, 0, stage1) == Advanced(b, 0, stage1)
  {
  }

  /** Predictors after the internal frames of a packet with these stage-1 symbols. */
  function Frames(st: Predictor, stage1s: seq<int>): Predictor
  {
    if stage1s == [] then st else Advanced(Frames(st, stage1s[..|stage1s| - 1]), |stage1s| - 1, stage1s[|stage1s| - 1])
  }

  /**
   In a packet, an internal frame matches exactly if it is not the first and repeats the stage-1 symbol of the one before; only then
   do the pitch and gain predictors stay, otherwise they start over from -1.
   */
  lemma MatchesRepeat(st: Predictor, stage1s: seq<int>)
    requires stage1s != []
    ensures var n := |stage1s| - 1;
      var before, after := Frames(st, stage1s[..n]), Frames(st, stage1s);
      && after.stage1 == stage1s[n] && after.havePrev
      && (after.matched <==> n > 0 && stage1s[n] == stage1s[n - 1])
      && (after.gainIdx, after.filtIdx, after.lagBlk, after.lagIdx)
         == if after.matched then (before.gainIdx, before.filtIdx, before.lagBlk, before.lagIdx) else (-1, -1, -1, -1)
  {
    var n := |stage1s| - 1;
    if n > 0 { assert stage1s[..n][n - 1] == stage1s[n - 1]; }
  }

  // ---------------------------------------------------------------- a list of symbols

  predicate AllCode(tables: seq<seq<u16>>, syms: seq<int>)
  {
    |syms| == |tables| && Tables(tables) && forall k :: 0 <= k < |tables| ==> Codes(tables[k], syms[k])
  }

  function ListOps(tables: seq<seq<u16>>, syms: seq<int>): (ops: seq<Op>)
    requires AllCode(tables, syms)
    ensures AllCodable(ops)
  {
    if tables == [] then [] else [CdfOp(tables[0], syms[0])] + ListOps(tables[1..], syms[1..])
  }

  function DecodeList(d: Dec, tables: seq<seq<u16>>, acc: seq<int>): (r: (Dec, seq<int>))
    requires DecRange(d) && Tables(tables)
    ensures DecRange(r.0) && |r.1| == |acc| + |tables|
    decreases |tables|
  {
    if tables == [] then (d, acc)
    else
      var (d1, s) := DecodeCdf(d, tables[0]);
      DecodeList(d1, tables[1..], acc + [s])
  }

  lemma {:induction false} ListRead(d: Dec, tables: seq<seq<u16>>, syms: seq<int>, acc: seq<int>, e: Dec)
    requires DecRange(d) && AllCode(tables, syms) && Reads(d, ListOps(tables, syms), e)
    ensures DecodeList(d, tables, acc) == (e, acc + syms)
    decreases |tables|
  {
    hide Reads, DecodeCdf, Table;
    if tables == [] {
      NothingRead(d, [], e);
      assert acc + syms == acc;
    } else {
      var m := SplitAt(d, [CdfOp(tables[0], syms[0])], ListOps(tables[1..], syms[1..]), e);
      ReadCdf(d, tables[0], syms[0], m);
      ListRead(m, tables[1..], syms[1..], acc + [syms[0]], e);
      assert acc + syms == acc + [syms[0]] + syms[1..];
    }
  }

  lemma {:induction false} ListParsed(d: Dec, tables: seq<seq<u16>>, acc: seq<int>) returns (syms: seq<int>)
    requires DecRange(d) && Tables(tables)
    ensures AllCode(tables, syms) && DecodeList(d, tables, acc).1 == acc + syms
    ensures Reads(d, ListOps(tables, syms), DecodeList(d, tables, acc).0)
    decreases |tables|
  {
    hide Reads, DecodeCdf, Table, Codes;
    if tables == [] {
      syms := [];
      NothingRead(d, [], d);
      assert acc + [] == acc;
    } else {
      CdfRead(d, tables[0]);
      var (d1, s) := DecodeCdf(d, tables[0]);
      var rest := ListParsed(d1, tables[1..], acc + [s]);
      syms := [s] + rest;
      forall k | 0 <= k < |tables| ensures Codes(tables[k], syms[k]) {
        if k > 0 { assert Codes(tables[1..][k - 1], rest[k - 1]); }
      }
      assert syms[1..] == rest;
      assert acc + syms == acc + [s] + rest;
      Joined(d, [CdfOp(tables[0], s)], d1, ListOps(tables[1..], rest), DecodeList(d, tables, acc).0);
    }
  }

  // ---------------------------------------------------------------- the block

  /** Row 0 for the first internal frame, then by the stage-1 symbol before. */
  function SelRow(st: Predictor, intf: nat): (row: nat)
    ensures row < 3
  {
    if intf == 0 then 0 else if st.stage1 != 0 then 2 else 1
  }

  /** The stage-1 symbol of an internal frame is read from row 0 of the packet's first, from row 1 plus the symbol before in the others. */
  lemma HeadRow(t: LsfTables, st: Predictor, stage1s: seq<int>)
    requires WellFormed(t) && forall k :: 0 <= k < |stage1s| ==> 0 <= stage1s[k] < 2
    ensures LsfHead(t, Frames(st, stage1s), |stage1s|) == t.sel[if stage1s == [] then 0 else 1 + stage1s[|stage1s| - 1]]
  {
    if stage1s != [] { MatchesRepeat(st, stage1s); }
  }

  function GridCdf(t: LsfTables, matched: bool, stage1: int): seq<u16>
  {
    if matched then (if stage1 != 0 then t.grid.match1 else t.grid.match1Alt)
    else (if stage1 != 0 then t.grid.match0Alt else t.grid.match0)
  }

  /** The grid distributions as packed: by stage-1 codebook, for a frame that continues its codebook and for one that does not. */
  datatype GridSeed = GridSeed(cmfCond: seq<seq<u16>>, cmf: seq<seq<u16>>)

  /** The order they are stored in. */
  function GridOf(s: GridSeed): LsfGrid
    requires |s.cmfCond| == |s.cmf| == 2
  {
    LsfGrid(s.cmfCond[1], s.cmfCond[0], s.cmf[0], s.cmf[1])
  }

  /** The grid symbol is read from the distribution of its own stage-1 codebook, the conditional one on a match. */
  lemma GridOfCodebook(s: GridSeed, t: LsfTables, matched: bool, stage1: int)
    requires |s.cmfCond| == |s.cmf| == 2 && t.grid == GridOf(s) && 0 <= stage1 < 2
    ensures GridCdf(t, matched, stage1) == if matched then s.cmfCond[stage1] else s.cmf[stage1]
  {
  }

  /** The tables of the block, in reading order, once the symbols before each are known. */
  function LsfHead(t: LsfTables, st: Predictor, intf: nat): (cdf: seq<u16>)
    requires WellFormed(t)
    ensures Usable(cdf) && |cdf| == 3
  {
    t.sel[SelRow(st, intf)]
  }

  function LsfGridCdf(t: LsfTables, st: Predictor, intf: nat, stage1: int): (cdf: seq<u16>)
    requires WellFormed(t) && 0 <= stage1 < 2
    ensures |t.stage2| == 2 && |t.stage2[stage1]| == 2 && forall c :: 0 <= c < 2 ==> GridFits(cdf, |t.stage2[stage1][c]|)
  {
    GridCdf(t, Matches(st, intf, stage1), stage1)
  }

  function LsfTail(t: LsfTables, config: nat, stage1: int, grid: int): (tables: seq<seq<u16>>)
    requires WellFormed(t) && config < 2 && 0 <= stage1 < 2 && 0 <= grid < |t.stage2[stage1][config]|
    ensures |tables| == LSF_ORDER + 1 && Tables(tables) && forall k :: 0 <= k < |tables| ==> Usable(tables[k])
  {
    assert Stage2Fits(t.stage2[stage1][config]);
    UsableTables(t.stage2[stage1][config][grid] + [t.extra]);
    t.stage2[stage1][config][grid] + [t.extra]
  }

  predicate Valid(t: LsfTables, st: Predictor, config: nat, intf: nat, p: LsfParams)
    requires WellFormed(t) && config < 2
  {
    && 0 <= p.stage1 < 2
    && 0 <= p.grid < |LsfGridCdf(t, st, intf, p.stage1)| - 1
    && |p.stage2| == LSF_ORDER && AllCode(LsfTail(t, config, p.stage1, p.grid), p.stage2 + [p.extra])
  }

  function LsfOps(t: LsfTables, st: Predictor, config: nat, intf: nat, p: LsfParams): (ops: seq<Op>)
    requires WellFormed(t) && config < 2 && Valid(t, st, config, intf, p)
    ensures AllCodable(ops)
  {
    HeadCodes(t, st, intf, p.stage1, p.grid);
    [CdfOp(LsfHead(t, st, intf), p.stage1)]
    + ([CdfOp(LsfGridCdf(t, st, intf, p.stage1), p.grid)] + ListOps(LsfTail(t, config, p.stage1, p.grid), p.stage2 + [p.extra]))
  }

  lemma HeadCodes(t: LsfTables, st: Predictor, intf: nat, stage1: int, grid: int)
    requires WellFormed(t) && 0 <= stage1 < 2 && 0 <= grid < |LsfGridCdf(t, st, intf, stage1)| - 1
    ensures Codes(LsfHead(t, st, intf), stage1) && Codes(LsfGridCdf(t, st, intf, stage1), grid)
  {
    hide WellFormed;
    var cdf := LsfGridCdf(t, st, intf, stage1);
    assert GridFits(cdf, |t.stage2[stage1][0]|);
  }

  function DecodeLsf(t: LsfTables, d: Dec, st: Predictor, config: nat, intf: nat): (r: (Dec, LsfParams))
    requires WellFormed(t) && config < 2 && DecRange(d)
    ensures DecRange(r.0)
  {
    var (d1, stage1) := DecodeCdf(d, LsfHead(t, st, intf));
    assert GridFits(LsfGridCdf(t, st, intf, stage1), |t.stage2[stage1][config]|);
    var (d2, grid) := DecodeCdf(d1, LsfGridCdf(t, st, intf, stage1));
    var (d3, syms) := DecodeList(d2, LsfTail(t, config, stage1, grid), []);
    (d3, LsfParams(stage1, grid, syms[..LSF_ORDER], syms[LSF_ORDER]))
  }

  lemma LsfRead(t: LsfTables, d: Dec, st: Predictor, config: nat, intf: nat, p: LsfParams, e: Dec)
    requires WellFormed(t) && config < 2 && DecRange(d) && Valid(t, st, config, intf, p)
    requires Reads(d, LsfOps(t, st, config, intf, p), e)
    ensures DecodeLsf(t, d, st, config, intf) == (e, p)
  {
    hide Reads, WellFormed, LsfHead, LsfGridCdf, LsfTail, DecodeCdf, DecodeList, ListOps, AllCode, Codes, CdfOp;
    HeadCodes(t, st, intf, p.stage1, p.grid);
    var c1, c2 := LsfHead(t, st, intf), LsfGridCdf(t, st, intf, p.stage1);
    var tail, syms := LsfTail(t, config, p.stage1, p.grid), p.stage2 + [p.extra];
    var m1 := SplitAt(d, [CdfOp(c1, p.stage1)], [CdfOp(c2, p.grid)] + ListOps(tail, syms), e);
    var m2 := SplitAt(m1, [CdfOp(c2, p.grid)], ListOps(tail, syms), e);
    ReadCdf(d, c1, p.stage1, m1);
    ReadCdf(m1, c2, p.grid, m2);
    ListRead(m2, tail, syms, [], e);
    assert [] + syms == syms && syms[..LSF_ORDER] == p.stage2;
  }

  lemma LsfParsed(t: LsfTables, d: Dec, st: Predictor, config: nat, intf: nat)
    requires WellFormed(t) && config < 2 && DecRange(d)
    ensures var (e, p) := DecodeLsf(t, d, st, config, intf);
      Valid(t, st, config, intf, p) && Reads(d, LsfOps(t, st, config, intf, p), e)
  {
    hide Reads, WellFormed, LsfHead, LsfGridCdf, LsfTail, DecodeCdf, DecodeList, ListOps, AllCode, CdfOp;
    var c1 := LsfHead(t, st, intf);
    CdfRead(d, c1);
    var (d1, stage1) := DecodeCdf(d, c1);
    var c2 := LsfGridCdf(t, st, intf, stage1);
    assert GridFits(c2, |t.stage2[stage1][config]|);
    CdfRead(d1, c2);
    var (d2, grid) := DecodeCdf(d1, c2);
    var tail := LsfTail(t, config, stage1, grid);
    var syms := ListParsed(d2, tail, []);
    assert [] + syms == syms;
    var (e, p) := DecodeLsf(t, d, st, config, intf);
    LengthOf(tail, syms);
    assert p.stage2 + [p.extra] == syms;
    Joined(d1, [CdfOp(c2, grid)], d2, ListOps(tail, syms), e);
    Joined(d, [CdfOp(c1, stage1)], d1, [CdfOp(c2, grid)] + ListOps(tail, syms), e);
  }

  lemma LengthOf(tables: seq<seq<u16>>, syms: seq<int>)
    requires AllCode(tables, syms)
    ensures |syms| == |tables|
  {
  }

  // ---------------------------------------------------------------- the coders

  method EncodeSmplLsf(enc: RangeEncoder.RangeEncoder, t: LsfTables, st: LsfState, config: nat, intf: nat, lsf: LsfParams)
    requires enc.Clean() && WellFormed(t) && config < 2 && Valid(t, st.EncoderView(), config, intf, lsf)
    modifies enc, enc.buf, st
    ensures enc.Clean() && enc.written == old(enc.written) + LsfOps(t, old(st.EncoderView()), config, intf, lsf)
    ensures st.EncoderView() == Advanced(old(st.EncoderView()), intf, lsf.stage1)
  {
    hide WellFormed, ListOps, AllCode, Codes, CdfOp, LsfTail, Advanced, RangeEncoder.RangeEncoder.Clean, RangeEncoder.RangeEncoder.Valid;
    ghost var before, view := enc.written, st.EncoderView();
    HeadCodes(t, view, intf, lsf.stage1, lsf.grid);
    Shapes(t, view, intf, lsf.stage1);
    var sel := 0;
    if intf != 0 {
      if st.prevStage1 != 0 { sel := 2; } else { sel := 1; }
    }
    var stage1 := lsf.stage1;
    enc.EncodeCDF(stage1, t.sel[sel]);
    var m := st.Advance(intf, stage1);
    var gridCDF := GridCdf(t, m, stage1);
    enc.EncodeCDF(lsf.grid, gridCDF);
    TailShape(t, config, stage1, lsf.grid);
    EncodeList(enc, t.stage2[stage1][config][lsf.grid] + [t.extra], lsf.stage2 + [lsf.extra]);
    assert enc.written == before + LsfOps(t, view, config, intf, lsf);
  }

  lemma Shapes(t: LsfTables, st: Predictor, intf: nat, stage1: int)
    requires WellFormed(t) && 0 <= stage1 < 2
    ensures |t.sel| == 3 && LsfHead(t, st, intf) == t.sel[SelRow(st, intf)]
    ensures LsfGridCdf(t, st, intf, stage1) == GridCdf(t, Matches(st, intf, stage1), stage1)
  {
  }

  lemma TailShape(t: LsfTables, config: nat, stage1: int, grid: int)
    requires WellFormed(t) && config < 2 && 0 <= stage1 < 2 && 0 <= grid < |t.stage2[stage1][config]|
    ensures |t.stage2| == 2 && |t.stage2[stage1]| == 2 && LsfTail(t, config, stage1, grid) == t.stage2[stage1][config][grid] + [t.extra]
  {
  }

  method EncodeList(enc: RangeEncoder.RangeEncoder, tables: seq<seq<u16>>, syms: seq<int>)
    requires enc.Clean() && AllCode(tables, syms)
    modifies enc, enc.buf
    ensures enc.Clean() && enc.written == old(enc.written) + ListOps(tables, syms)
  {
    hide Codes, CdfOp, ListOps, RangeEncoder.RangeEncoder.Clean, RangeEncoder.RangeEncoder.Valid;
    assert tables[0..] == tables && syms[0..] == syms;
    for k := 0 to |tables|
      invariant enc.Clean() && AllCode(tables[k..], syms[k..])
      invariant enc.written + ListOps(tables[k..], syms[k..]) == old(enc.written) + ListOps(tables, syms)
    {
      NextInList(tables[k..], syms[k..]);
      assert tables[k..][1..] == tables[k + 1..] && syms[k..][1..] == syms[k + 1..];
      enc.EncodeCDF(syms[k], tables[k]);
    }
    NextInList([], []);
    assert enc.written + [] == enc.written;
  }

  lemma NextInList(tables: seq<seq<u16>>, syms: seq<int>)
    requires AllCode(tables, syms)
    ensures tables == [] ==> ListOps(tables, syms) == []
    ensures tables != [] ==> (AllCode(tables[1..], syms[1..])
      && ListOps(tables, syms) == [CdfOp(tables[0], syms[0])] + ListOps(tables[1..], syms[1..]))
  {
    hide Codes, CdfOp;
  }

  /** Raw symbol counts of the residual tables, for the dequantiser. */
  function RawCounts(tables: seq<seq<u16>>): seq<int> { seq(|tables|, k requires 0 <= k < |tables| => |tables[k]| - 2) }

  method DecodeSmplLsf(dec: RangeDecoder.RangeDecoder, t: LsfTables, st: LsfState, config: nat, intf: nat)
    returns (idx: LsfParams, stageNraw: seq<int>)
    requires dec.Valid() && WellFormed(t) && config < 2
    modifies dec, st
    ensures dec.Valid() && (dec.State(), idx) == DecodeLsf(t, old(dec.State()), old(st.DecoderView()), config, intf)
    ensures st.DecoderView() == Advanced(old(st.DecoderView()), intf, idx.stage1)
    ensures 0 <= idx.stage1 < 2 && 0 <= idx.grid < |t.stage2[idx.stage1][config]|
    ensures stageNraw == RawCounts(t.stage2[idx.stage1][config][idx.grid])
  {
    hide WellFormed, DecodeList, DecodeCdf, LsfTail, RangeDecoder.RangeDecoder.Valid, RangeDecoder.RangeDecoder.State;
    ghost var view, d := st.DecoderView(), dec.State();
    Shapes(t, view, intf, 0);
    var sel := 0;
    if intf != 0 {
      if st.prevStage1 != 0 { sel := 2; } else { sel := 1; }
    }
    var stage1 := dec.DecodeCDF(t.sel[sel]);
    Shapes(t, view, intf, stage1);
    var m := st.AdvanceDecoder(intf, stage1);
    assert LsfGridCdf(t, view, intf, stage1) == GridCdf(t, m, stage1);
    var gridCDF := GridCdf(t, m, stage1);
    assert GridFits(gridCDF, |t.stage2[stage1][config]|);
    var grid := dec.DecodeCDF(gridCDF);
    TailShape(t, config, stage1, grid);
    ghost var tail := LsfTail(t, config, stage1, grid);
    var st2 := t.stage2[stage1][config][grid];
    var syms := DecodeListLoop(dec, st2 + [t.extra]);
    idx := LsfParams(stage1, grid, syms[..LSF_ORDER], syms[LSF_ORDER]);
    stageNraw := RawCounts(st2);
  }

  method DecodeListLoop(dec: RangeDecoder.RangeDecoder, tables: seq<seq<u16>>) returns (syms: seq<int>)
    requires dec.Valid() && Tables(tables)
    modifies dec
    ensures dec.Valid() && (dec.State(), syms) == DecodeList(old(dec.State()), tables, [])
  {
    hide Strict, Table, DecodeList, DecodeCdf, RangeDecoder.RangeDecoder.Valid, RangeDecoder.RangeDecoder.State;
    syms := [];
    assert tables[0..] == tables;
    for k := 0 to |tables|
      invariant dec.Valid()
      invariant DecodeList(dec.State(), tables[k..], syms) == DecodeList(old(dec.State()), tables, [])
    {
      ListStep(dec.State(), tables[k..], syms);
      assert tables[k..][1..] == tables[k + 1..];
      var s := dec.DecodeCDF(tables[k]);
      syms := syms + [s];
    }
    ListStep(dec.State(), tables[|tables|..], syms);
  }

  lemma ListStep(d: Dec, tables: seq<seq<u16>>, acc: seq<int>)
    requires DecRange(d) && Tables(tables)
    ensures tables == [] ==> DecodeList(d, tables, acc) == (d, acc)
    ensures tables != [] ==> var (d1, s) := DecodeCdf(d, tables[0]);
      DecRange(d1) && DecodeList(d, tables, acc) == DecodeList(d1, tables[1..], acc + [s])
  {
    hide DecodeCdf;
  }
}
