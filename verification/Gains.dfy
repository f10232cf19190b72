/** Gains and energy residuals of an unvoiced internal frame. */
module Gains {
  import opened Words
  import opened Arith
  import opened RangeSpec
  import opened CdfSpec
  import opened CcTables
  import opened Reading
  import RangeEncoder
  import RangeDecoder
  import CmfTables

  const SUBFRAMES := 4
  const CFG_SEL := 2

  datatype GainParams = GainParams(gainMain: int, gainDelta: int, nrgRes: seq<int>)

  predicate SubframeCounts(counts: seq<int>) { |counts| == SUBFRAMES && forall i :: 0 <= i < SUBFRAMES ==> 0 <= counts[i] <= MAX_PULSES_PER_SF }

  predicate GainIndices(cc: CcTables, gainMain: int, gainDelta: int)
    requires WellFormed(cc)
  {
    0 <= gainMain < |cc.nrgresGain4| - 1 && 0 <= gainDelta < |cc.nrgresShape4| - 1
  }

  /** Log gain of a subframe; with a 15-bit index and 16-bit table entries it stays within 32 bits. */
  function GainQ(cc: CcTables, gainMain: int, gainDelta: int, sf: nat): (q: i32)
    requires WellFormed(cc) && GainIndices(cc, gainMain, gainDelta) && sf < SUBFRAMES
    ensures -0x7000_0000 <= q < 0x7000_0000
  {
    CmfTables.ShapeLength(cc.nrgresGain4, gainMain);
    ProductFits(gainMain, NrgStep(cc, CFG_SEL));
    gainMain * NrgStep(cc, CFG_SEL) - 0x154000 + GainRecon(cc, sf + SUBFRAMES * gainDelta) * 16
  }

  lemma ProductFits(a: int, b: i16)
    requires 0 <= a <= 32767
    ensures -0x4000_0000 <= a * b <= 0x4000_0000
  {
    MulMono(b, 0x8000, a);
    MulMono(-0x8000, b, a);
  }

  /** Pulse-count class of the residual distribution. */
  function Bucket(cnt: int): int { if cnt >= 30 then 3 else cnt / 10 }

  /** How far the residual distribution is entered: the rounded gain below zero, at most 85. */
  function MinOffset(gainQ: int): (r: int)
    ensures 0 <= r <= 85
  {
    -Min(Max((gainQ + 8192) / 16384, -85), 0)
  }

  function NrgWindow(cc: CcTables, gainMain: int, gainDelta: int, sf: nat, cnt: int): (w: seq<u16>)
    requires WellFormed(cc) && GainIndices(cc, gainMain, gainDelta) && sf < SUBFRAMES && 0 < cnt <= MAX_PULSES_PER_SF
    ensures |w| == FCBG_WINDOW && Strict(w) && Table(w)
  {
    FcbgOffset(cc, CFG_SEL, Bucket(cnt), MinOffset(GainQ(cc, gainMain, gainDelta, sf)))
  }

  /** Residuals are coded for subframes with pulses; the others stay zero. */
  predicate ResidualsFit(counts: seq<int>, nrgRes: seq<int>)
    requires SubframeCounts(counts)
  {
    && |nrgRes| == SUBFRAMES
    && forall sf :: 0 <= sf < SUBFRAMES ==> if counts[sf] > 0 then 0 <= nrgRes[sf] < FCBG_WINDOW - 1 else nrgRes[sf] == 0
  }

  predicate Valid(cc: CcTables, counts: seq<int>, p: GainParams)
    requires WellFormed(cc) && SubframeCounts(counts)
  {
    GainIndices(cc, p.gainMain, p.gainDelta) && ResidualsFit(counts, p.nrgRes)
  }

  function NrgOps(cc: CcTables, counts: seq<int>, p: GainParams, sf: nat): (ops: seq<Op>)
    requires WellFormed(cc) && SubframeCounts(counts) && Valid(cc, counts, p) && sf <= SUBFRAMES
    ensures AllCodable(ops)
    decreases SUBFRAMES - sf
  {
    hide WellFormed, NrgWindow;
    if sf == SUBFRAMES then []
    else if counts[sf] <= 0 then NrgOps(cc, counts, p, sf + 1)
    else [CdfOp(NrgWindow(cc, p.gainMain, p.gainDelta, sf, counts[sf]), p.nrgRes[sf])] + NrgOps(cc, counts, p, sf + 1)
  }

  function GainOps(cc: CcTables, counts: seq<int>, p: GainParams): (ops: seq<Op>)
    requires WellFormed(cc) && SubframeCounts(counts) && Valid(cc, counts, p)
    ensures AllCodable(ops)
  {
    MainTables(cc);
    StrictCodes(cc.nrgresGain4, p.gainMain);
    StrictCodes(cc.nrgresShape4, p.gainDelta);
    [CdfOp(cc.nrgresGain4, p.gainMain)] + ([CdfOp(cc.nrgresShape4, p.gainDelta)] + NrgOps(cc, counts, p, 0))
  }

  lemma MainTables(cc: CcTables)
    requires WellFormed(cc)
    ensures Strict(cc.nrgresGain4) && Table(cc.nrgresGain4) && Strict(cc.nrgresShape4) && Table(cc.nrgresShape4)
  {
    CmfTables.ShapeIsStrict(cc.nrgresGain4);
    CmfTables.ShapeIsStrict(cc.nrgresShape4);
  }

  function DecodeNrg(cc: CcTables, d: Dec, counts: seq<int>, gainMain: int, gainDelta: int, acc: seq<int>): (r: (Dec, seq<int>))
    requires WellFormed(cc) && DecRange(d) && SubframeCounts(counts) && GainIndices(cc, gainMain, gainDelta) && |acc| <= SUBFRAMES
    ensures DecRange(r.0) && |r.1| == SUBFRAMES
    decreases SUBFRAMES - |acc|
  {
    var sf := |acc|;
    if sf == SUBFRAMES then (d, acc)
    else if counts[sf] <= 0 then DecodeNrg(cc, d, counts, gainMain, gainDelta, acc + [0])
    else
      var (d1, s) := DecodeCdf(d, NrgWindow(cc, gainMain, gainDelta, sf, counts[sf]));
      DecodeNrg(cc, d1, counts, gainMain, gainDelta, acc + [s])
  }

  function DecodeGains(cc: CcTables, d: Dec, counts: seq<int>): (r: (Dec, GainParams))
    requires WellFormed(cc) && DecRange(d) && SubframeCounts(counts)
    ensures DecRange(r.0)
  {
    MainTables(cc);
    var (d1, gainMain) := DecodeCdf(d, cc.nrgresGain4);
    var (d2, gainDelta) := DecodeCdf(d1, cc.nrgresShape4);
    var (d3, nrgRes) := DecodeNrg(cc, d2, counts, gainMain, gainDelta, []);
    (d3, GainParams(gainMain, gainDelta, nrgRes))
  }

  lemma {:induction false} NrgRead(cc: CcTables, d: Dec, counts: seq<int>, p: GainParams, sf: nat, e: Dec)
    requires WellFormed(cc) && DecRange(d) && SubframeCounts(counts) && Valid(cc, counts, p) && sf <= SUBFRAMES
    requires Reads(d, NrgOps(cc, counts, p, sf), e)
    ensures DecodeNrg(cc, d, counts, p.gainMain, p.gainDelta, p.nrgRes[..sf]) == (e, p.nrgRes)
    decreases SUBFRAMES - sf
  {
    hide Reads, WellFormed, NrgWindow, DecodeCdf, Strict;
    if sf == SUBFRAMES {
      NothingRead(d, [], e);
      assert p.nrgRes[..SUBFRAMES] == p.nrgRes;
    } else {
      assert p.nrgRes[..sf + 1] == p.nrgRes[..sf] + [p.nrgRes[sf]];
      if counts[sf] <= 0 {
        NrgRead(cc, d, counts, p, sf + 1, e);
      } else {
        var w, s := NrgWindow(cc, p.gainMain, p.gainDelta, sf, counts[sf]), p.nrgRes[sf];
        StrictCodes(w, s);
        var m := SplitAt(d, [CdfOp(w, s)], NrgOps(cc, counts, p, sf + 1), e);
        ReadCdf(d, w, s, m);
        NrgRead(cc, m, counts, p, sf + 1, e);
      }
    }
  }

  lemma GainsRead(cc: CcTables, d: Dec, counts: seq<int>, p: GainParams, e: Dec)
    requires WellFormed(cc) && DecRange(d) && SubframeCounts(counts) && Valid(cc, counts, p)
    requires Reads(d, GainOps(cc, counts, p), e)
    ensures DecodeGains(cc, d, counts) == (e, p)
  {
    hide Reads, WellFormed, NrgOps, DecodeNrg, DecodeCdf, Strict, Table;
    MainTables(cc);
    StrictCodes(cc.nrgresGain4, p.gainMain);
    StrictCodes(cc.nrgresShape4, p.gainDelta);
    var a, b := [CdfOp(cc.nrgresGain4, p.gainMain)], [CdfOp(cc.nrgresShape4, p.gainDelta)];
    var m1 := SplitAt(d, a, b + NrgOps(cc, counts, p, 0), e);
    var m2 := SplitAt(m1, b, NrgOps(cc, counts, p, 0), e);
    ReadCdf(d, cc.nrgresGain4, p.gainMain, m1);
    ReadCdf(m1, cc.nrgresShape4, p.gainDelta, m2);
    NrgRead(cc, m2, counts, p, 0, e);
    assert p.nrgRes[..0] == [];
  }

  /** Residuals decoded so far already fit. */
  predicate FitsSoFar(counts: seq<int>, acc: seq<int>)
    requires SubframeCounts(counts)
  {
    && |acc| <= SUBFRAMES
    && forall sf :: 0 <= sf < |acc| ==> if counts[sf] > 0 then 0 <= acc[sf] < FCBG_WINDOW - 1 else acc[sf] == 0
  }

  lemma NrgNext(cc: CcTables, d: Dec, counts: seq<int>, gainMain: int, gainDelta: int, acc: seq<int>)
    requires WellFormed(cc) && DecRange(d) && SubframeCounts(counts) && GainIndices(cc, gainMain, gainDelta) && |acc| < SUBFRAMES
    requires counts[|acc|] > 0
    ensures var w := NrgWindow(cc, gainMain, gainDelta, |acc|, counts[|acc|]);
      var (d1, s) := DecodeCdf(d, w);
      && DecRange(d1) && 0 <= s < FCBG_WINDOW - 1 && Codes(w, s) && Reads(d, [CdfOp(w, s)], d1)
      && DecodeNrg(cc, d, counts, gainMain, gainDelta, acc) == DecodeNrg(cc, d1, counts, gainMain, gainDelta, acc + [s])
  {
    hide WellFormed, NrgWindow, DecodeCdf, Reads;
    CdfRead(d, NrgWindow(cc, gainMain, gainDelta, |acc|, counts[|acc|]));
  }

  lemma ResidualsDone(counts: seq<int>, acc: seq<int>)
    requires SubframeCounts(counts) && FitsSoFar(counts, acc) && |acc| == SUBFRAMES
    ensures ResidualsFit(counts, acc)
  {
  }

  lemma ResidualAdded(counts: seq<int>, acc: seq<int>, s: int)
    requires SubframeCounts(counts) && FitsSoFar(counts, acc) && |acc| < SUBFRAMES
    requires if counts[|acc|] > 0 then 0 <= s < FCBG_WINDOW - 1 else s == 0
    ensures FitsSoFar(counts, acc + [s])
  {
  }

  lemma {:induction false} NrgParsed(cc: CcTables, d: Dec, counts: seq<int>, gainMain: int, gainDelta: int, acc: seq<int>)
    requires WellFormed(cc) && DecRange(d) && SubframeCounts(counts) && GainIndices(cc, gainMain, gainDelta)
    requires |acc| <= SUBFRAMES && FitsSoFar(counts, acc)
    ensures var (e, nrg) := DecodeNrg(cc, d, counts, gainMain, gainDelta, acc);
      var p := GainParams(gainMain, gainDelta, nrg);
      acc <= nrg && Valid(cc, counts, p) && Reads(d, NrgOps(cc, counts, p, |acc|), e)
    decreases SUBFRAMES - |acc|
  {
    hide Reads, WellFormed, NrgWindow, DecodeCdf, Codes, CdfOp, DecodeNrg, NrgOps, FitsSoFar, ResidualsFit;
    var sf := |acc|;
    NrgSkips(cc, d, counts, gainMain, gainDelta, acc);
    var (e, nrg) := DecodeNrg(cc, d, counts, gainMain, gainDelta, acc);
    var p := GainParams(gainMain, gainDelta, nrg);
    if sf == SUBFRAMES {
      ResidualsDone(counts, acc);
      NrgUnfolds(cc, counts, p, sf);
      NothingRead(d, [], d);
    } else if counts[sf] <= 0 {
      ResidualAdded(counts, acc, 0);
      NrgParsed(cc, d, counts, gainMain, gainDelta, acc + [0]);
      NrgUnfolds(cc, counts, p, sf);
    } else {
      NrgNext(cc, d, counts, gainMain, gainDelta, acc);
      var w := NrgWindow(cc, gainMain, gainDelta, sf, counts[sf]);
      var (d1, s) := DecodeCdf(d, w);
      ResidualAdded(counts, acc, s);
      NrgParsed(cc, d1, counts, gainMain, gainDelta, acc + [s]);
      NrgUnfolds(cc, counts, p, sf);
      assert nrg[sf] == (acc + [s])[sf];
      Joined(d, [CdfOp(w, s)], d1, NrgOps(cc, counts, p, sf + 1), e);
    }
  }

  lemma GainsParsed(cc: CcTables, d: Dec, counts: seq<int>)
    requires WellFormed(cc) && DecRange(d) && SubframeCounts(counts)
    ensures var (e, p) := DecodeGains(cc, d, counts); Valid(cc, counts, p) && Reads(d, GainOps(cc, counts, p), e)
  {
    hide Reads, WellFormed, NrgOps, DecodeNrg, DecodeCdf, Strict, Table;
    MainTables(cc);
    CdfRead(d, cc.nrgresGain4);
    var (d1, gainMain) := DecodeCdf(d, cc.nrgresGain4);
    CdfRead(d1, cc.nrgresShape4);
    var (d2, gainDelta) := DecodeCdf(d1, cc.nrgresShape4);
    NrgParsed(cc, d2, counts, gainMain, gainDelta, []);
    var (e, p) := DecodeGains(cc, d, counts);
    var b := [CdfOp(cc.nrgresShape4, gainDelta)];
    Joined(d1, b, d2, NrgOps(cc, counts, p, 0), e);
    Joined(d, [CdfOp(cc.nrgresGain4, gainMain)], d1, b + NrgOps(cc, counts, p, 0), e);
  }

  // ---------------------------------------------------------------- what the residual tables mean

  /**
   Where the residual table is entered: 85 less the subframe's level, rounded to whole steps and kept within 0 to 85. The level
   counts main steps in 16384ths of a step and the reconstruction entry in 1024ths.
   */
  lemma EntryIsLevel(cc: CcTables, gainMain: int, gainDelta: int, sf: nat)
    requires WellFormed(cc) && GainIndices(cc, gainMain, gainDelta) && sf < SUBFRAMES
    ensures var level := gainMain * NrgStep(cc, CFG_SEL) + 16 * GainRecon(cc, sf + SUBFRAMES * gainDelta);
      var m := MinOffset(GainQ(cc, gainMain, gainDelta, sf));
      && (m == 85 <==> level < 8192) && (m == 0 <==> level >= 85 * 16384 - 8192)
      && (0 < m < 85 ==> -8192 <= level - 16384 * (85 - m) < 8192)
  {
    hide WellFormed, NrgStep, GainRecon, GainIndices;
    var recon: int := GainRecon(cc, sf + SUBFRAMES * gainDelta);
    EntryRounds(gainMain * NrgStep(cc, CFG_SEL) + 16 * recon);
  }

  lemma EntryRounds(level: int)
    ensures var m := MinOffset(level - 0x154000);
      && (m == 85 <==> level < 8192) && (m == 0 <==> level >= 85 * 16384 - 8192)
      && (0 < m < 85 ==> -8192 <= level - 16384 * (85 - m) < 8192)
  {
    var x := level - 0x154000 + 8192;
    assert x == 16384 * (x / 16384) + x % 16384;
  }

  /**
   In a table set built from a seed, the residual of a subframe with cnt pulses is read from the seed's row for its class of
   pulse counts (1 to 9, 10 to 19, 20 to 29, 30 and more), the last four rows of twelve, from the entry on.
   */
  lemma ResidualsFromSeed(s: CcSeed, cc: CcTables, gainMain: int, gainDelta: int, sf: nat, cnt: int)
    requires SeedShape(s) && WellFormed(cc) && BuiltFrom(s, cc)
    requires GainIndices(cc, gainMain, gainDelta) && sf < SUBFRAMES && 0 < cnt <= MAX_PULSES_PER_SF
    ensures var row := if cnt < 10 then 8 else if cnt < 20 then 9 else if cnt < 30 then 10 else 11;
      var m := MinOffset(GainQ(cc, gainMain, gainDelta, sf));
      NrgWindow(cc, gainMain, gainDelta, sf, cnt) == CmfTables.DcmfCmf(s.fcbgOffset[FCBG_STEPS * row..FCBG_STEPS * row + FCBG_STEPS])[m..m + FCBG_WINDOW]
  {
    hide CmfTables.DcmfCmf, GainQ;
  }

  // ---------------------------------------------------------------- the coders

  /** All four log gains, in 32-bit arithmetic that cannot overflow. */
  method SubframeGains(cc: CcTables, gainMain: int, gainDelta: int) returns (gainQ: array<i32>)
    requires WellFormed(cc) && GainIndices(cc, gainMain, gainDelta)
    ensures fresh(gainQ) && gainQ.Length == SUBFRAMES
    ensures forall sf :: 0 <= sf < SUBFRAMES ==> gainQ[sf] == GainQ(cc, gainMain, gainDelta, sf)
  {
    gainQ := new i32[SUBFRAMES](_ => 0);
    var off6 := SUBFRAMES * gainDelta;
    CmfTables.ShapeLength(cc.nrgresGain4, gainMain);
    ProductFits(gainMain, NrgStep(cc, CFG_SEL));
    var base7: i32 := gainMain * NrgStep(cc, CFG_SEL) - 0x154000;
    for sf := 0 to SUBFRAMES
      invariant forall j :: 0 <= j < sf ==> gainQ[j] == GainQ(cc, gainMain, gainDelta, j)
    {
      var cbv: int := GainRecon(cc, sf + off6);
      var q: i32 := base7 + cbv * 16;
      assert q == GainQ(cc, gainMain, gainDelta, sf);
      gainQ[sf] := q;
    }
  }

  method ResidualWindow(cc: CcTables, ghost gainMain: int, ghost gainDelta: int, ghost sf: nat, gainQ: i32, cnt: int) returns (w: seq<u16>)
    requires WellFormed(cc) && GainIndices(cc, gainMain, gainDelta) && sf < SUBFRAMES && 0 < cnt <= MAX_PULSES_PER_SF
    requires gainQ == GainQ(cc, gainMain, gainDelta, sf)
    ensures w == NrgWindow(cc, gainMain, gainDelta, sf, cnt)
  {
    hide WellFormed, GainQ;
    var bucket;
    if cnt >= 30 { bucket := 3; } else { bucket := cnt % 0x1_0000 / 10; }
    var g := (gainQ + 8192) / 16384;
    if g < -85 { g := -85; }
    var negPart := if g < 0 then g else 0;
    w := FcbgOffset(cc, CFG_SEL, bucket, -negPart);
  }

  method EncodeSmplGains(enc: RangeEncoder.RangeEncoder, cc: CcTables, counts: seq<int>, gp: GainParams)
    requires enc.Clean() && WellFormed(cc) && SubframeCounts(counts) && Valid(cc, counts, gp)
    modifies enc, enc.buf
    ensures enc.Clean() && enc.written == old(enc.written) + GainOps(cc, counts, gp)
  {
    hide WellFormed, NrgOps, NrgWindow, Codes, CdfOp, GainQ, Strict, Table, RangeEncoder.RangeEncoder.Clean, RangeEncoder.RangeEncoder.Valid;
    ghost var before := enc.written;
    MainTables(cc);
    StrictCodes(cc.nrgresGain4, gp.gainMain);
    StrictCodes(cc.nrgresShape4, gp.gainDelta);
    enc.EncodeCDF(gp.gainMain, cc.nrgresGain4);
    enc.EncodeCDF(gp.gainDelta, cc.nrgresShape4);
    var gainQ := SubframeGains(cc, gp.gainMain, gp.gainDelta);
    ghost var middle := enc.written;
    for sf := 0 to SUBFRAMES
      invariant enc.Clean() && enc.written + NrgOps(cc, counts, gp, sf) == middle + NrgOps(cc, counts, gp, 0)
      invariant forall j :: 0 <= j < SUBFRAMES ==> gainQ[j] == GainQ(cc, gp.gainMain, gp.gainDelta, j)
    {
      NrgUnfolds(cc, counts, gp, sf);
      var cnt := counts[sf];
      if cnt > 0 {
        var w := ResidualWindow(cc, gp.gainMain, gp.gainDelta, sf, gainQ[sf], cnt);
        enc.EncodeCDF(gp.nrgRes[sf], w);
      }
    }
    NrgUnfolds(cc, counts, gp, SUBFRAMES);
    assert enc.written + [] == enc.written;
    assert middle + NrgOps(cc, counts, gp, 0) == before + GainOps(cc, counts, gp);
  }

  lemma NrgUnfolds(cc: CcTables, counts: seq<int>, p: GainParams, sf: nat)
    requires WellFormed(cc) && SubframeCounts(counts) && Valid(cc, counts, p) && sf <= SUBFRAMES
    ensures sf == SUBFRAMES ==> NrgOps(cc, counts, p, sf) == []
    ensures sf < SUBFRAMES && counts[sf] <= 0 ==> NrgOps(cc, counts, p, sf) == NrgOps(cc, counts, p, sf + 1)
    ensures sf < SUBFRAMES && counts[sf] > 0 ==>
      var w := NrgWindow(cc, p.gainMain, p.gainDelta, sf, counts[sf]);
      Codes(w, p.nrgRes[sf]) && NrgOps(cc, counts, p, sf) == [CdfOp(w, p.nrgRes[sf])] + NrgOps(cc, counts, p, sf + 1)
  {
    hide WellFormed, NrgWindow;
    if sf < SUBFRAMES && counts[sf] > 0 { StrictCodes(NrgWindow(cc, p.gainMain, p.gainDelta, sf, counts[sf]), p.nrgRes[sf]); }
  }

  datatype GainResult = GainResult(gainQ: seq<i32>, params: GainParams)

  method DecodeSmplGains(dec: RangeDecoder.RangeDecoder, cc: CcTables, counts: seq<int>) returns (res: GainResult)
    requires dec.Valid() && WellFormed(cc) && SubframeCounts(counts)
    modifies dec
    ensures dec.Valid() && (dec.State(), res.params) == DecodeGains(cc, old(dec.State()), counts)
    ensures Valid(cc, counts, res.params) && |res.gainQ| == SUBFRAMES
    ensures forall sf :: 0 <= sf < SUBFRAMES ==> res.gainQ[sf] == GainQ(cc, res.params.gainMain, res.params.gainDelta, sf)
  {
    hide WellFormed, DecodeNrg, NrgWindow, DecodeCdf, Strict, Table, Reads, GainOps, RangeDecoder.RangeDecoder.Valid, RangeDecoder.RangeDecoder.State;
    GainsParsed(cc, dec.State(), counts);
    MainTables(cc);
    var gainMain := dec.DecodeCDF(cc.nrgresGain4);
    var gainDelta := dec.DecodeCDF(cc.nrgresShape4);
    var gainQ := SubframeGains(cc, gainMain, gainDelta);
    var nrgRes := DecodeResiduals(dec, cc, counts, gainMain, gainDelta, gainQ);
    res := GainResult(gainQ[..], GainParams(gainMain, gainDelta, nrgRes));
  }

  method DecodeResiduals(dec: RangeDecoder.RangeDecoder, cc: CcTables, counts: seq<int>, ghost gainMain: int, ghost gainDelta: int, gainQ: array<i32>)
    returns (nrgRes: seq<int>)
    requires dec.Valid() && WellFormed(cc) && SubframeCounts(counts) && GainIndices(cc, gainMain, gainDelta)
    requires gainQ.Length == SUBFRAMES && forall sf :: 0 <= sf < SUBFRAMES ==> gainQ[sf] == GainQ(cc, gainMain, gainDelta, sf)
    modifies dec
    ensures dec.Valid() && (dec.State(), nrgRes) == DecodeNrg(cc, old(dec.State()), counts, gainMain, gainDelta, [])
  {
    hide WellFormed, DecodeNrg, NrgWindow, DecodeCdf, GainQ, RangeDecoder.RangeDecoder.Valid, RangeDecoder.RangeDecoder.State;
    nrgRes := [];
    for sf := 0 to SUBFRAMES
      invariant dec.Valid() && |nrgRes| == sf
      invariant DecodeNrg(cc, dec.State(), counts, gainMain, gainDelta, nrgRes)
             == DecodeNrg(cc, old(dec.State()), counts, gainMain, gainDelta, [])
    {
      var cnt := counts[sf];
      if cnt <= 0 {
        NrgSkips(cc, dec.State(), counts, gainMain, gainDelta, nrgRes);
        nrgRes := nrgRes + [0];
      } else {
        NrgNext(cc, dec.State(), counts, gainMain, gainDelta, nrgRes);
        var w := ResidualWindow(cc, gainMain, gainDelta, sf, gainQ[sf], cnt);
        var s := dec.DecodeCDF(w);
        nrgRes := nrgRes + [s];
      }
    }
    NrgSkips(cc, dec.State(), counts, gainMain, gainDelta, nrgRes);
  }

  lemma NrgSkips(cc: CcTables, d: Dec, counts: seq<int>, gainMain: int, gainDelta: int, acc: seq<int>)
    requires WellFormed(cc) && DecRange(d) && SubframeCounts(counts) && GainIndices(cc, gainMain, gainDelta) && |acc| <= SUBFRAMES
    ensures |acc| == SUBFRAMES ==> DecodeNrg(cc, d, counts, gainMain, gainDelta, acc) == (d, acc)
    ensures |acc| < SUBFRAMES && counts[|acc|] <= 0 ==>
      DecodeNrg(cc, d, counts, gainMain, gainDelta, acc) == DecodeNrg(cc, d, counts, gainMain, gainDelta, acc + [0])
  {
    hide WellFormed, NrgWindow, DecodeCdf;
  }
}
