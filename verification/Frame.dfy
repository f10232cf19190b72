/** A whole packet: three internal frames, each LSF, pulses and either pitch or gains, behind one TOC byte. */
module Frame {
  import opened Words
  import opened RangeSpec
  import opened RangeRoundTrip
  import opened Reading
  import opened FrontOnly
  import CcTables
  import PitchTables
  import PulseSpec
  import PulseProof
  import Lsf
  import Gains
  import Pitch

  const INTERNAL := 3
  const CONFIG := 0
  const BUFFER := 513

  datatype FrameTables = FrameTables(lsf: Lsf.LsfTables, cc: CcTables.CcTables, pitch: PitchTables.PitchTables)

  predicate Good(tb: FrameTables)
  {
    Lsf.WellFormed(tb.lsf) && CcTables.WellFormed(tb.cc) && PitchTables.Consistent(tb.pitch)
  }

  /** Voiced frames carry pitch, the others gains. */
  datatype Side = Voiced(pitch: Pitch.PitchParams) | Unvoiced(gains: Gains.GainParams)

  datatype Internal = Internal(lsf: Lsf.LsfParams, pulses: PulseSpec.PulseParams, side: Side)

  // ---------------------------------------------------------------- one internal frame

  predicate SideValid(tb: FrameTables, subfr: seq<int>, stage1: int, side: Side)
    requires Good(tb) && PulseSpec.Counts(subfr)
  {
    if stage1 == 1 then side.Voiced? && Pitch.Valid(tb.cc, tb.pitch, subfr, side.pitch)
    else side.Unvoiced? && Gains.Valid(tb.cc, subfr, side.gains)
  }

  function SideOps(tb: FrameTables, subfr: seq<int>, st: Lsf.Predictor, stage1: int, side: Side): (ops: seq<Op>)
    requires Good(tb) && PulseSpec.Counts(subfr) && Pitch.Ready(st) && SideValid(tb, subfr, stage1, side)
    ensures AllCodable(ops)
  {
    if stage1 == 1 then Pitch.PitchOps(tb.cc, tb.pitch, subfr, st, side.pitch) else Gains.GainOps(tb.cc, subfr, side.gains)
  }

  function SideAfter(tb: FrameTables, subfr: seq<int>, st: Lsf.Predictor, stage1: int, side: Side): (r: Lsf.Predictor)
    requires Good(tb) && PulseSpec.Counts(subfr) && Pitch.Ready(st) && SideValid(tb, subfr, stage1, side)
    ensures Pitch.Ready(r)
  {
    hide CcTables.WellFormed, PitchTables.Built, Pitch.After;
    if stage1 == 1 then
      SideLengths(tb, subfr, side.pitch);
      Pitch.AfterReady(tb.cc, tb.pitch, subfr, st, side.pitch);
      Pitch.After(tb.pitch, subfr, st, side.pitch)
    else st
  }

  lemma SideLengths(tb: FrameTables, subfr: seq<int>, p: Pitch.PitchParams)
    requires Good(tb) && PulseSpec.Counts(subfr) && Pitch.Valid(tb.cc, tb.pitch, subfr, p)
    ensures |p.gainIdx| == |p.filtIdx| == Gains.SUBFRAMES && |p.laginds| == PitchTables.BLOCK_LAGS
  {
    hide CcTables.WellFormed, PitchTables.Built;
  }

  function DecodeSide(tb: FrameTables, d: Dec, subfr: seq<int>, st: Lsf.Predictor, stage1: int): (r: (Dec, Side))
    requires Good(tb) && DecRange(d) && PulseSpec.Counts(subfr) && Pitch.Ready(st)
    ensures DecRange(r.0)
  {
    if stage1 == 1 then
      var (e, p) := Pitch.DecodePitch(tb.cc, tb.pitch, d, subfr, st);
      (e, Voiced(p))
    else
      var (e, g) := Gains.DecodeGains(tb.cc, d, subfr);
      (e, Unvoiced(g))
  }

  /** The state internal frame f may start from: anything at all when it is the packet's first. */
  predicate ReadyAt(st: Lsf.Predictor, f: nat) { f == 0 || Pitch.Ready(st) }

  lemma AdvancedReady(st: Lsf.Predictor, f: nat, stage1: int)
    requires ReadyAt(st, f)
    ensures Pitch.Ready(Lsf.Advanced(st, f, stage1))
  {
  }

  predicate InternalValid(tb: FrameTables, st: Lsf.Predictor, f: nat, p: Internal)
    requires Good(tb)
  {
    && Lsf.Valid(tb.lsf, st, CONFIG, f, p.lsf) && PulseSpec.Replayable(p.pulses)
    && SideValid(tb, p.pulses.subfr, p.lsf.stage1, p.side)
  }

  /** Pulses, then the side information. */
  function CoreOps(tb: FrameTables, st: Lsf.Predictor, f: nat, p: Internal): (ops: seq<Op>)
    requires Good(tb) && ReadyAt(st, f) && InternalValid(tb, st, f, p)
    ensures AllCodable(ops)
  {
    hide Good, CcTables.WellFormed, PulseSpec.PulseOps, SideOps, SideValid, PulseSpec.RunsOk, PulseSpec.WalkAll, PulseSpec.Batches, Lsf.Valid, Codable, AllCodable;
    AdvancedReady(st, f, p.lsf.stage1);
    GoodParts(tb);
    var a, b := PulseSpec.PulseOps(tb.cc, p.pulses), SideOps(tb, p.pulses.subfr, Lsf.Advanced(st, f, p.lsf.stage1), p.lsf.stage1, p.side);
    CatCodable(a, b);
    a + b
  }

  lemma GoodParts(tb: FrameTables)
    requires Good(tb)
    ensures Lsf.WellFormed(tb.lsf) && CcTables.WellFormed(tb.cc) && PitchTables.Consistent(tb.pitch)
  {
  }

  function InternalOps(tb: FrameTables, st: Lsf.Predictor, f: nat, p: Internal): (ops: seq<Op>)
    requires Good(tb) && ReadyAt(st, f) && InternalValid(tb, st, f, p)
    ensures AllCodable(ops)
  {
    hide Good, Lsf.LsfOps, CoreOps, SideValid, PulseSpec.Replayable, Lsf.Valid, Codable, AllCodable;
    GoodParts(tb);
    CatCodable(Lsf.LsfOps(tb.lsf, st, CONFIG, f, p.lsf), CoreOps(tb, st, f, p));
    Lsf.LsfOps(tb.lsf, st, CONFIG, f, p.lsf) + CoreOps(tb, st, f, p)
  }

  function InternalAfter(tb: FrameTables, st: Lsf.Predictor, f: nat, p: Internal): (r: Lsf.Predictor)
    requires Good(tb) && ReadyAt(st, f) && InternalValid(tb, st, f, p)
    ensures Pitch.Ready(r)
  {
    hide Good, SideValid, Lsf.Valid, PulseSpec.RunsOk, PulseSpec.Batches;
    AdvancedReady(st, f, p.lsf.stage1);
    SideAfter(tb, p.pulses.subfr, Lsf.Advanced(st, f, p.lsf.stage1), p.lsf.stage1, p.side)
  }

  function DecodeCore(tb: FrameTables, d: Dec, st: Lsf.Predictor, f: nat, lsf: Lsf.LsfParams): (r: (Dec, Internal))
    requires Good(tb) && DecRange(d) && ReadyAt(st, f)
    ensures DecRange(r.0)
  {
    hide CcTables.WellFormed, Lsf.WellFormed, PitchTables.Consistent, PulseSpec.RunsOk, PulseSpec.WalkAll, PulseSpec.Batches, DecodeSide, PulseSpec.DecodeParams, PulseSpec.PulseOps, Reads;
    AdvancedReady(st, f, lsf.stage1);
    PulseProof.ParamsParsed(tb.cc, d);
    var (d2, pulses) := PulseSpec.DecodeParams(tb.cc, d);
    var (d3, side) := DecodeSide(tb, d2, pulses.subfr, Lsf.Advanced(st, f, lsf.stage1), lsf.stage1);
    (d3, Internal(lsf, pulses, side))
  }

  function DecodeInternal(tb: FrameTables, d: Dec, st: Lsf.Predictor, f: nat): (r: (Dec, Internal))
    requires Good(tb) && DecRange(d) && ReadyAt(st, f)
    ensures DecRange(r.0)
  {
    hide Good, Lsf.DecodeLsf, DecodeCore;
    GoodParts(tb);
    var (d1, lsf) := Lsf.DecodeLsf(tb.lsf, d, st, CONFIG, f);
    DecodeCore(tb, d1, st, f, lsf)
  }

  lemma SideRead(tb: FrameTables, d: Dec, subfr: seq<int>, st: Lsf.Predictor, stage1: int, side: Side, e: Dec)
    requires Good(tb) && DecRange(d) && PulseSpec.Counts(subfr) && Pitch.Ready(st) && SideValid(tb, subfr, stage1, side)
    requires Reads(d, SideOps(tb, subfr, st, stage1, side), e)
    ensures DecodeSide(tb, d, subfr, st, stage1) == (e, side)
  {
    hide CcTables.WellFormed, Lsf.WellFormed, PitchTables.Consistent, Reads, Pitch.PitchOps, Gains.GainOps, Pitch.DecodePitch, Gains.DecodeGains, Pitch.Valid, Gains.Valid, Pitch.Ready;
    if stage1 == 1 {
      Pitch.PitchRead(tb.cc, tb.pitch, d, subfr, st, side.pitch, e);
    } else {
      Gains.GainsRead(tb.cc, d, subfr, side.gains, e);
    }
  }

  /** One internal frame reads back as written. */
  lemma InternalRead(tb: FrameTables, d: Dec, st: Lsf.Predictor, f: nat, p: Internal, e: Dec)
    requires Good(tb) && DecRange(d) && ReadyAt(st, f) && InternalValid(tb, st, f, p) && Reads(d, InternalOps(tb, st, f, p), e)
    ensures DecodeInternal(tb, d, st, f) == (e, p)
  {
    hide Good, Reads, Lsf.LsfOps, PulseSpec.PulseOps, SideOps, Lsf.DecodeLsf, PulseSpec.DecodeParams, DecodeSide, PulseSpec.RunsOk, PulseSpec.WalkAll,
      PulseSpec.Batches, SideValid, Lsf.Valid;
    GoodParts(tb);
    AdvancedReady(st, f, p.lsf.stage1);
    var st1 := Lsf.Advanced(st, f, p.lsf.stage1);
    var a, b, c := Lsf.LsfOps(tb.lsf, st, CONFIG, f, p.lsf), PulseSpec.PulseOps(tb.cc, p.pulses), SideOps(tb, p.pulses.subfr, st1, p.lsf.stage1, p.side);
    var m1 := SplitAt(d, a, b + c, e);
    var m2 := SplitAt(m1, b, c, e);
    Lsf.LsfRead(tb.lsf, d, st, CONFIG, f, p.lsf, m1);
    PulseProof.ParamsRead(tb.cc, m1, p.pulses, m2);
    SideRead(tb, m2, p.pulses.subfr, st1, p.lsf.stage1, p.side, e);
  }

  lemma SideParsed(tb: FrameTables, d: Dec, subfr: seq<int>, st: Lsf.Predictor, stage1: int)
    requires Good(tb) && DecRange(d) && PulseSpec.Counts(subfr) && Pitch.Ready(st)
    ensures var (e, side) := DecodeSide(tb, d, subfr, st, stage1);
      SideValid(tb, subfr, stage1, side) && Reads(d, SideOps(tb, subfr, st, stage1, side), e)
  {
    hide CcTables.WellFormed, Lsf.WellFormed, PitchTables.Consistent, Reads, Pitch.PitchOps, Gains.GainOps, Pitch.DecodePitch, Gains.DecodeGains, Pitch.Valid, Gains.Valid, Pitch.Ready;
    if stage1 == 1 {
      Pitch.PitchParsed(tb.cc, tb.pitch, d, subfr, st);
    } else {
      Gains.GainsParsed(tb.cc, d, subfr);
    }
  }

  /** Every stream decodes to an internal frame that the encoder would have written with the same steps. */
  lemma InternalParsed(tb: FrameTables, d: Dec, st: Lsf.Predictor, f: nat)
    requires Good(tb) && DecRange(d) && ReadyAt(st, f)
    ensures var (e, p) := DecodeInternal(tb, d, st, f); InternalValid(tb, st, f, p) && Reads(d, InternalOps(tb, st, f, p), e)
  {
    hide Good, Reads, Lsf.LsfOps, PulseSpec.PulseOps, SideOps, Lsf.DecodeLsf, PulseSpec.DecodeParams, DecodeSide, PulseSpec.RunsOk, PulseSpec.WalkAll,
      PulseSpec.Batches, SideValid, Lsf.Valid;
    GoodParts(tb);
    var (d1, lsf) := Lsf.DecodeLsf(tb.lsf, d, st, CONFIG, f);
    Lsf.LsfParsed(tb.lsf, d, st, CONFIG, f);
    AdvancedReady(st, f, lsf.stage1);
    var st1 := Lsf.Advanced(st, f, lsf.stage1);
    var (d2, pulses) := PulseSpec.DecodeParams(tb.cc, d1);
    PulseProof.ParamsParsed(tb.cc, d1);
    var (e, side) := DecodeSide(tb, d2, pulses.subfr, st1, lsf.stage1);
    SideParsed(tb, d2, pulses.subfr, st1, lsf.stage1);
    var p := Internal(lsf, pulses, side);
    Joined(d1, PulseSpec.PulseOps(tb.cc, pulses), d2, SideOps(tb, pulses.subfr, st1, lsf.stage1, side), e);
    Joined(d, Lsf.LsfOps(tb.lsf, st, CONFIG, f, lsf), d1, CoreOps(tb, st, f, p), e);
  }

  // ---------------------------------------------------------------- three of them

  predicate FramesValid(tb: FrameTables, st: Lsf.Predictor, f: nat, ps: seq<Internal>)
    requires Good(tb) && ReadyAt(st, f)
    decreases |ps|
  {
    ps == [] || (InternalValid(tb, st, f, ps[0]) && FramesValid(tb, InternalAfter(tb, st, f, ps[0]), f + 1, ps[1..]))
  }

  function FrameOps(tb: FrameTables, st: Lsf.Predictor, f: nat, ps: seq<Internal>): (ops: seq<Op>)
    requires Good(tb) && ReadyAt(st, f) && FramesValid(tb, st, f, ps)
    ensures AllCodable(ops)
    decreases |ps|
  {
    hide Good, InternalOps, InternalAfter, InternalValid, Codable;
    if ps == [] then []
    else InternalOps(tb, st, f, ps[0]) + FrameOps(tb, InternalAfter(tb, st, f, ps[0]), f + 1, ps[1..])
  }

  function FramesAfter(tb: FrameTables, st: Lsf.Predictor, f: nat, ps: seq<Internal>): Lsf.Predictor
    requires Good(tb) && ReadyAt(st, f) && FramesValid(tb, st, f, ps)
    decreases |ps|
  {
    if ps == [] then st else FramesAfter(tb, InternalAfter(tb, st, f, ps[0]), f + 1, ps[1..])
  }

  function DecodeFrames(tb: FrameTables, d: Dec, st: Lsf.Predictor, f: nat, n: nat): (r: (Dec, seq<Internal>, Lsf.Predictor))
    requires Good(tb) && DecRange(d) && ReadyAt(st, f)
    ensures DecRange(r.0)
    decreases n
  {
    hide Good, DecodeInternal, InternalValid, InternalAfter, InternalOps, Reads;
    if n == 0 then (d, [], st)
    else
      InternalParsed(tb, d, st, f);
      var (d1, p) := DecodeInternal(tb, d, st, f);
      var (d2, rest, st2) := DecodeFrames(tb, d1, InternalAfter(tb, st, f, p), f + 1, n - 1);
      (d2, [p] + rest, st2)
  }

  lemma {:induction false} FramesRead(tb: FrameTables, d: Dec, st: Lsf.Predictor, f: nat, ps: seq<Internal>, e: Dec)
    requires Good(tb) && DecRange(d) && ReadyAt(st, f) && FramesValid(tb, st, f, ps) && Reads(d, FrameOps(tb, st, f, ps), e)
    ensures DecodeFrames(tb, d, st, f, |ps|) == (e, ps, FramesAfter(tb, st, f, ps))
    decreases |ps|
  {
    hide Good, Reads, DecodeInternal, InternalValid, InternalAfter, InternalOps;
    if ps == [] {
      NothingRead(d, [], e);
    } else {
      var st1 := InternalAfter(tb, st, f, ps[0]);
      var m := SplitAt(d, InternalOps(tb, st, f, ps[0]), FrameOps(tb, st1, f + 1, ps[1..]), e);
      InternalRead(tb, d, st, f, ps[0], m);
      FramesRead(tb, m, st1, f + 1, ps[1..], e);
      assert [ps[0]] + ps[1..] == ps;
    }
  }

  /** On arbitrary bytes the decoder reads three internal frames the encoder could have sent, and nothing else about them differs. */
  lemma {:induction false} FramesParsed(tb: FrameTables, d: Dec, st: Lsf.Predictor, f: nat, n: nat)
    requires Good(tb) && DecRange(d) && ReadyAt(st, f)
    ensures var (e, ps, st2) := DecodeFrames(tb, d, st, f, n);
      |ps| == n && FramesValid(tb, st, f, ps) && st2 == FramesAfter(tb, st, f, ps) && Reads(d, FrameOps(tb, st, f, ps), e)
    decreases n
  {
    hide Good, Reads, DecodeInternal, InternalValid, InternalAfter, InternalOps;
    if n == 0 {
      NothingRead(d, [], d);
    } else {
      InternalParsed(tb, d, st, f);
      var (d1, p) := DecodeInternal(tb, d, st, f);
      var st1 := InternalAfter(tb, st, f, p);
      FramesParsed(tb, d1, st1, f + 1, n - 1);
      var (e, rest, st2) := DecodeFrames(tb, d1, st1, f + 1, n - 1);
      assert ([p] + rest)[1..] == rest;
      Joined(d, InternalOps(tb, st, f, p), d1, FrameOps(tb, st1, f + 1, rest), e);
    }
  }

  // ---------------------------------------------------------------- independence of earlier packets

  lemma LsfForgets(t: Lsf.LsfTables, a: Lsf.Predictor, b: Lsf.Predictor, p: Lsf.LsfParams)
    requires Lsf.WellFormed(t)
    ensures Lsf.Valid(t, a, CONFIG, 0, p) <==> Lsf.Valid(t, b, CONFIG, 0, p)
    ensures Lsf.Valid(t, a, CONFIG, 0, p) ==> Lsf.LsfOps(t, a, CONFIG, 0, p) == Lsf.LsfOps(t, b, CONFIG, 0, p)
  {
  }

  lemma InternalForgets(tb: FrameTables, a: Lsf.Predictor, b: Lsf.Predictor, p: Internal)
    requires Good(tb) && InternalValid(tb, a, 0, p)
    ensures InternalValid(tb, b, 0, p) && InternalOps(tb, a, 0, p) == InternalOps(tb, b, 0, p)
    ensures InternalAfter(tb, a, 0, p) == InternalAfter(tb, b, 0, p)
  {
    hide Good, Lsf.LsfOps, Lsf.Valid, SideOps, SideValid, SideAfter, PulseSpec.PulseOps, PulseSpec.RunsOk, PulseSpec.WalkAll, PulseSpec.Batches;
    GoodParts(tb);
    LsfForgets(tb.lsf, a, b, p.lsf);
    Lsf.FirstFrameForgets(a, b, p.lsf.stage1);
  }

  /** What a packet's steps are does not depend on what either side remembers from the packets before. */
  lemma FramesForget(tb: FrameTables, a: Lsf.Predictor, b: Lsf.Predictor, ps: seq<Internal>)
    requires Good(tb) && ps != [] && FramesValid(tb, a, 0, ps)
    ensures FramesValid(tb, b, 0, ps) && FrameOps(tb, a, 0, ps) == FrameOps(tb, b, 0, ps)
    ensures FramesAfter(tb, a, 0, ps) == FramesAfter(tb, b, 0, ps)
  {
    hide Good, InternalValid, InternalAfter, InternalOps;
    InternalForgets(tb, a, b, ps[0]);
  }

  // ---------------------------------------------------------------- the packet

  lemma SideNoRaw(tb: FrameTables, subfr: seq<int>, st: Lsf.Predictor, stage1: int, side: Side)
    requires Good(tb) && PulseSpec.Counts(subfr) && Pitch.Ready(st) && SideValid(tb, subfr, stage1, side)
    ensures NoRaw(SideOps(tb, subfr, st, stage1, side))
  {
    hide CcTables.WellFormed, Lsf.WellFormed, PitchTables.Consistent, Pitch.PitchOps, Gains.GainOps, Pitch.Valid, Gains.Valid, NoRaw;
    if stage1 == 1 { PitchNoRaw(tb.cc, tb.pitch, subfr, st, side.pitch); } else { GainsNoRaw(tb.cc, subfr, side.gains); }
  }

  lemma {:induction false} FramesNoRaw(tb: FrameTables, st: Lsf.Predictor, f: nat, ps: seq<Internal>)
    requires Good(tb) && ReadyAt(st, f) && FramesValid(tb, st, f, ps)
    ensures NoRaw(FrameOps(tb, st, f, ps))
    decreases |ps|
  {
    hide Good, InternalAfter, InternalOps, InternalValid, NoRaw;
    if ps == [] {
      NoRawNil();
    } else {
      InternalNoRaw(tb, st, f, ps[0]);
      var st1 := InternalAfter(tb, st, f, ps[0]);
      FramesNoRaw(tb, st1, f + 1, ps[1..]);
      NoRawCat(InternalOps(tb, st, f, ps[0]), FrameOps(tb, st1, f + 1, ps[1..]));
    }
  }

  lemma InternalNoRaw(tb: FrameTables, st: Lsf.Predictor, f: nat, p: Internal)
    requires Good(tb) && ReadyAt(st, f) && InternalValid(tb, st, f, p)
    ensures NoRaw(InternalOps(tb, st, f, p))
  {
    hide Good, Lsf.LsfOps, PulseSpec.PulseOps, SideOps, PulseSpec.RunsOk, PulseSpec.WalkAll, PulseSpec.Batches, SideValid, Lsf.Valid, NoRaw;
    GoodParts(tb);
    AdvancedReady(st, f, p.lsf.stage1);
    var st1 := Lsf.Advanced(st, f, p.lsf.stage1);
    var a, b, c := Lsf.LsfOps(tb.lsf, st, CONFIG, f, p.lsf), PulseSpec.PulseOps(tb.cc, p.pulses), SideOps(tb, p.pulses.subfr, st1, p.lsf.stage1, p.side);
    LsfNoRaw(tb.lsf, st, CONFIG, f, p.lsf);
    PulsesNoRaw(tb.cc, p.pulses);
    SideNoRaw(tb, p.pulses.subfr, st1, p.lsf.stage1, p.side);
    NoRawCat(b, c);
    NoRawCat(a, b + c);
  }

  /** The range-coded body of a packet, and whether it fits the encoder's buffer. */
  function Body(tb: FrameTables, st: Lsf.Predictor, ps: seq<Internal>): (e: Enc)
    requires Good(tb) && FramesValid(tb, st, 0, ps)
  {
    Done(EncodeAll(NewEnc(BUFFER), FrameOps(tb, st, 0, ps)))
  }

  /**
   Decoding a packet, with anything after it and from any predictor state, recovers every index of all three
   internal frames without error.
   */
  lemma PacketRoundTrip(tb: FrameTables, enc: Lsf.Predictor, dec: Lsf.Predictor, ps: seq<Internal>, body: seq<u8>)
    requires Good(tb) && |ps| == INTERNAL && FramesValid(tb, enc, 0, ps)
    requires Body(tb, enc, ps).ok && Body(tb, enc, ps).out <= body
    ensures FramesValid(tb, dec, 0, ps) && var (e, qs, st) := DecodeFrames(tb, NewDec(body), dec, 0, INTERNAL);
      qs == ps && st == FramesAfter(tb, dec, 0, ps) && !e.err
  {
    hide Good, FramesValid, FrameOps, FramesAfter, DecodeFrames, NoRaw, Carries, AdvanceAll, Done, EncodeAll, Codable;
    var ops := FrameOps(tb, enc, 0, ps);
    FramesNoRaw(tb, enc, 0, ps);
    RangeRoundTrip.RangeRoundTrip(BUFFER, ops, body, |ops|);
    assert ops[..|ops|] == ops;
    var e := AdvanceAll(NewDec(body), ops);
    FramesForget(tb, enc, dec, ps);
    FramesRead(tb, NewDec(body), dec, 0, ps, e);
  }
}
