/** Encoding and decoding a whole packet with the coder objects. */
module PacketCoder {
  import opened Words
  import opened RangeSpec
  import opened RangeRoundTrip
  import opened FrontOnly
  import opened Frame
  import CcTables
  import PitchTables
  import PulseSpec
  import PulseProof
  import PulseCoder
  import Lsf
  import Gains
  import Pitch
  import PitchCoder
  import Reading
  import RangeEncoder
  import RangeDecoder

  datatype Result<T> = Ok(value: T) | Overflow

  method EncodeInternal(enc: RangeEncoder.RangeEncoder, tb: FrameTables, st: Lsf.LsfState, f: nat, ip: Internal)
    requires enc.Clean() && Good(tb) && ReadyAt(st.EncoderView(), f) && InternalValid(tb, st.EncoderView(), f, ip)
    modifies enc, enc.buf, st
    ensures enc.Clean() && enc.written == old(enc.written) + InternalOps(tb, old(st.EncoderView()), f, ip)
    ensures st.EncoderView() == InternalAfter(tb, old(st.EncoderView()), f, ip)
  {
    hide Good, Lsf.LsfOps, PulseSpec.PulseOps, Pitch.PitchOps, Gains.GainOps, PulseSpec.RunsOk, PulseSpec.WalkAll, PulseSpec.Batches, Lsf.Valid, Pitch.Valid,
      Gains.Valid, Pitch.After, RangeEncoder.RangeEncoder.Clean, RangeEncoder.RangeEncoder.Valid;
    GoodParts(tb);
    ghost var before, view := enc.written, st.EncoderView();
    AdvancedReady(view, f, ip.lsf.stage1);
    Lsf.EncodeSmplLsf(enc, tb.lsf, st, CONFIG, f, ip.lsf);
    ghost var st1 := st.EncoderView();
    PulseCoder.EncodeSmplPulses(enc, tb.cc, ip.pulses);
    ghost var middle := enc.written;
    EncodeSide(enc, tb, st, ip);
    assert enc.written == before + (Lsf.LsfOps(tb.lsf, view, CONFIG, f, ip.lsf)
      + (PulseSpec.PulseOps(tb.cc, ip.pulses) + SideOps(tb, ip.pulses.subfr, st1, ip.lsf.stage1, ip.side)));
  }

  /** Pitch for a voiced frame, gains for the rest. */
  method EncodeSide(enc: RangeEncoder.RangeEncoder, tb: FrameTables, st: Lsf.LsfState, ip: Internal)
    requires enc.Clean() && Good(tb) && PulseSpec.Counts(ip.pulses.subfr) && Pitch.Ready(st.EncoderView())
    requires SideValid(tb, ip.pulses.subfr, ip.lsf.stage1, ip.side)
    modifies enc, enc.buf, st
    ensures enc.Clean() && enc.written == old(enc.written) + SideOps(tb, ip.pulses.subfr, old(st.EncoderView()), ip.lsf.stage1, ip.side)
    ensures st.EncoderView() == SideAfter(tb, ip.pulses.subfr, old(st.EncoderView()), ip.lsf.stage1, ip.side)
  {
    hide Good, Pitch.PitchOps, Gains.GainOps, Pitch.Valid, Gains.Valid, Pitch.After, Pitch.Ready, RangeEncoder.RangeEncoder.Clean, RangeEncoder.RangeEncoder.Valid;
    GoodParts(tb);
    if ip.lsf.stage1 == 1 {
      PitchCoder.EncodeSmplPitch(enc, tb.cc, tb.pitch, st, ip.pulses.subfr, ip.side.pitch);
    } else {
      Gains.EncodeSmplGains(enc, tb.cc, ip.pulses.subfr, ip.side.gains);
    }
  }

  /** TOC byte and range-coded body; the one way it can fail is a body that does not fit. */
  method EncodeSmplFrame(tb: FrameTables, toc: u8, ps: seq<Internal>) returns (packet: Result<seq<u8>>)
    requires Good(tb) && |ps| == INTERNAL && FramesValid(tb, Lsf.Fresh, 0, ps)
    ensures packet == var e := Body(tb, Lsf.Fresh, ps); if e.ok then Ok([toc] + e.out) else Overflow
  {
    hide Good, FramesValid, FrameOps, InternalValid, InternalOps, InternalAfter, Done, EncodeAll, RangeEncoder.RangeEncoder.Clean, RangeEncoder.RangeEncoder.Valid;
    var enc := new RangeEncoder.RangeEncoder(BUFFER);
    var st := new Lsf.LsfState();
    assert ps[0..] == ps;
    for f := 0 to INTERNAL
      invariant enc.Clean() && enc.buf.Length == BUFFER && fresh(enc) && fresh(enc.buf) && fresh(st)
      invariant ReadyAt(st.EncoderView(), f) && FramesValid(tb, st.EncoderView(), f, ps[f..])
      invariant enc.written + FrameOps(tb, st.EncoderView(), f, ps[f..]) == FrameOps(tb, Lsf.Fresh, 0, ps)
    {
      NextFrame(tb, st.EncoderView(), f, ps[f..]);
      assert ps[f..][1..] == ps[f + 1..];
      EncodeInternal(enc, tb, st, f, ps[f]);
    }
    NextFrame(tb, st.EncoderView(), INTERNAL, ps[INTERNAL..]);
    assert enc.written + [] == enc.written;
    packet := Finish(enc, toc);
    FramesNoRaw(tb, Lsf.Fresh, 0, ps);
  }

  lemma NextFrame(tb: FrameTables, st: Lsf.Predictor, f: nat, ps: seq<Internal>)
    requires Good(tb) && ReadyAt(st, f) && FramesValid(tb, st, f, ps)
    ensures ps == [] ==> FrameOps(tb, st, f, ps) == []
    ensures ps != [] ==> InternalValid(tb, st, f, ps[0]) && FramesValid(tb, InternalAfter(tb, st, f, ps[0]), f + 1, ps[1..])
    ensures ps != [] ==> FrameOps(tb, st, f, ps) == InternalOps(tb, st, f, ps[0]) + FrameOps(tb, InternalAfter(tb, st, f, ps[0]), f + 1, ps[1..])
  {
    hide Good, InternalValid, InternalOps, InternalAfter;
  }

  /** Flush, and keep the bytes written. */
  method Finish(enc: RangeEncoder.RangeEncoder, toc: u8) returns (packet: Result<seq<u8>>)
    requires enc.Clean() && enc.buf.Length == BUFFER
    modifies enc, enc.buf
    ensures var e := Done(EncodeAll(NewEnc(BUFFER), old(enc.written)));
      NoRaw(old(enc.written)) ==> packet == if e.ok then Ok([toc] + e.out) else Overflow
  {
    hide NoRaw, Finished, Done, EncodeAll;
    ghost var ops := enc.written;
    assert enc.State() == EncodeAll(NewEnc(BUFFER), ops);
    enc.Done();
    if enc.err != 0 { return Overflow; }
    var n := enc.offs + enc.endOffs;
    packet := Ok([toc] + enc.buf[..][..n]);
    if NoRaw(ops) {
      FrontIsAll(BUFFER, ops);
      FrontOfFinished(Done(EncodeAll(NewEnc(BUFFER), ops)));
    }
  }

  lemma FrontOfFinished(e: Enc)
    requires e.ok && |e.out| + |e.back| + (if e.used > 0 then 1 else 0) <= e.room && e.back == [] && e.used == 0
    ensures Finished(e)[..|e.out|] == e.out
  {
  }

  // ---------------------------------------------------------------- decoding

  method DecodeInternalFrame(dec: RangeDecoder.RangeDecoder, tb: FrameTables, mem: PitchTables.SmplMem, st: Lsf.LsfState, f: nat)
    returns (p: Internal, pulses: seq<int>)
    requires dec.Valid() && Good(tb) && mem == PitchTables.MemOf(tb.pitch) && ReadyAt(st.DecoderView(), f)
    modifies dec, st
    ensures dec.Valid() && (dec.State(), p) == DecodeInternal(tb, old(dec.State()), old(st.DecoderView()), f)
    ensures InternalValid(tb, old(st.DecoderView()), f, p) && st.DecoderView() == InternalAfter(tb, old(st.DecoderView()), f, p)
    ensures pulses == PulseSpec.Expand(p.pulses)
  {
    hide Good, Lsf.DecodeLsf, PulseSpec.DecodeParams, PulseSpec.RunsOk, PulseSpec.WalkAll, PulseSpec.Batches, PulseSpec.Expand, Lsf.Valid, Pitch.Valid, Gains.Valid,
      Lsf.LsfOps, CoreOps, Reading.Reads, PitchTables.MemOf, DecodeSide, SideValid, SideAfter, Pitch.Ready,
      RangeDecoder.RangeDecoder.Valid, RangeDecoder.RangeDecoder.State;
    GoodParts(tb);
    ghost var view := st.DecoderView();
    InternalParsed(tb, dec.State(), view, f);
    var lsf, nraw := Lsf.DecodeSmplLsf(dec, tb.lsf, st, CONFIG, f);
    AdvancedReady(view, f, lsf.stage1);
    var res := PulseCoder.DecodeSmplPulses(dec, tb.cc);
    pulses := res.pulses;
    var side := DecodeSideInfo(dec, tb, mem, st, res.subfr, lsf.stage1);
    p := Internal(lsf, PulseSpec.PulseParams(res.subfr[0] + res.subfr[1] + res.subfr[2] + res.subfr[3], res.subfr, res.magRuns, res.signSyms), side);
  }

  method DecodeSideInfo(dec: RangeDecoder.RangeDecoder, tb: FrameTables, mem: PitchTables.SmplMem, st: Lsf.LsfState, subfr: seq<int>, stage1: int)
    returns (side: Side)
    requires dec.Valid() && Good(tb) && mem == PitchTables.MemOf(tb.pitch) && PulseSpec.Counts(subfr) && Pitch.Ready(st.DecoderView())
    modifies dec, st
    ensures dec.Valid() && (dec.State(), side) == DecodeSide(tb, old(dec.State()), subfr, old(st.DecoderView()), stage1)
    ensures SideValid(tb, subfr, stage1, side) && st.DecoderView() == SideAfter(tb, subfr, old(st.DecoderView()), stage1, side)
  {
    hide Good, Pitch.DecodePitch, Gains.DecodeGains, Pitch.Valid, Gains.Valid, Pitch.After, Pitch.Ready, PitchTables.MemOf,
      RangeDecoder.RangeDecoder.Valid, RangeDecoder.RangeDecoder.State;
    GoodParts(tb);
    var voiced := stage1 == 1;
    if voiced {
      var pr := PitchCoder.DecodeSmplPitch(dec, tb.cc, mem, tb.pitch, st, subfr);
      side := Voiced(pr.params);
    } else {
      var g := Gains.DecodeSmplGains(dec, tb.cc, subfr);
      side := Unvoiced(g.params);
    }
  }

  /** The entropy reads of an active main-rate frame: three internal frames, the state carried on in `st`. */
  method DecodeActiveFrame(frame: seq<u8>, tb: FrameTables, mem: PitchTables.SmplMem, st: Lsf.LsfState)
    returns (ps: seq<Internal>, excitation: seq<seq<int>>, err: bool)
    requires |frame| >= 1 && frame[0] / 4 % 2 == CONFIG && Good(tb) && mem == PitchTables.MemOf(tb.pitch)
    modifies st
    ensures var (e, qs, after) := DecodeFrames(tb, NewDec(frame[1..]), old(st.DecoderView()), 0, INTERNAL);
      ps == qs && st.DecoderView() == after && err == e.err
    ensures |ps| == |excitation| == INTERNAL
    ensures forall f :: 0 <= f < INTERNAL ==> PulseSpec.Replayable(ps[f].pulses) && excitation[f] == PulseSpec.Expand(ps[f].pulses)
  {
    hide Good, DecodeInternal, DecodeFrames, InternalAfter, PulseSpec.RunsOk, PulseSpec.WalkAll, PulseSpec.Batches, PulseSpec.Expand, Lsf.Valid, SideValid,
      PitchTables.MemOf, NewDec, RangeDecoder.RangeDecoder.Valid, RangeDecoder.RangeDecoder.State;
    var dec := new RangeDecoder.RangeDecoder(frame[1..]);
    ghost var goal := DecodeFrames(tb, dec.State(), st.DecoderView(), 0, INTERNAL);
    ps, excitation := [], [];
    assert [] + goal.1 == goal.1;
    for f := 0 to INTERNAL
      invariant dec.Valid() && fresh(dec) && ReadyAt(st.DecoderView(), f) && |ps| == |excitation| == f
      invariant forall j :: 0 <= j < f ==> PulseSpec.Replayable(ps[j].pulses) && excitation[j] == PulseSpec.Expand(ps[j].pulses)
      invariant var (e, rest, after) := DecodeFrames(tb, dec.State(), st.DecoderView(), f, INTERNAL - f); (e, ps + rest, after) == goal
    {
      DecodeNext(tb, dec.State(), st.DecoderView(), f, INTERNAL - f);
      ghost var rest := DecodeFrames(tb, dec.State(), st.DecoderView(), f, INTERNAL - f).1;
      var p, pulses := DecodeInternalFrame(dec, tb, mem, st, f);
      assert ps + rest == ps + [p] + rest[1..];
      ps, excitation := ps + [p], excitation + [pulses];
    }
    DecodeNext(tb, dec.State(), st.DecoderView(), INTERNAL, 0);
    assert ps + [] == ps;
    err := dec.err;
    ErrOf(dec);
  }

  lemma ErrOf(dec: RangeDecoder.RangeDecoder)
    ensures dec.State().err == dec.err
  {
  }

  lemma DecodeNext(tb: FrameTables, d: Dec, st: Lsf.Predictor, f: nat, n: nat)
    requires Good(tb) && DecRange(d) && ReadyAt(st, f)
    ensures n == 0 ==> DecodeFrames(tb, d, st, f, n) == (d, [], st)
    ensures n > 0 ==> var (d1, p) := DecodeInternal(tb, d, st, f);
      InternalValid(tb, st, f, p) && DecRange(d1)
      && var (d2, rest, st2) := DecodeFrames(tb, d1, InternalAfter(tb, st, f, p), f + 1, n - 1);
      DecodeFrames(tb, d, st, f, n) == (d2, [p] + rest, st2) && ([p] + rest)[1..] == rest
  {
    hide Good, DecodeInternal, InternalValid, InternalAfter, InternalOps, Reading.Reads;
    if n > 0 { InternalParsed(tb, d, st, f); }
  }
}
