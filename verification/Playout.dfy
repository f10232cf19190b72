/** The playout buffer that turns packets into a continuous, RTP-timed stream. */
module Playout {
  import opened Words
  import opened Arith

  const FRAME_SAMPLES := 960
  const PREFILL := 1920
  const MAX_GAP := 32000
  const M32 := 0x1_0000_0000

  type Frame = seq<int>

  datatype Stamped = Stamped(timestamp: u32, pcm: Frame)

  datatype Play = Play(pending: Option<Stamped>, prefill: seq<Frame>, prefillSamples: int, started: bool)

  const Idle := Play(None, [], 0, false)

  /** A frame cut or padded to `samples`, but never padded beyond a packet's worth or its own length. */
  function Aligned(frame: Frame, samples: nat): (r: Frame)
    ensures |r| <= samples
  {
    var n := Min(samples, Max(|frame|, FRAME_SAMPLES));
    if n <= |frame| then frame[..n] else frame + Silence(n - |frame|)
  }

  function Silence(n: nat): (s: Frame)
    ensures |s| == n && forall i :: 0 <= i < n ==> s[i] == 0
  {
    seq(n, _ => 0)
  }

  function Samples(fs: seq<Frame>): nat { if fs == [] then 0 else |fs[0]| + Samples(fs[1..]) }

  /** Oldest frames go while more than the longest gap is buffered, but the last one stays. */
  function Trimmed(fs: seq<Frame>): (r: seq<Frame>)
    ensures |r| <= |fs| && r == fs[|fs| - |r|..] && (fs != [] ==> r != [])
  {
    if |fs| > 1 && Samples(fs) > MAX_GAP then Trimmed(fs[1..]) else fs
  }

  function Delta(later: u32, earlier: u32): u32 { (later - earlier) % M32 }

  /** State after a push, whether playback started with it, and the frames written. */
  function Pushed(s: Play, timestamp: u32, frame: Frame, sink: bool): (Play, bool, seq<Frame>)
  {
    match s.pending
    case None => (s.(pending := Some(Stamped(timestamp, frame))), false, [])
    case Some(p) =>
      var next := Some(Stamped(timestamp, frame));
      var delta := Delta(timestamp, p.timestamp);
      if delta == 0 || delta > MAX_GAP then (Play(next, [], 0, false), false, [])
      else
        var ready := Aligned(p.pcm, delta);
        if s.started && sink then (s.(pending := next), false, [ready])
        else Held(next, if s.started then [] else s.prefill, ready, sink)
  }

  /** A frame joins the prefill, which goes out once it is long enough and there is a sink. */
  function Held(next: Option<Stamped>, held: seq<Frame>, ready: Frame, sink: bool): (Play, bool, seq<Frame>)
  {
    var kept := Trimmed(held + [ready]);
    if !sink || Samples(kept) < PREFILL then (Play(next, kept, Samples(kept), false), false, [])
    else (Play(next, [], 0, true), true, kept)
  }

  function Flushed(s: Play, sink: bool): (Play, seq<Frame>)
  {
    if !s.started || s.pending.None? || !sink then (s, [])
    else (s.(pending := None), [s.pending.value.pcm])
  }

  method AlignAudioFrame(frame: Frame, samples0: nat) returns (aligned: Frame)
    ensures aligned == Aligned(frame, samples0)
    ensures |aligned| == Min(samples0, Max(|frame|, FRAME_SAMPLES))
    ensures forall i :: 0 <= i < |aligned| ==> aligned[i] == if i < |frame| then frame[i] else 0
  {
    var samples := samples0;
    var maxSamples := if |frame| > FRAME_SAMPLES then |frame| else FRAME_SAMPLES;
    if samples > maxSamples { samples := maxSamples; }
    if samples == |frame| { return frame; }
    if samples < |frame| { aligned := frame[..samples]; } else { aligned := frame + Silence(samples - |frame|); }
  }

  class AudioPlayoutBuffer {
    var pending: Option<Stamped>
    var prefill: seq<Frame>
    var prefillSamples: int
    var started: bool

    ghost function State(): Play
      reads this
    {
      Play(pending, prefill, prefillSamples, started)
    }

    /** The running count is the buffered samples, and nothing is buffered once playing. */
    ghost predicate Valid()
      reads this
    {
      prefillSamples == Samples(prefill) && (started ==> prefill == [])
    }

    constructor ()
      ensures Valid() && State() == Idle
    {
      pending, prefill, prefillSamples, started := None, [], 0, false;
    }

    /** Frames that reach the sink, which never fails, are returned in writing order. */
    method Push(timestamp: u32, frame: Frame, sink: bool) returns (startedNow: bool, written: seq<Frame>)
      requires Valid()
      modifies this
      ensures Valid() && (State(), startedNow, written) == Pushed(old(State()), timestamp, frame, sink)
    {
      hide Samples, Aligned, Held, Delta;
      startedNow, written := false, [];
      if pending.None? {
        pending := Some(Stamped(timestamp, frame));
        return;
      }
      var delta := Delta(timestamp, pending.value.timestamp);
      if delta == 0 || delta > MAX_GAP {
        Reset(timestamp, frame);
        return;
      }
      var ready := AlignAudioFrame(pending.value.pcm, delta);
      pending := Some(Stamped(timestamp, frame));
      if started && sink { return false, [ready]; }
      NoSamples();
      if started { started, prefill, prefillSamples := false, [], 0; }
      startedNow, written := Hold(ready, sink);
    }

    method Hold(ready: Frame, sink: bool) returns (startedNow: bool, written: seq<Frame>)
      requires Valid() && !started
      modifies this`prefill, this`prefillSamples, this`started
      ensures Valid() && (State(), startedNow, written) == Held(pending, old(prefill), ready, sink)
    {
      hide Samples, Trimmed;
      startedNow, written := false, [];
      Buffer(ready);
      NoSamples();
      if !sink || prefillSamples < PREFILL { return; }
      written := Drain();
      started := true;
      startedNow := true;
    }

    /** Adds a frame to the prefill and drops the oldest while too much is held. */
    method Buffer(ready: Frame)
      requires Valid() && !started
      modifies this`prefill, this`prefillSamples
      ensures Valid() && prefill == Trimmed(old(prefill) + [ready])
    {
      hide Samples, Trimmed;
      SamplesSnoc(prefill, ready);
      prefill := prefill + [ready];
      prefillSamples := prefillSamples + |ready|;
      ghost var goal := Trimmed(prefill);
      while prefillSamples > MAX_GAP && |prefill| > 1
        invariant prefillSamples == Samples(prefill) && Trimmed(prefill) == goal && !started
        decreases |prefill|
      {
        TrimStep(prefill);
        prefillSamples := prefillSamples - |prefill[0]|;
        prefill := prefill[1..];
      }
      TrimStep(prefill);
    }

    method Drain() returns (written: seq<Frame>)
      requires Valid()
      modifies this`prefill, this`prefillSamples
      ensures written == old(prefill) && prefill == [] && prefillSamples == 0
    {
      written := [];
      while |prefill| > 0
        invariant prefillSamples == Samples(prefill) && written + prefill == old(prefill)
        decreases |prefill|
      {
        var buffered := prefill[0];
        written := written + [buffered];
        prefillSamples := prefillSamples - |buffered|;
        prefill := prefill[1..];
      }
    }

    method Flush(sink: bool) returns (written: seq<Frame>)
      requires Valid()
      modifies this`pending
      ensures Valid() && (State(), written) == Flushed(old(State()), sink)
    {
      if !started || pending.None? || !sink { return []; }
      written := [pending.value.pcm];
      pending := None;
    }

    method Reset(timestamp: u32, frame: Frame)
      modifies this
      ensures Valid() && State() == Play(Some(Stamped(timestamp, frame)), [], 0, false)
    {
      pending, prefill, prefillSamples, started := Some(Stamped(timestamp, frame)), [], 0, false;
    }
  }

  lemma TrimStep(fs: seq<Frame>)
    ensures Trimmed(fs) == if |fs| > 1 && Samples(fs) > MAX_GAP then Trimmed(fs[1..]) else fs
    ensures fs != [] ==> Samples(fs) == |fs[0]| + Samples(fs[1..])
  {
  }

  /** What trimming leaves fits, or is a single frame. */
  lemma {:induction false} TrimmedFits(fs: seq<Frame>)
    ensures |Trimmed(fs)| <= 1 || Samples(Trimmed(fs)) <= MAX_GAP
    decreases |fs|
  {
    hide Samples;
    if |fs| > 1 && Samples(fs) > MAX_GAP { TrimmedFits(fs[1..]); }
  }

  /** Every frame trimmed off was one too many, counting from it on. */
  lemma {:induction false} TrimmedOnlyExcess(fs: seq<Frame>, i: nat)
    requires i < |fs| - |Trimmed(fs)|
    ensures i < |fs| - 1 && Samples(fs[i..]) > MAX_GAP
    decreases |fs|
  {
    hide Samples;
    assert |fs| > 1 && Samples(fs) > MAX_GAP;
    if i > 0 {
      assert fs[i..] == fs[1..][i - 1..];
      TrimmedOnlyExcess(fs[1..], i - 1);
    } else {
      assert fs[0..] == fs;
    }
  }

  lemma NoSamples()
    ensures Samples([]) == 0
  {
  }

  lemma {:induction false} SamplesSnoc(fs: seq<Frame>, f: Frame)
    ensures Samples(fs + [f]) == Samples(fs) + |f|
  {
    if fs == [] {
      assert [f][1..] == [];
    } else {
      assert (fs + [f])[1..] == fs[1..] + [f];
      SamplesSnoc(fs[1..], f);
    }
  }

  // ---------------------------------------------------------------- runs

  datatype Event = Push(timestamp: u32, pcm: Frame, sink: bool) | Flush(sink: bool)

  function Next(s: Play, e: Event): (Play, seq<Frame>)
  {
    match e
    case Push(timestamp, pcm, sink) => var (s1, _, out) := Pushed(s, timestamp, pcm, sink); (s1, out)
    case Flush(sink) => Flushed(s, sink)
  }

  /** State after the events, and everything written to the sink. */
  function Run(es: seq<Event>): (Play, seq<Frame>)
  {
    if es == [] then (Idle, [])
    else
      var (s, out) := Run(es[..|es| - 1]);
      var (s1, more) := Next(s, es[|es| - 1]);
      (s1, out + more)
  }

  /** f is what event k pushed, aligned to some length. */
  ghost predicate Carries(es: seq<Event>, k: nat, f: Frame) { k < |es| && es[k].Push? && exists n: nat :: f == Aligned(es[k].pcm, n) }

  ghost predicate AllCarry(es: seq<Event>, ids: seq<nat>, fs: seq<Frame>) { |ids| == |fs| && forall j :: 0 <= j < |ids| ==> Carries(es, ids[j], fs[j]) }

  predicate Rising(ids: seq<nat>, bound: int) { (forall i, j :: 0 <= i < j < |ids| ==> ids[i] < ids[j]) && forall i :: 0 <= i < |ids| ==> ids[i] < bound }

  /** Where every written, buffered and pending frame came from: rising push numbers throughout. */
  ghost predicate Explained(es: seq<Event>, s: Play, out: seq<Frame>, outIds: seq<nat>, preIds: seq<nat>, pend: nat)
  {
    && AllCarry(es, outIds, out) && AllCarry(es, preIds, s.prefill) && Rising(outIds + preIds, if s.pending.Some? then pend else |es|)
    && (s.pending.Some? ==> pend < |es| && es[pend].Push? && es[pend].pcm == s.pending.value.pcm && es[pend].timestamp == s.pending.value.timestamp)
  }

  lemma CarriesMore(es: seq<Event>, e: Event, ids: seq<nat>, fs: seq<Frame>)
    requires AllCarry(es, ids, fs)
    ensures AllCarry(es + [e], ids, fs)
  {
    forall j | 0 <= j < |ids| ensures Carries(es + [e], ids[j], fs[j]) { assert Carries(es, ids[j], fs[j]); }
  }

  lemma CarrySnoc(es: seq<Event>, ids: seq<nat>, fs: seq<Frame>, k: nat, f: Frame)
    requires AllCarry(es, ids, fs) && Carries(es, k, f)
    ensures AllCarry(es, ids + [k], fs + [f])
  {
  }

  lemma CarryConcat(es: seq<Event>, a: seq<nat>, fs: seq<Frame>, b: seq<nat>, gs: seq<Frame>)
    requires AllCarry(es, a, fs) && AllCarry(es, b, gs)
    ensures AllCarry(es, a + b, fs + gs)
  {
  }

  lemma CarrySuffix(es: seq<Event>, ids: seq<nat>, fs: seq<Frame>, k: nat)
    requires AllCarry(es, ids, fs) && k <= |ids|
    ensures AllCarry(es, ids[k..], fs[k..])
  {
  }

  lemma SelfCarried(es: seq<Event>, k: nat)
    requires k < |es| && es[k].Push?
    ensures Carries(es, k, es[k].pcm)
  {
    assert es[k].pcm == Aligned(es[k].pcm, |es[k].pcm|);
  }

  lemma AlignedCarried(es: seq<Event>, k: nat, n: nat)
    requires k < |es| && es[k].Push?
    ensures Carries(es, k, Aligned(es[k].pcm, n))
  {
  }

  lemma RisingSnoc(ids: seq<nat>, pend: nat, bound: int)
    requires Rising(ids, pend) && pend < bound
    ensures Rising(ids + [pend], bound)
  {
  }

  lemma RisingCut(a: seq<nat>, b: seq<nat>, cut: nat, bound: int)
    requires Rising(a + b, bound) && cut <= |b|
    ensures Rising(a + b[cut..], bound)
  {
    var all, r := a + b, a + b[cut..];
    forall i, j | 0 <= i < j < |r| ensures r[i] < r[j] {
      var i', j' := if i < |a| then i else i + cut, if j < |a| then j else j + cut;
      assert all[i'] == r[i] && all[j'] == r[j];
    }
    forall i | 0 <= i < |r| ensures r[i] < bound {
      var i' := if i < |a| then i else i + cut;
      assert all[i'] == r[i];
    }
  }

  lemma RisingLater(ids: seq<nat>, a: int, b: int)
    requires Rising(ids, a) && a <= b
    ensures Rising(ids, b)
  {
  }

  /** The new packet takes the pending place. */
  lemma NowPending(es: seq<Event>, e: Event, s: Play, out: seq<Frame>, outIds: seq<nat>, preIds: seq<nat>)
    requires e.Push? && s.pending == Some(Stamped(e.timestamp, e.pcm))
    requires AllCarry(es + [e], outIds, out) && AllCarry(es + [e], preIds, s.prefill) && Rising(outIds + preIds, |es|)
    ensures Explained(es + [e], s, out, outIds, preIds, |es|)
  {
    hide AllCarry, Rising;
    assert (es + [e])[|es|] == e;
  }

  // ---------------------------------------------------------------- what becomes of each push

  /** Event k drops what is pending and buffered: a repeated timestamp, or one too far ahead. */
  predicate Restarts(es: seq<Event>, k: nat)
    requires k < |es|
  {
    var s := Run(es[..k]).0;
    es[k].Push? && s.pending.Some?
    && (es[k].timestamp == s.pending.value.timestamp || (es[k].timestamp - s.pending.value.timestamp) % M32 > MAX_GAP)
  }

  /** The push that last restarted playback, 0 if none did. */
  function Since(es: seq<Event>): nat
  {
    if es == [] then 0
    else if Restarts(es, |es| - 1) then |es| - 1
    else Since(es[..|es| - 1])
  }

  /** It did, and none after it. */
  lemma {:induction false} SinceIsLast(es: seq<Event>)
    ensures Since(es) <= |es| && (Since(es) > 0 ==> Since(es) < |es| && Restarts(es, Since(es)))
    ensures forall k :: Since(es) < k < |es| ==> !Restarts(es, k)
    decreases |es|
  {
    hide Restarts;
    if es != [] {
      var n := |es| - 1;
      SinceIsLast(es[..n]);
      forall k | 0 <= k < n ensures Restarts(es[..n], k) == Restarts(es, k) { RestartsBefore(es, n, k); }
    }
  }

  lemma RestartsBefore(es: seq<Event>, n: nat, k: nat)
    requires k < n <= |es|
    ensures Restarts(es[..n], k) == Restarts(es, k)
  {
    hide Run;
    assert es[..n][..k] == es[..k];
  }

  /** What push m finds held, the frame it releases at the end. */
  function Queue(es: seq<Event>, m: nat): seq<Frame>
    requires m < |es|
  {
    var s := Run(es[..m]).0;
    if !es[m].Push? || s.pending.None? then []
    else (if s.started then [] else s.prefill) + [Aligned(s.pending.value.pcm, (es[m].timestamp - s.pending.value.timestamp) % M32)]
  }

  /** The frame of push c was at place i of what push m found held, not the newest, and from there on it was more than the longest gap. */
  ghost predicate CutAt(es: seq<Event>, c: nat, i: nat, m: nat)
  {
    c < m < |es| && i < |Queue(es, m)| - 1 && Carries(es, c, Queue(es, m)[i]) && Samples(Queue(es, m)[i..]) > MAX_GAP
  }

  ghost predicate Cut(es: seq<Event>, c: nat) { exists i: nat, m: nat :: CutAt(es, c, i, m) }

  /** Every push since the last restart is written, buffered, pending, or cut as one of the oldest of too many. */
  ghost predicate Accounted(es: seq<Event>, s: Play, outIds: seq<nat>, preIds: seq<nat>, pend: nat)
  {
    forall k: nat :: Since(es) <= k < |es| && es[k].Push? ==> Kept(s, outIds, preIds, pend, k) || Cut(es, k)
  }

  predicate Kept(s: Play, outIds: seq<nat>, preIds: seq<nat>, pend: nat, k: nat)
  {
    k in outIds || k in preIds || (s.pending.Some? && k == pend)
  }

  lemma CutMore(es: seq<Event>, e: Event, c: nat)
    requires Cut(es, c)
    ensures Cut(es + [e], c)
  {
    hide Carries, Samples, Run, Aligned;
    var i: nat, m: nat :| CutAt(es, c, i, m);
    assert (es + [e])[..m] == es[..m];
    CarriesOne(es, e, c, Queue(es, m)[i]);
    assert CutAt(es + [e], c, i, m);
  }

  lemma CarriesOne(es: seq<Event>, e: Event, c: nat, f: Frame)
    requires Carries(es, c, f)
    ensures Carries(es + [e], c, f)
  {
  }

  /** Of what the last push found held, each frame stays or is cut. */
  lemma StaysOrCut(es: seq<Event>, ids: seq<nat>, k: nat)
    requires es != [] && AllCarry(es, ids, Queue(es, |es| - 1)) && k in ids && forall i :: 0 <= i < |ids| ==> ids[i] < |es| - 1
    ensures k in ids[|ids| - |Trimmed(Queue(es, |es| - 1))|..] || Cut(es, k)
  {
    hide Carries, Samples, Run, Aligned, Trimmed;
    var q := Queue(es, |es| - 1);
    var i: nat :| i < |ids| && ids[i] == k;
    var cut := |ids| - |Trimmed(q)|;
    if i < cut {
      TrimmedOnlyExcess(q, i);
      assert Carries(es, ids[i], q[i]);
      assert CutAt(es, k, i, |es| - 1);
    } else {
      assert ids[cut..][i - cut] == k;
    }
  }

  /** Push numbers of what trimming leaves. */
  function Left(ids: seq<nat>, fs: seq<Frame>): seq<nat>
    requires |ids| == |fs|
  {
    ids[|fs| - |Trimmed(fs)|..]
  }

  /** Frames held after a packet is accepted but not played directly. */
  lemma HeldExplained(es: seq<Event>, held: seq<Frame>, outIds: seq<nat>, preIds: seq<nat>, pend: nat, ready: Frame)
    requires AllCarry(es, preIds, held) && Rising(outIds + preIds, pend) && pend < |es| - 1 && Carries(es, pend, ready)
    ensures |preIds + [pend]| == |held + [ready]| && AllCarry(es, preIds + [pend], held + [ready])
    ensures AllCarry(es, Left(preIds + [pend], held + [ready]), Trimmed(held + [ready]))
    ensures Rising(outIds + (preIds + [pend]), |es| - 1) && Rising(outIds + Left(preIds + [pend], held + [ready]), |es| - 1)
  {
    hide Carries, Rising, Trimmed, AllCarry;
    CarrySnoc(es, preIds, held, pend, ready);
    RisingSnoc(outIds + preIds, pend, |es| - 1);
    assert outIds + preIds + [pend] == outIds + (preIds + [pend]);
    CarryLength(es, preIds, held);
    var cut := |held| + 1 - |Trimmed(held + [ready])|;
    CarrySuffix(es, preIds + [pend], held + [ready], cut);
    RisingCut(outIds, preIds + [pend], cut, |es| - 1);
  }

  /** Of them all, those not left are cut. */
  lemma HeldOrCut(es: seq<Event>, outIds: seq<nat>, ids: seq<nat>)
    requires es != [] && AllCarry(es, ids, Queue(es, |es| - 1)) && Rising(outIds + ids, |es| - 1) && |ids| == |Queue(es, |es| - 1)|
    ensures forall k :: k in ids ==> k in Left(ids, Queue(es, |es| - 1)) || Cut(es, k)
  {
    hide AllCarry, Rising, Queue, Cut, Trimmed;
    RisingBound(outIds, ids, |es| - 1);
    forall k: nat | k in ids ensures k in Left(ids, Queue(es, |es| - 1)) || Cut(es, k) { StaysOrCut(es, ids, k); }
  }

  lemma RisingBound(a: seq<nat>, b: seq<nat>, bound: int)
    requires Rising(a + b, bound)
    ensures forall i :: 0 <= i < |b| ==> b[i] < bound
  {
    forall i | 0 <= i < |b| ensures b[i] < bound { assert (a + b)[|a| + i] == b[i]; }
  }

  lemma CarryLength(es: seq<Event>, ids: seq<nat>, fs: seq<Frame>)
    requires AllCarry(es, ids, fs)
    ensures |ids| == |fs|
  {
  }

  lemma NoneCarried(es: seq<Event>)
    ensures AllCarry(es, [], [])
  {
  }

  /** What the last push of a run finds. */
  lemma LastPush(es: seq<Event>, e: Event)
    requires e.Push?
    ensures match Run(es).0.pending
      case None => !Restarts(es + [e], |es|)
      case Some(p) =>
        var s, delta := Run(es).0, Delta(e.timestamp, p.timestamp);
        && (Restarts(es + [e], |es|) <==> delta == 0 || delta > MAX_GAP)
        && Queue(es + [e], |es|) == (if s.started then [] else s.prefill) + [Aligned(p.pcm, delta)]
  {
    hide Run, Aligned, Delta, Restarts, Queue;
    var s := Run(es).0;
    var es1 := es + [e];
    assert es1[..|es|] == es && es1[|es|] == e;
    if s.pending.Some? {
      RestartsIs(es1, |es|, s, e);
      QueueIs(es1, |es|, s, e);
    } else {
      NoRestart(es1, |es|);
    }
  }

  lemma RestartsIs(es: seq<Event>, k: nat, s: Play, e: Event)
    requires k < |es| && s == Run(es[..k]).0 && e == es[k] && e.Push? && s.pending.Some?
    ensures Restarts(es, k) <==> Delta(e.timestamp, s.pending.value.timestamp) == 0 || Delta(e.timestamp, s.pending.value.timestamp) > MAX_GAP
  {
    hide Run;
    DeltaZero(e.timestamp, s.pending.value.timestamp);
  }

  lemma QueueIs(es: seq<Event>, k: nat, s: Play, e: Event)
    requires k < |es| && s == Run(es[..k]).0 && e == es[k] && e.Push? && s.pending.Some?
    ensures Queue(es, k) == (if s.started then [] else s.prefill) + [Aligned(s.pending.value.pcm, Delta(e.timestamp, s.pending.value.timestamp))]
  {
    hide Run, Aligned;
  }

  lemma NoRestart(es: seq<Event>, k: nat)
    requires k < |es| && Run(es[..k]).0.pending.None?
    ensures !Restarts(es, k)
  {
    hide Run;
  }

  lemma DeltaZero(a: u32, b: u32)
    ensures Delta(a, b) == 0 <==> a == b
  {
    if a > b { DivModUnique(a - b, M32, 0, a - b); } else if a < b { DivModUnique(a - b, M32, -1, a - b + M32); }
  }

  /** While playing, the pending frame follows what has been written. */
  lemma PlayedExplained(es: seq<Event>, s: Play, out: seq<Frame>, outIds: seq<nat>, pend: nat, ready: Frame)
    requires AllCarry(es, outIds, out) && Rising(outIds, pend) && pend < |es| - 1 && Carries(es, pend, ready)
    ensures AllCarry(es, outIds + [pend], out + [ready]) && Rising(outIds + [pend] + [], |es| - 1)
  {
    hide Carries, AllCarry;
    CarrySnoc(es, outIds, out, pend, ready);
    RisingSnoc(outIds, pend, |es| - 1);
    assert outIds + [pend] + [] == outIds + [pend];
  }

  /** What a push that releases the pending frame does with it. */
  lemma Releases(es: seq<Event>, e: Event)
    requires e.Push? && Run(es).0.pending.Some? && !Restarts(es + [e], |es|) && (Run(es).0.started ==> Run(es).0.prefill == [])
    ensures var s := Run(es).0;
      var ready := Aligned(s.pending.value.pcm, Delta(e.timestamp, s.pending.value.timestamp));
      var (s1, more) := Next(s, e);
      && Queue(es + [e], |es|) == s.prefill + [ready]
      && (s.started && e.sink ==> s1.prefill == [] && more == [ready])
      && (!(s.started && e.sink) ==> (s1.prefill, more) == (Trimmed(s.prefill + [ready]), []) || (s1.prefill, more) == ([], Trimmed(s.prefill + [ready])))
  {
    hide Aligned, Samples, Delta, Trimmed, Run, Restarts, Queue;
    LastPush(es, e);
  }

  /** One push that releases the pending frame. */
  lemma ReleaseExplained(es: seq<Event>, s: Play, out: seq<Frame>, outIds: seq<nat>, preIds: seq<nat>, pend: nat, e: Event)
    returns (outIds1: seq<nat>, preIds1: seq<nat>)
    requires e.Push? && s == Run(es).0 && s.pending.Some? && !Restarts(es + [e], |es|)
    requires AllCarry(es + [e], outIds, out) && AllCarry(es + [e], preIds, s.prefill) && Rising(outIds + preIds, pend)
    requires (s.started ==> s.prefill == []) && pend < |es| && es[pend].Push? && es[pend].pcm == s.pending.value.pcm
    ensures var (s1, more) := Next(s, e);
      AllCarry(es + [e], outIds1, out + more) && AllCarry(es + [e], preIds1, s1.prefill) && Rising(outIds1 + preIds1, |es|)
    ensures outIds <= outIds1 && forall k :: k in preIds || k == pend ==> k in outIds1 || k in preIds1 || Cut(es + [e], k)
  {
    hide Aligned, Carries, Samples, AllCarry, Rising, Delta, Trimmed, Run, Cut, Restarts, Queue, Next;
    var es1, ready := es + [e], Aligned(s.pending.value.pcm, Delta(e.timestamp, s.pending.value.timestamp));
    Releases(es, e);
    CarryLength(es1, preIds, s.prefill);
    NoneCarried(es1);
    assert es1[pend] == es[pend];
    AlignedCarried(es1, pend, Delta(e.timestamp, s.pending.value.timestamp));
    if s.started && e.sink {
      assert outIds + preIds == outIds;
      PlayedExplained(es1, s, out, outIds, pend, ready);
      outIds1, preIds1 := outIds + [pend], [];
    } else {
      HeldExplained(es1, s.prefill, outIds, preIds, pend, ready);
      HeldOrCut(es1, outIds, preIds + [pend]);
      outIds1, preIds1 := HeldPlaced(es1, out, outIds, Left(preIds + [pend], s.prefill + [ready]), Trimmed(s.prefill + [ready]), Next(s, e).0.prefill, Next(s, e).1);
    }
  }

  /** What was held goes on being held, or goes out. */
  lemma HeldPlaced(es: seq<Event>, out: seq<Frame>, outIds: seq<nat>, ids: seq<nat>, kept: seq<Frame>, prefill: seq<Frame>, more: seq<Frame>)
    returns (outIds1: seq<nat>, preIds1: seq<nat>)
    requires es != [] && AllCarry(es, outIds, out) && AllCarry(es, ids, kept) && Rising(outIds + ids, |es| - 1)
    requires (prefill, more) == (kept, []) || (prefill, more) == ([], kept)
    ensures AllCarry(es, outIds1, out + more) && AllCarry(es, preIds1, prefill) && Rising(outIds1 + preIds1, |es| - 1)
    ensures outIds <= outIds1 && forall k :: k in ids ==> k in outIds1 || k in preIds1
  {
    hide Carries, AllCarry, Rising;
    if prefill == kept && more == [] {
      assert out + [] == out;
      outIds1, preIds1 := outIds, ids;
    } else {
      NoneCarried(es);
      CarryConcat(es, outIds, out, ids, kept);
      outIds1, preIds1 := outIds + ids, [];
      assert outIds1 + [] == outIds + ids;
    }
  }

  /** One push. */
  lemma PushExplained(es: seq<Event>, s: Play, out: seq<Frame>, outIds: seq<nat>, preIds: seq<nat>, pend: nat, e: Event)
    returns (outIds1: seq<nat>, preIds1: seq<nat>)
    requires e.Push? && s == Run(es).0 && Explained(es, s, out, outIds, preIds, pend) && (s.started ==> s.prefill == [])
    ensures var (s1, more) := Next(s, e); Explained(es + [e], s1, out + more, outIds1, preIds1, |es|)
    ensures outIds <= outIds1
    ensures Restarts(es + [e], |es|) || forall k :: k in preIds || (s.pending.Some? && k == pend) ==> k in outIds1 || k in preIds1 || Cut(es + [e], k)
  {
    hide Aligned, Carries, Samples, AllCarry, Rising, Delta, Trimmed, Run, Cut, Restarts, Queue, Held;
    LastPush(es, e);
    var (s1, more) := Next(s, e);
    CarriesMore(es, e, outIds, out);
    CarriesMore(es, e, preIds, s.prefill);
    NoneCarried(es + [e]);
    assert out + [] == out && outIds + [] == outIds;
    outIds1, preIds1 := outIds, preIds;
    RisingLater(outIds + preIds, if s.pending.Some? then pend else |es|, |es|);
    if Restarts(es + [e], |es|) {
      RisingCut(outIds, preIds, |preIds|, |es|);
      assert preIds[|preIds|..] == [];
      preIds1 := [];
    } else if s.pending.Some? {
      outIds1, preIds1 := ReleaseExplained(es, s, out, outIds, preIds, pend, e);
    }
    NowWaiting(s, e);
    NowPending(es, e, s1, out + more, outIds1, preIds1);
  }

  /** A push that does not restart loses nothing but what is cut. */
  lemma AccountedPush(es: seq<Event>, e: Event, s: Play, outIds: seq<nat>, preIds: seq<nat>, pend: nat, outIds1: seq<nat>, preIds1: seq<nat>, s1: Play)
    requires e.Push? && s1.pending.Some? && Accounted(es, s, outIds, preIds, pend) && outIds <= outIds1
    requires Restarts(es + [e], |es|) || forall k :: k in preIds || (s.pending.Some? && k == pend) ==> k in outIds1 || k in preIds1 || Cut(es + [e], k)
    ensures Accounted(es + [e], s1, outIds1, preIds1, |es|)
  {
    hide Cut, Restarts;
    SinceStep(es, e);
    forall k: nat | Since(es + [e]) <= k < |es| + 1 && (es + [e])[k].Push? ensures Kept(s1, outIds1, preIds1, |es|, k) || Cut(es + [e], k) {
      if k < |es| {
        assert (es + [e])[k] == es[k];
        if Cut(es, k) { CutMore(es, e, k); }
      }
    }
  }

  lemma AccountedFlush(es: seq<Event>, e: Event, s: Play, outIds: seq<nat>, preIds: seq<nat>, pend: nat, outIds1: seq<nat>, s1: Play)
    requires e.Flush? && Accounted(es, s, outIds, preIds, pend) && outIds <= outIds1
    requires s.pending.Some? ==> (s1.pending.Some? || pend in outIds1)
    ensures Accounted(es + [e], s1, outIds1, preIds, pend)
  {
    hide Cut;
    SinceStep(es, e);
    forall k: nat | Since(es + [e]) <= k < |es| + 1 && (es + [e])[k].Push? ensures Kept(s1, outIds1, preIds, pend, k) || Cut(es + [e], k) {
      if Cut(es, k) { CutMore(es, e, k); }
    }
  }

  lemma SinceStep(es: seq<Event>, e: Event)
    ensures Since(es + [e]) == if Restarts(es + [e], |es|) then |es| else Since(es)
  {
    hide Restarts;
    assert (es + [e])[..|es|] == es;
  }

  /**
   Frames reach the sink in push order, each at most once, and of the pushes since the last restart each is written,
   buffered, pending, or cut as one of the oldest of too many.
   */
  lemma {:induction false} InOrder(es: seq<Event>) returns (outIds: seq<nat>, preIds: seq<nat>, pend: nat)
    ensures var (s, out) := Run(es); Explained(es, s, out, outIds, preIds, pend) && (s.started ==> s.prefill == [])
    ensures Accounted(es, Run(es).0, outIds, preIds, pend)
    decreases |es|
  {
    hide Explained, Pushed, Samples, Accounted, Restarts, Cut;
    if es == [] {
      outIds, preIds, pend := [], [], 0;
      NothingYet();
    } else {
      var n := |es| - 1;
      var before, e := es[..n], es[n];
      assert before + [e] == es;
      outIds, preIds, pend := InOrder(before);
      var (s, out) := Run(before);
      StartedEmpty(s, e);
      if e.Push? {
        var outIds1, preIds1 := PushExplained(before, s, out, outIds, preIds, pend, e);
        NowWaiting(s, e);
        AccountedPush(before, e, s, outIds, preIds, pend, outIds1, preIds1, Next(s, e).0);
        outIds, preIds, pend := outIds1, preIds1, n;
      } else {
        var outIds1 := FlushExplained(before, s, out, outIds, preIds, pend, e);
        AccountedFlush(before, e, s, outIds, preIds, pend, outIds1, Next(s, e).0);
        outIds := outIds1;
      }
    }
  }

  lemma NowWaiting(s: Play, e: Event)
    requires e.Push?
    ensures Next(s, e).0.pending == Some(Stamped(e.timestamp, e.pcm))
  {
    hide Aligned, Trimmed, Delta;
  }

  lemma NothingYet()
    ensures Explained([], Idle, [], [], [], 0) && Accounted([], Idle, [], [], 0)
  {
  }

  lemma StartedEmpty(s: Play, e: Event)
    requires s.started ==> s.prefill == []
    ensures Next(s, e).0.started ==> Next(s, e).0.prefill == []
  {
  }

  lemma FlushExplained(es: seq<Event>, s: Play, out: seq<Frame>, outIds: seq<nat>, preIds: seq<nat>, pend: nat, e: Event) returns (outIds1: seq<nat>)
    requires e.Flush? && Explained(es, s, out, outIds, preIds, pend) && (s.started ==> s.prefill == [])
    ensures var (s1, more) := Next(s, e); Explained(es + [e], s1, out + more, outIds1, preIds, pend)
    ensures outIds <= outIds1 && (s.pending.Some? ==> Next(s, e).0.pending.Some? || pend in outIds1)
  {
    hide Aligned, Carries, AllCarry, Rising;
    var es1 := es + [e];
    CarriesMore(es, e, outIds, out);
    CarriesMore(es, e, preIds, s.prefill);
    CarryLength(es1, preIds, s.prefill);
    outIds1 := outIds;
    assert out + [] == out;
    if s.pending.Some? {
      assert es1[pend] == es[pend];
      if s.started && e.sink {
        SelfCarried(es1, pend);
        CarrySnoc(es1, outIds, out, pend, s.pending.value.pcm);
        assert outIds + preIds == outIds && outIds + [pend] + preIds == outIds + [pend];
        RisingSnoc(outIds, pend, |es1|);
        outIds1 := outIds + [pend];
      }
    } else {
      RisingLater(outIds + preIds, |es|, |es1|);
    }
  }

  // ---------------------------------------------------------------- time

  /** Ticks accepted and samples written by pushes since the last reset. */
  function Clock(es: seq<Event>): (nat, nat)
  {
    if es == [] then (0, 0)
    else
      var (ticks, written) := Clock(es[..|es| - 1]);
      var s, e := Run(es[..|es| - 1]).0, es[|es| - 1];
      match e
      case Flush(_) => (ticks, written)
      case Push(timestamp, pcm, sink) =>
        if s.pending.None? then (ticks, written)
        else
          var delta := Delta(timestamp, s.pending.value.timestamp);
          if delta == 0 || delta > MAX_GAP then (0, 0)
          else (ticks + delta, written + Samples(Pushed(s, timestamp, pcm, sink).2))
  }

  lemma {:induction false} SuffixSamples(fs: seq<Frame>, k: nat)
    requires k <= |fs|
    ensures Samples(fs[k..]) <= Samples(fs)
    decreases k
  {
    if k > 0 {
      assert fs[k..] == fs[1..][k - 1..];
      SuffixSamples(fs[1..], k - 1);
    }
  }

  lemma PushFits(s: Play, timestamp: u32, frame: Frame, sink: bool)
    requires s.pending.Some? && s.prefillSamples == Samples(s.prefill)
    requires 0 < Delta(timestamp, s.pending.value.timestamp) <= MAX_GAP
    ensures var (s1, _, out) := Pushed(s, timestamp, frame, sink);
      && s1.prefillSamples == Samples(s1.prefill)
      && Samples(out) + Samples(s1.prefill) <= Samples(s.prefill) + Delta(timestamp, s.pending.value.timestamp)
  {
    hide Aligned, Samples, Delta, Held;
    NoSamples();
    var ready := Aligned(s.pending.value.pcm, Delta(timestamp, s.pending.value.timestamp));
    OneFrame(ready);
    HeldFits(Some(Stamped(timestamp, frame)), if s.started then [] else s.prefill, ready, sink);
  }

  lemma OneFrame(f: Frame)
    ensures Samples([f]) == |f|
  {
    assert [] + [f] == [f];
    SamplesSnoc([], f);
  }

  /** A held frame adds at most its own samples to what is buffered and written. */
  lemma HeldFits(next: Option<Stamped>, held: seq<Frame>, ready: Frame, sink: bool)
    ensures var (s1, _, out) := Held(next, held, ready, sink);
      s1.prefillSamples == Samples(s1.prefill) && Samples(out) + Samples(s1.prefill) <= Samples(held) + |ready|
  {
    hide Samples, Trimmed;
    NoSamples();
    SamplesSnoc(held, ready);
    TrimSamples(held + [ready]);
  }

  lemma TrimSamples(fs: seq<Frame>)
    ensures Samples(Trimmed(fs)) <= Samples(fs)
  {
    SuffixSamples(fs, |fs| - |Trimmed(fs)|);
  }

  /** The buffered count is exact, and written plus buffered samples never run ahead of the RTP clock. */
  lemma {:induction false} NeverAhead(es: seq<Event>)
    ensures Run(es).0.prefillSamples == Samples(Run(es).0.prefill)
    ensures Clock(es).1 + Samples(Run(es).0.prefill) <= Clock(es).0
    decreases |es|
  {
    hide Pushed, Delta;
    if es == [] {
      NoSamples();
    } else {
      var before, e := es[..|es| - 1], es[|es| - 1];
      NeverAhead(before);
      var s := Run(before).0;
      match e
      case Flush(_) =>
      case Push(timestamp, pcm, sink) =>
        if s.pending.None? || Delta(timestamp, s.pending.value.timestamp) == 0 || Delta(timestamp, s.pending.value.timestamp) > MAX_GAP {
          PushRestarts(s, timestamp, pcm, sink);
        } else {
          PushFits(s, timestamp, pcm, sink);
        }
    }
  }

  lemma PushRestarts(s: Play, timestamp: u32, pcm: Frame, sink: bool)
    ensures s.pending.None? ==> Pushed(s, timestamp, pcm, sink).0.(pending := s.pending) == s
    ensures s.pending.Some? && (Delta(timestamp, s.pending.value.timestamp) == 0 || Delta(timestamp, s.pending.value.timestamp) > MAX_GAP) ==>
      Pushed(s, timestamp, pcm, sink).0.prefill == [] && Pushed(s, timestamp, pcm, sink).0.prefillSamples == 0 && Samples([]) == 0
  {
  }

  /** What a frame loses or gains on its way: its own samples first, then silence up to the ticks, but no more than a packet's worth. */
  lemma AlignedContent(frame: Frame, samples: nat)
    ensures |Aligned(frame, samples)| == Min(samples, Max(|frame|, FRAME_SAMPLES))
    ensures forall i :: 0 <= i < |Aligned(frame, samples)| ==> Aligned(frame, samples)[i] == if i < |frame| then frame[i] else 0
  {
  }

  /** A push while playing with a sink writes exactly the pending frame, for as long as it was to last. */
  lemma PlaysPending(s: Play, timestamp: u32, frame: Frame)
    requires s.started && s.pending.Some? && 0 < Delta(timestamp, s.pending.value.timestamp) <= MAX_GAP
    ensures var (s1, _, written) := Pushed(s, timestamp, frame, true);
      var pcm := s.pending.value.pcm;
      && |written| == 1 && |written[0]| == Min(Delta(timestamp, s.pending.value.timestamp), Max(|pcm|, FRAME_SAMPLES))
      && (forall i :: 0 <= i < |written[0]| ==> written[0][i] == if i < |pcm| then pcm[i] else 0)
      && s1.started && s1.pending == Some(Stamped(timestamp, frame))
  {
    hide Delta;
    AlignedContent(s.pending.value.pcm, Delta(timestamp, s.pending.value.timestamp));
  }

  /** No more than the longest gap is ever held. */
  lemma {:induction false} NeverTooMuch(es: seq<Event>)
    ensures Samples(Run(es).0.prefill) <= MAX_GAP
    decreases |es|
  {
    hide Aligned, Samples, Delta, Held;
    NoSamples();
    if es != [] {
      var n := |es| - 1;
      NeverTooMuch(es[..n]);
      var s, e := Run(es[..n]).0, es[n];
      if e.Push? && s.pending.Some? && Delta(e.timestamp, s.pending.value.timestamp) <= MAX_GAP {
        HeldShort(Some(Stamped(e.timestamp, e.pcm)), if s.started then [] else s.prefill, Aligned(s.pending.value.pcm, Delta(e.timestamp, s.pending.value.timestamp)), e.sink);
      }
    }
  }

  lemma HeldShort(next: Option<Stamped>, held: seq<Frame>, ready: Frame, sink: bool)
    requires |ready| <= MAX_GAP
    ensures Samples(Held(next, held, ready, sink).0.prefill) <= MAX_GAP
  {
    hide Samples, Trimmed;
    NoSamples();
    OneFrame(ready);
    var fs := held + [ready];
    TrimmedFits(fs);
    if |Trimmed(fs)| == 1 { assert Trimmed(fs) == [ready]; }
  }

  /** Nothing waits and nothing plays only where nothing is held. */
  lemma {:induction false} IdleShort(es: seq<Event>)
    ensures !Run(es).0.started && Run(es).0.pending.None? ==> Run(es).0.prefill == []
    decreases |es|
  {
    hide Aligned, Samples, Trimmed, Delta;
    if es != [] { IdleShort(es[..|es| - 1]); }
  }

  /** Playback starts with the first push that finds a sink and two packets' worth, and with none before. */
  lemma StartsOnTime(es: seq<Event>)
    ensures es != [] && es[|es| - 1].Push? && es[|es| - 1].sink && !Run(es).0.started ==> Samples(Run(es).0.prefill) < PREFILL
    ensures es != [] && Run(es).0.started && !Run(es[..|es| - 1]).0.started ==>
      es[|es| - 1].Push? && es[|es| - 1].sink && Samples(Next(Run(es[..|es| - 1]).0, es[|es| - 1]).1) >= PREFILL
  {
    hide Samples, Trimmed, Aligned, Delta;
    if es != [] {
      NoSamples();
      var n := |es| - 1;
      IdleShort(es[..n]);
      assert Run(es).0 == Next(Run(es[..n]).0, es[n]).0;
    }
  }

  /** Push k keeps every tick: the pending frame fills its time, and nothing held has to be cut. */
  predicate Whole(es: seq<Event>, k: nat)
    requires k < |es|
  {
    var s := Run(es[..k]).0;
    es[k].Push? && s.pending.Some? && !Restarts(es, k) ==>
      (es[k].timestamp - s.pending.value.timestamp) % M32 <= Max(|s.pending.value.pcm|, FRAME_SAMPLES) && Samples(Queue(es, k)) <= MAX_GAP
  }

  predicate NoneEmpty(fs: seq<Frame>) { forall i :: 0 <= i < |fs| ==> |fs[i]| > 0 }

  lemma TrimLoses(fs: seq<Frame>)
    requires NoneEmpty(fs) && (|fs| == 1 ==> Samples(fs) <= MAX_GAP)
    ensures Samples(Trimmed(fs)) == Samples(fs) <==> Samples(fs) <= MAX_GAP
    ensures NoneEmpty(Trimmed(fs))
  {
    hide Samples;
    TrimStep(fs);
    NoSamples();
    if |fs| > 1 && Samples(fs) > MAX_GAP { TrimSamples(fs[1..]); }
  }

  /** What one releasing push adds to the written and buffered samples. */
  lemma ReleaseExact(es: seq<Event>, e: Event)
    requires e.Push? && Run(es).0.pending.Some? && !Restarts(es + [e], |es|) && NoneEmpty(Run(es).0.prefill)
    requires Run(es).0.started ==> Run(es).0.prefill == []
    ensures var s := Run(es).0;
      var (s1, out) := Next(s, e);
      var delta := Delta(e.timestamp, s.pending.value.timestamp);
      && NoneEmpty(s1.prefill) && (s1.started ==> s1.prefill == [])
      && Samples(out) + Samples(s1.prefill) <= Samples(s.prefill) + delta
      && (Samples(out) + Samples(s1.prefill) == Samples(s.prefill) + delta <==> Whole(es + [e], |es|))
  {
    hide Aligned, Samples, Delta, Trimmed, Run, Restarts, Queue, Next, NoneEmpty, Whole;
    var s := Run(es).0;
    var delta := Delta(e.timestamp, s.pending.value.timestamp);
    var ready := Aligned(s.pending.value.pcm, delta);
    LastPush(es, e);
    Releases(es, e);
    AlignedContent(s.pending.value.pcm, delta);
    NoSamples();
    OneFrame(ready);
    SamplesSnoc(s.prefill, ready);
    MoreNoneEmpty(s.prefill, ready);
    if s.prefill == [] { assert s.prefill + [ready] == [ready]; }
    TrimLoses(s.prefill + [ready]);
    TrimSamples(s.prefill + [ready]);
    WholeIs(es, e);
    StartedEmpty(s, e);
  }

  lemma MoreNoneEmpty(fs: seq<Frame>, f: Frame)
    requires NoneEmpty(fs) && |f| > 0
    ensures NoneEmpty(fs + [f]) && NoneEmpty([])
  {
  }

  lemma WholeIs(es: seq<Event>, e: Event)
    requires e.Push? && Run(es).0.pending.Some? && !Restarts(es + [e], |es|)
    ensures Whole(es + [e], |es|)
      <==> Delta(e.timestamp, Run(es).0.pending.value.timestamp) <= Max(|Run(es).0.pending.value.pcm|, FRAME_SAMPLES) && Samples(Queue(es + [e], |es|)) <= MAX_GAP
  {
    hide Run, Restarts, Queue, Samples;
    assert (es + [e])[..|es|] == es;
    DeltaIs(e.timestamp, Run(es).0.pending.value.timestamp);
  }

  lemma DeltaIs(a: u32, b: u32)
    ensures Delta(a, b) == (a - b) % M32
  {
  }

  lemma WholeBefore(es: seq<Event>, n: nat, k: nat)
    requires k < n <= |es|
    ensures Whole(es[..n], k) == Whole(es, k)
  {
    hide Run, Restarts, Samples, Aligned;
    assert es[..n][..k] == es[..k];
    RestartsBefore(es, n, k);
  }

  /** Written plus buffered samples keep up with the RTP clock exactly as long as every push since the last restart keeps its ticks. */
  lemma {:induction false} ClockExact(es: seq<Event>)
    ensures NoneEmpty(Run(es).0.prefill) && (Run(es).0.started ==> Run(es).0.prefill == [])
    ensures Clock(es).1 + Samples(Run(es).0.prefill) <= Clock(es).0
    ensures Clock(es).1 + Samples(Run(es).0.prefill) == Clock(es).0 <==> forall k: nat :: Since(es) <= k < |es| ==> Whole(es, k)
    decreases |es|
  {
    hide Pushed, Delta, Whole, Restarts, Samples;
    if es == [] {
      NoSamples();
    } else {
      var n := |es| - 1;
      var before, e := es[..n], es[n];
      assert before + [e] == es;
      ClockExact(before);
      SinceStep(before, e);
      ClockNext(before, e);
      WholeStep(before, e);
    }
  }

  /** Of the pushes since the last restart, the last one counts only if it is one that releases a frame. */
  lemma WholeStep(es: seq<Event>, e: Event)
    ensures var es1 := es + [e];
      (forall k: nat :: Since(es1) <= k < |es1| ==> Whole(es1, k))
      <==> if Restarts(es1, |es|) then true else Whole(es1, |es|) && forall k: nat :: Since(es) <= k < |es| ==> Whole(es, k)
    ensures !e.Push? || Run(es).0.pending.None? ==> Whole(es + [e], |es|) && !Restarts(es + [e], |es|)
    ensures Restarts(es + [e], |es|) ==> Whole(es + [e], |es|)
  {
    hide Run, Samples, Restarts, Queue;
    var es1 := es + [e];
    assert es1[..|es|] == es;
    SinceStep(es, e);
    SinceIsLast(es);
    if e.Push? { LastPush(es, e); } else { NotPush(es, e); }
    LastWhole(es, e);
    forall k: nat | k < |es| ensures Whole(es, k) == Whole(es1, k) { WholeBefore(es1, |es|, k); }
  }

  lemma NotPush(es: seq<Event>, e: Event)
    requires !e.Push?
    ensures !Restarts(es + [e], |es|)
  {
  }

  lemma LastWhole(es: seq<Event>, e: Event)
    ensures !e.Push? || Run(es).0.pending.None? || Restarts(es + [e], |es|) ==> Whole(es + [e], |es|)
  {
    hide Run, Restarts, Samples, Queue;
    assert (es + [e])[..|es|] == es;
  }

  /** One event's step of the clock. */
  lemma ClockNext(es: seq<Event>, e: Event)
    requires NoneEmpty(Run(es).0.prefill) && (Run(es).0.started ==> Run(es).0.prefill == [])
    ensures var es1, s, s1 := es + [e], Run(es).0, Run(es + [e]).0;
      && NoneEmpty(s1.prefill) && (s1.started ==> s1.prefill == [])
      && (!e.Push? || s.pending.None? ==> Clock(es1) == Clock(es) && s1.prefill == s.prefill)
      && (e.Push? && Restarts(es1, |es|) ==> Clock(es1) == (0, 0) && s1.prefill == [] && Samples([]) == 0)
      && (e.Push? && s.pending.Some? && !Restarts(es1, |es|) ==>
            var gain := Clock(es1).1 + Samples(s1.prefill) - Clock(es).1 - Samples(s.prefill);
            gain <= Clock(es1).0 - Clock(es).0 && (gain == Clock(es1).0 - Clock(es).0 <==> Whole(es1, |es|)))
  {
    hide Delta, Whole, Restarts, Samples, Pushed, Queue;
    var es1, s := es + [e], Run(es).0;
    assert es1[..|es|] == es;
    if e.Push? {
      LastPush(es, e);
      if s.pending.None? {
        PushRestarts(s, e.timestamp, e.pcm, e.sink);
      } else if Restarts(es1, |es|) {
        PushRestarts(s, e.timestamp, e.pcm, e.sink);
        Unstarted(s, e);
      } else {
        ReleaseExact(es, e);
      }
    }
  }

  lemma Unstarted(s: Play, e: Event)
    requires e.Push? && s.pending.Some?
    requires Delta(e.timestamp, s.pending.value.timestamp) == 0 || Delta(e.timestamp, s.pending.value.timestamp) > MAX_GAP
    ensures !Next(s, e).0.started
  {
  }

  /** The 32-bit difference is the true number of ticks, across a wrap as well. */
  lemma DeltaIsTicks(earlier: nat, later: nat)
    requires earlier <= later < earlier + M32
    ensures Delta(later % M32, earlier % M32) == later - earlier
  {
    var q, r := earlier / M32, earlier % M32;
    var d := later - earlier;
    assert later == M32 * q + r + d;
    if r + d < M32 {
      DivModUnique(later, M32, q, r + d);
      DivModUnique(d, M32, 0, d);
    } else {
      DivModUnique(later, M32, q + 1, r + d - M32);
      DivModUnique(d - M32, M32, -1, d);
    }
  }

  // ---------------------------------------------------------------- true time

  /** Pushes at the given true ticks, whose low 32 bits are the timestamps, each less than a cycle after the one before. */
  predicate Timed(es: seq<Event>, ticks: seq<nat>)
  {
    && |ticks| == |es|
    && (forall k :: 0 <= k < |es| ==> es[k].Push? && es[k].timestamp == ticks[k] % M32)
    && forall k :: 1 <= k < |ticks| ==> ticks[k - 1] <= ticks[k] < ticks[k - 1] + M32
  }

  /** The push that last started the clock: the first, or the last one that repeated a tick or came after too long a gap. */
  function LastReset(ticks: seq<nat>): (k: nat)
    requires ticks != []
    ensures k < |ticks|
  {
    var n := |ticks| - 1;
    if n == 0 || ticks[n] == ticks[n - 1] || ticks[n] - ticks[n - 1] > MAX_GAP then n else LastReset(ticks[..n])
  }

  lemma {:induction false} PendingIsLast(es: seq<Event>)
    requires es != [] && es[|es| - 1].Push?
    ensures Run(es).0.pending == Some(Stamped(es[|es| - 1].timestamp, es[|es| - 1].pcm))
  {
    hide Aligned, Trimmed, Delta;
  }

  /** One push further. */
  lemma ClockStep(es: seq<Event>)
    requires es != [] && es[|es| - 1].Push?
    ensures var before, e := es[..|es| - 1], es[|es| - 1];
      match Run(before).0.pending
      case None => Clock(es).0 == Clock(before).0
      case Some(p) =>
        var delta := Delta(e.timestamp, p.timestamp);
        Clock(es).0 == if delta == 0 || delta > MAX_GAP then 0 else Clock(before).0 + delta
  {
    hide Pushed, Delta, Samples, Run;
  }

  lemma TimedBefore(es: seq<Event>, ticks: seq<nat>)
    requires Timed(es, ticks) && |es| > 1
    ensures var n := |es| - 1;
      && Timed(es[..n], ticks[..n]) && es[n].Push? && es[n].timestamp == ticks[n] % M32
      && ticks[n - 1] <= ticks[n] < ticks[n - 1] + M32
      && Run(es[..n]).0.pending.Some? && Run(es[..n]).0.pending.value.timestamp == ticks[n - 1] % M32
  {
    hide Run;
    var n := |es| - 1;
    PendingIsLast(es[..n]);
    assert es[..n][n - 1] == es[n - 1];
  }

  /** Over pushes at true ticks, the clock shows the true time since the push that last started it. */
  lemma {:induction false} ClockIsTime(es: seq<Event>, ticks: seq<nat>)
    requires es != [] && Timed(es, ticks)
    ensures Clock(es).0 + ticks[LastReset(ticks)] == ticks[|ticks| - 1]
    decreases |es|
  {
    hide Pushed, Delta, Samples, Run, Clock;
    var n := |es| - 1;
    ClockStep(es);
    if n == 0 {
      NothingPending(es[..0]);
    } else {
      ClockIsTime(es[..n], ticks[..n]);
      TimedBefore(es, ticks);
      DeltaIsTicks(ticks[n - 1], ticks[n]);
      ResetStep(ticks);
    }
  }

  lemma ResetStep(ticks: seq<nat>)
    requires |ticks| > 1
    ensures var n := |ticks| - 1;
      ticks[LastReset(ticks)] == if ticks[n] == ticks[n - 1] || ticks[n] - ticks[n - 1] > MAX_GAP then ticks[n] else ticks[..n][LastReset(ticks[..n])]
  {
  }

  lemma NothingPending(es: seq<Event>)
    requires es == []
    ensures Run(es).0.pending == None && Clock(es) == (0, 0)
  {
  }
}
