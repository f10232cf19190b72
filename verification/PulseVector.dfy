/** Pulse vectors: building parameters from one, and what the decoded one weighs. */
module PulseVector {
  import opened Arith
  import opened Words
  import opened RangeSpec
  import opened CcTables
  import opened Reading
  import opened PulseSpec
  import opened PulseProof

  function Abs(x: int): nat { if x < 0 then -x else x }

  /** Sum of magnitudes over the first n samples. */
  function L1(v: seq<int>, n: nat): nat
    requires n <= |v|
  {
    if n == 0 then 0 else L1(v, n - 1) + Abs(v[n - 1])
  }

  function Norm(v: seq<int>, sf: nat): int
    requires |v| == INTF_LEN && sf < SUBFRAMES
  {
    L1(v, SUBFR_LEN * (sf + 1)) - L1(v, SUBFR_LEN * sf)
  }

  function Norms(v: seq<int>): (subfr: seq<int>)
    requires |v| == INTF_LEN
    ensures |subfr| == SUBFRAMES && forall sf :: 0 <= sf < SUBFRAMES ==> subfr[sf] == Norm(v, sf)
  {
    [Norm(v, 0), Norm(v, 1), Norm(v, 2), Norm(v, 3)]
  }

  // ---------------------------------------------------------------- the decoded vector's weight

  /** Magnitude placed before sample n. */
  function Below(pos: seq<int>, mag: seq<int>, n: int): int
    requires |pos| == |mag|
    decreases |pos|
  {
    if pos == [] then 0
    else
      var k := |pos| - 1;
      Below(pos[..k], mag[..k], n) + (if pos[k] < n then mag[k] else 0)
  }

  lemma {:induction false} L1Update(v: seq<int>, p: nat, a: int, n: nat)
    requires p < |v| && n <= |v| && v[p] == 0
    ensures L1(v[p := a], n) == L1(v, n) + (if p < n then Abs(a) else 0)
  {
    if n > 0 { L1Update(v, p, a, n - 1); }
  }

  lemma {:induction false} L1Zeros(n: nat)
    requires n <= INTF_LEN
    ensures L1(Zeros(INTF_LEN), n) == 0
  {
    if n > 0 { L1Zeros(n - 1); }
  }

  predicate Rising(pos: seq<int>)
  {
    && (forall i :: 0 <= i < |pos| ==> 0 <= pos[i] < INTF_LEN)
    && forall i, j :: 0 <= i < j < |pos| ==> pos[i] < pos[j]
  }

  lemma {:induction false} ScatterSilent(pos: seq<int>, amp: seq<int>, p: nat)
    requires |pos| == |amp| && p < INTF_LEN && forall i :: 0 <= i < |pos| ==> pos[i] < p
    ensures Scatter(pos, amp)[p] == 0
    decreases |pos|
  {
    if pos != [] { ScatterSilent(pos[..|pos| - 1], amp[..|pos| - 1], p); }
  }

  /** Distinct positions lose nothing: the vector weighs what was scattered. */
  lemma {:induction false} ScatterNorm(pos: seq<int>, mag: seq<int>, amp: seq<int>, n: nat)
    requires |pos| == |mag| == |amp| && Rising(pos) && n <= INTF_LEN
    requires forall i :: 0 <= i < |mag| ==> Abs(amp[i]) == mag[i]
    ensures L1(Scatter(pos, amp), n) == Below(pos, mag, n)
    decreases |pos|
  {
    hide L1;
    if pos == [] {
      L1Zeros(n);
    } else {
      var k := |pos| - 1;
      ScatterSilent(pos[..k], amp[..k], pos[k]);
      L1Update(Scatter(pos[..k], amp[..k]), pos[k], amp[k], n);
      ScatterNorm(pos[..k], mag[..k], amp[..k], n);
    }
  }

  lemma {:induction false} BelowSplit(pos: seq<int>, mag: seq<int>, k: nat, n: int)
    requires |pos| == |mag| && k <= |pos|
    requires forall i :: 0 <= i < k ==> pos[i] < n
    requires forall i :: k <= i < |pos| ==> pos[i] >= n
    ensures Below(pos, mag, n) == SumOf(mag[..k])
    decreases |pos|
  {
    if pos != [] {
      var m := |pos| - 1;
      if k == |pos| {
        BelowSplit(pos[..m], mag[..m], m, n);
        assert mag[..k][..m] == mag[..m][..m];
      } else {
        BelowSplit(pos[..m], mag[..m], k, n);
        assert mag[..m][..k] == mag[..k];
      }
    }
  }

  lemma StepKeeps(w: Walk, m: int, k: nat)
    requires Sound(w) && 0 <= m && k <= |w.mag| && (w.first || k < |w.mag|)
    ensures |Step(w, m).mag| > k && Step(w, m).mag[..k] == w.mag[..k]
  {
  }

  /** A new subframe never touches the pulses of the ones before. */
  lemma {:induction false} StepAllKeeps(w: Walk, left: int, runs: seq<int>, k: nat)
    requires Sound(w) && RunsFit(left, runs) && k <= |w.mag| && (w.first || k < |w.mag|)
    ensures |StepAll(w, runs).mag| >= k && StepAll(w, runs).mag[..k] == w.mag[..k]
    decreases |runs|
  {
    hide Sound, Step;
    if runs != [] {
      StepKeeps(w, runs[0], k);
      StepSound(w, runs[0]);
      StepAllKeeps(Step(w, runs[0]), left - runs[0], runs[1..], k);
    }
  }

  lemma {:induction false} WalkAllKeeps(subfr: seq<int>, runs: seq<int>, sf: nat, w: Walk)
    requires Counts(subfr) && sf <= SUBFRAMES && RunsOk(subfr, runs, sf) && Before(w, sf)
    ensures |WalkAll(subfr, runs, sf, w).mag| >= |w.mag| && WalkAll(subfr, runs, sf, w).mag[..|w.mag|] == w.mag
    decreases SUBFRAMES - sf
  {
    if sf < SUBFRAMES {
      var w0, w' := Begin(w, SUBFR_LEN * sf), WalkAll(subfr, runs, sf, w);
      var w1 := StepAll(w0, runs[..subfr[sf]]);
      BeginSound(w, SUBFR_LEN * sf);
      StepAllKeeps(w0, SUBFR_LEN, runs[..subfr[sf]], |w.mag|);
      SubframeSound(subfr, runs, sf, w);
      WalkAllKeeps(subfr, runs[subfr[sf]..], sf + 1, w1);
      assert w'.mag[..|w.mag|] == w'.mag[..|w1.mag|][..|w.mag|];
    }
  }

  /** Counts of subframes a .. b - 1. */
  function Upto(subfr: seq<int>, a: nat, b: nat): int
    requires |subfr| == SUBFRAMES && a <= b <= SUBFRAMES
    decreases b - a
  {
    if a == b then 0 else subfr[a] + Upto(subfr, a + 1, b)
  }

  lemma BelowStart(subfr: seq<int>, runs: seq<int>, sf: nat, w: Walk)
    requires Counts(subfr) && sf <= SUBFRAMES && RunsOk(subfr, runs, sf) && Before(w, sf)
    ensures var w' := WalkAll(subfr, runs, sf, w);
      |w'.pos| == |w'.mag| && Below(w'.pos, w'.mag, SUBFR_LEN * sf) == |w.runs|
  {
    hide WalkAll, RunsOk;
    WalkAllSound(subfr, runs, sf, w);
    WalkAllKeeps(subfr, runs, sf, w);
    var w' := WalkAll(subfr, runs, sf, w);
    forall i | 0 <= i < |w.pos| ensures w'.pos[i] < SUBFR_LEN * sf { assert w'.pos[i] == w'.pos[..|w.pos|][i]; }
    BelowSplit(w'.pos, w'.mag, |w.pos|, SUBFR_LEN * sf);
  }

  lemma {:induction false} BelowCounts(subfr: seq<int>, runs: seq<int>, sf: nat, w: Walk, j: nat)
    requires Counts(subfr) && sf <= j <= SUBFRAMES && RunsOk(subfr, runs, sf) && Before(w, sf)
    ensures var w' := WalkAll(subfr, runs, sf, w);
      |w'.pos| == |w'.mag| && Below(w'.pos, w'.mag, SUBFR_LEN * j) == |w.runs| + Upto(subfr, sf, j)
    decreases SUBFRAMES - sf
  {
    hide Below, StepAll, RunsFit;
    if sf == j {
      BelowStart(subfr, runs, sf, w);
    } else {
      SubframeSound(subfr, runs, sf, w);
      BelowCounts(subfr, runs[subfr[sf]..], sf + 1, StepAll(Begin(w, SUBFR_LEN * sf), runs[..subfr[sf]]), j);
    }
  }

  lemma ExpandBelow(p: PulseParams, j: nat)
    requires Replayable(p) && j <= SUBFRAMES
    ensures L1(Expand(p), SUBFR_LEN * j) == Upto(p.subfr, 0, j)
  {
    hide WalkAll, RunsOk, Scatter, L1;
    var w := WalkAll(p.subfr, p.magRuns, 0, Fresh);
    WalkAllSound(p.subfr, p.magRuns, 0, Fresh);
    SignsCover(p.signSyms, |w.pos|);
    BelowCounts(p.subfr, p.magRuns, 0, Fresh, j);
    ScatterNorm(w.pos, w.mag, Signed(w.mag, Signs(p.signSyms)), SUBFR_LEN * j);
  }

  /** The magnitudes of every subframe add up to its count, which is at most 40. */
  lemma CountsAreNorms(p: PulseParams)
    requires Replayable(p)
    ensures Norms(Expand(p)) == p.subfr && L1(Expand(p), INTF_LEN) == p.total
  {
    hide L1, Expand, RunsOk, WalkAll, Batches;
    ExpandBelow(p, 0);
    ExpandBelow(p, 1);
    ExpandBelow(p, 2);
    ExpandBelow(p, 3);
    ExpandBelow(p, 4);
    assert forall sf :: 0 <= sf < 4 ==> Norms(Expand(p))[sf] == p.subfr[sf];
  }

  // ---------------------------------------------------------------- building

  /** First sign in the most significant place. */
  function Pack(bits: seq<bool>): nat
    decreases |bits|
  {
    if bits == [] then 0 else 2 * Pack(bits[..|bits| - 1]) + (if bits[|bits| - 1] then 1 else 0)
  }

  function PackSigns(signs: seq<bool>): seq<RawSymbol>
    decreases |signs|
  {
    if signs == [] then []
    else
      var nb := Min(15, |signs|);
      [RawSymbol(Pack(signs[..nb]), nb)] + PackSigns(signs[nb..])
  }

  lemma {:induction false} PackBelow(bits: seq<bool>)
    ensures Pack(bits) < Pow2(|bits|)
    decreases |bits|
  {
    if bits != [] { PackBelow(bits[..|bits| - 1]); }
  }

  lemma {:induction false} PackBit(bits: seq<bool>, q: nat)
    requires q < |bits|
    ensures SignBit(Pack(bits), |bits|, q) == bits[q]
    decreases |bits|
  {
    var head := bits[..|bits| - 1];
    assert Pack(bits) / 2 == Pack(head);
    if q < |bits| - 1 { PackBit(head, q); }
  }

  /** One batch holds its own signs. */
  lemma BatchHolds(bits: seq<bool>)
    ensures SignBits(RawSymbol(Pack(bits), |bits|)) == bits && Pack(bits) < Pow2(|bits|)
  {
    hide Pack, SignBit, Pow2;
    PackBelow(bits);
    forall q | 0 <= q < |bits| ensures SignBit(Pack(bits), |bits|, q) == bits[q] { PackBit(bits, q); }
  }

  lemma BatchFirst(s: RawSymbol, rest: seq<RawSymbol>, n: nat)
    requires n > 0 && s.nbits == Min(15, n) && s.sym < Pow2(s.nbits) && Batches(rest, n - s.nbits)
    ensures Batches([s] + rest, n) && Signs([s] + rest) == SignBits(s) + Signs(rest)
  {
    hide SignBits, Pow2;
    assert ([s] + rest)[1..] == rest;
  }

  /** Unpacking the batches gives the signs back. */
  lemma {:induction false} UnpackSigns(signs: seq<bool>)
    ensures Batches(PackSigns(signs), |signs|) && Signs(PackSigns(signs)) == signs
    decreases |signs|
  {
    if signs != [] {
      hide Pack, SignBits, Pow2;
      var nb := Min(15, |signs|);
      var bits, rest := signs[..nb], PackSigns(signs[nb..]);
      UnpackSigns(signs[nb..]);
      BatchHolds(bits);
      BatchFirst(RawSymbol(Pack(bits), nb), rest, |signs|);
      assert bits + signs[nb..] == signs;
    }
  }

  /** Sample n of amplitude x: one run to it, then a zero run for every further unit. */
  function Put(w: Walk, n: int, x: int): Walk
  {
    if x == 0 then w
    else Walk(w.runs + [n - w.at] + Zeros(Abs(x) - 1), w.pos + [n], w.mag + [Abs(x)], n, false)
  }

  function PutAll(v: seq<int>, base: nat, n: nat, w: Walk): Walk
    requires base <= n <= |v|
    decreases n
  {
    if n == base then w else Put(PutAll(v, base, n - 1, w), n - 1, v[n - 1])
  }

  /** After sf subframes. */
  function Track(v: seq<int>, sf: nat): Walk
    requires |v| == INTF_LEN && sf <= SUBFRAMES
  {
    if sf == 0 then Fresh
    else
      var base := SUBFR_LEN * (sf - 1);
      PutAll(v, base, base + SUBFR_LEN, Begin(Track(v, sf - 1), base))
  }

  /** Signs of the non-zero samples. */
  function SignsOf(v: seq<int>, n: nat): seq<bool>
    requires n <= |v|
  {
    if n == 0 then [] else SignsOf(v, n - 1) + (if v[n - 1] != 0 then [v[n - 1] > 0] else [])
  }

  function BuildParams(v: seq<int>): PulseParams
    requires |v| == INTF_LEN
  {
    PulseParams(Total(Norms(v)), Norms(v), Track(v, SUBFRAMES).runs, PackSigns(SignsOf(v, INTF_LEN)))
  }

  lemma {:induction false} StepAllConcat(w: Walk, a: seq<int>, b: seq<int>)
    ensures StepAll(w, a + b) == StepAll(StepAll(w, a), b)
    decreases |a|
  {
    if a == [] {
      assert a + b == b;
    } else {
      assert (a + b)[1..] == a[1..] + b;
      StepAllConcat(Step(w, a[0]), a[1..], b);
    }
  }

  lemma {:induction false} FitConcat(w: Walk, left: int, a: seq<int>, b: seq<int>)
    requires RunsFit(left, a) && RunsFit(left - (StepAll(w, a).at - w.at), b)
    ensures RunsFit(left, a + b)
    decreases |a|
  {
    if a == [] {
      assert a + b == b;
    } else {
      assert (a + b)[1..] == a[1..] + b;
      FitConcat(Step(w, a[0]), left - a[0], a[1..], b);
    }
  }

  lemma {:induction false} ZeroRuns(w: Walk, k: nat, left: int)
    requires !w.first && |w.mag| > 0 && left > 0
    ensures RunsFit(left, Zeros(k))
    ensures StepAll(w, Zeros(k)) == w.(runs := w.runs + Zeros(k), mag := w.mag[|w.mag| - 1 := w.mag[|w.mag| - 1] + k])
    decreases k
  {
    if k == 0 {
      assert w.runs + Zeros(0) == w.runs;
    } else {
      assert Zeros(k)[1..] == Zeros(k - 1);
      ZeroRuns(Step(w, 0), k - 1, left);
      assert w.runs + Zeros(k) == w.runs + [0] + Zeros(k - 1);
    }
  }

  /** The decoder's walk over the runs of one sample lands where the encoder is. */
  lemma PutSteps(w: Walk, n: int, x: int, left: int)
    requires x != 0 && (n > w.at || (w.first && n == w.at)) && n < w.at + left
    ensures var runs := [n - w.at] + Zeros(Abs(x) - 1); RunsFit(left, runs) && StepAll(w, runs) == Put(w, n, x)
  {
    var w1, z := Step(w, n - w.at), Zeros(Abs(x) - 1);
    ZeroRuns(w1, Abs(x) - 1, left - (n - w.at));
    assert ([n - w.at] + z)[1..] == z;
    assert w1.mag[|w1.mag| - 1 := w1.mag[|w1.mag| - 1] + (Abs(x) - 1)] == w.mag + [Abs(x)];
    assert w.runs + [n - w.at] + z == w1.runs + z;
  }

  /** The runs of samples base .. n - 1 of a subframe. */
  lemma {:induction false} SubframeRuns(v: seq<int>, base: nat, n: nat, w: Walk) returns (runs: seq<int>)
    requires base <= n <= base + SUBFR_LEN && n <= |v| && w.first && w.at == base
    ensures RunsFit(SUBFR_LEN, runs) && StepAll(w, runs) == PutAll(v, base, n, w)
    ensures |runs| == L1(v, n) - L1(v, base)
    ensures var w' := PutAll(v, base, n, w); base <= w'.at && (w'.first ==> w'.at == base) && (w'.at < n || w'.at == base) && (w'.at == n ==> w'.first)
    decreases n
  {
    hide Step, StepAll, Put, RunsFit;
    if n == base {
      runs := [];
      EmptyRuns(w, SUBFR_LEN);
    } else {
      var w1, x := PutAll(v, base, n - 1, w), v[n - 1];
      var head := SubframeRuns(v, base, n - 1, w);
      runs := if x == 0 then head else head + ([n - 1 - w1.at] + Zeros(Abs(x) - 1));
      PutShape(w1, n - 1, x);
      if x != 0 {
        PutSteps(w1, n - 1, x, base + SUBFR_LEN - w1.at);
        StepAllConcat(w, head, [n - 1 - w1.at] + Zeros(Abs(x) - 1));
        FitConcat(w, SUBFR_LEN, head, [n - 1 - w1.at] + Zeros(Abs(x) - 1));
      }
    }
  }

  lemma EmptyRuns(w: Walk, left: int)
    ensures RunsFit(left, []) && StepAll(w, []) == w
  {
  }

  lemma PutShape(w: Walk, n: int, x: int)
    ensures x == 0 ==> Put(w, n, x) == w
    ensures x != 0 ==> Put(w, n, x).at == n && !Put(w, n, x).first
  {
  }

  lemma CutRuns(subfr: seq<int>, head: seq<int>, rest: seq<int>, sf: nat, w: Walk)
    requires Counts(subfr) && sf < SUBFRAMES && |head| == subfr[sf] && RunsFit(SUBFR_LEN, head) && RunsOk(subfr, rest, sf + 1)
    ensures RunsOk(subfr, head + rest, sf)
    ensures WalkAll(subfr, head + rest, sf, w) == WalkAll(subfr, rest, sf + 1, StepAll(Begin(w, SUBFR_LEN * sf), head))
  {
    hide RunsFit, StepAll;
    assert (head + rest)[..subfr[sf]] == head && (head + rest)[subfr[sf]..] == rest;
  }

  /** The runs of subframes sf .. 3 walk from where the encoder was to where it ends. */
  lemma {:induction false} TrackRuns(v: seq<int>, sf: nat) returns (runs: seq<int>)
    requires |v| == INTF_LEN && sf <= SUBFRAMES && Counts(Norms(v))
    ensures RunsOk(Norms(v), runs, sf) && WalkAll(Norms(v), runs, sf, Track(v, sf)) == Track(v, SUBFRAMES)
    decreases SUBFRAMES - sf
  {
    hide L1, StepAll, PutAll, RunsFit, Put;
    if sf == SUBFRAMES {
      runs := [];
    } else {
      var base := SUBFR_LEN * sf;
      var head := SubframeRuns(v, base, base + SUBFR_LEN, Begin(Track(v, sf), base));
      var rest := TrackRuns(v, sf + 1);
      runs := head + rest;
      assert |head| == Norm(v, sf) == Norms(v)[sf];
      hide RunsOk, WalkAll, Norms;
      CutRuns(Norms(v), head, rest, sf, Track(v, sf));
    }
  }

  /** The walk's pulses and the signs rebuild the first n samples. */
  predicate Mirrors(w: Walk, v: seq<int>, n: nat)
    requires |v| == INTF_LEN && n <= INTF_LEN
  {
    && |w.pos| == |w.mag| == |SignsOf(v, n)|
    && Scatter(w.pos, Signed(w.mag, SignsOf(v, n))) == v[..n] + Zeros(INTF_LEN - n)
  }

  lemma PutMirrors(w: Walk, v: seq<int>, n: nat)
    requires |v| == INTF_LEN && n < INTF_LEN && Mirrors(w, v, n)
    ensures Mirrors(Put(w, n, v[n]), v, n + 1)
  {
    var x := v[n];
    assert (v[..n] + Zeros(INTF_LEN - n))[n := x] == v[..n + 1] + Zeros(INTF_LEN - n - 1);
    if x == 0 {
      assert SignsOf(v, n) + [] == SignsOf(v, n);
      assert v[..n] + Zeros(INTF_LEN - n) == v[..n + 1] + Zeros(INTF_LEN - n - 1);
    } else {
      var amp := Signed(w.mag, SignsOf(v, n));
      assert Signed(w.mag + [Abs(x)], SignsOf(v, n) + [x > 0]) == amp + [x];
      assert (w.pos + [n])[..|w.pos|] == w.pos && (amp + [x])[..|w.pos|] == amp;
    }
  }

  lemma {:induction false} PutAllMirrors(v: seq<int>, base: nat, n: nat, w: Walk)
    requires |v| == INTF_LEN && base <= n <= INTF_LEN && Mirrors(w, v, base)
    ensures Mirrors(PutAll(v, base, n, w), v, n)
    decreases n
  {
    hide Mirrors, Put;
    if n > base {
      PutAllMirrors(v, base, n - 1, w);
      PutMirrors(PutAll(v, base, n - 1, w), v, n - 1);
    }
  }

  lemma {:induction false} TrackMirrors(v: seq<int>, sf: nat)
    requires |v| == INTF_LEN && sf <= SUBFRAMES
    ensures Mirrors(Track(v, sf), v, SUBFR_LEN * sf)
  {
    if sf == 0 {
      assert v[..0] + Zeros(INTF_LEN) == Zeros(INTF_LEN);
    } else {
      var base := SUBFR_LEN * (sf - 1);
      TrackMirrors(v, sf - 1);
      PutAllMirrors(v, base, base + SUBFR_LEN, Begin(Track(v, sf - 1), base));
    }
  }

  /** Whatever vector has at most 40 pulses in every subframe is encodable, and its parameters stand for it. */
  lemma BuildExpands(v: seq<int>)
    requires |v| == INTF_LEN && Counts(Norms(v))
    ensures Replayable(BuildParams(v)) && Expand(BuildParams(v)) == v
  {
    hide L1, PutAll, StepAll, Scatter, SignsOf;
    var p := BuildParams(v);
    var runs := TrackRuns(v, 0);
    WalkAllSound(p.subfr, runs, 0, Fresh);
    assert [] + runs == runs;
    UnpackSigns(SignsOf(v, INTF_LEN));
    TrackMirrors(v, SUBFRAMES);
    assert v[..INTF_LEN] + Zeros(0) == v;
  }

  // ---------------------------------------------------------------- the two together

  /** Build, encode, decode: the very same vector and counts, with the stream just past what was written. */
  lemma PulsesRoundTrip(cc: CcTables, d: Dec, v: seq<int>, e: Dec)
    requires WellFormed(cc) && DecRange(d) && |v| == INTF_LEN && Counts(Norms(v))
    requires Replayable(BuildParams(v)) && Reads(d, PulseOps(cc, BuildParams(v)), e)
    ensures DecodeParams(cc, d) == (e, BuildParams(v)) && Expand(BuildParams(v)) == v
  {
    hide WellFormed, Reads, PulseOps, DecodeParams, Expand, BuildParams, Replayable;
    BuildExpands(v);
    ParamsRead(cc, d, BuildParams(v), e);
  }

  /** On arbitrary bytes: counts of 0 to 40 that add up to the decoded total and weigh exactly what they say. */
  lemma PulsesTotal(cc: CcTables, d: Dec)
    requires WellFormed(cc) && DecRange(d)
    ensures var p := DecodeParams(cc, d).1;
      && Replayable(p) && Counts(p.subfr) && p.total == Total(p.subfr) <= FRAME_PULSES
      && Norms(Expand(p)) == p.subfr
  {
    hide WellFormed, Reads, PulseOps, DecodeParams, Expand, RunsOk, WalkAll, Norms;
    ParamsParsed(cc, d);
    CountsAreNorms(DecodeParams(cc, d).1);
  }

  // ---------------------------------------------------------------- what a sign bit means

  lemma {:induction false} OnesBits(n: nat, k: nat)
    requires k < n
    ensures Shr(Pow2(n) - 1, k) % 2 == 1
    decreases k
  {
    assert Pow2(n) == 2 * Pow2(n - 1);
    if k > 0 {
      assert (Pow2(n) - 1) / 2 == Pow2(n - 1) - 1;
      OnesBits(n - 1, k - 1);
    }
  }

  /** Batches with every bit set hold nothing but positive signs. */
  lemma {:induction false} OnesSign(syms: seq<RawSymbol>)
    requires forall k :: 0 <= k < |syms| ==> syms[k].sym == Pow2(syms[k].nbits) - 1
    ensures forall i :: 0 <= i < |Signs(syms)| ==> Signs(syms)[i]
    decreases |syms|
  {
    hide Pow2, Shr;
    if syms != [] {
      var s := syms[0];
      forall q | 0 <= q < s.nbits ensures SignBits(s)[q] { OnesBits(s.nbits, s.nbits - 1 - q); }
      OnesSign(syms[1..]);
    }
  }

  lemma {:induction false} ScatterAtLeast(pos: seq<int>, amp: seq<int>, i: nat)
    requires |pos| == |amp| && i < INTF_LEN && forall k :: 0 <= k < |amp| ==> amp[k] >= 0
    ensures Scatter(pos, amp)[i] >= 0
    decreases |pos|
  {
    if pos != [] { ScatterAtLeast(pos[..|pos| - 1], amp[..|pos| - 1], i); }
  }

  /** A set bit is a positive pulse: with every bit set no sample is negative. */
  lemma OnesArePositive(p: PulseParams, i: nat)
    requires Replayable(p) && i < INTF_LEN && forall k :: 0 <= k < |p.signSyms| ==> p.signSyms[k].sym == Pow2(p.signSyms[k].nbits) - 1
    ensures Expand(p)[i] >= 0
  {
    hide Pow2, Signs, Scatter, WalkAll;
    var w := WalkAll(p.subfr, p.magRuns, 0, Fresh);
    WalkAllSound(p.subfr, p.magRuns, 0, Fresh);
    SignsCover(p.signSyms, |w.pos|);
    OnesSign(p.signSyms);
    ScatterAtLeast(w.pos, Signed(w.mag, Signs(p.signSyms)), i);
  }
}
