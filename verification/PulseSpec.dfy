/** The pulse excitation of one internal frame: what the encoder writes, what the decoder reads, what it means. */
module PulseSpec {
  import opened Arith
  import opened Words
  import opened RangeSpec
  import opened CdfSpec
  import opened CcTables
  import opened FixedPoint
  import opened Reading
  import CmfTables

  const INTF_LEN := 320
  const SUBFRAMES := 4
  const SUBFR_LEN := 80
  const FRAME_PULSES := 160
  const SUBFR_PULSES := 40

  /** A uniform symbol of nbits bits, as recorded for replay. */
  datatype RawSymbol = RawSymbol(sym: nat, nbits: nat)

  /** What is on the wire: pulse counts, run-length symbols and batched signs. */
  datatype PulseParams = PulseParams(total: int, subfr: seq<int>, magRuns: seq<int>, signSyms: seq<RawSymbol>)

  // ---------------------------------------------------------------- the count prior

  function Mul32(x: nat, y: nat): (p: u32) { x * y % WORD }

  /** Cumulative triangular prior, in wrapping 32-bit arithmetic. */
  function TriT(l: u32, k: u32): (t: u16)
  {
    var a := Mul32((k + 2) % WORD, (l + 1) % WORD);
    var b := Mul32((k - 1) % WORD, (k + 131070) % WORD) / 2;
    Wrapped16(a - b)
  }

  function Wrapped16(x: int): u16 { x % WORD % 0x1_0000 }

  /** 0 + 1 + .. + (j - 1). */
  function Triangle(j: nat): nat { if j == 0 then 0 else Triangle(j - 1) + j - 1 }

  lemma {:induction false} TriangleGrows(i: nat, j: nat)
    requires i <= j
    ensures Triangle(i) <= Triangle(j)
  {
    if i < j { TriangleGrows(i, j - 1); }
  }

  lemma {:induction false} ProductOfRun(j: nat)
    ensures j * (j + 131071) == 2 * Triangle(j) + 131072 * j
  {
    if j > 0 {
      ProductOfRun(j - 1);
      assert j * (j + 131071) == (j - 1) * (j + 131070) + 2 * j + 131070;
    }
  }

  lemma LastTriangle(j: nat)
    requires j <= 159
    ensures 2 * Triangle(j) <= 159 * j - j && (j == 159 ==> Triangle(j) == 12561)
  {
    ProductOfRun(j);
    if j > 0 { MulMono(j - 1, 158, j); }
    MulDist(j, j - 1, 131072);
  }

  lemma ProductsFit(k: nat)
    requires 1 <= k <= FRAME_PULSES
    ensures Mul32(k + 2, 161) == 161 * (k + 2)
    ensures Mul32(k - 1, k + 131070) / 2 == Triangle(k - 1) + 65536 * (k - 1)
  {
    ProductOfRun(k - 1);
    LastTriangle(k - 1);
  }

  /** The wrap-around cancels: up to the frame's limit the prior is a line less a triangle. */
  lemma TriExact(k: nat)
    requires k <= FRAME_PULSES
    ensures TriT(FRAME_PULSES, k) == if k == 0 then 321 else 161 * (k + 2) - Triangle(k - 1)
  {
    hide Mul32, Triangle, Wrapped16;
    if k == 0 {
      TriAtZero();
    } else {
      ProductsFit(k);
      LastTriangle(k - 1);
      WrapsAway(161 * (k + 2), Triangle(k - 1), k - 1);
    }
  }

  lemma TriAtZero()
    ensures Mul32(2, 161) == 322 && Mul32(0xFFFF_FFFF, 131070) == 0xFFFE_0002 && Wrapped16(322 - 0x7FFF_0001) == 321
  {
  }

  lemma WrapsAway(a: nat, h: nat, j: nat)
    requires h <= a < h + 65536 && a < WORD && j <= 160
    ensures Wrapped16(a - (h + 65536 * j)) == a - h
  {
    var diff := a - h - j * 65536;
    if diff >= 0 {
      DivModUnique(diff, WORD, 0, diff);
      DivModUnique(diff, 0x1_0000, -j, a - h);
    } else {
      DivModUnique(diff, WORD, -1, diff + WORD);
      DivModUnique(diff + WORD, 0x1_0000, 65536 - j, a - h);
    }
  }

  /** Strictly increasing from 321 to 13521. */
  lemma TriRises(k: nat)
    requires k < FRAME_PULSES
    ensures TriT(FRAME_PULSES, k + 1) - TriT(FRAME_PULSES, k) == 162 - k
    ensures TriT(FRAME_PULSES, 0) == 321 && TriT(FRAME_PULSES, FRAME_PULSES) == 13521
  {
    hide TriT;
    TriExact(k);
    TriExact(k + 1);
    TriExact(0);
    TriExact(FRAME_PULSES);
    LastTriangle(159);
  }

  function CountTable(): (t: seq<u16>)
    ensures |t| == FRAME_PULSES + 2 && Strict(t) && Table(t) && t[0] == 0 && t[FRAME_PULSES + 1] == 13521
    ensures forall k :: 0 <= k <= FRAME_PULSES ==> t[k + 1] == TriT(FRAME_PULSES, k)
  {
    var t := seq(FRAME_PULSES + 2, i requires 0 <= i < FRAME_PULSES + 2 => if i == 0 then 0 else TriT(FRAME_PULSES, i - 1));
    TriRises(0);
    forall i, j | 0 <= i < j < |t| ensures t[i] < t[j] { CountRises(t, i, j); }
    t
  }

  lemma {:induction false} CountRises(t: seq<u16>, i: nat, j: nat)
    requires i < j < |t| == FRAME_PULSES + 2 && t[0] == 0
    requires forall k :: 1 <= k < |t| ==> t[k] == TriT(FRAME_PULSES, k - 1)
    ensures t[i] < t[j]
  {
    if j == 1 {
      TriRises(0);
    } else {
      TriRises(j - 2);
      if i < j - 1 { CountRises(t, i, j - 1); }
    }
  }

  // ---------------------------------------------------------------- the split

  predicate Counts(subfr: seq<int>)
  {
    |subfr| == SUBFRAMES && forall i :: 0 <= i < SUBFRAMES ==> 0 <= subfr[i] <= SUBFR_PULSES
  }

  /** Least and greatest share of `count` that two subframes can take. */
  function HalfMin(count: int): int { Max(count - SUBFR_PULSES, 0) }

  function HalfMax(count: int): int { Min(SUBFR_PULSES, count) }

  function HalfWindow(cc: CcTables, count: int): (w: seq<u16>)
    requires WellFormed(cc) && 1 <= count < 2 * SUBFR_PULSES
    ensures Strict(w) && Table(w) && |w| == HalfMax(count) - HalfMin(count) + 2
  {
    var w := SplitWindow(cc, count, HalfMin(count), HalfMax(count) - HalfMin(count) + 2);
    SplitWindowShape(cc, count, HalfMin(count), HalfMax(count) - HalfMin(count) + 2);
    w
  }

  function HalfOps(cc: CcTables, count: int, s0: int): (ops: seq<Op>)
    requires WellFormed(cc) && 0 <= count <= 2 * SUBFR_PULSES && HalfMin(count) <= s0 <= HalfMax(count)
    ensures AllCodable(ops)
  {
    if HalfMin(count) == HalfMax(count) then []
    else [CdfOp(HalfWindow(cc, count), s0 - HalfMin(count))]
  }

  function DecodeHalf(cc: CcTables, d: Dec, count: int): (r: (Dec, int))
    requires WellFormed(cc) && DecRange(d) && 0 <= count <= 2 * SUBFR_PULSES
    ensures DecRange(r.0) && HalfMin(count) <= r.1 <= HalfMax(count)
  {
    if HalfMin(count) == HalfMax(count) then (d, HalfMin(count))
    else
      var (d1, k) := DecodeCdf(d, HalfWindow(cc, count));
      (d1, k + HalfMin(count))
  }

  /** Sum of the first two subframes: at least `total - 80`, at most 80. */
  function SumMin(total: int): int { Max(total - 80, 0) }

  function SumWindow(cc: CcTables, total: int): (w: seq<u16>)
    requires WellFormed(cc) && 1 <= total < FRAME_PULSES
    ensures Strict(w) && Table(w) && |w| == total - 2 * SumMin(total) + 2
  {
    var w := SplitWindow(cc, total, 0, total - 2 * SumMin(total) + 2);
    SplitWindowShape(cc, total, 0, total - 2 * SumMin(total) + 2);
    w
  }

  function SumOps(cc: CcTables, total: int, sum: int): (ops: seq<Op>)
    requires WellFormed(cc) && 1 <= total <= FRAME_PULSES && SumMin(total) <= sum <= total - SumMin(total)
    ensures AllCodable(ops)
  {
    if total == FRAME_PULSES then [] else [CdfOp(SumWindow(cc, total), sum - SumMin(total))]
  }

  function DecodeSum(cc: CcTables, d: Dec, total: int): (r: (Dec, int))
    requires WellFormed(cc) && DecRange(d) && 1 <= total <= FRAME_PULSES
    ensures DecRange(r.0) && SumMin(total) <= r.1 <= total - SumMin(total)
  {
    if total == FRAME_PULSES then (d, SumMin(total))
    else
      var (d1, k) := DecodeCdf(d, SumWindow(cc, total));
      (d1, k + SumMin(total))
  }

  function Total(subfr: seq<int>): int
    requires |subfr| == SUBFRAMES
  {
    subfr[0] + subfr[1] + subfr[2] + subfr[3]
  }

  function HalvesOps(cc: CcTables, subfr: seq<int>): (ops: seq<Op>)
    requires WellFormed(cc) && Counts(subfr)
    ensures AllCodable(ops)
  {
    HalfOps(cc, subfr[0] + subfr[1], subfr[0]) + HalfOps(cc, subfr[2] + subfr[3], subfr[2])
  }

  function SplitOps(cc: CcTables, subfr: seq<int>): (ops: seq<Op>)
    requires WellFormed(cc) && Counts(subfr)
    ensures AllCodable(ops)
  {
    hide WellFormed, SumOps, HalvesOps;
    if Total(subfr) == 0 then []
    else SumOps(cc, Total(subfr), subfr[0] + subfr[1]) + HalvesOps(cc, subfr)
  }

  function Quarters(total: int, sum: int, s0: int, s2: int): (subfr: seq<int>)
    requires HalfMin(sum) <= s0 <= HalfMax(sum) && HalfMin(total - sum) <= s2 <= HalfMax(total - sum)
    ensures Counts(subfr) && Total(subfr) == total
  {
    [s0, sum - s0, s2, total - sum - s2]
  }

  function DecodeHalves(cc: CcTables, d: Dec, total: int, sum: int): (r: (Dec, seq<int>))
    requires WellFormed(cc) && DecRange(d) && 0 <= sum <= 2 * SUBFR_PULSES && 0 <= total - sum <= 2 * SUBFR_PULSES
    ensures DecRange(r.0) && Counts(r.1) && Total(r.1) == total
  {
    hide WellFormed, DecodeHalf, Counts, Total;
    var (d2, s0) := DecodeHalf(cc, d, sum);
    var (d3, s2) := DecodeHalf(cc, d2, total - sum);
    (d3, Quarters(total, sum, s0, s2))
  }

  function DecodeSplit(cc: CcTables, d: Dec, total: int): (r: (Dec, seq<int>))
    requires WellFormed(cc) && DecRange(d) && 0 <= total <= FRAME_PULSES
    ensures DecRange(r.0) && Counts(r.1) && Total(r.1) == total
  {
    hide WellFormed, DecodeSum, DecodeHalves;
    if total == 0 then (d, [0, 0, 0, 0])
    else
      var (d1, sum) := DecodeSum(cc, d, total);
      DecodeHalves(cc, d1, total, sum)
  }

  // ---------------------------------------------------------------- runs

  /** What a sequence of run symbols builds up: positions, magnitudes, the last position, whether a subframe just began. */
  datatype Walk = Walk(runs: seq<int>, pos: seq<int>, mag: seq<int>, at: int, first: bool)

  /** A non-zero run, or the first of a subframe, opens a position; a zero run makes the last pulse one larger. */
  function Step(w: Walk, m: int): Walk
  {
    if m > 0 || w.first then Walk(w.runs + [m], w.pos + [w.at + m], w.mag + [1], w.at + m, false)
    else if |w.mag| > 0 then w.(runs := w.runs + [m], mag := w.mag[|w.mag| - 1 := w.mag[|w.mag| - 1] + 1])
    else w.(runs := w.runs + [m])
  }

  function StepAll(w: Walk, runs: seq<int>): Walk
    decreases |runs|
  {
    if runs == [] then w else StepAll(Step(w, runs[0]), runs[1..])
  }

  function Begin(w: Walk, base: int): Walk { w.(at := base, first := true) }

  const Fresh := Walk([], [], [], 0, true)

  /** Runs of one subframe that stay inside it: each below the samples still left. */
  predicate RunsFit(left: int, runs: seq<int>)
    decreases |runs|
  {
    runs == [] || (0 <= runs[0] < left && RunsFit(left - runs[0], runs[1..]))
  }

  function RunOps(cc: CcTables, left: int, runs: seq<int>): (ops: seq<Op>)
    requires WellFormed(cc) && |runs| <= SUBFR_PULSES && left <= SUBFR_LEN && RunsFit(left, runs)
    ensures AllCodable(ops)
    decreases |runs|
  {
    hide WellFormed, RunWindow;
    if runs == [] then []
    else [CdfOp(RunWindow(cc, left, |runs|), runs[0])] + RunOps(cc, left - runs[0], runs[1..])
  }

  function DecodeRuns(cc: CcTables, d: Dec, c: nat, left: int, w: Walk): (r: (Dec, Walk))
    requires WellFormed(cc) && DecRange(d) && c <= SUBFR_PULSES && 1 <= left <= SUBFR_LEN
    ensures DecRange(r.0)
    decreases c
  {
    if c == 0 then (d, w)
    else
      var (d1, m) := DecodeCdf(d, RunWindow(cc, left, c));
      DecodeRuns(cc, d1, c - 1, left - m, Step(w, m))
  }

  /** All runs, cut by the counts into those of each subframe. */
  predicate RunsOk(subfr: seq<int>, runs: seq<int>, sf: nat)
    requires Counts(subfr) && sf <= SUBFRAMES
    decreases SUBFRAMES - sf
  {
    if sf == SUBFRAMES then runs == []
    else |runs| >= subfr[sf] && RunsFit(SUBFR_LEN, runs[..subfr[sf]]) && RunsOk(subfr, runs[subfr[sf]..], sf + 1)
  }

  function MagOps(cc: CcTables, subfr: seq<int>, runs: seq<int>, sf: nat): (ops: seq<Op>)
    requires WellFormed(cc) && Counts(subfr) && sf <= SUBFRAMES && RunsOk(subfr, runs, sf)
    ensures AllCodable(ops)
    decreases SUBFRAMES - sf
  {
    if sf == SUBFRAMES then []
    else RunOps(cc, SUBFR_LEN, runs[..subfr[sf]]) + MagOps(cc, subfr, runs[subfr[sf]..], sf + 1)
  }

  function WalkAll(subfr: seq<int>, runs: seq<int>, sf: nat, w: Walk): Walk
    requires Counts(subfr) && sf <= SUBFRAMES && RunsOk(subfr, runs, sf)
    decreases SUBFRAMES - sf
  {
    if sf == SUBFRAMES then w
    else WalkAll(subfr, runs[subfr[sf]..], sf + 1, StepAll(Begin(w, SUBFR_LEN * sf), runs[..subfr[sf]]))
  }

  function DecodeMags(cc: CcTables, d: Dec, subfr: seq<int>, sf: nat, w: Walk): (r: (Dec, Walk))
    requires WellFormed(cc) && DecRange(d) && Counts(subfr) && sf <= SUBFRAMES
    ensures DecRange(r.0)
    decreases SUBFRAMES - sf
  {
    if sf == SUBFRAMES then (d, w)
    else
      var (d1, w1) := DecodeRuns(cc, d, subfr[sf], SUBFR_LEN, Begin(w, SUBFR_LEN * sf));
      DecodeMags(cc, d1, subfr, sf + 1, w1)
  }

  // ---------------------------------------------------------------- signs

  /** Batches of fifteen and a remainder, covering n signs. */
  predicate Batches(syms: seq<RawSymbol>, n: nat)
    decreases |syms|
  {
    if n == 0 then syms == []
    else
      && syms != [] && syms[0].nbits == Min(15, n) && syms[0].sym < Pow2(syms[0].nbits)
      && Batches(syms[1..], n - syms[0].nbits)
  }

  function SignOps(syms: seq<RawSymbol>, n: nat): (ops: seq<Op>)
    requires Batches(syms, n)
    ensures AllCodable(ops)
    decreases |syms|
  {
    hide Pow2;
    if n == 0 then [] else [RawSymOp(syms[0].sym, syms[0].nbits)] + SignOps(syms[1..], n - syms[0].nbits)
  }

  function DecodeSigns(d: Dec, n: nat, acc: seq<RawSymbol>): (r: (Dec, seq<RawSymbol>))
    requires DecRange(d)
    ensures DecRange(r.0)
    decreases n
  {
    if n == 0 then (d, acc)
    else
      var nb := Min(15, n);
      SmallPow2(nb);
      var (d1, s) := DecodeUniform(d, Pow2(nb));
      DecodeSigns(d1, n - nb, acc + [RawSymbol(s, nb)])
  }

  lemma SmallPow2(nb: nat)
    requires nb <= 15
    ensures 0 < Pow2(nb) <= BOT
  {
    Pow2Mono(nb, 23);
    Pow2Values();
  }

  /** Bit q of a batch, first sign in the most significant place; set means positive. */
  function SignBit(sym: nat, nbits: nat, q: nat): bool
    requires q < nbits
  {
    Shr(sym, nbits - 1 - q) % 2 == 1
  }

  function SignBits(s: RawSymbol): (b: seq<bool>)
    ensures |b| == s.nbits
  {
    seq(s.nbits, q requires 0 <= q < s.nbits => SignBit(s.sym, s.nbits, q))
  }

  function Signs(syms: seq<RawSymbol>): seq<bool>
    decreases |syms|
  {
    if syms == [] then [] else SignBits(syms[0]) + Signs(syms[1..])
  }

  lemma {:induction false} SignsCover(syms: seq<RawSymbol>, n: nat)
    requires Batches(syms, n)
    ensures |Signs(syms)| == n
    decreases |syms|
  {
    if n > 0 { SignsCover(syms[1..], n - syms[0].nbits); }
  }

  /** The number that signs spell, the first in the most significant place. */
  function Spelled(b: seq<bool>): nat { if b == [] then 0 else 2 * Spelled(b[..|b| - 1]) + (if b[|b| - 1] then 1 else 0) }

  /** A batch is that number: each positive sign sets its bit. */
  lemma {:induction false} BatchSpells(sym: nat, nbits: nat)
    requires sym < Pow2(nbits)
    ensures Spelled(SignBits(RawSymbol(sym, nbits))) == sym
    decreases nbits
  {
    if nbits > 0 {
      var b, shorter := SignBits(RawSymbol(sym, nbits)), SignBits(RawSymbol(sym / 2, nbits - 1));
      forall q | 0 <= q < nbits - 1 ensures b[q] == shorter[q] { assert Shr(sym, nbits - 1 - q) == Shr(sym / 2, nbits - 2 - q); }
      assert b[..nbits - 1] == shorter;
      assert Shr(sym, 0) == sym;
      BatchSpells(sym / 2, nbits - 1);
    }
  }

  // ---------------------------------------------------------------- what the count windows mean
  // In a table set built from a seed the cell of a share has the width its probability asks for.

  /** The cell for k out of count pulses. */
  ghost predicate CellOf(w: seq<u16>, at: nat, k: nat, count: nat)
    requires 1 <= count <= SPLIT_TABLES && MinSplit(count) <= k <= count - MinSplit(count)
  {
    && at + 1 < |w| && CmfTables.Sum(SplitPdf(count)) > 0
    && var low: int, high: int := w[at], w[at + 1];
      high - low == 1 + ProbSplitFast(k, count) * (CmfTables.CMF_MAX - |SplitPdf(count)|) / CmfTables.Sum(SplitPdf(count))
  }

  lemma SplitCell(count: nat, k: nat)
    requires 1 <= count <= SPLIT_TABLES && MinSplit(count) <= k <= count - MinSplit(count)
    ensures CmfTables.Sum(SplitPdf(count)) > 0 && CellOf(CmfTables.PdfCmf(SplitPdf(count)), k - MinSplit(count), k, count)
  {
    hide CmfTables.Sum, ProbSplitFast, CmfTables.CmfOf, Times, Quot;
    SplitPdfPositive(count);
    var p, i := SplitPdf(count), k - MinSplit(count);
    CmfTables.PdfStep(p, i);
    TimesIs(p[i], CmfTables.CMF_MAX - |p|);
    QuotIs(Times(p[i], CmfTables.CMF_MAX - |p|), CmfTables.Sum(p));
  }

  /** The first of two subframes: share s0 of their count is coded with the probability of s0 out of count. */
  lemma HalfCell(s: CcSeed, cc: CcTables, count: nat, s0: nat)
    requires SeedShape(s) && WellFormed(cc) && BuiltFrom(s, cc) && 1 <= count < 2 * SUBFR_PULSES && HalfMin(count) <= s0 <= HalfMax(count)
    ensures CellOf(HalfWindow(cc, count), s0 - HalfMin(count), s0, count)
  {
    hide WellFormed, BuiltFrom, SplitPdf, CmfTables.PdfCmf, ProbSplitFast, CmfTables.Sum, CmfTables.CmfShape, Strict, Table, SplitWindow;
    SplitsOfSeed(s, cc, count, HalfMin(count), HalfMax(count) - HalfMin(count) + 2);
    SplitCell(count, s0);
  }

  /** The first two subframes of four: likewise their sum out of the total. */
  lemma SumCell(s: CcSeed, cc: CcTables, total: nat, sum: nat)
    requires SeedShape(s) && WellFormed(cc) && BuiltFrom(s, cc) && 1 <= total < FRAME_PULSES && SumMin(total) <= sum <= total - SumMin(total)
    ensures CellOf(SumWindow(cc, total), sum - SumMin(total), sum, total)
  {
    hide WellFormed, BuiltFrom, SplitPdf, CmfTables.PdfCmf, ProbSplitFast, CmfTables.Sum, CmfTables.CmfShape, Strict, Table, SplitWindow;
    SplitsOfSeed(s, cc, total, 0, total - 2 * SumMin(total) + 2);
    SplitCell(total, sum);
  }

  // ---------------------------------------------------------------- the pulse vector

  function Signed(mag: seq<int>, signs: seq<bool>): (a: seq<int>)
    requires |mag| == |signs|
    ensures |a| == |mag|
  {
    seq(|mag|, i requires 0 <= i < |mag| => if signs[i] then mag[i] else -mag[i])
  }

  function Zeros(n: nat): (z: seq<int>)
    ensures |z| == n && forall i :: 0 <= i < n ==> z[i] == 0
  {
    seq(n, _ => 0)
  }

  /** Amplitudes put at their positions in order, on a silent frame. */
  function Scatter(pos: seq<int>, amp: seq<int>): (v: seq<int>)
    requires |pos| == |amp|
    ensures |v| == INTF_LEN
    decreases |pos|
  {
    if pos == [] then Zeros(INTF_LEN)
    else
      var n := |pos| - 1;
      var v := Scatter(pos[..n], amp[..n]);
      if 0 <= pos[n] < INTF_LEN then v[pos[n] := amp[n]] else v
  }

  /** Parameters the encoder can replay: the set the decoder produces. */
  predicate Replayable(p: PulseParams)
  {
    && Counts(p.subfr) && p.total == Total(p.subfr) && RunsOk(p.subfr, p.magRuns, 0)
    && Batches(p.signSyms, |WalkAll(p.subfr, p.magRuns, 0, Fresh).pos|)
  }

  /** Runs, then signs. */
  function ShapeOps(cc: CcTables, p: PulseParams): (ops: seq<Op>)
    requires WellFormed(cc) && Replayable(p)
    ensures AllCodable(ops)
  {
    MagOps(cc, p.subfr, p.magRuns, 0) + SignOps(p.signSyms, |WalkAll(p.subfr, p.magRuns, 0, Fresh).pos|)
  }

  function PulseOps(cc: CcTables, p: PulseParams): (ops: seq<Op>)
    requires WellFormed(cc) && Replayable(p)
    ensures AllCodable(ops)
  {
    hide WellFormed, SplitOps, ShapeOps, CountTable;
    TotalFits(p.subfr);
    [CdfOp(CountTable(), p.total)] + (SplitOps(cc, p.subfr) + ShapeOps(cc, p))
  }

  lemma TotalFits(subfr: seq<int>)
    requires Counts(subfr)
    ensures 0 <= Total(subfr) <= FRAME_PULSES && Codes(CountTable(), Total(subfr))
  {
    StrictCodes(CountTable(), Total(subfr));
  }

  function DecodeParams(cc: CcTables, d: Dec): (r: (Dec, PulseParams))
    requires WellFormed(cc) && DecRange(d)
    ensures DecRange(r.0)
  {
    var (d1, total) := DecodeCdf(d, CountTable());
    var (d2, subfr) := DecodeSplit(cc, d1, total);
    var (d3, w) := DecodeMags(cc, d2, subfr, 0, Fresh);
    var (d4, syms) := DecodeSigns(d3, |w.pos|, []);
    (d4, PulseParams(total, subfr, w.runs, syms))
  }

  /** The excitation the parameters stand for. */
  function Expand(p: PulseParams): (v: seq<int>)
    requires Replayable(p)
    ensures |v| == INTF_LEN
  {
    var w := WalkAll(p.subfr, p.magRuns, 0, Fresh);
    WalkAllSound(p.subfr, p.magRuns, 0, Fresh);
    SignsCover(p.signSyms, |w.pos|);
    Scatter(w.pos, Signed(w.mag, Signs(p.signSyms)))
  }

  // ---------------------------------------------------------------- walks

  function SumOf(s: seq<int>): int
    decreases |s|
  {
    if s == [] then 0 else SumOf(s[..|s| - 1]) + s[|s| - 1]
  }

  /** Positions rise, magnitudes are positive and add up to the number of runs. */
  predicate Sound(w: Walk)
  {
    && |w.mag| == |w.pos| && (forall i :: 0 <= i < |w.mag| ==> w.mag[i] >= 1) && SumOf(w.mag) == |w.runs|
    && (forall i, j :: 0 <= i < j < |w.pos| ==> w.pos[i] < w.pos[j])
    && (forall i :: 0 <= i < |w.pos| ==> 0 <= w.pos[i] && (if w.first then w.pos[i] < w.at else w.pos[i] <= w.at))
    && 0 <= w.at && (!w.first ==> |w.pos| > 0)
  }

  lemma SumUpdate(s: seq<int>)
    requires |s| > 0
    ensures SumOf(s[|s| - 1 := s[|s| - 1] + 1]) == SumOf(s) + 1
  {
    assert s[|s| - 1 := s[|s| - 1] + 1][..|s| - 1] == s[..|s| - 1];
  }

  lemma StepSound(w: Walk, m: int)
    requires Sound(w) && 0 <= m
    ensures Sound(Step(w, m)) && Step(w, m).at == w.at + m && !Step(w, m).first && Step(w, m).runs == w.runs + [m]
    ensures |Step(w, m).pos| >= |w.pos| && Step(w, m).pos[..|w.pos|] == w.pos
    ensures forall i :: |w.pos| <= i < |Step(w, m).pos| ==> Step(w, m).pos[i] >= w.at
  {
    hide SumOf;
    if m > 0 || w.first { SumSnoc(w.mag, 1); } else { SumUpdate(w.mag); }
  }

  lemma SumSnoc(s: seq<int>, x: int)
    ensures SumOf(s + [x]) == SumOf(s) + x
  {
    assert (s + [x])[..|s|] == s;
  }

  lemma Extends(a: seq<int>, b: seq<int>, c: seq<int>, low: int)
    requires |a| <= |b| <= |c| && b[..|a|] == a && c[..|b|] == b
    requires forall i :: |a| <= i < |b| ==> b[i] >= low
    requires forall i :: |b| <= i < |c| ==> c[i] >= low
    ensures c[..|a|] == a && forall i :: |a| <= i < |c| ==> c[i] >= low
  {
    assert c[..|a|] == c[..|b|][..|a|];
    forall i | |a| <= i < |b| ensures c[i] >= low { assert c[i] == c[..|b|][i]; }
  }

  /** Runs that fit a subframe keep the walk inside it. */
  lemma {:induction false} StepAllSound(w: Walk, left: int, runs: seq<int>)
    requires Sound(w) && RunsFit(left, runs) && 0 <= left
    ensures var w' := StepAll(w, runs);
      && Sound(w') && w'.runs == w.runs + runs && w.at <= w'.at && (runs != [] ==> w'.at < w.at + left)
      && w'.first == (w.first && runs == [])
      && |w'.pos| >= |w.pos| && w'.pos[..|w.pos|] == w.pos
      && (forall i :: |w.pos| <= i < |w'.pos| ==> w'.pos[i] >= w.at)
    decreases |runs|
  {
    hide SumOf, Step, Sound;
    if runs != [] {
      StepSound(w, runs[0]);
      var w1 := Step(w, runs[0]);
      StepAllSound(w1, left - runs[0], runs[1..]);
      Extends(w.pos, w1.pos, StepAll(w, runs).pos, w.at);
      assert w.runs + runs == w.runs + [runs[0]] + runs[1..];
    }
  }

  lemma BeginSound(w: Walk, base: int)
    requires Sound(w) && (if w.first then w.at <= base else w.at < base)
    ensures Sound(Begin(w, base))
  {
  }

  /** Where subframe sf may start from. */
  predicate Before(w: Walk, sf: nat)
  {
    Sound(w) && w.at <= SUBFR_LEN * sf && (w.at < SUBFR_LEN * sf || w.first)
  }

  lemma SubframeSound(subfr: seq<int>, runs: seq<int>, sf: nat, w: Walk)
    requires Counts(subfr) && sf < SUBFRAMES && RunsOk(subfr, runs, sf) && Before(w, sf)
    ensures var w' := StepAll(Begin(w, SUBFR_LEN * sf), runs[..subfr[sf]]);
      && Before(w', sf + 1) && w'.runs == w.runs + runs[..subfr[sf]]
      && |w'.pos| >= |w.pos| && w'.pos[..|w.pos|] == w.pos
      && (forall i :: |w.pos| <= i < |w'.pos| ==> SUBFR_LEN * sf <= w'.pos[i] < SUBFR_LEN * (sf + 1))
  {
    BeginSound(w, SUBFR_LEN * sf);
    StepAllSound(Begin(w, SUBFR_LEN * sf), SUBFR_LEN, runs[..subfr[sf]]);
  }

  lemma {:induction false} WalkAllSound(subfr: seq<int>, runs: seq<int>, sf: nat, w: Walk)
    requires Counts(subfr) && sf <= SUBFRAMES && RunsOk(subfr, runs, sf) && Before(w, sf)
    ensures var w' := WalkAll(subfr, runs, sf, w);
      && Before(w', SUBFRAMES) && w'.runs == w.runs + runs
      && |w'.pos| >= |w.pos| && w'.pos[..|w.pos|] == w.pos
      && (forall i :: |w.pos| <= i < |w'.pos| ==> SUBFR_LEN * sf <= w'.pos[i] < INTF_LEN)
    decreases SUBFRAMES - sf
  {
    hide Sound, RunsFit, StepAll;
    if sf < SUBFRAMES {
      SubframeSound(subfr, runs, sf, w);
      var w1 := StepAll(Begin(w, SUBFR_LEN * sf), runs[..subfr[sf]]);
      WalkAllSound(subfr, runs[subfr[sf]..], sf + 1, w1);
      var w' := WalkAll(subfr, runs, sf, w);
      Extends(w.pos, w1.pos, w'.pos, SUBFR_LEN * sf);
      assert w1.runs + runs[subfr[sf]..] == w.runs + (runs[..subfr[sf]] + runs[subfr[sf]..]);
      forall i | |w.pos| <= i < |w'.pos|
        ensures w'.pos[i] < INTF_LEN
      {
        if i < |w1.pos| { assert w'.pos[i] == w'.pos[..|w1.pos|][i]; }
      }
    }
  }
}
