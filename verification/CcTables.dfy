/** The gain, long-term-prediction and pulse tables, their shapes, and the windows the coders cut from them. */
module CcTables {
  import opened Arith
  import opened CdfSpec
  import opened CmfTables
  import opened FixedPoint
  import opened Words

  const MAX_PULSES_PER_SF := 40
  const SPLIT_TABLES := 159
  const RUNLEN_TABLES := 20
  const FCBG_STEPS := 176
  const FCBG_WINDOW := 92
  const ACBG_N := 16
  const FCBG_N := 34

  /** The part of the table set the four-subframe operating point reads. */
  datatype CcTables = CcTables(
    nrgresGain4: seq<u16>, nrgresShape4: seq<u16>, fcbgOffset: seq<seq<u16>>,
    acbgainsHr: seq<u16>, fcbgainsV: seq<u16>, fcbgainsVDelta: seq<u16>, acbgainsCbHr: seq<i16>,
    gainRecon: seq<i16>, gainReconBase: u32,
    splitCmfs: seq<seq<u16>>, runlen: seq<seq<seq<u16>>>)

  /** Fewest pulses the first half of `total` can get when a half holds at most 80. */
  function MinSplit(total: int): int { Max(total - 2 * MAX_PULSES_PER_SF, 0) }

  predicate SplitShape(splitCmfs: seq<seq<u16>>)
  {
    && |splitCmfs| == SPLIT_TABLES
    && forall i :: 0 <= i < SPLIT_TABLES ==>
         CmfShape(splitCmfs[i]) && |splitCmfs[i]| == i + 3 - 2 * MinSplit(i + 1)
  }

  predicate RunlenShape(cmfs: seq<seq<u16>>, maxSamples: int)
  {
    && |cmfs| == MAX_PULSES_PER_SF
    && forall c :: 0 <= c < |cmfs| ==> CmfShape(cmfs[c]) && |cmfs[c]| == maxSamples + 1
  }

  /** What the table builders guarantee. */
  predicate WellFormed(cc: CcTables)
  {
    && CmfShape(cc.nrgresGain4) && |cc.nrgresGain4| >= 2
    && CmfShape(cc.nrgresShape4) && |cc.nrgresShape4| >= 2
    && |cc.fcbgOffset| == 12
    && (forall r :: 0 <= r < |cc.fcbgOffset| ==> CmfShape(cc.fcbgOffset[r]) && |cc.fcbgOffset[r]| == FCBG_STEPS + 1)
    && |cc.acbgainsHr| == (ACBG_N + 1) * (ACBG_N + 1)
    && (forall r :: 0 <= r <= ACBG_N ==> CmfShape(AcbgRow(cc, r)))
    && CmfShape(cc.fcbgainsV) && |cc.fcbgainsV| == FCBG_N + 1
    && CmfShape(cc.fcbgainsVDelta) && |cc.fcbgainsVDelta| == 2 * FCBG_N
    && |cc.acbgainsCbHr| == 2 * ACBG_N
    && SplitShape(cc.splitCmfs)
    && |cc.runlen| == RUNLEN_TABLES
    && (forall o :: 0 <= o < RUNLEN_TABLES ==> RunlenShape(cc.runlen[o], 8 * (o + 1)))
  }

  // ---------------------------------------------------------------- accessors

  function AcbgRow(cc: CcTables, r: int): (row: seq<u16>)
    requires |cc.acbgainsHr| == (ACBG_N + 1) * (ACBG_N + 1) && 0 <= r <= ACBG_N
    ensures |row| == ACBG_N + 1
  {
    cc.acbgainsHr[r * (ACBG_N + 1)..r * (ACBG_N + 1) + ACBG_N + 1]
  }

  /** Row for the gain index of the subframe before, -1 when there is none. */
  function AcbgainRow(cc: CcTables, prev: int): (row: seq<u16>)
    requires WellFormed(cc) && -1 <= prev < ACBG_N
    ensures Strict(row) && Table(row) && |row| == ACBG_N + 1
  {
    AcbgRow(cc, prev + 1)
  }

  function AcbgainWeights(cc: CcTables, gi: int): (i16, i16)
    requires WellFormed(cc) && 0 <= gi < ACBG_N
  {
    (cc.acbgainsCbHr[2 * gi], cc.acbgainsCbHr[2 * gi + 1])
  }

  function FcbgainVDelta(cc: CcTables, prevFilt: int): (w: seq<u16>)
    requires WellFormed(cc) && 0 <= prevFilt < FCBG_N
    ensures Strict(w) && Table(w) && |w| == FCBG_N + 1
  {
    cc.fcbgainsVDelta[FCBG_N - 1 - prevFilt..FCBG_N - 1 - prevFilt + FCBG_N + 1]
  }

  function FcbgOffset(cc: CcTables, tableIx: int, bucket: int, minOffset: int): (w: seq<u16>)
    requires WellFormed(cc) && 0 <= tableIx < 3 && 0 <= bucket < 4 && 0 <= minOffset <= 85
    ensures Strict(w) && Table(w) && |w| == FCBG_WINDOW
  {
    cc.fcbgOffset[tableIx * 4 + bucket][minOffset..minOffset + FCBG_WINDOW]
  }

  /** A 16-bit entry of the gain reconstruction table by absolute address, 0 off the table. */
  function GainReconAt(cc: CcTables, addr: int): i16
  {
    var off := (addr - cc.gainReconBase) % 0x1_0000_0000;
    if off % 2 == 0 && off / 2 < |cc.gainRecon| then cc.gainRecon[off / 2] else 0
  }

  function NrgStep(cc: CcTables, cfg: int): i16 { GainReconAt(cc, cc.gainReconBase + cfg * 2) }

  function GainRecon(cc: CcTables, idx: int): i16 { GainReconAt(cc, 0xf35f0 + idx * 2) }

  /** Entry i of the reconstruction table stands at its base plus 2 i, and nothing at the odd addresses or past the end. */
  lemma GainReconEntry(cc: CcTables, addr: u32, i: nat)
    requires |cc.gainRecon| < 0x4000_0000 && i < 0x4000_0000 && addr == (cc.gainReconBase + 2 * i) % 0x1_0000_0000
    ensures GainReconAt(cc, addr) == if i < |cc.gainRecon| then cc.gainRecon[i] else 0
    ensures GainReconAt(cc, addr + 1) == 0
  {
    AddressBack(cc.gainReconBase, 2 * i);
    OddBack(cc.gainReconBase, 2 * i);
  }

  lemma AddressBack(base: u32, off: nat)
    requires off < 0x1_0000_0000
    ensures ((base + off) % 0x1_0000_0000 - base) % 0x1_0000_0000 == off
  {
    var q := (base + off) / 0x1_0000_0000;
    DivModUnique((base + off) % 0x1_0000_0000 - base, 0x1_0000_0000, -q, off);
  }

  lemma OddBack(base: u32, off: nat)
    requires off < 0xffff_ffff
    ensures ((base + off) % 0x1_0000_0000 + 1 - base) % 0x1_0000_0000 == off + 1
  {
    var q := (base + off) / 0x1_0000_0000;
    DivModUnique((base + off) % 0x1_0000_0000 + 1 - base, 0x1_0000_0000, -q, off + 1);
  }

  /** The step of configuration cfg is entry cfg; entry idx of the four-subframe shapes stands at its own fixed address. */
  lemma NrgStepIs(cc: CcTables, cfg: nat)
    requires |cc.gainRecon| < 0x4000_0000 && cfg < |cc.gainRecon|
    ensures NrgStep(cc, cfg) == cc.gainRecon[cfg]
  {
    AddressBack(cc.gainReconBase, 2 * cfg);
    LessWhole(cc.gainReconBase, 2 * cfg);
  }

  lemma GainReconIs(cc: CcTables, idx: nat, at: nat)
    requires |cc.gainRecon| < 0x4000_0000 && at < |cc.gainRecon| && cc.gainReconBase + 2 * at == 0xf35f0 + 2 * idx
    ensures GainRecon(cc, idx) == cc.gainRecon[at]
  {
    LessWhole(cc.gainReconBase, 2 * at);
  }

  lemma LessWhole(base: int, off: nat)
    requires off < 0x1_0000_0000
    ensures (base + off - base) % 0x1_0000_0000 == off
  {
    DivModUnique(off, 0x1_0000_0000, 0, off);
  }

  /** After filter prev, symbol f has the width of the step from one to the other, whichever filters they are. */
  lemma FilterStep(cc: CcTables, prev: int, f: int)
    requires WellFormed(cc) && 0 <= prev < FCBG_N && 0 <= f < FCBG_N
    ensures FcbgainVDelta(cc, prev)[f + 1] - FcbgainVDelta(cc, prev)[f] == cc.fcbgainsVDelta[f - prev + FCBG_N] - cc.fcbgainsVDelta[f - prev + FCBG_N - 1]
  {
  }

  function SplitCmf(cc: CcTables, total: int): seq<u16>
  {
    if 1 <= total <= |cc.splitCmfs| then cc.splitCmfs[total - 1] else []
  }

  /** The split of `count` into two parts of lo..hi, coded in the window that starts at lo. */
  function SplitWindow(cc: CcTables, count: int, start: int, n: nat): seq<u16>
  {
    Window(SplitCmf(cc, count), start, n)
  }

  /** Run lengths still possible with pos samples and c pulses left. */
  function RunWindow(cc: CcTables, pos: int, c: int): (w: seq<u16>)
    requires WellFormed(cc) && 1 <= pos <= 160 && 1 <= c <= MAX_PULSES_PER_SF
    ensures |w| == pos + 1 && Strict(w) && Table(w)
  {
    var oct := (pos + 7) / 8;
    RunWindowShape(cc, pos, c);
    Window(cc.runlen[oct - 1][c - 1], 8 * oct - pos, pos + 1)
  }

  lemma RunWindowShape(cc: CcTables, pos: int, c: int)
    requires WellFormed(cc) && 1 <= pos <= 160 && 1 <= c <= MAX_PULSES_PER_SF
    ensures var oct := (pos + 7) / 8;
      1 <= oct <= RUNLEN_TABLES && |cc.runlen[oct - 1]| == MAX_PULSES_PER_SF
      && Strict(Window(cc.runlen[oct - 1][c - 1], 8 * oct - pos, pos + 1))
      && Table(Window(cc.runlen[oct - 1][c - 1], 8 * oct - pos, pos + 1))
  {
    var oct := (pos + 7) / 8;
    assert RunlenShape(cc.runlen[oct - 1], 8 * oct);
    WindowInside(cc.runlen[oct - 1][c - 1], 8 * oct - pos, pos + 1);
  }

  /** First-level split of total in 2..160: the window reaches exactly over the admissible sums. */
  lemma SplitWindowShape(cc: CcTables, count: int, start: int, n: nat)
    requires WellFormed(cc) && 1 <= count <= SPLIT_TABLES
    requires 0 <= start && 2 <= n && start + n <= count - 2 * MinSplit(count) + 2
    ensures Strict(SplitWindow(cc, count, start, n)) && Table(SplitWindow(cc, count, start, n))
  {
    assert SplitCmf(cc, count) == cc.splitCmfs[count - 1];
    WindowInside(cc.splitCmfs[count - 1], start, n);
  }

  // ---------------------------------------------------------------- builders

  /** Probabilities of the admissible splits of one pulse count. */
  function SplitPdf(total: nat): (p: seq<nat>)
    requires 1 <= total <= SPLIT_TABLES
    ensures |p| == total - 2 * MinSplit(total) + 1
  {
    seq<nat>(total - 2 * MinSplit(total) + 1, k requires 0 <= k <= total - 2 * MinSplit(total) => ProbSplitFast(k + MinSplit(total), total))
  }

  /** The table of the splits of one pulse count. */
  predicate SplitOf(cmf: seq<u16>, total: nat)
    requires 1 <= total <= SPLIT_TABLES
  {
    Sum(SplitPdf(total)) > 0 && cmf == PdfCmf(SplitPdf(total))
  }

  lemma SplitPdfPositive(total: nat)
    requires 1 <= total <= SPLIT_TABLES
    ensures Sum(SplitPdf(total)) > 0
  {
    hide ProbSplitFast;
    LikelyPositive(total);
    SumAtLeast(SplitPdf(total), Likely(total) - MinSplit(total));
  }

  /** One table per pulse count, from the fixed-point split probabilities; none of their divisors is zero. */
  method CreateSplitCmfs() returns (out: seq<seq<u16>>)
    ensures SplitShape(out)
    ensures forall i :: 0 <= i < SPLIT_TABLES ==> SplitOf(out[i], i + 1)
  {
    hide ProbSplitFast, CmfOf;
    out := [];
    for numPulses := 1 to SPLIT_TABLES + 1
      invariant |out| == numPulses - 1
      invariant forall i :: 0 <= i < |out| ==> SplitOf(out[i], i + 1)
    {
      var minSplit := numPulses - MAX_PULSES_PER_SF * 2;
      if minSplit < 0 { minSplit := 0; }
      var maxSplit := numPulses - minSplit;
      var p: seq<nat> := [];
      for k := minSplit to maxSplit + 1
        invariant |p| == k - minSplit
        invariant forall j :: 0 <= j < |p| ==> p[j] == ProbSplitFast(j + minSplit, numPulses)
      {
        p := p + [ProbSplitFast(k, numPulses)];
      }
      assert p == SplitPdf(numPulses);
      SplitPdfPositive(numPulses);
      var cmf := PdfToCmf(p);
      out := out + [cmf];
    }
  }

  /** The table of the runs over ms samples with nump pulses left. */
  predicate RunlenOf(cmf: seq<u16>, ms: nat, nump: nat)
    requires 1 <= ms <= 160 && 1 <= nump <= MAX_PULSES_PER_SF
  {
    Sum(RunPdf(ms, nump)) > 0 && cmf == PdfCmf(RunPdf(ms, nump))
  }

  lemma RunPdfSum(ms: nat, nump: nat)
    requires 1 <= ms <= 160 && 1 <= nump <= MAX_PULSES_PER_SF
    ensures Sum(RunPdf(ms, nump)) > 0
  {
    hide RunPdf;
    RunPdfPositive(ms, nump);
    SumAtLeast(RunPdf(ms, nump), 0);
  }

  /** Forty run-length tables over the same number of samples. */
  method CreateRunlenTable(maxSamples: nat) returns (cmfs: seq<seq<u16>>)
    requires 1 <= maxSamples <= 160
    ensures RunlenShape(cmfs, maxSamples)
    ensures forall c :: 0 <= c < MAX_PULSES_PER_SF ==> RunlenOf(cmfs[c], maxSamples, c + 1)
  {
    hide RunPdf, CmfOf;
    cmfs := [];
    for nump := 1 to MAX_PULSES_PER_SF + 1
      invariant |cmfs| == nump - 1
      invariant forall c :: 0 <= c < |cmfs| ==> RunlenOf(cmfs[c], maxSamples, c + 1)
    {
      var p := ComputeRunPdf(maxSamples, nump);
      RunPdfSum(maxSamples, nump);
      var cmf := PdfToCmf(p);
      cmfs := cmfs + [cmf];
    }
  }

  /** Consecutive packed chunks of `step` bytes, each expanded on its own. */
  method DcmfChunks(b: seq<u8>, step: nat) returns (out: seq<seq<u16>>)
    requires 1 <= step <= CMF_MAX
    ensures |out| == |b| / step
    ensures forall r :: 0 <= r < |out| ==> ChunkIs(b, step, r, out[r])
  {
    hide DcmfCmf, ChunkIs;
    out := [];
    var i := 0;
    while i + step <= |b|
      invariant i == |out| * step <= |b|
      invariant forall r :: 0 <= r < |out| ==> ChunkIs(b, step, r, out[r])
      decreases |b| - i
    {
      var c := new u16[step + 1](_ => 0);
      CelpDcmfToCmf(b[i..i + step], c);
      assert c[..step + 1] == c[..];
      ChunkHere(b, step, |out|, i, c[..]);
      out := out + [c[..]];
      i := i + step;
    }
    ChunkCount(|out|, |b|, step);
  }

  lemma ChunkCount(n: nat, len: nat, step: nat)
    requires step >= 1 && n * step <= len < n * step + step
    ensures len / step == n
  {
    DivModUnique(len, step, n, len - n * step);
  }

  /** The packed seed: distributions as bytes, codebook values as integers. */
  datatype CcSeed = CcSeed(
    nrgresGain4: seq<u8>, nrgresShape4: seq<u8>, fcbgOffset: seq<u8>, acbgainsHr: seq<u8>,
    fcbgainsV: seq<u8>, fcbgainsVDelta: seq<u8>, acbgainsCbHr: seq<i16>,
    gainRecon: seq<i16>, gainReconBase: u32)

  predicate SeedShape(s: CcSeed)
  {
    && 1 <= |s.nrgresGain4| <= CMF_MAX && 1 <= |s.nrgresShape4| <= CMF_MAX
    && |s.fcbgOffset| == 12 * FCBG_STEPS && |s.acbgainsHr| == (ACBG_N + 1) * ACBG_N
    && |s.fcbgainsV| == FCBG_N && |s.fcbgainsVDelta| == 2 * FCBG_N - 1 && |s.acbgainsCbHr| == 2 * ACBG_N
  }

  method Dcmf(b: seq<u8>) returns (cmf: seq<u16>)
    requires |b| <= CMF_MAX
    ensures cmf == DcmfCmf(b)
  {
    var c := new u16[|b| + 1](_ => 0);
    CelpDcmfToCmf(b, c);
    assert c[..|b| + 1] == c[..];
    cmf := c[..];
  }

  /** Equal rows laid end to end. */
  method Flatten(rows: seq<seq<u16>>) returns (flat: seq<u16>)
    requires forall k :: 0 <= k < |rows| ==> |rows[k]| == ACBG_N + 1
    ensures |flat| == |rows| * (ACBG_N + 1)
    ensures forall k :: 0 <= k < |rows| ==> flat[k * (ACBG_N + 1)..k * (ACBG_N + 1) + ACBG_N + 1] == rows[k]
  {
    flat := [];
    for r := 0 to |rows|
      invariant |flat| == r * (ACBG_N + 1)
      invariant forall k :: 0 <= k < r ==> flat[k * (ACBG_N + 1)..k * (ACBG_N + 1) + ACBG_N + 1] == rows[k]
    {
      ghost var before := flat;
      flat := flat + rows[r];
      forall k | 0 <= k < r
        ensures flat[k * (ACBG_N + 1)..k * (ACBG_N + 1) + ACBG_N + 1] == rows[k]
      {
        assert flat[k * (ACBG_N + 1)..k * (ACBG_N + 1) + ACBG_N + 1] == before[k * (ACBG_N + 1)..k * (ACBG_N + 1) + ACBG_N + 1];
      }
      assert flat[r * (ACBG_N + 1)..r * (ACBG_N + 1) + ACBG_N + 1] == rows[r];
    }
  }

  /** The tables of one number of samples hold the run distributions of 1 to 40 pulses. */
  predicate RunlensOf(cmfs: seq<seq<u16>>, maxSamples: nat)
    requires 1 <= maxSamples <= 160
  {
    |cmfs| == MAX_PULSES_PER_SF && forall c :: 0 <= c < MAX_PULSES_PER_SF ==> RunlenOf(cmfs[c], maxSamples, c + 1)
  }

  method BuildRunlen() returns (runlen: seq<seq<seq<u16>>>)
    ensures |runlen| == RUNLEN_TABLES
    ensures forall o :: 0 <= o < RUNLEN_TABLES ==> RunlenShape(runlen[o], 8 * (o + 1)) && RunlensOf(runlen[o], 8 * (o + 1))
  {
    hide RunPdf, PdfCmf, RunlenOf;
    runlen := [];
    for oct := 1 to RUNLEN_TABLES + 1
      invariant |runlen| == oct - 1
      invariant forall o :: 0 <= o < |runlen| ==> RunlenShape(runlen[o], 8 * (o + 1)) && RunlensOf(runlen[o], 8 * (o + 1))
    {
      var table := CreateRunlenTable(oct * 8);
      runlen := runlen + [table];
    }
  }

  /** Each table comes from the seed field of its own name, row by row; the pulse tables from the computed probabilities. */
  ghost predicate BuiltFrom(s: CcSeed, cc: CcTables)
    requires SeedShape(s)
  {
    && cc.nrgresGain4 == DcmfCmf(s.nrgresGain4) && cc.nrgresShape4 == DcmfCmf(s.nrgresShape4)
    && cc.fcbgainsV == DcmfCmf(s.fcbgainsV) && cc.fcbgainsVDelta == DcmfCmf(s.fcbgainsVDelta)
    && |cc.fcbgOffset| == 12
    && (forall r :: 0 <= r < 12 ==> cc.fcbgOffset[r] == DcmfCmf(s.fcbgOffset[FCBG_STEPS * r..FCBG_STEPS * r + FCBG_STEPS]))
    && |cc.acbgainsHr| == (ACBG_N + 1) * (ACBG_N + 1)
    && (forall r :: 0 <= r <= ACBG_N ==> AcbgRow(cc, r) == DcmfCmf(s.acbgainsHr[ACBG_N * r..ACBG_N * r + ACBG_N]))
    && (cc.acbgainsCbHr, cc.gainRecon, cc.gainReconBase) == (s.acbgainsCbHr, s.gainRecon, s.gainReconBase)
    && |cc.splitCmfs| == SPLIT_TABLES && (forall i :: 0 <= i < SPLIT_TABLES ==> SplitOf(cc.splitCmfs[i], i + 1))
    && |cc.runlen| == RUNLEN_TABLES && (forall o :: 0 <= o < RUNLEN_TABLES ==> RunlensOf(cc.runlen[o], 8 * (o + 1)))
  }

  /** The gain row after gain prev is that row of the seed, expanded. */
  lemma GainRowOfSeed(s: CcSeed, cc: CcTables, prev: int)
    requires SeedShape(s) && WellFormed(cc) && BuiltFrom(s, cc) && -1 <= prev < ACBG_N
    ensures AcbgainRow(cc, prev) == DcmfCmf(s.acbgainsHr[ACBG_N * (prev + 1)..ACBG_N * (prev + 1) + ACBG_N])
  {
    hide DcmfCmf, PdfCmf, RunPdf, SplitPdf, SplitOf, RunlensOf, AcbgRow, CmfShape;
  }

  /** Runs with pos samples and c pulses left are read from the last pos + 1 entries of the table for the next multiple of eight. */
  lemma RunsOfSeed(s: CcSeed, cc: CcTables, pos: nat, c: nat)
    requires SeedShape(s) && WellFormed(cc) && BuiltFrom(s, cc) && 1 <= pos <= 160 && 1 <= c <= MAX_PULSES_PER_SF
    ensures var ms := if pos % 8 == 0 then pos else pos + 8 - pos % 8;
      Sum(RunPdf(ms, c)) > 0 && RunWindow(cc, pos, c) == PdfCmf(RunPdf(ms, c))[ms - pos..]
  {
    hide WellFormed, BuiltFrom, RunWindow, RunPdf, PdfCmf;
    var oct := (pos + 7) / 8;
    assert 8 * oct == if pos % 8 == 0 then pos else pos + 8 - pos % 8;
    RunTable(s, cc, oct, c);
    RunWindowIs(cc, pos, c);
    assert PdfCmf(RunPdf(8 * oct, c))[8 * oct - pos..8 * oct + 1] == PdfCmf(RunPdf(8 * oct, c))[8 * oct - pos..];
  }

  lemma RunWindowIs(cc: CcTables, pos: nat, c: nat)
    requires WellFormed(cc) && 1 <= pos <= 160 && 1 <= c <= MAX_PULSES_PER_SF
    ensures var oct := (pos + 7) / 8;
      1 <= oct <= RUNLEN_TABLES && |cc.runlen| == RUNLEN_TABLES && |cc.runlen[oct - 1]| == MAX_PULSES_PER_SF
      && |cc.runlen[oct - 1][c - 1]| == 8 * oct + 1 && RunWindow(cc, pos, c) == cc.runlen[oct - 1][c - 1][8 * oct - pos..8 * oct + 1]
  {
    var oct := (pos + 7) / 8;
    assert RunlenShape(cc.runlen[oct - 1], 8 * oct);
    WindowInside(cc.runlen[oct - 1][c - 1], 8 * oct - pos, pos + 1);
  }

  lemma RunTable(s: CcSeed, cc: CcTables, oct: nat, c: nat)
    requires SeedShape(s) && WellFormed(cc) && BuiltFrom(s, cc) && 1 <= oct <= RUNLEN_TABLES && 1 <= c <= MAX_PULSES_PER_SF
    ensures |cc.runlen| == RUNLEN_TABLES && |cc.runlen[oct - 1]| == MAX_PULSES_PER_SF
    ensures Sum(RunPdf(8 * oct, c)) > 0 && cc.runlen[oct - 1][c - 1] == PdfCmf(RunPdf(8 * oct, c))
  {
    hide DcmfCmf, SplitPdf, SplitOf, AcbgRow, RunPdf, PdfCmf, CmfShape;
    assert RunlensOf(cc.runlen[oct - 1], 8 * oct);
    assert RunlenOf(cc.runlen[oct - 1][c - 1], 8 * oct, c);
  }

  lemma SplitsOfSeed(s: CcSeed, cc: CcTables, count: nat, start: nat, n: nat)
    requires SeedShape(s) && WellFormed(cc) && BuiltFrom(s, cc) && 1 <= count <= SPLIT_TABLES
    requires 2 <= n && start + n <= count - 2 * MinSplit(count) + 2
    ensures Sum(SplitPdf(count)) > 0 && SplitWindow(cc, count, start, n) == PdfCmf(SplitPdf(count))[start..start + n]
  {
    hide DcmfCmf, PdfCmf, SplitPdf;
    assert SplitOf(cc.splitCmfs[count - 1], count);
    WindowInside(cc.splitCmfs[count - 1], start, n);
  }

  /** A row of packed bytes by its own place. */
  lemma RowOf(b: seq<u8>, step: nat, r: nat, cmf: seq<u16>)
    requires step <= CMF_MAX && ChunkIs(b, step, r, cmf)
    ensures step * r + step <= |b| && cmf == DcmfCmf(b[step * r..step * r + step])
  {
    hide DcmfCmf;
  }

  /** The table set built from a seed of the right size is well formed and holds what the seed says. */
  method Build(s: CcSeed) returns (cc: CcTables)
    requires SeedShape(s)
    ensures WellFormed(cc) && BuiltFrom(s, cc)
  {
    hide DcmfCmf, PdfCmf, SplitOf, RunlenOf, ChunkIs;
    var gain := Dcmf(s.nrgresGain4);
    var shape := Dcmf(s.nrgresShape4);
    var v := Dcmf(s.fcbgainsV);
    var vDelta := Dcmf(s.fcbgainsVDelta);
    var offsets := DcmfChunks(s.fcbgOffset, FCBG_STEPS);
    var rows := DcmfChunks(s.acbgainsHr, ACBG_N);
    forall r | 0 <= r < 12 ensures offsets[r] == DcmfCmf(s.fcbgOffset[FCBG_STEPS * r..FCBG_STEPS * r + FCBG_STEPS]) {
      RowOf(s.fcbgOffset, FCBG_STEPS, r, offsets[r]);
    }
    forall r | 0 <= r <= ACBG_N ensures rows[r] == DcmfCmf(s.acbgainsHr[ACBG_N * r..ACBG_N * r + ACBG_N]) {
      RowOf(s.acbgainsHr, ACBG_N, r, rows[r]);
    }
    var acbg := Flatten(rows);
    var splits := CreateSplitCmfs();
    var runlen := BuildRunlen();
    cc := CcTables(gain, shape, offsets, acbg, v, vDelta, s.acbgainsCbHr, s.gainRecon, s.gainReconBase, splits, runlen);
    forall r | 0 <= r <= ACBG_N
      ensures CmfShape(AcbgRow(cc, r)) && AcbgRow(cc, r) == DcmfCmf(s.acbgainsHr[ACBG_N * r..ACBG_N * r + ACBG_N])
    {
      assert AcbgRow(cc, r) == rows[r];
    }
  }
}
