/** Building both forms of the pitch tables from one seed. */
module PitchBuild {
  import opened Words
  import opened Arith
  import opened RangeSpec
  import opened CdfSpec
  import opened CmfTables
  import opened PitchTables
  import opened Reading
  import RangeDecoder

  /** Index maps and packed distributions; the contours are themselves range coded. */
  datatype PitchSeed = PitchSeed(
    bitstream: seq<u8>, toIdx: seq<u8>, ranges: seq<(u8, u8)>, idxDcmf: seq<u8>, deltaDcmfs: seq<u8>, moveDcmfs: seq<u8>)

  predicate SeedShape(s: PitchSeed)
  {
    && |s.toIdx| == CONTOURS && |s.ranges| == NUM_BLOCKS && |s.idxDcmf| == CONTOURS
    && |s.deltaDcmfs| == 3 * 319 && |s.moveDcmfs| == NUM_BLOCKS * NUM_BLOCKS
  }

  // ---------------------------------------------------------------- contours off the bitstream

  function PairsOf(d: Dec, n: nat, acc: BlockSeg): (r: (Dec, BlockSeg))
    requires DecRange(d)
    ensures DecRange(r.0)
    decreases n
  {
    if n == 0 then (d, acc)
    else
      var (d1, b) := DecodeUniform(d, 9);
      var (d2, l) := DecodeUniform(d1, 4);
      PairsOf(d2, n - 1, BlockSeg(acc.blocks + [b], acc.seglens + [l + 1]))
  }

  function SegOf(d: Dec): (r: (Dec, BlockSeg))
    requires DecRange(d)
    ensures DecRange(r.0)
  {
    var (d1, n) := DecodeUniform(d, 6);
    PairsOf(d1, n + 1, BlockSeg([], []))
  }

  function SegsOf(d: Dec, n: nat, acc: seq<BlockSeg>): (segs: seq<BlockSeg>)
    requires DecRange(d)
    ensures |segs| == |acc| + n
    decreases n
  {
    if n == 0 then acc
    else
      var (d1, s) := SegOf(d);
      SegsOf(d1, n - 1, acc + [s])
  }

  predicate Pairs(s: BlockSeg, n: nat)
  {
    |s.blocks| == |s.seglens| == n && forall k :: 0 <= k < n ==> s.blocks[k] < NUM_BLOCKS && 1 <= s.seglens[k] <= 4
  }

  lemma PairsGrow(acc: BlockSeg, b: nat, l: nat)
    requires Pairs(acc, |acc.blocks|) && b < NUM_BLOCKS && 1 <= l <= 4
    ensures var s := BlockSeg(acc.blocks + [b], acc.seglens + [l]); Pairs(s, |s.blocks|) && |s.blocks| == |acc.blocks| + 1
  {
  }

  lemma {:induction false} PairsShape(d: Dec, n: nat, acc: BlockSeg)
    requires DecRange(d) && Pairs(acc, |acc.blocks|)
    ensures Pairs(PairsOf(d, n, acc).1, |acc.blocks| + n)
    decreases n
  {
    hide DecodeUniform, Pairs;
    if n > 0 {
      var (d1, b) := DecodeUniform(d, 9);
      var (d2, l) := DecodeUniform(d1, 4);
      PairsGrow(acc, b, l + 1);
      PairsShape(d2, n - 1, BlockSeg(acc.blocks + [b], acc.seglens + [l + 1]));
    }
  }

  /** Whatever the bitstream holds, what comes off it has the shape of a contour. */
  lemma {:induction false} SegsShape(d: Dec, n: nat, acc: seq<BlockSeg>)
    requires DecRange(d) && forall i :: 0 <= i < |acc| ==> SegShape(acc[i])
    ensures forall i :: 0 <= i < |SegsOf(d, n, acc)| ==> SegShape(SegsOf(d, n, acc)[i])
    decreases n
  {
    hide DecodeUniform, PairsOf;
    if n > 0 {
      var (d1, k) := DecodeUniform(d, 6);
      assert Pairs(BlockSeg([], []), 0);
      PairsShape(d1, k + 1, BlockSeg([], []));
      var (d2, s) := SegOf(d);
      assert SegShape(s);
      SegsShape(d2, n - 1, acc + [s]);
    }
  }

  // ---------------------------------------------------------------- the bitstream that codes given contours

  /** Block and length of the pairs from k on: one of nine, and one of four less one. */
  function PairOps(s: BlockSeg, k: nat): (ops: seq<Op>)
    requires SegShape(s) && k <= |s.blocks|
    ensures AllCodable(ops)
    decreases |s.blocks| - k
  {
    if k == |s.blocks| then []
    else [Sym(s.blocks[k], s.blocks[k] + 1, 9)] + ([Sym(s.seglens[k] - 1, s.seglens[k], 4)] + PairOps(s, k + 1))
  }

  /** The number of pairs, one of six less one, then the pairs. */
  function ContourOps(s: BlockSeg): (ops: seq<Op>)
    requires SegShape(s)
    ensures AllCodable(ops)
  {
    [Sym(|s.blocks| - 1, |s.blocks|, 6)] + PairOps(s, 0)
  }

  function ContoursOps(segs: seq<BlockSeg>): (ops: seq<Op>)
    requires forall i :: 0 <= i < |segs| ==> SegShape(segs[i])
    ensures AllCodable(ops)
    decreases |segs|
  {
    if segs == [] then [] else CatCodable(ContourOps(segs[0]), ContoursOps(segs[1..])); ContourOps(segs[0]) + ContoursOps(segs[1..])
  }

  lemma {:induction false} PairsRead(d: Dec, s: BlockSeg, k: nat, e: Dec)
    requires DecRange(d) && SegShape(s) && k <= |s.blocks| && Reads(d, PairOps(s, k), e)
    ensures PairsOf(d, |s.blocks| - k, BlockSeg(s.blocks[..k], s.seglens[..k])) == (e, s)
    decreases |s.blocks| - k
  {
    hide Reads, DecodeUniform, PairsOf, PairOps;
    var acc := BlockSeg(s.blocks[..k], s.seglens[..k]);
    PairUnfolds(s, k);
    if k == |s.blocks| {
      NothingRead(d, [], e);
      NoPairs(d, acc);
      assert acc == s;
    } else {
      var a, b := [Sym(s.blocks[k], s.blocks[k] + 1, 9)], [Sym(s.seglens[k] - 1, s.seglens[k], 4)];
      var m1 := SplitAt(d, a, b + PairOps(s, k + 1), e);
      var m2 := SplitAt(m1, b, PairOps(s, k + 1), e);
      ReadUniform(d, s.blocks[k], 9, m1);
      ReadUniform(m1, s.seglens[k] - 1, 4, m2);
      PairsRead(m2, s, k + 1, e);
      assert s.blocks[..k + 1] == acc.blocks + [s.blocks[k]] && s.seglens[..k + 1] == acc.seglens + [s.seglens[k]];
      PairStep(d, |s.blocks| - k, acc);
    }
  }

  lemma PairUnfolds(s: BlockSeg, k: nat)
    requires SegShape(s) && k <= |s.blocks|
    ensures k == |s.blocks| ==> PairOps(s, k) == []
    ensures k < |s.blocks| ==>
      var a, b := [Sym(s.blocks[k], s.blocks[k] + 1, 9)], [Sym(s.seglens[k] - 1, s.seglens[k], 4)];
      AllCodable(a) && AllCodable(b) && AllCodable(b + PairOps(s, k + 1)) && PairOps(s, k) == a + (b + PairOps(s, k + 1))
  {
  }

  lemma ContourRead(d: Dec, s: BlockSeg, e: Dec)
    requires DecRange(d) && SegShape(s) && Reads(d, ContourOps(s), e)
    ensures SegOf(d) == (e, s)
  {
    hide Reads, DecodeUniform, PairsOf, PairOps;
    var n := |s.blocks|;
    var m := SplitAt(d, [Sym(n - 1, n, 6)], PairOps(s, 0), e);
    ReadUniform(d, n - 1, 6, m);
    PairsRead(m, s, 0, e);
    assert s.blocks[..0] == [] && s.seglens[..0] == [];
  }

  /** Contours coded pair by pair come off the bitstream as they went in. */
  lemma {:induction false} ContoursRead(d: Dec, segs: seq<BlockSeg>, acc: seq<BlockSeg>, e: Dec)
    requires DecRange(d) && (forall i :: 0 <= i < |segs| ==> SegShape(segs[i])) && Reads(d, ContoursOps(segs), e)
    ensures SegsOf(d, |segs|, acc) == acc + segs
    decreases |segs|
  {
    hide Reads, SegOf, ContourOps;
    if segs == [] {
      assert acc + segs == acc;
    } else {
      var m := SplitAt(d, ContourOps(segs[0]), ContoursOps(segs[1..]), e);
      ContourRead(d, segs[0], m);
      ContoursRead(m, segs[1..], acc + [segs[0]], e);
      assert acc + segs == acc + [segs[0]] + segs[1..];
    }
  }

  // ---------------------------------------------------------------- the tables of a seed

  function TablesOf(s: PitchSeed): (t: PitchTables)
    requires SeedShape(s)
    ensures |t.deltaCmfs| == 3 && |t.moveCmfs| == NUM_BLOCKS
  {
    hide DcmfCmf, SegsOf, NewDec, CmfShape;
    PitchTables(
      SegsOf(NewDec(s.bitstream), CONTOURS, []), s.toIdx, s.ranges, DcmfCmf(s.idxDcmf),
      seq(3, r requires 0 <= r < 3 => DcmfCmf(Chunk(s.deltaDcmfs, 319, r))),
      seq(NUM_BLOCKS, r requires 0 <= r < NUM_BLOCKS => DcmfCmf(Chunk(s.moveDcmfs, NUM_BLOCKS, r))))
  }

  lemma TablesBuilt(s: PitchSeed)
    requires SeedShape(s)
    ensures Built(TablesOf(s))
  {
    hide DcmfCmf, SegsOf, NewDec;
    SegsShape(NewDec(s.bitstream), CONTOURS, []);
  }

  /** The bitstream codes these contours, and behind them the decoder stands at e. */
  ghost predicate Holds(bitstream: seq<u8>, segs: seq<BlockSeg>, e: Dec)
  {
    |segs| == CONTOURS && (forall i :: 0 <= i < |segs| ==> SegShape(segs[i])) && Reads(NewDec(bitstream), ContoursOps(segs), e)
  }

  /** The contours of a seed are those its bitstream codes. */
  lemma ContoursFromSeed(s: PitchSeed, segs: seq<BlockSeg>, e: Dec)
    requires SeedShape(s) && Holds(s.bitstream, segs, e)
    ensures TablesOf(s).segs == segs
  {
    hide DcmfCmf, SegsOf, Reads, ContoursOps, NewDec;
    ContoursRead(NewDec(s.bitstream), segs, [], e);
    assert [] + segs == segs;
  }

  /** The maps of a seed come out as they are, and its distributions expanded row by row under their own names. */
  lemma TablesFromSeed(s: PitchSeed, m: nat, b: nat)
    requires SeedShape(s) && m < 3 && b < NUM_BLOCKS
    ensures m * 319 + 319 <= |s.deltaDcmfs| && b * NUM_BLOCKS + NUM_BLOCKS <= |s.moveDcmfs|
    ensures TablesOf(s).toIdx == s.toIdx && TablesOf(s).ranges == s.ranges && TablesOf(s).idxCmf == DcmfCmf(s.idxDcmf)
    ensures TablesOf(s).deltaCmfs[m] == DcmfCmf(Chunk(s.deltaDcmfs, 319, m))
    ensures TablesOf(s).moveCmfs[b] == DcmfCmf(Chunk(s.moveDcmfs, NUM_BLOCKS, b))
  {
    hide DcmfCmf, SegsOf, NewDec, CmfShape, Chunk;
  }

  method EcDecodeUniform(dec: RangeDecoder.RangeDecoder, n: nat) returns (v: nat)
    requires dec.Valid() && 0 < n <= BOT
    modifies dec
    ensures dec.Valid() && (dec.State(), v) == DecodeUniform(old(dec.State()), n)
  {
    v := dec.DecodeCell(n);
  }

  method DecodeBlockseg(dec: RangeDecoder.RangeDecoder) returns (seg: BlockSeg)
    requires dec.Valid()
    modifies dec
    ensures dec.Valid() && (dec.State(), seg) == SegOf(old(dec.State()))
  {
    hide DecodeUniform, PairsOf, RangeDecoder.RangeDecoder.Valid, RangeDecoder.RangeDecoder.State;
    var length := EcDecodeUniform(dec, 6);
    length := length + 1;
    var blocks: seq<nat>, seglens: seq<nat> := [], [];
    ghost var goal := PairsOf(dec.State(), length, BlockSeg([], []));
    for j := 0 to length
      invariant dec.Valid() && PairsOf(dec.State(), length - j, BlockSeg(blocks, seglens)) == goal
    {
      PairStep(dec.State(), length - j, BlockSeg(blocks, seglens));
      var b := EcDecodeUniform(dec, 9);
      blocks := blocks + [b];
      var l := EcDecodeUniform(dec, 4);
      seglens := seglens + [l + 1];
    }
    NoPairs(dec.State(), BlockSeg(blocks, seglens));
    seg := BlockSeg(blocks, seglens);
  }

  lemma NoPairs(d: Dec, acc: BlockSeg)
    requires DecRange(d)
    ensures PairsOf(d, 0, acc) == (d, acc)
  {
  }

  lemma PairStep(d: Dec, n: nat, acc: BlockSeg)
    requires DecRange(d) && n > 0
    ensures var (d1, b) := DecodeUniform(d, 9);
      DecRange(d1) && var (d2, l) := DecodeUniform(d1, 4);
      DecRange(d2) && PairsOf(d, n, acc) == PairsOf(d2, n - 1, BlockSeg(acc.blocks + [b], acc.seglens + [l + 1]))
  {
    hide DecodeUniform;
  }

  method DecodeBlocksegs(bitstream: seq<u8>) returns (segs: seq<BlockSeg>)
    ensures segs == SegsOf(NewDec(bitstream), CONTOURS, [])
  {
    hide SegOf, SegsOf, RangeDecoder.RangeDecoder.Valid, RangeDecoder.RangeDecoder.State, NewDec;
    var dec := new RangeDecoder.RangeDecoder(bitstream);
    segs := [];
    for i := 0 to CONTOURS
      invariant dec.Valid() && SegsOf(dec.State(), CONTOURS - i, segs) == SegsOf(NewDec(bitstream), CONTOURS, [])
    {
      SegsStep(dec.State(), CONTOURS - i, segs);
      var s := DecodeBlockseg(dec);
      segs := segs + [s];
    }
    SegsStep(dec.State(), 0, segs);
  }

  lemma SegsStep(d: Dec, n: nat, acc: seq<BlockSeg>)
    requires DecRange(d)
    ensures n == 0 ==> SegsOf(d, n, acc) == acc
    ensures n > 0 ==> var (d1, s) := SegOf(d); DecRange(d1) && SegsOf(d, n, acc) == SegsOf(d1, n - 1, acc + [s])
  {
    hide SegOf;
  }

  /** Consecutive chunks of a packed array, each expanded. */
  method ExpandChunks(b: seq<u8>, step: nat, count: nat) returns (cmfs: seq<seq<u16>>)
    requires 1 <= step <= CMF_MAX && |b| == count * step
    ensures |cmfs| == count
    ensures forall r :: 0 <= r < count ==> ChunkIs(b, step, r, cmfs[r])
  {
    hide DcmfCmf, ChunkIs;
    cmfs := [];
    var i := 0;
    while i + step <= |b|
      invariant 0 <= |cmfs| <= count && i == |cmfs| * step <= |b|
      invariant forall r :: 0 <= r < |cmfs| ==> ChunkIs(b, step, r, cmfs[r])
      decreases |b| - i
    {
      BelowCount(|cmfs|, count, step);
      var wide := PitchDcmfToCmf(b[i..i + step]);
      var cmf := U16s(wide);
      assert cmf == DcmfCmf(b[i..i + step]);
      ChunkHere(b, step, |cmfs|, i, cmf);
      cmfs := cmfs + [cmf];
      i := i + step;
    }
    AllChunks(|cmfs|, count, step);
  }

  lemma BelowCount(n: nat, count: nat, step: nat)
    requires n * step + step <= count * step && step > 0
    ensures n < count
  {
    if n >= count { MulMono(count, n, step); }
  }

  lemma AllChunks(n: nat, count: nat, step: nat)
    requires n <= count && count * step < n * step + step && step > 0
    ensures n == count
  {
    if n < count { MulMono(n + 1, count, step); }
  }

  /** Table entries fit 16 bits. */
  method U16s(wide: array<u32>) returns (cmf: seq<u16>)
    requires forall i :: 0 <= i < wide.Length ==> wide[i] < 0x1_0000
    ensures |cmf| == wide.Length && forall i :: 0 <= i < wide.Length ==> cmf[i] == wide[i]
  {
    cmf := [];
    for i := 0 to wide.Length
      invariant |cmf| == i && forall k :: 0 <= k < i ==> cmf[k] == wide[k]
    {
      cmf := cmf + [wide[i]];
    }
  }

  /** The logical tables. */
  method BuildPitchTables(s: PitchSeed) returns (t: PitchTables)
    requires SeedShape(s)
    ensures t == TablesOf(s) && Built(t)
  {
    hide DcmfCmf, SegsOf, NewDec;
    TablesBuilt(s);
    var segs := DecodeBlocksegs(s.bitstream);
    var wide := PitchDcmfToCmf(s.idxDcmf);
    var idxCmf := U16s(wide);
    assert idxCmf == DcmfCmf(s.idxDcmf);
    var deltaCmfs := ExpandChunks(s.deltaDcmfs, 319, 3);
    var moveCmfs := ExpandChunks(s.moveDcmfs, NUM_BLOCKS, NUM_BLOCKS);
    t := PitchTables(segs, s.toIdx, s.ranges, idxCmf, deltaCmfs, moveCmfs);
    assert deltaCmfs == TablesOf(s).deltaCmfs;
    assert moveCmfs == TablesOf(s).moveCmfs;
  }

  // ---------------------------------------------------------------- the address window

  function Le32(x: u32): (b: seq<u8>) { [x % 0x100, x / 0x100 % 0x100, x / 0x1_0000 % 0x100, x / 0x100_0000] }

  lemma Bytes32Snoc(w: seq<u32>, x: u32)
    ensures Bytes32(w + [x]) == Bytes32(w) + Le32(x)
  {
  }

  method Put32(r0: seq<u8>, x: u32, ghost w: seq<u32>) returns (r1: seq<u8>)
    requires r0 == Bytes32(w)
    ensures r1 == Bytes32(w + [x])
  {
    Bytes32Snoc(w, x);
    r1 := r0 + [x % 0x100, x / 0x100 % 0x100, x / 0x1_0000 % 0x100, x / 0x100_0000];
  }

  /** One contour's record: eight blocks, eight lengths, the count, missing ones zero. */
  method PutRecord(r0: seq<u8>, seg: BlockSeg, ghost w: seq<u32>) returns (r1: seq<u8>, ghost w1: seq<u32>)
    requires SegShape(seg) && r0 == Bytes32(w)
    ensures r1 == Bytes32(w1) && |w1| == |w| + 17 && w1[..|w|] == w && forall j :: 0 <= j < 17 ==> w1[|w| + j] == RecordWord(seg, j)
  {
    hide Bytes32;
    r1, w1 := r0, w;
    for i := 0 to 8
      invariant r1 == Bytes32(w1) && |w1| == |w| + i && w1[..|w|] == w && forall j :: 0 <= j < i ==> w1[|w| + j] == RecordWord(seg, j)
    {
      var v := 0;
      if i < |seg.blocks| { v := seg.blocks[i]; }
      r1 := Put32(r1, v, w1);
      w1 := w1 + [v];
    }
    for i := 0 to 8
      invariant r1 == Bytes32(w1) && |w1| == |w| + 8 + i && w1[..|w|] == w && forall j :: 0 <= j < 8 + i ==> w1[|w| + j] == RecordWord(seg, j)
    {
      var v := 0;
      if i < |seg.seglens| { v := seg.seglens[i]; }
      r1 := Put32(r1, v, w1);
      w1 := w1 + [v];
    }
    r1 := Put32(r1, |seg.blocks|, w1);
    w1 := w1 + [|seg.blocks|];
  }

  method PutHeader(r0: seq<u8>, ghost w: seq<u32>) returns (r1: seq<u8>)
    requires r0 == Bytes32(w)
    ensures r1 == Bytes32(w + HEADER)
  {
    hide Bytes32;
    r1 := r0;
    var h: seq<u32> := [187, 217, CONTOUR_MAP, LAG_CDF, FRAC_BASE, 0xe7d20, 0xe7ef0, 0xe8096, DELTA_CDF];
    assert w + h[..0] == w;
    for i := 0 to |h|
      invariant r1 == Bytes32(w + h[..i])
    {
      assert w + h[..i + 1] == w + h[..i] + [h[i]];
      r1 := Put32(r1, h[i], w + h[..i]);
    }
    assert h[..|h|] == h;
  }

  method U16Bytes(v: seq<u16>) returns (b: seq<u8>)
    ensures b == Bytes16(v)
  {
    b := [];
    for i := 0 to |v|
      invariant b == Bytes16(v[..i])
    {
      assert Bytes16(v[..i + 1]) == Bytes16(v[..i]) + [v[i] % 0x100, v[i] / 0x100];
      b := b + [v[i] % 0x100, v[i] / 0x100];
    }
    assert v[..|v|] == v;
  }

  method FracConcat(t: PitchTables) returns (frac: seq<u16>)
    requires Built(t)
    ensures frac == FracWords(t)
  {
    frac := [];
    for m := 0 to 3
      invariant |frac| == 320 * m && forall i :: 0 <= i < |frac| ==> frac[i] == t.deltaCmfs[i / 320][i % 320]
    {
      frac := frac + t.deltaCmfs[m];
    }
  }

  method MoveConcat(t: PitchTables) returns (delta: seq<u16>)
    requires Built(t)
    ensures delta == MoveWords(t)
  {
    delta := [];
    for b := 0 to NUM_BLOCKS
      invariant |delta| == 10 * b && forall i :: 0 <= i < |delta| ==> delta[i] == t.moveCmfs[i / 10][i % 10]
    {
      delta := delta + t.moveCmfs[b];
    }
  }

  method BoundsConcat(t: PitchTables) returns (bounds: seq<u8>)
    requires Built(t)
    ensures bounds == BoundBytes(t)
  {
    bounds := [];
    for b := 0 to NUM_BLOCKS
      invariant |bounds| == 2 * b
      invariant forall i :: 0 <= i < |bounds| ==> bounds[i] == if i % 2 == 0 then t.ranges[i / 2].0 else t.ranges[i / 2].1
    {
      bounds := bounds + [t.ranges[b].0, t.ranges[b].1];
    }
    bounds := bounds + [0, 0];
  }

  method Records(t: PitchTables) returns (r0: seq<u8>)
    requires Built(t)
    ensures r0 == Bytes32(RecordWords(t))
  {
    hide Bytes32;
    r0 := [];
    ghost var w: seq<u32> := [];
    NoBytes();
    for c := 0 to CONTOURS
      invariant r0 == Bytes32(w) && |w| == 17 * c && forall i :: 0 <= i < |w| ==> w[i] == RecordWord(t.segs[i / 17], i % 17)
    {
      ghost var before := w;
      r0, w := PutRecord(r0, t.segs[c], w);
      forall i | 0 <= i < |w| ensures w[i] == RecordWord(t.segs[i / 17], i % 17) {
        if i < |before| { assert w[i] == w[..|before|][i]; } else { assert w[|before| + (i - |before|)] == RecordWord(t.segs[c], i - 17 * c); }
      }
    }
    assert w == RecordWords(t);
  }

  lemma NoBytes()
    ensures Bytes32([]) == []
  {
  }

  /** The window the pitch decoder reads, laid out byte by byte at the fixed addresses. */
  method BuildSmplMem(t: PitchTables) returns (mem: SmplMem)
    requires Built(t)
    ensures mem == MemOf(t)
  {
    hide Bytes32, Bytes16, RecordWords, FracWords, MoveWords, BoundBytes;
    var r0 := Records(t);
    r0 := PutHeader(r0, RecordWords(t));
    var lag := U16Bytes(t.idxCmf);
    var fracWords := FracConcat(t);
    var frac := U16Bytes(fracWords);
    var moveWords := MoveConcat(t);
    var delta := U16Bytes(moveWords);
    var bounds := BoundsConcat(t);
    mem := SmplMem([Region(PCFG + 0x1d38, r0), Region(LAG_CDF, lag), Region(FRAC_BASE, frac), Region(DELTA_CDF, delta),
                    Region(CONTOUR_MAP, t.toIdx), Region(DELTA_BOUNDS, bounds)]);
  }

  /** Both forms come from the same seed, so they describe the same tables. */
  method BuildBoth(s: PitchSeed) returns (t: PitchTables, mem: SmplMem)
    requires SeedShape(s)
    ensures t == TablesOf(s) && Built(t) && mem == MemOf(t)
  {
    t := BuildPitchTables(s);
    var again := BuildPitchTables(s);
    mem := BuildSmplMem(again);
  }
}
