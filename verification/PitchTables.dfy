/** The pitch tables twice: as the encoder indexes them, and as the decoder finds them at absolute addresses. */
module PitchTables {
  import opened Words
  import opened Arith
  import opened RangeSpec
  import opened CdfSpec
  import opened CmfTables
  import RangeDecoder

  const CONTOURS := 217
  const NUM_BLOCKS := 9
  const BLOCK := 64
  const BLOCK_LAGS := 8

  /** A lag contour: runs of 40-sample blocks sharing a coarse lag. */
  datatype BlockSeg = BlockSeg(blocks: seq<nat>, seglens: seq<nat>)

  datatype PitchTables = PitchTables(
    segs: seq<BlockSeg>, toIdx: seq<u8>, ranges: seq<(u8, u8)>,
    idxCmf: seq<u16>, deltaCmfs: seq<seq<u16>>, moveCmfs: seq<seq<u16>>)

  predicate SegShape(s: BlockSeg)
  {
    && 1 <= |s.blocks| <= 6 && |s.seglens| == |s.blocks|
    && forall k :: 0 <= k < |s.blocks| ==> s.blocks[k] < NUM_BLOCKS && 1 <= s.seglens[k] <= 4
  }

  /** What the builders guarantee for any seed of the right size. */
  predicate Built(t: PitchTables)
  {
    && |t.segs| == CONTOURS && (forall c :: 0 <= c < CONTOURS ==> SegShape(t.segs[c]))
    && |t.toIdx| == CONTOURS && |t.ranges| == NUM_BLOCKS
    && CmfShape(t.idxCmf) && |t.idxCmf| == CONTOURS + 1
    && |t.deltaCmfs| == 3 && (forall m :: 0 <= m < 3 ==> CmfShape(t.deltaCmfs[m]) && |t.deltaCmfs[m]| == 320)
    && |t.moveCmfs| == NUM_BLOCKS && (forall b :: 0 <= b < NUM_BLOCKS ==> CmfShape(t.moveCmfs[b]) && |t.moveCmfs[b]| == 10)
  }

  /** Blocks covered by segments 0 .. k - 1. */
  function Covered(s: BlockSeg, k: nat): nat
    requires k <= |s.seglens|
  {
    if k == 0 then 0 else Covered(s, k - 1) + s.seglens[k - 1]
  }

  /** A block step small enough for a delta-coded lag. */
  predicate Near(from: int, to: int) { -1 <= to - from <= 2 }

  /** A contour covers the eight blocks of a frame in steps of -1 to 2. */
  predicate Contour(s: BlockSeg)
  {
    && SegShape(s) && Covered(s, |s.seglens|) == BLOCK_LAGS
    && forall k :: 0 < k < |s.blocks| ==> Near(s.blocks[k - 1], s.blocks[k])
  }

  /** What the seed itself promises: numbers 1 to 217 used once each, and the numbers grouped by first block. */
  predicate Consistent(t: PitchTables)
  {
    && Built(t)
    && (forall c :: 0 <= c < CONTOURS ==> Contour(t.segs[c]))
    && (forall c :: 0 <= c < CONTOURS ==> 1 <= t.toIdx[c] <= CONTOURS)
    && (forall a, b :: 0 <= a < b < CONTOURS ==> t.toIdx[a] != t.toIdx[b])
    && (forall b :: 0 <= b < NUM_BLOCKS ==> t.ranges[b].0 <= t.ranges[b].1 < CONTOURS)
    && (forall c, b :: 0 <= c < CONTOURS && 0 <= b < NUM_BLOCKS ==>
         (t.ranges[b].0 <= t.toIdx[c] - 1 <= t.ranges[b].1 <==> b == t.segs[c].blocks[0]))
  }

  // ---------------------------------------------------------------- the contour numbering is onto

  function Upto(n: nat): (s: set<int>)
    ensures |s| == n && forall x :: x in s <==> 1 <= x <= n
  {
    if n == 0 then {} else Upto(n - 1) + {n}
  }

  function Numbers(t: PitchTables, n: nat): (s: set<int>)
    requires Consistent(t) && n <= CONTOURS
    ensures |s| == n && forall x :: x in s <==> exists c :: 0 <= c < n && t.toIdx[c] == x
  {
    if n == 0 then {} else Numbers(t, n - 1) + {t.toIdx[n - 1]}
  }

  /** 217 different numbers out of 217: every lag symbol names a contour. */
  lemma Onto(t: PitchTables, lag: nat)
    requires Consistent(t) && lag < CONTOURS
    ensures exists c :: 0 <= c < CONTOURS && t.toIdx[c] == lag + 1
  {
    hide Built, Contour, Upto, Numbers;
    var used, all := Numbers(t, CONTOURS), Upto(CONTOURS);
    assert used <= all;
    SameSize(used, all);
    assert lag + 1 in used;
  }

  lemma SameSize(a: set<int>, b: set<int>)
    requires a <= b && |a| == |b|
    ensures a == b
  {
    assert b == a + (b - a);
  }

  /** First contour with number lag + 1, or -1. */
  function FindContour(t: PitchTables, lag: int, i: nat): (c: int)
    requires |t.toIdx| == CONTOURS && i <= CONTOURS
    ensures c == -1 || (i <= c < CONTOURS && t.toIdx[c] == lag + 1)
    ensures c == -1 ==> forall k :: i <= k < CONTOURS ==> t.toIdx[k] != lag + 1
    decreases CONTOURS - i
  {
    if i == CONTOURS then -1
    else if t.toIdx[i] == lag + 1 then i
    else FindContour(t, lag, i + 1)
  }

  /** Searching for a contour's own number finds that contour. */
  lemma FindsOwn(t: PitchTables, c: nat)
    requires Consistent(t) && c < CONTOURS
    ensures FindContour(t, t.toIdx[c] - 1, 0) == c
  {
    var f := FindContour(t, t.toIdx[c] - 1, 0);
    assert f != -1;
  }

  // ---------------------------------------------------------------- memory

  datatype Region = Region(base: u32, data: seq<u8>)

  /** A window onto absolute addresses. */
  datatype SmplMem = SmplMem(regions: seq<Region>)

  const PCFG: u32 := 0xba50ac
  const SEG_BASE: u32 := 0xba6de4
  const CONTOUR_MAP: u32 := 0xe7c10
  const LAG_CDF: u32 := 0xbaa7b0
  const FRAC_BASE: u32 := 0xbaa9be
  const DELTA_CDF: u32 := 0xbab13e
  const DELTA_BOUNDS: u32 := 0xe7ef0

  predicate Inside(r: Region, addr: u32, n: nat) { addr >= r.base && addr - r.base + n <= |r.data| }

  /** First region from k on that holds n bytes at addr. */
  function RegionFor(m: SmplMem, addr: u32, n: nat, k: nat): (j: int)
    requires k <= |m.regions|
    ensures j == -1 || (k <= j < |m.regions| && Inside(m.regions[j], addr, n))
    decreases |m.regions| - k
  {
    if k == |m.regions| then -1
    else if Inside(m.regions[k], addr, n) then k
    else RegionFor(m, addr, n, k + 1)
  }

  function ByteOf(m: SmplMem, addr: u32, n: nat, i: nat): u8
    requires i < n
  {
    var j := RegionFor(m, addr, n, 0);
    if j < 0 then 0 else m.regions[j].data[addr - m.regions[j].base + i]
  }

  function U8(m: SmplMem, addr: u32): u8 { ByteOf(m, addr, 1, 0) }

  /** Little endian; 0 outside every region. */
  function U16(m: SmplMem, addr: u32): u16 { ByteOf(m, addr, 2, 0) + 0x100 * ByteOf(m, addr, 2, 1) }

  function U32(m: SmplMem, addr: u32): u32
  {
    ByteOf(m, addr, 4, 0) + 0x100 * ByteOf(m, addr, 4, 1) + 0x1_0000 * ByteOf(m, addr, 4, 2) + 0x100_0000 * ByteOf(m, addr, 4, 3)
  }

  function I32(m: SmplMem, addr: u32): i32
  {
    var x: int := U32(m, addr);
    if x < 0x8000_0000 then x else x - WORD
  }

  /** n table entries from addr on, addresses wrapping at 2^32. */
  function CdfAt(m: SmplMem, addr: u32, n: nat): (cdf: seq<u16>)
    ensures |cdf| == n
  {
    seq(n, i requires 0 <= i < n => U16(m, (addr + i * 2) % WORD))
  }

  predicate Apart(m: SmplMem)
  {
    forall i, j :: 0 <= i < j < |m.regions| ==>
      m.regions[i].base + |m.regions[i].data| <= m.regions[j].base || m.regions[j].base + |m.regions[j].data| <= m.regions[i].base
  }

  /** With regions apart, an address inside one region reads from that region. */
  lemma {:induction false} FoundIn(m: SmplMem, addr: u32, n: nat, j: nat, k: nat)
    requires Apart(m) && k <= j < |m.regions| && n > 0 && Inside(m.regions[j], addr, n)
    ensures RegionFor(m, addr, n, k) == j
    decreases j - k
  {
    if k < j {
      assert m.regions[k].base + |m.regions[k].data| <= m.regions[j].base || m.regions[j].base + |m.regions[j].data| <= m.regions[k].base;
      FoundIn(m, addr, n, j, k + 1);
    }
  }

  /** Outside every region there are zeros. */
  lemma {:induction false} NotFound(m: SmplMem, addr: u32, n: nat, k: nat)
    requires k <= |m.regions| && forall j :: k <= j < |m.regions| ==> !Inside(m.regions[j], addr, n)
    ensures RegionFor(m, addr, n, k) == -1
    decreases |m.regions| - k
  {
    if k < |m.regions| { NotFound(m, addr, n, k + 1); }
  }

  lemma ZeroOutside(m: SmplMem, addr: u32)
    requires forall j :: 0 <= j < |m.regions| ==> !Inside(m.regions[j], addr, 2)
    ensures U16(m, addr) == 0
  {
    NotFound(m, addr, 2, 0);
  }

  // ---------------------------------------------------------------- the window of a table set

  function Bytes16(v: seq<u16>): (b: seq<u8>)
    ensures |b| == 2 * |v|
  {
    seq(2 * |v|, i requires 0 <= i < 2 * |v| => if i % 2 == 0 then v[i / 2] % 0x100 else v[i / 2] / 0x100)
  }

  function Bytes32(v: seq<u32>): (b: seq<u8>)
    ensures |b| == 4 * |v|
  {
    seq(4 * |v|, i requires 0 <= i < 4 * |v| =>
      if i % 4 == 0 then v[i / 4] % 0x100
      else if i % 4 == 1 then v[i / 4] / 0x100 % 0x100
      else if i % 4 == 2 then v[i / 4] / 0x1_0000 % 0x100
      else v[i / 4] / 0x100_0000)
  }

  /** Word j of a contour record: eight blocks, eight lengths, the number of segments. */
  function RecordWord(s: BlockSeg, j: nat): (x: u32)
    requires SegShape(s) && j < 17
  {
    if j < 8 then (if j < |s.blocks| then s.blocks[j] else 0)
    else if j < 16 then (if j - 8 < |s.seglens| then s.seglens[j - 8] else 0)
    else |s.blocks|
  }

  const HEADER: seq<u32> := [187, 217, CONTOUR_MAP, LAG_CDF, FRAC_BASE, 0xe7d20, 0xe7ef0, 0xe8096, DELTA_CDF]

  function RecordWords(t: PitchTables): (w: seq<u32>)
    requires Built(t)
    ensures |w| == 17 * CONTOURS
  {
    seq(17 * CONTOURS, i requires 0 <= i < 17 * CONTOURS => RecordWord(t.segs[i / 17], i % 17))
  }

  function FracWords(t: PitchTables): (w: seq<u16>)
    requires Built(t)
    ensures |w| == 960
  {
    seq(960, i requires 0 <= i < 960 => t.deltaCmfs[i / 320][i % 320])
  }

  function MoveWords(t: PitchTables): (w: seq<u16>)
    requires Built(t)
    ensures |w| == 90
  {
    seq(90, i requires 0 <= i < 90 => t.moveCmfs[i / 10][i % 10])
  }

  function BoundBytes(t: PitchTables): (b: seq<u8>)
    requires Built(t)
    ensures |b| == 20
  {
    seq(20, i requires 0 <= i < 20 => if i >= 18 then 0 else if i % 2 == 0 then t.ranges[i / 2].0 else t.ranges[i / 2].1)
  }

  function MemOf(t: PitchTables): (m: SmplMem)
    requires Built(t)
    ensures |m.regions| == 6 && Apart(m)
  {
    SmplMem([
      Region(SEG_BASE, Bytes32(RecordWords(t) + HEADER)),
      Region(LAG_CDF, Bytes16(t.idxCmf)),
      Region(FRAC_BASE, Bytes16(FracWords(t))),
      Region(DELTA_CDF, Bytes16(MoveWords(t))),
      Region(CONTOUR_MAP, t.toIdx),
      Region(DELTA_BOUNDS, BoundBytes(t))])
  }

  lemma Word16At(m: SmplMem, j: nat, v: seq<u16>, i: nat)
    requires Apart(m) && j < |m.regions| && m.regions[j].data == Bytes16(v) && i < |v| && m.regions[j].base + 2 * i < WORD
    ensures U16(m, m.regions[j].base + 2 * i) == v[i]
  {
    var r := m.regions[j];
    FoundIn(m, r.base + 2 * i, 2, j, 0);
    assert r.data[2 * i] == v[i] % 0x100 && r.data[2 * i + 1] == v[i] / 0x100;
  }

  lemma Word32At(m: SmplMem, j: nat, v: seq<u32>, i: nat)
    requires Apart(m) && j < |m.regions| && m.regions[j].data == Bytes32(v) && i < |v| && m.regions[j].base + 4 * i < WORD
    ensures U32(m, m.regions[j].base + 4 * i) == v[i]
  {
    var r := m.regions[j];
    hide RegionFor;
    FoundIn(m, r.base + 4 * i, 4, j, 0);
    assert r.data[4 * i] == v[i] % 0x100 && r.data[4 * i + 1] == v[i] / 0x100 % 0x100
      && r.data[4 * i + 2] == v[i] / 0x1_0000 % 0x100 && r.data[4 * i + 3] == v[i] / 0x100_0000;
    Rejoined(v[i]);
  }

  lemma Rejoined(x: u32)
    ensures x % 0x100 + 0x100 * (x / 0x100 % 0x100) + 0x1_0000 * (x / 0x1_0000 % 0x100) + 0x100_0000 * (x / 0x100_0000) == x
  {
    var a := x / 0x100;
    var b := a / 0x100;
    assert x / 0x1_0000 == b && x / 0x100_0000 == b / 0x100;
  }

  /** A table read through the window is the slice of the table that sits there. */
  lemma SliceAt(m: SmplMem, j: nat, v: seq<u16>, start: nat, n: nat)
    requires Apart(m) && j < |m.regions| && m.regions[j].data == Bytes16(v) && start + n <= |v|
    requires m.regions[j].base + 2 * |v| < WORD
    ensures m.regions[j].base + 2 * start < WORD && CdfAt(m, m.regions[j].base + 2 * start, n) == v[start..start + n]
  {
    var base := m.regions[j].base;
    var cdf := CdfAt(m, base + 2 * start, n);
    forall i | 0 <= i < n
      ensures cdf[i] == v[start..start + n][i]
    {
      Word16At(m, j, v, start + i);
      assert (base + 2 * start + i * 2) % WORD == base + 2 * (start + i);
    }
  }

  /** The six places the pitch decoder reads, in terms of the tables. */
  lemma HeaderAt(t: PitchTables)
    requires Built(t)
    ensures var m := MemOf(t);
      && U32(m, PCFG + 22240) == CONTOURS && U32(m, PCFG + 22244) == CONTOUR_MAP && U32(m, PCFG + 22248) == LAG_CDF
      && U32(m, PCFG + 22252) == FRAC_BASE && U32(m, PCFG + 22268) == DELTA_CDF
  {
    var m, w := MemOf(t), RecordWords(t) + HEADER;
    hide MemOf, RecordWords, U32, Bytes32;
    MemIs(t);
    Word32At(m, 0, w, 3690);
    Word32At(m, 0, w, 3691);
    Word32At(m, 0, w, 3692);
    Word32At(m, 0, w, 3693);
    Word32At(m, 0, w, 3697);
  }

  lemma MemIs(t: PitchTables)
    requires Built(t)
    ensures var m := MemOf(t);
      && |m.regions| == 6
      && m.regions[0] == Region(SEG_BASE, Bytes32(RecordWords(t) + HEADER)) && m.regions[1] == Region(LAG_CDF, Bytes16(t.idxCmf))
      && m.regions[2] == Region(FRAC_BASE, Bytes16(FracWords(t))) && m.regions[3] == Region(DELTA_CDF, Bytes16(MoveWords(t)))
      && m.regions[4] == Region(CONTOUR_MAP, t.toIdx) && m.regions[5] == Region(DELTA_BOUNDS, BoundBytes(t))
  {
  }

  lemma RecordAt(t: PitchTables, c: nat, j: nat)
    requires Built(t) && c < CONTOURS && j < 17
    ensures I32(MemOf(t), SEG_BASE + 0x44 * c + 4 * j) == RecordWord(t.segs[c], j)
  {
    hide MemOf, Built, Bytes32, U32;
    MemIs(t);
    var w, i := RecordWords(t) + HEADER, 17 * c + j;
    assert i / 17 == c && i % 17 == j;
    Word32At(MemOf(t), 0, w, i);
    RecordWordIs(t, i);
  }

  lemma RecordWordIs(t: PitchTables, i: nat)
    requires Built(t) && i < 17 * CONTOURS
    ensures RecordWords(t)[i] == RecordWord(t.segs[i / 17], i % 17) < 0x8000_0000
  {
    assert SegShape(t.segs[i / 17]);
  }

  lemma MapAt(t: PitchTables, i: nat)
    requires Built(t) && i < CONTOURS
    ensures U8(MemOf(t), CONTOUR_MAP + i) == t.toIdx[i]
  {
    FoundIn(MemOf(t), CONTOUR_MAP + i, 1, 4, 0);
  }

  lemma BoundsAt(t: PitchTables, b: nat)
    requires Built(t) && b < NUM_BLOCKS
    ensures U8(MemOf(t), DELTA_BOUNDS + 2 * b) == t.ranges[b].0 && U8(MemOf(t), DELTA_BOUNDS + 2 * b + 1) == t.ranges[b].1
  {
    FoundIn(MemOf(t), DELTA_BOUNDS + 2 * b, 1, 5, 0);
    FoundIn(MemOf(t), DELTA_BOUNDS + 2 * b + 1, 1, 5, 0);
  }

  lemma LagCdfAt(t: PitchTables, start: nat, n: nat)
    requires Built(t) && start + n <= CONTOURS + 1
    ensures CdfAt(MemOf(t), LAG_CDF + 2 * start, n) == t.idxCmf[start..start + n]
  {
    hide MemOf, CdfAt, Bytes16;
    MemIs(t);
    SliceAt(MemOf(t), 1, t.idxCmf, start, n);
  }

  lemma MoveCdfAt(t: PitchTables, b: nat)
    requires Built(t) && b < NUM_BLOCKS
    ensures CdfAt(MemOf(t), DELTA_CDF + 20 * b, 10) == t.moveCmfs[b]
  {
    hide MemOf, CdfAt, Bytes16;
    MemIs(t);
    SliceAt(MemOf(t), 3, MoveWords(t), 10 * b, 10);
    assert forall i :: 0 <= i < 10 ==> MoveWords(t)[10 * b..10 * b + 10][i] == t.moveCmfs[b][i];
  }

  lemma FracCdfAt(t: PitchTables, mode: nat, start: nat)
    requires Built(t) && mode < 3 && start + 65 <= 320
    ensures CdfAt(MemOf(t), FRAC_BASE + 0x280 * mode + 2 * start, 65) == t.deltaCmfs[mode][start..start + 65]
  {
    hide MemOf, CdfAt, Bytes16;
    MemIs(t);
    SliceAt(MemOf(t), 2, FracWords(t), 320 * mode + start, 65);
    var words, slice := FracWords(t)[320 * mode + start..320 * mode + start + 65], t.deltaCmfs[mode][start..start + 65];
    assert forall i :: 0 <= i < 65 ==> words[i] == slice[i];
  }
}
