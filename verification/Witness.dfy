/** A table set that meets every well-formedness predicate, so no theorem stated over such tables is empty. */
module Witness {
  import opened Words
  import opened Arith
  import opened CdfSpec
  import opened CmfTables
  import opened CcTables
  import opened PitchTables
  import Lsf
  import Frame

  /** The cumulative table of n equally likely symbols. */
  function Flat(n: nat): (cmf: seq<u16>)
    requires n < CMF_MAX
    ensures |cmf| == n + 1 && forall i :: 0 <= i <= n ==> cmf[i] == i
  {
    seq(n + 1, i requires 0 <= i < n + 1 => i as u16)
  }

  lemma FlatShape(n: nat)
    requires n < CMF_MAX
    ensures CmfShape(Flat(n)) && (n >= 1 ==> Strict(Flat(n)) && Table(Flat(n)))
  {
  }

  function ExampleSplit(): (t: seq<seq<u16>>)
    ensures |t| == SPLIT_TABLES
  {
    seq(SPLIT_TABLES, i requires 0 <= i < SPLIT_TABLES => Flat(i + 2 - 2 * MinSplit(i + 1)))
  }

  function ExampleRunlen(): (t: seq<seq<seq<u16>>>)
    ensures |t| == RUNLEN_TABLES
  {
    seq(RUNLEN_TABLES, o requires 0 <= o < RUNLEN_TABLES => seq(MAX_PULSES_PER_SF, _ => Flat(8 * (o + 1))))
  }

  function ExampleCc(): CcTables
  {
    CcTables(Flat(1), Flat(1), seq(12, _ => Flat(FCBG_STEPS)),
             seq((ACBG_N + 1) * (ACBG_N + 1), i requires 0 <= i < (ACBG_N + 1) * (ACBG_N + 1) => (i % (ACBG_N + 1)) as u16),
             Flat(FCBG_N), Flat(2 * FCBG_N - 1), seq(2 * ACBG_N, _ => 0), [], 0, ExampleSplit(), ExampleRunlen())
  }

  lemma SplitOk()
    ensures SplitShape(ExampleSplit())
  {
    forall i | 0 <= i < SPLIT_TABLES ensures CmfShape(ExampleSplit()[i]) { FlatShape(i + 2 - 2 * MinSplit(i + 1)); }
  }

  lemma RunlenOk()
    ensures forall o :: 0 <= o < RUNLEN_TABLES ==> RunlenShape(ExampleRunlen()[o], 8 * (o + 1))
  {
    forall o | 0 <= o < RUNLEN_TABLES ensures RunlenShape(ExampleRunlen()[o], 8 * (o + 1)) { FlatShape(8 * (o + 1)); }
  }

  lemma CcOk()
    ensures WellFormed(ExampleCc())
  {
    hide SplitShape, RunlenShape;
    var cc := ExampleCc();
    SplitOk();
    RunlenOk();
    FlatShape(1);
    FlatShape(FCBG_STEPS);
    FlatShape(FCBG_N);
    FlatShape(2 * FCBG_N - 1);
    FlatShape(ACBG_N);
    forall r | 0 <= r <= ACBG_N ensures CmfShape(AcbgRow(cc, r)) {
      forall i | 0 <= i < ACBG_N + 1 ensures AcbgRow(cc, r)[i] == Flat(ACBG_N)[i] {
        DivModUnique(r * (ACBG_N + 1) + i, ACBG_N + 1, r, i);
      }
      assert AcbgRow(cc, r) == Flat(ACBG_N);
    }
  }

  function ExampleLsf(): Lsf.LsfTables
  {
    var rows := [seq(Lsf.LSF_ORDER, _ => Flat(2))];
    Lsf.LsfTables([Flat(2), Flat(2), Flat(2)], Lsf.LsfGrid(Flat(1), Flat(1), Flat(1), Flat(1)), [[rows, rows], [rows, rows]], Flat(2))
  }

  lemma LsfOk()
    ensures Lsf.WellFormed(ExampleLsf())
  {
    FlatShape(1);
    FlatShape(2);
  }

  /** Twenty-five contours to a starting block, the last block taking what is left. */
  function BlockOf(c: nat): nat { Min(c / 25, NUM_BLOCKS - 1) }

  function ExamplePitch(): PitchTables
  {
    PitchTables(
      seq(CONTOURS, c requires 0 <= c < CONTOURS => BlockSeg([BlockOf(c), BlockOf(c)], [4, 4])),
      seq(CONTOURS, c requires 0 <= c < CONTOURS => (c + 1) as u8),
      seq(NUM_BLOCKS, b requires 0 <= b < NUM_BLOCKS => ((25 * b) as u8, (if b < NUM_BLOCKS - 1 then 25 * b + 24 else CONTOURS - 1) as u8)),
      Flat(CONTOURS), seq(3, _ => Flat(319)), seq(NUM_BLOCKS, _ => Flat(9)))
  }

  lemma ContourOk(b: nat)
    requires b < NUM_BLOCKS
    ensures Contour(BlockSeg([b, b], [4, 4]))
  {
    var s := BlockSeg([b, b], [4, 4]);
    assert Covered(s, 1) == Covered(s, 0) + 4;
    assert Covered(s, 2) == 8;
  }

  lemma PitchOk()
    ensures Consistent(ExamplePitch())
  {
    hide Contour, SegShape;
    FlatShape(CONTOURS);
    FlatShape(319);
    FlatShape(9);
    var t := ExamplePitch();
    forall c | 0 <= c < CONTOURS ensures SegShape(t.segs[c]) && Contour(t.segs[c]) {
      ContourOk(BlockOf(c));
      ContourShape(t.segs[c]);
    }
  }

  lemma ContourShape(s: BlockSeg)
    requires Contour(s)
    ensures SegShape(s)
  {
  }

  /** Well-formed, consistent tables exist. */
  lemma GoodExists() returns (tb: Frame.FrameTables)
    ensures Frame.Good(tb)
  {
    hide WellFormed, Lsf.WellFormed, Consistent;
    tb := Frame.FrameTables(ExampleLsf(), ExampleCc(), ExamplePitch());
    CcOk();
    LsfOk();
    PitchOk();
  }
}
