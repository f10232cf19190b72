/** Which symbols the encoder's normalising loop ends on, empty cells included. */
module RangeTermination {
  import opened Arith
  import opened CdfSpec
  import opened RangeSpec
  import opened Words

  /** Width of the range after the cell fl .. fh of ft is entered; the first cell takes what the division leaves over. */
  function CellRange(rng: nat, fl: nat, fh: nat, ft: nat): int
    requires ft > 0
  {
    var r := rng / ft;
    if fl > 0 then r * (fh - fl) else rng - r * (ft - fh)
  }

  /** An empty cell with nothing left over. */
  predicate Stalls(rng: nat, fl: nat, fh: nat, ft: nat)
    requires ft > 0
  {
    fl == fh && (fl > 0 || rng % ft == 0)
  }

  lemma CellRangeZero(rng: nat, fl: nat, fh: nat, ft: nat)
    requires 0 < ft <= BOT < rng && fl <= fh <= ft
    ensures 0 <= CellRange(rng, fl, fh, ft) <= rng
    ensures CellRange(rng, fl, fh, ft) == 0 <==> Stalls(rng, fl, fh, ft)
  {
    var r := rng / ft;
    DivBounds(rng, ft);
    if r <= 0 { MulMono(r, 0, ft); }
    MulMono(0, fh - fl, r);
    MulMono(fh - fl, ft, r);
    MulMono(ft - fh, ft, r);
    if fl > 0 && fh > fl { MulMono(1, fh - fl, r); }
    if fl == 0 && fh > 0 {
      MulMono(ft - fh, ft - 1, r);
      MulDist(r, ft, 1);
    }
  }

  /** The state the loop starts from. */
  function Entered(e: Enc, fl: nat, fh: nat, ft: nat): Enc
    requires EncRange(e) && 0 < ft <= BOT && fl <= fh <= ft
  {
    CellRangeZero(e.rng, fl, fh, ft);
    e.(val := if fl > 0 then Later(e, fl, ft) else e.val, rng := CellRange(e.rng, fl, fh, ft))
  }

  /** The bottom of a cell behind the first. */
  function Later(e: Enc, fl: nat, ft: nat): nat
    requires EncRange(e) && 0 < ft <= BOT && fl <= ft
  {
    DivBounds(e.rng, ft);
    MulMono(ft - fl, ft, e.rng / ft);
    e.val + e.rng - e.rng / ft * (ft - fl)
  }

  /** On a cell with a width this is the step of the state machine. */
  lemma EnteredIsEncode(e: Enc, fl: nat, fh: nat, ft: nat)
    requires EncRange(e) && Codable(Sym(fl, fh, ft))
    ensures Entered(e, fl, fh, ft).rng > 0 && Encode(e, Sym(fl, fh, ft)) == Normalize(Entered(e, fl, fh, ft))
  {
    hide Normalize;
    var r := Quot(e.rng, ft);
    CellRangeZero(e.rng, fl, fh, ft);
    SpanBounds(Sym(fl, fh, ft), e.rng);
    QuotIs(e.rng, ft);
    TimesIs(r, ft - fh);
    if fl > 0 {
      TimesIs(r, ft - fl);
      MulDist(r, ft - fl, ft - fh);
    }
  }

  /** n turns of the loop's body. */
  function NormSteps(e: Enc, n: nat): Enc { if n == 0 then e else NormStep(NormSteps(e, n - 1)) }

  lemma {:induction false} EmptyRangeStays(e: Enc, n: nat)
    requires e.rng == 0
    ensures NormSteps(e, n).rng == 0
  {
    if n > 0 { EmptyRangeStays(e, n - 1); }
  }

  lemma {:induction false} StepsFromFront(e: Enc, n: nat)
    ensures NormSteps(e, n + 1) == NormSteps(NormStep(e), n)
  {
    hide NormStep;
    if n > 0 { StepsFromFront(e, n - 1); }
  }

  /** From a range with a width the loop ends, after the first turn that brings it above 2^23. */
  lemma NormalizeSteps(e: Enc) returns (k: nat)
    requires 0 < e.rng <= TOP
    ensures Normalize(e) == NormSteps(e, k) && NormSteps(e, k).rng > BOT
    ensures forall j :: 0 <= j < k ==> NormSteps(e, j).rng <= BOT
    decreases TOP - e.rng
  {
    if e.rng > BOT {
      k := 0;
    } else {
      var m := NormalizeSteps(NormStep(e));
      k := m + 1;
      StepsFromFront(e, m);
      forall j | 0 <= j < k ensures NormSteps(e, j).rng <= BOT {
        if j > 0 { StepsFromFront(e, j - 1); }
      }
    }
  }

  /** The loop ends if and only if the cell has a width or is the first and the total does not divide the range. */
  lemma EncodeEnds(e: Enc, fl: nat, fh: nat, ft: nat)
    requires EncRange(e) && 0 < ft <= BOT && fl <= fh <= ft
    ensures (exists n: nat :: NormSteps(Entered(e, fl, fh, ft), n).rng > BOT) <==> !Stalls(e.rng, fl, fh, ft)
  {
    hide Stalls, CellRange, NormSteps;
    var f := Entered(e, fl, fh, ft);
    CellRangeZero(e.rng, fl, fh, ft);
    if f.rng == 0 {
      forall n: nat ensures NormSteps(f, n).rng == 0 { EmptyRangeStays(f, n); }
    } else {
      var k := NormalizeSteps(f);
    }
  }

  // ---------------------------------------------------------------- tables

  /** The interval of symbol s. */
  function Cell(cdf: seq<u16>, s: nat): (nat, nat, nat)
    requires Table(cdf) && s + 1 < |cdf|
  {
    (cdf[s] - cdf[0], cdf[s + 1] - cdf[0], cdf[|cdf| - 1] - cdf[0])
  }

  /** Coding a symbol of a table ends exactly when its cell is not empty, or starts the table and leaves a remainder. */
  lemma TableEnds(e: Enc, cdf: seq<u16>, s: nat)
    requires EncRange(e) && Table(cdf) && s + 1 < |cdf|
    ensures var (fl, fh, ft) := Cell(cdf, s);
      0 < ft <= BOT && fl <= fh <= ft &&
      ((exists n: nat :: NormSteps(Entered(e, fl, fh, ft), n).rng > BOT)
        <==> cdf[s] < cdf[s + 1] || (cdf[s] == cdf[0] && e.rng % ft != 0))
  {
    hide Entered, NormSteps;
    var (fl, fh, ft) := Cell(cdf, s);
    EncodeEnds(e, fl, fh, ft);
  }

  /** A fresh encoder on the empty first symbol of [0, 0, 2]: the range stays 0. */
  lemma FirstCellStalls(room: nat, n: nat)
    ensures Table([0, 0, 2]) && Cell([0, 0, 2], 0) == (0, 0, 2) && NormSteps(Entered(NewEnc(room), 0, 0, 2), n).rng == 0
  {
    assert CellRange(TOP, 0, 0, 2) == 0;
    EmptyRangeStays(Entered(NewEnc(room), 0, 0, 2), n);
  }

  /** And on the empty middle symbol of [0, 1, 1, 2]. */
  lemma MiddleCellStalls(room: nat, n: nat)
    ensures Table([0, 1, 1, 2]) && Cell([0, 1, 1, 2], 1) == (1, 1, 2) && NormSteps(Entered(NewEnc(room), 1, 1, 2), n).rng == 0
  {
    assert CellRange(TOP, 1, 1, 2) == 0;
    EmptyRangeStays(Entered(NewEnc(room), 1, 1, 2), n);
  }

  /** On the empty first symbol of [0, 0, 3] it ends: 3 does not divide the fresh range. */
  lemma FirstCellEnds(room: nat) returns (n: nat)
    ensures Table([0, 0, 3]) && Cell([0, 0, 3], 0) == (0, 0, 3) && NormSteps(Entered(NewEnc(room), 0, 0, 3), n).rng > BOT
  {
    assert TOP % 3 == 2;
    EncodeEnds(NewEnc(room), 0, 0, 3);
    n :| NormSteps(Entered(NewEnc(room), 0, 0, 3), n).rng > BOT;
  }
}
