/** The cells of the range coder as one scheme: every range-coded step narrows to a cell of the same partition. */
module RangeLaws {
  import opened Arith
  import opened Words
  import opened RangeSpec

  /**
   The cells of one total lie side by side, the first from the top of the range and the last down to 0, and all but the first are as
   many times the whole quotient wide as they have frequencies; the first takes what the rounding leaves.
   */
  lemma CellsTile(a: nat, b: nat, c: nat, ft: nat, rng: nat)
    requires a < b < c <= ft <= BOT < rng <= TOP
    ensures Span(Sym(a, b, ft), rng).0 == Span(Sym(b, c, ft), rng).1
    ensures Span(Sym(0, b, ft), rng).1 == rng && Span(Sym(a, ft, ft), rng).0 == 0
    ensures Span(Sym(b, c, ft), rng).1 - Span(Sym(b, c, ft), rng).0 == (c - b) * (rng / ft)
    ensures Span(Sym(0, b, ft), rng).1 - Span(Sym(0, b, ft), rng).0 == b * (rng / ft) + rng % ft
  {
    var r := Quot(rng, ft);
    QuotIs(rng, ft);
    TimesIs(r, ft - a);
    TimesIs(r, ft - b);
    TimesIs(r, ft - c);
    TimesIs(r, 0);
    assert r * (ft - b) - r * (ft - c) == (c - b) * r;
    assert rng == ft * r + rng % ft && r * (ft - b) == ft * r - b * r;
  }

  /** A bit of probability 2^-logp is a symbol of that total: the last one if it is set, all the others if it is not. */
  lemma BitIsSym(one: bool, logp: nat, rng: nat)
    requires 1 <= logp <= 23 && BOT < rng <= TOP
    ensures var ft := Pow2(logp);
      1 < ft <= BOT && Span(Bit(one, logp), rng) == Span(if one then Sym(ft - 1, ft, ft) else Sym(0, ft - 1, ft), rng)
  {
    Pow2Mono(1, logp);
    Pow2Mono(logp, 23);
    Pow2Values();
    ShrIsQuotient(rng, logp);
    QuotIs(rng, Pow2(logp));
    TimesIs(Quot(rng, Pow2(logp)), 0);
    TimesIs(Quot(rng, Pow2(logp)), 1);
  }

  /** A symbol of an inverse table is the cell between the complements of its two entries. */
  lemma IcdfIsSym(s: nat, table: seq<u8>, ftb: nat, rng: nat)
    requires Codable(Icdf(s, table, ftb)) && BOT < rng <= TOP && (s > 0 ==> table[s - 1] < Pow2(ftb))
    ensures var ft := Pow2(ftb);
      var fl, fh := if s > 0 then ft - table[s - 1] else 0, ft - table[s];
      fl < fh <= ft <= BOT && Span(Icdf(s, table, ftb), rng) == Span(Sym(fl, fh, ft), rng)
  {
    hide Times, Quot, Shr, Pow2;
    Pow2Mono(ftb, 8);
    Pow2Values();
    ShrIsQuotient(rng, ftb);
    QuotIs(rng, Pow2(ftb));
  }
}
