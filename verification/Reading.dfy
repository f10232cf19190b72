/** Reading a run of coding steps off a stream, taken apart and put together. */
module Reading {
  import opened Arith
  import opened Words
  import opened RangeSpec
  import opened CdfSpec

  /** From d, the stream carries exactly these steps, and reading them leads to e. */
  predicate Reads(d: Dec, ops: seq<Op>, e: Dec)
  {
    DecRange(d) && AllCodable(ops) && Carries(d, ops) && AdvanceAll(d, ops) == e
  }

  lemma NothingRead(d: Dec, ops: seq<Op>, e: Dec)
    requires DecRange(d) && ops == []
    ensures Reads(d, ops, e) <==> e == d
  {
  }

  lemma SplitAt(d: Dec, a: seq<Op>, b: seq<Op>, e: Dec) returns (m: Dec)
    requires AllCodable(a) && AllCodable(b) && Reads(d, a + b, e)
    ensures Reads(d, a, m) && Reads(m, b, e) && DecRange(m)
  {
    CarriesSplit(d, a, b);
    m := AdvanceAll(d, a);
  }

  lemma Joined(d: Dec, a: seq<Op>, m: Dec, b: seq<Op>, e: Dec)
    requires Reads(d, a, m) && Reads(m, b, e)
    ensures Reads(d, a + b, e)
  {
    CarriesSplit(d, a, b);
  }

  lemma OneRead(d: Dec, op: Op, e: Dec)
    requires DecRange(d) && Codable(op)
    ensures Reads(d, [op], e) <==> DecodesTo(d, op) && Advance(d, op) == e
  {
    assert [op][1..] == [];
    if DecodesTo(d, op) { NothingRead(Advance(d, op), [op][1..], Advance(d, op)); }
  }

  lemma ReadCdf(d: Dec, cdf: seq<u16>, s: int, e: Dec)
    requires DecRange(d) && Codes(cdf, s) && Reads(d, [CdfOp(cdf, s)], e)
    ensures DecodeCdf(d, cdf) == (e, s)
  {
    hide Codable, DecodesTo, Advance, Reads;
    OneRead(d, CdfOp(cdf, s), e);
    CdfReads(d, cdf, s);
  }

  lemma CdfRead(d: Dec, cdf: seq<u16>)
    requires DecRange(d) && Table(cdf)
    ensures var (e, s) := DecodeCdf(d, cdf); Codes(cdf, s) && Reads(d, [CdfOp(cdf, s)], e)
  {
    hide Codable, DecodesTo, Advance, Reads;
    OneRead(d, CdfOp(cdf, DecodeCdf(d, cdf).1), DecodeCdf(d, cdf).0);
  }

  lemma ReadUniform(d: Dec, s: nat, ft: nat, e: Dec)
    requires DecRange(d) && s < ft <= BOT && Reads(d, [Sym(s, s + 1, ft)], e)
    ensures DecodeUniform(d, ft) == (e, s)
  {
    hide Reads;
    OneRead(d, Sym(s, s + 1, ft), e);
  }

  lemma UniformRead(d: Dec, ft: nat)
    requires DecRange(d) && 0 < ft <= BOT
    ensures var (e, s) := DecodeUniform(d, ft); Reads(d, [Sym(s, s + 1, ft)], e)
  {
    hide Reads;
    OneRead(d, Sym(DecodeUniform(d, ft).1, DecodeUniform(d, ft).1 + 1, ft), DecodeUniform(d, ft).0);
  }
}
