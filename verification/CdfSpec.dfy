/** Symbols coded against cumulative tables, uniform integers, and what reading them back yields. */
module CdfSpec {
  import opened Arith
  import opened Words
  import opened RangeSpec

  /** A cumulative table the coder can use: at least one symbol, no entry below the one before. */
  predicate Table(cdf: seq<u16>)
  {
    && |cdf| >= 2 && cdf[0] < cdf[|cdf| - 1]
    && forall i, j :: 0 <= i <= j < |cdf| ==> cdf[i] <= cdf[j]
  }

  /** Every symbol has a cell of its own. */
  predicate Strict(cdf: seq<u16>)
  {
    |cdf| >= 2 && forall i, j :: 0 <= i < j < |cdf| ==> cdf[i] < cdf[j]
  }

  /** Tables both sides reject with an error. */
  predicate Degenerate(cdf: seq<u16>) { |cdf| < 2 || cdf[|cdf| - 1] <= cdf[0] }

  predicate Codes(cdf: seq<u16>, s: int)
  {
    Table(cdf) && 0 <= s < |cdf| - 1 && cdf[s] < cdf[s + 1]
  }

  lemma StrictCodes(cdf: seq<u16>, s: int)
    requires Strict(cdf) && 0 <= s < |cdf| - 1
    ensures Codes(cdf, s)
  {
  }

  /** The step that writes symbol s against cdf. */
  function CdfOp(cdf: seq<u16>, s: int): (op: Op)
    requires Codes(cdf, s)
    ensures op.Sym? && Codable(op)
  {
    Sym(cdf[s] - cdf[0], cdf[s + 1] - cdf[0], cdf[|cdf| - 1] - cdf[0])
  }

  /** First k with cdf[k + 1] above target. */
  function CdfIndex(cdf: seq<u16>, target: int, k: nat): (j: nat)
    requires Table(cdf) && k < |cdf| - 1 && cdf[k] <= target < cdf[|cdf| - 1]
    ensures k <= j < |cdf| - 1 && cdf[j] <= target < cdf[j + 1]
    decreases |cdf| - k
  {
    if cdf[k + 1] > target then k else CdfIndex(cdf, target, k + 1)
  }

  lemma FreqBelow(d: Dec, ft: nat)
    requires DecRange(d) && 0 < ft <= BOT
    ensures 0 <= DecodeFreq(d, ft).1 < ft && DecodeFreq(d, ft).0 == d.(ext := Quot(d.rng, ft))
  {
    CellHolds(d, 0, ft, ft);
  }

  function DecodeCdf(d: Dec, cdf: seq<u16>): (r: (Dec, int))
    requires DecRange(d) && (Table(cdf) || Degenerate(cdf))
    ensures DecRange(r.0)
    ensures Table(cdf) ==> Codes(cdf, r.1) && DecodesTo(d, CdfOp(cdf, r.1)) && r.0 == Advance(d, CdfOp(cdf, r.1))
  {
    if Degenerate(cdf) then
      (d.(err := true), 0)
    else
      var ft := cdf[|cdf| - 1] - cdf[0];
      FreqBelow(d, ft);
      var k := CdfIndex(cdf, cdf[0] + DecodeFreq(d, ft).1, 0);
      (DecodeSym(d, cdf[k] - cdf[0], cdf[k + 1] - cdf[0], ft), k)
  }

  /** On any state, a table symbol decodes to the one symbol whose step the stream carries. */
  lemma CdfReads(d: Dec, cdf: seq<u16>, s: int)
    requires DecRange(d) && Codes(cdf, s) && DecodesTo(d, CdfOp(cdf, s))
    ensures DecodeCdf(d, cdf) == (Advance(d, CdfOp(cdf, s)), s)
  {
    var k := DecodeCdf(d, cdf).1;
    assert CdfOp(cdf, k).fl <= DecodeFreq(d, cdf[|cdf| - 1] - cdf[0]).1 < CdfOp(cdf, k).fh;
  }

  /** A uniform symbol of nbits bits on the range stream. */
  function RawSymOp(sym: nat, nbits: nat): (op: Op)
    requires nbits <= 23 && sym < Pow2(nbits)
    ensures op.Sym? && Codable(op)
  {
    Pow2Mono(nbits, 23);
    Pow2Values();
    Sym(sym, sym + 1, Pow2(nbits))
  }

  function DecodeUniform(d: Dec, ft: nat): (r: (Dec, nat))
    requires DecRange(d) && 0 < ft <= BOT
    ensures DecRange(r.0) && r.1 < ft && DecodesTo(d, Sym(r.1, r.1 + 1, ft)) && r.0 == Advance(d, Sym(r.1, r.1 + 1, ft))
  {
    FreqBelow(d, ft);
    var s := DecodeFreq(d, ft).1;
    (DecodeSym(d, s, s + 1, ft), s)
  }

  /** Inverse tables the decoder can search: falling to zero, nothing above the total. */
  predicate IcdfTable(table: seq<u8>, ftb: nat)
  {
    && ftb <= 8 && table != [] && table[|table| - 1] == 0 && table[0] < Pow2(ftb)
    && forall i, j :: 0 <= i < j < |table| ==> table[i] >= table[j]
  }

  function DecodeIcdf(d: Dec, table: seq<u8>, ftb: nat): (r: (Dec, nat))
    requires DecRange(d) && (table == [] || IcdfTable(table, ftb))
    ensures DecRange(r.0)
    ensures table != [] ==> var op := Icdf(r.1, table, ftb); Codable(op) && DecodesTo(d, op) && r.0 == Advance(d, op)
  {
    if table == [] then
      (d.(err := true), 0)
    else
      IcdfCell(d, table, ftb);
      var k := IcdfIndex(d.val, Shr(d.rng, ftb), table, 0);
      (Advance(d, Icdf(k, table, ftb)), k)
  }

  lemma IcdfCell(d: Dec, table: seq<u8>, ftb: nat)
    requires DecRange(d) && IcdfTable(table, ftb)
    ensures var r := Shr(d.rng, ftb);
      var k := IcdfIndex(d.val, r, table, 0);
      var far: int := if k > 0 then Times(r, table[k - 1]) else d.rng;
      && 0 <= Times(r, table[k]) <= d.val < far <= d.rng
      && Codable(Icdf(k, table, ftb)) && DecodesTo(d, Icdf(k, table, ftb))
      && Advance(d, Icdf(k, table, ftb)) == DecNormalize(d.(val := d.val - Times(r, table[k]), rng := far - Times(r, table[k])))
  {
    hide DecNormalize, Shr, Times;
    var r := Shr(d.rng, ftb);
    var k := IcdfIndex(d.val, r, table, 0);
    assert Times(r, table[k]) <= d.val by { if k == |table| - 1 { TimesZero(r); } }
    if k > 0 && table[k] >= table[k - 1] { TimesMono(r, table[k - 1], table[k]); }
    assert Codable(Icdf(k, table, ftb));
    SpanBounds(Icdf(k, table, ftb), d.rng);
    assert DecodesTo(d, Icdf(k, table, ftb));
  }

  // ---------------------------------------------------------------- uniform integers

  /** The steps that write v, uniform below ft0: at most eight bits range coded, the rest raw. */
  function UintOps(v: nat, ft0: nat): (ops: seq<Op>)
    requires v < ft0 && 2 <= ft0 < WORD
    ensures AllCodable(ops)
  {
    var ft := ft0 - 1;
    var ftb := Ilog(ft);
    if ftb > 8 then
      UintShift(v, ft);
      var shift := ftb - 8;
      [Sym(Shr(v, shift), Shr(v, shift) + 1, Shr(ft, shift) + 1), Raw(Low(v, shift), shift)]
    else
      UintSmall(ft);
      [Sym(v, v + 1, ft0)]
  }

  lemma UintSmall(ft: nat)
    requires Ilog(ft) <= 8
    ensures ft < 256
  {
    IlogBelow(ft);
    Pow2Mono(Ilog(ft), 8);
    Pow2Values();
  }

  lemma {:induction false} IlogBelow(x: nat)
    ensures x < Pow2(Ilog(x))
  {
    if x > 0 { IlogBelow(x / 2); }
  }

  lemma {:induction false} ShrMono(a: nat, b: nat, n: nat)
    requires a <= b
    ensures Shr(a, n) <= Shr(b, n)
  {
    if n > 0 { ShrMono(a / 2, b / 2, n - 1); }
  }

  lemma {:induction false} ShrBelow(x: nat, n: nat, k: nat)
    requires x < Pow2(n + k)
    ensures Shr(x, n) < Pow2(k)
  {
    if n > 0 { ShrBelow(x / 2, n - 1, k); }
  }

  lemma UintShift(v: nat, ft: nat)
    requires v <= ft < WORD && Ilog(ft) > 8
    ensures Ilog(ft) <= 32 && Shr(v, Ilog(ft) - 8) <= Shr(ft, Ilog(ft) - 8) < 256
  {
    Pow2Values();
    IlogFits(ft, 32);
    IlogBelow(ft);
    ShrMono(v, ft, Ilog(ft) - 8);
    ShrBelow(ft, Ilog(ft) - 8, 8);
  }

  function DecodeUint(d: Dec, ft0: nat): (r: (Dec, nat))
    requires DecRange(d) && 2 <= ft0 < WORD
    ensures DecRange(r.0) && r.1 < ft0
  {
    var ft := ft0 - 1;
    if Ilog(ft) > 8 then
      UintShift(ft, ft);
      DecodeLongUint(d, ft, Ilog(ft) - 8)
    else
      UintSmall(ft);
      DecodeUniform(d, ft0)
  }

  /** High part from the range stream, low `shift` bits from the back; a value above ft is an error. */
  function DecodeLongUint(d: Dec, ft: nat, shift: nat): (r: (Dec, nat))
    requires DecRange(d) && shift <= 24 && Shr(ft, shift) < 256
    ensures DecRange(r.0) && r.1 <= ft
  {
    var (d1, s) := DecodeUniform(d, Shr(ft, shift) + 1);
    RefillKeepsFront(d1, shift);
    var (d2, b) := TakeBits(d1, shift);
    var v := Shl(s, shift) + b;
    if v <= ft then (d2, v) else (d2.(err := true), ft)
  }

  /** Reading a uniform integer where one was written yields it, and consumes just its steps. */
  lemma UintReads(d: Dec, v: nat, ft0: nat, rest: seq<Op>)
    requires DecRange(d) && v < ft0 && 2 <= ft0 < WORD && AllCodable(rest)
    requires AllCodable(UintOps(v, ft0) + rest) && Carries(d, UintOps(v, ft0) + rest)
    ensures DecodeUint(d, ft0).1 == v && Carries(DecodeUint(d, ft0).0, rest)
    ensures !d.err ==> !DecodeUint(d, ft0).0.err
  {
    if Ilog(ft0 - 1) > 8 {
      LongUintReads(d, v, ft0, Ilog(ft0 - 1) - 8, rest);
    } else {
      CarriesHead(d, Sym(v, v + 1, ft0), rest);
    }
  }

  lemma LongUintReads(d: Dec, v: nat, ft0: nat, shift: nat, rest: seq<Op>)
    requires DecRange(d) && v < ft0 && 2 <= ft0 < WORD && AllCodable(rest) && shift + 8 == Ilog(ft0 - 1) && shift > 0
    requires AllCodable(UintOps(v, ft0) + rest) && Carries(d, UintOps(v, ft0) + rest)
    ensures DecodeUint(d, ft0).1 == v && Carries(DecodeUint(d, ft0).0, rest)
    ensures !d.err ==> !DecodeUint(d, ft0).0.err
  {
    hide DecodesTo, Advance, Shr, Low, Shl, Ilog, TakeBits, DecodeUniform;
    UintShift(v, ft0 - 1);
    var hi, lo := Sym(Shr(v, shift), Shr(v, shift) + 1, Shr(ft0 - 1, shift) + 1), Raw(Low(v, shift), shift);
    assert UintOps(v, ft0) == [hi, lo];
    assert [hi, lo] + rest == [hi] + ([lo] + rest);
    PartsRead(d, hi.fl, hi.ft, lo.v, shift, rest);
    SplitBits(v, shift);
  }

  lemma PartsRead(d: Dec, s: nat, ft: nat, b: nat, n: nat, rest: seq<Op>)
    requires DecRange(d) && s < ft <= BOT && n <= 25 && b < Pow2(n) && AllCodable(rest)
    requires var ops := [Sym(s, s + 1, ft)] + ([Raw(b, n)] + rest); AllCodable(ops) && Carries(d, ops)
    ensures DecodeUniform(d, ft).1 == s
    ensures var d1 := DecodeUniform(d, ft).0;
      TakeBits(d1, n).1 == b && DecRange(TakeBits(d1, n).0) && Carries(TakeBits(d1, n).0, rest) && (!d.err ==> !TakeBits(d1, n).0.err)
  {
    hide DecNormalize, Quot, Times, Low, Shl, Shr, Refill, Span, Pow2;
    CarriesHead(d, Sym(s, s + 1, ft), [Raw(b, n)] + rest);
    var d1 := DecodeUniform(d, ft).0;
    CarriesHead(d1, Raw(b, n), rest);
    RefillKeepsFront(d1, n);
  }
}
