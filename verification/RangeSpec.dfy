/**
 The range coder as two deterministic state machines on values: Enc for the encoder, Dec for the decoder.
 The classes RangeEncoder and RangeDecoder refine them; RangeProof proves that one undoes the other.
 */
module RangeSpec {
  import opened Arith
  import opened Words

  const TOP := 0x8000_0000
  const BOT := 0x80_0000
  const WORD := 0x1_0000_0000

  /** One coding step, as both sides see it. The first three are range coded; Raw bits go to the back. */
  datatype Op =
    | Sym(fl: nat, fh: nat, ft: nat)
    | Bit(one: bool, logp: nat)
    | Icdf(s: nat, table: seq<u8>, ftb: nat)
    | Raw(v: nat, n: nat)

  /** Steps the coder accepts: a non-empty sub-interval of a total that the range can always resolve. */
  predicate Codable(op: Op)
  {
    match op
    case Sym(fl, fh, ft) => fl < fh <= ft <= BOT
    case Bit(_, logp) => 1 <= logp <= 23
    case Icdf(s, table, ftb) =>
      && ftb <= 8 && s < |table|
      && (forall i, j :: 0 <= i < j < |table| ==> table[i] >= table[j])
      && table[s] < (if s > 0 then table[s - 1] as int else Pow2(ftb)) && table[0] <= Pow2(ftb)
    case Raw(v, n) => n <= 25 && v < Pow2(n)
  }

  /** The sub-interval a range-coded step selects, measured down from the top of the range: [0] .. [1] - 1. */
  function Span(op: Op, rng: nat): (int, int)
    requires !op.Raw? && Codable(op)
  {
    match op
    case Sym(fl, fh, ft) =>
      var r := Quot(rng, ft);
      (Times(r, ft - fh), if fl > 0 then Times(r, ft - fl) else rng)
    case Bit(one, logp) =>
      var s := Shr(rng, logp);
      if one then (0, s) else (s, rng)
    case Icdf(s, table, ftb) =>
      var r := Shr(rng, ftb);
      (Times(r, table[s]), if s > 0 then Times(r, table[s - 1]) else rng)
  }

  // ---------------------------------------------------------------- encoder

  /** out: bytes written at the front; back: bytes written at the end, last byte of the buffer first. */
  datatype Enc = Enc(room: nat, out: seq<u8>, back: seq<u8>, window: nat, used: nat, nbits: int,
                     rng: nat, val: nat, ext: nat, rem: int, ok: bool)

  function NewEnc(room: nat): Enc
  {
    Enc(room, [], [], 0, 0, 33, TOP, 0, 0, -1, true)
  }

  function WriteByte(e: Enc, b: int): Enc
  {
    if |e.out| + |e.back| < e.room then e.(out := e.out + [b % 0x100]) else e.(ok := false)
  }

  function WriteByteAtEnd(e: Enc, b: int): Enc
  {
    if |e.out| + |e.back| < e.room then e.(back := e.back + [b % 0x100]) else e.(ok := false)
  }

  /** The pending run: every write of the same byte until ext reaches 0. */
  function WriteRun(e: Enc, b: int): Enc
    decreases e.ext
  {
    if e.ext == 0 then e else WriteRun(WriteByte(e, b).(ext := e.ext - 1), b)
  }

  function CarryOut(e: Enc, c: nat): Enc
  {
    if c != 0xFF then
      var carry := c / 0x100;
      var e1 := if e.rem >= 0 then WriteByte(e, e.rem + carry) else e;
      var e2 := WriteRun(e1, (0xFF + carry) % 0x100);
      e2.(rem := c % 0x100)
    else
      e.(ext := e.ext + 1)
  }

  function NormStep(e: Enc): Enc
  {
    CarryOut(e, e.val / BOT).(val := e.val * 0x100 % TOP, rng := e.rng * 0x100, nbits := e.nbits + 8)
  }

  function Normalize(e: Enc): Enc
    requires e.rng > 0
    decreases TOP - e.rng
  {
    if e.rng <= BOT then Normalize(NormStep(e)) else e
  }

  /** Keep the part of the range between near and far, measured from its top. */
  function Narrow(e: Enc, near: int, far: int): Enc
    requires 0 <= near < far <= e.rng
  {
    Normalize(e.(val := e.val + e.rng - far, rng := far - near))
  }

  /** Move whole bytes of the raw-bit window to the back until fewer than eight bits are left. */
  function SpillBack(e: Enc): Enc
    decreases e.used
  {
    if e.used < 8 then e
    else SpillBack(WriteByteAtEnd(e, e.window % 0x100).(window := e.window / 0x100, used := e.used - 8))
  }

  function BitsN(e: Enc, v: nat, n: nat): Enc
  {
    var e1 := if e.used + n > 32 then SpillBack(e) else e;
    Append(e1, v, n)
  }

  function Append(e: Enc, v: nat, n: nat): Enc
  {
    e.(window := e.window + Shl(v, e.used), used := e.used + n, nbits := e.nbits + n)
  }

  predicate EncRange(e: Enc) { BOT < e.rng <= TOP }

  lemma SpanBounds(op: Op, rng: nat)
    requires !op.Raw? && Codable(op) && BOT < rng <= TOP
    ensures 0 <= Span(op, rng).0 < Span(op, rng).1 <= rng
  {
    match op
    case Sym(fl, fh, ft) =>
      ScaledCells(ft - fh, ft - fl, ft, rng);
    case Bit(one, logp) =>
      Pow2Mono(logp, 23);
      Pow2Values();
      ShrBounds(rng, logp);
    case Icdf(s, table, ftb) =>
      Pow2Mono(ftb, 8);
      Pow2Values();
      ShrIsQuotient(rng, ftb);
      QuotIs(rng, Pow2(ftb));
      ScaledCells(table[s], if s > 0 then table[s - 1] else Pow2(ftb), Pow2(ftb), rng);
  }

  lemma ScaledCells(a: nat, b: nat, ft: nat, rng: nat)
    requires 0 < ft <= BOT < rng && a < b <= ft
    ensures var r := Quot(rng, ft); 0 < r && 0 <= Times(r, a) < Times(r, b) <= rng
  {
    var r := Quot(rng, ft);
    QuotBounds(rng, ft);
    TimesMono(r, a, b);
    TimesMono(r, b, ft);
  }

  lemma NormalizeRange(e: Enc)
    requires 0 < e.rng <= TOP
    ensures EncRange(Normalize(e))
    decreases TOP - e.rng
  {
    if e.rng <= BOT { NormalizeRange(NormStep(e)); }
  }

  function Encode(e: Enc, op: Op): (r: Enc)
    requires Codable(op) && EncRange(e)
    ensures EncRange(r)
  {
    match op
    case Raw(v, n) => SpillKeepsFront(e); BitsN(e, v, n)
    case _ =>
      SpanBounds(op, e.rng);
      var (near, far) := Span(op, e.rng);
      NormalizeRange(e.(val := e.val + e.rng - far, rng := far - near));
      Narrow(e, near, far)
  }

  lemma SpillKeepsFront(e: Enc)
    ensures var f := SpillBack(e); f.(back := e.back, window := e.window, used := e.used, ok := e.ok) == e
    decreases e.used
  {
    if e.used >= 8 { SpillKeepsFront(WriteByteAtEnd(e, e.window % 0x100).(window := e.window / 0x100, used := e.used - 8)); }
  }

  predicate AllCodable(ops: seq<Op>) { forall i :: 0 <= i < |ops| ==> Codable(ops[i]) }

  lemma CatCodable(a: seq<Op>, b: seq<Op>)
    requires AllCodable(a) && AllCodable(b)
    ensures AllCodable(a + b)
  {
  }

  function EncodeAll(e: Enc, ops: seq<Op>): (r: Enc)
    requires AllCodable(ops) && EncRange(e)
    ensures EncRange(r)
    decreases |ops|
  {
    if ops == [] then e else EncodeAll(Encode(e, ops[0]), ops[1..])
  }

  /** The flush writes as many whole symbols of `end` as hold its l leading bits. */
  function FlushSyms(e: Enc, end: nat, l: int): Enc
    decreases l
  {
    if l > 0 then FlushSyms(CarryOut(e, end / BOT), end * 0x100 % TOP, l - 8) else e
  }

  /** An aligned block of the 31-bit code space that fits inside the final range: l, its width less one, its start. */
  function FlushBlock(val: nat, rng: nat): (int, nat, nat)
    requires 2 <= rng < WORD
  {
    Pow2Values();
    IlogFits(rng, 32);
    var l := 32 - Ilog(rng);
    var msk := Pow2(31 - l) - 1;
    var end := AlignUp(val, 31 - l);
    if end + msk >= val + rng then
      var msk1 := Pow2(30 - l) - 1;
      (l + 1, msk1, AlignUp(val, 30 - l))
    else
      (l, msk, end)
  }

  /** Done: flush the range, resolve pending bytes, spill raw bits, merge the last partial raw byte. */
  function Done(e: Enc): Enc
    requires EncRange(e)
  {
    var (l, _, end) := FlushBlock(e.val, e.rng);
    var e1 := FlushSyms(e, end, l);
    var e2 := if e1.rem >= 0 || e1.ext > 0 then CarryOut(e1, 0) else e1;
    var e3 := SpillBack(e2);
    if e3.ok && e3.used > 0 && |e3.out| + |e3.back| >= e3.room then e3.(ok := false) else e3
  }

  /** The finished buffer of a successful run: front bytes, zero padding, the partial raw byte, back bytes. */
  function Finished(e: Enc): (s: seq<u8>)
    requires e.ok && |e.out| + |e.back| + (if e.used > 0 then 1 else 0) <= e.room
    ensures |s| == e.room
  {
    var pad := e.room - |e.out| - |e.back|;
    e.out + (if e.used > 0 then Repeat(0, pad - 1) + [e.window % 0x100] else Repeat(0, pad))
    + seq(|e.back|, i requires 0 <= i < |e.back| => e.back[|e.back| - 1 - i])
  }

  // ---------------------------------------------------------------- decoder

  datatype Dec = Dec(buf: seq<u8>, endOffs: nat, window: nat, avail: nat, nbits: int,
                     offs: nat, rng: nat, val: nat, ext: nat, rem: u8, err: bool)

  function ReadByte(d: Dec): (Dec, u8)
  {
    if d.offs < |d.buf| then (d.(offs := d.offs + 1), d.buf[d.offs]) else (d, 0)
  }

  function ReadByteFromEnd(d: Dec): (Dec, u8)
  {
    if d.endOffs < |d.buf| then (d.(endOffs := d.endOffs + 1), d.buf[|d.buf| - d.endOffs - 1]) else (d, 0)
  }

  function DecNormStep(d: Dec): Dec
  {
    var (d1, b) := ReadByte(d);
    var sym := (d.rem * 0x100 + b) / 2;
    d1.(nbits := d.nbits + 8, rng := d.rng * 0x100, rem := b,
        val := (d.val * 0x100 + (0xFF - sym % 0x100)) % TOP)
  }

  function DecNormalize(d: Dec): (r: Dec)
    requires 0 < d.rng
    ensures r.rng > BOT && (d.rng <= TOP ==> r.rng <= TOP)
    ensures r.err == d.err && r.buf == d.buf
    ensures d.val < d.rng ==> r.val < r.rng
    decreases TOP - d.rng
  {
    if d.rng <= BOT then DecNormalize(DecNormStep(d)) else d
  }

  function NewDec(buf: seq<u8>): (r: Dec)
    ensures DecRange(r) && !r.err && r.buf == buf
  {
    var (d, b) := ReadByte(Dec(buf, 0, 0, 0, 9, 0, 0x80, 0, 0, 0, false));
    DecNormalize(d.(rem := b, val := 0x7F - b / 2))
  }

  /** Decode: which of ft equal cells the code falls in; remembers the cell width for Update. */
  function DecodeFreq(d: Dec, ft: nat): (Dec, nat)
  {
    if ft == 0 || Quot(d.rng, ft) == 0 then (d.(err := true, ext := 1), 0)
    else (d.(ext := Quot(d.rng, ft)), ft - Min(Quot(d.val, Quot(d.rng, ft)) + 1, ft))
  }

  /** Update before renormalisation. */
  function Consume(d: Dec, fl: nat, fh: nat, ft: nat): Dec
    requires fl < fh <= ft && Times(d.ext, ft - fh) <= d.val
    requires fl == 0 ==> Times(d.ext, ft - fh) < d.rng
  {
    var s := Times(d.ext, ft - fh);
    d.(val := d.val - s, rng := if fl > 0 then Times(d.ext, fh - fl) else d.rng - s)
  }

  function Update(d: Dec, fl: nat, fh: nat, ft: nat): Dec
    requires fl < fh <= ft && Times(d.ext, ft - fh) <= d.val
    requires fl == 0 ==> Times(d.ext, ft - fh) < d.rng
    requires Consume(d, fl, fh, ft).rng > 0
  {
    DecNormalize(Consume(d, fl, fh, ft))
  }

  /** Refill the raw window a byte at a time until it holds more than 24 bits. */
  function Refill(d: Dec): Dec
    requires d.avail <= 24
    decreases 24 - d.avail
  {
    var (d1, b) := ReadByteFromEnd(d);
    var d2 := d1.(window := d.window + Shl(b, d.avail), avail := d.avail + 8);
    if d2.avail > 24 then d2 else Refill(d2)
  }

  function TakeBits(d: Dec, n: nat): (Dec, nat)
    requires n <= 25
  {
    var d1 := if d.avail < n then Refill(d) else d;
    (d1.(window := Shr(d1.window, n), avail := if n <= d1.avail then d1.avail - n else 0, nbits := d1.nbits + n),
     Low(d1.window, n))
  }

  predicate DecRange(d: Dec) { d.val < d.rng && BOT < d.rng <= TOP }

  /** The cell found by DecodeFreq holds the code value: Update's subtraction cannot go below zero. */
  lemma CellHolds(d: Dec, fl: nat, fh: nat, ft: nat)
    requires DecRange(d) && fl < fh <= ft <= BOT
    ensures var (near, far) := Span(Sym(fl, fh, ft), d.rng);
      && 0 <= near < far <= d.rng
      && (fl <= DecodeFreq(d, ft).1 < fh <==> near <= d.val < far)
      && Quot(d.rng, ft) > 0
  {
    SpanBounds(Sym(fl, fh, ft), d.rng);
    var r := Quot(d.rng, ft);
    ScaledCells(0, ft, ft, d.rng);
    QuotientAtLeast(d.val, r, ft - fh);
    QuotientAtLeast(d.val, r, ft - fl);
  }

  function DecodeSym(d: Dec, fl: nat, fh: nat, ft: nat): (r: Dec)
    requires DecRange(d) && fl < fh <= ft <= BOT && fl <= DecodeFreq(d, ft).1 < fh
    ensures DecRange(r) && r.err == d.err && r.buf == d.buf
  {
    CellHolds(d, fl, fh, ft);
    TimesDist(Quot(d.rng, ft), fh - fl, ft - fh);
    Update(DecodeFreq(d, ft).0, fl, fh, ft)
  }

  function BitLogp(d: Dec, logp: nat): (r: (Dec, bool))
    requires DecRange(d) && 1 <= logp <= 23
    ensures DecRange(r.0) && r.0.err == d.err && r.0.buf == d.buf
  {
    SpanBounds(Bit(true, logp), d.rng);
    SpanBounds(Bit(false, logp), d.rng);
    var s := Shr(d.rng, logp);
    if d.val < s then (DecNormalize(d.(rng := s)), true)
    else (DecNormalize(d.(val := d.val - s, rng := d.rng - s)), false)
  }

  /** First entry at or after k whose scaled value is not above the code, or the last entry. */
  function IcdfIndex(val: nat, r: nat, table: seq<u8>, k: nat): (j: nat)
    requires k < |table|
    ensures k <= j < |table|
    ensures forall i :: k <= i < j ==> val < Times(r, table[i])
    ensures val >= Times(r, table[j]) || j == |table| - 1
    decreases |table| - k
  {
    if val >= Times(r, table[k]) || k >= |table| - 1 then k else IcdfIndex(val, r, table, k + 1)
  }

  /** The state after reading Icdf(s, table, ftb): the code lies in the span of s. */
  function TakeSpan(d: Dec, near: int, far: int): (r: Dec)
    requires DecRange(d) && 0 <= near <= d.val < far <= d.rng
    ensures DecRange(r) && r.err == d.err && r.buf == d.buf
  {
    DecNormalize(d.(val := d.val - near, rng := far - near))
  }

  predicate DecodesTo(d: Dec, op: Op)
    requires Codable(op) && DecRange(d)
  {
    match op
    case Sym(fl, fh, ft) => fl <= DecodeFreq(d, ft).1 < fh
    case Bit(one, logp) => BitLogp(d, logp).1 == one
    case Icdf(s, table, ftb) =>
      IcdfIndex(d.val, Shr(d.rng, ftb), table, 0) == s && Span(op, d.rng).0 <= d.val < Span(op, d.rng).1
    case Raw(v, n) => TakeBits(d, n).1 == v
  }

  /** The decoder's state after it has read op. */
  function Advance(d: Dec, op: Op): (r: Dec)
    requires Codable(op) && DecRange(d) && DecodesTo(d, op)
    ensures DecRange(r)
  {
    match op
    case Sym(fl, fh, ft) => DecodeSym(d, fl, fh, ft)
    case Bit(_, logp) => BitLogp(d, logp).0
    case Icdf(s, table, ftb) => SpanBounds(op, d.rng); TakeSpan(d, Span(op, d.rng).0, Span(op, d.rng).1)
    case Raw(_, n) => RefillKeepsFront(d, n); TakeBits(d, n).0
  }

  lemma RefillKeepsFront(d: Dec, n: nat)
    requires n <= 25
    ensures var f := TakeBits(d, n).0;
      f.(endOffs := d.endOffs, window := d.window, avail := d.avail, nbits := d.nbits) == d
  {
    if d.avail < n { RefillFrame(d); }
  }

  lemma {:induction false} RefillFrame(d: Dec)
    requires d.avail <= 24
    ensures var f := Refill(d); f.(endOffs := d.endOffs, window := d.window, avail := d.avail) == d
    ensures Refill(d).avail > 24
    decreases 24 - d.avail
  {
    var (d1, b) := ReadByteFromEnd(d);
    var d2 := d1.(window := d.window + Shl(b, d.avail), avail := d.avail + 8);
    if d2.avail <= 24 { RefillFrame(d2); }
  }

  /** Read one after the other, the steps decode to exactly ops. */
  predicate Carries(d: Dec, ops: seq<Op>)
    requires AllCodable(ops) && DecRange(d)
    decreases |ops|
  {
    ops == [] || (DecodesTo(d, ops[0]) && Carries(Advance(d, ops[0]), ops[1..]))
  }

  function AdvanceAll(d: Dec, ops: seq<Op>): (r: Dec)
    requires AllCodable(ops) && DecRange(d) && Carries(d, ops)
    ensures DecRange(r)
    decreases |ops|
  {
    if ops == [] then d else AdvanceAll(Advance(d, ops[0]), ops[1..])
  }

  lemma {:induction false} CarriesSplit(d: Dec, a: seq<Op>, b: seq<Op>)
    requires AllCodable(a) && AllCodable(b) && DecRange(d)
    ensures AllCodable(a + b)
    ensures Carries(d, a + b) <==> Carries(d, a) && Carries(AdvanceAll(d, a), b)
    ensures Carries(d, a + b) ==> AdvanceAll(d, a + b) == AdvanceAll(AdvanceAll(d, a), b)
    decreases |a|
  {
    if a == [] {
      assert a + b == b;
    } else {
      assert (a + b)[0] == a[0] && (a + b)[1..] == a[1..] + b;
      if DecodesTo(d, a[0]) { CarriesSplit(Advance(d, a[0]), a[1..], b); }
    }
  }

  /** One step at the head. */
  lemma CarriesHead(d: Dec, op: Op, rest: seq<Op>)
    requires Codable(op) && AllCodable(rest) && DecRange(d) && AllCodable([op] + rest) && Carries(d, [op] + rest)
    ensures DecodesTo(d, op) && Carries(Advance(d, op), rest)
  {
    assert ([op] + rest)[1..] == rest;
  }
}
