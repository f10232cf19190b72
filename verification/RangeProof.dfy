/**
 Decoding undoes encoding. The encoder's state stands for an interval of code values; every step narrows it,
 the flush picks bytes whose every continuation lies inside it, and the decoder tracks its distance from the top.
 */
module RangeProof {
  import opened Arith
  import opened Words
  import opened RangeSpec
  import opened RawProof

  const LIMIT := 0xFFFF_FF00

  /** Everything emitted so far, pending bytes resolved as if no carry ever came. */
  ghost function Settled(e: Enc): seq<u8>
    requires -1 <= e.rem <= 255
  {
    e.out + (if e.rem >= 0 then [e.rem] else []) + Repeat(255, e.ext)
  }

  /** A carry can only arrive while the byte it lands on is written and is not 0xFF. */
  ghost predicate Sound(e: Enc)
  {
    && 0 < e.rng <= TOP && e.val + e.rng <= LIMIT
    && -1 <= e.rem <= 255
    && (e.rem == -1 || e.rem == 255 ==> e.val + e.rng <= TOP)
  }

  /** Lower end of the code interval, in units of 2^-(31 + 8 * emitted). */
  ghost function Floor(e: Enc): nat
    requires -1 <= e.rem <= 255
  {
    Nat(Settled(e)) * TOP + e.val
  }

  /** The stream s, cut after `at` + 4 bytes, points into the interval of width rng starting at lo (doubled: 32 bits). */
  ghost predicate Points(s: seq<u8>, at: nat, lo: nat, rng: nat)
  {
    2 * lo <= PrefixNat(s, at + 4) < 2 * (lo + rng)
  }

  ghost predicate PointsInto(s: seq<u8>, e: Enc)
    requires Sound(e)
  {
    Points(s, |Settled(e)|, Floor(e), e.rng)
  }

  // -------------------------------------------------------- bytes written are never lost while ok holds

  lemma {:induction false} WriteRunKeeps(e: Enc, b: int)
    ensures WriteRun(e, b).ok ==> e.ok && WriteRun(e, b).out == e.out + Repeat(b % 0x100, e.ext)
    ensures var f := WriteRun(e, b); f.(out := e.out, ext := e.ext, ok := e.ok) == e && f.ext == 0
    decreases e.ext
  {
    if e.ext > 0 {
      WriteRunKeeps(WriteByte(e, b).(ext := e.ext - 1), b);
      RepeatCons(b % 0x100, e.ext);
      assert e.out + [b % 0x100] + Repeat(b % 0x100, e.ext - 1) == e.out + ([b % 0x100] + Repeat(b % 0x100, e.ext - 1));
    }
  }

  lemma {:induction false} RepeatCons(b: u8, n: nat)
    requires n > 0
    ensures Repeat(b, n) == [b] + Repeat(b, n - 1)
  {
    if n > 1 { RepeatCons(b, n - 1); }
  }

  /** One more symbol appends a base-256 digit, rippling its carry through the pending bytes. */
  lemma CarryOutValue(e: Enc, c: nat)
    requires -1 <= e.rem <= 255 && c <= 511
    requires c >= 256 ==> 0 <= e.rem < 255
    requires CarryOut(e, c).ok
    ensures e.ok
    ensures var f := CarryOut(e, c);
      && (f.rem == if c == 255 then e.rem else c % 256)
      && |Settled(f)| == |Settled(e)| + 1
      && Nat(Settled(f)) == 256 * Nat(Settled(e)) + c
      && (c != 255 ==> f.ext == 0)
  {
    hide PrefixNat, WriteRun;
    if c == 255 {
      assert Settled(CarryOut(e, c)) == Settled(e) + [255];
      NatSnoc(Settled(e), 255);
    } else {
      var carry := c / 256;
      var e1 := if e.rem >= 0 then WriteByte(e, e.rem + carry) else e;
      WriteRunKeeps(e1, (255 + carry) % 256);
      if carry == 0 {
        assert Settled(CarryOut(e, c)) == Settled(e) + [c];
        NatSnoc(Settled(e), c);
      } else {
        CarrySettles(e, CarryOut(e, c), c - 256);
      }
    }
  }

  /** The written run after a carry: the byte it lands on plus one, zeros, and the new byte pending. */
  lemma CarrySettles(e: Enc, f: Enc, c: u8)
    requires 0 <= e.rem < 255
    requires f.out == e.out + [e.rem + 1] + Repeat(0, e.ext) && f.rem == c && f.ext == 0
    ensures |Settled(f)| == |Settled(e)| + 1 && Nat(Settled(f)) == 256 * Nat(Settled(e)) + 256 + c
  {
    assert Settled(f) == f.out + [c];
    NatSnoc(f.out, c);
    CarryRipple(e.out, e.rem, e.ext);
  }

  lemma CarryOutFrame(e: Enc, c: nat)
    ensures var f := CarryOut(e, c); f.(out := e.out, ext := e.ext, rem := e.rem, ok := e.ok) == e
    ensures CarryOut(e, c).ok ==> e.ok
  {
    if c != 255 {
      var e1 := if e.rem >= 0 then WriteByte(e, e.rem + c / 256) else e;
      WriteRunKeeps(e1, (255 + c / 256) % 256);
    }
  }

  /** Renormalising scales the interval by 256 and moves nothing. */
  lemma NormStepValue(e: Enc)
    requires Sound(e) && e.rng <= BOT && NormStep(e).ok
    ensures var f := NormStep(e);
      && Sound(f) && e.ok && |Settled(f)| == |Settled(e)| + 1
      && Floor(f) == 256 * Floor(e) && f.rng == 256 * e.rng && f.nbits == e.nbits + 8
  {
    var c := e.val / BOT;
    CarryOutFrame(e, c);
    CarryOutValue(e, c);
  }

  lemma {:induction false} NormalizeKeepsOk(e: Enc)
    requires e.rng > 0
    ensures Normalize(e).ok ==> e.ok
    decreases TOP - e.rng
  {
    if e.rng <= BOT {
      NormalizeKeepsOk(NormStep(e));
      CarryOutFrame(e, e.val / BOT);
    }
  }

  lemma PointsBack(s: seq<u8>, at: nat, lo: nat, rng: nat)
    requires Points(s, at + 1, 256 * lo, 256 * rng)
    ensures Points(s, at, lo, rng)
  {
    assert PrefixNat(s, at + 5) == 256 * PrefixNat(s, at + 4) + At(s, at + 4);
  }

  lemma {:induction false} NormalizeValue(e: Enc)
    requires Sound(e) && Normalize(e).ok
    ensures Sound(Normalize(e)) && e.ok
    ensures Normalize(e).room == e.room && Normalize(e).back == e.back
    ensures Normalize(e).window == e.window && Normalize(e).used == e.used
    decreases TOP - e.rng
  {
    if e.rng <= BOT {
      NormalizeKeepsOk(NormStep(e));
      CarryOutFrame(e, e.val / BOT);
      NormStepValue(e);
      NormalizeValue(NormStep(e));
    }
  }

  lemma {:induction false} NormalizePoints(e: Enc, s: seq<u8>)
    requires Sound(e) && Normalize(e).ok && Sound(Normalize(e))
    requires PointsInto(s, Normalize(e))
    ensures PointsInto(s, e)
    decreases TOP - e.rng
  {
    if e.rng <= BOT {
      NormalizeKeepsOk(NormStep(e));
      NormStepValue(e);
      NormalizePoints(NormStep(e), s);
      PointsBack(s, |Settled(e)|, Floor(e), e.rng);
    }
  }

  // ---------------------------------------------------------------- the decoder follows

  /** Having read n bytes of s, the decoder holds its distance from the top of [lo, lo + rng). */
  ghost predicate Follows(d: Dec, s: seq<u8>, n: nat, lo: nat, rng: nat)
  {
    && n > 0 && d.buf == s && d.rng == rng && d.offs == Min(n, |s|) && d.rem == At(s, n - 1)
    && 2 * lo <= PrefixNat(s, n) < 2 * (lo + rng)
    && d.val == lo + rng - 1 - PrefixNat(s, n) / 2
  }

  lemma FollowStep(d: Dec, s: seq<u8>, n: nat, lo: nat, rng: nat)
    requires Follows(d, s, n, lo, rng) && 0 < rng <= BOT
    requires 512 * lo <= PrefixNat(s, n + 1) < 512 * (lo + rng)
    ensures Follows(DecNormStep(d), s, n + 1, 256 * lo, 256 * rng)
  {
    var p, b := PrefixNat(s, n), At(s, n);
    assert PrefixNat(s, n + 1) == 256 * p + b;
    assert p % 2 == d.rem % 2 by { assert p == 256 * PrefixNat(s, n - 1) + d.rem; }
    hide PrefixNat;
    NextSym(p, d.rem, b);
    NextGap(lo, rng, p / 2, (d.rem * 256 + b) / 2 % 256, (256 * p + b) / 2);
    assert ReadByte(d) == (d.(offs := Min(n + 1, |s|)), b);
  }

  /** The distance from the top, one byte further. */
  lemma NextGap(lo: nat, rng: nat, half: nat, sym: nat, next: nat)
    requires next == 256 * half + sym && sym < 256 && lo <= half < lo + rng && 256 * lo <= next < 256 * (lo + rng) && rng <= BOT
    ensures 0 <= (lo + rng - 1 - half) * 0x100 + (0xFF - sym) < TOP
    ensures ((lo + rng - 1 - half) * 0x100 + (0xFF - sym)) % TOP == 256 * lo + 256 * rng - 1 - next
  {
  }

  /** The eight new code bits: the last bit of the byte before and seven bits of the byte read now. */
  lemma NextSym(p: nat, rem: u8, b: u8)
    requires p % 2 == rem % 2
    ensures (256 * p + b) / 2 == 256 * (p / 2) + ((rem * 256 + b) / 2) % 256
  {
    assert p == 2 * (p / 2) + p % 2;
    assert rem == 2 * (rem / 2) + p % 2;
  }

  lemma {:induction false} FollowNormalize(e: Enc, s: seq<u8>, d: Dec)
    requires Sound(e) && Normalize(e).ok && Sound(Normalize(e)) && PointsInto(s, Normalize(e))
    requires Follows(d, s, |Settled(e)| + 4, Floor(e), e.rng)
    ensures var f := Normalize(e);
      Follows(DecNormalize(d), s, |Settled(f)| + 4, Floor(f), f.rng) &&
      DecNormalize(d).nbits - d.nbits == f.nbits - e.nbits
    decreases TOP - e.rng
  {
    if e.rng <= BOT {
      NormalizeKeepsOk(NormStep(e));
      NormStepValue(e);
      NormalizePoints(NormStep(e), s);
      FollowStep(d, s, |Settled(e)| + 4, Floor(e), e.rng);
      FollowNormalize(NormStep(e), s, DecNormStep(d));
    }
  }

  /** A fresh decoder follows a fresh encoder, whatever the stream. */
  lemma FollowInit(s: seq<u8>, room: nat)
    ensures Sound(NewEnc(room)) && PointsInto(s, NewEnc(room)) && Settled(NewEnc(room)) == []
    ensures Follows(NewDec(s), s, 4, 0, TOP) && NewDec(s).nbits == 33 && !NewDec(s).err
  {
    var (d0, b) := ReadByte(Dec(s, 0, 0, 0, 9, 0, 0x80, 0, 0, 0, false));
    var d1 := d0.(rem := b, val := 0x7F - b / 2);
    assert PrefixNat(s, 1) == At(s, 0);
    assert PrefixNat(s, 2) == 256 * PrefixNat(s, 1) + At(s, 1);
    assert PrefixNat(s, 3) == 256 * PrefixNat(s, 2) + At(s, 2);
    assert PrefixNat(s, 4) == 256 * PrefixNat(s, 3) + At(s, 3);
    assert Follows(d1, s, 1, 0, 0x80);
    FollowStep(d1, s, 1, 0, 0x80);
    var d2 := DecNormStep(d1);
    FollowStep(d2, s, 2, 0, 0x8000);
    var d3 := DecNormStep(d2);
    FollowStep(d3, s, 3, 0, BOT);
    var d4 := DecNormStep(d3);
    assert DecNormalize(d1) == DecNormalize(d2) == DecNormalize(d3) == DecNormalize(d4) == d4;
  }

  // ---------------------------------------------------------------- one step

  ghost function Cut(e: Enc, near: int, far: int): Enc
    requires 0 <= near < far <= e.rng
  {
    e.(val := e.val + e.rng - far, rng := far - near)
  }

  /** A step on the encoder only narrows the interval (range coded) or extends the raw number. */
  lemma EncodeSound(e: Enc, op: Op)
    requires Sound(e) && EncRange(e) && RawSound(e) && Codable(op) && Encode(e, op).ok
    ensures e.ok && Sound(Encode(e, op)) && RawSound(Encode(e, op)) && Encode(e, op).room == e.room
    ensures op.Raw? ==> Settled(Encode(e, op)) == Settled(e)
    ensures !op.Raw? ==> RawNum(Encode(e, op)) == RawNum(e) && RawBits(Encode(e, op)) == RawBits(e)
  {
    if op.Raw? {
      BitsNValue(e, op.v, op.n);
      SpillKeepsFront(e);
    } else {
      SpanBounds(op, e.rng);
      var (near, far) := Span(op, e.rng);
      NormalizeValue(Cut(e, near, far));
    }
  }

  /** The buffer agrees with everything the encoder has committed to. */
  ghost predicate Holds(s: seq<u8>, e: Enc)
    requires Sound(e)
  {
    PointsInto(s, e) && RawInto(s, e)
  }

  /** Decoder and encoder in lock step: same range, same bit count, both cursors where they should be. */
  ghost predicate InStep(d: Dec, s: seq<u8>, e: Enc)
    requires Sound(e)
  {
    && Follows(d, s, |Settled(e)| + 4, Floor(e), e.rng)
    && RawFollows(d, s, RawBits(e))
    && d.nbits == e.nbits && !d.err
  }

  lemma RawBackward(e: Enc, v: nat, n: nat, s: seq<u8>)
    requires Sound(e) && RawSound(e) && n <= 25 && v < Pow2(n) && BitsN(e, v, n).ok && Sound(BitsN(e, v, n))
    requires Holds(s, BitsN(e, v, n))
    ensures Holds(s, e) && Low(Shr(FromEnd(s, |s|), RawBits(e)), n) == v
  {
    var f := BitsN(e, v, n);
    assert RawBits(f) == RawBits(e) + n && RawNum(f) == RawNum(e) + Shl(v, RawBits(e)) by { BitsNValue(e, v, n); }
    assert Settled(f) == Settled(e) && f.val == e.val && f.rng == e.rng by { SpillKeepsFront(e); }
    RawBack(s, e, f, v, n);
  }

  lemma RawForward(e: Enc, v: nat, n: nat, s: seq<u8>, d: Dec)
    requires Sound(e) && RawSound(e) && n <= 25 && v < Pow2(n) && BitsN(e, v, n).ok && Sound(BitsN(e, v, n))
    requires Holds(s, BitsN(e, v, n)) && InStep(d, s, e)
    ensures TakeBits(d, n).1 == v && InStep(TakeBits(d, n).0, s, BitsN(e, v, n))
  {
    var f := BitsN(e, v, n);
    RawBackward(e, v, n, s);
    assert TakeBits(d, n).1 == v by { TakeBitsFollows(d, s, RawBits(e), n); }
    assert RawBits(f) == RawBits(e) + n by { BitsNValue(e, v, n); }
    assert f.nbits == e.nbits + n && Settled(f) == Settled(e) && f.val == e.val && f.rng == e.rng by { SpillKeepsFront(e); }
    RawFollow(e, f, n, s, d);
  }

  lemma RawFollow(e: Enc, f: Enc, n: nat, s: seq<u8>, d: Dec)
    requires Sound(e) && Sound(f) && n <= 25 && InStep(d, s, e)
    requires RawBits(f) == RawBits(e) + n && f.nbits == e.nbits + n
    requires Settled(f) == Settled(e) && f.val == e.val && f.rng == e.rng
    ensures InStep(TakeBits(d, n).0, s, f)
  {
    var g := TakeBits(d, n).0;
    assert RawFollows(g, s, RawBits(f)) by { TakeBitsFollows(d, s, RawBits(e), n); }
    assert g.(endOffs := d.endOffs, window := d.window, avail := d.avail, nbits := d.nbits) == d by { RefillKeepsFront(d, n); }
    assert Floor(f) == Floor(e);
    assert Follows(g, s, |Settled(f)| + 4, Floor(f), f.rng);
    assert g.nbits == d.nbits + n by { RefillKeepsNbits(d); }
  }

  lemma RefillKeepsNbits(d: Dec)
    ensures d.avail <= 24 ==> Refill(d).nbits == d.nbits
  {
    if d.avail <= 24 { RefillFrame(d); }
  }

  lemma CutForward(e: Enc, near: int, far: int, s: seq<u8>, d: Dec)
    requires Sound(e) && RawSound(e) && 0 <= near < far <= e.rng
    requires var f := Normalize(Cut(e, near, far)); f.ok && Sound(f) && Holds(s, f)
    requires InStep(d, s, e)
    ensures near <= d.val < far
    ensures InStep(DecNormalize(d.(val := d.val - near, rng := far - near)), s, Normalize(Cut(e, near, far)))
  {
    var c := Cut(e, near, far);
    NormalizePoints(c, s);
    CutFollows(e, near, far, s, d);
    NormalizeForward(c, s, d.(val := d.val - near, rng := far - near));
  }

  lemma CutFollows(e: Enc, near: int, far: int, s: seq<u8>, d: Dec)
    requires Sound(e) && 0 <= near < far <= e.rng
    requires PointsInto(s, Cut(e, near, far)) && InStep(d, s, e)
    ensures near <= d.val < far
    ensures InStep(d.(val := d.val - near, rng := far - near), s, Cut(e, near, far))
  {
    var c := Cut(e, near, far);
    assert Settled(c) == Settled(e) && Floor(c) == Floor(e) + e.rng - far;
    assert RawBits(c) == RawBits(e);
  }

  lemma NormalizeForward(c: Enc, s: seq<u8>, dc: Dec)
    requires Sound(c) && Normalize(c).ok && Sound(Normalize(c)) && PointsInto(s, Normalize(c)) && InStep(dc, s, c)
    ensures InStep(DecNormalize(dc), s, Normalize(c))
  {
    var f, g := Normalize(c), DecNormalize(dc);
    assert RawBits(f) == RawBits(c) by { NormalizeValue(c); }
    assert Follows(g, s, |Settled(f)| + 4, Floor(f), f.rng) && g.nbits - dc.nbits == f.nbits - c.nbits by {
      FollowNormalize(c, s, dc);
    }
    assert RawFollows(g, s, RawBits(f)) && !g.err by { DecNormalizeFrame(dc); }
  }

  lemma {:induction false} DecNormalizeFrame(d: Dec)
    requires 0 < d.rng
    ensures var f := DecNormalize(d);
      f.buf == d.buf && f.endOffs == d.endOffs && f.window == d.window && f.avail == d.avail && f.err == d.err
    decreases TOP - d.rng
  {
    if d.rng <= BOT { DecNormalizeFrame(DecNormStep(d)); }
  }

  lemma {:induction false} NormalizeIgnoresExt(d: Dec, ext: nat)
    requires 0 < d.rng
    ensures DecNormalize(d.(ext := ext)) == DecNormalize(d).(ext := ext)
    decreases TOP - d.rng
  {
    if d.rng <= BOT { NormalizeIgnoresExt(DecNormStep(d), ext); }
  }

  /** A code inside the span of op is decoded as op; only the scratch cell width ext is touched besides. */
  ghost predicate Reads(d: Dec, op: Op)
    requires DecRange(d) && Codable(op) && !op.Raw?
  {
    DecodesTo(d, op) &&
    var (near, far) := Span(op, d.rng);
    0 <= near <= d.val < far &&
    var f := DecNormalize(d.(val := d.val - near, rng := far - near));
    Advance(d, op) == f.(ext := Advance(d, op).ext)
  }

  lemma SymReads(d: Dec, fl: nat, fh: nat, ft: nat)
    requires var op := Sym(fl, fh, ft);
      DecRange(d) && Codable(op) && 0 <= Span(op, d.rng).0 <= d.val < Span(op, d.rng).1
    ensures Reads(d, Sym(fl, fh, ft))
  {
    hide DecNormalize, Quot, Times;
    CellHolds(d, fl, fh, ft);
    var (near, far) := Span(Sym(fl, fh, ft), d.rng);
    var ext := Quot(d.rng, ft);
    TimesDist(ext, fh - fl, ft - fh);
    NormalizeIgnoresExt(d.(val := d.val - near, rng := far - near), ext);
  }

  lemma IcdfReads(d: Dec, sym: nat, table: seq<u8>, ftb: nat)
    requires var op := Icdf(sym, table, ftb);
      DecRange(d) && Codable(op) && 0 <= Span(op, d.rng).0 <= d.val < Span(op, d.rng).1
    ensures Reads(d, Icdf(sym, table, ftb))
  {
    hide DecNormalize, Shr, Times;
    var r := Shr(d.rng, ftb);
    var k := IcdfIndex(d.val, r, table, 0);
    if k < sym { TimesMono(r, table[sym - 1], table[k]); }
  }

  lemma OpReads(d: Dec, op: Op)
    requires DecRange(d) && Codable(op) && !op.Raw? && 0 <= Span(op, d.rng).0 <= d.val < Span(op, d.rng).1
    ensures Reads(d, op)
  {
    hide DecNormalize, Shr, Times, Quot;
    match op
    case Sym(fl, fh, ft) => SymReads(d, fl, fh, ft);
    case Bit(one, logp) =>
    case Icdf(sym, table, ftb) => IcdfReads(d, sym, table, ftb);
  }

  lemma StepBack(e: Enc, op: Op, s: seq<u8>)
    requires Sound(e) && EncRange(e) && RawSound(e) && Codable(op) && Encode(e, op).ok && Sound(Encode(e, op))
    requires Holds(s, Encode(e, op))
    ensures Holds(s, e)
  {
    EncodeSound(e, op);
    if op.Raw? {
      RawBackward(e, op.v, op.n, s);
    } else {
      SpanBounds(op, e.rng);
      var (near, far) := Span(op, e.rng);
      var c := Cut(e, near, far);
      NormalizePoints(c, s);
      assert Settled(c) == Settled(e);
    }
  }

  lemma RangeForward(e: Enc, op: Op, near: int, far: int, s: seq<u8>, d: Dec)
    requires Sound(e) && EncRange(e) && RawSound(e) && Codable(op) && !op.Raw?
    requires Span(op, e.rng) == (near, far) && 0 <= near < far <= e.rng
    requires var f := Normalize(Cut(e, near, far)); f.ok && Sound(f) && Holds(s, f)
    requires InStep(d, s, e)
    ensures DecRange(d) && DecodesTo(d, op) && InStep(Advance(d, op), s, Normalize(Cut(e, near, far)))
  {
    hide DecNormalize, Normalize, Span, DecodesTo, Advance;
    CutForward(e, near, far, s, d);
    assert DecRange(d) && d.rng == e.rng;
    OpReads(d, op);
    var f := DecNormalize(d.(val := d.val - near, rng := far - near));
    ExtIsScratch(f, Advance(d, op).ext, s, Normalize(Cut(e, near, far)));
  }

  lemma StepForward(e: Enc, op: Op, s: seq<u8>, d: Dec)
    requires Sound(e) && EncRange(e) && RawSound(e) && Codable(op) && Encode(e, op).ok && Sound(Encode(e, op))
    requires Holds(s, Encode(e, op)) && InStep(d, s, e)
    ensures DecRange(d) && DecodesTo(d, op) && InStep(Advance(d, op), s, Encode(e, op))
  {
    if op.Raw? {
      RawForward(e, op.v, op.n, s, d);
    } else {
      SpanBounds(op, e.rng);
      var (near, far) := Span(op, e.rng);
      RangeForward(e, op, near, far, s, d);
    }
  }

  lemma ExtIsScratch(f: Dec, ext: nat, s: seq<u8>, e: Enc)
    requires Sound(e) && InStep(f, s, e)
    ensures InStep(f.(ext := ext), s, e)
  {
  }
}
