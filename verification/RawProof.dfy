/** The raw bits at the back of the buffer, as one little-endian number shared by both sides. */
module RawProof {
  import opened Arith
  import opened Words
  import opened RangeSpec

  /** Byte i of the buffer counted from its end, zero past the front. */
  function AtEnd(s: seq<u8>, i: nat): u8 { if i < |s| then s[|s| - 1 - i] else 0 }

  /** The last k bytes, last byte least significant. */
  ghost function FromEnd(s: seq<u8>, k: nat): nat
  {
    if k == 0 then 0 else FromEnd(s, k - 1) + Shl(AtEnd(s, k - 1), 8 * (k - 1))
  }

  ghost function LeNat(b: seq<u8>): nat
  {
    if b == [] then 0 else LeNat(b[..|b| - 1]) + Shl(b[|b| - 1], 8 * (|b| - 1))
  }

  /** All raw bits written so far and how many they are. */
  ghost function RawNum(e: Enc): nat { LeNat(e.back) + Shl(e.window, 8 * |e.back|) }

  ghost function RawBits(e: Enc): nat { 8 * |e.back| + e.used }

  ghost predicate RawSound(e: Enc) { e.used <= 32 && e.window < Pow2(e.used) }

  /** The buffer's tail ends with exactly the raw bits written so far. */
  ghost predicate RawInto(s: seq<u8>, e: Enc) { Low(FromEnd(s, |s|), RawBits(e)) == RawNum(e) }

  ghost function SpillStep(e: Enc): Enc
    requires e.used >= 8
  {
    WriteByteAtEnd(e, e.window % 256).(window := e.window / 256, used := e.used - 8)
  }

  lemma SpillStepValue(e: Enc)
    requires RawSound(e) && e.used >= 8 && SpillStep(e).ok
    ensures var f := SpillStep(e); e.ok && RawSound(f) && RawNum(f) == RawNum(e) && RawBits(f) == RawBits(e)
  {
    var f, m := SpillStep(e), 8 * |e.back|;
    assert f.back == e.back + [e.window % 256] && f.back[..|e.back|] == e.back;
    ShlByte(e.window / 256, m);
    ShlAdd(256 * (e.window / 256), e.window % 256, m);
    Pow2Byte(e.used - 8);
  }

  lemma ByteSplit(x: nat)
    ensures Shr(x, 8) == x / 256 && Low(x, 8) == x % 256
  {
    Pow2Values();
    ShlIsProduct(x / 256, 8);
    BitsUnique(x, 8, x / 256, x % 256);
  }

  lemma {:induction false} Pow2Byte(n: nat)
    ensures Pow2(n + 8) == 256 * Pow2(n)
  {
    if n > 0 { Pow2Byte(n - 1); } else { Pow2Values(); }
  }

  lemma {:induction false} SpillValue(e: Enc)
    requires RawSound(e) && SpillBack(e).ok
    ensures var f := SpillBack(e);
      e.ok && RawSound(f) && f.used < 8 && RawNum(f) == RawNum(e) && RawBits(f) == RawBits(e)
    decreases e.used
  {
    if e.used >= 8 {
      SpillKeepsOk(SpillStep(e));
      SpillStepValue(e);
      SpillValue(SpillStep(e));
    }
  }

  lemma {:induction false} SpillKeepsOk(e: Enc)
    ensures SpillBack(e).ok ==> e.ok
    decreases e.used
  {
    if e.used >= 8 { SpillKeepsOk(SpillStep(e)); }
  }

  /** Writing n bits appends them above the bits already there. */
  lemma BitsNValue(e: Enc, v: nat, n: nat)
    requires RawSound(e) && n <= 25 && v < Pow2(n) && BitsN(e, v, n).ok
    ensures var f := BitsN(e, v, n);
      && e.ok && RawSound(f) && RawBits(f) == RawBits(e) + n
      && RawNum(f) == RawNum(e) + Shl(v, RawBits(e))
  {
    var e1 := if e.used + n > 32 then SpillBack(e) else e;
    assert e.ok && RawSound(e1) && e1.used + n <= 32 && RawNum(e1) == RawNum(e) && RawBits(e1) == RawBits(e) by {
      if e.used + n > 32 { SpillValue(e); }
    }
    AppendValue(e1, v, n);
  }

  lemma AppendValue(e: Enc, v: nat, n: nat)
    requires RawSound(e) && v < Pow2(n) && e.used + n <= 32
    ensures var f := Append(e, v, n);
      RawSound(f) && RawBits(f) == RawBits(e) + n && RawNum(f) == RawNum(e) + Shl(v, RawBits(e))
  {
    var m := 8 * |e.back|;
    ShlAdd(e.window, Shl(v, e.used), m);
    ShlShl(v, e.used, m);
    ShlBelow(v, e.used, n, e.window);
  }

  lemma RawNumBound(e: Enc)
    requires RawSound(e)
    ensures RawNum(e) < Pow2(RawBits(e))
  {
    LeNatBound(e.back);
    ShlBelow(e.window, 8 * |e.back|, e.used, LeNat(e.back));
  }

  lemma {:induction false} LeNatBound(b: seq<u8>)
    ensures LeNat(b) < Pow2(8 * |b|)
  {
    if b != [] {
      LeNatBound(b[..|b| - 1]);
      Pow2Values();
      ShlBelow(b[|b| - 1], 8 * (|b| - 1), 8, LeNat(b[..|b| - 1]));
    }
  }

  /** If the buffer holds the bits after a write, it held the bits before it, and the write is there to be read. */
  lemma RawBack(s: seq<u8>, e: Enc, f: Enc, v: nat, n: nat)
    requires RawSound(e) && RawBits(f) == RawBits(e) + n && RawNum(f) == RawNum(e) + Shl(v, RawBits(e))
    requires RawInto(s, f)
    ensures RawInto(s, e) && Low(Shr(FromEnd(s, |s|), RawBits(e)), n) == v
  {
    RawNumBound(e);
    CutBits(FromEnd(s, |s|), RawBits(e), n, RawNum(e), v);
  }

  lemma CutBits(w: nat, m: nat, n: nat, lo: nat, v: nat)
    requires lo < Pow2(m) && Low(w, m + n) == lo + Shl(v, m)
    ensures Low(w, m) == lo && Low(Shr(w, m), n) == v
  {
    ShrLow(w, m, n);
    BitsUnique(Low(w, m + n), m, Low(Shr(w, m), n), Low(w, m));
    BitsUnique(Low(w, m + n), m, v, lo);
  }

  // ---------------------------------------------------------------- decoder

  /** With p bits consumed, the window holds the next avail bits of the tail. */
  ghost predicate RawFollows(d: Dec, s: seq<u8>, p: nat)
  {
    && d.buf == s && d.avail <= 32 && (p + d.avail) % 8 == 0 && d.endOffs == Min((p + d.avail) / 8, |s|)
    && d.window == Low(Shr(FromEnd(s, |s|), p), d.avail)
  }

  lemma {:induction false} FromEndByte(s: seq<u8>, k: nat, n: nat)
    requires k < n
    ensures Low(Shr(FromEnd(s, n), 8 * k), 8) == AtEnd(s, k)
    ensures Low(FromEnd(s, n), 8 * k) == FromEnd(s, k)
    decreases n
  {
    FromEndBound(s, n - 1);
    BitsUnique(FromEnd(s, n), 8 * (n - 1), AtEnd(s, n - 1), FromEnd(s, n - 1));
    if k == n - 1 {
      ByteSplit(AtEnd(s, k));
    } else {
      FromEndByte(s, k, n - 1);
      LowLow(FromEnd(s, n), 8 * (n - 1), 8 * k);
      LowLow(Shr(FromEnd(s, n), 8 * k), 8 * (n - 1) - 8 * k, 8);
    }
  }

  lemma {:induction false} FromEndBound(s: seq<u8>, k: nat)
    ensures FromEnd(s, k) < Pow2(8 * k)
  {
    if k > 0 {
      FromEndBound(s, k - 1);
      Pow2Values();
      ShlBelow(AtEnd(s, k - 1), 8 * (k - 1), 8, FromEnd(s, k - 1));
    }
  }

  /** The next byte from the end is the next eight bits of the tail, zero once the buffer is exhausted. */
  lemma TailByte(s: seq<u8>, k: nat)
    ensures Low(Shr(FromEnd(s, |s|), 8 * k), 8) == AtEnd(s, k)
  {
    if k < |s| {
      FromEndByte(s, k, |s|);
    } else {
      FromEndBound(s, |s|);
      Pow2Mono(8 * |s|, 8 * k);
      ShlIsProduct(0, 8 * k);
      BitsUnique(FromEnd(s, |s|), 8 * k, 0, FromEnd(s, |s|));
      ByteSplit(0);
    }
  }

  lemma {:induction false} RefillFollows(d: Dec, s: seq<u8>, p: nat)
    requires RawFollows(d, s, p) && d.avail <= 24
    ensures RawFollows(Refill(d), s, p) && Refill(d).avail > 24
    decreases 24 - d.avail
  {
    hide Shl, Shr, Low, FromEnd;
    var (d1, b) := ReadByteFromEnd(d);
    var d2 := d1.(window := d.window + Shl(b, d.avail), avail := d.avail + 8);
    var k := (p + d.avail) / 8;
    assert b == AtEnd(s, k) && (p + d2.avail) / 8 == k + 1 && p + d.avail == 8 * k;
    assert RawFollows(d2, s, p) by {
      TailByte(s, k);
      NextByte(FromEnd(s, |s|), p, d.avail);
    }
    if d2.avail <= 24 { RefillFollows(d2, s, p); }
  }

  lemma NextByte(w: nat, p: nat, a: nat)
    ensures Low(Shr(w, p), a + 8) == Low(Shr(w, p), a) + Shl(Low(Shr(w, p + a), 8), a)
  {
    ShrLow(w, p, a);
    ShrLow(Shr(w, p), a, 8);
  }

  /** Taking n bits yields the next n bits of the tail. */
  lemma TakeBitsFollows(d: Dec, s: seq<u8>, p: nat, n: nat)
    requires RawFollows(d, s, p) && n <= 25
    ensures TakeBits(d, n).1 == Low(Shr(FromEnd(s, |s|), p), n)
    ensures RawFollows(TakeBits(d, n).0, s, p + n)
  {
    hide Shl, FromEnd, Shr, Low, Refill;
    var d1 := if d.avail < n then Refill(d) else d;
    if d.avail < n { RefillFollows(d, s, p); }
    var x := Shr(FromEnd(s, |s|), p);
    LowLow(x, d1.avail, n);
    ShrLow(FromEnd(s, |s|), p, n);
  }
}
