/** The flush, and the main theorems about whole runs of the range coder. */
module RangeRoundTrip {
  import opened Arith
  import opened Words
  import opened RangeSpec
  import opened RawProof
  import opened RangeProof

  // ---------------------------------------------------------------- the flush block

  lemma {:induction false} IlogBounds(x: nat)
    requires x > 0
    ensures Ilog(x) > 0 && Pow2(Ilog(x) - 1) <= x < Pow2(Ilog(x))
  {
    if x > 1 { IlogBounds(x / 2); }
  }

  /** The flush picks an aligned block of code values lying wholly inside the final range. */
  lemma FlushBlockFits(e: Enc)
    requires Sound(e) && EncRange(e)
    ensures var (l, m, end) := FlushBlock(e.val, e.rng);
      && 0 <= l <= 9 && m + 1 == Pow2(31 - l) && Low(end, 31 - l) == 0
      && e.val <= end && end + m < e.val + e.rng && (l == 0 ==> end == 0 && e.rng == TOP && e.val == 0)
  {
    var k := Ilog(e.rng);
    IlogOfRange(e.rng);
    assert Pow2(k - 1) == 2 * Pow2(k - 2);
    if k == 32 { TopAligned(e.val); }
  }

  lemma IlogOfRange(rng: nat)
    requires BOT < rng <= TOP
    ensures var k := Ilog(rng); 24 <= k <= 32 && Pow2(k - 1) <= rng && (k == 32 ==> rng == TOP)
  {
    Pow2Values();
    IlogBounds(rng);
    IlogFits(rng, 32);
    if Ilog(rng) < 24 { Pow2Mono(Ilog(rng), 23); }
  }

  lemma TopAligned(val: nat)
    requires val < TOP
    ensures Pow2(31) == TOP && (AlignUp(val, 31) < TOP ==> val == 0 && AlignUp(val, 31) == 0)
  {
    Pow2Values();
    var a := AlignUp(val, 31);
    if a < TOP { LowSmall(a, 31); }
  }

  lemma AlignedTo(x: nat, n: nat, k: nat)
    requires k <= n && Low(x, n) == 0
    ensures x % Pow2(k) == 0
  {
    LowLow(x, n, k);
    LowSmall(0, k);
    LowIsMod(x, k);
  }

  /** Writing the leading symbol of end moves it from the value to the settled bytes. */
  lemma FlushSym(e: Enc, end: nat)
    requires -1 <= e.rem <= 255 && end < LIMIT && (e.rem == -1 || e.rem == 255 ==> end < TOP)
    requires CarryOut(e, end / BOT).ok
    ensures var f := CarryOut(e, end / BOT);
      && e.ok && -1 <= f.rem <= 255 && |Settled(f)| == |Settled(e)| + 1
      && TOP * Nat(Settled(f)) + 256 * (end % BOT) == 256 * (TOP * Nat(Settled(e)) + end)
  {
    CarryOutValue(e, end / BOT);
  }

  /** Once the leading bits of the block are out, nothing of it is left: the settled bytes are the block itself. */
  lemma FlushSymsValue(e: Enc, end: nat, l: int)
    requires Sound(e) && 0 <= l <= 9 && Low(end, 31 - l) == 0 && end < e.val + e.rng
    requires FlushSyms(e, end, l).ok
    ensures var f := FlushSyms(e, end, l);
      && e.ok && -1 <= f.rem <= 255 && |Settled(f)| == |Settled(e)| + (if l == 0 then 0 else if l <= 8 then 1 else 2)
      && (l == 0 ==> f == e)
      && (1 <= l <= 8 ==> TOP * Nat(Settled(f)) == 256 * (TOP * Nat(Settled(e)) + end))
      && (l == 9 ==> TOP * Nat(Settled(f)) == 65536 * (TOP * Nat(Settled(e)) + end))
  {
    if 1 <= l <= 8 {
      assert end % BOT == 0 by { AlignedTo(end, 31 - l, 23); Pow2Values(); }
      FlushSym(e, end);
    } else if l == 9 {
      assert end % 0x40_0000 == 0 by { AlignedTo(end, 22, 22); Pow2Values(); }
      FlushTwo(e, end);
    }
  }

  lemma ShiftedBlock(end: nat)
    requires end % 0x40_0000 == 0
    ensures end * 0x100 % TOP == 256 * (end % BOT) && (end * 0x100 % TOP) % BOT == 0
  {
    assert end % BOT == 0 || end % BOT == 0x40_0000;
  }

  lemma FlushTwo(e: Enc, end: nat)
    requires Sound(e) && end % 0x40_0000 == 0 && end < e.val + e.rng && FlushSyms(e, end, 9).ok
    ensures var f := FlushSyms(e, end, 9);
      && e.ok && -1 <= f.rem <= 255 && |Settled(f)| == |Settled(e)| + 2
      && TOP * Nat(Settled(f)) == 65536 * (TOP * Nat(Settled(e)) + end)
  {
    var e1, end1 := CarryOut(e, end / BOT), end * 0x100 % TOP;
    ShiftedBlock(end);
    var f := CarryOut(e1, end1 / BOT);
    assert FlushSyms(e, end, 9) == FlushSyms(e1, end1, 1) == FlushSyms(f, end1 * 0x100 % TOP, -7) == f;
    CarryOutFrame(e1, end1 / BOT);
    FlushSym(e, end);
    FlushSym(e1, end1);
  }

  lemma {:induction false} FlushKeepsOk(e: Enc, end: nat, l: int)
    ensures FlushSyms(e, end, l).ok ==> e.ok
    decreases l
  {
    if l > 0 {
      FlushKeepsOk(CarryOut(e, end / BOT), end * 0x100 % TOP, l - 8);
      CarryOutFrame(e, end / BOT);
    }
  }

  /** Resolving the pending bytes writes exactly the settled ones. */
  lemma ResolveOut(e: Enc)
    requires -1 <= e.rem <= 255
    ensures var f := if e.rem >= 0 || e.ext > 0 then CarryOut(e, 0) else e;
      f.ok ==> e.ok && f.out == Settled(e)
  {
    var e1 := if e.rem >= 0 then WriteByte(e, e.rem) else e;
    WriteRunKeeps(e1, 255);
  }

  /** Fields Done leaves alone, and what its last steps add. */
  lemma DoneParts(e: Enc)
    requires EncRange(e) && Done(e).ok
    ensures var (l, _, end) := FlushBlock(e.val, e.rng);
      var e1 := FlushSyms(e, end, l);
      var e2 := if e1.rem >= 0 || e1.ext > 0 then CarryOut(e1, 0) else e1;
      && e1.ok && e2.ok && SpillBack(e2).ok
      && Done(e) == SpillBack(e2) && Done(e).out == e2.out
      && (e2.room, e2.back, e2.window, e2.used) == (e.room, e.back, e.window, e.used)
  {
    var (l, _, end) := FlushBlock(e.val, e.rng);
    var e1 := FlushSyms(e, end, l);
    var e2 := if e1.rem >= 0 || e1.ext > 0 then CarryOut(e1, 0) else e1;
    FlushFrame(e, end, l);
    CarryOutFrame(e1, 0);
    SpillKeepsOk(e2);
    SpillKeepsFront(e2);
  }

  lemma {:induction false} FlushFrame(e: Enc, end: nat, l: int)
    ensures var f := FlushSyms(e, end, l);
      (f.room, f.back, f.window, f.used) == (e.room, e.back, e.window, e.used)
    decreases l
  {
    if l > 0 {
      FlushFrame(CarryOut(e, end / BOT), end * 0x100 % TOP, l - 8);
      CarryOutFrame(e, end / BOT);
    }
  }

  /** Every buffer that starts with the flushed bytes points into the final interval, whatever follows them. */
  lemma DonePoints(e: Enc, s: seq<u8>)
    requires Sound(e) && EncRange(e) && Done(e).ok && Done(e).out <= s
    ensures PointsInto(s, e)
  {
    var (l, m, end) := FlushBlock(e.val, e.rng);
    FlushBlockFits(e);
    var e1, out := FlushSyms(e, end, l), Done(e).out;
    assert e1.ok by { DoneParts(e); }
    FlushSymsValue(e, end, l);
    assert out == Settled(e1) by { DoneParts(e); ResolveOut(e1); }
    PrefixAgree(s, out, |out|);
    ContinuationInBlock(s, |out|, |Settled(e)|, Nat(Settled(e)), l, m, end);
  }

  lemma ContinuationInBlock(s: seq<u8>, n: nat, at: nat, top: nat, l: int, m: int, end: nat)
    requires 0 <= l <= 9 && m + 1 == Pow2(31 - l)
    requires n == at + (if l == 0 then 0 else if l <= 8 then 1 else 2)
    requires l == 0 ==> PrefixNat(s, n) == top && end == 0
    requires 1 <= l <= 8 ==> TOP * PrefixNat(s, n) == 256 * (TOP * top + end)
    requires l == 9 ==> TOP * PrefixNat(s, n) == 65536 * (TOP * top + end)
    ensures 2 * (top * TOP + end) <= PrefixNat(s, at + 4) <= 2 * (top * TOP + end + m) + 1
  {
    hide Pow2;
    Pow2Values();
    assert PrefixNat(s, at + 4) == 256 * PrefixNat(s, at + 3) + At(s, at + 3);
    assert PrefixNat(s, at + 3) == 256 * PrefixNat(s, at + 2) + At(s, at + 2);
    assert PrefixNat(s, at + 2) == 256 * PrefixNat(s, at + 1) + At(s, at + 1);
    assert PrefixNat(s, at + 1) == 256 * PrefixNat(s, at) + At(s, at);
    if l <= 8 { Pow2Mono(23, 31 - l); }
  }

  // ---------------------------------------------------------------- whole runs

  ghost predicate Ready(e: Enc)
  {
    Sound(e) && EncRange(e) && RawSound(e)
  }

  lemma EncodeKeepsOk(e: Enc, op: Op)
    requires EncRange(e) && Codable(op)
    ensures Encode(e, op).ok ==> e.ok
  {
    if op.Raw? {
      SpillKeepsOk(e);
    } else {
      SpanBounds(op, e.rng);
      var (near, far) := Span(op, e.rng);
      NormalizeKeepsOk(Cut(e, near, far));
    }
  }

  lemma {:induction false} EncodeAllKeepsOk(e: Enc, ops: seq<Op>)
    requires EncRange(e) && AllCodable(ops)
    ensures EncodeAll(e, ops).ok ==> e.ok
    decreases |ops|
  {
    if ops != [] {
      EncodeAllKeepsOk(Encode(e, ops[0]), ops[1..]);
      EncodeKeepsOk(e, ops[0]);
    }
  }

  lemma {:induction false} EncodeAllReady(e: Enc, ops: seq<Op>)
    requires Ready(e) && AllCodable(ops) && EncodeAll(e, ops).ok
    ensures Ready(EncodeAll(e, ops)) && EncodeAll(e, ops).room == e.room
    decreases |ops|
  {
    if ops != [] {
      EncodeAllKeepsOk(Encode(e, ops[0]), ops[1..]);
      EncodeSound(e, ops[0]);
      EncodeAllReady(Encode(e, ops[0]), ops[1..]);
    }
  }

  lemma {:induction false} EncodeAllSplit(e: Enc, a: seq<Op>, b: seq<Op>)
    requires EncRange(e) && AllCodable(a) && AllCodable(b)
    ensures AllCodable(a + b)
    ensures EncodeAll(e, a + b) == EncodeAll(EncodeAll(e, a), b)
    decreases |a|
  {
    if a == [] {
      assert a + b == b;
    } else {
      assert (a + b)[1..] == a[1..] + b;
      EncodeAllSplit(Encode(e, a[0]), a[1..], b);
    }
  }

  /** A buffer that agrees with the end of a run agreed with its start. */
  lemma {:induction false} RunBack(e: Enc, ops: seq<Op>, s: seq<u8>)
    requires Ready(e) && AllCodable(ops) && EncodeAll(e, ops).ok && Sound(EncodeAll(e, ops))
    requires Holds(s, EncodeAll(e, ops))
    ensures Holds(s, e)
    decreases |ops|
  {
    if ops != [] {
      EncodeAllKeepsOk(Encode(e, ops[0]), ops[1..]);
      EncodeSound(e, ops[0]);
      RunBack(Encode(e, ops[0]), ops[1..], s);
      StepBack(e, ops[0], s);
    }
  }

  /** In step at the start of a run, the decoder reads the run and is in step at its end. */
  lemma {:induction false} RunForward(e: Enc, ops: seq<Op>, s: seq<u8>, d: Dec)
    requires Ready(e) && AllCodable(ops) && EncodeAll(e, ops).ok && Sound(EncodeAll(e, ops))
    requires Holds(s, EncodeAll(e, ops)) && InStep(d, s, e)
    ensures DecRange(d) && Carries(d, ops) && InStep(AdvanceAll(d, ops), s, EncodeAll(e, ops))
    decreases |ops|
  {
    if ops != [] {
      EncodeAllKeepsOk(Encode(e, ops[0]), ops[1..]);
      EncodeSound(e, ops[0]);
      RunBack(Encode(e, ops[0]), ops[1..], s);
      StepForward(e, ops[0], s, d);
      RunForward(Encode(e, ops[0]), ops[1..], s, Advance(d, ops[0]));
    }
  }

  lemma NewInStep(s: seq<u8>, room: nat)
    ensures Ready(NewEnc(room)) && Holds(s, NewEnc(room)) && InStep(NewDec(s), s, NewEnc(room))
  {
    FollowInit(s, room);
    NewDecTail(s);
    assert Floor(NewEnc(room)) == 0;
  }

  lemma NewDecTail(s: seq<u8>)
    ensures NewDec(s).endOffs == 0 && NewDec(s).window == 0 && NewDec(s).avail == 0
  {
    var (d, b) := ReadByte(Dec(s, 0, 0, 0, 9, 0, 0x80, 0, 0, 0, false));
    DecNormalizeFrame(d.(rng := 0x80, rem := b, val := 0x7F - b / 2));
  }

  ghost predicate NoRaw(ops: seq<Op>) { forall i :: 0 <= i < |ops| ==> !ops[i].Raw? }

  lemma {:induction false} NoRawBits(e: Enc, ops: seq<Op>)
    requires Ready(e) && AllCodable(ops) && NoRaw(ops) && EncodeAll(e, ops).ok
    ensures RawBits(EncodeAll(e, ops)) == RawBits(e)
    decreases |ops|
  {
    if ops != [] {
      EncodeAllKeepsOk(Encode(e, ops[0]), ops[1..]);
      EncodeSound(e, ops[0]);
      NoRawBits(Encode(e, ops[0]), ops[1..]);
    }
  }

  lemma DoneKeepsOk(e: Enc)
    requires EncRange(e) && Done(e).ok
    ensures e.ok
  {
    var (l, _, end) := FlushBlock(e.val, e.rng);
    DoneParts(e);
    FlushKeepsOk(e, end, l);
  }

  /**
   The range coder round trip. Encode any steps, flush, and put anything after the flushed bytes: a decoder over
   that buffer reads the same steps back, with the same range and bit count after every one of them.
   */
  lemma RangeRoundTrip(room: nat, ops: seq<Op>, s: seq<u8>, i: nat)
    requires AllCodable(ops) && NoRaw(ops) && Done(EncodeAll(NewEnc(room), ops)).ok && i <= |ops|
    requires Done(EncodeAll(NewEnc(room), ops)).out <= s
    ensures Carries(NewDec(s), ops)
    ensures AllCodable(ops[..i]) && Carries(NewDec(s), ops[..i])
    ensures var (d, e) := (AdvanceAll(NewDec(s), ops[..i]), EncodeAll(NewEnc(room), ops[..i]));
      d.rng == e.rng && d.nbits == e.nbits && !d.err
  {
    var e0 := NewEnc(room);
    var e := EncodeAll(e0, ops);
    NewInStep(s, room);
    DoneKeepsOk(e);
    EncodeAllReady(e0, ops);
    DonePoints(e, s);
    NoRawBits(e0, ops);
    RunForward(e0, ops, s, NewDec(s));
    RunPrefix(e0, ops, i, s);
  }

  lemma RunPrefix(e0: Enc, ops: seq<Op>, i: nat, s: seq<u8>)
    requires Ready(e0) && AllCodable(ops) && i <= |ops| && EncodeAll(e0, ops).ok
    requires Sound(EncodeAll(e0, ops)) && Holds(s, EncodeAll(e0, ops)) && InStep(NewDec(s), s, e0)
    ensures AllCodable(ops[..i]) && Carries(NewDec(s), ops[..i])
    ensures Sound(EncodeAll(e0, ops[..i])) && InStep(AdvanceAll(NewDec(s), ops[..i]), s, EncodeAll(e0, ops[..i]))
  {
    assert ops == ops[..i] + ops[i..];
    EncodeAllSplit(e0, ops[..i], ops[i..]);
    RunTwo(e0, ops[..i], ops[i..], EncodeAll(e0, ops[..i]), s);
  }

  lemma RunTwo(e0: Enc, a: seq<Op>, b: seq<Op>, m: Enc, s: seq<u8>)
    requires Ready(e0) && AllCodable(a) && AllCodable(b) && m == EncodeAll(e0, a) && EncodeAll(m, b).ok
    requires Sound(EncodeAll(m, b)) && Holds(s, EncodeAll(m, b)) && InStep(NewDec(s), s, e0)
    ensures Carries(NewDec(s), a) && Sound(m) && InStep(AdvanceAll(NewDec(s), a), s, m)
  {
    EncodeAllKeepsOk(m, b);
    EncodeAllReady(e0, a);
    RunBack(m, b, s);
    RunForward(e0, a, s, NewDec(s));
  }

  // ---------------------------------------------------------------- front and back together

  ghost predicate Fits(e: Enc) { |e.out| + |e.back| <= e.room }

  lemma {:induction false} WriteRunFits(e: Enc, b: int)
    requires Fits(e)
    ensures Fits(WriteRun(e, b))
    decreases e.ext
  {
    if e.ext > 0 { WriteRunFits(WriteByte(e, b).(ext := e.ext - 1), b); }
  }

  lemma CarryOutFits(e: Enc, c: nat)
    requires Fits(e)
    ensures Fits(CarryOut(e, c))
  {
    var e1 := if e.rem >= 0 then WriteByte(e, e.rem + c / 256) else e;
    WriteRunFits(e1, (255 + c / 256) % 256);
  }

  lemma {:induction false} SpillFits(e: Enc)
    requires Fits(e)
    ensures Fits(SpillBack(e))
    decreases e.used
  {
    if e.used >= 8 { SpillFits(SpillStep(e)); }
  }

  lemma {:induction false} NormalizeFits(e: Enc)
    requires Fits(e) && e.rng > 0
    ensures Fits(Normalize(e))
    decreases TOP - e.rng
  {
    if e.rng <= BOT {
      CarryOutFits(e, e.val / BOT);
      NormalizeFits(NormStep(e));
    }
  }

  lemma {:induction false} EncodeAllFits(e: Enc, ops: seq<Op>)
    requires Fits(e) && EncRange(e) && AllCodable(ops)
    ensures Fits(EncodeAll(e, ops))
    decreases |ops|
  {
    if ops != [] {
      var op := ops[0];
      if op.Raw? {
        SpillFits(e);
      } else {
        SpanBounds(op, e.rng);
        var (near, far) := Span(op, e.rng);
        NormalizeFits(Cut(e, near, far));
      }
      EncodeAllFits(Encode(e, op), ops[1..]);
    }
  }

  lemma {:induction false} FlushFits(e: Enc, end: nat, l: int)
    requires Fits(e)
    ensures Fits(FlushSyms(e, end, l))
    decreases l
  {
    if l > 0 {
      CarryOutFits(e, end / BOT);
      FlushFits(CarryOut(e, end / BOT), end * 0x100 % TOP, l - 8);
    }
  }

  lemma DoneFits(e: Enc)
    requires Fits(e) && EncRange(e) && Done(e).ok
    ensures Fits(Done(e)) && |Done(e).out| + |Done(e).back| + (if Done(e).used > 0 then 1 else 0) <= Done(e).room
  {
    var (l, _, end) := FlushBlock(e.val, e.rng);
    FlushFits(e, end, l);
    var e1 := FlushSyms(e, end, l);
    CarryOutFits(e1, 0);
    SpillFits(if e1.rem >= 0 || e1.ext > 0 then CarryOut(e1, 0) else e1);
  }

  /** The finished buffer ends with the raw bits. */
  lemma FinishedRaw(f: Enc)
    requires f.ok && RawSound(f) && f.used < 8 && |f.out| + |f.back| + (if f.used > 0 then 1 else 0) <= f.room
    ensures f.out <= Finished(f) && RawInto(Finished(f), f)
  {
    var s, n := Finished(f), |f.back|;
    var k := if f.used > 0 then n + 1 else n;
    assert FromEnd(s, k) == RawNum(f) by { FinishedTail(f); }
    TailBits(s, k, RawBits(f));
    RawNumBound(f);
    LowSmall(RawNum(f), RawBits(f));
  }

  lemma FinishedTail(f: Enc)
    requires f.ok && RawSound(f) && f.used < 8 && |f.out| + |f.back| + (if f.used > 0 then 1 else 0) <= f.room
    ensures FromEnd(Finished(f), if f.used > 0 then |f.back| + 1 else |f.back|) == RawNum(f)
  {
    hide Shl;
    var s, n := Finished(f), |f.back|;
    forall i | 0 <= i < n ensures AtEnd(s, i) == f.back[i] { }
    TailIsBack(s, f.back, n);
    assert f.back[..n] == f.back;
    if f.used > 0 {
      Pow2Mono(f.used, 8);
      Pow2Values();
      assert AtEnd(s, n) == f.window;
    } else {
      ShlIsProduct(0, 8 * n);
    }
  }

  lemma TailBits(s: seq<u8>, k: nat, n: nat)
    requires k <= |s| && n <= 8 * k
    ensures Low(FromEnd(s, |s|), n) == Low(FromEnd(s, k), n)
  {
    if k < |s| {
      FromEndByte(s, k, |s|);
      LowLow(FromEnd(s, |s|), 8 * k, n);
    }
  }

  lemma {:induction false} TailIsBack(s: seq<u8>, b: seq<u8>, k: nat)
    requires k <= |b| && forall i :: 0 <= i < k ==> AtEnd(s, i) == b[i]
    ensures FromEnd(s, k) == LeNat(b[..k])
  {
    if k > 0 {
      TailIsBack(s, b, k - 1);
      assert b[..k][..k - 1] == b[..k - 1];
    }
  }

  lemma DoneRaw(e: Enc)
    requires Ready(e) && Fits(e) && Done(e).ok
    ensures |Done(e).out| + |Done(e).back| + (if Done(e).used > 0 then 1 else 0) <= Done(e).room
    ensures Done(e).out <= Finished(Done(e)) && RawInto(Finished(Done(e)), e)
  {
    DoneParts(e);
    DoneFits(e);
    var (l, _, end) := FlushBlock(e.val, e.rng);
    var e1 := FlushSyms(e, end, l);
    var e2 := if e1.rem >= 0 || e1.ext > 0 then CarryOut(e1, 0) else e1;
    assert RawNum(e2) == RawNum(e) && RawBits(e2) == RawBits(e);
    SpillValue(e2);
    FinishedRaw(Done(e));
  }

  /**
   Mixed coding. Any interleaving of range-coded steps and raw bits decodes from the finished buffer, and the
   bytes written from the front, the partial raw byte and the bytes written from the end are disjoint.
   */
  lemma MixedRoundTrip(room: nat, ops: seq<Op>)
    requires AllCodable(ops) && Done(EncodeAll(NewEnc(room), ops)).ok
    ensures var f := Done(EncodeAll(NewEnc(room), ops));
      |f.out| + |f.back| + (if f.used > 0 then 1 else 0) <= f.room == room
      && Carries(NewDec(Finished(f)), ops)
  {
    var e0 := NewEnc(room);
    var e := EncodeAll(e0, ops);
    NewInStep([], room);
    DoneKeepsOk(e);
    EncodeAllReady(e0, ops);
    EncodeAllFits(e0, ops);
    DoneRaw(e);
    DoneParts(e);
    var s := Finished(Done(e));
    DonePoints(e, s);
    SpillRoom(e);
    NewInStep(s, room);
    RunForward(e0, ops, s, NewDec(s));
  }

  lemma SpillRoom(e: Enc)
    requires EncRange(e) && Done(e).ok
    ensures Done(e).room == e.room
  {
    DoneParts(e);
    var (l, _, end) := FlushBlock(e.val, e.rng);
    var e1 := FlushSyms(e, end, l);
    SpillKeepsFront(if e1.rem >= 0 || e1.ext > 0 then CarryOut(e1, 0) else e1);
  }
}
