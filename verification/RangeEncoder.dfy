/** The encoder object: every method moves the fields exactly as the state machine Enc prescribes. */
module RangeEncoder {
  import opened Arith
  import opened Words
  import opened RangeSpec
  import opened CdfSpec
  import opened RawProof
  import opened RangeProof
  import opened RangeRoundTrip

  const SYM_MAX := 255

  class RangeEncoder {
    const buf: array<u8>
    var endOffs: nat
    var endWindow: u32
    var nendBits: nat
    var nbitsTotal: int
    var offs: nat
    var rng: u32
    var val: u32
    var ext: nat
    var rem: int
    var err: int

    /** The steps taken so far, and the bytes at the two ends of the buffer (the end's in writing order). */
    ghost var written: seq<Op>
    ghost var front: seq<u8>
    ghost var tail: seq<u8>

    ghost predicate Bounds()
      reads this, buf
    {
      && offs + endOffs <= buf.Length && |front| == offs && |tail| == endOffs
      && (forall i :: 0 <= i < offs ==> buf[i] == front[i])
      && (forall i :: 0 <= i < endOffs ==> buf[buf.Length - 1 - i] == tail[i])
    }

    ghost function State(): Enc
      reads this
    {
      Enc(buf.Length, front, tail, endWindow, nendBits, nbitsTotal, rng, val, ext, rem, err == 0)
    }

    /** While no write has failed, the fields are the state machine's after the steps written. */
    ghost predicate Valid()
      reads this, buf
    {
      && Bounds() && Sound(State()) && EncRange(State()) && RawSound(State())
      && AllCodable(written) && (err == 0 ==> State() == EncodeAll(NewEnc(buf.Length), written))
    }

    /** Nothing was refused: even after a full buffer, the fields are the state machine's after the steps written. */
    ghost predicate Clean()
      reads this, buf
      ensures Clean() ==> Valid()
    {
      Valid() && State() == EncodeAll(NewEnc(buf.Length), written)
    }

    constructor (size: nat)
      ensures Clean() && Valid() && written == [] && err == 0 && buf.Length == size && fresh(buf)
      ensures State() == NewEnc(size)
    {
      buf := new u8[size](_ => 0);
      endOffs, endWindow, nendBits, nbitsTotal, offs := 0, 0, 0, 33, 0;
      rng, val, ext, rem, err := TOP, 0, 0, -1, 0;
      written, front, tail := [], [], [];
      new;
      NewInStep([], size);
    }

    method WriteByte(b: int)
      requires Bounds()
      modifies this`offs, this`front, this`err, buf
      ensures Bounds() && State() == RangeSpec.WriteByte(old(State()), b)
    {
      if offs + endOffs < buf.Length {
        buf[offs] := b % 0x100;
        offs := offs + 1;
        front := front + [b % 0x100];
      } else {
        err := -1;
      }
    }

    method WriteByteAtEnd(b: int)
      requires Bounds()
      modifies this`endOffs, this`tail, this`err, buf
      ensures Bounds() && State() == RangeSpec.WriteByteAtEnd(old(State()), b)
    {
      if offs + endOffs < buf.Length {
        endOffs := endOffs + 1;
        buf[buf.Length - endOffs] := b % 0x100;
        tail := tail + [b % 0x100];
      } else {
        err := -1;
      }
    }

    /** Write the same byte until no 0xFF is pending. */
    method ReleasePending(sym: u8)
      requires Bounds()
      modifies this`offs, this`front, this`err, this`ext, buf
      ensures Bounds() && State() == WriteRun(old(State()), sym)
    {
      ghost var start := State();
      while ext > 0
        invariant Bounds() && WriteRun(State(), sym) == WriteRun(start, sym)
        decreases ext
      {
        WriteByte(sym);
        ext := ext - 1;
      }
    }

    method CarryOut(c: nat)
      requires Bounds()
      modifies this`offs, this`front, this`err, this`ext, this`rem, buf
      ensures Bounds() && State() == RangeSpec.CarryOut(old(State()), c)
    {
      if c != SYM_MAX {
        var carry := c / 0x100;
        if rem >= 0 { WriteByte(rem + carry); }
        ghost var e1 := State();
        if ext > 0 { ReleasePending((SYM_MAX + carry) % 0x100); }
        assert State() == WriteRun(e1, (SYM_MAX + carry) % 0x100);
        rem := c % 0x100;
      } else {
        ext := ext + 1;
      }
    }

    method Normalize()
      requires Bounds() && Sound(State())
      modifies this`offs, this`front, this`err, this`ext, this`rem, this`val, this`rng, this`nbitsTotal, buf
      ensures Bounds() && State() == RangeSpec.Normalize(old(State())) && Sound(State()) && EncRange(State())
    {
      ghost var start := State();
      while rng <= BOT
        invariant Bounds() && Sound(State()) && RangeSpec.Normalize(State()) == RangeSpec.Normalize(start)
        decreases TOP - rng
      {
        ghost var before := State();
        CarryFrame(before, val / BOT);
        NormStepSound(before);
        CarryOut(val / BOT);
        val := val * 0x100 % TOP;
        rng := rng * 0x100;
        nbitsTotal := nbitsTotal + 8;
        assert State() == NormStep(before);
      }
    }

    /** Take the new interval and renormalise: the tail shared by every range-coded step. */
    method Shrink(newVal: nat, newRng: nat, ghost op: Op)
      requires Valid() && Codable(op) && Narrows(State(), op, newVal, newRng)
      modifies this`offs, this`front, this`err, this`ext, this`rem, this`val, this`rng, this`nbitsTotal, this`written, buf
      ensures Valid() && State() == RangeSpec.Encode(old(State()), op) && written == old(written) + [op]
      ensures old(Clean()) ==> Clean()
    {
      ghost var next := RangeSpec.Encode(State(), op);
      Extended(State(), op, buf.Length, written);
      val, rng := newVal, newRng;
      Normalize();
      assert State() == next;
      written := written + [op];
    }

    method Encode(fl: nat, fh: nat, ft: nat)
      requires Valid() && (ft == 0 || Codable(Sym(fl, fh, ft)))
      modifies this`offs, this`front, this`err, this`ext, this`rem, this`val, this`rng, this`nbitsTotal, this`written, buf
      ensures Valid()
      ensures ft == 0 ==> err != 0 && written == old(written) && State() == old(State()).(ok := false)
      ensures ft > 0 ==> State() == RangeSpec.Encode(old(State()), Sym(fl, fh, ft)) && written == old(written) + [Sym(fl, fh, ft)]
      ensures ft > 0 && old(Clean()) ==> Clean()
    {
      if ft == 0 {
        err := -1;
        return;
      }
      hide RangeSpec.Encode, RangeSpec.Normalize, Times, Quot;
      var r := rng / ft;
      QuotIs(rng, ft);
      TimesIs(r, ft - fh);
      TimesIs(r, ft - fl);
      TimesIs(r, fh - fl);
      SymNarrows(State(), fl, fh, ft);
      if fl > 0 {
        Shrink(val + (rng - r * (ft - fl)), r * (fh - fl), Sym(fl, fh, ft));
      } else {
        Shrink(val, rng - r * (ft - fh), Sym(fl, fh, ft));
      }
    }

    method BitLogp(one: bool, logp: nat)
      requires Valid() && Codable(Bit(one, logp))
      modifies this`offs, this`front, this`err, this`ext, this`rem, this`val, this`rng, this`nbitsTotal, this`written, buf
      ensures Valid() && State() == RangeSpec.Encode(old(State()), Bit(one, logp)) && written == old(written) + [Bit(one, logp)]
      ensures old(Clean()) ==> Clean()
    {
      var s := Shr(rng, logp);
      var r2 := rng - s;
      CutReady(State(), Bit(one, logp));
      if one { Shrink(val + r2, s, Bit(one, logp)); } else { Shrink(val, r2, Bit(one, logp)); }
    }

    method EncodeICDF(s: nat, icdf: seq<u8>, ftb: nat)
      requires Valid() && Codable(Icdf(s, icdf, ftb))
      modifies this`offs, this`front, this`err, this`ext, this`rem, this`val, this`rng, this`nbitsTotal, this`written, buf
      ensures Valid() && State() == RangeSpec.Encode(old(State()), Icdf(s, icdf, ftb)) && written == old(written) + [Icdf(s, icdf, ftb)]
      ensures old(Clean()) ==> Clean()
    {
      hide RangeSpec.Encode, RangeSpec.Normalize, Times, Shr;
      var r := Shr(rng, ftb);
      IcdfNarrows(State(), s, icdf, ftb);
      TimesIs(r, icdf[s]);
      if s > 0 {
        TimesIs(r, icdf[s - 1]);
        TimesIs(r, icdf[s - 1] - icdf[s]);
        Shrink(val + (rng - r * icdf[s - 1]), r * (icdf[s - 1] - icdf[s]), Icdf(s, icdf, ftb));
      } else {
        Shrink(val, rng - r * icdf[s], Icdf(s, icdf, ftb));
      }
    }

    /** A symbol with no cell in the table, or a table with no cells, is refused; nothing is written. */
    method EncodeCDF(s: int, cdf: seq<u16>)
      requires Valid() && (Degenerate(cdf) || s < 0 || s + 1 >= |cdf| || Codes(cdf, s))
      modifies this`offs, this`front, this`err, this`ext, this`rem, this`val, this`rng, this`nbitsTotal, this`written, buf
      ensures Valid()
      ensures !Codes(cdf, s) ==> err != 0 && written == old(written) && State() == old(State()).(ok := false)
      ensures Codes(cdf, s) ==> State() == RangeSpec.Encode(old(State()), CdfOp(cdf, s)) && written == old(written) + [CdfOp(cdf, s)]
      ensures Codes(cdf, s) && old(Clean()) ==> Clean()
    {
      var n := |cdf|;
      if n < 2 || s < 0 || s + 1 >= n {
        err := -1;
        return;
      }
      var base := cdf[0];
      if cdf[n - 1] <= base {
        err := -1;
        return;
      }
      var ft := cdf[n - 1] - base;
      Encode(cdf[s] - base, cdf[s + 1] - base, ft);
    }

    /** Write the whole bytes of the raw window; the rest of it is left in `window`. */
    method FlushRaw() returns (window: nat, used: nat)
      requires Bounds()
      modifies this`endOffs, this`tail, this`err, buf
      ensures Bounds() && used < 8 && State().(window := window, used := used) == SpillBack(old(State()))
    {
      ghost var start := State();
      window, used := endWindow, nendBits;
      while used >= 8
        invariant Bounds() && SpillBack(State().(window := window, used := used)) == SpillBack(start)
      {
        WriteByteAtEnd(window % 0x100);
        window := window / 0x100;
        used := used - 8;
      }
    }

    method BitsN(fl: nat, n: nat)
      requires Valid() && Codable(Raw(fl, n))
      modifies this`endOffs, this`tail, this`err, this`endWindow, this`nendBits, this`nbitsTotal, this`written, buf
      ensures Valid() && State() == RangeSpec.Encode(old(State()), Raw(fl, n)) && written == old(written) + [Raw(fl, n)]
      ensures old(Clean()) ==> Clean()
    {
      hide Shl;
      ghost var start := State();
      ghost var next := RangeSpec.Encode(start, Raw(fl, n));
      RawStepSound(start, fl, n);
      Extended(start, Raw(fl, n), buf.Length, written);
      var window: nat, used: nat := endWindow, nendBits;
      if used + n > 32 { window, used := FlushRaw(); }
      endWindow := window + Shl(fl, used);
      nendBits := used + n;
      nbitsTotal := nbitsTotal + n;
      assert State() == next;
      written := written + [Raw(fl, n)];
    }

    /** High part range coded, low part raw. */
    method EncodeParts(hi: nat, t: nat, lo: nat, n: nat)
      requires Valid() && Codable(Sym(hi, hi + 1, t)) && Codable(Raw(lo, n))
      modifies this, buf
      ensures Valid() && written == old(written) + [Sym(hi, hi + 1, t), Raw(lo, n)]
      ensures old(Clean()) ==> Clean()
    {
      Encode(hi, hi + 1, t);
      BitsN(lo, n);
    }

    method EncodeUint(fl: nat, ft0: nat)
      requires Valid() && fl < ft0 && 2 <= ft0 < WORD
      modifies this, buf
      ensures Valid() && written == old(written) + UintOps(fl, ft0)
      ensures old(Clean()) ==> Clean()
    {
      hide Shr, Low;
      var ft := ft0 - 1;
      var ftb := Ilog(ft);
      if ftb > 8 {
        var shift := ftb - 8;
        LongUint(fl, ft0);
        var t, hi, lo := Shr(ft, shift) + 1, Shr(fl, shift), Low(fl, shift);
        EncodeParts(hi, t, lo, shift);
      } else {
        UintSmall(ft);
        assert UintOps(fl, ft0) == [Sym(fl, fl + 1, ft0)];
        Encode(fl, fl + 1, ft + 1);
      }
    }

    method EncodeRawSymbol(sym: nat, nbits: nat)
      requires Valid() && nbits <= 23 && sym < Pow2(nbits)
      modifies this`offs, this`front, this`err, this`ext, this`rem, this`val, this`rng, this`nbitsTotal, this`written, buf
      ensures Valid() && State() == RangeSpec.Encode(old(State()), RawSymOp(sym, nbits)) && written == old(written) + [RawSymOp(sym, nbits)]
      ensures old(Clean()) ==> Clean()
    {
      ghost var op := RawSymOp(sym, nbits);
      Encode(sym, sym + 1, Pow2(nbits));
    }

    /** The widest aligned block of code values inside the current range. */
    method PickBlock() returns (l: int, msk: nat, end: nat)
      requires Valid()
      ensures (l, msk, end) == FlushBlock(val, rng) && l <= 31
    {
      FlushTerms(State());
      l := 32 - Ilog(rng);
      msk := Pow2(31 - l) - 1;
      end := AlignUp(val, 31 - l);
      if end + msk >= val + rng {
        l := l + 1;
        msk := msk / 2;
        end := AlignUp(val, 31 - l);
      }
    }

    /** Write the leading symbols of the chosen block, then settle what is pending. */
    method FlushRange()
      requires Valid()
      modifies this`offs, this`front, this`err, this`ext, this`rem, buf
      ensures Bounds() && State() == Resolved(old(State()))
    {
      ghost var start := State();
      var l, msk, first := PickBlock();
      var end: nat := first;
      ghost var end0, l0 := end, l;
      while l > 0
        invariant Bounds() && FlushSyms(State(), end, l) == FlushSyms(start, end0, l0)
      {
        CarryOut(end / BOT);
        end := end * 0x100 % TOP;
        l := l - 8;
      }
      if rem >= 0 || ext > 0 { CarryOut(0); }
    }

    /** Clear the gap between front and back. */
    method ClearGap()
      requires Bounds()
      modifies buf
      ensures Bounds() && forall k :: offs <= k < buf.Length - endOffs ==> buf[k] == 0
    {
      for i := offs to buf.Length - endOffs
        invariant Bounds() && forall k :: offs <= k < i ==> buf[k] == 0
      {
        buf[i] := 0;
      }
    }

    /** The last partial raw byte shares no byte with either end. */
    method MergePartial(window: nat, used: nat)
      requires Bounds() && err == 0 && forall k :: offs <= k < buf.Length - endOffs ==> buf[k] == 0
      modifies this`err, buf
      ensures Bounds() && (err == 0 <==> used == 0 || offs + endOffs < buf.Length)
      ensures used > 0 && err == 0 ==> buf[buf.Length - endOffs - 1] == window % 0x100
      ensures forall k :: offs <= k < buf.Length - endOffs - (if used > 0 then 1 else 0) ==> buf[k] == 0
    {
      if used > 0 {
        if endOffs >= buf.Length - offs {
          err := -1;
        } else {
          buf[buf.Length - endOffs - 1] := window % 0x100;
        }
      }
    }

    /** Flush everything. Afterwards, unless a write failed, the buffer is the finished one of the steps written. */
    method Done()
      requires Valid()
      modifies this`offs, this`front, this`err, this`ext, this`rem, this`endOffs, this`tail, buf
      ensures err == 0 <==> RangeSpec.Done(old(State())).ok
      ensures err == 0 ==> var f := RangeSpec.Done(EncodeAll(NewEnc(buf.Length), written));
        && f.ok && |f.out| + |f.back| + (if f.used > 0 then 1 else 0) <= f.room == buf.Length
        && buf[..] == Finished(f) && offs == |f.out| && endOffs == |f.back|
    {
      hide SpillBack, Finished, FlushSyms, FlushBlock;
      ghost var start := State();
      FlushRange();
      var window, used := FlushRaw();
      ghost var f := State().(window := window, used := used);
      assert f == SpillBack(Resolved(start));
      if err == 0 {
        ClearGap();
        MergePartial(window, used);
      }
      if err == 0 {
        DoneKeepsOk(start);
        Layout(f, buf[..]);
      }
    }
  }

  ghost function Resolved(e: Enc): Enc
    requires EncRange(e)
  {
    var (l, _, end) := FlushBlock(e.val, e.rng);
    var e1 := FlushSyms(e, end, l);
    if e1.rem >= 0 || e1.ext > 0 then RangeSpec.CarryOut(e1, 0) else e1
  }

  /** A successful step keeps the record of a successful run. */
  lemma Extended(start: Enc, op: Op, size: nat, written: seq<Op>)
    requires EncRange(start) && Codable(op) && AllCodable(written)
    requires start.ok ==> start == EncodeAll(NewEnc(size), written)
    ensures AllCodable(written + [op])
    ensures RangeSpec.Encode(start, op).ok ==> RangeSpec.Encode(start, op) == EncodeAll(NewEnc(size), written + [op])
    ensures start == EncodeAll(NewEnc(size), written) ==> RangeSpec.Encode(start, op) == EncodeAll(NewEnc(size), written + [op])
  {
    EncodeKeepsOk(start, op);
    EncodeAllSplit(NewEnc(size), written, [op]);
  }

  lemma LongUint(v: nat, ft0: nat)
    requires v < ft0 && 2 <= ft0 < WORD && Ilog(ft0 - 1) > 8
    ensures var shift := Ilog(ft0 - 1) - 8;
      var (t, hi, lo) := (Shr(ft0 - 1, shift) + 1, Shr(v, shift), Low(v, shift));
      UintOps(v, ft0) == [Sym(hi, hi + 1, t), Raw(lo, shift)] && Codable(Sym(hi, hi + 1, t)) && Codable(Raw(lo, shift))
  {
    UintShift(v, ft0 - 1);
  }

  /** newVal and newRng are what the step makes of val and rng before renormalising. */
  ghost predicate Narrows(e: Enc, op: Op, newVal: int, newRng: int)
    requires Codable(op) && EncRange(e)
  {
    && newVal >= 0 && newRng > 0
    && var c := e.(val := newVal, rng := newRng);
    && Sound(c)
    && RangeSpec.Encode(e, op) == RangeSpec.Normalize(c) && RawSound(RangeSpec.Encode(e, op))
  }

  lemma CutReady(e: Enc, op: Op)
    requires Sound(e) && EncRange(e) && RawSound(e) && Codable(op) && !op.Raw?
    ensures var (near, far) := Span(op, e.rng);
      0 <= near < far <= e.rng && Narrows(e, op, e.val + e.rng - far, far - near)
  {
    hide Span, RangeSpec.Normalize;
    SpanBounds(op, e.rng);
    var (near, far) := Span(op, e.rng);
    NormalizeFrame(Cut(e, near, far));
  }

  lemma SymNarrows(e: Enc, fl: nat, fh: nat, ft: nat)
    requires Sound(e) && EncRange(e) && RawSound(e) && Codable(Sym(fl, fh, ft))
    ensures var r := Quot(e.rng, ft);
      if fl > 0 then Narrows(e, Sym(fl, fh, ft), e.val + (e.rng - Times(r, ft - fl)), Times(r, fh - fl))
      else Narrows(e, Sym(fl, fh, ft), e.val, e.rng - Times(r, ft - fh))
  {
    hide RangeSpec.Normalize, RangeSpec.Encode, Quot, Times;
    CutReady(e, Sym(fl, fh, ft));
    var r := Quot(e.rng, ft);
    TimesDist(r, fh - fl, ft - fh);
  }

  lemma IcdfNarrows(e: Enc, s: nat, icdf: seq<u8>, ftb: nat)
    requires Sound(e) && EncRange(e) && RawSound(e) && Codable(Icdf(s, icdf, ftb))
    ensures var r := Shr(e.rng, ftb);
      if s > 0 then Narrows(e, Icdf(s, icdf, ftb), e.val + (e.rng - Times(r, icdf[s - 1])), Times(r, icdf[s - 1] - icdf[s]))
      else Narrows(e, Icdf(s, icdf, ftb), e.val, e.rng - Times(r, icdf[s]))
  {
    hide RangeSpec.Normalize, RangeSpec.Encode, Shr, Times;
    CutReady(e, Icdf(s, icdf, ftb));
    if s > 0 { TimesDist(Shr(e.rng, ftb), icdf[s - 1] - icdf[s], icdf[s]); }
  }

  lemma Layout(f: Enc, s: seq<u8>)
    requires f.ok && |s| == f.room && |f.out| + |f.back| + (if f.used > 0 then 1 else 0) <= f.room
    requires forall k :: 0 <= k < |f.out| ==> s[k] == f.out[k]
    requires forall k :: 0 <= k < |f.back| ==> s[|s| - 1 - k] == f.back[k]
    requires forall k :: |f.out| <= k < |s| - |f.back| - (if f.used > 0 then 1 else 0) ==> s[k] == 0
    requires f.used > 0 ==> s[|s| - |f.back| - 1] == f.window % 0x100
    ensures s == Finished(f)
  {
    var t := Finished(f);
    forall k | 0 <= k < |s| ensures s[k] == t[k]
    {
      RepeatAt(0, f.room - |f.out| - |f.back|);
      if f.used > 0 { RepeatAt(0, f.room - |f.out| - |f.back| - 1); }
      if k >= |s| - |f.back| { assert s[|s| - 1 - (|s| - 1 - k)] == f.back[|s| - 1 - k]; }
    }
  }

  lemma {:induction false} RepeatAt(b: u8, n: nat)
    ensures forall i :: 0 <= i < n ==> Repeat(b, n)[i] == b
  {
    if n > 0 { RepeatAt(b, n - 1); }
  }

  lemma CarryFrame(e: Enc, c: nat)
    ensures var f := RangeSpec.CarryOut(e, c);
      (f.val, f.rng, f.nbits, f.back, f.window, f.used, f.room) == (e.val, e.rng, e.nbits, e.back, e.window, e.used, e.room)
  {
    CarryOutFrame(e, c);
  }

  /** Soundness does not depend on the writes having succeeded. */
  lemma NormStepSound(e: Enc)
    requires Sound(e) && e.rng <= BOT
    ensures Sound(NormStep(e))
  {
    var c := e.val / BOT;
    CarryOutFrame(e, c);
    if c != 255 {
      var e1 := if e.rem >= 0 then RangeSpec.WriteByte(e, e.rem + c / 256) else e;
      WriteRunKeeps(e1, (255 + c / 256) % 256);
    }
  }

  lemma {:induction false} NormalizeFrame(e: Enc)
    requires e.rng > 0
    ensures var f := RangeSpec.Normalize(e); (f.back, f.window, f.used, f.room) == (e.back, e.window, e.used, e.room)
    decreases TOP - e.rng
  {
    if e.rng <= BOT {
      CarryOutFrame(e, e.val / BOT);
      NormalizeFrame(NormStep(e));
    }
  }

  lemma SpillRoomy(e: Enc)
    ensures SpillBack(e).room == e.room && SpillBack(e).used < 8
    decreases e.used
  {
    if e.used >= 8 { SpillRoomy(SpillStep(e)); }
  }

  lemma {:induction false} SpillWindow(e: Enc)
    requires RawSound(e)
    ensures RawSound(SpillBack(e))
    decreases e.used
  {
    if e.used >= 8 {
      Pow2Byte(e.used - 8);
      SpillWindow(SpillStep(e));
    }
  }

  lemma RawStepSound(e: Enc, v: nat, n: nat)
    requires Sound(e) && EncRange(e) && RawSound(e) && Codable(Raw(v, n))
    ensures var f := RangeSpec.Encode(e, Raw(v, n)); Sound(f) && EncRange(f) && RawSound(f) && f.window < WORD
    ensures var e1 := if e.used + n > 32 then SpillBack(e) else e; Shl(v, e1.used) + e1.window < WORD
  {
    hide SpillBack, Shl, Pow2;
    var e1 := if e.used + n > 32 then SpillBack(e) else e;
    SpillKeepsFront(e);
    SpillWindow(e);
    SpillRoomy(e);
    ShlBelow(v, e1.used, n, e1.window);
    Pow2Mono(e1.used + n, 32);
    Pow2Values();
  }

  lemma FlushTerms(e: Enc)
    requires Sound(e) && EncRange(e)
    ensures Ilog(e.rng) >= 2 && Ilog(e.rng) <= 32
    ensures var w := 31 - (32 - Ilog(e.rng)); (Pow2(w) - 1) / 2 == Pow2(w - 1) - 1
  {
    IlogOfRange(e.rng);
    var w := Ilog(e.rng) - 1;
    assert Pow2(w) == 2 * Pow2(w - 1);
  }
}
