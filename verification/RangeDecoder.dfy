/** The decoder object: every method moves the fields exactly as the state machine Dec prescribes. */
module RangeDecoder {
  import opened Arith
  import opened Words
  import opened RangeSpec
  import opened CdfSpec

  ghost predicate WindowFits(d: Dec) { d.avail <= 32 && d.window < Pow2(d.avail) }

  class RangeDecoder {
    const buf: seq<u8>
    var endOffs: nat
    var endWindow: u32
    var nendBits: nat
    var nbitsTotal: int
    var offs: nat
    var rng: u32
    var val: u32
    var ext: nat
    var rem: u8
    var err: bool

    ghost function State(): Dec
      reads this
    {
      Dec(buf, endOffs, endWindow, nendBits, nbitsTotal, offs, rng, val, ext, rem, err)
    }

    /** Holds between symbols on every byte string: the code stays inside a range the next symbol can resolve. */
    ghost predicate Valid()
      reads this
      ensures Valid() ==> DecRange(State())
    {
      DecRange(State()) && WindowFits(State())
    }

    constructor (buf: seq<u8>)
      ensures Valid() && State() == NewDec(buf)
    {
      this.buf := buf;
      endOffs, endWindow, nendBits, nbitsTotal, offs := 0, 0, 0, 9, 0;
      rng, val, ext, rem, err := 0x80, 0, 0, 0, false;
      new;
      var b := ReadByte();
      rem := b;
      val := rng - 1 - rem / 2;
      Normalize();
    }

    method ReadByte() returns (b: u8)
      modifies this`offs
      ensures (State(), b) == RangeSpec.ReadByte(old(State()))
    {
      if offs < |buf| {
        b := buf[offs];
        offs := offs + 1;
      } else {
        b := 0;
      }
    }

    method ReadByteFromEnd() returns (b: u8)
      modifies this`endOffs
      ensures (State(), b) == RangeSpec.ReadByteFromEnd(old(State()))
    {
      if endOffs < |buf| {
        endOffs := endOffs + 1;
        b := buf[|buf| - endOffs];
      } else {
        b := 0;
      }
    }

    method Normalize()
      requires 0 < rng <= TOP && val < rng
      modifies this`offs, this`nbitsTotal, this`rng, this`rem, this`val
      ensures State() == DecNormalize(old(State())) && DecRange(State())
    {
      ghost var start := State();
      while rng <= BOT
        invariant 0 < rng <= TOP && val < rng && DecNormalize(State()) == DecNormalize(start)
        decreases TOP - rng
      {
        NormalizeOnce();
      }
    }

    method NormalizeOnce()
      requires 0 < rng <= BOT && val < rng
      modifies this`offs, this`nbitsTotal, this`rng, this`rem, this`val
      ensures State() == DecNormStep(old(State())) && val < rng == old(rng) * 0x100
    {
      nbitsTotal := nbitsTotal + 8;
      rng := rng * 0x100;
      var sym0 := rem;
      rem := ReadByte();
      var sym := (sym0 * 0x100 + rem) / 2;
      val := (val * 0x100 + (0xFF - sym % 0x100)) % TOP;
    }

    method Decode(ft: nat) returns (fs: nat)
      modifies this`ext, this`err
      ensures (State(), fs) == DecodeFreq(old(State()), ft)
    {
      if ft == 0 {
        err := true;
        ext := 1;
        return 0;
      }
      QuotIs(rng, ft);
      ext := rng / ft;
      if ext == 0 {
        err := true;
        ext := 1;
        return 0;
      }
      QuotIs(val, ext);
      var s := val / ext;
      fs := ft - Min(s + 1, ft);
    }

    method Update(fl: nat, fh: nat, ft: nat)
      requires fl < fh <= ft && Times(ext, ft - fh) <= val && (fl == 0 ==> Times(ext, ft - fh) < rng)
      requires var c := Consume(State(), fl, fh, ft); 0 < c.rng <= TOP && c.val < c.rng
      modifies this`offs, this`nbitsTotal, this`rng, this`rem, this`val
      ensures State() == RangeSpec.Update(old(State()), fl, fh, ft) && DecRange(State())
    {
      TimesIs(ext, ft - fh);
      TimesIs(ext, fh - fl);
      var s := ext * (ft - fh);
      val := val - s;
      if fl > 0 { rng := ext * (fh - fl); } else { rng := rng - s; }
      Normalize();
    }

    /** Update after Decode found the cell: nothing can underflow. */
    method Take(fl: nat, fh: nat, ft: nat, ghost before: Dec)
      requires DecRange(before) && fl < fh <= ft <= BOT && fl <= DecodeFreq(before, ft).1 < fh
      requires State() == DecodeFreq(before, ft).0
      modifies this`offs, this`nbitsTotal, this`rng, this`rem, this`val
      ensures State() == DecodeSym(before, fl, fh, ft)
    {
      CellUpdates(before, fl, fh, ft);
      Update(fl, fh, ft);
    }

    method BitLogp(logp: nat) returns (one: bool)
      requires Valid() && 1 <= logp <= 23
      modifies this`offs, this`nbitsTotal, this`rng, this`rem, this`val
      ensures Valid() && (State(), one) == RangeSpec.BitLogp(old(State()), logp)
    {
      SpanBounds(Bit(true, logp), rng);
      SpanBounds(Bit(false, logp), rng);
      ghost var before := State();
      var s := Shr(rng, logp);
      one := val < s;
      if !one {
        val, rng := val - s, rng - s;
      } else {
        rng := s;
      }
      NormalizeKeepsTail(State());
      Normalize();
    }

    /** Search from the largest cell down; the last entry is the catch-all. */
    method DecodeICDF(icdf: seq<u8>, ftb: nat) returns (ret: nat)
      requires Valid() && (icdf == [] || IcdfTable(icdf, ftb))
      modifies this`offs, this`nbitsTotal, this`rng, this`rem, this`val, this`err
      ensures Valid() && (State(), ret) == DecodeIcdf(old(State()), icdf, ftb)
    {
      if icdf == [] {
        err := true;
        return 0;
      }
      hide *;
      ghost var before := State();
      var dv, r := val, Shr(rng, ftb);
      var t: nat, s: nat;
      ret, t, s := FindCell(dv, r, rng, icdf);
      assert s <= dv < t <= rng && DecodeIcdf(before, icdf, ftb) == (DecNormalize(before.(val := dv - s, rng := t - s)), ret) by {
        IcdfNext(before, icdf, ftb, t, s);
      }
      Keep(dv - s, t - s);
    }

    /** Narrow to the cell found and renormalise. */
    method Keep(newVal: nat, newRng: nat)
      requires Valid() && newVal < newRng <= rng
      modifies this`offs, this`nbitsTotal, this`rng, this`rem, this`val
      ensures Valid() && State() == DecNormalize(old(State()).(val := newVal, rng := newRng))
    {
      val, rng := newVal, newRng;
      NormalizeKeepsTail(State());
      Normalize();
    }

    /** The cell holding dv: its index, its far and near bounds. */
    method FindCell(dv: nat, r: nat, top: nat, icdf: seq<u8>) returns (ret: nat, t: nat, s: nat)
      requires icdf != []
      ensures ret == IcdfIndex(dv, r, icdf, 0) && s == Times(r, icdf[ret])
      ensures t == if ret > 0 then Times(r, icdf[ret - 1]) else top
    {
      TimesIs(r, icdf[0]);
      ret, t, s := 0, top, r * icdf[0];
      while dv < s && ret < |icdf| - 1
        invariant ret < |icdf| && s == Times(r, icdf[ret])
        invariant t == if ret > 0 then Times(r, icdf[ret - 1]) else top
        invariant IcdfIndex(dv, r, icdf, ret) == IcdfIndex(dv, r, icdf, 0)
        decreases |icdf| - ret
      {
        t := s;
        ret := ret + 1;
        TimesIs(r, icdf[ret]);
        s := r * icdf[ret];
      }
    }

    /** On every table with a cell to decode to, the symbol returned is the one the code points at. */
    method DecodeCDF(cdf: seq<u16>) returns (k: int)
      requires Valid() && (Table(cdf) || Degenerate(cdf))
      modifies this`offs, this`nbitsTotal, this`rng, this`rem, this`val, this`ext, this`err
      ensures Valid() && (State(), k) == DecodeCdf(old(State()), cdf)
    {
      hide DecNormalize, Quot, Times, Span, Codable, DecodesTo, Advance, CdfIndex, DecodeSym, RangeSpec.Update;
      ghost var before := State();
      var n := |cdf|;
      if n < 2 {
        err := true;
        return 0;
      }
      var base := cdf[0];
      if cdf[n - 1] <= base {
        err := true;
        return 0;
      }
      var ft := cdf[n - 1] - base;
      FreqBelow(State(), ft);
      var fs := Decode(ft);
      var target := base + fs;
      k := FindSymbol(cdf, target);
      TakeKeepsTail(before, cdf[k] - base, cdf[k + 1] - base, ft);
      Take(cdf[k] - base, cdf[k + 1] - base, ft, before);
    }

    method FindSymbol(cdf: seq<u16>, target: int) returns (k: nat)
      requires Table(cdf) && cdf[0] <= target < cdf[|cdf| - 1]
      ensures k == CdfIndex(cdf, target, 0)
    {
      k := 0;
      while k < |cdf| - 1
        invariant 0 <= k < |cdf| - 1 && cdf[k] <= target
        invariant CdfIndex(cdf, target, k) == CdfIndex(cdf, target, 0)
        decreases |cdf| - k
      {
        if cdf[k + 1] > target { break; }
        k := k + 1;
      }
    }

    /** A symbol uniform below ft: Decode, then Update by one cell. */
    method DecodeCell(ft: nat) returns (s: nat)
      requires Valid() && 0 < ft <= BOT
      modifies this`offs, this`nbitsTotal, this`rng, this`rem, this`val, this`ext, this`err
      ensures Valid() && (State(), s) == DecodeUniform(old(State()), ft)
    {
      hide DecNormalize, Quot, Times, Span, Codable, DecodesTo, Advance, DecodeSym, RangeSpec.Update;
      ghost var before := State();
      FreqBelow(State(), ft);
      s := Decode(ft);
      TakeKeepsTail(before, s, s + 1, ft);
      Take(s, s + 1, ft, before);
    }

    /** Cells are found by shifting instead of dividing; the width is never zero here, the symbol is the same. */
    method DecodeRawSymbol(nbits: nat) returns (sym: nat)
      requires Valid() && nbits <= 23
      modifies this`offs, this`nbitsTotal, this`rng, this`rem, this`val, this`ext, this`err
      ensures Valid() && Pow2(nbits) <= BOT && (State(), sym) == DecodeUniform(old(State()), Pow2(nbits))
    {
      hide DecNormalize, Quot, Times, Span, Codable, DecodesTo, Advance, DecodeSym, RangeSpec.Update, Shr;
      ghost var before := State();
      Pow2Mono(nbits, 23);
      Pow2Values();
      ShrIsQuotient(rng, nbits);
      QuotIs(rng, Pow2(nbits));
      FreqBelow(State(), Pow2(nbits));
      ShrBounds(rng, nbits);
      ext := Shr(rng, nbits);
      QuotIs(val, ext);
      var s, ft := val / ext, Pow2(nbits);
      sym := ft - Min(s + 1, ft);
      TakeKeepsTail(before, sym, sym + 1, Pow2(nbits));
      Take(sym, sym + 1, Pow2(nbits), before);
    }

    /** The fine lag: 64 cells, counted down from the top and clamped at zero. */
    method Decode64FineSym() returns (sym: nat)
      requires Valid()
      modifies this`offs, this`nbitsTotal, this`rng, this`rem, this`val, this`ext, this`err
      ensures Valid() && (State(), sym) == DecodeUniform(old(State()), 64)
    {
      hide DecNormalize, Quot, Times, Span, Codable, DecodesTo, Advance, DecodeSym, RangeSpec.Update;
      ghost var before := State();
      FreqBelow(State(), 64);
      QuotIs(rng, 64);
      ext := rng / 64;
      QuotIs(val, ext);
      var s := val / ext;
      var t: int := 63 - s;
      if t < 0 { t := 0; } else if t > 64 { t := 64; }
      sym := t;
      TakeKeepsTail(before, sym, sym + 1, 64);
      Take(sym, sym + 1, 64, before);
    }

    method FillWindow() returns (window: nat, available: nat)
      requires Valid() && nendBits <= 24
      modifies this`endOffs
      ensures available > 24 && State().(window := window, avail := available) == Refill(old(State()))
    {
      ghost var start := State();
      window, available := endWindow, nendBits;
      while true
        invariant available <= 24
        invariant Refill(State().(window := window, avail := available)) == Refill(start)
        decreases 24 - available
      {
        var b := ReadByteFromEnd();
        window := window + Shl(b, available);
        available := available + 8;
        if available > 24 { return; }
      }
    }

    method BitsN(n: nat) returns (ret: nat)
      requires Valid() && n <= 25
      modifies this`endOffs, this`endWindow, this`nendBits, this`nbitsTotal
      ensures Valid() && (State(), ret) == TakeBits(old(State()), n)
    {
      var window: nat, available: nat := endWindow, nendBits;
      RefillFits(State());
      if available < n { window, available := FillWindow(); }
      ret := Low(window, n);
      TakeFits(window, available, n);
      endWindow := Shr(window, n);
      nendBits := available - n;
      nbitsTotal := nbitsTotal + n;
    }

    method DecodeUint(ft0: nat) returns (v: nat)
      requires Valid() && 2 <= ft0 < WORD
      modifies this`endOffs, this`endWindow, this`nendBits, this`offs, this`nbitsTotal, this`rng, this`rem, this`val, this`ext, this`err
      ensures Valid() && (State(), v) == CdfSpec.DecodeUint(old(State()), ft0)
    {
      hide Shr, DecodeUniform, CdfSpec.DecodeLongUint;
      var ft := ft0 - 1;
      var ftb := Ilog(ft);
      if ftb > 8 {
        UintShift(ft, ft);
        v := DecodeLongUint(ft, ftb - 8);
      } else {
        UintSmall(ft);
        v := DecodeCell(ft + 1);
      }
    }

    method DecodeLongUint(ft: nat, ftb: nat) returns (v: nat)
      requires Valid() && ftb <= 24 && Shr(ft, ftb) < 256
      modifies this`endOffs, this`endWindow, this`nendBits, this`offs, this`nbitsTotal, this`rng, this`rem, this`val, this`ext, this`err
      ensures Valid() && (State(), v) == CdfSpec.DecodeLongUint(old(State()), ft, ftb)
    {
      hide Shl, Shr, DecodeUniform, TakeBits;
      var s, b := DecodeParts(Shr(ft, ftb) + 1, ftb);
      v := Shl(s, ftb) + b;
      if v <= ft { return; }
      err := true;
      return ft;
    }

    method DecodeParts(t: nat, n: nat) returns (s: nat, b: nat)
      requires Valid() && 0 < t <= BOT && n <= 25
      modifies this`endOffs, this`endWindow, this`nendBits, this`offs, this`nbitsTotal, this`rng, this`rem, this`val, this`ext, this`err
      ensures var (d1, s1) := DecodeUniform(old(State()), t); s == s1 && (State(), b) == TakeBits(d1, n)
      ensures Valid()
    {
      s := DecodeCell(t);
      b := BitsN(n);
    }
  }

  lemma IcdfNext(d: Dec, icdf: seq<u8>, ftb: nat, t: int, s: int)
    requires DecRange(d) && IcdfTable(icdf, ftb)
    requires var r := Shr(d.rng, ftb);
      var k := IcdfIndex(d.val, r, icdf, 0);
      s == Times(r, icdf[k]) && t == if k > 0 then Times(r, icdf[k - 1]) else d.rng
    ensures 0 <= s <= d.val < t <= d.rng
    ensures DecodeIcdf(d, icdf, ftb)
      == (DecNormalize(d.(val := d.val - s, rng := t - s)), IcdfIndex(d.val, Shr(d.rng, ftb), icdf, 0))
  {
    hide DecNormalize, Shr, Times, Span, Codable, DecodesTo, Advance, IcdfIndex;
    IcdfCell(d, icdf, ftb);
  }

  lemma CellUpdates(d: Dec, fl: nat, fh: nat, ft: nat)
    requires DecRange(d) && fl < fh <= ft <= BOT && fl <= DecodeFreq(d, ft).1 < fh
    ensures var d1 := DecodeFreq(d, ft).0;
      && Times(d1.ext, ft - fh) <= d1.val && (fl == 0 ==> Times(d1.ext, ft - fh) < d1.rng)
      && var c := Consume(d1, fl, fh, ft); 0 < c.rng <= TOP && c.val < c.rng
  {
    CellHolds(d, fl, fh, ft);
    TimesDist(Quot(d.rng, ft), fh - fl, ft - fh);
  }

  lemma {:induction false} NormalizeKeepsTail(d: Dec)
    requires 0 < d.rng
    ensures WindowFits(d) ==> WindowFits(DecNormalize(d))
    decreases TOP - d.rng
  {
    if d.rng <= BOT { NormalizeKeepsTail(DecNormStep(d)); }
  }

  lemma TakeKeepsTail(d: Dec, fl: nat, fh: nat, ft: nat)
    requires DecRange(d) && fl < fh <= ft <= BOT && fl <= DecodeFreq(d, ft).1 < fh
    ensures WindowFits(d) ==> WindowFits(DecodeSym(d, fl, fh, ft))
  {
    CellUpdates(d, fl, fh, ft);
    NormalizeKeepsTail(Consume(DecodeFreq(d, ft).0, fl, fh, ft));
  }

  lemma {:induction false} RefillFits(d: Dec)
    requires WindowFits(d)
    ensures d.avail <= 24 ==> WindowFits(Refill(d))
    decreases if d.avail <= 24 then 24 - d.avail else 0
  {
    hide Shl;
    if d.avail <= 24 {
      var (d1, b) := RangeSpec.ReadByteFromEnd(d);
      var d2 := d1.(window := d.window + Shl(b, d.avail), avail := d.avail + 8);
      Pow2Values();
      ShlBelow(b, d.avail, 8, d.window);
      if d2.avail <= 24 { RefillFits(d2); }
    }
  }

  lemma TakeFits(w: nat, avail: nat, n: nat)
    requires w < Pow2(avail) && n <= avail <= 32
    ensures Shr(w, n) < Pow2(avail - n) && Shr(w, n) < WORD
  {
    ShrBelow(w, n, avail - n);
    Pow2Mono(avail - n, 32);
    Pow2Values();
  }
}
