/** Annex-B splitting, RTP packaging and reassembly of H.264 access units (RFC 6184). */
module H264 {
  import opened Words
  import opened Arith

  const STAP_A := 24
  const FU_A := 28
  const MTU := 800
  const FRAG := 798
  const MAX_FU := 0x40_0000
  const AUD := 9

  type Bytes = seq<u8>

  function TypeOf(b: u8): nat { b % 0x20 }

  /** Forbidden bit and reference importance, in place. */
  function NriOf(b: u8): nat { b / 0x20 * 0x20 }

  // ---------------------------------------------------------------- Annex B

  /** Length of a start code at i: 4, 3, or 0. */
  function StartCode(d: Bytes, i: nat): (n: nat)
    ensures n == 0 || n == 3 || n == 4
    ensures n > 0 ==> i + n <= |d|
  {
    if i + 3 < |d| && d[i] == 0 && d[i + 1] == 0 && d[i + 2] == 0 && d[i + 3] == 1 then 4
    else if i + 2 < |d| && d[i] == 0 && d[i + 1] == 0 && d[i + 2] == 1 then 3
    else 0
  }

  /** The end of a unit once trailing zeros are dropped. */
  function Trim(d: Bytes, start: nat, end: nat): (e: nat)
    requires start <= end <= |d|
    ensures start <= e <= end && (e > start ==> d[e - 1] != 0)
    decreases end
  {
    if end > start && d[end - 1] == 0 then Trim(d, start, end - 1) else end
  }

  /** Units found from position i on, the current one having begun at `start` (-1: none yet). */
  function Units(d: Bytes, start: int, i: nat): seq<Bytes>
    requires -1 <= start <= i <= |d|
    decreases |d| - i
  {
    if i == |d| then
      (if 0 <= start < |d| then [d[start..]] else [])
    else if StartCode(d, i) > 0 then
      var n := i + StartCode(d, i);
      (if start >= 0 && Trim(d, start, i) > start then [d[start..Trim(d, start, i)]] else []) + Units(d, n, n)
    else
      Units(d, start, i + 1)
  }

  function Split(d: Bytes): seq<Bytes> { Units(d, -1, 0) }

  method SplitAnnexB(d: Bytes) returns (nalus: seq<Bytes>)
    ensures nalus == Split(d)
  {
    hide StartCode;
    nalus := [];
    var start, i := -1, 0;
    while i < |d|
      invariant -1 <= start <= i <= |d| && nalus + Units(d, start, i) == Split(d)
      decreases |d| - i
    {
      var sc := StartCode(d, i);
      if sc > 0 {
        if start >= 0 {
          var end := i;
          while end > start && d[end - 1] == 0
            invariant start <= end <= i && Trim(d, start, end) == Trim(d, start, i)
          {
            end := end - 1;
          }
          if end > start { nalus := nalus + [d[start..end]]; }
        }
        i := i + sc;
        start := i;
      } else {
        i := i + 1;
      }
    }
    if start >= 0 && start < |d| { nalus := nalus + [d[start..]]; }
  }

  /** Nothing inside that would read as a start code. */
  predicate Plain(n: Bytes) { n != [] && forall i :: 0 <= i < |n| - 2 ==> !(n[i] == 0 && n[i + 1] == 0 && n[i + 2] == 1) }

  /** What splitting produces: plain units, each but the last ending in a non-zero byte. */
  predicate Tidy(ns: seq<Bytes>)
  {
    forall k :: 0 <= k < |ns| ==> Plain(ns[k]) && (k < |ns| - 1 ==> ns[k][|ns[k]| - 1] != 0)
  }

  predicate NoCode(d: Bytes, from: nat, to: nat) { forall k :: from <= k < to ==> StartCode(d, k) == 0 }

  lemma PlainBetween(d: Bytes, start: nat, end: nat, to: nat)
    requires start < end <= to <= |d| && NoCode(d, start, to)
    ensures Plain(d[start..end])
  {
    var n := d[start..end];
    forall i | 0 <= i < |n| - 2
      ensures !(n[i] == 0 && n[i + 1] == 0 && n[i + 2] == 1)
    {
      assert StartCode(d, start + i) == 0;
    }
  }

  lemma TidyCons(n: Bytes, ns: seq<Bytes>)
    requires Plain(n) && Tidy(ns) && (ns != [] ==> n[|n| - 1] != 0)
    ensures Tidy([n] + ns)
  {
  }

  lemma {:induction false} UnitsTidy(d: Bytes, start: int, i: nat)
    requires -1 <= start <= i <= |d| && (start >= 0 ==> NoCode(d, start, i))
    ensures Tidy(Units(d, start, i))
    decreases |d| - i
  {
    hide StartCode, Plain, Tidy;
    if i == |d| {
      NoUnits();
      if 0 <= start < |d| {
        PlainBetween(d, start, |d|, |d|);
        assert d[start..|d|] == d[start..];
        OneUnit(d[start..]);
      }
    } else if StartCode(d, i) > 0 {
      var n := i + StartCode(d, i);
      UnitsTidy(d, n, n);
      if start >= 0 && Trim(d, start, i) > start {
        PlainBetween(d, start, Trim(d, start, i), i);
        TidyCons(d[start..Trim(d, start, i)], Units(d, n, n));
      } else {
        assert [] + Units(d, n, n) == Units(d, n, n);
      }
    } else {
      UnitsTidy(d, start, i + 1);
    }
  }

  lemma NoUnits()
    ensures Tidy([])
  {
  }

  lemma OneUnit(n: Bytes)
    requires Plain(n)
    ensures Tidy([n])
  {
  }

  const Prefix: Bytes := [0, 0, 0, 1]

  /** Units joined by four-byte start codes, none in front. */
  function Join(ns: seq<Bytes>): Bytes
  {
    if ns == [] then [] else if |ns| == 1 then ns[0] else ns[0] + Prefix + Join(ns[1..])
  }

  lemma {:induction false} SkipPlain(d: Bytes, start: nat, i: nat, j: nat)
    requires start <= i <= j <= |d| && NoCode(d, i, j)
    ensures Units(d, start, i) == Units(d, start, j)
    decreases j - i
  {
    hide StartCode;
    if i < j {
      assert StartCode(d, i) == 0;
      SkipPlain(d, start, i + 1, j);
    }
  }

  lemma PlainHasNoCode(d: Bytes, p: nat, n: Bytes)
    requires Plain(n) && p + |n| <= |d| && d[p..p + |n|] == n
    requires p + |n| == |d| || (n[|n| - 1] != 0 && p + |n| + 4 <= |d| && d[p + |n|..p + |n| + 4] == Prefix)
    ensures NoCode(d, p, p + |n|)
    ensures p + |n| < |d| ==> StartCode(d, p + |n|) == 4 && Trim(d, p, p + |n|) == p + |n|
  {
    var q := p + |n|;
    assert forall k :: p <= k < q ==> d[k] == n[k - p];
    if q < |d| {
      var code := d[q..q + 4];
      assert code[0] == d[q] && code[1] == d[q + 1] && code[2] == d[q + 2] && code[3] == d[q + 3];
    }
    forall k | p <= k < q
      ensures StartCode(d, k) == 0
    {
      if k + 2 < q { assert !(n[k - p] == 0 && n[k - p + 1] == 0 && n[k - p + 2] == 1); }
      if k + 3 < q { assert !(n[k + 1 - p] == 0 && n[k + 1 - p + 1] == 0 && n[k + 1 - p + 2] == 1); }
    }
  }

  /** The first unit of a joined run of two or more. */
  lemma FirstOfJoin(d: Bytes, p: nat, n: Bytes, rest: Bytes)
    requires p <= |d| && Plain(n) && n[|n| - 1] != 0 && d[p..] == n + Prefix + rest
    ensures var q := p + |n|; q + 4 <= |d| && d[q + 4..] == rest && Units(d, p, p) == [n] + Units(d, q + 4, q + 4)
  {
    hide StartCode, Plain;
    PlainHasNoCodeBefore(d, p, n, rest);
    var q := p + |n|;
    SkipPlain(d, p, p, q);
  }

  lemma PlainHasNoCodeBefore(d: Bytes, p: nat, n: Bytes, rest: Bytes)
    requires p <= |d| && Plain(n) && n[|n| - 1] != 0 && d[p..] == n + Prefix + rest
    ensures var q := p + |n|;
      && q + 4 <= |d| && NoCode(d, p, q) && StartCode(d, q) == 4 && Trim(d, p, q) == q && d[p..q] == n && d[q + 4..] == rest && |n| > 0
  {
    assert |n| > 0;
    hide Plain, StartCode, Trim;
    var q, t := p + |n|, d[p..];
    assert d[p..q] == t[..|n|] == n;
    assert d[q..q + 4] == t[|n|..|n| + 4] == Prefix;
    assert d[q + 4..] == t[|n| + 4..] == rest;
    PlainHasNoCode(d, p, n);
  }

  lemma LastOfJoin(d: Bytes, p: nat, n: Bytes)
    requires p <= |d| && Plain(n) && d[p..] == n
    ensures Units(d, p, p) == [n]
  {
    hide StartCode;
    assert d[p..p + |n|] == n;
    PlainHasNoCode(d, p, n);
    SkipPlain(d, p, p, |d|);
  }

  /** From the start of a joined run, splitting recovers the units. */
  lemma {:induction false} UnitsOfJoin(d: Bytes, p: nat, ns: seq<Bytes>)
    requires p <= |d| && Tidy(ns) && ns != [] && d[p..] == Join(ns)
    ensures Units(d, p, p) == ns
    decreases |ns|
  {
    hide StartCode, Plain, Tidy, Units;
    HeadOfTidy(ns);
    if |ns| == 1 {
      LastOfJoin(d, p, ns[0]);
    } else {
      FirstOfJoin(d, p, ns[0], Join(ns[1..]));
      UnitsOfJoin(d, p + |ns[0]| + 4, ns[1..]);
    }
  }

  lemma HeadOfTidy(ns: seq<Bytes>)
    requires Tidy(ns) && ns != []
    ensures Plain(ns[0]) && |ns[0]| > 0 && (|ns| > 1 ==> ns[0][|ns[0]| - 1] != 0) && Tidy(ns[1..])
  {
  }

  /** Units the sender keeps: everything but access unit delimiters. */
  function Kept(ns: seq<Bytes>): seq<Bytes>
  {
    if ns == [] then []
    else (if ns[0] == [] || TypeOf(ns[0][0]) == AUD then [] else [ns[0]]) + Kept(ns[1..])
  }

  lemma EmptyTidy()
    ensures Tidy([]) && Kept([]) == []
  {
  }

  /** What is kept of the first unit, in front of what is kept of the others. */
  lemma KeptFirst(ns: seq<Bytes>)
    requires ns != []
    ensures Kept(ns) == (if ns[0] == [] || TypeOf(ns[0][0]) == AUD then [] else [ns[0]]) + Kept(ns[1..])
  {
  }

  lemma {:induction false} KeptTidy(ns: seq<Bytes>)
    requires Tidy(ns)
    ensures Tidy(Kept(ns)) && |Kept(ns)| <= |ns|
  {
    hide Plain, Tidy;
    if ns == [] {
      EmptyTidy();
    } else {
      HeadOfTidy(ns);
      KeptTidy(ns[1..]);
      KeptFirst(ns);
      assert [] + Kept(ns[1..]) == Kept(ns[1..]);
      if !(ns[0] == [] || TypeOf(ns[0][0]) == AUD) { TidyCons(ns[0], Kept(ns[1..])); }
    }
  }

  /** Drops delimiters and joins the rest. */
  method PackUnits(nalus: seq<Bytes>) returns (packed: Bytes)
    ensures packed == Join(Kept(nalus))
  {
    hide Kept, Join;
    packed := [];
    ghost var kept: seq<Bytes> := [];
    NothingJoined();
    assert nalus[0..] == nalus;
    for i := 0 to |nalus|
      invariant packed == Join(kept) && kept + Kept(nalus[i..]) == Kept(nalus) && (packed == [] <==> kept == [])
      invariant forall k :: 0 <= k < |kept| ==> kept[k] != []
    {
      var n := nalus[i];
      assert nalus[i..][1..] == nalus[i + 1..];
      KeptNext(nalus[i..]);
      if !(n == [] || TypeOf(n[0]) == AUD) {
        JoinSnoc(kept, n);
        if |packed| > 0 { packed := packed + [0, 0, 0, 1]; }
        packed := packed + n;
        kept := kept + [n];
      }
    }
    assert nalus[|nalus|..] == [];
    KeptNext([]);
    assert kept + [] == kept;
  }

  lemma KeptNext(ns: seq<Bytes>)
    ensures ns == [] ==> Kept(ns) == []
    ensures ns != [] ==> Kept(ns) == (if ns[0] == [] || TypeOf(ns[0][0]) == AUD then [] else [ns[0]]) + Kept(ns[1..])
  {
  }

  lemma NothingJoined()
    ensures Join([]) == []
  {
  }

  lemma {:induction false} JoinSnoc(ns: seq<Bytes>, n: Bytes)
    ensures Join(ns + [n]) == if ns == [] then n else Join(ns) + Prefix + n
    decreases |ns|
  {
    if |ns| == 1 {
      assert (ns + [n])[1..] == [n];
    } else if |ns| > 1 {
      assert (ns + [n])[1..] == ns[1..] + [n];
      JoinSnoc(ns[1..], n);
      assert ns[0] + Prefix + (Join(ns[1..]) + Prefix + n) == ns[0] + Prefix + Join(ns[1..]) + Prefix + n;
    }
  }

  // ---------------------------------------------------------------- packaging

  /** One fragment of the body from `offset` to `end`. */
  function Fragment(nalu: Bytes, offset: nat, end: nat): (f: Bytes)
    requires nalu != [] && offset <= end < |nalu|
    ensures |f| == 2 + end - offset
  {
    [NriOf(nalu[0]) + FU_A, TypeOf(nalu[0]) + (if offset == 0 then 0x80 else 0) + (if end == |nalu| - 1 then 0x40 else 0)] + nalu[1 + offset..1 + end]
  }

  function Fragments(nalu: Bytes, offset: nat): (fs: seq<Bytes>)
    requires nalu != [] && offset < |nalu|
    decreases |nalu| - offset
  {
    if offset == |nalu| - 1 then []
    else
      var end := Min(offset + FRAG, |nalu| - 1);
      [Fragment(nalu, offset, end)] + Fragments(nalu, end)
  }

  /** RTP payloads of one unit. */
  function Package(nalu: Bytes): seq<Bytes>
  {
    if nalu == [] then [] else if |nalu| <= MTU then [nalu] else Fragments(nalu, 0)
  }

  /**
   On the wire: up to 800 bytes whole, beyond that 798 bytes of the body to a payload, each behind the unit's first byte with type 28 in it
   and a byte with the unit's type, 128 on the first and 64 on the last.
   */
  lemma {:induction false} WireForm(nalu: Bytes, offset: nat, k: nat)
    requires offset < |nalu| - 1 && k < |Fragments(nalu, offset)|
    ensures offset + 798 * k < |nalu| - 1 && OnWire(nalu, offset + 798 * k, Fragments(nalu, offset)[k])
    ensures k + 1 == |Fragments(nalu, offset)| <==> offset + 798 * k + 798 >= |nalu| - 1
    decreases |nalu| - offset
  {
    hide Fragment, OnWire;
    var end := Min(offset + FRAG, |nalu| - 1);
    if k == 0 {
      FirstOnWire(nalu, offset);
    } else {
      WireForm(nalu, end, k - 1);
    }
  }

  /** f carries the body from `offset` on. */
  predicate OnWire(nalu: Bytes, offset: nat, f: Bytes)
    requires offset < |nalu| - 1
  {
    var to := if offset + 799 < |nalu| then offset + 799 else |nalu|;
    && 2 < |f| <= 800 && f[2..] == nalu[offset + 1..to]
    && f[0] == nalu[0] / 0x20 * 0x20 + 28
    && f[1] == nalu[0] % 0x20 + (if offset == 0 then 128 else 0) + (if to == |nalu| then 64 else 0)
  }

  lemma FirstOnWire(nalu: Bytes, offset: nat)
    requires offset < |nalu| - 1
    ensures OnWire(nalu, offset, Fragment(nalu, offset, Min(offset + FRAG, |nalu| - 1)))
  {
    FragmentBits(nalu, offset, Min(offset + FRAG, |nalu| - 1));
  }

  /** Units of up to 800 bytes go out whole, and only they. */
  lemma WholeUnits(nalu: Bytes)
    ensures Package(nalu) == [nalu] <==> 1 <= |nalu| <= 800
  {
    if |nalu| > 800 { WireForm(nalu, 0, 0); }
  }

  method PackageH264NALU(nalu: Bytes) returns (out: seq<Bytes>)
    ensures out == Package(nalu)
  {
    hide Fragment;
    if nalu == [] { return []; }
    if |nalu| <= MTU { return [nalu]; }
    out := [];
    var body := nalu[1..];
    var offset := 0;
    while offset < |body|
      invariant 0 <= offset <= |body| && out + Fragments(nalu, offset) == Fragments(nalu, 0)
      decreases |body| - offset
    {
      var end := offset + FRAG;
      if end > |body| { end := |body|; }
      var pkt := OneFragment(nalu, body, offset, end);
      out := out + [pkt];
      offset := end;
    }
    assert out + [] == out;
  }

  method OneFragment(nalu: Bytes, body: Bytes, offset: nat, end: nat) returns (pkt: Bytes)
    requires nalu != [] && body == nalu[1..] && offset <= end <= |body|
    ensures pkt == Fragment(nalu, offset, end)
  {
    var fuHeader: u8 := TypeOf(nalu[0]);
    if offset == 0 { fuHeader := fuHeader + 0x80; }
    if end == |body| { fuHeader := fuHeader + 0x40; }
    assert body[offset..end] == nalu[1 + offset..1 + end];
    pkt := [NriOf(nalu[0]) + FU_A, fuHeader] + body[offset..end];
  }

  /** No fragment both starts and ends a unit. */
  lemma {:induction false} StartNeverEnds(nalu: Bytes, offset: nat, k: nat)
    requires |nalu| > MTU && offset < |nalu| - 1 && k < |Fragments(nalu, offset)|
    ensures |Fragments(nalu, offset)[k]| >= 3
    ensures var h := Fragments(nalu, offset)[k][1]; !(h / 0x80 == 1 && h / 0x40 % 2 == 1)
    ensures Fragments(nalu, offset)[k][1] / 0x80 == 1 <==> (offset == 0 && k == 0)
    decreases |nalu| - offset
  {
    var end := Min(offset + FRAG, |nalu| - 1);
    if k == 0 {
      FragmentBits(nalu, offset, end);
    } else {
      StartNeverEnds(nalu, end, k - 1);
    }
  }

  lemma FragmentBits(nalu: Bytes, offset: nat, end: nat)
    requires nalu != [] && offset <= end < |nalu|
    ensures var f := Fragment(nalu, offset, end);
      && f[0] % 0x20 == FU_A && f[0] / 0x20 * 0x20 == NriOf(nalu[0])
      && f[1] / 0x80 == (if offset == 0 then 1 else 0) && f[1] / 0x40 % 2 == (if end == |nalu| - 1 then 1 else 0)
      && f[1] % 0x20 == TypeOf(nalu[0]) && f[2..] == nalu[1 + offset..1 + end]
  {
  }

  // ---------------------------------------------------------------- reassembly

  datatype Depack = Depack(fuBuf: Bytes, fuType: nat, fuNriF: nat, fuActive: bool)

  function StapUnits(body: Bytes): seq<Bytes>
    decreases |body|
  {
    if |body| < 2 then []
    else
      var hi: int, lo: int := body[0], body[1];
      var size := 0x100 * hi + lo;
      if size == 0 || size > |body| - 2 then [] else [body[2..2 + size]] + StapUnits(body[2 + size..])
  }

  /** One payload: the state after it and the units it completes. */
  function Step(s: Depack, p: Bytes): (Depack, seq<Bytes>)
  {
    if p == [] then (s, [])
    else
      var t, nri := TypeOf(p[0]), NriOf(p[0]);
      if 1 <= t <= 23 then (s.(fuActive := false), [p])
      else if t == STAP_A then (s.(fuActive := false), StapUnits(p[1..]))
      else if t == FU_A then
        if |p| < 2 then (s.(fuActive := false), [])
        else
          var start, end, orig, body := p[1] / 0x80 == 1, p[1] / 0x40 % 2 == 1, TypeOf(p[1]), p[2..];
          if start then FuEnd(Depack([nri + orig] + body, orig, nri, true), end)
          else if s.fuActive then
            if |s.fuBuf| + |body| > MAX_FU then (s.(fuActive := false, fuBuf := []), [])
            else FuEnd(s.(fuBuf := s.fuBuf + body), end)
          else (s, [])
      else (s.(fuActive := false), [])
  }

  function FuEnd(s: Depack, end: bool): (Depack, seq<Bytes>)
  {
    if end then (s.(fuActive := false, fuBuf := []), [s.fuBuf]) else (s, [])
  }

  class H264Depacketizer {
    var fuBuf: Bytes
    var fuType: nat
    var fuNriF: nat
    var fuActive: bool

    constructor ()
      ensures !fuActive && fuBuf == []
    {
      fuBuf, fuType, fuNriF, fuActive := [], 0, 0, false;
    }

    ghost function State(): Depack
      reads this
    {
      Depack(fuBuf, fuType, fuNriF, fuActive)
    }

    method Depacketize(payload: Bytes) returns (out: seq<Bytes>)
      modifies this
      ensures (State(), out) == Step(old(State()), payload)
    {
      out := [];
      if |payload| < 1 { return; }
      var naluType, fbitAndNri := TypeOf(payload[0]), NriOf(payload[0]);
      if naluType >= 1 && naluType <= 23 {
        fuActive := false;
        return [payload];
      }
      if naluType == STAP_A {
        fuActive := false;
        out := UnpackStap(payload[1..]);
        return;
      }
      if naluType != FU_A {
        fuActive := false;
        return;
      }
      if |payload| < 2 {
        fuActive := false;
        return;
      }
      var startBit, endBit, origType, body := payload[1] / 0x80 == 1, payload[1] / 0x40 % 2 == 1, TypeOf(payload[1]), payload[2..];
      if startBit {
        fuActive, fuType, fuNriF := true, origType, fbitAndNri;
        fuBuf := [fbitAndNri + origType];
        fuBuf := fuBuf + body;
      } else if fuActive {
        if |fuBuf| + |body| > MAX_FU {
          fuActive := false;
          fuBuf := [];
          return;
        }
        fuBuf := fuBuf + body;
      } else {
        return;
      }
      if endBit && fuActive {
        fuActive := false;
        out := [fuBuf];
        fuBuf := [];
      }
    }

    static method UnpackStap(body0: Bytes) returns (out: seq<Bytes>)
      ensures out == StapUnits(body0)
    {
      out := [];
      var body := body0;
      while |body| >= 2
        invariant out + StapUnits(body) == StapUnits(body0)
        decreases |body|
      {
        var hi: int, lo: int := body[0], body[1];
        var size := 0x100 * hi + lo;
        if size <= 0 || size > |body| - 2 {
          assert out + [] == out;
          return;
        }
        assert body[2..][..size] == body[2..2 + size] && body[2..][size..] == body[2 + size..];
        body := body[2..];
        out := out + [body[..size]];
        body := body[size..];
      }
      assert out + [] == out;
    }
  }

  /** All payloads in order: the state after them and every unit completed. */
  function Run(s: Depack, ps: seq<Bytes>): (Depack, seq<Bytes>)
    decreases |ps|
  {
    if ps == [] then (s, [])
    else
      var (s1, out) := Step(s, ps[0]);
      var (s2, rest) := Run(s1, ps[1..]);
      (s2, out + rest)
  }

  /** Middle fragments grow the buffer; the last completes the unit, unless it grew too large on the way. */
  lemma {:induction false} RestAssembles(s: Depack, nalu: Bytes, offset: nat)
    requires |nalu| > MTU && 0 < offset < |nalu| - 1 && s.fuActive && s.fuBuf == nalu[..1 + offset]
    ensures Run(s, Fragments(nalu, offset)).1 == if |nalu| <= MAX_FU then [nalu] else []
    decreases |nalu| - offset
  {
    hide Fragment;
    var end := Min(offset + FRAG, |nalu| - 1);
    var f := Fragment(nalu, offset, end);
    FragmentBits(nalu, offset, end);
    StepMiddle(s, f);
    assert nalu[..1 + offset] + nalu[1 + offset..1 + end] == nalu[..1 + end];
    assert Fragments(nalu, offset)[1..] == Fragments(nalu, end);
    if 1 + end > MAX_FU {
      Dropped(Step(s, f).0, nalu, end);
    } else if end == |nalu| - 1 {
      assert nalu[..1 + end] == nalu;
      assert [nalu] + [] == [nalu];
    } else {
      hide Step;
      RestAssembles(s.(fuBuf := nalu[..1 + end]), nalu, end);
    }
  }

  /** A continuation fragment. */
  lemma StepMiddle(s: Depack, f: Bytes)
    requires |f| >= 2 && f[0] % 0x20 == FU_A && f[1] / 0x80 == 0 && s.fuActive
    ensures Step(s, f) == if |s.fuBuf| + |f| - 2 > MAX_FU then (s.(fuActive := false, fuBuf := []), []) else FuEnd(s.(fuBuf := s.fuBuf + f[2..]), f[1] / 0x40 % 2 == 1)
  {
  }

  /** Once given up, the rest of the unit's fragments produce nothing. */
  lemma {:induction false} Dropped(s: Depack, nalu: Bytes, offset: nat)
    requires |nalu| > MTU && 0 < offset < |nalu| && !s.fuActive
    ensures Run(s, Fragments(nalu, offset)).1 == []
    decreases |nalu| - offset
  {
    hide Fragment;
    if offset < |nalu| - 1 {
      var end := Min(offset + FRAG, |nalu| - 1);
      FragmentBits(nalu, offset, end);
      assert Fragments(nalu, offset)[1..] == Fragments(nalu, end);
      Dropped(s, nalu, end);
    }
  }

  /** From any state a packaged unit reassembles to itself, exactly when it is at most 4 MiB. */
  lemma PackageAssembles(s: Depack, nalu: Bytes)
    requires nalu != [] && (|nalu| <= MTU ==> 1 <= TypeOf(nalu[0]) <= 23)
    ensures Run(s, Package(nalu)).1 == if |nalu| <= MAX_FU then [nalu] else []
  {
    if |nalu| <= MTU {
      assert Run(s, [nalu]) == (s.(fuActive := false), [nalu] + []);
    } else {
      hide Fragment;
      var f := Fragment(nalu, 0, FRAG);
      FragmentBits(nalu, 0, FRAG);
      assert Fragments(nalu, 0)[1..] == Fragments(nalu, FRAG);
      var s1 := Depack([NriOf(nalu[0]) + TypeOf(nalu[0])] + f[2..], TypeOf(nalu[0]), NriOf(nalu[0]), true);
      assert Step(s, f) == (s1, []);
      assert s1.fuBuf == nalu[..1 + FRAG];
      RestAssembles(s1, nalu, FRAG);
    }
  }

  // ---------------------------------------------------------------- end to end

  /** What the sender puts on the wire for an access unit, as one RTP unit. */
  function Packed(au: Bytes): Bytes { Join(Kept(Split(au))) }

  /** The receiver puts a start code before every unit it completes. */
  function Annexed(ns: seq<Bytes>): Bytes { if ns == [] then [] else Prefix + ns[0] + Annexed(ns[1..]) }

  /** Units already tidy come back from a stream with a leading start code. */
  lemma SplitOfAnnexed(ns: seq<Bytes>)
    requires Tidy(ns) && ns != []
    ensures Split(Prefix + Join(ns)) == ns
  {
    var d := Prefix + Join(ns);
    HeadOfTidy(ns);
    JoinGrows(ns);
    assert d[0] == 0 && d[1] == 0 && d[2] == 0 && d[3] == 1;
    assert StartCode(d, 0) == 4;
    assert d[4..] == Join(ns);
    UnitsOfJoin(d, 4, ns);
    assert Units(d, -1, 0) == [] + Units(d, 4, 4);
  }

  lemma JoinGrows(ns: seq<Bytes>)
    requires ns != []
    ensures |Join(ns)| >= |ns[0]|
  {
  }

  /**
   For every access unit whose packed form is at most 4 MiB and, if it is small enough to go out whole, starts with
   an ordinary unit: from whatever state the receiver is in, the fragments reassemble to a stream holding exactly the sender's units less delimiters.
   */
  lemma AccessUnitRoundTrip(s: Depack, au: Bytes)
    requires Kept(Split(au)) != [] && |Packed(au)| <= MAX_FU
    requires |Packed(au)| <= MTU ==> Kept(Split(au))[0] != [] && 1 <= TypeOf(Kept(Split(au))[0][0]) <= 23
    ensures Split(Annexed(Run(s, Package(Packed(au))).1)) == Kept(Split(au))
  {
    hide Split, Join, Kept, Run, Package, Tidy, Step;
    var kept := Kept(Split(au));
    SplitTidy(au);
    KeptTidy(Split(au));
    FirstUnit(kept);
    PackageAssembles(s, Packed(au));
    var p := Packed(au);
    assert Annexed([p]) == Prefix + p + Annexed([]) == Prefix + p;
    SplitOfAnnexed(kept);
  }

  lemma SplitTidy(au: Bytes)
    ensures Tidy(Split(au))
  {
    hide Units, Tidy;
    UnitsTidy(au, -1, 0);
  }

  lemma FirstUnit(ns: seq<Bytes>)
    requires Tidy(ns) && ns != []
    ensures ns[0] != [] && Join(ns) != [] && Join(ns)[0] == ns[0][0]
  {
    HeadOfTidy(ns);
  }

  // ---------------------------------------------------------------- aggregation

  function StapBody(ns: seq<Bytes>): Bytes
    requires forall k :: 0 <= k < |ns| ==> |ns[k]| < 0x1_0000
  {
    if ns == [] then [] else [|ns[0]| / 0x100, |ns[0]| % 0x100] + ns[0] + StapBody(ns[1..])
  }

  function TopNri(ns: seq<Bytes>): (r: nat)
    requires forall k :: 0 <= k < |ns| ==> ns[k] != []
    ensures r <= 0x60 && r % 0x20 == 0
  {
    if ns == [] then 0 else Max(TopNri(ns[..|ns| - 1]), ns[|ns| - 1][0] / 0x20 % 4 * 0x20)
  }

  function StapSize(ns: seq<Bytes>): nat { if ns == [] then 1 else StapSize(ns[..|ns| - 1]) + 2 + |ns[|ns| - 1]| }

  /** Two or more non-empty units small enough together. */
  predicate Aggregates(ns: seq<Bytes>)
  {
    |ns| >= 2 && (forall k :: 0 <= k < |ns| ==> 0 < |ns[k]| <= 0xFFFF) && StapSize(ns) <= MTU
  }

  lemma {:induction false} StapBodySnoc(ns: seq<Bytes>, n: Bytes)
    requires |n| < 0x1_0000 && forall k :: 0 <= k < |ns| ==> |ns[k]| < 0x1_0000
    ensures |StapBody(ns + [n])| == |StapBody(ns)| + 2 + |n|
    decreases |ns|
  {
    if ns == [] {
      assert [] + [n] == [n] && [n][1..] == [];
    } else {
      assert (ns + [n])[1..] == ns[1..] + [n];
      StapBodySnoc(ns[1..], n);
    }
  }

  /** The size that is limited is that of the packet: the header and everything behind it. */
  lemma {:induction false} StapSizeIs(ns: seq<Bytes>)
    requires forall k :: 0 <= k < |ns| ==> |ns[k]| < 0x1_0000
    ensures StapSize(ns) == 1 + |StapBody(ns)|
    decreases |ns|
  {
    if ns != [] {
      var n := |ns| - 1;
      StapSizeIs(ns[..n]);
      StapBodySnoc(ns[..n], ns[n]);
      assert ns[..n] + [ns[n]] == ns;
    }
  }

  /** The importance of an aggregate is that of one of its units, and of none less. */
  lemma {:induction false} TopNriIs(ns: seq<Bytes>)
    requires ns != [] && forall k :: 0 <= k < |ns| ==> ns[k] != []
    ensures forall k :: 0 <= k < |ns| ==> ns[k][0] / 0x20 % 4 <= TopNri(ns) / 0x20
    ensures exists k :: 0 <= k < |ns| && ns[k][0] / 0x20 % 4 == TopNri(ns) / 0x20
    decreases |ns|
  {
    var n := |ns| - 1;
    var before := ns[..n];
    if before != [] {
      TopNriIs(before);
      forall k | 0 <= k < n ensures ns[k][0] / 0x20 % 4 <= TopNri(before) / 0x20 { assert before[k] == ns[k]; }
      var k :| 0 <= k < n && before[k][0] / 0x20 % 4 == TopNri(before) / 0x20;
      assert ns[k] == before[k];
    } else {
      assert TopNri(before) == 0;
    }
    assert ns[n][0] / 0x20 % 4 == ns[n][0] / 0x20 % 4 * 0x20 / 0x20;
  }

  lemma {:induction false} StapSizeRises(ns: seq<Bytes>, k: nat)
    requires k <= |ns|
    ensures StapSize(ns[..k]) <= StapSize(ns)
    decreases |ns|
  {
    if k < |ns| {
      assert ns[..|ns| - 1][..k] == ns[..k];
      StapSizeRises(ns[..|ns| - 1], k);
    } else {
      assert ns[..k] == ns;
    }
  }

  /** Whether the units aggregate, and the highest importance among them. */
  method Measure(nalus: seq<Bytes>) returns (fits: bool, maxNri: u8)
    ensures fits <==> Aggregates(nalus)
    ensures fits ==> maxNri == TopNri(nalus)
  {
    hide StapSize, TopNri;
    fits, maxNri := false, 0;
    if |nalus| < 2 { return; }
    var total := 1;
    NothingMeasured();
    assert nalus[..0] == [];
    for i := 0 to |nalus|
      invariant forall k :: 0 <= k < i ==> 0 < |nalus[k]| <= 0xFFFF
      invariant total == StapSize(nalus[..i]) <= MTU && maxNri == TopNri(nalus[..i])
    {
      var n := nalus[i];
      if |n| == 0 || |n| > 0xFFFF { return; }
      MeasuredNext(nalus[..i], n);
      assert nalus[..i + 1] == nalus[..i] + [n];
      total := total + 2 + |n|;
      if total > MTU {
        StapSizeRises(nalus, i + 1);
        return;
      }
      var nri := n[0] / 0x20 % 4 * 0x20;
      if nri > maxNri { maxNri := nri; }
    }
    assert nalus[..|nalus|] == nalus;
    fits := true;
  }

  lemma NothingMeasured()
    ensures StapSize([]) == 1 && TopNri([]) == 0
  {
  }

  lemma MeasuredNext(ns: seq<Bytes>, n: Bytes)
    requires n != [] && forall k :: 0 <= k < |ns| ==> ns[k] != []
    ensures StapSize(ns + [n]) == StapSize(ns) + 2 + |n|
    ensures (forall k :: 0 <= k < |ns + [n]| ==> (ns + [n])[k] != []) && TopNri(ns + [n]) == Max(TopNri(ns), n[0] / 0x20 % 4 * 0x20)
  {
    assert (ns + [n])[..|ns|] == ns;
  }

  /** An aggregate of the units, or nothing when there are too few, one is empty or they are too large together. */
  method PackageH264STAPA(nalus: seq<Bytes>) returns (out: Bytes)
    ensures Aggregates(nalus) ==> out == [TopNri(nalus) + STAP_A] + StapBody(nalus)
    ensures !Aggregates(nalus) ==> out == []
    ensures out != [] <==> |nalus| > 1 && (forall k :: 0 <= k < |nalus| ==> 1 <= |nalus[k]| <= 65535) && 1 + |StapBody(nalus)| <= 800
  {
    hide StapSize, TopNri;
    if forall k :: 0 <= k < |nalus| ==> 1 <= |nalus[k]| <= 65535 { StapSizeIs(nalus); }
    var fits, maxNri := Measure(nalus);
    if !fits { return []; }
    out := [maxNri + STAP_A];
    for i := 0 to |nalus|
      invariant out + StapBody(nalus[i..]) == [maxNri + STAP_A] + StapBody(nalus)
    {
      assert nalus[i..][1..] == nalus[i + 1..];
      out := out + [|nalus[i]| / 0x100, |nalus[i]| % 0x100] + nalus[i];
    }
    assert nalus[|nalus|..] == [];
    assert out + [] == out;
  }

  /** Unpacking an aggregate gives its units. */
  lemma {:induction false} StapUnpacks(ns: seq<Bytes>)
    requires forall k :: 0 <= k < |ns| ==> 0 < |ns[k]| < 0x1_0000
    ensures StapUnits(StapBody(ns)) == ns
    decreases |ns|
  {
    if ns != [] {
      var b, n := StapBody(ns), ns[0];
      assert b[0] == |n| / 0x100 && b[1] == |n| % 0x100;
      assert b[2..2 + |n|] == n && b[2 + |n|..] == StapBody(ns[1..]);
      StapUnpacks(ns[1..]);
    }
  }

  lemma AggregateRoundTrip(s: Depack, ns: seq<Bytes>)
    requires Aggregates(ns)
    ensures Step(s, [TopNri(ns) + STAP_A] + StapBody(ns)).1 == ns
  {
    hide TopNri, StapBody, StapUnits, StapSize;
    StapUnpacks(ns);
    StapHeader(TopNri(ns));
    var p := [TopNri(ns) + STAP_A] + StapBody(ns);
    assert p[1..] == StapBody(ns);
  }

  lemma StapHeader(nri: nat)
    requires nri <= 0x60 && nri % 0x20 == 0
    ensures TypeOf(nri + STAP_A) == STAP_A
  {
  }
}
