/** Expanding packed distributions into cumulative tables, and cutting windows out of them. */
module CmfTables {
  import opened Words
  import opened Arith
  import opened CdfSpec

  const CMF_MAX := 32767

  function Sum(ws: seq<nat>): nat { if ws == [] then 0 else Sum(ws[..|ws| - 1]) + ws[|ws| - 1] }

  /** w * scale / total, rounded down. */
  function Share(w: nat, scale: nat, total: nat): nat
    requires total > 0
  {
    Quot(Times(w, scale), total)
  }

  /** Each weight's share of `scale`, rounded down, plus one so that no symbol is ever impossible. */
  function Cum(ws: seq<nat>, scale: nat, total: nat, k: nat): nat
    requires k <= |ws| && (ws != [] ==> total > 0)
  {
    if k == 0 then 0 else Cum(ws, scale, total, k - 1) + Share(ws[k - 1], scale, total) + 1
  }

  function CmfOf(ws: seq<nat>): (cmf: seq<nat>)
    requires |ws| <= CMF_MAX && (ws != [] ==> Sum(ws) > 0)
    ensures |cmf| == |ws| + 1
  {
    seq(|ws| + 1, k requires 0 <= k <= |ws| => Cum(ws, CMF_MAX - |ws|, Sum(ws), k))
  }

  lemma {:induction false} CumStrict(ws: seq<nat>, scale: nat, total: nat, i: nat, j: nat)
    requires i < j <= |ws| && total > 0
    ensures Cum(ws, scale, total, i) < Cum(ws, scale, total, j)
  {
    if i < j - 1 { CumStrict(ws, scale, total, i, j - 1); }
  }

  /** The rounded shares of the first k weights never exceed their exact share. */
  lemma {:induction false} CumBound(ws: seq<nat>, scale: nat, total: nat, k: nat)
    requires k <= |ws| && total > 0
    ensures Cum(ws, scale, total, k) >= k
    ensures Times(Cum(ws, scale, total, k) - k, total) <= Times(Sum(ws[..k]), scale)
  {
    if k > 0 {
      CumBound(ws, scale, total, k - 1);
      assert ws[..k][..k - 1] == ws[..k - 1];
      var c, w, q := Cum(ws, scale, total, k - 1), ws[k - 1], Share(ws[k - 1], scale, total);
      QuotBounds(Times(w, scale), total);
      TimesSum(c - (k - 1), q, total);
      TimesSum(Sum(ws[..k - 1]), w, scale);
    }
  }

  lemma TimesSum(a: nat, b: nat, c: nat)
    ensures Times(a + b, c) == Times(a, c) + Times(b, c)
  {
    TimesComm(a + b, c);
    TimesComm(a, c);
    TimesComm(b, c);
    TimesDist(c, a, b);
  }

  predicate CmfShape(cmf: seq<int>)
  {
    && |cmf| >= 1 && cmf[0] == 0
    && (forall i, j :: 0 <= i < j < |cmf| ==> cmf[i] < cmf[j])
    && (forall i :: 0 <= i < |cmf| ==> 0 <= cmf[i] <= CMF_MAX)
  }

  lemma CumCap(ws: seq<nat>, scale: nat)
    requires Sum(ws) > 0
    ensures Cum(ws, scale, Sum(ws), |ws|) <= |ws| + scale
  {
    hide Sum, Cum;
    var n, total := |ws|, Sum(ws);
    CumBound(ws, scale, total, n);
    assert ws[..n] == ws;
    var c := Cum(ws, scale, total, n) - n;
    if c > scale {
      TimesComm(c, total);
      TimesMono(total, scale, c);
    }
  }

  /** Every expansion starts at 0, strictly increases and stays within 15 bits. */
  lemma CmfOfShape(ws: seq<nat>)
    requires |ws| <= CMF_MAX && (ws != [] ==> Sum(ws) > 0)
    ensures CmfShape(CmfOf(ws))
  {
    if ws != [] {
      var n, scale, total := |ws|, CMF_MAX - |ws|, Sum(ws);
      forall i, j | 0 <= i < j <= n ensures CmfOf(ws)[i] < CmfOf(ws)[j] { CumStrict(ws, scale, total, i, j); }
      CumCap(ws, scale);
      forall i | 0 <= i <= n ensures 0 <= CmfOf(ws)[i] <= CMF_MAX { if i < n { CumStrict(ws, scale, total, i, n); } }
    }
  }

  // ---------------------------------------------------------------- packed bytes

  /** A packed byte stands for the square of its successor, capped to 16 bits. */
  function Weight(b: u8): nat { Min((b + 1) * (b + 1), 65535) }

  function Weights(dcmf: seq<u8>): (ws: seq<nat>)
    ensures |ws| == |dcmf| && forall i :: 0 <= i < |ws| ==> 1 <= ws[i] <= 65535
  {
    seq(|dcmf|, i requires 0 <= i < |dcmf| => WeightBounds(dcmf[i]); Weight(dcmf[i]))
  }

  lemma WeightBounds(b: u8)
    ensures 1 <= Weight(b) <= 65535
  {
    MulMono(1, b + 1, b + 1);
  }

  lemma {:induction false} SumBounds(ws: seq<nat>)
    requires forall i :: 0 <= i < |ws| ==> 1 <= ws[i] <= 65535
    ensures |ws| <= Sum(ws) <= 65535 * |ws|
  {
    if ws != [] { SumBounds(ws[..|ws| - 1]); }
  }

  lemma SumStep(ws: seq<nat>, k: nat)
    requires k < |ws|
    ensures Sum(ws[..k + 1]) == Sum(ws[..k]) + ws[k]
  {
    assert ws[..k + 1][..k] == ws[..k];
  }

  /** The table of a packed distribution. */
  function DcmfCmf(dcmf: seq<u8>): (cmf: seq<u16>)
    requires |dcmf| <= CMF_MAX
    ensures |cmf| == |dcmf| + 1 && CmfShape(cmf)
  {
    var ws := Weights(dcmf);
    SumBounds(ws);
    CmfOfShape(ws);
    seq(|dcmf| + 1, i requires 0 <= i <= |dcmf| => CmfOf(ws)[i])
  }

  /** The width of a symbol: one, and its share of what is left over, by the capped square of its packed byte plus one. */
  lemma SymbolWidth(dcmf: seq<u8>, n: nat)
    requires n < |dcmf| <= CMF_MAX
    ensures Sum(Weights(dcmf)) > 0
    ensures var b: int := dcmf[n];
      DcmfCmf(dcmf)[n + 1] - DcmfCmf(dcmf)[n]
      == 1 + (if b == 255 then 65535 else b * b + 2 * b + 1) * (CMF_MAX - |dcmf|) / Sum(Weights(dcmf))
  {
    hide Sum, Times, Quot;
    var ws, scale := Weights(dcmf), CMF_MAX - |dcmf|;
    ShareFits(dcmf, n + 1);
    TimesIs(ws[n], scale);
    QuotIs(Times(ws[n], scale), Sum(ws));
    var b: int := dcmf[n];
    assert ws[n] == Weight(b);
    WeightIs(b);
  }

  lemma WeightIs(b: u8)
    ensures Weight(b) == if b == 255 then 65535 else b * b + 2 * b + 1
  {
    if b < 255 { MulMono(b + 1, 255, b + 1); MulMono(b + 1, 255, 255); }
  }

  /** A strictly increasing 15-bit table has at most 32768 entries. */
  lemma {:induction false} ShapeLength(cmf: seq<int>, i: nat)
    requires CmfShape(cmf) && i < |cmf|
    ensures i <= cmf[i] <= CMF_MAX
  {
    if i > 0 { ShapeLength(cmf, i - 1); }
  }

  lemma ShapeIsStrict(cmf: seq<u16>)
    requires CmfShape(cmf) && |cmf| >= 2
    ensures Strict(cmf) && Table(cmf)
  {
  }

  /** First pass of the gains and excitation version: 32-bit squares, capped, stored one place up, and their sum. */
  method StoreWeights(dcmf: seq<u8>, cmf: array<u16>) returns (sum: i32)
    requires |dcmf| <= CMF_MAX && cmf.Length >= |dcmf| + 1
    modifies cmf
    ensures sum == Sum(Weights(dcmf))
    ensures forall i :: 0 <= i < |dcmf| ==> cmf[i + 1] == Weights(dcmf)[i]
    ensures cmf[|dcmf| + 1..] == old(cmf[|dcmf| + 1..])
  {
    ghost var ws, tail := Weights(dcmf), cmf[|dcmf| + 1..];
    sum := 0;
    for n := 0 to |dcmf|
      invariant sum == Sum(ws[..n]) <= 65535 * n && cmf[|dcmf| + 1..] == tail
      invariant forall i :: 0 <= i < n ==> cmf[i + 1] == ws[i]
    {
      SumStep(ws, n);
      SumBounds(ws[..n + 1]);
      var b: int := dcmf[n];
      var tmp: i32 := Square(b + 1);
      if tmp > 65535 { tmp := 65535; }
      cmf[n + 1] := tmp;
      sum := sum + tmp;
    }
    assert ws[..|dcmf|] == ws;
  }

  /**
   Gains and excitation version: 16-bit table rewritten in place, 32-bit signed intermediates. Every intermediate
   is assigned to an i32 or u16, so verification shows that nothing wraps.
   */
  method CelpDcmfToCmf(dcmf: seq<u8>, cmf: array<u16>)
    requires |dcmf| <= CMF_MAX && cmf.Length >= |dcmf| + 1
    modifies cmf
    ensures cmf[..|dcmf| + 1] == DcmfCmf(dcmf)
    ensures cmf[|dcmf| + 1..] == old(cmf[|dcmf| + 1..])
  {
    hide Sum, Weight, Cum, Times, Quot;
    var sum := StoreWeights(dcmf, cmf);
    ghost var ws, tail, want := Weights(dcmf), cmf[|dcmf| + 1..], DcmfCmf(dcmf);
    FirstEntry(dcmf);
    cmf[0] := 0;
    for n := 1 to |dcmf| + 1
      invariant forall i :: 0 <= i < n ==> cmf[i] == want[i]
      invariant forall i :: n <= i <= |dcmf| ==> cmf[i] == ws[i - 1]
      invariant cmf[|dcmf| + 1..] == tail
    {
      ShareFits(dcmf, n);
      TimesIs(ws[n - 1], CMF_MAX - |dcmf|);
      QuotIs(Times(ws[n - 1], CMF_MAX - |dcmf|), sum);
      var prod: i32 := cmf[n] * (CMF_MAX - |dcmf|);
      var share: u16 := prod / sum;
      var next: u16 := cmf[n - 1] + share + 1;
      cmf[n] := next;
    }
  }

  lemma FirstEntry(dcmf: seq<u8>)
    requires |dcmf| <= CMF_MAX
    ensures DcmfCmf(dcmf)[0] == 0
  {
  }

  function Square(x: i32): (r: i32)
    requires 0 <= x <= 256
    ensures r == x * x
  {
    MulMono(x, 256, x);
    x * x
  }

  /** One share fits 16 bits and its product 31. */
  lemma ShareFits(dcmf: seq<u8>, n: nat)
    requires 1 <= n <= |dcmf| <= CMF_MAX
    ensures var (ws, cmf, scale) := (Weights(dcmf), DcmfCmf(dcmf), CMF_MAX - |dcmf|);
      && Times(ws[n - 1], scale) < 0x8000_0000 && 0 < Sum(ws)
      && cmf[n] == cmf[n - 1] + Share(ws[n - 1], scale, Sum(ws)) + 1 <= CMF_MAX
  {
    hide Sum, Weight, Times, Quot;
    var ws, scale := Weights(dcmf), CMF_MAX - |dcmf|;
    SumBounds(ws);
    ProductFits(ws[n - 1], scale);
    assert DcmfCmf(dcmf)[n] == CmfOf(ws)[n] == Cum(ws, scale, Sum(ws), n);
    assert DcmfCmf(dcmf)[n - 1] == CmfOf(ws)[n - 1] == Cum(ws, scale, Sum(ws), n - 1);
    assert Cum(ws, scale, Sum(ws), n) == Cum(ws, scale, Sum(ws), n - 1) + Share(ws[n - 1], scale, Sum(ws)) + 1;
  }

  lemma ProductFits(w: nat, scale: nat)
    requires w <= 65535 && scale <= CMF_MAX
    ensures Times(w, scale) < 0x8000_0000
  {
    TimesIs(w, scale);
    MulMono(w, 65535, scale);
  }

  /** Line-spectrum version: 64-bit intermediates, 16-bit table. */
  method LsfDcmfToCmf(dcmf: seq<u8>) returns (cmf: array<u16>)
    requires |dcmf| <= CMF_MAX
    ensures fresh(cmf) && cmf[..] == DcmfCmf(dcmf)
  {
    hide Sum, Weight, Cum, Times, Quot;
    cmf := new u16[|dcmf| + 1](_ => 0);
    var sum := StoreWeights(dcmf, cmf);
    ghost var ws, want := Weights(dcmf), DcmfCmf(dcmf);
    FirstEntry(dcmf);
    cmf[0] := 0;
    for i := 1 to |dcmf| + 1
      invariant forall k :: 0 <= k < i ==> cmf[k] == want[k]
      invariant forall k :: i <= k <= |dcmf| ==> cmf[k] == ws[k - 1]
    {
      ShareFits(dcmf, i);
      TimesIs(ws[i - 1], CMF_MAX - |dcmf|);
      QuotIs(Times(ws[i - 1], CMF_MAX - |dcmf|), sum);
      var prev: int, w: int := cmf[i - 1], cmf[i];
      cmf[i] := prev + (w * (CMF_MAX - |dcmf|) / sum + 1);
    }
  }

  /** Pitch version: 32-bit table, 64-bit intermediates, weights and sum in one pass. */
  method PitchDcmfToCmf(dcmf: seq<u8>) returns (cmf: array<u32>)
    requires |dcmf| <= CMF_MAX
    ensures fresh(cmf) && cmf.Length == |dcmf| + 1 && forall i :: 0 <= i <= |dcmf| ==> cmf[i] == DcmfCmf(dcmf)[i]
  {
    hide Sum, Weight, Cum, Times, Quot;
    ghost var ws, want := Weights(dcmf), DcmfCmf(dcmf);
    cmf := new u32[|dcmf| + 1](_ => 0);
    var sum: int := 0;
    EmptySum(ws);
    for i := 0 to |dcmf|
      invariant sum == Sum(ws[..i])
      invariant forall k :: 0 <= k < i ==> cmf[k + 1] == ws[k]
    {
      SumStep(ws, i);
      var tmp := CappedSquare(dcmf[i]);
      cmf[i + 1] := tmp;
      sum := sum + tmp;
    }
    assert ws[..|dcmf|] == ws;
    FirstEntry(dcmf);
    cmf[0] := 0;
    for i := 1 to |dcmf| + 1
      invariant forall k :: 0 <= k < i ==> cmf[k] == want[k]
      invariant forall k :: i <= k <= |dcmf| ==> cmf[k] == ws[k - 1]
    {
      ShareFits(dcmf, i);
      TimesIs(ws[i - 1], CMF_MAX - |dcmf|);
      QuotIs(Times(ws[i - 1], CMF_MAX - |dcmf|), sum);
      var prev: int, w: int := cmf[i - 1], cmf[i];
      cmf[i] := prev + (w * (CMF_MAX - |dcmf|) / sum + 1);
    }
  }

  method CappedSquare(b: u8) returns (w: u32)
    ensures w == Weight(b) && w <= 65535
  {
    var x: int := b;
    w := Square(x + 1);
    if w > 65535 { w := 65535; }
  }

  lemma EmptySum(ws: seq<nat>)
    ensures ws[..0] == [] && Sum(ws[..0]) == 0
  {
  }

  // ---------------------------------------------------------------- packed chunks

  function Chunk(b: seq<u8>, step: nat, r: nat): (c: seq<u8>)
    requires r * step + step <= |b| && 0 <= r * step
    ensures |c| == step
  {
    b[r * step..r * step + step]
  }

  /** Table r is chunk r of the packed bytes, expanded. */
  predicate ChunkIs(b: seq<u8>, step: nat, r: nat, cmf: seq<u16>)
    requires step <= CMF_MAX
  {
    0 <= r * step && r * step + step <= |b| && cmf == DcmfCmf(Chunk(b, step, r))
  }

  lemma ChunkHere(b: seq<u8>, step: nat, r: nat, i: nat, cmf: seq<u16>)
    requires step <= CMF_MAX && i == r * step && i + step <= |b| && cmf == DcmfCmf(b[i..i + step])
    ensures ChunkIs(b, step, r, cmf) && i + step == (r + 1) * step
  {
    hide DcmfCmf;
  }

  // ---------------------------------------------------------------- probabilities

  /** The table of a list of non-negative probabilities. */
  function PdfCmf(pdf: seq<nat>): (cmf: seq<u16>)
    requires 0 < |pdf| <= CMF_MAX && Sum(pdf) > 0
    ensures |cmf| == |pdf| + 1 && CmfShape(cmf)
  {
    CmfOfShape(pdf);
    seq(|pdf| + 1, i requires 0 <= i <= |pdf| => CmfOf(pdf)[i])
  }

  lemma {:induction false} SumAtLeast(ws: seq<nat>, k: nat)
    requires k < |ws|
    ensures Sum(ws) >= ws[k]
  {
    if k < |ws| - 1 { SumAtLeast(ws[..|ws| - 1], k); }
  }

  method PdfToCmf(pdf: seq<nat>) returns (cmf: seq<u16>)
    requires 0 < |pdf| <= CMF_MAX && Sum(pdf) > 0
    ensures cmf == PdfCmf(pdf)
  {
    hide Cum, Times, Quot;
    var n, sump := |pdf|, 0;
    hide Sum;
    EmptySum(pdf);
    for i := 0 to n
      invariant sump == Sum(pdf[..i])
    {
      SumStep(pdf, i);
      sump := sump + pdf[i];
    }
    assert pdf[..n] == pdf;
    ghost var want := PdfCmf(pdf);
    FirstPdfEntry(pdf);
    cmf := [0];
    for i := 0 to n
      invariant |cmf| == i + 1 && forall k :: 0 <= k <= i ==> cmf[k] == want[k]
    {
      PdfStep(pdf, i);
      TimesIs(pdf[i], CMF_MAX - n);
      QuotIs(Times(pdf[i], CMF_MAX - n), sump);
      var p := pdf[i] * (CMF_MAX - n) / sump + 1;
      var prev: int := cmf[i];
      cmf := cmf + [prev + p];
    }
  }

  lemma FirstPdfEntry(pdf: seq<nat>)
    requires 0 < |pdf| <= CMF_MAX && Sum(pdf) > 0
    ensures PdfCmf(pdf)[0] == 0
  {
  }

  lemma PdfStep(pdf: seq<nat>, i: nat)
    requires 0 < |pdf| <= CMF_MAX && Sum(pdf) > 0 && i < |pdf|
    ensures PdfCmf(pdf)[i + 1] == PdfCmf(pdf)[i] + Share(pdf[i], CMF_MAX - |pdf|, Sum(pdf)) + 1
  {
    hide Sum, Times, Quot;
    var scale, total := CMF_MAX - |pdf|, Sum(pdf);
    assert PdfCmf(pdf)[i + 1] == CmfOf(pdf)[i + 1] == Cum(pdf, scale, total, i + 1);
    assert PdfCmf(pdf)[i] == CmfOf(pdf)[i] == Cum(pdf, scale, total, i);
  }

  // ---------------------------------------------------------------- windows

  /** n entries of base from start on, zero outside it. */
  function Window(base: seq<u16>, start: int, n: nat): (w: seq<u16>)
    ensures |w| == n
  {
    seq(n, i => if 0 <= start + i < |base| then base[start + i] else 0)
  }

  method CdfWindow(base: seq<u16>, start: int, n: nat) returns (w: array<u16>)
    ensures fresh(w) && w[..] == Window(base, start, n)
  {
    w := new u16[n](_ => 0);
    for i := 0 to n
      invariant forall k :: 0 <= k < i ==> w[k] == Window(base, start, n)[k]
      invariant forall k :: i <= k < n ==> w[k] == 0
    {
      var j := start + i;
      if j >= 0 && j < |base| { w[i] := base[j]; }
    }
  }

  /** A window inside an expanded table is a slice of it, and every one of its symbols can be coded. */
  lemma WindowInside(base: seq<u16>, start: int, n: nat)
    requires CmfShape(base) && 0 <= start && start + n <= |base|
    ensures Window(base, start, n) == base[start..start + n]
    ensures n >= 2 ==> Strict(Window(base, start, n)) && Table(Window(base, start, n))
    ensures forall s :: 0 <= s < n - 1 ==> Codes(Window(base, start, n), s)
  {
  }
}
