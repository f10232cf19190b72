/** The recursive filters over reals: unrolled code against the sample-by-sample recurrences it stands for. */
module Filters {

  /** Sample i of an input that the two given samples precede, the nearer one first. */
  function Past(x: seq<real>, h1: real, h2: real, i: int): real
  {
    if 0 <= i < |x| then x[i] else if i == -1 then h1 else if i == -2 then h2 else 0.0
  }

  // ---------------------------------------------------------------- the recurrences

  function Fir3At(x: seq<real>, c: seq<real>, h1: real, h2: real, i: int): real
    requires |c| == 3
  {
    c[0] * Past(x, h1, h2, i) + c[1] * Past(x, h1, h2, i - 1) + c[2] * Past(x, h1, h2, i - 2)
  }

  function Ma1At(x: seq<real>, c1: real, h1: real, i: int): real { Past(x, h1, 0.0, i) + c1 * Past(x, h1, 0.0, i - 1) }

  /** Output i of the second order recursive filter; outputs -1 and -2 are the state it starts from. */
  function Ar2At(x: seq<real>, c1: real, c2: real, y1: real, y2: real, i: int): real
    requires i < |x|
    decreases i + 2
  {
    if i <= -2 then y2
    else if i == -1 then y1
    else x[i] - c1 * Ar2At(x, c1, c2, y1, y2, i - 1) - c2 * Ar2At(x, c1, c2, y1, y2, i - 2)
  }

  /** Output i of the leaky integrator. */
  function Ar1At(x: seq<real>, c1: real, y1: real, i: int): real
    requires i < |x|
    decreases i + 1
  {
    if i <= -1 then y1 else x[i] - c1 * Ar1At(x, c1, y1, i - 1)
  }

  function Fir3(x: seq<real>, c: seq<real>, h1: real, h2: real): (y: seq<real>)
    requires |c| == 3
    ensures |y| == |x|
  {
    seq(|x|, i => Fir3At(x, c, h1, h2, i))
  }

  function Ar2(x: seq<real>, c1: real, c2: real, y1: real, y2: real): (y: seq<real>)
    ensures |y| == |x|
  {
    seq(|x|, i requires 0 <= i < |x| => Ar2At(x, c1, c2, y1, y2, i))
  }

  function Ar1(x: seq<real>, c1: real, y1: real): (y: seq<real>)
    ensures |y| == |x|
  {
    seq(|x|, i requires 0 <= i < |x| => Ar1At(x, c1, y1, i))
  }

  function Ma1(x: seq<real>, c1: real, h1: real): (y: seq<real>)
    ensures |y| == |x|
  {
    seq(|x|, i => Ma1At(x, c1, h1, i))
  }

  // ---------------------------------------------------------------- chunks

  lemma {:induction false} Ar2Chunk(a: seq<real>, b: seq<real>, c1: real, c2: real, y1: real, y2: real, i: int)
    requires -2 <= i < |b|
    ensures |a| + i < |a + b|
    ensures Ar2At(a + b, c1, c2, y1, y2, |a| + i)
      == Ar2At(b, c1, c2, Ar2At(a, c1, c2, y1, y2, |a| - 1), Ar2At(a, c1, c2, y1, y2, |a| - 2), i)
    decreases i + 2
  {
    if i < 0 {
      Ar2Prefix(a, b, c1, c2, y1, y2, |a| + i);
    } else {
      Ar2Chunk(a, b, c1, c2, y1, y2, i - 1);
      Ar2Chunk(a, b, c1, c2, y1, y2, i - 2);
    }
  }

  lemma {:induction false} Ar2Prefix(a: seq<real>, b: seq<real>, c1: real, c2: real, y1: real, y2: real, i: int)
    requires i < |a|
    ensures Ar2At(a + b, c1, c2, y1, y2, i) == Ar2At(a, c1, c2, y1, y2, i)
    decreases i + 2
  {
    if i >= 0 {
      Ar2Prefix(a, b, c1, c2, y1, y2, i - 1);
      Ar2Prefix(a, b, c1, c2, y1, y2, i - 2);
    }
  }

  lemma {:induction false} Ar1Chunk(a: seq<real>, b: seq<real>, c1: real, y1: real, i: int)
    requires -1 <= i < |b|
    ensures |a| + i < |a + b|
    ensures Ar1At(a + b, c1, y1, |a| + i) == Ar1At(b, c1, Ar1At(a, c1, y1, |a| - 1), i)
    decreases i + 1
  {
    if i < 0 {
      Ar1Prefix(a, b, c1, y1, |a| + i);
    } else {
      Ar1Chunk(a, b, c1, y1, i - 1);
    }
  }

  lemma {:induction false} Ar1Prefix(a: seq<real>, b: seq<real>, c1: real, y1: real, i: int)
    requires i < |a|
    ensures Ar1At(a + b, c1, y1, i) == Ar1At(a, c1, y1, i)
    decreases i + 1
  {
    if i >= 0 { Ar1Prefix(a, b, c1, y1, i - 1); }
  }

  lemma PastChunk(a: seq<real>, b: seq<real>, h1: real, h2: real, i: int)
    requires -2 <= i < |b|
    ensures Past(a + b, h1, h2, |a| + i) == Past(b, Past(a, h1, h2, |a| - 1), Past(a, h1, h2, |a| - 2), i)
  {
  }

  /** Two chunks with the state carried over are filtered as one: the leaky integrator. */
  lemma Ar1Concat(a: seq<real>, b: seq<real>, c1: real, y1: real)
    ensures Ar1(a + b, c1, y1) == Ar1(a, c1, y1) + Ar1(b, c1, Ar1At(a, c1, y1, |a| - 1))
  {
    var whole, s := Ar1(a + b, c1, y1), Ar1At(a, c1, y1, |a| - 1);
    forall i | 0 <= i < |a + b| ensures whole[i] == (Ar1(a, c1, y1) + Ar1(b, c1, s))[i] {
      if i < |a| { Ar1Prefix(a, b, c1, y1, i); } else { Ar1Chunk(a, b, c1, y1, i - |a|); }
    }
  }

  /** The pre-emphasis filter. */
  lemma Ma1Concat(a: seq<real>, b: seq<real>, c1: real, h1: real)
    ensures Ma1(a + b, c1, h1) == Ma1(a, c1, h1) + Ma1(b, c1, Past(a, h1, 0.0, |a| - 1))
  {
    hide Past;
    var whole, s := Ma1(a + b, c1, h1), Past(a, h1, 0.0, |a| - 1);
    forall i | 0 <= i < |a + b| ensures whole[i] == (Ma1(a, c1, h1) + Ma1(b, c1, s))[i] {
      if i < |a| {
        PastPrefix(a, b, h1, 0.0, i);
        PastPrefix(a, b, h1, 0.0, i - 1);
      } else {
        PastChunk(a, b, h1, 0.0, i - |a|);
        PastChunk(a, b, h1, 0.0, i - |a| - 1);
        PastNear(b, s, 0.0, Past(a, h1, 0.0, |a| - 2), i - |a| - 1);
        PastNear(b, s, 0.0, Past(a, h1, 0.0, |a| - 2), i - |a|);
      }
    }
  }

  lemma PastPrefix(a: seq<real>, b: seq<real>, h1: real, h2: real, i: int)
    requires i < |a|
    ensures Past(a + b, h1, h2, i) == Past(a, h1, h2, i)
  {
  }

  lemma PastNear(x: seq<real>, h1: real, h2: real, g2: real, i: int)
    requires i >= -1
    ensures Past(x, h1, h2, i) == Past(x, h1, g2, i)
  {
  }

  /** The second order recursive filter. */
  lemma Ar2Concat(a: seq<real>, b: seq<real>, c1: real, c2: real, y1: real, y2: real)
    ensures Ar2(a + b, c1, c2, y1, y2)
      == Ar2(a, c1, c2, y1, y2) + Ar2(b, c1, c2, Ar2At(a, c1, c2, y1, y2, |a| - 1), Ar2At(a, c1, c2, y1, y2, |a| - 2))
  {
    hide Ar2At;
    var whole, s1, s2 := Ar2(a + b, c1, c2, y1, y2), Ar2At(a, c1, c2, y1, y2, |a| - 1), Ar2At(a, c1, c2, y1, y2, |a| - 2);
    forall i | 0 <= i < |a + b| ensures whole[i] == (Ar2(a, c1, c2, y1, y2) + Ar2(b, c1, c2, s1, s2))[i] {
      if i < |a| { Ar2Prefix(a, b, c1, c2, y1, y2, i); } else { Ar2Chunk(a, b, c1, c2, y1, y2, i - |a|); }
    }
  }

  /** The three tap filter. */
  lemma Fir3Concat(a: seq<real>, b: seq<real>, c: seq<real>, h1: real, h2: real)
    requires |c| == 3
    ensures Fir3(a + b, c, h1, h2) == Fir3(a, c, h1, h2) + Fir3(b, c, Past(a, h1, h2, |a| - 1), Past(a, h1, h2, |a| - 2))
  {
    hide Fir3At, Past;
    var whole, s1, s2 := Fir3(a + b, c, h1, h2), Past(a, h1, h2, |a| - 1), Past(a, h1, h2, |a| - 2);
    forall i | 0 <= i < |a + b| ensures whole[i] == (Fir3(a, c, h1, h2) + Fir3(b, c, s1, s2))[i] {
      if i < |a| { Fir3Prefix(a, b, c, h1, h2, i); } else { Fir3Chunk(a, b, c, h1, h2, i - |a|); }
    }
  }

  lemma Fir3Prefix(a: seq<real>, b: seq<real>, c: seq<real>, h1: real, h2: real, i: nat)
    requires |c| == 3 && i < |a|
    ensures Fir3At(a + b, c, h1, h2, i) == Fir3At(a, c, h1, h2, i)
  {
    hide Past;
    PastPrefix(a, b, h1, h2, i);
    PastPrefix(a, b, h1, h2, i - 1);
    PastPrefix(a, b, h1, h2, i - 2);
  }

  lemma Fir3Chunk(a: seq<real>, b: seq<real>, c: seq<real>, h1: real, h2: real, i: nat)
    requires |c| == 3 && i < |b|
    ensures Fir3At(a + b, c, h1, h2, |a| + i) == Fir3At(b, c, Past(a, h1, h2, |a| - 1), Past(a, h1, h2, |a| - 2), i)
  {
    hide Past;
    PastChunk(a, b, h1, h2, i);
    PastChunk(a, b, h1, h2, i - 1);
    PastChunk(a, b, h1, h2, i - 2);
  }

  /** State of the two stage filter: two input samples, two output samples, the nearer ones first. */
  datatype Arma = Arma(h1: real, h2: real, y1: real, y2: real)

  function Arma2(x: seq<real>, ma: seq<real>, ar: seq<real>, s: Arma): (y: seq<real>)
    requires |ma| == 3 && |ar| == 3
    ensures |y| == |x|
  {
    Ar2(Fir3(x, ma, s.h1, s.h2), ar[1], ar[2], s.y1, s.y2)
  }

  function Arma2After(x: seq<real>, ma: seq<real>, ar: seq<real>, s: Arma): Arma
    requires |ma| == 3 && |ar| == 3
  {
    var t := Fir3(x, ma, s.h1, s.h2);
    Arma(Past(x, s.h1, s.h2, |x| - 1), Past(x, s.h1, s.h2, |x| - 2),
         Ar2At(t, ar[1], ar[2], s.y1, s.y2, |x| - 1), Ar2At(t, ar[1], ar[2], s.y1, s.y2, |x| - 2))
  }

  lemma Ar2Equation(x: seq<real>, c1: real, c2: real, y1: real, y2: real, i: nat)
    requires i < |x|
    ensures var y := Ar2(x, c1, c2, y1, y2); y[i] == x[i] - c1 * Past(y, y1, y2, i - 1) - c2 * Past(y, y1, y2, i - 2)
  {
    hide Past, Ar2, Ar2At;
    Ar2Back(x, c1, c2, y1, y2, i - 1);
    Ar2Back(x, c1, c2, y1, y2, i - 2);
    Ar2Here(x, c1, c2, y1, y2, i);
  }

  lemma Ar2Here(x: seq<real>, c1: real, c2: real, y1: real, y2: real, i: nat)
    requires i < |x|
    ensures Ar2(x, c1, c2, y1, y2)[i] == x[i] - c1 * Ar2At(x, c1, c2, y1, y2, i - 1) - c2 * Ar2At(x, c1, c2, y1, y2, i - 2)
  {
    hide Ar2At, Mul;
    Ar2Step(x, c1, c2, y1, y2, i);
    MulNegated(c1, Ar2At(x, c1, c2, y1, y2, i - 1));
    MulNegated(c2, Ar2At(x, c1, c2, y1, y2, i - 2));
  }

  lemma MulNegated(c: real, y: real)
    ensures Mul(-c, y) == -(c * y)
  {
  }

  lemma Ar2Back(x: seq<real>, c1: real, c2: real, y1: real, y2: real, i: int)
    requires -2 <= i < |x|
    ensures Past(Ar2(x, c1, c2, y1, y2), y1, y2, i) == Ar2At(x, c1, c2, y1, y2, i)
  {
  }

  /** The two stages together meet the difference equation of the filter, whose leading output coefficient counts as one. */
  lemma Arma2Equation(x: seq<real>, ma: seq<real>, ar: seq<real>, s: Arma, i: nat)
    requires |ma| == 3 && |ar| == 3 && i < |x|
    ensures var y := Arma2(x, ma, ar, s);
      y[i] + ar[1] * Past(y, s.y1, s.y2, i - 1) + ar[2] * Past(y, s.y1, s.y2, i - 2)
      == ma[0] * x[i] + ma[1] * Past(x, s.h1, s.h2, i - 1) + ma[2] * Past(x, s.h1, s.h2, i - 2)
  {
    hide Past, Ar2, Fir3;
    var t, y := Fir3(x, ma, s.h1, s.h2), Arma2(x, ma, ar, s);
    Ar2Equation(t, ar[1], ar[2], s.y1, s.y2, i);
    FirstStage(x, ma, s.h1, s.h2, i);
    var a, b := ar[1] * Past(y, s.y1, s.y2, i - 1), ar[2] * Past(y, s.y1, s.y2, i - 2);
    assert y[i] == t[i] - a - b;
  }

  lemma FirstStage(x: seq<real>, c: seq<real>, h1: real, h2: real, i: nat)
    requires |c| == 3 && i < |x|
    ensures Fir3(x, c, h1, h2)[i] == c[0] * x[i] + c[1] * Past(x, h1, h2, i - 1) + c[2] * Past(x, h1, h2, i - 2)
  {
  }

  /** Two chunks through the two stage filter are filtered as one, and leave the same state. */
  lemma Arma2Concat(a: seq<real>, b: seq<real>, ma: seq<real>, ar: seq<real>, s: Arma)
    requires |ma| == 3 && |ar| == 3
    ensures Arma2(a + b, ma, ar, s) == Arma2(a, ma, ar, s) + Arma2(b, ma, ar, Arma2After(a, ma, ar, s))
    ensures Arma2After(a + b, ma, ar, s) == Arma2After(b, ma, ar, Arma2After(a, ma, ar, s))
  {
    hide Ar2At, Fir3, Past, Ar2;
    var s1 := Arma2After(a, ma, ar, s);
    var ta, tb := Fir3(a, ma, s.h1, s.h2), Fir3(b, ma, s1.h1, s1.h2);
    Fir3Concat(a, b, ma, s.h1, s.h2);
    Ar2Concat(ta, tb, ar[1], ar[2], s.y1, s.y2);
    Ar2Chunk(ta, tb, ar[1], ar[2], s.y1, s.y2, |b| - 1);
    Ar2Chunk(ta, tb, ar[1], ar[2], s.y1, s.y2, |b| - 2);
    PastChunk(a, b, s.h1, s.h2, |b| - 1);
    PastChunk(a, b, s.h1, s.h2, |b| - 2);
  }

  /** Pre-emphasis undoes the leaky integrator of the same coefficient when they start from the same sample. */
  lemma EmphasisUndone(x: seq<real>, c1: real, y1: real)
    ensures Ma1(Ar1(x, c1, y1), c1, y1) == x
    ensures Past(Ar1(x, c1, y1), y1, 0.0, |x| - 1) == Ar1At(x, c1, y1, |x| - 1)
  {
    hide Ar1At, Past, Ma1At;
    var y := Ar1(x, c1, y1);
    forall i | 0 <= i < |x| ensures Ma1(y, c1, y1)[i] == x[i] { EmphasisAt(x, c1, y1, i); }
    PastIsOutput(x, c1, y1, |x| - 1);
  }

  lemma PastIsOutput(x: seq<real>, c1: real, y1: real, i: int)
    requires -1 <= i < |x|
    ensures Past(Ar1(x, c1, y1), y1, 0.0, i) == Ar1At(x, c1, y1, i)
  {
  }

  lemma EmphasisAt(x: seq<real>, c1: real, y1: real, i: nat)
    requires i < |x|
    ensures Ma1At(Ar1(x, c1, y1), c1, y1, i) == x[i]
  {
    hide Past, Ar1At, Ar1;
    PastIsOutput(x, c1, y1, i);
    PastIsOutput(x, c1, y1, i - 1);
    Ar1Step(x, c1, y1, i);
  }

  // ---------------------------------------------------------------- the code

  method SmplPfFir3(input: seq<real>, n: nat, coef: seq<real>, state: array<real>, out: array<real>)
    requires n <= |input| && n <= out.Length && |coef| == 3 && state.Length == 2 && state != out
    modifies state, out
    ensures out[..] == Fir3(input[..n], coef, old(state[0]), old(state[1])) + old(out[n..])
    ensures state[0] == Past(input[..n], old(state[0]), old(state[1]), n - 1) && state[1] == Past(input[..n], old(state[0]), old(state[1]), n - 2)
  {
    var xm1, xm2 := state[0], state[1];
    for i := 0 to n
      invariant state[..] == old(state[..])
      invariant forall k :: 0 <= k < i ==> out[k] == Fir3At(input[..n], coef, xm1, xm2, k)
      invariant out[n..] == old(out[n..])
    {
      var p1 := if i >= 1 then input[i - 1] else xm1;
      var p2 := if i >= 2 then input[i - 2] else if i == 1 then xm1 else xm2;
      out[i] := coef[0] * input[i] + coef[1] * p1 + coef[2] * p2;
    }
    if n >= 2 {
      state[0], state[1] := input[n - 1], input[n - 2];
    } else if n == 1 {
      state[1] := xm1;
      state[0] := input[0];
    }
    assert out[..] == out[..n] + out[n..];
  }

  /** The taps of the unrolled form: the impulse response, and what the older output adds. */
  datatype Taps = Taps(imp1: real, imp2: real, imp3: real, imp4: real, ymp1: real, ymp2: real, ymp3: real, ymp4: real)

  function TapsOf(c1: real, c2: real): Taps
  {
    var ar1, ar2 := -c1, -c2;
    var ar1_2 := ar1 * ar1;
    var ar1_3 := ar1 * ar1_2;
    var ar1_4 := ar1 * ar1_3;
    var imp1, imp2, imp3 := ar1, ar1_2 + ar2, ar1_3 + 2.0 * ar1 * ar2;
    Taps(imp1, imp2, imp3, ar1_4 + ar2 * ar2 + 3.0 * ar1_2 * ar2, ar2, ar2 * imp1, ar2 * imp2, ar2 * imp3)
  }

  /** A product, taken as one term. */
  function Mul(a: real, b: real): real { a * b }

  function Out0(t: Taps, x0: real, y1: real, y0: real): real { x0 + Mul(t.imp1, y1) + Mul(t.ymp1, y0) }

  function Out1(t: Taps, x0: real, x1: real, y1: real, y0: real): real { x1 + Mul(t.imp1, x0) + Mul(t.imp2, y1) + Mul(t.ymp2, y0) }

  function Out2(t: Taps, x0: real, x1: real, x2: real, y1: real, y0: real): real
  {
    x2 + Mul(t.imp1, x1) + Mul(t.imp2, x0) + Mul(t.imp3, y1) + Mul(t.ymp3, y0)
  }

  function Out3(t: Taps, x0: real, x1: real, x2: real, x3: real, y1: real, y0: real): real
  {
    x3 + Mul(t.imp1, x2) + Mul(t.imp2, x1) + Mul(t.imp3, x0) + Mul(t.imp4, y1) + Mul(t.ymp4, y0)
  }

  lemma MulAdd(a: real, b: real, c: real)
    ensures Mul(a, b + c) == Mul(a, b) + Mul(a, c)
  {
  }

  lemma Mul4(a: real, p: real, q: real, r: real, s: real)
    ensures Mul(a, p + q + r + s) == Mul(a, p) + Mul(a, q) + Mul(a, r) + Mul(a, s)
  {
    hide Mul;
    MulAdd(a, p + q + r, s);
    MulAdd(a, p + q, r);
    MulAdd(a, p, q);
  }

  /** A tap is what the recurrence makes of the two before it. */
  lemma Weight(a: real, b: real, p: real, q: real, r: real, x: real)
    requires r == a * p + b * q
    ensures Mul(a, Mul(p, x)) + Mul(b, Mul(q, x)) == Mul(r, x)
  {
  }

  lemma WeightUnit(a: real, b: real, p: real, r: real, x: real)
    requires r == a * p + b
    ensures Mul(a, Mul(p, x)) + Mul(b, x) == Mul(r, x)
  {
  }

  lemma WeightOne(a: real, p: real, r: real, x: real)
    requires r == a * p
    ensures Mul(a, Mul(p, x)) == Mul(r, x)
  {
  }

  lemma TapsRecur(c1: real, c2: real)
    ensures var t := TapsOf(c1, c2);
      && t.imp1 == -c1 && t.imp2 == -c1 * t.imp1 + -c2 && t.imp3 == -c1 * t.imp2 + -c2 * t.imp1 && t.imp4 == -c1 * t.imp3 + -c2 * t.imp2
      && t.ymp1 == -c2 && t.ymp2 == -c1 * t.ymp1 && t.ymp3 == -c1 * t.ymp2 + -c2 * t.ymp1 && t.ymp4 == -c1 * t.ymp3 + -c2 * t.ymp2
  {
  }

  lemma WeightsOf(c1: real, c2: real, x: real)
    ensures var t := TapsOf(c1, c2);
      && Mul(-c1, x) == Mul(t.imp1, x)
      && Mul(-c1, Mul(t.imp1, x)) + Mul(-c2, x) == Mul(t.imp2, x)
      && Mul(-c1, Mul(t.imp2, x)) + Mul(-c2, Mul(t.imp1, x)) == Mul(t.imp3, x)
      && Mul(-c1, Mul(t.imp3, x)) + Mul(-c2, Mul(t.imp2, x)) == Mul(t.imp4, x)
      && Mul(-c2, x) == Mul(t.ymp1, x)
      && Mul(-c1, Mul(t.ymp1, x)) == Mul(t.ymp2, x)
      && Mul(-c1, Mul(t.ymp2, x)) + Mul(-c2, Mul(t.ymp1, x)) == Mul(t.ymp3, x)
      && Mul(-c1, Mul(t.ymp3, x)) + Mul(-c2, Mul(t.ymp2, x)) == Mul(t.ymp4, x)
  {
    hide Mul, TapsOf;
    var t := TapsOf(c1, c2);
    TapsRecur(c1, c2);
    WeightUnit(-c1, -c2, t.imp1, t.imp2, x);
    Weight(-c1, -c2, t.imp2, t.imp1, t.imp3, x);
    Weight(-c1, -c2, t.imp3, t.imp2, t.imp4, x);
    WeightOne(-c1, t.ymp1, t.ymp2, x);
    Weight(-c1, -c2, t.ymp2, t.ymp1, t.ymp3, x);
    Weight(-c1, -c2, t.ymp3, t.ymp2, t.ymp4, x);
  }

  /** Each of the four closed forms is the recurrence applied to the two before it. */
  lemma OutNext(c1: real, c2: real, x0: real, x1: real, x2: real, x3: real, y1: real, y0: real)
    ensures
      var t := TapsOf(c1, c2);
      var z0, z1, z2 := Out0(t, x0, y1, y0), Out1(t, x0, x1, y1, y0), Out2(t, x0, x1, x2, y1, y0);
      && z0 == x0 + Mul(-c1, y1) + Mul(-c2, y0)
      && z1 == x1 + Mul(-c1, z0) + Mul(-c2, y1)
      && z2 == x2 + Mul(-c1, z1) + Mul(-c2, z0)
      && Out3(t, x0, x1, x2, x3, y1, y0) == x3 + Mul(-c1, z2) + Mul(-c2, z1)
  {
    hide Mul, TapsOf;
    var t := TapsOf(c1, c2);
    WeightsOf(c1, c2, x0);
    WeightsOf(c1, c2, x1);
    WeightsOf(c1, c2, x2);
    WeightsOf(c1, c2, y1);
    WeightsOf(c1, c2, y0);
    Mul4(-c1, x0, Mul(t.imp1, y1), Mul(t.ymp1, y0), 0.0);
    Mul4(-c2, x0, Mul(t.imp1, y1), Mul(t.ymp1, y0), 0.0);
    Mul4(-c1, x1, Mul(t.imp1, x0), Mul(t.imp2, y1), Mul(t.ymp2, y0));
    Mul4(-c2, x1, Mul(t.imp1, x0), Mul(t.imp2, y1), Mul(t.ymp2, y0));
    Mul4(-c1, x2 + Mul(t.imp1, x1), Mul(t.imp2, x0), Mul(t.imp3, y1), Mul(t.ymp3, y0));
    MulAdd(-c1, x2, Mul(t.imp1, x1));
    MulZero(-c1);
    MulZero(-c2);
  }

  lemma MulZero(a: real)
    ensures Mul(a, 0.0) == 0.0
  {
  }

  /** The same four outputs, as the recurrence numbers them. */
  lemma Ar2Four(x: seq<real>, c1: real, c2: real, y1: real, y2: real, i: nat)
    requires i + 3 < |x|
    ensures
      var t, u1, u0 := TapsOf(c1, c2), Ar2At(x, c1, c2, y1, y2, i - 1), Ar2At(x, c1, c2, y1, y2, i - 2);
      && Ar2At(x, c1, c2, y1, y2, i) == Out0(t, x[i], u1, u0)
      && Ar2At(x, c1, c2, y1, y2, i + 1) == Out1(t, x[i], x[i + 1], u1, u0)
      && Ar2At(x, c1, c2, y1, y2, i + 2) == Out2(t, x[i], x[i + 1], x[i + 2], u1, u0)
      && Ar2At(x, c1, c2, y1, y2, i + 3) == Out3(t, x[i], x[i + 1], x[i + 2], x[i + 3], u1, u0)
  {
    hide Ar2At, TapsOf, Out0, Out1, Out2, Out3, Mul;
    Ar2Step(x, c1, c2, y1, y2, i);
    Ar2Step(x, c1, c2, y1, y2, i + 1);
    Ar2Step(x, c1, c2, y1, y2, i + 2);
    Ar2Step(x, c1, c2, y1, y2, i + 3);
    OutNext(c1, c2, x[i], x[i + 1], x[i + 2], x[i + 3], Ar2At(x, c1, c2, y1, y2, i - 1), Ar2At(x, c1, c2, y1, y2, i - 2));
  }

  /** One output at a time. */
  lemma Ar2One(x: seq<real>, c1: real, c2: real, y1: real, y2: real, i: nat)
    requires i < |x|
    ensures Ar2At(x, c1, c2, y1, y2, i) == Out0(TapsOf(c1, c2), x[i], Ar2At(x, c1, c2, y1, y2, i - 1), Ar2At(x, c1, c2, y1, y2, i - 2))
  {
    hide Ar2At, TapsOf, Mul;
    Ar2Step(x, c1, c2, y1, y2, i);
    OutNext(c1, c2, x[i], 0.0, 0.0, 0.0, Ar2At(x, c1, c2, y1, y2, i - 1), Ar2At(x, c1, c2, y1, y2, i - 2));
  }

  lemma Ar2Step(x: seq<real>, c1: real, c2: real, y1: real, y2: real, i: nat)
    requires i < |x|
    ensures Ar2At(x, c1, c2, y1, y2, i) == x[i] + Mul(-c1, Ar2At(x, c1, c2, y1, y2, i - 1)) + Mul(-c2, Ar2At(x, c1, c2, y1, y2, i - 2))
  {
  }

  lemma Ar2Start(x: seq<real>, c1: real, c2: real, y1: real, y2: real)
    ensures Ar2At(x, c1, c2, y1, y2, -1) == y1 && Ar2At(x, c1, c2, y1, y2, -2) == y2
  {
  }

  method PfFiltAR2(input: seq<real>, n: nat, c1: real, c2: real, state: array<real>, out: array<real>)
    requires n <= |input| && n <= out.Length && state.Length == 2 && state != out
    modifies state, out
    ensures out[..] == Ar2(input[..n], c1, c2, old(state[0]), old(state[1])) + old(out[n..])
    ensures state[0] == Ar2At(input[..n], c1, c2, old(state[0]), old(state[1]), n - 1)
    ensures state[1] == Ar2At(input[..n], c1, c2, old(state[0]), old(state[1]), n - 2)
  {
    hide Ar2At, TapsOf, Out0, Out1, Out2, Out3;
    ghost var x, s1, s2 := input[..n], state[0], state[1];
    var ytmp0, ytmp1 := state[1], state[0];
    var t := TapsOf(c1, c2);
    var nn := 0;
    Ar2Start(x, c1, c2, s1, s2);
    while nn + 3 < n
      invariant nn <= n && out[n..] == old(out[n..])
      invariant ytmp1 == Ar2At(x, c1, c2, s1, s2, nn - 1) && ytmp0 == Ar2At(x, c1, c2, s1, s2, nn - 2)
      invariant forall k :: 0 <= k < nn ==> out[k] == Ar2At(x, c1, c2, s1, s2, k)
    {
      Ar2Four(x, c1, c2, s1, s2, nn);
      var xtmp0, xtmp1, xtmp2 := input[nn], input[nn + 1], input[nn + 2];
      out[nn + 2] := Out2(t, xtmp0, xtmp1, xtmp2, ytmp1, ytmp0);
      var xtmp3 := input[nn + 3];
      out[nn + 3] := Out3(t, xtmp0, xtmp1, xtmp2, xtmp3, ytmp1, ytmp0);
      out[nn] := Out0(t, xtmp0, ytmp1, ytmp0);
      out[nn + 1] := Out1(t, xtmp0, xtmp1, ytmp1, ytmp0);
      ytmp0, ytmp1 := out[nn + 2], out[nn + 3];
      nn := nn + 4;
    }
    while nn < n
      invariant nn <= n && out[n..] == old(out[n..])
      invariant ytmp1 == Ar2At(x, c1, c2, s1, s2, nn - 1) && ytmp0 == Ar2At(x, c1, c2, s1, s2, nn - 2)
      invariant forall k :: 0 <= k < nn ==> out[k] == Ar2At(x, c1, c2, s1, s2, k)
    {
      Ar2One(x, c1, c2, s1, s2, nn);
      out[nn] := Out0(t, input[nn], ytmp1, ytmp0);
      ytmp0 := ytmp1;
      ytmp1 := out[nn];
      nn := nn + 1;
    }
    state[1] := ytmp0;
    state[0] := ytmp1;
    assert out[..] == out[..n] + out[n..];
  }

  lemma Ar1Step(x: seq<real>, c1: real, y1: real, i: nat)
    requires i < |x|
    ensures Ar1At(x, c1, y1, i) == x[i] + -c1 * Ar1At(x, c1, y1, i - 1)
  {
  }

  lemma Ar1Start(x: seq<real>, c1: real, y1: real)
    ensures Ar1At(x, c1, y1, -1) == y1
  {
  }

  /** Powers of the coefficient, in the order the code multiplies them up. */
  datatype Powers = Powers(p1: real, p2: real, p3: real, p4: real, p5: real)

  function PowersOf(a: real): Powers
  {
    var a2 := a * a;
    var a3 := a * a2;
    var a4 := a * a3;
    Powers(a, a2, a3, a4, a * a4)
  }

  function Leak0(p: Powers, x0: real, y: real): real { x0 + p.p1 * y }

  function Leak1(p: Powers, x0: real, x1: real, y: real): real { x1 + p.p1 * x0 + p.p2 * y }

  function Leak2(p: Powers, x0: real, x1: real, x2: real, y: real): real { x2 + p.p1 * x1 + p.p2 * x0 + p.p3 * y }

  function Leak3(p: Powers, x0: real, x1: real, x2: real, x3: real, y: real): real
  {
    x3 + p.p1 * x2 + p.p2 * x1 + p.p3 * x0 + p.p4 * y
  }

  function Leak4(p: Powers, x0: real, x1: real, x2: real, x3: real, x4: real, y: real): real
  {
    x4 + p.p1 * x3 + p.p2 * x2 + p.p3 * x1 + p.p4 * x0 + p.p5 * y
  }

  /** Five steps of the integrator in closed form. */
  lemma UnrolledOne(a: real, x0: real, x1: real, x2: real, x3: real, x4: real, y: real)
    ensures
      var p := PowersOf(a);
      var z0 := x0 + a * y;
      var z1 := x1 + a * z0;
      var z2 := x2 + a * z1;
      var z3 := x3 + a * z2;
      && z0 == Leak0(p, x0, y) && z1 == Leak1(p, x0, x1, y) && z2 == Leak2(p, x0, x1, x2, y)
      && z3 == Leak3(p, x0, x1, x2, x3, y) && x4 + a * z3 == Leak4(p, x0, x1, x2, x3, x4, y)
  {
  }

  /** Five outputs of the leaky integrator in closed form. */
  lemma Ar1Five(x: seq<real>, c1: real, y1: real, i: nat)
    requires i + 4 < |x|
    ensures
      var p, u := PowersOf(-c1), Ar1At(x, c1, y1, i - 1);
      && Ar1At(x, c1, y1, i) == Leak0(p, x[i], u)
      && Ar1At(x, c1, y1, i + 1) == Leak1(p, x[i], x[i + 1], u)
      && Ar1At(x, c1, y1, i + 2) == Leak2(p, x[i], x[i + 1], x[i + 2], u)
      && Ar1At(x, c1, y1, i + 3) == Leak3(p, x[i], x[i + 1], x[i + 2], x[i + 3], u)
      && Ar1At(x, c1, y1, i + 4) == Leak4(p, x[i], x[i + 1], x[i + 2], x[i + 3], x[i + 4], u)
  {
    hide Ar1At, Leak0, Leak1, Leak2, Leak3, Leak4, PowersOf;
    Ar1Step(x, c1, y1, i);
    Ar1Step(x, c1, y1, i + 1);
    Ar1Step(x, c1, y1, i + 2);
    Ar1Step(x, c1, y1, i + 3);
    Ar1Step(x, c1, y1, i + 4);
    UnrolledOne(-c1, x[i], x[i + 1], x[i + 2], x[i + 3], x[i + 4], Ar1At(x, c1, y1, i - 1));
  }

  lemma Ar1One(x: seq<real>, c1: real, y1: real, i: nat)
    requires i < |x|
    ensures Ar1At(x, c1, y1, i) == Leak0(PowersOf(-c1), x[i], Ar1At(x, c1, y1, i - 1))
  {
    Ar1Step(x, c1, y1, i);
  }

  method PfFiltAR1(input: seq<real>, n: nat, c1: real, state: array<real>, out: array<real>)
    requires n <= |input| && n <= out.Length && state.Length == 1 && state != out
    modifies state, out
    ensures out[..] == Ar1(input[..n], c1, old(state[0])) + old(out[n..])
    ensures state[0] == Ar1At(input[..n], c1, old(state[0]), n - 1)
  {
    hide Ar1At, Leak0, Leak1, Leak2, Leak3, Leak4, PowersOf;
    ghost var x, s := input[..n], state[0];
    var p := PowersOf(-c1);
    var ytmp := state[0];
    var nn := 0;
    Ar1Start(x, c1, s);
    while nn + 4 < n
      invariant nn <= n && out[n..] == old(out[n..]) && ytmp == Ar1At(x, c1, s, nn - 1)
      invariant forall k :: 0 <= k < nn ==> out[k] == Ar1At(x, c1, s, k)
    {
      Ar1Five(x, c1, s, nn);
      var xtmp0, xtmp1, xtmp2, xtmp3, xtmp4 := input[nn], input[nn + 1], input[nn + 2], input[nn + 3], input[nn + 4];
      out[nn + 4] := Leak4(p, xtmp0, xtmp1, xtmp2, xtmp3, xtmp4, ytmp);
      out[nn] := Leak0(p, xtmp0, ytmp);
      out[nn + 1] := Leak1(p, xtmp0, xtmp1, ytmp);
      out[nn + 2] := Leak2(p, xtmp0, xtmp1, xtmp2, ytmp);
      out[nn + 3] := Leak3(p, xtmp0, xtmp1, xtmp2, xtmp3, ytmp);
      ytmp := out[nn + 4];
      nn := nn + 5;
    }
    while nn < n
      invariant nn <= n && out[n..] == old(out[n..]) && ytmp == Ar1At(x, c1, s, nn - 1)
      invariant forall k :: 0 <= k < nn ==> out[k] == Ar1At(x, c1, s, k)
    {
      Ar1One(x, c1, s, nn);
      ytmp := Leak0(p, input[nn], ytmp);
      out[nn] := ytmp;
      nn := nn + 1;
    }
    state[0] := ytmp;
    assert out[..] == out[..n] + out[n..];
  }

  method PfFiltMA1(input: seq<real>, n: nat, c1: real, state: array<real>, out: array<real>)
    requires n <= |input| && n <= out.Length && state.Length == 1 && state != out
    modifies state, out
    ensures out[..] == Ma1(input[..n], c1, old(state[0])) + old(out[n..])
    ensures state[0] == Past(input[..n], old(state[0]), 0.0, n - 1)
  {
    var prev := state[0];
    var i := n - 1;
    while i >= 1
      invariant n > 0 ==> 0 <= i < n
      invariant out[n..] == old(out[n..]) && state[0] == prev
      invariant forall k :: i < k < n && k > 0 ==> out[k] == Ma1At(input[..n], c1, prev, k)
      decreases i
    {
      out[i] := input[i] + c1 * input[i - 1];
      i := i - 1;
    }
    if n > 0 {
      out[0] := input[0] + c1 * prev;
      state[0] := input[n - 1];
      assert out[0] == Ma1At(input[..n], c1, prev, 0);
    }
    assert forall k :: 0 <= k < n ==> out[k] == Ma1At(input[..n], c1, prev, k);
    assert out[..n] == Ma1(input[..n], c1, prev);
    assert out[..] == out[..n] + out[n..];
  }

  method SmplFiltArma2(input: seq<real>, n: nat, coefMA: seq<real>, coefAR: seq<real>, state: array<real>, out: array<real>)
    requires n <= |input| && n <= out.Length && |coefMA| == 3 && |coefAR| == 3 && state.Length == 4 && state != out
    modifies state, out
    ensures var s := Arma(old(state[0]), old(state[1]), old(state[2]), old(state[3]));
      && out[..] == Arma2(input[..n], coefMA, coefAR, s) + old(out[n..])
      && Arma(state[0], state[1], state[2], state[3]) == Arma2After(input[..n], coefMA, coefAR, s)
  {
    hide Ar2At, Past, Fir3, Ar2;
    var tmp := new real[n](_ => 0.0);
    var maSt := new real[2];
    maSt[0], maSt[1] := state[0], state[1];
    SmplPfFir3(input, n, coefMA, maSt, tmp);
    ghost var t := Fir3(input[..n], coefMA, state[0], state[1]);
    assert tmp[..] == t;
    state[0], state[1] := maSt[0], maSt[1];
    var arSt := new real[2];
    arSt[0], arSt[1] := state[2], state[3];
    assert tmp[..][..n] == t;
    PfFiltAR2(tmp[..], n, coefAR[1], coefAR[2], arSt, out);
    state[2], state[3] := arSt[0], arSt[1];
  }

  const PITCH_AR := 0.96

  /** The pitch estimator's high pass: a difference, then the leaky integrator over its own output, in place. */
  method PePitchHpFilter(x: seq<real>, out: array<real>)
    requires |x| <= out.Length
    modifies out
    ensures out[..] == Ar1(Ma1(x, -1.0, 0.0), -PITCH_AR, 0.0) + old(out[|x|..])
  {
    hide Ar1At;
    var n := |x|;
    var stateMa := 0.0;
    for i := 0 to n
      invariant stateMa == Past(x, 0.0, 0.0, i - 1) && out[n..] == old(out[n..])
      invariant forall k :: 0 <= k < i ==> out[k] == Ma1At(x, -1.0, 0.0, k)
    {
      out[i] := x[i] - stateMa;
      stateMa := x[i];
    }
    ghost var z := Ma1(x, -1.0, 0.0);
    Integrate(out, z, n);
    assert out[..] == out[..n] + out[n..];
  }

  method Integrate(out: array<real>, ghost z: seq<real>, n: nat)
    requires n == |z| <= out.Length && out[..n] == z
    modifies out
    ensures out[..n] == Ar1(z, -PITCH_AR, 0.0) && out[n..] == old(out[n..])
  {
    hide Ar1At, Leak0, Leak1, Leak2, Leak3, Leak4, PowersOf;
    var p := PowersOf(PITCH_AR);
    ghost var c := -PITCH_AR;
    var ytmp := 0.0;
    var idx := 0;
    Ar1Start(z, c, 0.0);
    while idx + 4 < n
      invariant idx <= n && out[n..] == old(out[n..]) && ytmp == Ar1At(z, c, 0.0, idx - 1)
      invariant forall k :: 0 <= k < idx ==> out[k] == Ar1At(z, c, 0.0, k)
      invariant forall k :: idx <= k < n ==> out[k] == z[k]
    {
      Ar1Five(z, c, 0.0, idx);
      var x0, x1, x2, x3, x4 := out[idx], out[idx + 1], out[idx + 2], out[idx + 3], out[idx + 4];
      out[idx + 4] := Leak4(p, x0, x1, x2, x3, x4, ytmp);
      out[idx] := Leak0(p, x0, ytmp);
      out[idx + 1] := Leak1(p, x0, x1, ytmp);
      out[idx + 2] := Leak2(p, x0, x1, x2, ytmp);
      out[idx + 3] := Leak3(p, x0, x1, x2, x3, ytmp);
      ytmp := out[idx + 4];
      idx := idx + 5;
    }
    while idx < n
      invariant idx <= n && out[n..] == old(out[n..]) && ytmp == Ar1At(z, c, 0.0, idx - 1)
      invariant forall k :: 0 <= k < idx ==> out[k] == Ar1At(z, c, 0.0, k)
      invariant forall k :: idx <= k < n ==> out[k] == z[k]
    {
      Ar1One(z, c, 0.0, idx);
      ytmp := Leak0(p, out[idx], ytmp);
      out[idx] := ytmp;
      idx := idx + 1;
    }
  }
}
