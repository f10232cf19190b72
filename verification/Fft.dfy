/**
 The mixed-radix transform over exact complex numbers. The sine and cosine of an angle of index e are the e-th power
 of a root w of one, the only property of them that is used.
 */
module Fft {
  import opened Arith

  datatype Cpx = Cpx(re: real, im: real)

  const Zero := Cpx(0.0, 0.0)
  const One := Cpx(1.0, 0.0)

  function Add(a: Cpx, b: Cpx): Cpx { Cpx(a.re + b.re, a.im + b.im) }

  function Mul(a: Cpx, b: Cpx): Cpx { Cpx(a.re * b.re - a.im * b.im, a.re * b.im + a.im * b.re) }

  lemma AddLaws(a: Cpx, b: Cpx, c: Cpx)
    ensures Add(a, b) == Add(b, a) && Add(Add(a, b), c) == Add(a, Add(b, c))
    ensures Add(a, Zero) == a && Add(Zero, a) == a
  {
  }

  lemma MulLaws(a: Cpx, b: Cpx, c: Cpx)
    ensures Mul(a, b) == Mul(b, a) && Mul(a, One) == a && Mul(One, a) == a && Mul(a, Zero) == Zero && Mul(Zero, a) == Zero
    ensures Mul(Add(a, b), c) == Add(Mul(a, c), Mul(b, c))
  {
  }

  lemma MulAssoc(a: Cpx, b: Cpx, c: Cpx)
    ensures Mul(Mul(a, b), c) == Mul(a, Mul(b, c))
  {
  }

  function Pow(w: Cpx, e: nat): Cpx { if e == 0 then One else Mul(w, Pow(w, e - 1)) }

  lemma {:induction false} PowAdd(w: Cpx, a: nat, b: nat)
    ensures Pow(w, a + b) == Mul(Pow(w, a), Pow(w, b))
  {
    hide Mul;
    if a == 0 {
      MulLaws(Pow(w, b), One, One);
    } else {
      PowAdd(w, a - 1, b);
      MulAssoc(w, Pow(w, a - 1), Pow(w, b));
    }
  }

  lemma {:induction false} PowPow(w: Cpx, a: nat, b: nat)
    ensures Pow(Pow(w, a), b) == Pow(w, a * b)
  {
    hide Mul;
    if b > 0 {
      PowPow(w, a, b - 1);
      PowAdd(w, a, a * (b - 1));
      MulDist(a, b - 1, 1);
    }
  }

  lemma {:induction false} PowOne(e: nat)
    ensures Pow(One, e) == One
  {
    hide Mul;
    if e > 0 {
      PowOne(e - 1);
      MulLaws(One, One, One);
    }
  }

  lemma PowZero(w: Cpx)
    ensures Pow(w, 0) == One && Pow(w, 1) == w
  {
    hide Mul;
    MulLaws(w, One, One);
    assert Pow(w, 1) == Mul(w, Pow(w, 0));
  }

  /** Exponents of a root of one matter only modulo its order. */
  lemma PowWraps(w: Cpx, n: nat, a: nat, b: nat)
    requires Pow(w, n) == One
    ensures Pow(w, n * a + b) == Pow(w, b)
  {
    hide Pow, Mul;
    PowAdd(w, n * a, b);
    PowPow(w, n, a);
    PowOne(a);
    MulLaws(Pow(w, b), One, One);
  }

  // ---------------------------------------------------------------- the direct sum

  /** Sample i, read as if zeros followed the input. */
  function Sample(x: seq<Cpx>, i: int): Cpx { if 0 <= i < |x| then x[i] else Zero }

  function Term(x: seq<Cpx>, stride: nat, w: Cpx, k: nat, j: nat): Cpx { Mul(Sample(x, j * stride), Pow(w, j * k)) }

  /** The first n terms of output k. */
  function Dft(x: seq<Cpx>, stride: nat, n: nat, w: Cpx, k: nat): Cpx
  {
    if n == 0 then Zero else Add(Dft(x, stride, n - 1, w, k), Term(x, stride, w, k, n - 1))
  }

  // ---------------------------------------------------------------- regrouping by residue

  /** The terms whose index is q modulo p, from the first p * m. */
  function Residue(x: seq<Cpx>, stride: nat, w: Cpx, k: nat, p: nat, q: nat, m: nat): Cpx
  {
    if m == 0 then Zero else Add(Residue(x, stride, w, k, p, q, m - 1), Term(x, stride, w, k, p * (m - 1) + q))
  }

  /** The first c residue classes. */
  function Classes(x: seq<Cpx>, stride: nat, w: Cpx, k: nat, p: nat, m: nat, c: nat): Cpx
  {
    if c == 0 then Zero else Add(Classes(x, stride, w, k, p, m, c - 1), Residue(x, stride, w, k, p, c - 1, m))
  }

  /** The c terms from index a on. */
  function Run(x: seq<Cpx>, stride: nat, w: Cpx, k: nat, a: nat, c: nat): Cpx
  {
    if c == 0 then Zero else Add(Run(x, stride, w, k, a, c - 1), Term(x, stride, w, k, a + c - 1))
  }

  lemma {:induction false} DftRun(x: seq<Cpx>, stride: nat, w: Cpx, k: nat, a: nat, c: nat)
    ensures Dft(x, stride, a + c, w, k) == Add(Dft(x, stride, a, w, k), Run(x, stride, w, k, a, c))
  {
    hide Add, Term;
    if c == 0 {
      AddLaws(Dft(x, stride, a, w, k), Zero, Zero);
    } else {
      DftRun(x, stride, w, k, a, c - 1);
      AddLaws(Dft(x, stride, a, w, k), Run(x, stride, w, k, a, c - 1), Term(x, stride, w, k, a + c - 1));
    }
  }

  lemma {:induction false} NoClasses(x: seq<Cpx>, stride: nat, w: Cpx, k: nat, p: nat, c: nat)
    ensures Classes(x, stride, w, k, p, 0, c) == Zero
  {
    if c > 0 { NoClasses(x, stride, w, k, p, c - 1); }
  }

  /** One more round of every class is one more run. */
  lemma {:induction false} ClassesStep(x: seq<Cpx>, stride: nat, w: Cpx, k: nat, p: nat, m: nat, c: nat)
    ensures Classes(x, stride, w, k, p, m + 1, c) == Add(Classes(x, stride, w, k, p, m, c), Run(x, stride, w, k, p * m, c))
  {
    hide Add, Term;
    if c == 0 {
      AddLaws(Zero, Zero, Zero);
    } else {
      ClassesStep(x, stride, w, k, p, m, c - 1);
      Interchange(Classes(x, stride, w, k, p, m, c - 1), Run(x, stride, w, k, p * m, c - 1),
                  Residue(x, stride, w, k, p, c - 1, m), Term(x, stride, w, k, p * m + c - 1));
    }
  }

  lemma Interchange(a: Cpx, b: Cpx, c: Cpx, d: Cpx)
    ensures Add(Add(a, b), Add(c, d)) == Add(Add(a, c), Add(b, d))
  {
  }

  lemma {:induction false} Regroup(x: seq<Cpx>, stride: nat, w: Cpx, k: nat, p: nat, m: nat)
    ensures Dft(x, stride, p * m, w, k) == Classes(x, stride, w, k, p, m, p)
  {
    hide Add, Term, Classes;
    if m == 0 {
      NoClasses(x, stride, w, k, p, p);
      assert p * m == 0;
    } else {
      Regroup(x, stride, w, k, p, m - 1);
      MulDist(p, m - 1, 1);
      DftRun(x, stride, w, k, p * (m - 1), p);
      ClassesStep(x, stride, w, k, p, m - 1, p);
    }
  }

  // ---------------------------------------------------------------- the smaller transforms

  /** The power in a term splits into a power of the smaller root and the twiddle. */
  lemma RootPower(w: Cpx, k: nat, p: nat, m: nat, q: nat, j: nat)
    requires m > 0 && Pow(w, p * m) == One
    ensures Pow(w, (p * j + q) * k) == Mul(Pow(Pow(w, p), j * (k % m)), Pow(w, k * q))
  {
    hide Pow, Mul;
    var e, f, g := j * (k % m), k * q, j * (k / m);
    Exponents(p, m, j, k, q);
    PowWraps(w, p * m, g, p * e + f);
    PowAdd(w, p * e, f);
    PowPow(w, p, e);
  }

  lemma SubSample(x: seq<Cpx>, stride: nat, p: nat, q: nat, j: nat)
    requires q * stride <= |x|
    ensures Sample(x, (p * j + q) * stride) == Sample(x[q * stride..], j * (stride * p))
  {
    Indices(stride, p, q, j);
    var a, b := q * stride, j * (stride * p);
    assert b >= 0;
    Dropped(x, a, b);
  }

  lemma Dropped(x: seq<Cpx>, a: nat, b: nat)
    requires a <= |x|
    ensures Sample(x, a + b) == Sample(x[a..], b)
  {
  }

  /** Twiddled by w^(k q), term j of the q-th smaller transform is term p j + q of the whole one. */
  lemma TermTwiddle(x: seq<Cpx>, stride: nat, w: Cpx, k: nat, p: nat, m: nat, q: nat, j: nat)
    requires m > 0 && Pow(w, p * m) == One && q * stride <= |x|
    ensures Term(x, stride, w, k, p * j + q) == Mul(Term(x[q * stride..], stride * p, Pow(w, p), k % m, j), Pow(w, k * q))
  {
    hide Pow, Mul, Sample;
    SubSample(x, stride, p, q, j);
    RootPower(w, k, p, m, q, j);
    MulAssoc(Sample(x[q * stride..], j * (stride * p)), Pow(Pow(w, p), j * (k % m)), Pow(w, k * q));
  }

  lemma Indices(s: int, p: int, q: int, j: int)
    ensures q * s + j * (s * p) == (p * j + q) * s
  {
  }

  lemma Exponents(p: nat, m: nat, j: nat, k: nat, q: nat)
    requires m > 0
    ensures (p * j + q) * k == (p * m) * (j * (k / m)) + (p * (j * (k % m)) + k * q)
    ensures j * (k % m) >= 0 && p * (j * (k % m)) >= 0
  {
    var a, r := k / m, k % m;
    assert k == m * a + r;
    Products(p, m, j, a, r, q);
  }

  lemma Products(p: int, m: int, j: int, a: int, r: int, q: int)
    ensures (p * j + q) * (m * a + r) == (p * m) * (j * a) + (p * (j * r) + (m * a + r) * q)
  {
  }

  lemma {:induction false} ResidueIsDft(x: seq<Cpx>, stride: nat, w: Cpx, k: nat, p: nat, m: nat, q: nat, i: nat)
    requires m > 0 && Pow(w, p * m) == One && q * stride <= |x|
    ensures Residue(x, stride, w, k, p, q, i) == Mul(Dft(x[q * stride..], stride * p, i, Pow(w, p), k % m), Pow(w, k * q))
  {
    hide Add, Mul, Term, Pow;
    if i == 0 {
      MulLaws(Pow(w, k * q), Zero, Zero);
    } else {
      ResidueIsDft(x, stride, w, k, p, m, q, i - 1);
      TermTwiddle(x, stride, w, k, p, m, q, i - 1);
      var y := x[q * stride..];
      MulLaws(Dft(y, stride * p, i - 1, Pow(w, p), k % m), Term(y, stride * p, Pow(w, p), k % m, i - 1), Pow(w, k * q));
    }
  }

  // ---------------------------------------------------------------- smallest factor

  ghost predicate Prime(p: nat) { p >= 2 && forall d :: 2 <= d < p ==> p % d != 0 }

  lemma DividesUp(n: nat, p: nat, d: nat)
    requires d > 0 && p > 0 && n % p == 0 && p % d == 0
    ensures n % d == 0
  {
    var a, b := n / p, p / d;
    Three(d, b, a);
    DivModUnique(n, d, b * a, 0);
  }

  lemma Three(a: int, b: int, c: int)
    ensures (a * b) * c == a * (b * c)
  {
  }

  lemma EvenFactor(n: nat, p: nat)
    requires p > 0 && p % 2 == 0 && n % 2 != 0
    ensures n % p != 0
  {
    if n % p == 0 { DividesUp(n, p, 2); }
  }

  lemma NoLargeFactor(n: nat, p: nat, d: nat)
    requires 2 <= p && p * p > n && 2 <= d < n && (forall c :: 2 <= c < p ==> n % c != 0)
    ensures n % d != 0
  {
    if n % d == 0 {
      var e := n / d;
      assert n == d * e;
      if e < p {
        if e <= 1 { MulMono(e, 1, d); }
        DivModUnique(n, e, d, 0);
      } else if d >= p {
        MulMono(p, e, d);
        MulMono(p, d, p);
      }
    }
  }

  /** No number from 2 up to p divides n. */
  ghost predicate NoFactorBelow(n: nat, p: nat) { forall d :: 2 <= d < p ==> n % d != 0 }

  /** The next odd candidate: the even one between cannot divide an odd number. */
  lemma NextCandidate(n: nat, p: nat)
    requires p >= 3 && p % 2 == 1 && n % 2 != 0 && n % p != 0 && NoFactorBelow(n, p)
    ensures NoFactorBelow(n, p + 2) && (p + 2) % 2 == 1
  {
    assert (p + 1) % 2 == 0;
    EvenFactor(n, p + 1);
  }

  lemma NoFactor(n: nat, p: nat)
    requires n >= 2 && p >= 2 && p * p > n && NoFactorBelow(n, p)
    ensures Prime(n) && NoFactorBelow(n, n)
  {
    forall d | 2 <= d < n ensures n % d != 0 { NoLargeFactor(n, p, d); }
  }

  lemma OddStart(n: nat)
    requires n % 2 != 0
    ensures NoFactorBelow(n, 3)
  {
  }

  lemma SelfDivides(n: nat)
    requires n >= 1
    ensures n % n == 0
  {
    DivModUnique(n, n, 1, 0);
  }

  /** On 0 it says 2, and half of nothing is nothing: a transform of length 0 would call itself for ever. */
  method SmallestFactor(n: nat) returns (p: nat)
    ensures n >= 2 ==> 2 <= p <= n && n % p == 0 && Prime(p) && NoFactorBelow(n, p)
    ensures n == 1 ==> p == 1
    ensures n == 0 ==> p == 2 && n / p == n
  {
    hide Prime, NoFactorBelow;
    if n % 2 == 0 {
      TwoIsPrime(n);
      return 2;
    }
    p := 3;
    OddStart(n);
    while p * p <= n
      invariant 3 <= p && p % 2 == 1 && NoFactorBelow(n, p)
      decreases n - p
    {
      Below(p, n);
      if n % p == 0 {
        FirstFactor(n, p);
        return p;
      }
      NextCandidate(n, p);
      p := p + 2;
    }
    if n > 1 { NoFactor(n, p); }
    SelfDivides(n);
    return n;
  }

  lemma TwoIsPrime(n: nat)
    ensures Prime(2) && NoFactorBelow(n, 2)
  {
  }

  lemma Below(p: nat, n: nat)
    requires p >= 3 && p * p <= n
    ensures p + 2 <= n
  {
    MulMono(3, p, p);
  }

  lemma FirstFactor(n: nat, p: nat)
    requires p >= 2 && n % p == 0 && NoFactorBelow(n, p)
    ensures Prime(p)
  {
    forall d | 2 <= d < p ensures p % d != 0 {
      if p % d == 0 { DividesUp(n, p, d); }
    }
  }

  // ---------------------------------------------------------------- the transform

  /** One output, term by term. */
  method Direct(x: seq<Cpx>, stride: nat, n: nat, w: Cpx, k: nat) returns (acc: Cpx)
    requires n >= 1 && (n - 1) * stride < |x|
    ensures acc == Dft(x, stride, n, w, k)
  {
    hide Add, Mul, Pow;
    acc := Zero;
    for j := 0 to n
      invariant acc == Dft(x, stride, j, w, k)
    {
      MulMono(j, n - 1, stride);
      acc := Add(acc, Mul(x[j * stride], Pow(w, j * k)));
    }
  }

  function Slot(q: nat, m: nat, r: nat): nat { q * m + r }

  /** The first c smaller transforms, laid out one after the other. */
  ghost predicate SubDone(sub: seq<Cpx>, x: seq<Cpx>, stride: nat, w: Cpx, p: nat, m: nat, c: nat)
  {
    forall q, r :: 0 <= q < c && 0 <= r < m ==>
      Slot(q, m, r) < |sub| && q * stride <= |x| && sub[Slot(q, m, r)] == Dft(x[q * stride..], stride * p, m, Pow(w, p), r)
  }

  lemma SubAt(sub: seq<Cpx>, x: seq<Cpx>, stride: nat, w: Cpx, p: nat, m: nat, c: nat, q: nat, r: nat)
    requires SubDone(sub, x, stride, w, p, m, c) && q < c && r < m
    ensures q * m + r < |sub| && q * stride <= |x| && sub[q * m + r] == Dft(x[q * stride..], stride * p, m, Pow(w, p), r)
  {
    assert Slot(q, m, r) == q * m + r;
  }

  /** One more smaller transform behind those already there. */
  lemma SubNext(sub: seq<Cpx>, sub1: seq<Cpx>, x: seq<Cpx>, stride: nat, w: Cpx, p: nat, m: nat, c: nat)
    requires SubDone(sub, x, stride, w, p, m, c) && c * stride <= |x| && 0 <= c * m && c * m + m <= |sub| == |sub1|
    requires forall i :: 0 <= i < c * m ==> sub1[i] == sub[i]
    requires forall r :: 0 <= r < m ==> sub1[c * m + r] == Dft(x[c * stride..], stride * p, m, Pow(w, p), r)
    ensures SubDone(sub1, x, stride, w, p, m, c + 1)
  {
    hide Dft, Pow, Slot;
    forall q, r | 0 <= q < c + 1 && 0 <= r < m
      ensures Slot(q, m, r) < |sub1| && q * stride <= |x| && sub1[Slot(q, m, r)] == Dft(x[q * stride..], stride * p, m, Pow(w, p), r)
    {
      SlotIs(q, m, r);
      if q < c { SlotBelow(q, c, m, r); }
    }
  }

  lemma SlotIs(q: nat, m: nat, r: nat)
    ensures Slot(q, m, r) == q * m + r
  {
  }

  lemma SlotBelow(q: nat, c: nat, m: nat, r: nat)
    requires q < c && r < m
    ensures Slot(q, m, r) < c * m
  {
    MulMono(q + 1, c, m);
    assert (q + 1) * m == q * m + m;
  }

  /** Output k from the p smaller transforms. */
  method Combine(ghost x: seq<Cpx>, ghost stride: nat, w: Cpx, sub: array<Cpx>, p: nat, m: nat, k: nat) returns (acc: Cpx)
    requires p > 0 && m > 0 && Pow(w, p * m) == One && SubDone(sub[..], x, stride, w, p, m, p)
    ensures acc == Dft(x, stride, p * m, w, k)
  {
    hide Add, Mul, Pow, Dft, Residue, SubDone;
    var kmod := k % m;
    acc := Zero;
    for q := 0 to p
      invariant acc == Classes(x, stride, w, k, p, m, q)
    {
      SubAt(sub[..], x, stride, w, p, m, p, q, kmod);
      ResidueIsDft(x, stride, w, k, p, m, q, m);
      acc := Add(acc, Mul(sub[q * m + kmod], Pow(w, k * q)));
    }
    Regroup(x, stride, w, k, p, m);
  }

  ghost predicate Transformed(out: seq<Cpx>, base: nat, x: seq<Cpx>, stride: nat, n: nat, w: Cpx, upTo: nat)
  {
    base + upTo <= |out| && forall k :: 0 <= k < upTo ==> out[base + k] == Dft(x, stride, n, w, k)
  }

  /** Outside the n entries from base on nothing changed. */
  ghost predicate Elsewhere(a: seq<Cpx>, b: seq<Cpx>, base: nat, n: nat)
  {
    |a| == |b| && forall i :: 0 <= i < |a| && !(base <= i < base + n) ==> a[i] == b[i]
  }

  /** The mixed-radix recursion writes the direct sums, and nothing else. */
  method FftRec(x: seq<Cpx>, stride: nat, n: nat, w: Cpx, out: array<Cpx>, base: nat)
    requires n >= 1 && (n - 1) * stride < |x| && base + n <= out.Length && Pow(w, n) == One
    modifies out
    ensures Transformed(out[..], base, x, stride, n, w, n) && Elsewhere(old(out[..]), out[..], base, n)
    decreases n
  {
    hide Add, Mul, Pow, Dft, SubDone;
    if n == 1 {
      SingleTerm(x, stride, w);
      out[base] := x[0];
      return;
    }
    var p := SmallestFactor(n);
    if p == n {
      for k := 0 to n
        invariant Transformed(out[..], base, x, stride, n, w, k) && Elsewhere(old(out[..]), out[..], base, k)
      {
        var acc := Direct(x, stride, n, w, k);
        out[base + k] := acc;
      }
      return;
    }
    var m := n / p;
    Split(n, p, m);
    var sub := SubTransforms(x, stride, n, w, p, m);
    for k := 0 to n
      invariant Transformed(out[..], base, x, stride, n, w, k) && Elsewhere(old(out[..]), out[..], base, k)
      invariant SubDone(sub[..], x, stride, w, p, m, p)
    {
      var acc := Combine(x, stride, w, sub, p, m, k);
      out[base + k] := acc;
    }
  }

  method SubTransforms(x: seq<Cpx>, stride: nat, n: nat, w: Cpx, p: nat, m: nat) returns (sub: array<Cpx>)
    requires n >= 1 && (n - 1) * stride < |x| && n == p * m && 1 <= m < n && p >= 2 && Pow(w, n) == One
    ensures fresh(sub) && SubDone(sub[..], x, stride, w, p, m, p)
    decreases n, 0
  {
    hide Add, Mul, Pow, Dft, SubDone;
    PowPow(w, p, m);
    sub := new Cpx[n](_ => Zero);
    NoneDone(sub[..], x, stride, w, p, m);
    for q := 0 to p
      invariant fresh(sub) && sub.Length == n && SubDone(sub[..], x, stride, w, p, m, q)
    {
      SubFits(|x|, stride, n, p, m, q);
      ghost var before := sub[..];
      FftRec(x[q * stride..], stride * p, m, Pow(w, p), sub, q * m);
      SubNext(before, sub[..], x, stride, w, p, m, q);
    }
  }

  lemma NoneDone(sub: seq<Cpx>, x: seq<Cpx>, stride: nat, w: Cpx, p: nat, m: nat)
    ensures SubDone(sub, x, stride, w, p, m, 0)
  {
  }

  lemma SingleTerm(x: seq<Cpx>, stride: nat, w: Cpx)
    requires |x| > 0
    ensures Dft(x, stride, 1, w, 0) == x[0]
  {
    hide Add, Mul;
    PowZero(w);
    assert Dft(x, stride, 1, w, 0) == Add(Dft(x, stride, 0, w, 0), Term(x, stride, w, 0, 0));
    MulLaws(x[0], One, One);
    AddLaws(x[0], Zero, Zero);
  }

  lemma Split(n: nat, p: nat, m: nat)
    requires 2 <= p < n && n % p == 0 && m == n / p
    ensures n == p * m && 1 <= m < n
  {
    assert n == p * m;
    if m <= 0 { MulMono(m, 0, p); }
    MulMono(2, p, m);
  }

  /** The smaller transforms stay inside the input and the buffer. */
  lemma SubFits(len: nat, stride: nat, n: nat, p: nat, m: nat, q: nat)
    requires q < p && m >= 1 && n == p * m && (n - 1) * stride < len
    ensures q * stride <= len && (m - 1) * (stride * p) < len - q * stride && 0 <= q * m && q * m + m <= n
  {
    MulMono(q + 1, p, m);
    assert (q + 1) * m == q * m + m;
    Indices(stride, p, q, m - 1);
    MulDist(p, m - 1, 1);
    MulMono(p * (m - 1) + q, n - 1, stride);
    assert 0 <= (m - 1) * (stride * p);
  }

  /** The transform of a whole input. */
  method Cfft(input: seq<Cpx>, w: Cpx) returns (out: array<Cpx>)
    requires |input| >= 1 && Pow(w, |input|) == One
    ensures fresh(out) && out.Length == |input| && forall k :: 0 <= k < |input| ==> out[k] == Dft(input, 1, |input|, w, k)
  {
    out := new Cpx[|input|](_ => Zero);
    FftRec(input, 1, |input|, w, out, 0);
    forall k | 0 <= k < |input| ensures out[k] == Dft(input, 1, |input|, w, k) { assert out[..][0 + k] == out[k]; }
  }

  // ---------------------------------------------------------------- the inverse

  /** The first c powers of w^d. */
  function PowerSum(w: Cpx, d: nat, c: nat): Cpx { if c == 0 then Zero else Add(PowerSum(w, d, c - 1), Pow(w, d * (c - 1))) }

  /** A root of one of order exactly n. */
  ghost predicate Primitive(w: Cpx, n: nat)
  {
    Pow(w, n) == One && forall d :: 0 < d < n ==> Pow(w, d) != One
  }

  function Sub(a: Cpx, b: Cpx): Cpx { Cpx(a.re - b.re, a.im - b.im) }

  function Prod(a: real, b: real): real { a * b }

  function Norm(a: Cpx): real { Prod(a.re, a.re) + Prod(a.im, a.im) }

  lemma ProdSign(a: real, b: real)
    ensures (a > 0.0 && b > 0.0) || (a < 0.0 && b < 0.0) ==> Prod(a, b) > 0.0
    ensures a == 0.0 ==> Prod(a, b) == 0.0
  {
  }

  lemma NormPositive(a: Cpx)
    requires a != Zero
    ensures Norm(a) > 0.0
  {
    hide Prod;
    ProdSign(a.re, a.re);
    ProdSign(a.im, a.im);
  }

  /** Multiplying a product by the conjugate of one factor leaves the other, scaled. */
  lemma NormTimes(a: Cpx, b: Cpx)
    ensures Norm(a) * b.re == a.re * Mul(a, b).re + a.im * Mul(a, b).im
    ensures Norm(a) * b.im == a.re * Mul(a, b).im - a.im * Mul(a, b).re
  {
  }

  lemma FactorZero(s: real, x: real)
    requires s > 0.0 && s * x == 0.0
    ensures x == 0.0
  {
  }

  /** Complex numbers have no zero divisors. */
  lemma NoZeroDivisors(a: Cpx, b: Cpx)
    requires Mul(a, b) == Zero && a != Zero
    ensures b == Zero
  {
    hide Norm, Mul;
    NormPositive(a);
    NormTimes(a, b);
    FactorZero(Norm(a), b.re);
    FactorZero(Norm(a), b.im);
  }

  /** A geometric sum times its ratio less one. */
  lemma {:induction false} Geometric(w: Cpx, d: nat, c: nat)
    ensures Mul(Sub(Pow(w, d), One), PowerSum(w, d, c)) == Sub(Pow(w, d * c), One)
  {
    hide Pow, Mul, Add, Sub;
    if c == 0 {
      MulLaws(Sub(Pow(w, d), One), Zero, Zero);
      PowZero(w);
      SubSame(One);
    } else {
      Geometric(w, d, c - 1);
      var u, z := Pow(w, d), Pow(w, d * (c - 1));
      MulDist(d, c - 1, 1);
      PowAdd(w, d, d * (c - 1));
      MulLaws(PowerSum(w, d, c - 1), z, Sub(u, One));
      MulLaws(Sub(u, One), PowerSum(w, d, c - 1), One);
      MulLaws(Sub(u, One), z, One);
      MulLaws(Sub(u, One), PowerSum(w, d, c), One);
      Telescope(u, z);
    }
  }

  lemma SubSame(a: Cpx)
    ensures Sub(a, a) == Zero
  {
  }

  lemma Telescope(u: Cpx, z: Cpx)
    ensures Add(Sub(z, One), Mul(z, Sub(u, One))) == Sub(Mul(u, z), One)
  {
  }

  /** The powers of every other turn of a primitive root add up to nothing. */
  lemma TurnsCancel(w: Cpx, d: nat, n: nat)
    requires Primitive(w, n) && 0 < d < n
    ensures PowerSum(w, d, n) == Zero
  {
    hide Pow, Mul, PowerSum;
    Geometric(w, d, n);
    PowPow(w, n, d);
    PowOne(d);
    assert d * n == n * d;
    assert Pow(w, d) != One;
    NoZeroDivisors(Sub(Pow(w, d), One), PowerSum(w, d, n));
  }

  function Scale(n: nat, a: Cpx): Cpx { Cpx(n as real * a.re, n as real * a.im) }

  /** What sample j contributes to output i of a forward and a backward transform, over c frequencies. */
  function Share(x: seq<Cpx>, w: Cpx, v: Cpx, i: nat, j: nat, c: nat): Cpx
  {
    if c == 0 then Zero else Add(Share(x, w, v, i, j, c - 1), Mul(Term(x, 1, w, c - 1, j), Pow(v, (c - 1) * i)))
  }

  function Shares(x: seq<Cpx>, w: Cpx, v: Cpx, i: nat, m: nat, c: nat): Cpx
  {
    if m == 0 then Zero else Add(Shares(x, w, v, i, m - 1, c), Share(x, w, v, i, m - 1, c))
  }

  lemma {:induction false} SharesStep(x: seq<Cpx>, w: Cpx, v: Cpx, i: nat, m: nat, c: nat)
    ensures Shares(x, w, v, i, m, c + 1) == Add(Shares(x, w, v, i, m, c), Mul(Dft(x, 1, m, w, c), Pow(v, c * i)))
  {
    hide Add, Mul, Pow, Term;
    var z := Pow(v, c * i);
    if m == 0 {
      MulLaws(z, Zero, Zero);
      AddLaws(Zero, Zero, Zero);
    } else {
      SharesStep(x, w, v, i, m - 1, c);
      MulLaws(Dft(x, 1, m - 1, w, c), Term(x, 1, w, c, m - 1), z);
      Interchange(Shares(x, w, v, i, m - 1, c), Mul(Dft(x, 1, m - 1, w, c), z), Share(x, w, v, i, m - 1, c), Mul(Term(x, 1, w, c, m - 1), z));
    }
  }

  lemma {:induction false} NoShares(x: seq<Cpx>, w: Cpx, v: Cpx, i: nat, m: nat)
    ensures Shares(x, w, v, i, m, 0) == Zero
  {
    if m > 0 { NoShares(x, w, v, i, m - 1); }
  }

  /** The backward transform of the forward one, summed by sample. */
  lemma {:induction false} BySample(x: seq<Cpx>, y: seq<Cpx>, w: Cpx, v: Cpx, i: nat, c: nat)
    requires c <= |y| && forall k :: 0 <= k < |y| ==> y[k] == Dft(x, 1, |x|, w, k)
    ensures Dft(y, 1, c, v, i) == Shares(x, w, v, i, |x|, c)
  {
    hide Add, Mul, Pow, Shares;
    if c == 0 {
      NoShares(x, w, v, i, |x|);
    } else {
      BySample(x, y, w, v, i, c - 1);
      SharesStep(x, w, v, i, |x|, c - 1);
      assert Sample(y, (c - 1) * 1) == y[c - 1];
    }
  }

  lemma {:induction false} Cancel(w: Cpx, v: Cpx, a: nat, b: nat)
    requires Mul(w, v) == One
    ensures Mul(Pow(w, a + b), Pow(v, b)) == Pow(w, a)
  {
    hide Mul;
    if b == 0 {
      MulLaws(Pow(w, a), One, One);
    } else {
      Cancel(w, v, a, b - 1);
      Crossed(w, Pow(w, a + b - 1), v, Pow(v, b - 1));
      MulLaws(Mul(Pow(w, a + b - 1), Pow(v, b - 1)), One, One);
    }
  }

  lemma Crossed(a: Cpx, b: Cpx, c: Cpx, d: Cpx)
    ensures Mul(Mul(a, b), Mul(c, d)) == Mul(Mul(a, c), Mul(b, d))
  {
    hide Mul;
    MulAssoc(a, b, Mul(c, d));
    MulAssoc(b, c, d);
    MulLaws(b, c, One);
    MulAssoc(c, b, d);
    MulAssoc(a, c, Mul(b, d));
  }

  /** How far sample j turns against output i, counted forwards. */
  function Turn(i: nat, j: nat, n: nat): (d: nat)
    requires i < n && j < n
    ensures d < n && (d == 0 <==> i == j)
  {
    if j >= i then j - i else n + j - i
  }

  lemma TurnPower(w: Cpx, v: Cpx, n: nat, i: nat, j: nat, k: nat)
    requires Mul(w, v) == One && Pow(w, n) == One && i < n && j < n
    ensures Mul(Pow(w, j * k), Pow(v, k * i)) == Pow(w, Turn(i, j, n) * k)
  {
    hide Mul, Pow;
    var d := Turn(i, j, n);
    if j >= i {
      TurnIndices(i, j, 0, k);
    } else {
      TurnIndices(i, j, n, k);
      PowWraps(w, n, k, j * k);
    }
    Cancel(w, v, d * k, k * i);
  }

  lemma TurnIndices(i: int, j: int, n: int, k: int)
    ensures (n + j - i) * k + k * i == n * k + j * k
  {
  }

  lemma {:induction false} ShareIs(x: seq<Cpx>, w: Cpx, v: Cpx, i: nat, j: nat, c: nat)
    requires Mul(w, v) == One && Pow(w, |x|) == One && i < |x| && j < |x|
    ensures Share(x, w, v, i, j, c) == Mul(PowerSum(w, Turn(i, j, |x|), c), x[j])
  {
    hide Add, Mul, Pow, Turn;
    var d := Turn(i, j, |x|);
    if c == 0 {
      MulLaws(x[j], Zero, Zero);
    } else {
      ShareIs(x, w, v, i, j, c - 1);
      TurnPower(w, v, |x|, i, j, c - 1);
      assert Sample(x, j * 1) == x[j];
      MulAssoc(x[j], Pow(w, j * (c - 1)), Pow(v, (c - 1) * i));
      MulLaws(x[j], Pow(w, d * (c - 1)), One);
      MulLaws(PowerSum(w, d, c - 1), Pow(w, d * (c - 1)), x[j]);
    }
  }

  lemma {:induction false} NoTurn(w: Cpx, c: nat)
    ensures PowerSum(w, 0, c) == Cpx(c as real, 0.0)
  {
    if c > 0 {
      NoTurn(w, c - 1);
      assert Pow(w, 0 * (c - 1)) == One;
    }
  }

  lemma Scaled(n: nat, a: Cpx)
    ensures Mul(Cpx(n as real, 0.0), a) == Scale(n, a)
  {
  }

  lemma {:induction false} SharesPick(x: seq<Cpx>, w: Cpx, v: Cpx, i: nat, m: nat)
    requires Mul(w, v) == One && Primitive(w, |x|) && i < |x| && m <= |x|
    ensures Shares(x, w, v, i, m, |x|) == if i < m then Scale(|x|, x[i]) else Zero
  {
    hide Add, Mul, Pow, Share, PowerSum, Scale;
    if m > 0 {
      var j, n := m - 1, |x|;
      SharesPick(x, w, v, i, j);
      ShareIs(x, w, v, i, j, n);
      var before := Shares(x, w, v, i, j, n);
      if j == i {
        NoTurn(w, n);
        Scaled(n, x[i]);
        AddLaws(Scale(n, x[i]), Zero, Zero);
      } else {
        TurnsCancel(w, Turn(i, j, n), n);
        MulLaws(x[j], Zero, Zero);
        AddLaws(before, Zero, Zero);
      }
    }
  }

  /** The inverse root is a root of one too. */
  lemma InverseRoot(w: Cpx, v: Cpx, n: nat)
    requires Mul(w, v) == One && Pow(w, n) == One
    ensures Pow(v, n) == One
  {
    hide Mul, Pow;
    Cancel(w, v, 0, n);
    PowZero(w);
    MulLaws(Pow(v, n), One, One);
  }

  /** The backward transform can run on the same recursion, and gives back n times the input. */
  lemma InverseTransform(x: seq<Cpx>, y: seq<Cpx>, w: Cpx, v: Cpx, i: nat)
    requires Mul(w, v) == One && Primitive(w, |x|) && i < |x| == |y|
    requires forall k :: 0 <= k < |y| ==> y[k] == Dft(x, 1, |x|, w, k)
    ensures Pow(v, |y|) == One && Dft(y, 1, |y|, v, i) == Scale(|x|, x[i])
  {
    hide Add, Mul, Pow, Dft, Shares, Primitive;
    PrimitiveRoot(w, |x|);
    InverseRoot(w, v, |x|);
    BySample(x, y, w, v, i, |x|);
    SharesPick(x, w, v, i, |x|);
  }

  lemma PrimitiveRoot(w: Cpx, n: nat)
    requires Primitive(w, n)
    ensures Pow(w, n) == One
  {
  }
}
