/** The greedy codebook search over reals: its running tables are the closed-form correlation and energy. */
module CelpSearch {
  import opened Words
  import opened Arith

  const MAX_SF := 160
  const EPS := 0.0000000000000001

  /** A unit pulse. */
  datatype Pulse = Pulse(pos: nat, sign: real)

  function AbsR(x: real): real { if x > 0.0 then x else -x }

  /** Sign of a correlation, -1 at zero. */
  function SignR(x: real): real { if x > 0.0 then 1.0 else -1.0 }

  /** Impulse response autocorrelation at a lag, zero beyond its length. */
  function Phi(phi: seq<real>, i: int, j: int): real
  {
    var k := if i < j then j - i else i - j;
    if k < |phi| then phi[k] else 0.0
  }

  /** The autocorrelation laid out on both sides of its centre. */
  predicate Flipped(phiFlip: seq<real>, phi: seq<real>)
  {
    |phiFlip| == 2 * MAX_SF && forall k :: 0 < k < 2 * MAX_SF ==> phiFlip[k] == Phi(phi, k, MAX_SF)
  }

  predicate PulsesFit(ps: seq<Pulse>, n: nat) { forall k :: 0 <= k < |ps| ==> ps[k].pos < n && (ps[k].sign == 1.0 || ps[k].sign == -1.0) }

  // ---------------------------------------------------------------- pulse lists

  function Corr(ps: seq<Pulse>, d: seq<real>): real
    requires PulsesFit(ps, |d|)
  {
    if ps == [] then 0.0 else Corr(ps[..|ps| - 1], d) + ps[|ps| - 1].sign * d[ps[|ps| - 1].pos]
  }

  /** Correlation of the pulses' response with a unit pulse at i. */
  function Row(phi: seq<real>, ps: seq<Pulse>, i: int): real
  {
    if ps == [] then 0.0 else Row(phi, ps[..|ps| - 1], i) + ps[|ps| - 1].sign * Phi(phi, i, ps[|ps| - 1].pos)
  }

  function Energy(phi: seq<real>, ps: seq<Pulse>): real
  {
    if ps == [] then 0.0
    else
      var q, p := ps[..|ps| - 1], ps[|ps| - 1];
      Energy(phi, q) + 2.0 * (p.sign * Row(phi, q, p.pos)) + Phi(phi, 0, 0)
  }

  // ---------------------------------------------------------------- vectors

  function Zero(n: nat): (c: seq<real>)
    ensures |c| == n && forall i :: 0 <= i < n ==> c[i] == 0.0
  {
    seq(n, _ => 0.0)
  }

  function Vec(ps: seq<Pulse>, n: nat): (c: seq<real>)
    requires PulsesFit(ps, n)
    ensures |c| == n
  {
    if ps == [] then Zero(n)
    else
      var c, p := Vec(ps[..|ps| - 1], n), ps[|ps| - 1];
      c[p.pos := c[p.pos] + p.sign]
  }

  /** Inner product of the first n entries. */
  function Dot(c: seq<real>, d: seq<real>, n: nat): real
    requires n <= |c| && n <= |d|
  {
    if n == 0 then 0.0 else Dot(c, d, n - 1) + c[n - 1] * d[n - 1]
  }

  /** Entry i of the Toeplitz matrix times c, from its first n columns. */
  function Product(phi: seq<real>, c: seq<real>, i: int, n: nat): real
    requires n <= |c|
  {
    if n == 0 then 0.0 else Product(phi, c, i, n - 1) + c[n - 1] * Phi(phi, i, n - 1)
  }

  /** Quadratic form of the first n rows. */
  function Quad(phi: seq<real>, c: seq<real>, n: nat): real
    requires n <= |c|
  {
    if n == 0 then 0.0 else Quad(phi, c, n - 1) + c[n - 1] * Product(phi, c, n - 1, |c|)
  }

  lemma {:induction false} DotUpdate(c: seq<real>, d: seq<real>, p: nat, s: real, n: nat)
    requires p < |c| && n <= |c| && n <= |d|
    ensures Dot(c[p := c[p] + s], d, n) == Dot(c, d, n) + (if p < n then s * d[p] else 0.0)
  {
    if n > 0 { DotUpdate(c, d, p, s, n - 1); }
  }

  lemma {:induction false} ProductUpdate(phi: seq<real>, c: seq<real>, p: nat, s: real, i: int, n: nat)
    requires p < |c| && n <= |c|
    ensures Product(phi, c[p := c[p] + s], i, n) == Product(phi, c, i, n) + (if p < n then s * Phi(phi, i, p) else 0.0)
  {
    hide Phi;
    if n > 0 { ProductUpdate(phi, c, p, s, i, n - 1); }
  }

  lemma Scaled(a: real, s: real, r: real, f: real)
    ensures a * (r + s * f) == a * r + s * (a * f)
    ensures (a + s) * (r + s * f) == a * r + s * (a * f) + s * (r + s * f)
  {
  }

  lemma {:induction false} QuadUpdate(phi: seq<real>, c: seq<real>, p: nat, s: real, n: nat)
    requires p < |c| && n <= |c|
    ensures Quad(phi, c[p := c[p] + s], n)
      == Quad(phi, c, n) + s * Product(phi, c, p, n) + (if p < n then s * (Product(phi, c, p, |c|) + s * Phi(phi, p, p)) else 0.0)
  {
    hide Phi, Product;
    var c1 := c[p := c[p] + s];
    if n == 0 {
      NoProduct(phi, c, p);
    } else {
      var i := n - 1;
      QuadUpdate(phi, c, p, s, i);
      ProductUpdate(phi, c, p, s, i, |c|);
      ProductStep(phi, c, p, i);
      Symmetric(phi, i, p);
      Scaled(c[i], s, Product(phi, c, i, |c|), Phi(phi, i, p));
      Distributed(s, Product(phi, c, p, i), c[i] * Phi(phi, i, p));
    }
  }

  lemma Distributed(s: real, a: real, b: real)
    ensures s * (a + b) == s * a + s * b
  {
  }

  lemma NoProduct(phi: seq<real>, c: seq<real>, p: int)
    ensures Product(phi, c, p, 0) == 0.0
  {
  }

  lemma ProductStep(phi: seq<real>, c: seq<real>, p: int, i: nat)
    requires i < |c|
    ensures Product(phi, c, p, i + 1) == Product(phi, c, p, i) + c[i] * Phi(phi, p, i)
  {
  }

  lemma Symmetric(phi: seq<real>, i: int, j: int)
    ensures Phi(phi, i, j) == Phi(phi, j, i) && Phi(phi, i, i) == Phi(phi, 0, 0)
  {
  }

  /** Adding one unit pulse to a vector. */
  lemma QuadPulse(phi: seq<real>, c: seq<real>, p: nat, s: real)
    requires p < |c| && (s == 1.0 || s == -1.0)
    ensures Quad(phi, c[p := c[p] + s], |c|) == Quad(phi, c, |c|) + 2.0 * (s * Product(phi, c, p, |c|)) + Phi(phi, 0, 0)
  {
    hide Phi, Product, Quad;
    QuadUpdate(phi, c, p, s, |c|);
    Symmetric(phi, p, p);
  }

  lemma {:induction false} ZeroSums(phi: seq<real>, d: seq<real>, i: int, n: nat)
    requires n <= |d|
    ensures Dot(Zero(|d|), d, n) == 0.0 && Product(phi, Zero(|d|), i, n) == 0.0 && Quad(phi, Zero(|d|), n) == 0.0
  {
    hide Phi;
    if n > 0 { ZeroSums(phi, d, i, n - 1); }
  }

  /** Pulse by pulse or as a vector: the same correlation, the same response and the same energy. */
  lemma {:induction false} SameSums(phi: seq<real>, ps: seq<Pulse>, d: seq<real>, i: int)
    requires PulsesFit(ps, |d|)
    ensures Corr(ps, d) == Dot(Vec(ps, |d|), d, |d|)
    ensures Row(phi, ps, i) == Product(phi, Vec(ps, |d|), i, |d|)
    ensures Energy(phi, ps) == Quad(phi, Vec(ps, |d|), |d|)
    decreases |ps|
  {
    hide Phi, Product, Quad, Dot;
    if ps == [] {
      ZeroSums(phi, d, i, |d|);
    } else {
      var q, p := ps[..|ps| - 1], ps[|ps| - 1];
      var c := Vec(q, |d|);
      SameSums(phi, q, d, i);
      SameSums(phi, q, d, p.pos);
      DotUpdate(c, d, p.pos, p.sign, |d|);
      ProductUpdate(phi, c, p.pos, p.sign, i, |d|);
      QuadPulse(phi, c, p.pos, p.sign);
    }
  }

  /** An autocorrelation matrix: no vector has negative energy. */
  ghost predicate NonNegative(phi: seq<real>, n: nat) { forall c: seq<real> :: |c| == n ==> Quad(phi, c, n) >= 0.0 }

  lemma EnergyNonNegative(phi: seq<real>, ps: seq<Pulse>, d: seq<real>)
    requires PulsesFit(ps, |d|) && NonNegative(phi, |d|)
    ensures Energy(phi, ps) >= 0.0
  {
    hide Quad, Energy;
    SameSums(phi, ps, d, 0);
  }

  // ---------------------------------------------------------------- candidates

  /** The pulse a candidate position would add: it takes the sign of the correlation there. */
  function Candidate(d: seq<real>, i: nat): (p: Pulse)
    requires i < |d|
    ensures p.pos == i && (p.sign == 1.0 || p.sign == -1.0)
  {
    Pulse(i, SignR(d[i]))
  }

  function With(ps: seq<Pulse>, d: seq<real>, i: nat): (q: seq<Pulse>)
    requires PulsesFit(ps, |d|) && i < |d|
    ensures PulsesFit(q, |d|)
  {
    ps + [Candidate(d, i)]
  }

  lemma WithSums(phi: seq<real>, ps: seq<Pulse>, d: seq<real>, i: nat)
    requires PulsesFit(ps, |d|) && i < |d|
    ensures Corr(With(ps, d, i), d) == Corr(ps, d) + AbsR(d[i])
    ensures Energy(phi, With(ps, d, i)) == Energy(phi, ps) + 2.0 * (SignR(d[i]) * Row(phi, ps, i)) + Phi(phi, 0, 0)
    ensures forall j :: Row(phi, With(ps, d, i), j) == Row(phi, ps, j) + SignR(d[i]) * Phi(phi, j, i)
  {
    hide Phi;
    assert With(ps, d, i)[..|ps|] == ps;
  }

  /** The tables hold, for every candidate, the correlation and the energy of the pulses so far with it. */
  ghost predicate Tables(num: seq<real>, den: seq<real>, phi: seq<real>, ps: seq<Pulse>, d: seq<real>)
    requires PulsesFit(ps, |d|)
  {
    && |num| >= |d| && |den| >= |d|
    && forall i :: 0 <= i < |d| ==> num[i] == Corr(With(ps, d, i), d) && den[i] == Energy(phi, With(ps, d, i)) + EPS
  }

  /** How one more pulse at p moves a candidate's entries. */
  lemma TablesMove(phi: seq<real>, ps: seq<Pulse>, d: seq<real>, p: nat, i: nat)
    requires PulsesFit(ps, |d|) && p < |d| && i < |d|
    ensures var q := With(ps, d, p);
      && Corr(With(q, d, i), d) == Corr(With(ps, d, i), d) + AbsR(d[p])
      && Energy(phi, With(q, d, i)) == Energy(phi, With(ps, d, i))
         + (2.0 * (SignR(d[p]) * Row(phi, ps, p)) + Phi(phi, 0, 0)) + 2.0 * (SignR(d[p]) * SignR(d[i]) * Phi(phi, i, p))
  {
    hide Phi, Corr, Energy, Row, With;
    var q := With(ps, d, p);
    WithSums(phi, ps, d, p);
    WithSums(phi, ps, d, i);
    WithSums(phi, q, d, i);
    Signs(SignR(d[i]), SignR(d[p]), Row(phi, ps, i), Phi(phi, i, p));
  }

  lemma Signs(a: real, b: real, r: real, f: real)
    ensures 2.0 * (a * (r + b * f)) == 2.0 * (a * r) + 2.0 * (b * a * f)
  {
  }

  // ---------------------------------------------------------------- the code

  /** First and one past last position a pulse at col can influence. */
  method NonZeroRange(col: nat, percRespLen: nat, fcbSubfrlen: nat) returns (lo: nat, hi: nat)
    requires col < fcbSubfrlen && percRespLen > 0
    ensures lo <= col < hi <= fcbSubfrlen && lo == Max(col - percRespLen + 1, 0) && hi == Min(col + percRespLen, fcbSubfrlen)
  {
    var l, h := col - percRespLen + 1, col + percRespLen;
    if l < 0 { l := 0; }
    if h > fcbSubfrlen { h := fcbSubfrlen; }
    lo, hi := l, h;
  }

  lemma OutOfReach(phi: seq<real>, percRespLen: nat, i: nat, p: nat)
    requires Banded(phi, percRespLen) && (i <= p - percRespLen || i >= p + percRespLen)
    ensures Phi(phi, i, p) == 0.0
  {
  }

  predicate Banded(phi: seq<real>, percRespLen: nat) { forall k :: percRespLen <= k < |phi| ==> phi[k] == 0.0 }

  /** Twice the response of the chosen pulses at the new one, plus the new one's own energy. */
  method EnergyGain(phiFlip: seq<real>, ghost phi: seq<real>, ps: seq<Pulse>, d: seq<real>, p: nat) returns (dDen: real)
    requires Flipped(phiFlip, phi) && |d| <= MAX_SF && PulsesFit(ps, |d|) && p < |d|
    ensures dDen == 2.0 * (SignR(d[p]) * Row(phi, ps, p)) + Phi(phi, 0, 0)
  {
    var colOff := MAX_SF - p;
    dDen := 0.0;
    NoRow(phi, p);
    for i := 0 to |ps|
      invariant dDen == Row(phi, ps[..i], p)
    {
      assert ps[..i + 1][..i] == ps[..i];
      assert phiFlip[colOff + ps[i].pos] == Phi(phi, p, ps[i].pos);
      dDen := dDen + phiFlip[colOff + ps[i].pos] * ps[i].sign;
    }
    assert ps[..|ps|] == ps;
    assert phiFlip[colOff + p] == Phi(phi, 0, 0);
    dDen := dDen * (2.0 * SignR(d[p]));
    dDen := dDen + phiFlip[colOff + p];
  }

  lemma NoRow(phi: seq<real>, p: int)
    ensures Row(phi, [], p) == 0.0
  {
  }

  /** Moves both tables by one pulse; positions out of reach of its response only see its energy. */
  method AddPulse(num: array<real>, den: array<real>, phiFlip: seq<real>, ghost phi: seq<real>, ps: seq<Pulse>, d: seq<real>, p: nat, percRespLen: nat)
    requires num != den && Flipped(phiFlip, phi) && |d| <= MAX_SF && PulsesFit(ps, |d|) && p < |d| && 0 < percRespLen && Banded(phi, percRespLen)
    requires Tables(num[..], den[..], phi, ps, d)
    modifies num, den
    ensures Tables(num[..], den[..], phi, With(ps, d, p), d)
  {
    hide Corr, Energy, Row, With, Phi, SignR, AbsR, Tables;
    ghost var num0, den0 := num[..], den[..];
    TablesSize(num0, den0, phi, ps, d);
    var add, sgn, n := AbsR(d[p]), SignR(d[p]), |d|;
    for i := 0 to n
      invariant forall k :: 0 <= k < i ==> num[k] == num0[k] + add
      invariant (forall k :: i <= k < num.Length ==> num[k] == num0[k]) && den[..] == den0
    {
      num[i] := num[i] + add;
    }
    ghost var num1 := num[..];
    var dDen := EnergyGain(phiFlip, phi, ps, d, p);
    for i := 0 to n
      invariant forall k :: 0 <= k < i ==> den[k] == den0[k] + dDen
      invariant (forall k :: i <= k < den.Length ==> den[k] == den0[k]) && num[..] == num1
    {
      den[i] := den[i] + dDen;
    }
    ghost var den1 := den[..];
    SpreadResponse(den, phiFlip, phi, d, p, percRespLen);
    AddDone(num0, den0, num[..], den1, den[..], phi, ps, d, p, percRespLen);
  }

  lemma TablesSize(num: seq<real>, den: seq<real>, phi: seq<real>, ps: seq<Pulse>, d: seq<real>)
    requires PulsesFit(ps, |d|) && Tables(num, den, phi, ps, d)
    ensures |num| >= |d| && |den| >= |d|
  {
  }

  /** The positions within reach of the new pulse see its response. */
  method SpreadResponse(den: array<real>, phiFlip: seq<real>, ghost phi: seq<real>, d: seq<real>, p: nat, percRespLen: nat)
    requires Flipped(phiFlip, phi) && |d| <= MAX_SF && p < |d| <= den.Length && 0 < percRespLen
    modifies den
    ensures forall k :: 0 <= k < |d| ==>
      den[k] == old(den[k]) + (if p - percRespLen < k < p + percRespLen then 2.0 * (SignR(d[p]) * SignR(d[k]) * Phi(phi, k, p)) else 0.0)
  {
    hide Phi, SignR, Flipped;
    var nz0, nz1 := NonZeroRange(p, percRespLen, |d|);
    var colOff, sgn := MAX_SF - p, SignR(d[p]);
    for i := nz0 to nz1
      invariant forall k :: 0 <= k < |d| && !(nz0 <= k < i) ==> den[k] == old(den[k])
      invariant forall k :: nz0 <= k < i ==> den[k] == old(den[k]) + 2.0 * (sgn * SignR(d[k]) * Phi(phi, k, p))
    {
      FlipAt(phiFlip, phi, i, p);
      den[i] := den[i] + 2.0 * sgn * SignR(d[i]) * phiFlip[colOff + i];
    }
  }

  lemma FlipAt(phiFlip: seq<real>, phi: seq<real>, i: nat, p: nat)
    requires Flipped(phiFlip, phi) && i < MAX_SF && p < MAX_SF
    ensures |phiFlip| == 2 * MAX_SF && phiFlip[MAX_SF - p + i] == Phi(phi, i, p)
  {
  }

  lemma AddDone(num0: seq<real>, den0: seq<real>, num: seq<real>, den1: seq<real>, den: seq<real>, phi: seq<real>, ps: seq<Pulse>, d: seq<real>, p: nat, percRespLen: nat)
    requires PulsesFit(ps, |d|) && p < |d| && Tables(num0, den0, phi, ps, d) && Banded(phi, percRespLen)
    requires |d| <= |num| && |d| <= |den| && |d| <= |den1|
    requires forall k :: 0 <= k < |d| ==> num[k] == num0[k] + AbsR(d[p])
    requires forall k :: 0 <= k < |d| ==> den1[k] == den0[k] + (2.0 * (SignR(d[p]) * Row(phi, ps, p)) + Phi(phi, 0, 0))
    requires forall k :: 0 <= k < |d| ==>
      den[k] == den1[k] + (if p - percRespLen < k < p + percRespLen then 2.0 * (SignR(d[p]) * SignR(d[k]) * Phi(phi, k, p)) else 0.0)
    ensures Tables(num, den, phi, With(ps, d, p), d)
  {
    hide Corr, Energy, Row, With, Phi, SignR, AbsR, Tables, Banded;
    TablesSize(num0, den0, phi, ps, d);
    forall i | 0 <= i < |d|
      ensures num[i] == Corr(With(With(ps, d, p), d, i), d) && den[i] == Energy(phi, With(With(ps, d, p), d, i)) + EPS
    {
      TablesAt(num0, den0, phi, ps, d, i);
      AddDoneAt(num0[i], den0[i], num[i], den1[i], den[i], phi, ps, d, p, percRespLen, i);
    }
    TablesFrom(num, den, phi, With(ps, d, p), d);
  }

  /** The same at one candidate. */
  lemma AddDoneAt(num0: real, den0: real, num: real, den1: real, den: real, phi: seq<real>, ps: seq<Pulse>, d: seq<real>, p: nat, percRespLen: nat, i: nat)
    requires PulsesFit(ps, |d|) && p < |d| && i < |d| && Banded(phi, percRespLen)
    requires num0 == Corr(With(ps, d, i), d) && den0 == Energy(phi, With(ps, d, i)) + EPS
    requires num == num0 + AbsR(d[p]) && den1 == den0 + (2.0 * (SignR(d[p]) * Row(phi, ps, p)) + Phi(phi, 0, 0))
    requires den == den1 + (if p - percRespLen < i < p + percRespLen then 2.0 * (SignR(d[p]) * SignR(d[i]) * Phi(phi, i, p)) else 0.0)
    ensures num == Corr(With(With(ps, d, p), d, i), d) && den == Energy(phi, With(With(ps, d, p), d, i)) + EPS
  {
    hide Corr, Energy, Row, With, Phi, SignR, AbsR, Banded;
    TablesMove(phi, ps, d, p, i);
    if !(p - percRespLen < i < p + percRespLen) { OutOfReach(phi, percRespLen, i, p); }
  }

  lemma TablesFrom(num: seq<real>, den: seq<real>, phi: seq<real>, ps: seq<Pulse>, d: seq<real>)
    requires PulsesFit(ps, |d|) && |num| >= |d| && |den| >= |d|
    requires forall i :: 0 <= i < |d| ==> num[i] == Corr(With(ps, d, i), d) && den[i] == Energy(phi, With(ps, d, i)) + EPS
    ensures Tables(num, den, phi, ps, d)
  {
  }

  method GetMaxi(x: array<real>, n: nat) returns (i: nat)
    requires 0 < n <= x.Length
    ensures i < n && forall k :: 0 <= k < n ==> x[k] <= x[i]
    ensures forall k :: 0 <= k < i ==> x[k] < x[i]
  {
    i := 0;
    var mx := x[0];
    for k := 1 to n
      invariant i < k && mx == x[i] && (forall j :: 0 <= j < k ==> x[j] <= mx) && forall j :: 0 <= j < i ==> x[j] < x[i]
    {
      if x[k] > mx { mx, i := x[k], k; }
    }
  }

  /** Energy captured by a pulse list: squared correlation over energy. */
  function Score(phi: seq<real>, ps: seq<Pulse>, d: seq<real>): real
    requires PulsesFit(ps, |d|) && Energy(phi, ps) + EPS != 0.0
  {
    Corr(ps, d) * Corr(ps, d) / (Energy(phi, ps) + EPS)
  }

  /** What the search hands back for one rate: how many of the pulses, and their gain, energy and captured energy. */
  datatype Rate = Rate(nPulses: nat, wnrg: real, gain: real, fcbWnrg: real)

  /** A rate's figures are those of its own first pulses. */
  ghost predicate Figures(r: Rate, phi: seq<real>, ps: seq<Pulse>, d: seq<real>)
    requires PulsesFit(ps, |d|)
  {
    && r.nPulses <= |ps|
    && (r.nPulses > 0 ==>
        PulsesFit(ps[..r.nPulses], |d|) && Energy(phi, ps[..r.nPulses]) + EPS > 0.0
        && r.fcbWnrg == Energy(phi, ps[..r.nPulses]) + EPS
        && r.gain == Corr(ps[..r.nPulses], d) / (Energy(phi, ps[..r.nPulses]) + EPS)
        && r.wnrg == Score(phi, ps[..r.nPulses], d))
  }

  /** The threshold rises by the price of a pulse; a candidate above it replaces it. */
  method CheckIfBetter(wnrg: real, thr0: real, wnrgPerPulse: real) returns (better: bool, thr: real)
    ensures better <==> wnrg > thr0 + wnrgPerPulse
    ensures thr == if better then wnrg else thr0 + wnrgPerPulse
  {
    thr := thr0 + wnrgPerPulse;
    better := wnrg > thr;
    if better { thr := wnrg; }
  }

  /** Every pulse was, when chosen, the best single addition to the pulses before it. */
  ghost predicate Greedy(phi: seq<real>, ps: seq<Pulse>, d: seq<real>)
    requires PulsesFit(ps, |d|)
  {
    forall k :: 1 <= k < |ps| ==> Best(phi, ps[..k], d, ps[k].pos)
  }

  ghost predicate Best(phi: seq<real>, ps: seq<Pulse>, d: seq<real>, p: nat)
    requires PulsesFit(ps, |d|)
  {
    && p < |d|
    && (forall i :: 0 <= i < |d| ==> Energy(phi, With(ps, d, i)) + EPS > 0.0)
    && forall i :: 0 <= i < |d| ==> Score(phi, With(ps, d, i), d) <= Score(phi, With(ps, d, p), d)
  }

  /** Every pulse carries the sign of the correlation at its place. */
  predicate Follows(ps: seq<Pulse>, d: seq<real>)
  {
    forall k :: 0 <= k < |ps| ==> ps[k].pos < |d| && ps[k].sign == SignR(d[ps[k].pos])
  }

  /** Squared correlation over energy for every candidate, and the best of them. */
  method BestCandidate(num: array<real>, den: array<real>, ghost phi: seq<real>, ghost ps: seq<Pulse>, d: seq<real>) returns (p: nat, q: real)
    requires d != [] && PulsesFit(ps, |d|) && Tables(num[..], den[..], phi, ps, d) && NonNegative(phi, |d|)
    ensures p < |d| && Best(phi, ps, d, p) && Energy(phi, With(ps, d, p)) + EPS > 0.0 && q == Score(phi, With(ps, d, p), d)
  {
    hide Corr, Energy, With, NonNegative;
    var n := |d|;
    var qs := new real[n](_ => 0.0);
    for i := 0 to n
      invariant forall k :: 0 <= k < i ==> Energy(phi, With(ps, d, k)) + EPS > 0.0 && qs[k] == Score(phi, With(ps, d, k), d)
    {
      EnergyNonNegative(phi, With(ps, d, i), d);
      assert num[i] == num[..][i] && den[i] == den[..][i];
      qs[i] := num[i] * num[i] / den[i];
    }
    p := GetMaxi(qs, n);
    q := qs[p];
  }

  lemma SearchStep(phi: seq<real>, ps: seq<Pulse>, d: seq<real>, p: nat)
    requires Follows(ps, d) && PulsesFit(ps, |d|) && ps != [] && Greedy(phi, ps, d) && p < |d| && Best(phi, ps, d, p)
    ensures Follows(With(ps, d, p), d) && Greedy(phi, With(ps, d, p), d)
  {
    hide Best;
    var q := With(ps, d, p);
    forall k | 1 <= k < |q| ensures Best(phi, q[..k], d, q[k].pos) {
      if k < |ps| { assert q[..k] == ps[..k]; } else { assert q[..k] == ps; }
    }
  }

  /** Keeping the figures of a shorter prefix when the list grows. */
  lemma FiguresGrow(r: Rate, phi: seq<real>, ps: seq<Pulse>, q: seq<Pulse>, d: seq<real>)
    requires PulsesFit(ps, |d|) && PulsesFit(q, |d|) && |ps| <= |q| && q[..|ps|] == ps && Figures(r, phi, ps, d)
    ensures Figures(r, phi, q, d)
  {
    assert q[..r.nPulses] == ps[..r.nPulses];
  }

  const NoRate := Rate(0, 0.0, 0.0, 0.0)

  /** The tables before any pulse: each candidate alone. */
  method StartTables(phi0: real, ghost phi: seq<real>, d: seq<real>) returns (num: array<real>, den: array<real>)
    requires phi0 == Phi(phi, 0, 0)
    ensures fresh(num) && fresh(den) && num != den && num.Length == den.Length == |d|
    ensures PulsesFit([], |d|) && Tables(num[..], den[..], phi, [], d) && forall i :: 0 <= i < |d| ==> num[i] == AbsR(d[i])
  {
    num, den := new real[|d|](_ => 0.0), new real[|d|](_ => 0.0);
    for i := 0 to |d|
      invariant forall k :: 0 <= k < i ==> num[k] == AbsR(d[k]) && den[k] == phi0 + EPS
    {
      num[i], den[i] := AbsR(d[i]), phi0 + EPS;
    }
    forall i | 0 <= i < |d| ensures num[i] == Corr(With([], d, i), d) && den[i] == Energy(phi, With([], d, i)) + EPS {
      WithSums(phi, [], d, i);
      NoRow(phi, i);
    }
  }

  /** How many pulses a rate stands at, and the captured energy the next one has to beat. */
  datatype Pick = Pick(n: nat, thr: real)

  function Step(p: Pick, k: nat, q: real, price: real): Pick
  {
    if q > p.thr + price then Pick(k, q) else Pick(p.n, p.thr + price)
  }

  /** The main rate after the first k pulses, which capture qs[0], qs[1], ... */
  function MainPick(qs: seq<real>, price: real, k: nat): Pick
    requires k <= |qs|
  {
    if k == 0 then Pick(0, 0.0) else Step(MainPick(qs, price, k - 1), k, qs[k - 1], price)
  }

  /** The redundant rate: its first pulse comes with the main rate's, at no price and leaving no threshold. */
  function FecPick(qs: seq<real>, priceMain: real, price: real, maxFec: nat, k: nat): Pick
    requires 1 <= k <= |qs|
  {
    if k == 1 then Pick(if MainPick(qs, priceMain, 1).n == 1 && maxFec > 0 then 1 else 0, 0.0)
    else if maxFec >= k - 1 then Step(FecPick(qs, priceMain, price, maxFec, k - 1), k, qs[k - 1], price)
    else FecPick(qs, priceMain, price, maxFec, k - 1)
  }

  /** A rate whose threshold never rose above zero gets nothing. */
  function Settled(p: Pick): nat { if p.thr > 0.0 then p.n else 0 }

  /** The price of j pulses. */
  function Cost(price: real, j: nat): real { if j == 0 then 0.0 else Cost(price, j - 1) + price }

  /** Captured energy less the price of the pulses that capture it. */
  function Net(qs: seq<real>, price: real, j: nat): real
    requires j <= |qs|
  {
    (if j == 0 then 0.0 else qs[j - 1]) - Cost(price, j)
  }

  /** The main rate stops where captured energy less the price of its pulses is greatest, at the fewest pulses. */
  lemma {:induction false} MainBest(qs: seq<real>, price: real, k: nat)
    requires k <= |qs|
    ensures var p := MainPick(qs, price, k);
      && p.n <= k && p.thr == Net(qs, price, p.n) + Cost(price, k)
      && (forall j :: 0 <= j <= k ==> Net(qs, price, j) <= Net(qs, price, p.n))
      && forall j :: 0 <= j < p.n ==> Net(qs, price, j) < Net(qs, price, p.n)
  {
    if k > 0 {
      MainBest(qs, price, k - 1);
      NetAt(qs, price, k);
      hide Net;
    }
  }

  lemma NetAt(qs: seq<real>, price: real, k: nat)
    requires 0 < k <= |qs|
    ensures Net(qs, price, k) == qs[k - 1] - Cost(price, k) && Cost(price, k) == Cost(price, k - 1) + price
  {
  }

  /** What the redundant rate weighs: no price for the first pulse, and no gain from it. */
  function FecNet(qs: seq<real>, price: real, j: nat): real
    requires j <= |qs|
  {
    if j <= 1 then 0.0 else qs[j - 1] - Cost(price, j - 1)
  }

  /** The redundant rate stops at the best of its first maxFec + 1 pulses. */
  lemma {:induction false} FecBest(qs: seq<real>, priceMain: real, price: real, maxFec: nat, k: nat)
    requires 1 <= k <= |qs|
    ensures var p, m := FecPick(qs, priceMain, price, maxFec, k), Max(1, Min(k, maxFec + 1));
      && p.n <= m && p.thr == FecNet(qs, price, p.n) + Cost(price, m - 1)
      && (forall j :: 1 <= j <= m ==> FecNet(qs, price, j) <= FecNet(qs, price, p.n))
      && (maxFec == 0 ==> p.n == 0)
  {
    if k > 1 {
      FecBest(qs, priceMain, price, maxFec, k - 1);
      FecNetAt(qs, price, k);
      hide FecNet;
    } else {
      assert Cost(price, 0) == 0.0;
    }
  }

  lemma FecNetAt(qs: seq<real>, price: real, k: nat)
    requires 1 < k <= |qs|
    ensures FecNet(qs, price, k) == qs[k - 1] - Cost(price, k - 1) && Cost(price, k - 1) == Cost(price, k - 2) + price
  {
  }

  /**
   What the final check on the thresholds changes: nothing for the main rate, and for the redundant rate only that it gets no pulse
   out of a search of one, where its first pulse left no threshold.
   */
  lemma SettledExact(qs: seq<real>, priceMain: real, price: real, maxFec: nat)
    requires |qs| >= 1 && priceMain >= 0.0 && price > 0.0
    ensures Settled(MainPick(qs, priceMain, |qs|)) == MainPick(qs, priceMain, |qs|).n
    ensures Settled(FecPick(qs, priceMain, price, maxFec, |qs|)) == if |qs| == 1 then 0 else FecPick(qs, priceMain, price, maxFec, |qs|).n
  {
    hide MainPick, FecPick;
    var k, m := |qs|, Max(1, Min(|qs|, maxFec + 1));
    MainBest(qs, priceMain, k);
    CostGrows(priceMain, k);
    assert Net(qs, priceMain, 0) == 0.0;
    FecBest(qs, priceMain, price, maxFec, k);
    CostGrows(price, m - 1);
    assert FecNet(qs, price, 1) == 0.0;
  }

  lemma {:induction false} CostGrows(price: real, j: nat)
    requires price >= 0.0
    ensures Cost(price, j) >= (if j == 0 then 0.0 else price)
  {
    if j > 0 { CostGrows(price, j - 1); }
  }

  /** With a pulse limit of the main rate no higher than its own, or none at all, the redundant rate keeps its limit. */
  lemma FecKeepsLimit(qs: seq<real>, priceMain: real, price: real, maxFec: nat)
    requires |qs| >= 1 && (maxFec == 0 || |qs| <= maxFec)
    ensures Settled(FecPick(qs, priceMain, price, maxFec, |qs|)) <= maxFec
  {
    FecBest(qs, priceMain, price, maxFec, |qs|);
  }

  /** q is the energy captured by the first k + 1 pulses. */
  ghost predicate ScoreAt(q: real, phi: seq<real>, ps: seq<Pulse>, d: seq<real>, k: nat)
  {
    && k < |ps| && PulsesFit(ps[..k + 1], |d|) && Energy(phi, ps[..k + 1]) + EPS > 0.0
    && q == Score(phi, ps[..k + 1], d)
  }

  /** The energies captured by the growing pulse list. */
  ghost predicate ScoresOf(qs: seq<real>, phi: seq<real>, ps: seq<Pulse>, d: seq<real>)
  {
    |qs| == |ps| && forall k :: 0 <= k < |qs| ==> ScoreAt(qs[k], phi, ps, d, k)
  }

  lemma ScoreMoves(q: real, phi: seq<real>, ps: seq<Pulse>, more: seq<Pulse>, d: seq<real>, k: nat)
    requires ScoreAt(q, phi, ps, d, k) && |ps| <= |more| && more[..|ps|] == ps
    ensures ScoreAt(q, phi, more, d, k)
  {
    assert more[..k + 1] == ps[..k + 1];
  }

  lemma ScoreLast(q: real, phi: seq<real>, ps: seq<Pulse>, d: seq<real>)
    requires PulsesFit(ps, |d|) && ps != [] && Energy(phi, ps) + EPS > 0.0 && q == Score(phi, ps, d)
    ensures ScoreAt(q, phi, ps, d, |ps| - 1)
  {
    assert ps[..|ps| - 1 + 1] == ps;
  }

  lemma ScoresGrow(qs: seq<real>, phi: seq<real>, before: seq<Pulse>, ps: seq<Pulse>, d: seq<real>, q: real)
    requires PulsesFit(ps, |d|) && |ps| == |before| + 1 && ps[..|before|] == before && ScoresOf(qs, phi, before, d)
    requires Energy(phi, ps) + EPS > 0.0 && q == Score(phi, ps, d)
    ensures ScoresOf(qs + [q], phi, ps, d)
  {
    ScoreLast(q, phi, ps, d);
    hide Energy, Score, ScoreAt;
    var r := qs + [q];
    forall k | 0 <= k < |r| ensures ScoreAt(r[k], phi, ps, d, k) {
      if k < |qs| { ScoreMoves(qs[k], phi, before, ps, d, k); }
    }
  }

  lemma {:induction false} PicksGrow(qs: seq<real>, q: real, priceMain: real, price: real, maxFec: nat, k: nat)
    requires k <= |qs|
    ensures MainPick(qs + [q], priceMain, k) == MainPick(qs, priceMain, k)
    ensures k >= 1 ==> FecPick(qs + [q], priceMain, price, maxFec, k) == FecPick(qs, priceMain, price, maxFec, k)
  {
    if k > 0 {
      PicksGrow(qs, q, priceMain, price, maxFec, k - 1);
      if k == 1 { assert MainPick(qs + [q], priceMain, 1) == MainPick(qs, priceMain, 1); }
    }
  }

  lemma PicksStep(qs: seq<real>, q: real, priceMain: real, price: real, maxFec: nat)
    ensures var r, n := qs + [q], |qs|;
      && MainPick(r, priceMain, n + 1) == Step(MainPick(qs, priceMain, n), n + 1, q, priceMain)
      && (n >= 1 ==>
            var p := FecPick(qs, priceMain, price, maxFec, n);
            FecPick(r, priceMain, price, maxFec, n + 1) == if maxFec >= n then Step(p, n + 1, q, price) else p)
  {
    PicksGrow(qs, q, priceMain, price, maxFec, |qs|);
  }

  lemma PicksFirst(q: real, priceMain: real, price: real, maxFec: nat)
    ensures MainPick([q], priceMain, 1) == Step(Pick(0, 0.0), 1, q, priceMain)
    ensures FecPick([q], priceMain, price, maxFec, 1) == Pick(if Step(Pick(0, 0.0), 1, q, priceMain).n == 1 && maxFec > 0 then 1 else 0, 0.0)
  {
    assert MainPick([q], priceMain, 1) == Step(MainPick([q], priceMain, 0), 1, q, priceMain);
  }

  /** A rate accepts the pulses so far if they capture enough more energy to pay for one. */
  method Consider(r: Rate, thr: real, n: nat, wnrg: real, num: real, den: real, price: real) returns (r1: Rate, thr1: real)
    requires den > 0.0
    ensures r1 == (if wnrg > thr + price then Rate(n, wnrg, num / den, den) else r)
    ensures Pick(r1.nPulses, thr1) == Step(Pick(r.nPulses, thr), n, wnrg, price)
  {
    var better;
    better, thr1 := CheckIfBetter(wnrg, thr, price);
    r1 := if better then Rate(n, wnrg, num / den, den) else r;
  }

  /** One search for the main and the redundant rate. */
  method FcbSearch(d: seq<real>, phiFlip: seq<real>, ghost phi: seq<real>, percRespLen: nat, priceMain: real, priceFec: real, maxMain: nat, maxFec: nat)
    returns (ps: seq<Pulse>, main: Rate, fec: Rate, ghost qs: seq<real>)
    requires 0 < |d| <= MAX_SF && Flipped(phiFlip, phi) && 0 < percRespLen && Banded(phi, percRespLen) && NonNegative(phi, |d|)
    ensures Follows(ps, d) && PulsesFit(ps, |d|) && |ps| == (if maxMain > 1 then maxMain else 1) && Greedy(phi, ps, d)
    ensures forall i :: 0 <= i < |d| ==> AbsR(d[i]) <= AbsR(d[ps[0].pos])
    ensures Figures(main, phi, ps, d) && Figures(fec, phi, ps, d) && ScoresOf(qs, phi, ps, d)
    ensures |qs| >= 1 && main.nPulses == Settled(MainPick(qs, priceMain, |qs|)) && fec.nPulses == Settled(FecPick(qs, priceMain, priceFec, maxFec, |qs|))
    ensures (main.nPulses == 0 ==> main == NoRate) && (fec.nPulses == 0 ==> fec == NoRate)
  {
    hide Corr, Energy, Row, With, NonNegative, Best, Tables, Score, Figures, Follows, Greedy, MainPick, FecPick, Step, ScoresOf;
    var num, den := StartTables(phiFlip[MAX_SF], phi, d);
    var p0 := GetMaxi(num, |d|);
    ps := [Candidate(d, p0)];
    FirstPulse(phi, d, p0);
    TablesAt(num[..], den[..], phi, [], d, p0);
    EnergyNonNegative(phi, ps, d);
    var thrMain, thrFec := 0.0, 0.0;
    var num0, den0 := num[p0], den[p0];
    var ratio := num0 / den0;
    FirstFigures(phi, ps, d, num0, den0);
    main, thrMain := Consider(NoRate, thrMain, 1, num0 * ratio, num0, den0, priceMain);
    assert main == Rate(1, num0 * (num0 / den0), num0 / den0, den0) || main == NoRate;
    fec := if main.nPulses == 1 && maxFec > 0 then main else NoRate;
    qs := [num0 * ratio];
    PicksFirst(num0 * ratio, priceMain, priceFec, maxFec);
    var pulseNr := 1;
    while pulseNr < maxMain
      invariant 1 <= pulseNr <= Max(maxMain, 1)
      invariant |ps| == |qs| == pulseNr && Follows(ps, d) && PulsesFit(ps, |d|) && Greedy(phi, ps, d) && ps[0] == Candidate(d, p0)
      invariant PulsesFit(ps[..pulseNr - 1], |d|) && ps[pulseNr - 1].pos < |d| && ps == With(ps[..pulseNr - 1], d, ps[pulseNr - 1].pos)
      invariant Tables(num[..], den[..], phi, ps[..pulseNr - 1], d)
      invariant Figures(main, phi, ps, d) && Figures(fec, phi, ps, d) && ScoresOf(qs, phi, ps, d)
      invariant Pick(main.nPulses, thrMain) == MainPick(qs, priceMain, pulseNr)
      invariant Pick(fec.nPulses, thrFec) == FecPick(qs, priceMain, priceFec, maxFec, pulseNr)
      invariant (main.nPulses == 0 ==> main == NoRate) && (fec.nPulses == 0 ==> fec == NoRate)
    {
      var pp, q := NextPulse(num, den, phiFlip, phi, ps, d, percRespLen);
      ghost var before := ps;
      NextList(ps, d, pp);
      ps := ps + [Candidate(d, pp)];
      FiguresGrow(main, phi, before, ps, d);
      FiguresGrow(fec, phi, before, ps, d);
      NextFigures(phi, ps, d, q, num[pp], den[pp]);
      ScoresGrow(qs, phi, before, ps, d, q);
      PicksStep(qs, q, priceMain, priceFec, maxFec);
      qs := qs + [q];
      main, thrMain := Consider(main, thrMain, pulseNr + 1, q, num[pp], den[pp], priceMain);
      if maxFec >= pulseNr { fec, thrFec := Consider(fec, thrFec, pulseNr + 1, q, num[pp], den[pp], priceFec); }
      pulseNr := pulseNr + 1;
    }
    NoFigures(phi, ps, d);
    if !(thrMain > 0.0) { main := NoRate; }
    if !(thrFec > 0.0) { fec := NoRate; }
  }

  /** Takes the last pulse into the tables and picks the next. */
  method NextPulse(num: array<real>, den: array<real>, phiFlip: seq<real>, ghost phi: seq<real>, ps: seq<Pulse>, d: seq<real>, percRespLen: nat)
    returns (p: nat, q: real)
    requires num != den && Flipped(phiFlip, phi) && 0 < |d| <= MAX_SF && 0 < percRespLen && Banded(phi, percRespLen) && NonNegative(phi, |d|)
    requires ps != [] && PulsesFit(ps, |d|) && Follows(ps, d) && Greedy(phi, ps, d)
    requires var n := |ps| - 1; PulsesFit(ps[..n], |d|) && ps[n].pos < |d| && ps == With(ps[..n], d, ps[n].pos) && Tables(num[..], den[..], phi, ps[..n], d)
    modifies num, den
    ensures Tables(num[..], den[..], phi, ps, d) && p < |d| && p < num.Length && p < den.Length
    ensures Follows(With(ps, d, p), d) && Greedy(phi, With(ps, d, p), d)
    ensures num[p] == Corr(With(ps, d, p), d) && den[p] == Energy(phi, With(ps, d, p)) + EPS > 0.0 && q == Score(phi, With(ps, d, p), d)
  {
    hide Corr, Energy, Row, With, NonNegative, Best, Tables, Score, Follows, Greedy;
    var n := |ps| - 1;
    AddPulse(num, den, phiFlip, phi, ps[..n], d, ps[n].pos, percRespLen);
    p, q := BestCandidate(num, den, phi, ps, d);
    SearchStep(phi, ps, d, p);
    TablesAt(num[..], den[..], phi, ps, d, p);
  }

  lemma NoFigures(phi: seq<real>, ps: seq<Pulse>, d: seq<real>)
    requires PulsesFit(ps, |d|)
    ensures Figures(NoRate, phi, ps, d)
  {
  }

  lemma TablesAt(num: seq<real>, den: seq<real>, phi: seq<real>, ps: seq<Pulse>, d: seq<real>, p: nat)
    requires PulsesFit(ps, |d|) && Tables(num, den, phi, ps, d) && p < |d|
    ensures |num| > p && |den| > p && num[p] == Corr(With(ps, d, p), d) && den[p] == Energy(phi, With(ps, d, p)) + EPS
  {
  }

  lemma FirstPulse(phi: seq<real>, d: seq<real>, p: nat)
    requires p < |d|
    ensures var ps := [Candidate(d, p)];
      Follows(ps, d) && PulsesFit(ps, |d|) && Greedy(phi, ps, d) && PulsesFit([], |d|) && ps == With([], d, p) && ps[..0] == []
  {
  }

  lemma NextList(ps: seq<Pulse>, d: seq<real>, p: nat)
    requires PulsesFit(ps, |d|) && p < |d|
    ensures var q := ps + [Candidate(d, p)]; q == With(ps, d, p) && q[..|ps|] == ps && q[|ps|].pos == p
  {
  }

  lemma FirstFigures(phi: seq<real>, ps: seq<Pulse>, d: seq<real>, num: real, den: real)
    requires PulsesFit(ps, |d|) && |ps| == 1 && num == Corr(ps, d) && den == Energy(phi, ps) + EPS && den > 0.0
    ensures Figures(Rate(1, num * (num / den), num / den, den), phi, ps, d) && Figures(NoRate, phi, ps, d)
    ensures ScoresOf([num * (num / den)], phi, ps, d)
  {
    hide Corr, Energy;
    assert ps[..1] == ps;
    SameQuotient(num, den);
  }

  lemma SameQuotient(a: real, b: real)
    requires b > 0.0
    ensures a * (a / b) == a * a / b
  {
    var r := a / b;
    assert r * b == a;
    assert a * r * b == a * a;
  }

  lemma NextFigures(phi: seq<real>, ps: seq<Pulse>, d: seq<real>, q: real, num: real, den: real)
    requires PulsesFit(ps, |d|) && ps != [] && num == Corr(ps, d) && den == Energy(phi, ps) + EPS && den > 0.0 && q == Score(phi, ps, d)
    ensures Figures(Rate(|ps|, q, num / den, den), phi, ps, d)
  {
    hide Corr, Energy, Score;
    assert ps[..|ps|] == ps;
  }

  // ---------------------------------------------------------------- what comes out

  /** Pulses as they are handed on: position plus one, with the sign. */
  function Coded(ps: seq<Pulse>): (c: seq<int>)
    ensures |c| == |ps|
  {
    seq(|ps|, k requires 0 <= k < |ps| => if ps[k].sign > 0.0 then 1 + ps[k].pos else -(1 + ps[k].pos))
  }

  /** A code is never zero; its size less one is the position, and its sign is the pulse's. */
  lemma CodesTell(ps: seq<Pulse>, n: nat, k: nat)
    requires PulsesFit(ps, n) && k < |ps|
    ensures var c := Coded(ps)[k];
      c != 0 && (if c < 0 then -c else c) - 1 == ps[k].pos && ps[k].sign == (if c < 0 then -1.0 else 1.0)
  {
  }

  /** The excitation vector the decoder and the gain quantiser rebuild from coded pulses. */
  method FcbSynthesize(n: nat, coded: seq<int>, ghost ps: seq<Pulse>) returns (fcb: array<real>)
    requires PulsesFit(ps, n) && coded == Coded(ps)
    ensures fresh(fcb) && fcb[..] == Vec(ps, n)
  {
    fcb := new real[n](_ => 0.0);
    assert fcb[..] == Vec(ps[..0], n);
    for k := 0 to |coded|
      invariant fcb.Length == n && PulsesFit(ps[..k], n) && fcb[..] == Vec(ps[..k], n)
    {
      assert ps[..k + 1][..k] == ps[..k];
      var sign := if coded[k] < 0 then -1 else 1;
      var pos := coded[k] * sign - 1;
      fcb[pos] := fcb[pos] + (sign as real);
    }
    assert ps[..|ps|] == ps;
  }

  /**
   The gain and energy found by the search are those of the vector rebuilt from its pulses: correlation over
   quadratic form, and the quadratic form, up to the guard against division by zero.
   */
  lemma FiguresOfVector(phi: seq<real>, ps: seq<Pulse>, d: seq<real>, r: Rate)
    requires PulsesFit(ps, |d|) && Figures(r, phi, ps, d) && r.nPulses > 0
    ensures PulsesFit(ps[..r.nPulses], |d|)
    ensures var c := Vec(ps[..r.nPulses], |d|);
      && Quad(phi, c, |d|) + EPS > 0.0 && r.fcbWnrg == Quad(phi, c, |d|) + EPS
      && r.gain == Dot(c, d, |d|) / (Quad(phi, c, |d|) + EPS)
      && r.wnrg == Dot(c, d, |d|) * Dot(c, d, |d|) / (Quad(phi, c, |d|) + EPS)
  {
    hide Corr, Energy, Quad, Dot, Vec;
    SameSums(phi, ps[..r.nPulses], d, 0);
  }

  // ---------------------------------------------------------------- survivors of the beam search

  const SURV_MAX := 4

  /** Integer division rounding towards zero. */
  function Truncated(a: int, b: int): int
    requires b > 0
  {
    if a >= 0 then a / b else -(-a / b)
  }

  function SumN(a: seq<int>, n: nat): int
    requires n <= |a|
  {
    if n == 0 then 0 else SumN(a, n - 1) + a[n - 1]
  }

  lemma {:induction false} SumSame(a: seq<int>, b: seq<int>, n: nat)
    requires n <= |a| && n <= |b| && forall i :: 0 <= i < n ==> a[i] == b[i]
    ensures SumN(a, n) == SumN(b, n)
  {
    if n > 0 { SumSame(a, b, n - 1); }
  }

  lemma {:induction false} SumUpdate(a: seq<int>, i: nat, x: int, n: nat)
    requires i < n <= |a|
    ensures SumN(a[i := x], n) == SumN(a, n) + x - a[i]
  {
    if i < n - 1 {
      SumUpdate(a, i, x, n - 1);
    } else {
      SumSame(a[i := x], a, n - 1);
    }
  }

  lemma {:induction false} SumConst(a: seq<int>, x: int, n: nat)
    requires n <= |a| && forall i :: 0 <= i < n ==> a[i] == x
    ensures SumN(a, n) == x * n
  {
    if n > 0 { SumConst(a, x, n - 1); }
  }

  /**
   Shares of totSurv over all pulse counts but the last: equal shares up to the limit, the rest from the top down. With a
   total below two there is not one for each, and the first share is no longer positive.
   */
  method DistributeFcbSurv(numsurv: array<int>, maxPulses: nat, totSurv: nat)
    requires 0 < numsurv.Length && maxPulses <= numsurv.Length
    modifies numsurv
    ensures maxPulses <= 1 ==> numsurv[0] == 1 && numsurv[1..] == old(numsurv[1..])
    ensures maxPulses >= 2 ==> numsurv[maxPulses - 1] == 1 && numsurv[maxPulses..] == old(numsurv[maxPulses..])
    ensures (forall i :: 0 <= i < maxPulses ==> 1 <= numsurv[i] <= SURV_MAX) <==> (maxPulses <= 1 || totSurv >= 2)
    ensures forall i, j :: 0 <= i <= j < maxPulses - 1 ==> numsurv[i] <= numsurv[j] <= numsurv[i] + 1
    ensures maxPulses >= 2 && totSurv >= 2 ==> SumN(numsurv[..], maxPulses) == Max(maxPulses, Min(totSurv, SURV_MAX * (maxPulses - 1) + 1))
  {
    if maxPulses <= 1 {
      numsurv[0] := 1;
      return;
    }
    ghost var tail := numsurv[maxPulses..];
    for i := 0 to maxPulses
      invariant (forall k :: 0 <= k < i ==> numsurv[k] == 1) && numsurv[maxPulses..] == tail
    {
      numsurv[i] := 1;
    }
    var extraSurv := totSurv - maxPulses;
    var extra := Truncated(extraSurv, maxPulses - 1);
    ghost var share := extra;
    if extra > SURV_MAX - 1 { extra := SURV_MAX - 1; }
    if totSurv >= 2 {
      ShareBounds(extraSurv, maxPulses - 1);
      ShareCases(share, maxPulses - 1, extraSurv, extra);
    } else {
      NoShare(extraSurv, maxPulses - 1);
    }
    for i := 0 to maxPulses - 1
      invariant (forall k :: 0 <= k < i ==> numsurv[k] == 1 + extra) && (forall k :: i <= k < maxPulses ==> numsurv[k] == 1)
      invariant numsurv[maxPulses..] == tail
    {
      numsurv[i] := numsurv[i] + extra;
    }
    SumConst(numsurv[..], 1 + extra, maxPulses - 1);
    var sumSurv := maxPulses + extra * (maxPulses - 1);
    EqualShares(maxPulses - 1, extra);
    TopUp(numsurv, maxPulses, totSurv, sumSurv, extra);
  }

  /** When fewer are left over than one each, the truncated share is negative and takes them all back. */
  lemma NoShare(extra: int, n: nat)
    requires n > 0 && -(n as int) - 1 <= extra <= -(n as int)
    ensures Truncated(extra, n) <= -1 && n + 1 + Truncated(extra, n) * n >= extra + n + 1
  {
    DivBounds(-extra, n);
    var q := -extra / n;
    if q <= 0 { MulMono(q, 0, n); }
    assert Truncated(extra, n) == -q;
    assert -q * n == -(n * q);
  }

  lemma EqualShares(n: nat, e: int)
    ensures (1 + e) * n == n + e * n
  {
  }

  /** The rounded share of what is left over each entry. */
  lemma ShareBounds(extra: int, n: nat)
    requires n > 0 && extra + n > 0
    ensures Truncated(extra, n) >= 0 && Truncated(extra, n) * n <= Max(extra, 0) < Truncated(extra, n) * n + n
    ensures extra <= 0 ==> Truncated(extra, n) == 0
  {
    if extra < 0 {
      DivModUnique(-extra, n, 0, -extra);
    } else {
      DivBounds(extra, n);
      if extra == 0 { DivModUnique(0, n, 0, 0); }
    }
  }

  /** What the shares add up to, in terms that do not multiply. */
  lemma ShareCases(extra: int, n: nat, total: int, capped: int)
    requires n > 0 && capped == Min(extra, SURV_MAX - 1) && extra >= 0 && extra * n <= Max(total, 0) < extra * n + n && (total <= 0 ==> extra == 0)
    ensures capped == SURV_MAX - 1 ==> capped * n == 3 * n && total >= 3 * n
    ensures capped < SURV_MAX - 1 ==> capped * n <= 2 * n && total - capped * n < n && (capped > 0 ==> capped * n <= total) && (capped == 0 ==> capped * n == 0)
  {
    if capped == SURV_MAX - 1 {
      MulMono(3, extra, n);
    } else {
      MulMono(capped, 2, n);
    }
  }

  /** One more each, from the last but one down, while something is left and there is room. */
  method TopUp(numsurv: array<int>, maxPulses: nat, totSurv: nat, sum0: int, ghost extra: int)
    requires 2 <= maxPulses <= numsurv.Length && sum0 == SumN(numsurv[..], maxPulses)
    requires (forall k :: 0 <= k < maxPulses - 1 ==> numsurv[k] == 1 + extra) && numsurv[maxPulses - 1] == 1
    requires if totSurv >= 2 then 0 <= extra <= SURV_MAX - 1 else extra < 0 && sum0 >= totSurv
    requires extra == SURV_MAX - 1 ==> sum0 == SURV_MAX * (maxPulses - 1) + 1 <= totSurv
    requires 0 <= extra < SURV_MAX - 1 ==> sum0 <= 3 * (maxPulses - 1) + 1 && totSurv - sum0 < maxPulses - 1
    requires extra == 0 ==> sum0 == maxPulses
    requires 0 < extra ==> maxPulses <= sum0 <= totSurv
    modifies numsurv
    ensures totSurv < 2 ==> numsurv[..] == old(numsurv[..])
    ensures forall i, j :: 0 <= i <= j < maxPulses - 1 ==> numsurv[i] <= numsurv[j] <= numsurv[i] + 1
    ensures totSurv >= 2 ==> forall i :: 0 <= i < maxPulses ==> 1 <= numsurv[i] <= SURV_MAX
    ensures numsurv[maxPulses - 1] == 1 && numsurv[maxPulses..] == old(numsurv[maxPulses..])
    ensures totSurv >= 2 ==> SumN(numsurv[..], maxPulses) == Max(maxPulses, Min(totSurv, SURV_MAX * (maxPulses - 1) + 1))
  {
    hide SumN;
    if totSurv < 2 { return; } // sum0 is already there, so the loop would not start
    ghost var tail := numsurv[maxPulses..];
    var sumSurv, ix := sum0, maxPulses - 2;
    while sumSurv < totSurv
      invariant -1 <= ix <= maxPulses - 2 && sumSurv == SumN(numsurv[..], maxPulses) && numsurv[maxPulses..] == tail
      invariant forall k :: ix < k < maxPulses - 1 ==> numsurv[k] == if extra < SURV_MAX - 1 then 2 + extra else 1 + extra
      invariant (forall k :: 0 <= k <= ix ==> numsurv[k] == 1 + extra) && (forall k :: 0 <= k < maxPulses ==> 1 <= numsurv[k] <= SURV_MAX)
      invariant numsurv[maxPulses - 1] == 1
      invariant sumSurv == sum0 + (if extra < SURV_MAX - 1 then maxPulses - 2 - ix else 0)
      invariant sumSurv <= Max(sum0, totSurv) && ix >= 0
      decreases ix
    {
      if numsurv[ix] < SURV_MAX {
        SumUpdate(numsurv[..], ix, numsurv[ix] + 1, maxPulses);
        ghost var want := numsurv[..][ix := numsurv[ix] + 1];
        numsurv[ix] := numsurv[ix] + 1;
        assert numsurv[..] == want;
        sumSurv := sumSurv + 1;
      }
      ix := ix - 1;
      if ix < 0 { break; }
    }
  }
}
