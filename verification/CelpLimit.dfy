/** When the redundant rate of the codebook search keeps its pulse limit, over the searches the encoder can run. */
module CelpLimit {
  import opened Words
  import opened CelpSearch
  import opened Autocorrelation

  // ---------------------------------------------------------------- a flat target

  /** The same correlation everywhere. */
  function Ones(n: nat): (d: seq<real>)
    ensures |d| == n && forall i :: 0 <= i < n ==> d[i] == 1.0
  {
    seq(n, _ => 1.0)
  }

  /** A response of one sample, in a buffer of r. */
  function Impulse(r: nat): (h: seq<real>)
    requires r > 0
    ensures |h| == r && h[0] == 1.0 && forall i :: 0 < i < r ==> h[i] == 0.0
  {
    seq(r, i => if i == 0 then 1.0 else 0.0)
  }

  lemma {:induction false} ImpulseLags(r: nat, k: nat, m: nat)
    requires r > 0 && m + k <= r
    ensures LagSum(Impulse(r), k, m) == if k == 0 && m > 0 then 1.0 else 0.0
  {
    if m > 0 { ImpulseLags(r, k, m - 1); }
  }

  lemma ImpulsePhi(r: nat, i: int, j: int)
    requires 0 < r <= MAX_SF
    ensures Phi(AutoOf(Impulse(r)), i, j) == if i == j then 1.0 else 0.0
  {
    hide LagSum;
    var k := if i < j then j - i else i - j;
    if k < r { ImpulseLags(r, k, r - k); }
  }

  /** How many of the pulses sit at i. */
  function Count(ps: seq<Pulse>, i: nat): nat
  {
    if ps == [] then 0 else Count(ps[..|ps| - 1], i) + (if ps[|ps| - 1].pos == i then 1 else 0)
  }

  function Positions(ps: seq<Pulse>): (s: set<nat>)
    ensures |s| <= |ps|
  {
    if ps == [] then {} else Positions(ps[..|ps| - 1]) + {ps[|ps| - 1].pos}
  }

  lemma {:induction false} CountPositions(ps: seq<Pulse>, i: nat)
    ensures Count(ps, i) == 0 <==> i !in Positions(ps)
  {
    if ps != [] { CountPositions(ps[..|ps| - 1], i); }
  }

  /** No position twice: every pulse was, when it came, the first at its place. */
  predicate Distinct(ps: seq<Pulse>)
  {
    ps == [] || (Distinct(ps[..|ps| - 1]) && Count(ps[..|ps| - 1], ps[|ps| - 1].pos) == 0)
  }

  /** On a flat target with a one-sample response: correlation counts pulses, energy counts them with their repeats. */
  lemma {:induction false} FlatSums(r: nat, n: nat, ps: seq<Pulse>, i: nat)
    requires 0 < r <= MAX_SF && PulsesFit(ps, n) && Follows(ps, Ones(n))
    ensures Corr(ps, Ones(n)) == |ps| as real
    ensures Row(AutoOf(Impulse(r)), ps, i) == Count(ps, i) as real
    decreases |ps|
  {
    hide Phi, AutoOf, Impulse;
    if ps != [] {
      var q, p := ps[..|ps| - 1], ps[|ps| - 1];
      FlatSums(r, n, q, i);
      ImpulsePhi(r, i, p.pos);
      assert p.sign == 1.0;
    }
  }

  lemma {:induction false} DistinctEnergy(r: nat, n: nat, ps: seq<Pulse>)
    requires 0 < r <= MAX_SF && PulsesFit(ps, n) && Follows(ps, Ones(n)) && Distinct(ps)
    ensures Energy(AutoOf(Impulse(r)), ps) == |ps| as real
    decreases |ps|
  {
    hide Phi, AutoOf, Impulse, Row, Count;
    if ps != [] {
      var q, p := ps[..|ps| - 1], ps[|ps| - 1];
      DistinctEnergy(r, n, q);
      FlatSums(r, n, q, p.pos);
      ImpulsePhi(r, 0, 0);
    }
  }

  /** Energy captured by x pulses when the last one repeats a position held c times before. */
  function Captured(x: real, c: real): real
    requires x > 0.0 && c >= 0.0
  {
    x * x / (x + 2.0 * c + EPS)
  }

  lemma FlatScore(r: nat, n: nat, ps: seq<Pulse>, i: nat)
    requires 0 < r <= MAX_SF && PulsesFit(ps, n) && Follows(ps, Ones(n)) && Distinct(ps) && i < n
    ensures var d, phi := Ones(n), AutoOf(Impulse(r));
      Energy(phi, With(ps, d, i)) + EPS > 0.0 && Score(phi, With(ps, d, i), d) == Captured((|ps| + 1) as real, Count(ps, i) as real)
  {
    hide Phi, AutoOf, Impulse, Row, Count, Distinct, Energy, Corr, With;
    DistinctEnergy(r, n, ps);
    FlatSums(r, n, ps, i);
    WithSums(AutoOf(Impulse(r)), ps, Ones(n), i);
    ImpulsePhi(r, 0, 0);
    assert (|ps| + 1) as real == |ps| as real + 1.0;
  }

  /** Repeating a position captures less, and never more than one fresh pulse does. */
  lemma FreshIsBetter(x: real, c: real)
    requires x > 0.0 && c >= 0.0
    ensures Captured(x, c) <= Captured(x, 0.0) && (c > 0.0 ==> Captured(x, c) < Captured(x, 0.0))
  {
    var a, b := x + EPS, x + 2.0 * c + EPS;
    Larger(x * x, a, b);
  }

  lemma Larger(s: real, a: real, b: real)
    requires s > 0.0 && 0.0 < a <= b
    ensures s / b <= s / a && (a < b ==> s / b < s / a)
  {
    var u, v := s / a, s / b;
    assert u * a == s && v * b == s;
    if v > u { Products(u, v, a, b); }
    if v == u && a < b { Products(u, v, a, b); }
    Positive(s, b);
  }

  lemma Positive(s: real, b: real)
    requires s > 0.0 && b > 0.0
    ensures s / b > 0.0
  {
  }

  lemma Products(u: real, v: real, a: real, b: real)
    requires 0.0 < a <= b && v >= u && (v > u || a < b) && v > 0.0
    ensures v * b > u * a
  {
  }

  // ---------------------------------------------------------------- the greedy rule never repeats a position there

  function Below(n: nat): (s: set<nat>)
    ensures |s| == n && forall i: nat :: i in s <==> i < n
  {
    if n == 0 then {}
    else
      var m: nat := n - 1;
      Below(m) + {m}
  }

  lemma SubsetSize(a: set<nat>, b: set<nat>)
    requires a <= b
    ensures |a| <= |b|
  {
    assert b == a + (b - a);
  }

  /** Fewer pulses than positions leave a position free. */
  lemma FreePosition(ps: seq<Pulse>, n: nat) returns (i: nat)
    requires |ps| < n
    ensures i < n && Count(ps, i) == 0
  {
    if Below(n) <= Positions(ps) { SubsetSize(Below(n), Positions(ps)); }
    i :| i in Below(n) && i !in Positions(ps);
    CountPositions(ps, i);
  }

  /** The best addition to distinct pulses is a fresh position. */
  lemma BestIsFresh(r: nat, n: nat, ps: seq<Pulse>, p: nat)
    requires 0 < r <= MAX_SF && PulsesFit(ps, n) && Follows(ps, Ones(n)) && Distinct(ps) && |ps| < n
    requires Best(AutoOf(Impulse(r)), ps, Ones(n), p)
    ensures Count(ps, p) == 0
  {
    hide AutoOf, Impulse, Count, Distinct, Energy, Score, With, Captured;
    var i := FreePosition(ps, n);
    FlatScore(r, n, ps, i);
    FlatScore(r, n, ps, p);
    FreshIsBetter((|ps| + 1) as real, Count(ps, p) as real);
    BestAt(AutoOf(Impulse(r)), ps, Ones(n), p, i);
  }

  lemma BestAt(phi: seq<real>, ps: seq<Pulse>, d: seq<real>, p: nat, i: nat)
    requires PulsesFit(ps, |d|) && Best(phi, ps, d, p) && i < |d|
    ensures p < |d| && Energy(phi, With(ps, d, i)) + EPS > 0.0 && Energy(phi, With(ps, d, p)) + EPS > 0.0
    ensures Score(phi, With(ps, d, i), d) <= Score(phi, With(ps, d, p), d)
  {
    hide Energy, Score, With;
  }

  lemma PrefixFits(ps: seq<Pulse>, d: seq<real>, k: nat)
    requires Follows(ps, d) && k <= |ps|
    ensures Follows(ps[..k], d) && PulsesFit(ps[..k], |d|)
  {
  }

  lemma {:induction false} GreedyDistinct(r: nat, n: nat, ps: seq<Pulse>, k: nat)
    requires 0 < r <= MAX_SF && PulsesFit(ps, n) && Follows(ps, Ones(n)) && Greedy(AutoOf(Impulse(r)), ps, Ones(n)) && k <= |ps| <= n
    ensures Distinct(ps[..k])
  {
    hide AutoOf, Impulse, Ones, Best;
    if k > 0 {
      var q := ps[..k - 1];
      GreedyDistinct(r, n, ps, k - 1);
      PrefixFits(ps, Ones(n), k - 1);
      assert ps[..k][..k - 1] == q;
      if k > 1 {
        assert Best(AutoOf(Impulse(r)), q, Ones(n), ps[k - 1].pos);
        BestIsFresh(r, n, q, ps[k - 1].pos);
      }
    }
  }

  /** So k pulses capture k * k / (k + EPS): one more each time, up to the guard. */
  lemma FlatScores(r: nat, n: nat, ps: seq<Pulse>, qs: seq<real>, k: nat)
    requires 0 < r <= MAX_SF && PulsesFit(ps, n) && Follows(ps, Ones(n)) && k < |ps| && Distinct(ps[..k + 1])
    requires ScoresOf(qs, AutoOf(Impulse(r)), ps, Ones(n))
    ensures (k + 1) as real - EPS <= qs[k] <= (k + 1) as real
  {
    hide AutoOf, Impulse, Energy, Corr, Distinct, Ones;
    var x := (k + 1) as real;
    PrefixFits(ps, Ones(n), k + 1);
    assert ScoreAt(qs[k], AutoOf(Impulse(r)), ps, Ones(n), k);
    DistinctEnergy(r, n, ps[..k + 1]);
    FlatSums(r, n, ps[..k + 1], 0);
    NearlyOne(x);
  }

  lemma NearlyOne(x: real)
    requires x >= 1.0
    ensures x - EPS <= x * x / (x + EPS) <= x
  {
    var q := x * x / (x + EPS);
    assert q * (x + EPS) == x * x;
    assert (x - EPS) * (x + EPS) == x * x - EPS * EPS;
    assert x * (x + EPS) == x * x + EPS * x;
    if q > x { Larger2(x, q, x + EPS); }
    if q < x - EPS { Larger2(q, x - EPS, x + EPS); }
  }

  lemma Larger2(a: real, b: real, c: real)
    requires a < b && c > 0.0
    ensures a * c < b * c
  {
  }

  // ---------------------------------------------------------------- what the redundant rate makes of it

  /** Captured energies that grow by nearly one a pulse. */
  predicate Steps(qs: seq<real>) { forall k :: 0 <= k < |qs| ==> (k + 1) as real - EPS <= qs[k] <= (k + 1) as real }

  lemma {:induction false} FecTakesAll(qs: seq<real>, priceMain: real, price: real, maxFec: nat, k: nat)
    requires Steps(qs) && 0 < maxFec && 1 <= k <= |qs| && 0.0 < price < 0.9
    ensures var p, m := FecPick(qs, priceMain, price, maxFec, k), Min(k, maxFec + 1);
      if k == 1 then p.thr == 0.0 else p == Pick(m, qs[m - 1])
  {
    if k > 1 {
      FecTakesAll(qs, priceMain, price, maxFec, k - 1);
      assert k as real == (k - 1) as real + 1.0;
      assert qs[k - 1] >= k as real - EPS && qs[k - 2] <= (k - 1) as real;
    }
  }

  lemma FecOvershoots(qs: seq<real>, priceMain: real, price: real, maxFec: nat)
    requires Steps(qs) && 0 < maxFec < |qs| && 0.0 < price < 0.9
    ensures Settled(FecPick(qs, priceMain, price, maxFec, |qs|)) == maxFec + 1
  {
    FecTakesAll(qs, priceMain, price, maxFec, |qs|);
    assert qs[maxFec] >= (maxFec + 1) as real - EPS;
  }

  lemma FlatSteps(r: nat, n: nat, ps: seq<Pulse>, qs: seq<real>)
    requires 0 < r <= MAX_LRESP && Searched(Impulse(r), Ones(n), ps, qs) && |ps| <= n
    ensures Steps(qs)
  {
    hide AutoOf, Impulse, Ones;
    forall k | 0 <= k < |qs| ensures (k + 1) as real - EPS <= qs[k] <= (k + 1) as real {
      GreedyDistinct(r, n, ps, k + 1);
      FlatScores(r, n, ps, qs, k);
    }
  }

  /**
   A search that passes the limit: a flat target of n samples, a one-sample response in any buffer, at most one pulse a
   sample and any price below nine tenths of a pulse's energy. The redundant rate comes out with one pulse too many.
   */
  method SearchOverLimit(r: nat, n: nat, priceMain: real, priceFec: real, maxMain: nat, maxFec: nat) returns (fec: Rate)
    requires 2 <= r <= MAX_LRESP && 0 < maxFec < maxMain <= n <= MAX_SF && 0.0 < priceFec < 0.9
    ensures fec.nPulses == maxFec + 1
  {
    hide Impulse, Ones, Searched, FecPick, MainPick, AutoOf, Figures;
    var ps, main;
    ghost var qs;
    ps, main, fec, qs := SearchWithResponse(Impulse(r), Ones(n), priceMain, priceFec, maxMain, maxFec);
    FlatSteps(r, n, ps, qs);
    FecOvershoots(qs, priceMain, priceFec, maxFec);
  }

  // ---------------------------------------------------------------- exactly when the limit holds

  /** One pulse on each of the first n positions. */
  function Stairs(n: nat): (ps: seq<Pulse>)
    ensures |ps| == n && forall k :: 0 <= k < n ==> ps[k] == Pulse(k, 1.0)
  {
    seq(n, k requires k >= 0 => Pulse(k, 1.0))
  }

  lemma {:induction false} StairsDistinct(n: nat, i: nat)
    ensures Distinct(Stairs(n)) && (Count(Stairs(n), i) == 0 <==> i >= n)
  {
    if n > 0 {
      assert Stairs(n)[..n - 1] == Stairs(n - 1);
      StairsDistinct(n - 1, i);
      StairsDistinct(n - 1, n - 1);
    }
  }

  lemma StairsBest(r: nat, n: nat, k: nat)
    requires 0 < r <= MAX_SF && k < n
    ensures PulsesFit(Stairs(k), n) && Best(AutoOf(Impulse(r)), Stairs(k), Ones(n), k)
  {
    hide AutoOf, Impulse, Count, Distinct, Energy, Score, With, Captured;
    var phi, d := AutoOf(Impulse(r)), Ones(n);
    forall i | 0 <= i < n
      ensures Energy(phi, With(Stairs(k), d, i)) + EPS > 0.0 && Energy(phi, With(Stairs(k), d, k)) + EPS > 0.0
      ensures Score(phi, With(Stairs(k), d, i), d) <= Score(phi, With(Stairs(k), d, k), d)
    {
      StairsDistinct(k, i);
      StairsDistinct(k, k);
      FlatScore(r, n, Stairs(k), i);
      FlatScore(r, n, Stairs(k), k);
      FreshIsBetter((k + 1) as real, Count(Stairs(k), i) as real);
    }
  }

  /** The energies along the stairs. */
  function StairScores(m: nat): (qs: seq<real>)
    ensures |qs| == m
  {
    seq(m, k requires k >= 0 => Captured((k + 1) as real, 0.0))
  }

  lemma StairsScored(r: nat, n: nat, m: nat, k: nat)
    requires 0 < r <= MAX_SF && k < m <= n
    ensures ScoreAt(StairScores(m)[k], AutoOf(Impulse(r)), Stairs(m), Ones(n), k)
  {
    hide AutoOf, Impulse, Count, Distinct, Energy, Corr;
    StairsDistinct(k + 1, 0);
    var phi, d := AutoOf(Impulse(r)), Ones(n);
    assert Stairs(m)[..k + 1] == Stairs(k + 1);
    DistinctEnergy(r, n, Stairs(k + 1));
    FlatSums(r, n, Stairs(k + 1), 0);
  }

  /** The stairs are what a search over a flat target may come to. */
  lemma StairsSearched(r: nat, n: nat, m: nat)
    requires 2 <= r <= MAX_LRESP && 1 <= m <= n <= MAX_SF
    ensures Searched(Impulse(r), Ones(n), Stairs(m), StairScores(m))
  {
    hide AutoOf, Impulse, Best, ScoreAt, Captured;
    var phi, d, ps := AutoOf(Impulse(r)), Ones(n), Stairs(m);
    forall k | 1 <= k < m ensures Best(phi, ps[..k], d, ps[k].pos) {
      assert ps[..k] == Stairs(k);
      StairsBest(r, n, k);
    }
    forall k | 0 <= k < m ensures ScoreAt(StairScores(m)[k], phi, ps, d, k) { StairsScored(r, n, m, k); }
  }

  /**
   For m pulses over n samples: on all searches, with all positive prices, the redundant rate keeps its limit exactly when
   the limit is 0 or at least m.
   */
  lemma FecLimitExact(n: nat, m: nat, maxFec: nat)
    requires 1 <= m <= n <= MAX_SF
    ensures (forall h: seq<real>, d: seq<real>, ps: seq<Pulse>, qs: seq<real>, priceMain: real, price: real
               {:trigger Searched(h, d, ps, qs), FecPick(qs, priceMain, price, maxFec, m)} ::
               Searched(h, d, ps, qs) && |d| == n && |ps| == m && priceMain > 0.0 && price > 0.0 ==>
                 Settled(FecPick(qs, priceMain, price, maxFec, m)) <= maxFec)
            <==> (maxFec == 0 || m <= maxFec)
  {
    hide FecPick;
    if maxFec == 0 || m <= maxFec {
      forall h: seq<real>, d: seq<real>, ps: seq<Pulse>, qs: seq<real>, priceMain: real, price: real
        | Searched(h, d, ps, qs) && |d| == n && |ps| == m && priceMain > 0.0 && price > 0.0
        ensures Settled(FecPick(qs, priceMain, price, maxFec, m)) <= maxFec
      {
        FecKeepsLimit(qs, priceMain, price, maxFec);
      }
    } else {
      var qs := StairScores(m);
      StairsSearched(2, n, m);
      FlatSteps(2, n, Stairs(m), qs);
      FecOvershoots(qs, 0.5, 0.5, maxFec);
      assert Settled(FecPick(qs, 0.5, 0.5, maxFec, m)) == maxFec + 1;
    }
  }
}
