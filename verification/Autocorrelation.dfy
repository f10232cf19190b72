/** The matrix of the codebook search comes from an impulse response, so no excitation has negative energy. */
module Autocorrelation {
  import opened Words
  import opened CelpSearch

  /** The impulse response, zero outside its length. */
  function H(h: seq<real>, t: int): real { if 0 <= t < |h| then h[t] else 0.0 }

  /** The first m products at a lag. */
  function LagSum(h: seq<real>, k: nat, m: nat): real
    requires m + k <= |h| || m == 0
  {
    if m == 0 then 0.0 else LagSum(h, k, m - 1) + h[m - 1] * h[m - 1 + k]
  }

  ghost predicate IsAutocorrelation(phi: seq<real>, h: seq<real>)
  {
    && (forall k :: 0 <= k < |h| && k < |phi| ==> phi[k] == LagSum(h, k, |h| - k))
    && (forall k :: |h| <= k < |phi| ==> phi[k] == 0.0)
    && |h| <= |phi|
  }

  /** Product of the responses to unit pulses at i and j, over the first n samples. */
  function Cross(h: seq<real>, i: nat, j: nat, n: nat): real
  {
    if n == 0 then 0.0 else Cross(h, i, j, n - 1) + H(h, n - 1 - i) * H(h, n - 1 - j)
  }

  /** Sample t of the response to the first m entries of c. */
  function Response(h: seq<real>, c: seq<real>, t: int, m: nat): real
    requires m <= |c|
  {
    if m == 0 then 0.0 else Response(h, c, t, m - 1) + c[m - 1] * H(h, t - (m - 1))
  }

  function CrossResponse(h: seq<real>, c: seq<real>, i: nat, m: nat, n: nat): real
    requires m <= |c|
  {
    if n == 0 then 0.0 else CrossResponse(h, c, i, m, n - 1) + H(h, n - 1 - i) * Response(h, c, n - 1, m)
  }

  /** Product of the responses to the first m entries and to all of them. */
  function ResponseDot(h: seq<real>, c: seq<real>, m: nat, n: nat): real
    requires m <= |c|
  {
    if n == 0 then 0.0 else ResponseDot(h, c, m, n - 1) + Response(h, c, n - 1, m) * Response(h, c, n - 1, |c|)
  }

  /** Sample n of the two responses, counted from the later pulse. */
  lemma LagTerm(h: seq<real>, i: nat, j: nat, n: nat)
    requires i <= j && j - i < |h|
    ensures var s, k := n - j, j - i;
      H(h, n - i) * H(h, n - j) == if 0 <= s < |h| - k then h[s] * h[s + k] else 0.0
  {
    var s, k := n - j, j - i;
    if 0 <= s < |h| - k {
      assert H(h, n - j) == h[s] && H(h, n - i) == h[s + k];
    } else {
      assert H(h, n - j) == 0.0 || H(h, n - i) == 0.0;
    }
  }

  lemma LagUnfold(h: seq<real>, k: nat, m: nat)
    requires m + k < |h|
    ensures LagSum(h, k, m + 1) == LagSum(h, k, m) + h[m] * h[m + k]
  {
  }

  lemma {:induction false} CrossIsLag(h: seq<real>, i: nat, j: nat, n: nat)
    requires i <= j && j - i < |h|
    ensures Cross(h, i, j, n) == LagSum(h, j - i, Max(0, Min(n - j, |h| - (j - i))))
  {
    hide H;
    if n > 0 {
      var s, k := n - 1 - j, j - i;
      CrossIsLag(h, i, j, n - 1);
      LagTerm(h, i, j, n - 1);
      if 0 <= s < |h| - k { LagUnfold(h, k, s); }
    }
  }

  lemma {:induction false} CrossFar(h: seq<real>, i: nat, j: nat, n: nat)
    requires i <= j && j - i >= |h|
    ensures Cross(h, i, j, n) == 0.0
  {
    if n > 0 { CrossFar(h, i, j, n - 1); }
  }

  lemma {:induction false} CrossSwap(h: seq<real>, i: nat, j: nat, n: nat)
    ensures Cross(h, i, j, n) == Cross(h, j, i, n)
  {
    if n > 0 { CrossSwap(h, i, j, n - 1); }
  }

  /** Every entry of the matrix is a product of two responses. */
  lemma PhiIsCross(phi: seq<real>, h: seq<real>, i: nat, j: nat, n: nat)
    requires IsAutocorrelation(phi, h) && n >= |h| + i && n >= |h| + j
    ensures Phi(phi, i, j) == Cross(h, i, j, n)
  {
    hide Cross;
    var a, b := Min(i, j), Max(i, j);
    CrossSwap(h, i, j, n);
    if b - a < |h| { CrossIsLag(h, a, b, n); } else { CrossFar(h, a, b, n); }
  }

  lemma Combine(r: real, s: real, x: real, y: real, a: real)
    ensures (r + s * x) * y + s * a == r * y + s * (a + x * y)
    ensures y * (r + s * x) + s * a == y * r + s * (a + y * x)
  {
  }

  /** The same, with the sums named. */
  lemma CombineNamed(d1: real, d: real, sum: real, r: real, s: real, x: real, y: real, a: real, cr: real)
    requires sum == r + s * x && cr == a + x * y && d1 == d + s * a
    ensures d1 + sum * y == d + r * y + s * cr
  {
    Combine(r, s, x, y, a);
    assert sum * y == (r + s * x) * y;
    assert s * cr == s * (a + x * y);
  }

  lemma {:induction false} CrossResponseStep(h: seq<real>, c: seq<real>, i: nat, m: nat, n: nat)
    requires m < |c|
    ensures CrossResponse(h, c, i, m + 1, n) == CrossResponse(h, c, i, m, n) + c[m] * Cross(h, i, m, n)
  {
    hide H;
    if n > 0 {
      CrossResponseStep(h, c, i, m, n - 1);
      var x, y := H(h, n - 1 - i), H(h, n - 1 - m);
      Combine(Response(h, c, n - 1, m), c[m], y, x, Cross(h, i, m, n - 1));
    }
  }

  lemma {:induction false} NoResponse(h: seq<real>, c: seq<real>, i: nat, n: nat)
    ensures CrossResponse(h, c, i, 0, n) == 0.0 && ResponseDot(h, c, 0, n) == 0.0
  {
    if n > 0 { NoResponse(h, c, i, n - 1); }
  }

  lemma {:induction false} ProductIsCross(phi: seq<real>, h: seq<real>, c: seq<real>, i: nat, m: nat, n: nat)
    requires IsAutocorrelation(phi, h) && i < |c| && m <= |c| && n == |h| + |c|
    ensures Product(phi, c, i, m) == CrossResponse(h, c, i, m, n)
  {
    hide Phi, IsAutocorrelation, Cross, CrossResponse;
    if m == 0 {
      NoResponse(h, c, i, n);
    } else {
      ProductIsCross(phi, h, c, i, m - 1, n);
      CrossResponseStep(h, c, i, m - 1, n);
      PhiIsCross(phi, h, i, m - 1, n);
    }
  }

  lemma DotUnfold(h: seq<real>, c: seq<real>, m: nat, n: nat)
    requires m <= |c| && n > 0
    ensures ResponseDot(h, c, m, n) == ResponseDot(h, c, m, n - 1) + Response(h, c, n - 1, m) * Response(h, c, n - 1, |c|)
    ensures CrossResponse(h, c, m, |c|, n) == CrossResponse(h, c, m, |c|, n - 1) + H(h, n - 1 - m) * Response(h, c, n - 1, |c|)
    ensures m < |c| ==> Response(h, c, n - 1, m + 1) == Response(h, c, n - 1, m) + c[m] * H(h, n - 1 - m)
  {
    hide H;
    if m < |c| { ResponseUnfold(h, c, n - 1, m); }
    hide Response;
  }

  lemma ResponseUnfold(h: seq<real>, c: seq<real>, t: int, m: nat)
    requires m < |c|
    ensures Response(h, c, t, m + 1) == Response(h, c, t, m) + c[m] * H(h, t - m)
  {
  }

  lemma NothingYet(h: seq<real>, c: seq<real>, m: nat)
    requires m < |c|
    ensures ResponseDot(h, c, m, 0) == 0.0 && ResponseDot(h, c, m + 1, 0) == 0.0 && CrossResponse(h, c, m, |c|, 0) == 0.0
  {
  }

  lemma ResponseDotNext(h: seq<real>, c: seq<real>, m: nat, n: nat)
    requires m < |c| && n > 0
    requires ResponseDot(h, c, m + 1, n - 1) == ResponseDot(h, c, m, n - 1) + c[m] * CrossResponse(h, c, m, |c|, n - 1)
    ensures ResponseDot(h, c, m + 1, n) == ResponseDot(h, c, m, n) + c[m] * CrossResponse(h, c, m, |c|, n)
  {
    hide H, Response, ResponseDot, CrossResponse;
    DotUnfold(h, c, m, n);
    DotUnfold(h, c, m + 1, n);
    CombineNamed(ResponseDot(h, c, m + 1, n - 1), ResponseDot(h, c, m, n - 1), Response(h, c, n - 1, m + 1), Response(h, c, n - 1, m),
                 c[m], H(h, n - 1 - m), Response(h, c, n - 1, |c|), CrossResponse(h, c, m, |c|, n - 1), CrossResponse(h, c, m, |c|, n));
  }

  lemma {:induction false} ResponseDotStep(h: seq<real>, c: seq<real>, m: nat, n: nat)
    requires m < |c|
    ensures ResponseDot(h, c, m + 1, n) == ResponseDot(h, c, m, n) + c[m] * CrossResponse(h, c, m, |c|, n)
  {
    hide H, Response;
    if n == 0 {
      NothingYet(h, c, m);
    } else {
      ResponseDotStep(h, c, m, n - 1);
      ResponseDotNext(h, c, m, n);
    }
  }

  lemma {:induction false} QuadIsDot(phi: seq<real>, h: seq<real>, c: seq<real>, m: nat, n: nat)
    requires IsAutocorrelation(phi, h) && m <= |c| && n == |h| + |c|
    ensures Quad(phi, c, m) == ResponseDot(h, c, m, n)
  {
    hide Product, IsAutocorrelation, CrossResponse, ResponseDot;
    if m == 0 {
      NoResponse(h, c, 0, n);
    } else {
      QuadIsDot(phi, h, c, m - 1, n);
      ResponseDotStep(h, c, m - 1, n);
      ProductIsCross(phi, h, c, m - 1, |c|, n);
    }
  }

  lemma {:induction false} SumOfSquares(h: seq<real>, c: seq<real>, n: nat)
    ensures ResponseDot(h, c, |c|, n) >= 0.0
  {
    hide Response;
    if n > 0 {
      SumOfSquares(h, c, n - 1);
      Square(Response(h, c, n - 1, |c|));
    }
  }

  lemma Square(x: real)
    ensures x * x >= 0.0
  {
  }

  /** The quadratic form of an excitation is the energy of its response: never negative. */
  lemma AutocorrelationNonNegative(phi: seq<real>, h: seq<real>, n: nat)
    requires IsAutocorrelation(phi, h)
    ensures NonNegative(phi, n)
  {
    hide IsAutocorrelation, Quad, ResponseDot;
    forall c: seq<real> | |c| == n ensures Quad(phi, c, n) >= 0.0 {
      QuadIsDot(phi, h, c, n, |h| + n);
      SumOfSquares(h, c, |h| + n);
    }
  }

  /** Both sides of the autocorrelation around the centre, with zeros where the response no longer reaches. */
  method FlipPhi(phi: seq<real>, lResp: nat) returns (phiFlip: array<real>)
    requires |phi| == MAX_SF && 0 < lResp < MAX_SF && Banded(phi, lResp)
    ensures fresh(phiFlip) && phiFlip.Length == 2 * MAX_SF && Flipped(phiFlip[..], phi)
  {
    phiFlip := new real[2 * MAX_SF](_ => 0.0);
    phiFlip[MAX_SF] := phi[0];
    for i := 0 to lResp + 1
      invariant phiFlip[MAX_SF] == phi[0]
      invariant forall k :: 0 <= k < 2 * MAX_SF && MAX_SF - i < k < MAX_SF + i ==> phiFlip[k] == Phi(phi, k, MAX_SF)
      invariant forall k :: 0 <= k < 2 * MAX_SF && k != MAX_SF && !(MAX_SF - i < k < MAX_SF + i) ==> phiFlip[k] == 0.0
    {
      phiFlip[MAX_SF - i], phiFlip[MAX_SF + i] := phi[i], phi[i];
    }
    assert forall k :: 0 <= k < 2 * MAX_SF ==> phiFlip[k] == Phi(phi, k, MAX_SF);
  }

  // ---------------------------------------------------------------- computing it

  const MAX_LRESP := 33

  /** The autocorrelation of a response, with zeros behind its length. */
  function AutoOf(h: seq<real>): (phi: seq<real>)
    ensures |phi| == MAX_SF
    ensures |h| <= MAX_SF ==> IsAutocorrelation(phi, h) && Banded(phi, |h|)
  {
    seq(MAX_SF, k requires k >= 0 => if k < |h| then LagSum(h, k, |h| - k) else 0.0)
  }

  /** The first m taps of a filter over the samples up to `at`. */
  function MaSum(x: seq<real>, at: nat, coef: seq<real>, m: nat): real
    requires m <= |coef| && m <= at + 1 && at < |x|
  {
    if m == 0 then 0.0 else MaSum(x, at, coef, m - 1) + coef[m - 1] * x[at - (m - 1)]
  }

  /** A leading tap of one is taken together with the tap behind it, which then has to be there. */
  predicate Taps(coef: seq<real>) { |coef| >= 1 && (coef[0] == 1.0 ==> |coef| >= 2) }

  lemma FirstTaps(x: seq<real>, at: nat, coef: seq<real>)
    requires 1 <= |coef| <= at + 1 && at < |x|
    ensures MaSum(x, at, coef, 1) == coef[0] * x[at]
    ensures |coef| >= 2 ==> MaSum(x, at, coef, 2) == coef[0] * x[at] + coef[1] * x[at - 1]
  {
    assert MaSum(x, at, coef, 0) == 0.0;
  }

  /** One tap after the other over all samples; a leading tap of one is not multiplied. */
  method FiltMa(x: seq<real>, xBase: nat, n: nat, coef: seq<real>, y: array<real>)
    requires Taps(coef) && |coef| <= xBase + 1 && xBase + n <= |x| && n <= y.Length
    modifies y
    ensures forall k :: 0 <= k < n ==> y[k] == MaSum(x, xBase + k, coef, |coef|)
    ensures y[n..] == old(y[n..])
  {
    var i: nat;
    if coef[0] == 1.0 {
      for k := 0 to n
        invariant forall j :: 0 <= j < k ==> y[j] == MaSum(x, xBase + j, coef, 2)
        invariant y[n..] == old(y[n..])
      {
        FirstTaps(x, xBase + k, coef);
        y[k] := x[xBase + k] + coef[1] * x[xBase + k - 1];
      }
      i := 2;
    } else {
      for k := 0 to n
        invariant forall j :: 0 <= j < k ==> y[j] == MaSum(x, xBase + j, coef, 1)
        invariant y[n..] == old(y[n..])
      {
        FirstTaps(x, xBase + k, coef);
        y[k] := coef[0] * x[xBase + k];
      }
      i := 1;
    }
    while i < |coef|
      invariant 1 <= i <= |coef| && forall j :: 0 <= j < n ==> y[j] == MaSum(x, xBase + j, coef, i)
      invariant y[n..] == old(y[n..])
    {
      NextTap(x, xBase, n, coef, i, y);
      i := i + 1;
    }
  }

  method NextTap(x: seq<real>, xBase: nat, n: nat, coef: seq<real>, i: nat, y: array<real>)
    requires i < |coef| <= xBase + 1 && xBase + n <= |x| && n <= y.Length
    requires forall j :: 0 <= j < n ==> y[j] == MaSum(x, xBase + j, coef, i)
    modifies y
    ensures forall j :: 0 <= j < n ==> y[j] == MaSum(x, xBase + j, coef, i + 1)
    ensures y[n..] == old(y[n..])
  {
    for k := 0 to n
      invariant forall j :: 0 <= j < k ==> y[j] == MaSum(x, xBase + j, coef, i + 1)
      invariant forall j :: k <= j < n ==> y[j] == MaSum(x, xBase + j, coef, i)
      invariant y[n..] == old(y[n..])
    {
      y[k] := y[k] + coef[i] * x[xBase + k - i];
    }
  }

  /** The ten taps of the short response, one sample after the other. */
  method FiltMa9(x: seq<real>, xBase: nat, n: nat, coef: seq<real>, y: array<real>)
    requires |coef| == 10 <= xBase + 1 && xBase + n <= |x| && n <= y.Length
    modifies y
    ensures forall k :: 0 <= k < n ==> y[k] == MaSum(x, xBase + k, coef, |coef|)
    ensures y[n..] == old(y[n..])
  {
    for nn := 0 to n
      invariant forall k :: 0 <= k < nn ==> y[k] == MaSum(x, xBase + k, coef, |coef|)
      invariant y[n..] == old(y[n..])
    {
      var res := 0.0;
      for i := 0 to 10
        invariant res == MaSum(x, xBase + nn, coef, i)
      {
        res := res + coef[i] * x[xBase + nn - i];
      }
      y[nn] := res;
    }
  }

  method Reverse(x: array<real>, l: nat)
    requires l <= x.Length
    modifies x
    ensures forall k :: 0 <= k < l ==> x[k] == old(x[l - 1 - k])
    ensures x[l..] == old(x[l..])
  {
    for i := 0 to l / 2
      invariant forall k :: 0 <= k < i || l - i <= k < l ==> x[k] == old(x[l - 1 - k])
      invariant forall k :: i <= k < l - i ==> x[k] == old(x[k])
      invariant x[l..] == old(x[l..])
    {
      x[i], x[l - i - 1] := x[l - i - 1], x[i];
    }
  }

  /** The reversed response behind a run of zeros. */
  predicate Reversed(rev: seq<real>, h: seq<real>)
  {
    && |rev| == 2 * MAX_LRESP - 1 && 0 < |h| <= MAX_LRESP
    && (forall i :: 0 <= i < MAX_LRESP - 1 ==> rev[i] == 0.0)
    && forall j :: MAX_LRESP - 1 <= j < MAX_LRESP - 1 + |h| ==> rev[j] == h[|h| - 1 - (j - (MAX_LRESP - 1))]
  }

  /** Filtering the reversed response by the response gives its lag sums, last lag first. */
  lemma {:induction false} LagsOfReversed(rev: seq<real>, h: seq<real>, k: nat, m: nat)
    requires Reversed(rev, h) && k < |h| && m <= |h|
    ensures MaSum(rev, MAX_LRESP - 1 + k, h, m) == LagSum(h, |h| - 1 - k, Min(m, k + 1))
  {
    if m > 0 {
      LagsOfReversed(rev, h, k, m - 1);
      var i := m - 1;
      if i <= k {
        assert rev[MAX_LRESP - 1 + (k - i)] == h[|h| - 1 - (k - i)];
        LagUnfold(h, |h| - 1 - k, i);
      } else {
        assert rev[MAX_LRESP - 1 + k - i] == 0.0;
      }
    }
  }

  method ReversedResponse(h: seq<real>) returns (rev: array<real>)
    requires 0 < |h| <= MAX_LRESP
    ensures fresh(rev) && Reversed(rev[..], h)
  {
    var lResp, revBase := |h|, MAX_LRESP - 1;
    rev := new real[2 * MAX_LRESP - 1](_ => 0.0);
    for i := 0 to lResp
      invariant forall j :: revBase <= j < revBase + i ==> rev[j] == h[lResp - 1 - (j - revBase)]
      invariant forall j :: 0 <= j < revBase ==> rev[j] == 0.0
    {
      rev[revBase + i] := h[lResp - i - 1];
    }
  }

  /** Filtered by the response itself and turned round, the reversed response becomes its lag sums. */
  method LagsInto(h: seq<real>, rev: seq<real>, phi: array<real>)
    requires Taps(h) && |h| <= phi.Length && Reversed(rev, h)
    modifies phi
    ensures forall k :: 0 <= k < |h| ==> phi[k] == LagSum(h, k, |h| - k)
    ensures phi[|h|..] == old(phi[|h|..])
  {
    hide MaSum, LagSum;
    var lResp, revBase := |h|, MAX_LRESP - 1;
    if lResp == 10 {
      FiltMa9(rev, revBase, lResp, h, phi);
    } else {
      FiltMa(rev, revBase, lResp, h, phi);
    }
    forall k | 0 <= k < lResp ensures phi[k] == LagSum(h, lResp - 1 - k, k + 1) {
      LagsOfReversed(rev, h, k, lResp);
    }
    Reverse(phi, lResp);
  }

  /** The autocorrelation as the encoder computes it: reverse, filter by the response itself, reverse back, clear the rest. */
  method ComputePhi(h: seq<real>, fcbSubfrlen: nat) returns (phi: array<real>)
    requires Taps(h) && |h| <= MAX_LRESP && fcbSubfrlen <= MAX_SF
    ensures fresh(phi) && phi[..] == AutoOf(h)
  {
    hide LagSum;
    var lResp := |h|;
    var rev := ReversedResponse(h);
    phi := new real[MAX_SF](_ => 0.0);
    LagsInto(h, rev[..], phi);
    assert forall k :: lResp <= k < MAX_SF ==> phi[k] == phi[lResp..][k - lResp] == 0.0;
    var i := lResp;
    while i < fcbSubfrlen
      invariant lResp <= i <= Max(lResp, fcbSubfrlen)
      invariant forall k :: 0 <= k < lResp ==> phi[k] == LagSum(h, k, lResp - k)
      invariant forall k :: lResp <= k < MAX_SF ==> phi[k] == 0.0
    {
      phi[i] := 0.0;
      i := i + 1;
    }
  }

  // ---------------------------------------------------------------- the search on it

  /** What one search over a target d with response h comes to: the pulses, and the energy captured after each. */
  ghost predicate Searched(h: seq<real>, d: seq<real>, ps: seq<Pulse>, qs: seq<real>)
  {
    && Taps(h) && |h| <= MAX_LRESP && 0 < |d| <= MAX_SF && ps != []
    && Follows(ps, d) && PulsesFit(ps, |d|)
    && (forall i :: 0 <= i < |d| ==> AbsR(d[i]) <= AbsR(d[ps[0].pos]))
    && Greedy(AutoOf(h), ps, d) && ScoresOf(qs, AutoOf(h), ps, d)
  }

  /** The search on the tables that an impulse response gives. */
  method SearchWithResponse(h: seq<real>, d: seq<real>, priceMain: real, priceFec: real, maxMain: nat, maxFec: nat)
    returns (ps: seq<Pulse>, main: Rate, fec: Rate, ghost qs: seq<real>)
    requires Taps(h) && |h| <= MAX_LRESP && 0 < |d| <= MAX_SF
    ensures Searched(h, d, ps, qs) && |ps| == |qs| == (if maxMain > 1 then maxMain else 1)
    ensures Figures(main, AutoOf(h), ps, d) && Figures(fec, AutoOf(h), ps, d)
    ensures main.nPulses == Settled(MainPick(qs, priceMain, |qs|)) && fec.nPulses == Settled(FecPick(qs, priceMain, priceFec, maxFec, |qs|))
  {
    hide Figures, Greedy, NonNegative, Flipped, MainPick, FecPick, AutoOf, Follows;
    var phi := ComputePhi(h, |d|);
    AutocorrelationNonNegative(phi[..], h, |d|);
    var phiFlip := FlipPhi(phi[..], |h|);
    ps, main, fec, qs := FcbSearch(d, phiFlip[..], phi[..], |h|, priceMain, priceFec, maxMain, maxFec);
  }
}
