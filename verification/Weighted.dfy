/** Exponentially weighted sums of real sequences, the common core of the optimizer state. */
module Weighted {

  function Pow(b: real, n: nat): real {
    if n == 0 then 1.0 else b * Pow(b, n - 1)
  }

  /** The sum of b^(n-1-i) * xs[i]: the newest entry has weight 1. */
  ghost function WeightedSum(b: real, xs: seq<real>): real {
    if xs == [] then 0.0 else Pow(b, |xs| - 1) * xs[0] + WeightedSum(b, xs[1..])
  }

  function Abs(x: real): real {
    if x < 0.0 then -x else x
  }

  ghost predicate Bounded(xs: seq<real>, g: real) {
    forall i :: 0 <= i < |xs| ==> Abs(xs[i]) <= g
  }

  ghost function Squares(xs: seq<real>): (r: seq<real>)
    ensures |r| == |xs|
  {
    seq(|xs|, i requires 0 <= i < |xs| => xs[i] * xs[i])
  }

  lemma MulLe(a: real, b: real, c: real)
    requires a <= b && 0.0 <= c
    ensures a * c <= b * c && c * a <= c * b
  {
  }

  lemma MulAssoc(a: real, b: real, c: real)
    ensures (a * b) * c == a * (b * c)
  {
  }

  lemma Distribute(a: real, b: real, c: real)
    ensures a * (b + c) == a * b + a * c && a * (b - c) == a * b - a * c
  {
  }

  /** Appending an entry discounts everything before it: the recurrence the optimizers run. */
  lemma {:induction false} WeightedSumAppend(b: real, xs: seq<real>, x: real)
    ensures WeightedSum(b, xs + [x]) == b * WeightedSum(b, xs) + x
  {
    if xs == [] {
      assert ([] + [x])[1..] == [];
      assert [] + [x] == [x];
    } else {
      assert (xs + [x])[1..] == xs[1..] + [x];
      WeightedSumAppend(b, xs[1..], x);
      MulAssoc(b, Pow(b, |xs| - 1), xs[0]);
      Distribute(b, Pow(b, |xs| - 1) * xs[0], WeightedSum(b, xs[1..]));
    }
  }

  lemma SquaresAppend(xs: seq<real>, x: real)
    ensures Squares(xs + [x]) == Squares(xs) + [x * x]
  {
    var l, r := Squares(xs + [x]), Squares(xs) + [x * x];
    forall i | 0 <= i < |l|
      ensures l[i] == r[i]
    {
      assert (xs + [x])[i] == if i < |xs| then xs[i] else x;
    }
  }

  lemma MulPos(a: real, b: real)
    requires a > 0.0 && b > 0.0
    ensures a * b > 0.0
  {
  }

  /** The same with the products named, which keeps the solver on linear ground. */
  lemma ProductsLe(a: real, b: real, c: real, ac: real, bc: real)
    requires a <= b && 0.0 <= c && ac == a * c && bc == b * c
    ensures ac <= bc
  {
    MulLe(a, b, c);
  }

  lemma ScaleRange(b: real, q: real, p: real)
    requires 0.0 <= b < 1.0 && 0.0 <= q <= 1.0 && p == b * q
    ensures 0.0 <= p <= b && p <= q
    ensures b > 0.0 && q > 0.0 ==> p > 0.0
  {
    ProductsLe(b, 1.0, q, p, q);
    ProductsLe(q, 1.0, b, p, b);
    ProductsLe(0.0, q, b, 0.0, p);
    if b > 0.0 && q > 0.0 {
      MulPos(b, q);
    }
  }

  lemma {:induction false} PowRange(b: real, n: nat)
    requires 0.0 <= b < 1.0
    ensures 0.0 <= Pow(b, n) <= 1.0
    ensures n > 0 ==> Pow(b, n) <= b
    ensures b > 0.0 ==> Pow(b, n) > 0.0
  {
    if n > 0 {
      PowRange(b, n - 1);
      PowStep(b, n, Pow(b, n - 1));
    }
  }

  lemma PowUnfold(b: real, n: nat, q: real, p: real)
    requires n > 0 && q == Pow(b, n - 1) && p == Pow(b, n)
    ensures p == b * q
  {
  }

  lemma PowStep(b: real, n: nat, q: real)
    requires 0.0 <= b < 1.0 && n > 0 && q == Pow(b, n - 1) && 0.0 <= q <= 1.0
    ensures 0.0 <= Pow(b, n) <= b && Pow(b, n) <= q
    ensures b > 0.0 && q > 0.0 ==> Pow(b, n) > 0.0
  {
    hide Pow;
    PowUnfold(b, n, q, Pow(b, n));
    ScaleRange(b, q, Pow(b, n));
  }

  lemma {:induction false} PowDecreases(b: real, k: nat, n: nat)
    requires 0.0 <= b < 1.0 && k <= n
    ensures Pow(b, n) <= Pow(b, k)
    decreases n
  {
    if k < n {
      PowRange(b, n - 1);
      PowStep(b, n, Pow(b, n - 1));
      PowDecreases(b, k, n - 1);
    }
  }

  lemma Unfold(b: real, xs: seq<real>, sum: real, p: real, rest: real, w: real)
    requires sum == WeightedSum(b, xs) && p == Pow(b, |xs|)
    requires xs != [] ==> rest == WeightedSum(b, xs[1..]) && w == Pow(b, |xs[1..]|)
    ensures xs == [] ==> sum == 0.0 && p == 1.0
    ensures xs != [] ==> sum == w * xs[0] + rest && p == b * w
  {
  }

  lemma Weight(a: real, w: real) returns (c: real)
    requires 0.0 <= a && 0.0 <= w
    ensures c == a * w && 0.0 <= c
  {
    c := a * w;
  }

  lemma GeometricStep(b: real, w: real, x: real, rest: real, g: real, sum: real, p: real)
    requires 0.0 <= b < 1.0 && 0.0 <= w && Abs(x) <= g
    requires Abs((1.0 - b) * rest) <= (1.0 - w) * g
    requires sum == w * x + rest && p == b * w
    ensures Abs((1.0 - b) * sum) <= (1.0 - p) * g
  {
    var c := Weight(1.0 - b, w);
    MulLe(x, g, c);
    MulLe(-g, x, c);
    assert (1.0 - b) * (w * x + rest) == c * x + (1.0 - b) * rest;
    assert (1.0 - b * w) * g == (1.0 - w) * g + c * g;
  }

  /** Bounded entries give a sum below the geometric series, with its exact finite-length factor. */
  lemma {:induction false} GeometricBound(b: real, xs: seq<real>, g: real, sum: real, p: real)
    requires 0.0 <= b < 1.0 && Bounded(xs, g)
    requires sum == WeightedSum(b, xs) && p == Pow(b, |xs|)
    ensures Abs((1.0 - b) * sum) <= (1.0 - p) * g
    decreases |xs|
  {
    hide Pow, WeightedSum;
    if xs == [] {
      Unfold(b, xs, sum, p, 0.0, 0.0);
      return;
    }
    var tail := xs[1..];
    var rest, w := WeightedSum(b, tail), Pow(b, |tail|);
    Unfold(b, xs, sum, p, rest, w);
    PowRange(b, |tail|);
    GeometricBound(b, tail, g, rest, w);
    GeometricStep(b, w, xs[0], rest, g, sum, p);
  }

  lemma {:induction false} ConstantSum(b: real, xs: seq<real>, g: real)
    requires forall i :: 0 <= i < |xs| ==> xs[i] == g
    ensures (1.0 - b) * WeightedSum(b, xs) == (1.0 - Pow(b, |xs|)) * g
  {
    if xs != [] {
      var w, rest := Pow(b, |xs| - 1), WeightedSum(b, xs[1..]);
      ConstantSum(b, xs[1..], g);
      assert (1.0 - b) * (w * g + rest) == (1.0 - b) * w * g + (1.0 - b) * rest;
      assert (1.0 - w) * g + (1.0 - b) * w * g == (1.0 - b * w) * g;
    }
  }

  lemma {:induction false} NonNegativeSum(b: real, xs: seq<real>)
    requires 0.0 <= b && forall i :: 0 <= i < |xs| ==> xs[i] >= 0.0
    ensures WeightedSum(b, xs) >= 0.0
  {
    if xs != [] {
      NonNegativeSum(b, xs[1..]);
      PowNonNegative(b, |xs| - 1);
      MulLe(0.0, xs[0], Pow(b, |xs| - 1));
    }
  }

  lemma {:induction false} PowNonNegative(b: real, n: nat)
    requires 0.0 <= b
    ensures Pow(b, n) >= 0.0
  {
    if n > 0 {
      PowNonNegative(b, n - 1);
      MulLe(0.0, b, Pow(b, n - 1));
    }
  }

  /** 1 + a + ... + a^(n-1). */
  function Powers(a: real, n: nat): real {
    if n == 0 then 0.0 else 1.0 + a * Powers(a, n - 1)
  }

  lemma PowersUnfold(a: real, n: nat, s: real, t: real)
    requires n > 0 && s == Powers(a, n - 1) && t == Powers(a, n)
    ensures t == 1.0 + a * s
  {
  }

  /** Without amplification n powers sum to at most n. */
  lemma {:induction false} PowersAtMost(a: real, n: nat)
    requires 0.0 <= a <= 1.0
    ensures 0.0 <= Powers(a, n) <= n as real
  {
    if n > 0 {
      PowersAtMost(a, n - 1);
      ProductsLe(0.0, a, Powers(a, n - 1), 0.0, a * Powers(a, n - 1));
      ProductsLe(a, 1.0, Powers(a, n - 1), a * Powers(a, n - 1), Powers(a, n - 1));
    }
  }

  lemma AbsProduct(a: real, b: real)
    ensures Abs(a * b) == Abs(a) * Abs(b)
  {
    if a < 0.0 {
      MulLe(a, 0.0, Abs(b));
      assert -a * b == -(a * b);
    }
    SignedProduct(a, b, a * b);
  }

  lemma SignedProduct(a: real, b: real, ab: real)
    requires ab == a * b
    ensures a >= 0.0 && b >= 0.0 ==> ab >= 0.0
    ensures a <= 0.0 && b <= 0.0 ==> ab >= 0.0
    ensures a >= 0.0 && b <= 0.0 ==> ab <= 0.0
    ensures a <= 0.0 && b >= 0.0 ==> ab <= 0.0
  {
  }
}
