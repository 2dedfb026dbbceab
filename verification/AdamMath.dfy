/**
 The Adam recurrences (python/metal_native/optim/adam.py) for one coordinate, as functions of the
 sequence of gradients that reached it, and the bounds they satisfy.
 */
module AdamMath {
  import opened Weighted

  datatype Moments = Moments(m: real, v: real, vMax: real)

  const ZERO_MOMENTS := Moments(0.0, 0.0, 0.0)

  function Max(a: real, b: real): real {
    if a < b then b else a
  }

  /** One update with effective gradient g. */
  function NextMoments(beta1: real, beta2: real, mo: Moments, g: real): Moments {
    var v := beta2 * mo.v + (1.0 - beta2) * (g * g);
    Moments(beta1 * mo.m + (1.0 - beta1) * g, v, Max(mo.vMax, v))
  }

  /** The exponentially weighted mean (without bias correction). */
  ghost function Mean(b: real, xs: seq<real>): real {
    (1.0 - b) * WeightedSum(b, xs)
  }

  ghost function SecondMoment(beta2: real, gs: seq<real>): real {
    Mean(beta2, Squares(gs))
  }

  /** The largest second moment over all prefixes of the gradients. */
  ghost function MaxSecondMoment(beta2: real, gs: seq<real>): real {
    if gs == [] then 0.0 else Max(MaxSecondMoment(beta2, gs[..|gs| - 1]), SecondMoment(beta2, gs))
  }

  ghost function MomentsOf(beta1: real, beta2: real, gs: seq<real>): Moments {
    Moments(Mean(beta1, gs), SecondMoment(beta2, gs), MaxSecondMoment(beta2, gs))
  }

  predicate ValidBeta(b: real) {
    0.0 <= b < 1.0
  }

  lemma ScaledAppend(b: real, w: real, x: real)
    ensures (1.0 - b) * (b * w + x) == b * ((1.0 - b) * w) + (1.0 - b) * x
  {
  }

  lemma MeanAppend(b: real, xs: seq<real>, x: real)
    ensures Mean(b, xs + [x]) == b * Mean(b, xs) + (1.0 - b) * x
  {
    hide WeightedSum;
    WeightedSumAppend(b, xs, x);
    ScaledAppend(b, WeightedSum(b, xs), x);
  }

  lemma NoGradients(beta1: real, beta2: real)
    ensures MomentsOf(beta1, beta2, []) == ZERO_MOMENTS
  {
    assert Squares([]) == [];
  }

  /** The recurrence keeps the closed forms: exponentially weighted means of g and of g^2. */
  lemma RecurrenceIsClosedForm(beta1: real, beta2: real, gs: seq<real>, g: real)
    ensures MomentsOf(beta1, beta2, gs + [g]) == NextMoments(beta1, beta2, MomentsOf(beta1, beta2, gs), g)
  {
    hide Mean;
    assert (gs + [g])[..|gs + [g]| - 1] == gs;
    SquaresAppend(gs, g);
    MeanAppend(beta1, gs, g);
    MeanAppend(beta2, Squares(gs), g * g);
  }

  // ---------------------------------------------------------------- signs and bias correction

  lemma {:induction false} SecondMomentSign(beta2: real, gs: seq<real>)
    requires ValidBeta(beta2)
    ensures 0.0 <= SecondMoment(beta2, gs) <= MaxSecondMoment(beta2, gs)
  {
    SquaresNonNegative(gs);
    NonNegativeSum(beta2, Squares(gs));
    MulLe(0.0, WeightedSum(beta2, Squares(gs)), 1.0 - beta2);
    if gs == [] {
      assert Squares(gs) == [];
    }
  }

  lemma SquaresNonNegative(gs: seq<real>)
    ensures forall i :: 0 <= i < |gs| ==> Squares(gs)[i] >= 0.0
  {
  }

  lemma SquaresBounded(gs: seq<real>, bound: real)
    requires Bounded(gs, bound)
    ensures Bounded(Squares(gs), bound * bound)
  {
    forall i | 0 <= i < |gs|
      ensures Abs(Squares(gs)[i]) <= bound * bound
    {
      SquareLe(gs[i], bound);
    }
  }

  lemma SquareLe(x: real, bound: real)
    requires Abs(x) <= bound
    ensures 0.0 <= x * x <= bound * bound
  {
    MulLe(Abs(x), bound, Abs(x));
    MulLe(Abs(x), bound, bound);
    assert Abs(x) * Abs(x) == x * x;
  }

  /** The bias-corrected mean of k entries, corrected for n >= k steps, stays within the entries' bound. */
  lemma CorrectedMean(b: real, xs: seq<real>, bound: real, n: nat, x: real, d: real)
    requires ValidBeta(b) && Bounded(xs, bound) && 0.0 <= bound && |xs| <= n && n > 0
    requires x == Mean(b, xs) && d == 1.0 - Pow(b, n)
    ensures d > 0.0 && Abs(x / d) <= bound
  {
    hide *;
    var p := CorrectionFactors(b, |xs|, n, d);
    MeanBound(b, xs, bound, x, p);
    ScaledBound(x, 1.0 - p, d, bound);
  }

  lemma CorrectionFactors(b: real, k: nat, n: nat, d: real) returns (p: real)
    requires ValidBeta(b) && k <= n && n > 0 && d == 1.0 - Pow(b, n)
    ensures p == Pow(b, k) && 1.0 - p <= d && 0.0 < d
  {
    PowDecreases(b, k, n);
    PowRange(b, n);
    p := Pow(b, k);
  }

  lemma MeanBound(b: real, xs: seq<real>, bound: real, x: real, p: real)
    requires ValidBeta(b) && Bounded(xs, bound)
    requires x == Mean(b, xs) && p == Pow(b, |xs|)
    ensures Abs(x) <= (1.0 - p) * bound
  {
    hide Abs, Bounded, Mean, Pow, WeightedSum;
    var sum := OpenMean(b, xs, x);
    GeometricBound(b, xs, bound, sum, p);
  }

  lemma OpenMean(b: real, xs: seq<real>, x: real) returns (sum: real)
    requires x == Mean(b, xs)
    ensures sum == WeightedSum(b, xs) && x == (1.0 - b) * sum
  {
    sum := WeightedSum(b, xs);
  }

  lemma ScaledBound(x: real, c: real, d: real, bound: real)
    requires Abs(x) <= c * bound && c <= d && 0.0 < d && 0.0 <= bound
    ensures Abs(x / d) <= bound
  {
    MulLe(c, d, bound);
    DivBound(x, d, bound);
  }

  lemma DivBound(x: real, d: real, bound: real)
    requires d > 0.0 && Abs(x) <= d * bound
    ensures Abs(x / d) <= bound
  {
    var q := x / d;
    assert q * d == x;
    if q > bound {
      MulLt(bound, q, d);
    } else if -q > bound {
      MulLt(q, -bound, d);
    }
  }

  lemma MulLt(a: real, b: real, c: real)
    requires a < b && 0.0 < c
    ensures a * c < b * c
  {
  }

  /** The same for the largest second moment: every prefix obeys the bound of the whole. */
  lemma {:induction false} MaxSecondBound(beta2: real, gs: seq<real>, bound: real, n: nat, d: real, sq: real)
    requires ValidBeta(beta2) && Bounded(gs, bound) && |gs| <= n && n > 0
    requires d == 1.0 - Pow(beta2, n) && sq == bound * bound
    ensures d > 0.0 && MaxSecondMoment(beta2, gs) <= d * sq
    decreases |gs|
  {
    hide Pow, Mean, Abs;
    var p := CorrectionFactors(beta2, |gs|, n, d);
    SecondBound(beta2, gs, bound, p, sq);
    PositiveScale(1.0 - p, d, sq);
    if gs == [] {
      assert MaxSecondMoment(beta2, gs) == 0.0;
    } else {
      MaxSecondBound(beta2, gs[..|gs| - 1], bound, n, d, sq);
      assert MaxSecondMoment(beta2, gs[..|gs| - 1]) <= d * sq;
      assert SecondMoment(beta2, gs) <= d * sq;
      assert MaxSecondMoment(beta2, gs) == Max(MaxSecondMoment(beta2, gs[..|gs| - 1]), SecondMoment(beta2, gs));
    }
  }

  lemma SecondBound(beta2: real, gs: seq<real>, bound: real, p: real, sq: real)
    requires ValidBeta(beta2) && Bounded(gs, bound) && p == Pow(beta2, |gs|) && sq == bound * bound
    ensures SecondMoment(beta2, gs) <= (1.0 - p) * sq && 0.0 <= sq
  {
    hide Mean, Pow;
    SquaresBounded(gs, bound);
    SquareLe(bound, Abs(bound));
    MeanBound(beta2, Squares(gs), sq, SecondMoment(beta2, gs), p);
  }

  lemma PositiveScale(c: real, d: real, sq: real)
    requires c <= d && 0.0 < d && 0.0 <= sq
    ensures c * sq <= d * sq && 0.0 <= d * sq
  {
    MulLe(c, d, sq);
    MulLe(0.0, sq, d);
  }

  // ---------------------------------------------------------------- constant gradients

  ghost predicate Constant(gs: seq<real>, g: real) {
    forall i :: 0 <= i < |gs| ==> gs[i] == g
  }

  lemma ConstantMean(b: real, xs: seq<real>, g: real)
    requires Constant(xs, g)
    ensures Mean(b, xs) == (1.0 - Pow(b, |xs|)) * g
  {
    ConstantSum(b, xs, g);
  }

  /** Under a constant gradient the second moment grows towards g^2, so its maximum is its last value. */
  lemma {:induction false} ConstantMax(beta2: real, gs: seq<real>, g: real)
    requires ValidBeta(beta2) && Constant(gs, g)
    ensures MaxSecondMoment(beta2, gs) == SecondMoment(beta2, gs)
    decreases |gs|
  {
    hide Mean, SecondMoment;
    if gs == [] {
      EmptySecond(beta2);
    } else {
      var init := gs[..|gs| - 1];
      ConstantMax(beta2, init, g);
      ConstantGrows(beta2, init, gs, g);
      assert MaxSecondMoment(beta2, gs) == Max(MaxSecondMoment(beta2, init), SecondMoment(beta2, gs));
    }
  }

  lemma EmptySecond(beta2: real)
    ensures SecondMoment(beta2, []) == 0.0 && MaxSecondMoment(beta2, []) == 0.0
  {
    assert Squares([]) == [];
  }

  lemma ConstantGrows(beta2: real, shorter: seq<real>, longer: seq<real>, g: real)
    requires ValidBeta(beta2) && Constant(shorter, g) && Constant(longer, g) && |shorter| <= |longer|
    ensures SecondMoment(beta2, shorter) <= SecondMoment(beta2, longer)
  {
    hide Pow, SecondMoment;
    var sq := g * g;
    ConstantSecond(beta2, shorter, g, sq);
    ConstantSecond(beta2, longer, g, sq);
    PowDecreases(beta2, |shorter|, |longer|);
    SquareLe(g, Abs(g));
    MulLe(1.0 - Pow(beta2, |shorter|), 1.0 - Pow(beta2, |longer|), sq);
  }

  lemma ConstantSecond(beta2: real, gs: seq<real>, g: real, sq: real)
    requires Constant(gs, g) && sq == g * g
    ensures SecondMoment(beta2, gs) == (1.0 - Pow(beta2, |gs|)) * sq
  {
    hide Pow, Mean;
    assert Constant(Squares(gs), sq);
    ConstantMean(beta2, Squares(gs), sq);
  }

  lemma ZeroSplits(b: real, v: real, g: real)
    requires 0.0 < b < 1.0 && 0.0 <= v && b * v + (1.0 - b) * (g * g) <= 0.0
    ensures v == 0.0 && g == 0.0
  {
    if v > 0.0 {
      MulPos(b, v);
    } else {
      assert b * v == 0.0;
    }
    SquareLe(g, Abs(g));
    MulLe(0.0, g * g, 1.0 - b);
    if g != 0.0 {
      var sq := Square(Abs(g));
      assert sq == g * g;
      MulPos(1.0 - b, sq);
    }
  }

  /** The second moment vanishes only if every gradient did. */
  lemma {:induction false} ZeroSecondMoment(beta2: real, gs: seq<real>)
    requires 0.0 < beta2 < 1.0 && SecondMoment(beta2, gs) == 0.0
    ensures Constant(gs, 0.0)
    decreases |gs|
  {
    hide Mean;
    if gs != [] {
      var init, g := gs[..|gs| - 1], gs[|gs| - 1];
      assert init + [g] == gs;
      SquaresAppend(init, g);
      MeanAppend(beta2, Squares(init), g * g);
      SecondMomentSign(beta2, init);
      ZeroSplits(beta2, SecondMoment(beta2, init), g);
      ZeroSecondMoment(beta2, init);
    }
  }

  // ---------------------------------------------------------------- the moment ratio

  /** (1 - beta1)^2 / ((1 - beta2) * (1 - beta1^2 / beta2)), the C of m^2 <= C * v. */
  function RatioBound(beta1: real, beta2: real): real
    requires ValidBeta(beta2) && beta1 * beta1 < beta2
  {
    MulPos(1.0 - beta2, beta2 - beta1 * beta1);
    (1.0 - beta1) * (1.0 - beta1) * beta2 / ((1.0 - beta2) * (beta2 - beta1 * beta1))
  }

  lemma Square(x: real) returns (sq: real)
    requires x > 0.0
    ensures sq == x * x && sq > 0.0
  {
    sq := PositiveProduct(x, x);
  }

  lemma PositiveProduct(a: real, b: real) returns (p: real)
    requires a > 0.0 && b > 0.0
    ensures p == a * b && p > 0.0
  {
    MulPos(a, b);
    p := a * b;
  }

  lemma Quotient(n: real, d: real)
    requires 0.0 <= n && 0.0 < d
    ensures n / d * d == n && 0.0 <= n / d
  {
  }

  /** The defining equation of the bound, free of division. */
  ghost predicate IsRatioBound(beta1: real, beta2: real, c: real) {
    c >= 0.0 && c * (1.0 - beta2) * (beta2 - beta1 * beta1) == (1.0 - beta1) * (1.0 - beta1) * beta2
  }

  lemma ClearQuotient(n: real, d: real, e: real, c: real)
    requires 0.0 <= n && 0.0 < d && 0.0 < e && c == n / (d * e)
    ensures 0.0 <= c && c * d * e == n
  {
    MulPos(d, e);
    Quotient(n, d * e);
    MulAssoc(c, d, e);
  }

  lemma RatioBoundCleared(beta1: real, beta2: real)
    requires ValidBeta(beta1) && ValidBeta(beta2) && beta1 * beta1 < beta2
    ensures IsRatioBound(beta1, beta2, RatioBound(beta1, beta2))
  {
    var sq := Square(1.0 - beta1);
    MulLe(0.0, sq, beta2);
    ClearQuotient(sq * beta2, 1.0 - beta2, beta2 - beta1 * beta1, RatioBound(beta1, beta2));
  }

  /** Cauchy-Schwarz for one step from (m, v) to (mm, vv), with denominators cleared. */
  lemma RatioStep(b1: real, b2: real, c: real, m: real, v: real, g: real, mm: real, vv: real)
    requires ValidBeta(b1) && ValidBeta(b2) && b1 * b1 < b2
    requires IsRatioBound(b1, b2, c)
    requires mm == b1 * m + (1.0 - b1) * g && vv == b2 * v + (1.0 - b2) * (g * g)
    requires m * m <= c * v
    ensures mm * mm <= c * vv
  {
    var low := StepLow(b2, c, m, v, g, vv);
    StepSquare(b1, b2, c * (1.0 - b2), m, g, mm, low);
  }

  lemma StepLow(b2: real, c: real, m: real, v: real, g: real, vv: real) returns (low: real)
    requires 0.0 <= b2 && m * m <= c * v && vv == b2 * v + (1.0 - b2) * (g * g)
    ensures low == b2 * (m * m) + c * (1.0 - b2) * (g * g) && low <= c * vv
  {
    low := b2 * (m * m) + c * (1.0 - b2) * (g * g);
    MulLe(m * m, c * v, b2);
    assert c * (b2 * v + (1.0 - b2) * (g * g)) == b2 * (c * v) + c * (1.0 - b2) * (g * g);
  }

  lemma StepSquare(b1: real, b2: real, k: real, m: real, g: real, mm: real, low: real)
    requires b1 * b1 < b2 && k * (b2 - b1 * b1) == (1.0 - b1) * (1.0 - b1) * b2
    requires mm == b1 * m + (1.0 - b1) * g && low == b2 * (m * m) + k * (g * g)
    ensures mm * mm <= low
  {
    SquareIdentity(b1, b2, b2 - b1 * b1, 1.0 - b1, k, m, g, mm, low);
    CancelLe(mm * mm, low, b2 - b1 * b1);
  }

  lemma CancelLe(a: real, b: real, d: real)
    requires d > 0.0 && d * a <= d * b
    ensures a <= b
  {
    if a > b {
      MulLt(b, a, d);
    }
  }

  lemma SquareIdentity(b1: real, b2: real, d: real, a: real, k: real, m: real, g: real, mm: real, low: real)
    requires d == b2 - b1 * b1 && k * d == a * a * b2
    requires mm == b1 * m + a * g && low == b2 * (m * m) + k * (g * g)
    ensures d * (mm * mm) <= d * low
  {
    var root := d * m - b1 * a * g;
    assert d * (b2 * (m * m) + k * (g * g)) == d * b2 * (m * m) + k * d * (g * g);
    assert b2 == d + b1 * b1;
    assert d * ((b1 * m + a * g) * (b1 * m + a * g)) == d * b1 * b1 * (m * m) + 2.0 * d * b1 * a * m * g + d * a * a * (g * g);
    assert root * root == d * d * (m * m) - 2.0 * d * b1 * a * m * g + b1 * b1 * a * a * (g * g);
    SquareLe(root, Abs(root));
  }

  ghost predicate Admissible(beta1: real, beta2: real) {
    ValidBeta(beta1) && ValidBeta(beta2) && beta1 * beta1 < beta2
  }

  ghost predicate RatioHolds(mo: Moments, c: real) {
    mo.m * mo.m <= c * mo.v && mo.m * mo.m <= c * mo.vMax
  }

  lemma RatioNext(beta1: real, beta2: real, prev: Moments, g: real, c: real)
    requires Admissible(beta1, beta2) && IsRatioBound(beta1, beta2, c) && RatioHolds(prev, c)
    ensures RatioHolds(NextMoments(beta1, beta2, prev, g), c)
  {
    hide RatioHolds, IsRatioBound;
    var mo := NextMoments(beta1, beta2, prev, g);
    RatioFacts(prev, c, beta1, beta2);
    RatioStep(beta1, beta2, c, prev.m, prev.v, g, mo.m, mo.v);
    RatioFromSecond(mo, c);
  }

  lemma RatioFacts(mo: Moments, c: real, beta1: real, beta2: real)
    requires RatioHolds(mo, c) && IsRatioBound(beta1, beta2, c)
    ensures mo.m * mo.m <= c * mo.v && 0.0 <= c
  {
  }

  lemma RatioFromSecond(mo: Moments, c: real)
    requires mo.m * mo.m <= c * mo.v && mo.v <= mo.vMax && 0.0 <= c
    ensures RatioHolds(mo, c)
  {
    MulLe(mo.v, mo.vMax, c);
  }

  lemma RatioStart(c: real)
    ensures RatioHolds(ZERO_MOMENTS, c)
  {
  }

  /** Whatever the gradients, the first moment squared is bounded by a fixed multiple of the second. */
  lemma {:induction false} MomentRatio(beta1: real, beta2: real, gs: seq<real>, c: real)
    requires Admissible(beta1, beta2) && IsRatioBound(beta1, beta2, c)
    ensures RatioHolds(MomentsOf(beta1, beta2, gs), c)
    decreases |gs|
  {
    hide *;
    if gs == [] {
      NoGradients(beta1, beta2);
      RatioStart(c);
    } else {
      var init, g := gs[..|gs| - 1], gs[|gs| - 1];
      assert init + [g] == gs;
      MomentRatio(beta1, beta2, init, c);
      RecurrenceIsClosedForm(beta1, beta2, init, g);
      RatioNext(beta1, beta2, MomentsOf(beta1, beta2, init), g, c);
    }
  }

  // ---------------------------------------------------------------- AMSGrad

  lemma SecondAppend(beta2: real, gs: seq<real>, sq: real, before: real)
    requires gs != [] && sq == gs[|gs| - 1] * gs[|gs| - 1] && before == SecondMoment(beta2, gs[..|gs| - 1])
    ensures SecondMoment(beta2, gs) == beta2 * before + (1.0 - beta2) * sq
  {
    hide Mean;
    var init, g := gs[..|gs| - 1], gs[|gs| - 1];
    assert init + [g] == gs;
    SquaresAppend(init, g);
    assert Squares(gs) == Squares(init) + [sq];
    assert before == Mean(beta2, Squares(init));
    MeanAppend(beta2, Squares(init), sq);
  }

  /** The newest square enters the second moment with weight 1 - beta2. */
  lemma LastSquare(beta2: real, gs: seq<real>, sq: real)
    requires ValidBeta(beta2) && gs != [] && sq == gs[|gs| - 1] * gs[|gs| - 1]
    ensures (1.0 - beta2) * sq <= SecondMoment(beta2, gs)
    ensures beta2 == 0.0 ==> SecondMoment(beta2, gs) == sq
  {
    hide SecondMoment, MaxSecondMoment;
    var before := SecondMoment(beta2, gs[..|gs| - 1]);
    SecondAppend(beta2, gs, sq, before);
    SecondMomentSign(beta2, gs[..|gs| - 1]);
    MulLe(0.0, before, beta2);
  }

  /** The largest second moment remembers every gradient for good. */
  lemma {:induction false} MaxCoversEach(beta2: real, gs: seq<real>, i: nat, sq: real)
    requires ValidBeta(beta2) && i < |gs| && sq == gs[i] * gs[i]
    ensures (1.0 - beta2) * sq <= MaxSecondMoment(beta2, gs)
    decreases |gs|
  {
    hide SecondMoment;
    if i < |gs| - 1 {
      MaxCoversEach(beta2, gs[..|gs| - 1], i, sq);
    } else {
      LastSquare(beta2, gs, sq);
    }
  }

  lemma {:induction false} Largest(gs: seq<real>) returns (i: nat)
    requires gs != []
    ensures i < |gs| && Bounded(gs, Abs(gs[i]))
  {
    if |gs| == 1 {
      return 0;
    }
    var j := Largest(gs[1..]);
    i := if Abs(gs[0]) > Abs(gs[j + 1]) then 0 else j + 1;
    forall k | 0 <= k < |gs|
      ensures Abs(gs[k]) <= Abs(gs[i])
    {
      assert k > 0 ==> Abs(gs[1..][k - 1]) <= Abs(gs[1..][j]);
    }
  }

  /** Against AMSGrad's maximum the first moment is bounded for all betas: (1 - beta2) * m^2 <= vMax. */
  lemma AmsgradRatio(beta1: real, beta2: real, gs: seq<real>)
    requires ValidBeta(beta1) && ValidBeta(beta2)
    ensures var mo := MomentsOf(beta1, beta2, gs); (1.0 - beta2) * (mo.m * mo.m) <= mo.vMax
  {
    hide Mean, SecondMoment, MaxSecondMoment;
    if gs == [] {
      NoGradients(beta1, beta2);
    } else {
      var i := Largest(gs);
      MaxCoversEach(beta2, gs, i, gs[i] * gs[i]);
      MeanWithin(beta1, gs, Abs(gs[i]), Mean(beta1, gs));
      ScaledSquare(1.0 - beta2, Mean(beta1, gs), gs[i], MaxSecondMoment(beta2, gs));
    }
  }

  lemma MeanWithin(b: real, xs: seq<real>, bound: real, x: real)
    requires ValidBeta(b) && 0.0 <= bound && Bounded(xs, bound) && x == Mean(b, xs)
    ensures Abs(x) <= bound
  {
    hide Mean, Bounded, Pow;
    MeanBound(b, xs, bound, x, Pow(b, |xs|));
    PowNonNegative(b, |xs|);
    MulLe(1.0 - Pow(b, |xs|), 1.0, bound);
  }

  lemma ScaledSquare(d: real, m: real, g: real, v: real)
    requires 0.0 <= d && Abs(m) <= Abs(g) && d * (g * g) <= v
    ensures d * (m * m) <= v
  {
    SquareLe(m, Abs(g));
    MulLe(m * m, g * g, d);
  }

  /** Without memory in the first moment it is the newest gradient, which v covers. */
  lemma MemorylessRatio(beta2: real, gs: seq<real>)
    requires ValidBeta(beta2)
    ensures var mo := MomentsOf(0.0, beta2, gs); (1.0 - beta2) * (mo.m * mo.m) <= mo.v
  {
    hide Mean, SecondMoment, MaxSecondMoment;
    if gs == [] {
      NoGradients(0.0, beta2);
    } else {
      var g := gs[|gs| - 1];
      MemorylessMean(gs);
      LastSquare(beta2, gs, g * g);
    }
  }

  lemma MemorylessMean(gs: seq<real>)
    ensures Mean(0.0, gs) == if gs == [] then 0.0 else gs[|gs| - 1]
  {
    hide WeightedSum;
    if gs == [] {
      NoGradients(0.0, 0.0);
    } else {
      assert gs[..|gs| - 1] + [gs[|gs| - 1]] == gs;
      MeanAppend(0.0, gs[..|gs| - 1], gs[|gs| - 1]);
    }
  }

  // ---------------------------------------------------------------- the step size

  lemma SquareMono(a: real, b: real)
    requires 0.0 <= a <= b
    ensures a * a <= b * b
  {
    MulLe(a, b, a);
    MulLe(a, b, b);
  }

  lemma Corrected(m: real, v: real, p1: real, p2: real, mh: real, vh: real, c: real)
    requires m * m <= c * v && 0.0 < p1 && 0.0 < p2 <= 1.0 && 0.0 <= c && 0.0 <= v
    requires mh == m / p1 && vh == v / p2
    ensures 0.0 <= vh && mh * mh * (p1 * p1) <= c * vh
  {
    assert mh * p1 == m && vh * p2 == v;
    assert mh * mh * (p1 * p1) == (mh * p1) * (mh * p1);
    Quotient(v, p2);
    MulLe(p2, 1.0, vh);
    MulLe(v, vh, c);
  }

  /** A step of size u = (m / p1) / (sqrt(v / p2) + eps) is bounded by the moment ratio alone. */
  lemma StepBounded(c: real, mh: real, vh: real, q: real, s: real, den: real, u: real)
    requires 0.0 <= c && mh * mh * q <= c * vh && 0.0 <= q
    requires 0.0 <= s <= den && s * s == vh && den > 0.0 && u == mh / den
    ensures u * u * q <= c
  {
    var dd := PositiveProduct(den, den);
    SquareMono(s, den);
    MulLe(vh, dd, c);
    assert u * den == mh;
    assert (u * u * q) * dd == mh * mh * q;
    CancelLe(u * u * q, c, dd);
  }

  // ---------------------------------------------------------------- when a bound exists at all

  ghost predicate SecondBounds(mo: Moments, c: real) {
    mo.m * mo.m <= c * mo.v
  }

  ghost predicate UniformBound(beta1: real, beta2: real, c: real) {
    forall gs :: SecondBounds(MomentsOf(beta1, beta2, gs), c)
  }

  /** The gradient that raises the ratio most. */
  lemma BestGradient(p: real, q: real, a: real, b: real) returns (g: real)
    requires p > 0.0 && q > 0.0 && a > 0.0 && b > 0.0
    ensures g > 0.0 && g * (q * a) == p * b
  {
    MulPos(q, a);
    MulPos(p, b);
    g := p * b / (q * a);
    Quotient(p * b, q * a);
    if g <= 0.0 {
      MulLe(g, 0.0, q * a);
    }
  }

  /** With that gradient the new ratio is a^2/p + b^2/q. */
  lemma BestRatio(p: real, q: real, a: real, b: real, g: real, mm: real, vv: real, s: real, qp: real)
    requires p > 0.0 && q > 0.0 && a > 0.0 && g * (q * a) == p * b && qp == q * p
    requires mm == a + b * g && vv == p + q * (g * g) && s == q * (a * a) + b * b * p
    ensures mm * mm * qp == s * vv
  {
    var w := q * a;
    assert mm * w == s by {
      assert (a + b * g) * w == a * w + b * (g * w);
      assert a * (q * a) == q * (a * a);
      assert b * (p * b) == b * b * p;
    }
    assert vv * (w * a) == p * s by {
      assert (p + q * (g * g)) * (w * a) == p * (w * a) + (g * w) * (g * w);
      assert p * (w * a) + (p * b) * (p * b) == p * s;
    }
    MulPos(q, a);
    MulPos(w, w);
    assert (mm * mm * (q * p)) * (w * w) == (mm * w) * (mm * w) * (q * p);
    assert (s * vv) * (w * w) == s * q * (vv * (w * a));
    assert s * s * (q * p) == s * q * (p * s);
    CancelEq(mm * mm * (q * p), s * vv, w * w);
  }

  lemma CancelEq(a: real, b: real, d: real)
    requires d > 0.0 && a * d == b * d
    ensures a == b
  {
    if a < b {
      MulLt(a, b, d);
    } else if b < a {
      MulLt(b, a, d);
    }
  }

  ghost predicate IsGain(beta1: real, beta2: real, k: real) {
    k > 0.0 && k * (1.0 - beta2) == (1.0 - beta1) * (1.0 - beta1)
  }

  ghost predicate IsBest(beta1: real, beta2: real, m: real, v: real, g: real) {
    g > 0.0 && g * ((1.0 - beta2) * (beta1 * m)) == (beta2 * v) * (1.0 - beta1)
  }

  ghost predicate IsNext(beta1: real, beta2: real, m: real, v: real, g: real, mm: real, vv: real) {
    mm == beta1 * m + (1.0 - beta1) * g && vv == beta2 * v + (1.0 - beta2) * (g * g)
  }

  ghost predicate AtLeast(m: real, v: real, r: real) {
    m * m >= r * v
  }

  /** If beta1^2 >= beta2 > 0, a best-chosen gradient adds at least k = (1 - beta1)^2 / (1 - beta2) to the ratio. */
  lemma RatioGrows(beta1: real, beta2: real, k: real, r: real, m: real, v: real, g: real, mm: real, vv: real)
    requires 0.0 < beta1 < 1.0 && 0.0 < beta2 < 1.0 && beta2 <= beta1 * beta1 && 0.0 <= r
    requires m > 0.0 && v > 0.0 && 0.0 < vv && AtLeast(m, v, r)
    requires IsGain(beta1, beta2, k) && IsBest(beta1, beta2, m, v, g) && IsNext(beta1, beta2, m, v, g, mm, vv)
    ensures AtLeast(mm, vv, r + k)
  {
    var p, q, a, b := beta2 * v, 1.0 - beta2, beta1 * m, 1.0 - beta1;
    MulPos(beta2, v);
    MulPos(beta1, m);
    var qp := PositiveProduct(q, p);
    var s := q * (a * a) + b * b * p;
    BestRatio(p, q, a, b, g, mm, vv, s, qp);
    var low := r + k;
    assert low * qp <= s by {
      SumGrows(beta1, beta2, k, r, m, v, p, q, a, b, s, qp);
    }
    Conclude(mm, vv, low, qp, s);
  }

  lemma Conclude(mm: real, vv: real, low: real, qp: real, s: real)
    requires 0.0 < qp && 0.0 < vv && mm * mm * qp == s * vv && low * qp <= s
    ensures AtLeast(mm, vv, low)
  {
    MulLe(low * qp, s, vv);
    assert low * vv * qp == low * qp * vv;
    CancelLe(low * vv, mm * mm, qp);
  }

  lemma SumGrows(beta1: real, beta2: real, k: real, r: real, m: real, v: real,
                 p: real, q: real, a: real, b: real, s: real, qp: real)
    requires 0.0 < beta2 <= beta1 * beta1 && q > 0.0 && v > 0.0 && 0.0 <= r && AtLeast(m, v, r)
    requires p == beta2 * v && a == beta1 * m && s == q * (a * a) + b * b * p && k * q == b * b && qp == q * p
    ensures (r + k) * qp <= s
  {
    var rv := r * v;
    MulLe(0.0, r, v);
    MulLe(beta2, beta1 * beta1, rv);
    SquareLe(beta1, Abs(beta1));
    MulLe(rv, m * m, beta1 * beta1);
    assert a * a == beta1 * beta1 * (m * m);
    assert r * p == beta2 * rv;
    MulLe(r * p, a * a, q);
    assert (r + k) * (q * p) == r * p * q + k * q * p;
  }

  lemma PositiveMean(b: real, x: real, y: real, z: real)
    requires 0.0 < b < 1.0 && x > 0.0 && y > 0.0 && z == b * x + (1.0 - b) * y
    ensures z > 0.0
  {
    MulPos(b, x);
    MulPos(1.0 - b, y);
  }

  ghost predicate Growing(mo: Moments, r: real) {
    mo.m > 0.0 && mo.v > 0.0 && AtLeast(mo.m, mo.v, r)
  }

  lemma NextBest(beta1: real, beta2: real, m: real, v: real) returns (g: real)
    requires 0.0 < beta1 < 1.0 && 0.0 < beta2 < 1.0 && m > 0.0 && v > 0.0
    ensures IsBest(beta1, beta2, m, v, g)
  {
    MulPos(beta2, v);
    MulPos(beta1, m);
    g := BestGradient(beta2 * v, 1.0 - beta2, beta1 * m, 1.0 - beta1);
  }

  lemma NextPositive(beta1: real, beta2: real, mo: Moments, g: real, next: Moments)
    requires 0.0 < beta1 < 1.0 && 0.0 < beta2 < 1.0 && mo.m > 0.0 && mo.v > 0.0 && g > 0.0
    requires next == NextMoments(beta1, beta2, mo, g)
    ensures next.m > 0.0 && next.v > 0.0
  {
    PositiveMean(beta1, mo.m, g, next.m);
    var gg := Square(g);
    PositiveMean(beta2, mo.v, gg, next.v);
  }

  lemma GrowingStep(beta1: real, beta2: real, k: real, r: real, mo: Moments) returns (g: real, next: Moments)
    requires 0.0 < beta1 < 1.0 && 0.0 < beta2 < 1.0 && beta2 <= beta1 * beta1 && 0.0 <= r
    requires IsGain(beta1, beta2, k) && Growing(mo, r)
    ensures next == NextMoments(beta1, beta2, mo, g) && Growing(next, r + k)
  {
    g := NextBest(beta1, beta2, mo.m, mo.v);
    next := NextMoments(beta1, beta2, mo, g);
    NextPositive(beta1, beta2, mo, g, next);
    StepGrows(beta1, beta2, k, r, mo, g, next);
  }

  lemma StepGrows(beta1: real, beta2: real, k: real, r: real, mo: Moments, g: real, next: Moments)
    requires 0.0 < beta1 < 1.0 && 0.0 < beta2 < 1.0 && beta2 <= beta1 * beta1 && 0.0 <= r
    requires IsGain(beta1, beta2, k) && Growing(mo, r) && next == NextMoments(beta1, beta2, mo, g)
    requires next.m > 0.0 && next.v > 0.0 && IsBest(beta1, beta2, mo.m, mo.v, g)
    ensures Growing(next, r + k)
  {
    hide *;
    GrowingFacts(mo, r);
    NextFacts(beta1, beta2, mo, g, next);
    RatioGrows(beta1, beta2, k, r, mo.m, mo.v, g, next.m, next.v);
    StillGrowing(next, r + k);
  }

  lemma GrowingFacts(mo: Moments, r: real)
    requires Growing(mo, r)
    ensures mo.m > 0.0 && mo.v > 0.0 && AtLeast(mo.m, mo.v, r)
  {
  }

  lemma NextFacts(beta1: real, beta2: real, mo: Moments, g: real, next: Moments)
    requires next == NextMoments(beta1, beta2, mo, g)
    ensures IsNext(beta1, beta2, mo.m, mo.v, g, next.m, next.v)
  {
  }

  lemma StillGrowing(mo: Moments, r: real)
    requires mo.m > 0.0 && mo.v > 0.0 && AtLeast(mo.m, mo.v, r)
    ensures Growing(mo, r)
  {
  }

  lemma FirstGradient(beta1: real, beta2: real, mo: Moments)
    requires 0.0 < beta1 < 1.0 && 0.0 <= beta2 < 1.0 && mo == NextMoments(beta1, beta2, ZERO_MOMENTS, 1.0)
    ensures mo.m == 1.0 - beta1 && mo.v == 1.0 - beta2 && mo.m * mo.m > 0.0
  {
    MulPos(mo.m, mo.m);
  }

  lemma Multiple(n: nat, k: real, r: real) returns (r': real)
    requires n > 0 && k >= 0.0 && r == n as real * k
    ensures r' == (n - 1) as real * k && r == r' + k && 0.0 <= r'
  {
    r' := (n - 1) as real * k;
    MulLe(0.0, (n - 1) as real, k);
  }

  lemma FirstGrowing(beta1: real, beta2: real, k: real, mo: Moments)
    requires 0.0 < beta1 < 1.0 && 0.0 < beta2 < 1.0 && mo == NextMoments(beta1, beta2, ZERO_MOMENTS, 1.0)
    ensures Growing(mo, 0.0)
  {
    FirstGradient(beta1, beta2, mo);
  }

  /** A run whose ratio is at least n * k. */
  lemma {:induction false} GrowingRun(beta1: real, beta2: real, k: real, n: nat, r: real)
    returns (gs: seq<real>, mo: Moments)
    requires 0.0 < beta1 < 1.0 && 0.0 < beta2 < 1.0 && beta2 <= beta1 * beta1
    requires IsGain(beta1, beta2, k) && k >= 0.0 && r == n as real * k
    ensures mo == MomentsOf(beta1, beta2, gs) && Growing(mo, r)
    decreases n
  {
    hide MomentsOf, NextMoments, Growing, IsGain;
    if n == 0 {
      NoGradients(beta1, beta2);
      RecurrenceIsClosedForm(beta1, beta2, [], 1.0);
      gs, mo := [] + [1.0], NextMoments(beta1, beta2, ZERO_MOMENTS, 1.0);
      FirstGrowing(beta1, beta2, k, mo);
      return;
    }
    var r' := Multiple(n, k, r);
    var init, prev := GrowingRun(beta1, beta2, k, n - 1, r');
    var g, next := GrowingStep(beta1, beta2, k, r', prev);
    RecurrenceIsClosedForm(beta1, beta2, init, g);
    gs, mo := init + [g], next;
  }

  /** Some multiple of k exceeds c. */
  lemma ExceedsAny(c: real, k: real) returns (n: nat)
    requires k > 0.0
    ensures n as real * k > c
  {
    if c < 0.0 {
      return 1;
    }
    var q := c / k;
    assert q * k == c;
    if q < 0.0 {
      MulLt(q, 0.0, k);
    }
    n := q.Floor + 1;
    MulLt(q, n as real, k);
  }

  lemma PositiveGain(beta1: real, beta2: real) returns (k: real)
    requires 0.0 < beta1 < 1.0 && ValidBeta(beta2)
    ensures IsGain(beta1, beta2, k)
  {
    var d := 1.0 - beta2;
    var sq := Square(1.0 - beta1);
    k := sq / d;
    assert k * d == sq;
    if k <= 0.0 {
      MulLe(k, 0.0, d);
    }
  }

  lemma GrowingExceeds(mo: Moments, r: real, c: real)
    requires Growing(mo, r) && r > c
    ensures !SecondBounds(mo, c)
  {
    MulLt(c, r, mo.v);
  }

  /** Without a second-moment memory, one gradient followed by a zero breaks any bound. */
  lemma ForgottenSecond(beta1: real, c: real) returns (gs: seq<real>)
    requires 0.0 < beta1 < 1.0
    ensures !SecondBounds(MomentsOf(beta1, 0.0, gs), c)
  {
    hide MomentsOf;
    NoGradients(beta1, 0.0);
    RecurrenceIsClosedForm(beta1, 0.0, [], 1.0);
    var mo := NextMoments(beta1, 0.0, ZERO_MOMENTS, 1.0);
    FirstGradient(beta1, 0.0, mo);
    RecurrenceIsClosedForm(beta1, 0.0, [] + [1.0], 0.0);
    gs := [] + [1.0] + [0.0];
    ZeroSecond(beta1, mo, NextMoments(beta1, 0.0, mo, 0.0), c);
  }

  lemma ZeroSecond(beta1: real, mo: Moments, next: Moments, c: real)
    requires 0.0 < beta1 && mo.m > 0.0 && next == NextMoments(beta1, 0.0, mo, 0.0)
    ensures !SecondBounds(next, c)
  {
    MulPos(beta1, mo.m);
    var sq := Square(next.m);
    assert next.v == 0.0;
    assert c * 0.0 == 0.0;
  }

  lemma Unbounded(beta1: real, beta2: real, c: real) returns (gs: seq<real>)
    requires 0.0 < beta1 < 1.0 && 0.0 <= beta2 < 1.0 && beta2 <= beta1 * beta1
    ensures !SecondBounds(MomentsOf(beta1, beta2, gs), c)
  {
    hide MomentsOf, SecondBounds, Growing;
    if beta2 == 0.0 {
      gs := ForgottenSecond(beta1, c);
    } else {
      var k := PositiveGain(beta1, beta2);
      var n := ExceedsAny(c, k);
      var mo;
      gs, mo := GrowingRun(beta1, beta2, k, n, n as real * k);
      GrowingExceeds(mo, n as real * k, c);
    }
  }

  lemma {:induction false} ZeroDecay(gs: seq<real>)
    ensures SecondBounds(MomentsOf(0.0, 0.0, gs), 1.0)
  {
    hide MomentsOf;
    if gs == [] {
      NoGradients(0.0, 0.0);
    } else {
      var init, g := gs[..|gs| - 1], gs[|gs| - 1];
      assert init + [g] == gs;
      RecurrenceIsClosedForm(0.0, 0.0, init, g);
    }
  }

  /** A bound independent of the gradients exists exactly when beta1^2 < beta2, or there is no momentum at all. */
  lemma RatioBoundedIff(beta1: real, beta2: real)
    requires ValidBeta(beta1) && ValidBeta(beta2)
    ensures (exists c :: UniformBound(beta1, beta2, c)) <==> beta1 == 0.0 || beta1 * beta1 < beta2
  {
    hide MomentsOf;
    if beta1 * beta1 < beta2 {
      var c := RatioBound(beta1, beta2);
      RatioBoundCleared(beta1, beta2);
      forall gs
        ensures SecondBounds(MomentsOf(beta1, beta2, gs), c)
      {
        MomentRatio(beta1, beta2, gs, c);
      }
      assert UniformBound(beta1, beta2, c);
    } else if beta1 == 0.0 {
      forall gs
        ensures SecondBounds(MomentsOf(beta1, beta2, gs), 1.0)
      {
        ZeroDecay(gs);
      }
      assert UniformBound(beta1, beta2, 1.0);
    } else {
      forall c
        ensures !UniformBound(beta1, beta2, c)
      {
        var gs := Unbounded(beta1, beta2, c);
      }
    }
  }
}
