/**
 For which hyperparameters one step of Adam (python/metal_native/optim/adam.py) is bounded
 independently of the gradients.
 */
module AdamSteps {
  import opened Wrappers
  import opened Weighted
  import opened AdamMath
  import opened Params
  import opened Adam
  import opened AdamRuns

  // ---------------------------------------------------------------- scaling the gradients

  ghost function Scaled(xs: seq<real>, a: real): (r: seq<real>)
    ensures |r| == |xs|
  {
    seq(|xs|, i requires 0 <= i < |xs| => a * xs[i])
  }

  lemma ScaledTail(xs: seq<real>, a: real)
    requires xs != []
    ensures Scaled(xs, a)[1..] == Scaled(xs[1..], a)
  {
    var l, r := Scaled(xs, a)[1..], Scaled(xs[1..], a);
    forall i | 0 <= i < |l|
      ensures l[i] == r[i]
    {
      assert l[i] == a * xs[i + 1] && xs[1..][i] == xs[i + 1];
    }
  }

  lemma {:induction false} SumScales(b: real, xs: seq<real>, a: real)
    ensures WeightedSum(b, Scaled(xs, a)) == a * WeightedSum(b, xs)
  {
    if xs != [] {
      var w, rest := Pow(b, |xs| - 1), WeightedSum(b, xs[1..]);
      ScaledTail(xs, a);
      SumScales(b, xs[1..], a);
      assert w * (a * xs[0]) + a * rest == a * (w * xs[0] + rest);
    }
  }

  lemma MeanScales(b: real, xs: seq<real>, a: real, x: real)
    requires x == Mean(b, xs)
    ensures Mean(b, Scaled(xs, a)) == a * x
  {
    hide WeightedSum;
    SumScales(b, xs, a);
    Swap(1.0 - b, a, WeightedSum(b, xs));
  }

  lemma Swap(a: real, b: real, c: real)
    ensures a * (b * c) == b * (a * c)
  {
  }

  lemma SquaresScale(gs: seq<real>, a: real)
    ensures Squares(Scaled(gs, a)) == Scaled(Squares(gs), a * a)
  {
    forall i | 0 <= i < |gs|
      ensures Squares(Scaled(gs, a))[i] == Scaled(Squares(gs), a * a)[i]
    {
      assert (a * gs[i]) * (a * gs[i]) == a * a * (gs[i] * gs[i]);
    }
  }

  lemma MomentsScale(beta1: real, beta2: real, gs: seq<real>, a: real, mo: Moments)
    requires mo == MomentsOf(beta1, beta2, gs)
    ensures var to := MomentsOf(beta1, beta2, Scaled(gs, a)); to.m == a * mo.m && to.v == a * a * mo.v
  {
    hide Mean, MaxSecondMoment;
    MeanScales(beta1, gs, a, mo.m);
    SquaresScale(gs, a);
    MeanScales(beta2, Squares(gs), a * a, mo.v);
  }

  // ---------------------------------------------------------------- gradients of any moment ratio

  ghost predicate Ratio(mo: Moments, r: real) {
    mo.m > 0.0 && mo.v > 0.0 && r * mo.v <= mo.m * mo.m
  }

  lemma LargeRatio(beta1: real, beta2: real, r: real) returns (gs: seq<real>)
    requires 0.0 < beta1 < 1.0 && 0.0 <= beta2 < 1.0 && beta2 <= beta1 * beta1 && 0.0 <= r
    ensures gs != [] && Ratio(MomentsOf(beta1, beta2, gs), r)
  {
    hide MomentsOf, Growing, Ratio;
    if beta2 == 0.0 {
      gs := DroppingRun(beta1, r);
    } else {
      var k := PositiveGain(beta1, beta2);
      var n := ExceedsAny(r, k);
      var mo;
      gs, mo := GrowingRun(beta1, beta2, k, n, n as real * k);
      GrowingRatio(mo, n as real * k, r);
      if gs == [] {
        NoGradients(beta1, beta2);
        NoRatio(r);
      }
    }
  }

  lemma GrowingRatio(mo: Moments, high: real, r: real)
    requires Growing(mo, high) && r <= high
    ensures Ratio(mo, r)
  {
    MulLe(r, high, mo.v);
  }

  lemma NoRatio(r: real)
    ensures !Ratio(ZERO_MOMENTS, r)
  {
  }

  /** Without a second-moment memory: a gradient of 1 followed by a small one. */
  lemma DroppingRun(beta1: real, r: real) returns (gs: seq<real>)
    requires 0.0 < beta1 < 1.0 && 0.0 <= r
    ensures gs != [] && Ratio(MomentsOf(beta1, 0.0, gs), r)
  {
    hide MomentsOf, Ratio;
    var q := PositiveProduct(beta1, 1.0 - beta1);
    var g := SmallGradient(q, r);
    NoGradients(beta1, 0.0);
    RecurrenceIsClosedForm(beta1, 0.0, [], 1.0);
    var mo := NextMoments(beta1, 0.0, ZERO_MOMENTS, 1.0);
    RecurrenceIsClosedForm(beta1, 0.0, [] + [1.0], g);
    gs := [] + [1.0] + [g];
    DroppedRatio(beta1, mo, g, NextMoments(beta1, 0.0, mo, g), q, r);
  }

  lemma SmallGradient(q: real, r: real) returns (g: real)
    requires 0.0 < q && 0.0 <= r
    ensures 0.0 < g <= q && r * (g * g) <= q * q
  {
    g := q / (r + 1.0);
    assert g * (r + 1.0) == q;
    if g <= 0.0 {
      MulLe(g, 0.0, r + 1.0);
    }
    var rg := r * g;
    assert rg + g == q;
    ProductsLe(0.0, r, g, 0.0, rg);
    MulLe(rg, q, g);
    MulLe(g, q, q);
    assert r * (g * g) == rg * g;
  }

  lemma DroppedRatio(beta1: real, mo: Moments, g: real, next: Moments, q: real, r: real)
    requires 0.0 < beta1 < 1.0 && mo == NextMoments(beta1, 0.0, ZERO_MOMENTS, 1.0)
    requires next == NextMoments(beta1, 0.0, mo, g) && 0.0 < g && q == beta1 * (1.0 - beta1) && 0.0 < q
    requires r * (g * g) <= q * q
    ensures Ratio(next, r)
  {
    var sq := Square(g);
    var x := PositiveProduct(1.0 - beta1, g);
    FirstGradient(beta1, 0.0, mo);
    assert next.m == q + x && next.v == sq;
    CloseRatio(next, q, r);
  }

  lemma CloseRatio(mo: Moments, q: real, r: real)
    requires 0.0 < q <= mo.m && 0.0 < mo.v && r * mo.v <= q * q
    ensures Ratio(mo, r)
  {
    SquareMono(q, mo.m);
  }

  // ---------------------------------------------------------------- a step of any size

  /** The corrected moments of a run with a large ratio exceed any limit once eps is outgrown. */
  lemma UpdateExceeds(h: Hyper, sqrt: real -> real, n: nat, mo: Moments, r: real, u: real)
    requires ValidHyper(h) && IsSqrt(sqrt) && !h.amsgrad && 0.0 < h.lr && n > 0 && 0.0 <= u && 0.0 <= r
    requires Ratio(mo, r) && h.eps * h.eps <= mo.v
    requires 4.0 * (u * u) < h.lr * h.lr * (r * (1.0 - h.beta2))
    ensures Abs(AdamUpdate(h, sqrt, n, mo)) > u
  {
    hide IsSqrt, Ratio, MHat, VHat;
    var mh, vh := GrownHats(h, n, mo, r);
    var s := sqrt(vh);
    RootAtLeast(sqrt, vh, h.eps);
    FarDescent(h.lr, mh, s, h.eps, vh, r * (1.0 - h.beta2), u, AdamUpdate(h, sqrt, n, mo));
  }

  lemma GrownHats(h: Hyper, n: nat, mo: Moments, r: real) returns (mh: real, vh: real)
    requires ValidHyper(h) && !h.amsgrad && n > 0 && 0.0 <= r && Ratio(mo, r) && h.eps * h.eps <= mo.v
    ensures mh == MHat(h, n, mo) && vh == VHat(h, n, mo)
    ensures 0.0 < mh && 0.0 < vh && h.eps * h.eps <= vh && r * (1.0 - h.beta2) * vh <= mh * mh
  {
    hide Pow;
    BetaCorrection(h.beta1, n);
    BetaCorrection(h.beta2, n);
    mh, vh := MHat(h, n, mo), VHat(h, n, mo);
    Grown(mo.m, 1.0 - Pow(h.beta1, n), mh);
    Grown(mo.v, 1.0 - Pow(h.beta2, n), vh);
    SquareMono(mo.m, mh);
    var w := vh * (1.0 - h.beta2);
    ProductsLe(1.0 - h.beta2, 1.0 - Pow(h.beta2, n), vh, w, mo.v);
    MulLe(w, mo.v, r);
    assert r * (1.0 - h.beta2) * vh == r * w;
  }

  lemma Grown(x: real, d: real, q: real)
    requires 0.0 < x && 0.0 < d <= 1.0 && q == x / d
    ensures x <= q && q * d == x
  {
    assert q * d == x;
    Quotient(x, d);
    MulLe(d, 1.0, q);
  }

  lemma RootAtLeast(sqrt: real -> real, v: real, eps: real)
    requires IsSqrt(sqrt) && 0.0 < v && 0.0 <= eps && eps * eps <= v
    ensures var s := sqrt(v); s * s == v && 0.0 < s && eps <= s
  {
    var s := sqrt(v);
    SqrtZeroIff(v, s);
    if s < eps {
      SquareLt(s, eps);
    }
  }

  lemma FarDescent(lr: real, mh: real, s: real, eps: real, vh: real, k: real, u: real, x: real)
    requires 0.0 < lr && 0.0 < mh && 0.0 < s && 0.0 <= eps <= s && s * s == vh && 0.0 < vh && 0.0 <= u
    requires k * vh <= mh * mh && 4.0 * (u * u) < lr * lr * k && x == Descent(lr, mh, s + eps)
    ensures Abs(x) > u
  {
    var den := s + eps;
    assert x * den == -lr * mh;
    if Abs(x) <= u {
      SquareLe(x, u);
      ShortStep(lr, mh, den, s, vh, k, u * u, x * x, x);
    }
  }

  lemma ShortStep(lr: real, mh: real, den: real, s: real, vh: real, k: real, uu: real, xx: real, x: real)
    requires 0.0 < den <= 2.0 * s && s * s == vh && 0.0 < vh && x * den == -lr * mh && xx == x * x
    requires 0.0 <= xx <= uu && k * vh <= mh * mh
    ensures lr * lr * k <= 4.0 * uu
  {
    SquareMono(den, 2.0 * s);
    SquareLe(lr, Abs(lr));
    SquaredDescent(lr, mh, den, x, lr * lr, mh * mh, xx, den * den);
    Compare(lr * lr, mh * mh, xx, den * den, vh, k, uu);
  }

  lemma SquaredDescent(lr: real, mh: real, den: real, x: real, ll: real, mm: real, xx: real, dd: real)
    requires x * den == -lr * mh && ll == lr * lr && mm == mh * mh && xx == x * x && dd == den * den
    ensures ll * mm == xx * dd
  {
    assert (x * den) * (x * den) == x * x * (den * den);
    assert (-lr * mh) * (-lr * mh) == lr * lr * (mh * mh);
  }

  lemma Compare(ll: real, mm: real, xx: real, dd: real, vh: real, k: real, uu: real)
    requires 0.0 <= ll && 0.0 < vh && 0.0 <= xx <= uu && k * vh <= mm && dd <= 4.0 * vh && ll * mm == xx * dd
    ensures ll * k <= 4.0 * uu
  {
    MulLe(k * vh, mm, ll);
    MulLe(dd, 4.0 * vh, xx);
    MulLe(xx, uu, 4.0 * vh);
    assert ll * (k * vh) == ll * k * vh;
    CancelLe(ll * k, 4.0 * uu, vh);
  }

  // ---------------------------------------------------------------- runs for any gradients

  /** The round that sets every listed parameter to 0 and gives each the gradient g. */
  ghost function Uniform(ps: seq<Param>, g: real): Round {
    Round(map q | q in ps :: 0.0, map q | q in ps :: Some(g))
  }

  lemma {:induction false} Realized(h: Hyper, sqrt: real -> real, ps: seq<Param>, p: Param, gs: seq<real>)
    returns (rounds: seq<Round>)
    requires Times(ps, p) == 1
    ensures Covers(ps, rounds) && |rounds| == |gs| && SeenAt(RunSteps(h, sqrt, ps, rounds), p) == gs
    ensures gs != [] ==> rounds[|rounds| - 1] == Uniform(ps, gs[|gs| - 1])
    decreases |gs|
  {
    hide UpdateAll, Times;
    if gs == [] {
      rounds := [];
    } else {
      var g, before := gs[|gs| - 1], gs[..|gs| - 1];
      var init := Realized(h, sqrt, ps, p, before);
      rounds := init + [Uniform(ps, g)];
      assert rounds[..|rounds| - 1] == init;
      ListedOnce(ps, p);
      LastRound(h, sqrt, ps, rounds, p);
      var slot := Fed(RunSteps(h, sqrt, ps, init), Uniform(ps, g), p);
      SingleUpdate(h, sqrt, |rounds|, slot, g);
      assert EffectiveGradient(h, slot.value, g) == g;
    }
  }

  lemma ListedOnce(ps: seq<Param>, p: Param)
    requires Times(ps, p) == 1
    ensures p in ps
  {
  }

  /** How far the last step of a run takes p from its decayed value. */
  ghost function LastMove(h: Hyper, sqrt: real -> real, ps: seq<Param>, rounds: seq<Round>, p: Param): real
    requires Covers(ps, rounds) && rounds != []
  {
    Abs(ValueIn(RunSteps(h, sqrt, ps, rounds).values, p) - Decayed(h, ValueIn(rounds[|rounds| - 1].values, p)))
  }

  lemma MoveIsUpdate(h: Hyper, sqrt: real -> real, ps: seq<Param>, rounds: seq<Round>, p: Param)
    requires Covers(ps, rounds) && Times(ps, p) == 1 && rounds != []
    requires GradIn(rounds[|rounds| - 1].grads, p).Some?
    ensures LastMove(h, sqrt, ps, rounds, p) == Abs(AdamUpdate(h, sqrt, |rounds|, MomentsAt(RunSteps(h, sqrt, ps, rounds), p)))
  {
    hide RunSteps, AdamUpdate, Times, Decayed;
    LastValue(h, sqrt, ps, rounds, p);
  }

  /** Gradients that push the last step beyond u. */
  lemma LargeStep(h: Hyper, sqrt: real -> real, ps: seq<Param>, p: Param, u: real) returns (rounds: seq<Round>)
    requires ValidHyper(h) && IsSqrt(sqrt) && Times(ps, p) == 1 && 0.0 <= u
    requires 0.0 < h.lr && !h.amsgrad && 0.0 < h.beta1 && h.beta2 <= h.beta1 * h.beta1
    ensures Covers(ps, rounds) && rounds != [] && GradIn(rounds[|rounds| - 1].grads, p).Some?
    ensures LastMove(h, sqrt, ps, rounds, p) > u
  {
    hide MomentsOf, RunSteps, IsSqrt, Ratio, AdamUpdate, Times, LastMove;
    var r := LargeEnough(h.lr, 1.0 - h.beta2, u);
    var gs := LargeRatio(h.beta1, h.beta2, r);
    var a, mo := Outgrown(h, gs, r);
    var scaled := Scaled(gs, a);
    rounds := Realized(h, sqrt, ps, p, scaled);
    ListedOnce(ps, p);
    RunIsFaithful(h, sqrt, ps, rounds, p);
    MoveIsUpdate(h, sqrt, ps, rounds, p);
    UpdateExceeds(h, sqrt, |rounds|, mo, r, u);
  }

  lemma LargeEnough(lr: real, d: real, u: real) returns (r: real)
    requires 0.0 < lr && 0.0 < d
    ensures 0.0 <= r && 4.0 * (u * u) < lr * lr * (r * d)
  {
    var ll := Square(lr);
    var lld := PositiveProduct(ll, d);
    SquareLe(u, Abs(u));
    r := (4.0 * (u * u) + 1.0) / lld;
    Quotient(4.0 * (u * u) + 1.0, lld);
    assert ll * (r * d) == r * (ll * d);
  }

  /** Scaled up far enough, the gradients leave eps behind and keep their ratio. */
  lemma Outgrown(h: Hyper, gs: seq<real>, r: real) returns (a: real, to: Moments)
    requires ValidHyper(h) && 0.0 <= r && Ratio(MomentsOf(h.beta1, h.beta2, gs), r)
    ensures to == MomentsOf(h.beta1, h.beta2, Scaled(gs, a))
    ensures Ratio(to, r) && h.eps * h.eps <= to.v
  {
    hide MomentsOf;
    var mo := MomentsOf(h.beta1, h.beta2, gs);
    a := ScaleFor(mo.v, h.eps * h.eps);
    MomentsScale(h.beta1, h.beta2, gs, a, mo);
    to := MomentsOf(h.beta1, h.beta2, Scaled(gs, a));
    RatioScales(mo, to, a, r);
  }

  lemma ScaleFor(v: real, e: real) returns (a: real)
    requires 0.0 < v
    ensures 0.0 < a && e <= a * a * v
  {
    var x := Abs(e);
    var q := x / v;
    Quotient(x, v);
    a := 1.0 + q;
    MulLe(1.0, a, a);
    MulLe(a, a * a, v);
    assert a * v == v + x;
  }

  lemma RatioScales(mo: Moments, to: Moments, a: real, r: real)
    requires Ratio(mo, r) && 0.0 < a && to.m == a * mo.m && to.v == a * a * mo.v
    ensures Ratio(to, r)
  {
    MulPos(a, mo.m);
    var aa := Square(a);
    MulPos(aa, mo.v);
    MulLe(r * mo.v, mo.m * mo.m, aa);
    assert to.m * to.m == aa * (mo.m * mo.m);
    assert r * to.v == aa * (r * mo.v);
  }

  /** A limit large enough for StepMoves. */
  lemma SomeStepLimit(h: Hyper, c: real) returns (u: real)
    requires ValidHyper(h) && 0.0 <= c
    ensures StepLimit(h, c, u)
  {
    var d := 1.0 - h.beta1;
    u := h.lr * (c + 1.0) / d;
    MulLe(0.0, c + 1.0, h.lr);
    Quotient(h.lr * (c + 1.0), d);
    assert u * d == h.lr * (c + 1.0);
    LimitSquare(h.lr, c, d, u);
  }

  lemma LimitSquare(lr: real, c: real, d: real, u: real)
    requires 0.0 <= c && u * d == lr * (c + 1.0)
    ensures lr * lr * c <= u * u * (d * d)
  {
    assert u * u * (d * d) == (u * d) * (u * d);
    assert (lr * (c + 1.0)) * (lr * (c + 1.0)) == lr * lr * ((c + 1.0) * (c + 1.0));
    SquareLe(lr, Abs(lr));
    SquareLe(c, c);
    MulLe(c, (c + 1.0) * (c + 1.0), lr * lr);
  }

  predicate Limit(u: real) {
    0.0 <= u
  }

  lemma SmallStep(h: Hyper, sqrt: real -> real, ps: seq<Param>, p: Param) returns (u: real)
    requires ValidHyper(h) && IsSqrt(sqrt) && Times(ps, p) == 1
    requires h.lr == 0.0 || h.amsgrad || h.beta1 == 0.0 || h.beta1 * h.beta1 < h.beta2
    ensures Limit(u)
    ensures forall rounds: seq<Round> :: Covers(ps, rounds) && rounds != [] && GradIn(rounds[|rounds| - 1].grads, p).Some? ==>
              LastMove(h, sqrt, ps, rounds, p) <= u
  {
    hide MomentsOf, RunSteps, IsSqrt, AdamUpdate, Times, LastMove, RatioConstant, StepLimit;
    var c := 0.0;
    if h.lr == 0.0 {
      u := 0.0;
    } else {
      c := SomeRatioConstant(h);
      ConstantSign(h, c);
      u := SomeStepLimit(h, c);
    }
    forall rounds: seq<Round> | Covers(ps, rounds) && rounds != [] && GradIn(rounds[|rounds| - 1].grads, p).Some?
      ensures LastMove(h, sqrt, ps, rounds, p) <= u
    {
      var s := RunSteps(h, sqrt, ps, rounds);
      MoveIsUpdate(h, sqrt, ps, rounds, p);
      if h.lr == 0.0 {
        NoStep(h, sqrt, |rounds|, MomentsAt(s, p));
      } else {
        RunIsFaithful(h, sqrt, ps, rounds, p);
        UpdateWithin(h, sqrt, |rounds|, SeenAt(s, p), MomentsAt(s, p), c, u);
      }
    }
  }

  lemma ConstantSign(h: Hyper, c: real)
    requires RatioConstant(h, c)
    ensures 0.0 <= c
  {
  }

  lemma NoStep(h: Hyper, sqrt: real -> real, n: nat, mo: Moments)
    requires h.lr == 0.0
    ensures Abs(AdamUpdate(h, sqrt, n, mo)) == 0.0
  {
    hide MHat, VHat;
    var mh, den := MHat(h, n, mo), sqrt(VHat(h, n, mo)) + h.eps;
    assert -h.lr * mh == 0.0;
  }

  /**
   A bound on the steps of a parameter that holds for all gradients exists exactly for AMSGrad, without
   momentum (beta1 = 0), for beta1^2 < beta2, and in the trivial case lr = 0.
   */
  lemma StepBoundedIff(h: Hyper, sqrt: real -> real, ps: seq<Param>, p: Param)
    requires ValidHyper(h) && IsSqrt(sqrt) && Times(ps, p) == 1
    ensures (exists u :: Limit(u) && forall rounds: seq<Round> ::
               Covers(ps, rounds) && rounds != [] && GradIn(rounds[|rounds| - 1].grads, p).Some? ==>
                 LastMove(h, sqrt, ps, rounds, p) <= u)
            <==> h.lr == 0.0 || h.amsgrad || h.beta1 == 0.0 || h.beta1 * h.beta1 < h.beta2
  {
    hide RunSteps, IsSqrt, Times, LastMove;
    if h.lr == 0.0 || h.amsgrad || h.beta1 == 0.0 || h.beta1 * h.beta1 < h.beta2 {
      var u := SmallStep(h, sqrt, ps, p);
    } else {
      forall u | Limit(u)
        ensures exists rounds: seq<Round> ::
                  Covers(ps, rounds) && rounds != [] && GradIn(rounds[|rounds| - 1].grads, p).Some?
                  && LastMove(h, sqrt, ps, rounds, p) > u
      {
        var rounds := LargeStep(h, sqrt, ps, p, u);
      }
    }
  }
}
