/**
 What every training run of MetalAdam and MetalAdamW keeps (python/metal_native/optim/adam.py):
 closed forms, the bounds on moments and step sizes, and bias correction.
 */
module AdamRuns {
  import opened Wrappers
  import opened Weighted
  import opened AdamMath
  import opened Params
  import opened Adam

  // ---------------------------------------------------------------- one parameter within a run

  /** n updates of one parameter within the same step. */
  ghost function Repeat(h: Hyper, sqrt: real -> real, step: nat, slot: Slot, grad: Option<real>, n: nat): Slot {
    if n == 0 || grad.None? then slot
    else UpdateSlot(h, sqrt, step, Repeat(h, sqrt, step, slot, grad, n - 1), grad.value)
  }

  lemma UpdateOneAt(h: Hyper, sqrt: real -> real, s: OptState, q: Param, grad: Option<real>, p: Param)
    requires q in s.values
    ensures SlotOf(UpdateOne(h, sqrt, s, q, grad), p) ==
            if p == q && grad.Some? then UpdateSlot(h, sqrt, s.step, SlotOf(s, p), grad.value) else SlotOf(s, p)
  {
    hide UpdateSlot;
  }

  /** A step updates a parameter as often as it is listed, each time with its own slot only. */
  lemma {:induction false} UpdatedTimes(
      h: Hyper, sqrt: real -> real, s: OptState, ps: seq<Param>, grads: map<Param, Option<real>>, p: Param)
    requires forall q :: q in ps ==> q in s.values && q in grads
    ensures SlotOf(UpdateAll(h, sqrt, s, ps, grads), p)
         == Repeat(h, sqrt, s.step, SlotOf(s, p), GradIn(grads, p), Times(ps, p))
    decreases |ps|
  {
    hide UpdateOne, UpdateSlot, SlotOf, Times;
    if ps == [] {
      NoneListed(p);
    } else {
      var init, last := ps[..|ps| - 1], ps[|ps| - 1];
      TimesLast(ps, p);
      UpdatedTimes(h, sqrt, s, init, grads, p);
      UpdateOneAt(h, sqrt, UpdateAll(h, sqrt, s, init, grads), last, grads[last], p);
      OneMoreTime(h, sqrt, s.step, SlotOf(s, p), GradIn(grads, p), Times(init, p));
    }
  }

  lemma NoneListed(p: Param)
    ensures Times([], p) == 0
  {
  }

  lemma OneMoreTime(h: Hyper, sqrt: real -> real, step: nat, slot: Slot, grad: Option<real>, n: nat)
    ensures var before := Repeat(h, sqrt, step, slot, grad, n);
            Repeat(h, sqrt, step, slot, grad, n + 1)
              == if grad.Some? then UpdateSlot(h, sqrt, step, before, grad.value) else before
  {
    hide UpdateSlot;
    if grad.None? && n > 0 {
      assert Repeat(h, sqrt, step, slot, grad, n) == slot;
    }
  }

  /** The slot of p after a run's first k steps, when the next round sets its value. */
  ghost function Fed(s: OptState, r: Round, p: Param): Slot {
    SlotOf(s, p).(value := ValueIn(r.values, p))
  }

  /** The last step of a run, as p experiences it. */
  lemma LastRound(h: Hyper, sqrt: real -> real, ps: seq<Param>, rounds: seq<Round>, p: Param)
    requires Covers(ps, rounds) && rounds != []
    ensures var r := rounds[|rounds| - 1];
            SlotOf(RunSteps(h, sqrt, ps, rounds), p)
              == Repeat(h, sqrt, |rounds|, Fed(RunSteps(h, sqrt, ps, rounds[..|rounds| - 1]), r, p), GradIn(r.grads, p), Times(ps, p))
  {
    hide UpdateAll, Repeat, Times;
    var r := rounds[|rounds| - 1];
    var s := RunSteps(h, sqrt, ps, rounds[..|rounds| - 1]);
    var t := s.(step := s.step + 1, values := r.values);
    UpdatedTimes(h, sqrt, t, ps, r.grads, p);
    assert SlotOf(t, p) == Fed(s, r, p);
  }

  // ---------------------------------------------------------------- closed forms

  ghost predicate Faithful(h: Hyper, slot: Slot) {
    slot.moments == MomentsOf(h.beta1, h.beta2, slot.seen)
  }

  lemma {:induction false} RepeatFaithful(h: Hyper, sqrt: real -> real, step: nat, slot: Slot, grad: Option<real>, n: nat)
    requires Faithful(h, slot)
    ensures Faithful(h, Repeat(h, sqrt, step, slot, grad, n))
  {
    hide MomentsOf, NextMoments, NewValue;
    if n > 0 && grad.Some? {
      var before := Repeat(h, sqrt, step, slot, grad, n - 1);
      RepeatFaithful(h, sqrt, step, slot, grad, n - 1);
      RecurrenceIsClosedForm(h.beta1, h.beta2, before.seen, EffectiveGradient(h, before.value, grad.value));
    }
  }

  /** In every run each parameter's moments are the closed form of the effective gradients it received. */
  lemma {:induction false} RunIsFaithful(h: Hyper, sqrt: real -> real, ps: seq<Param>, rounds: seq<Round>, p: Param)
    requires Covers(ps, rounds)
    ensures var s := RunSteps(h, sqrt, ps, rounds);
            MomentsAt(s, p) == MomentsOf(h.beta1, h.beta2, SeenAt(s, p))
    decreases |rounds|
  {
    hide MomentsOf, UpdateAll, Repeat;
    if rounds == [] {
      NoGradients(h.beta1, h.beta2);
    } else {
      var r, init := rounds[|rounds| - 1], rounds[..|rounds| - 1];
      RunIsFaithful(h, sqrt, ps, init, p);
      LastRound(h, sqrt, ps, rounds, p);
      RepeatFaithful(h, sqrt, |rounds|, Fed(RunSteps(h, sqrt, ps, init), r, p), GradIn(r.grads, p), Times(ps, p));
    }
  }

  /**
   If beta1^2 < beta2, every coordinate of every run keeps m^2 <= C * v, and C * vMax, whatever the
   gradients, the skipped steps, the weight decay and the repetitions in the parameter list.
   */
  lemma RunKeepsMomentRatio(h: Hyper, sqrt: real -> real, ps: seq<Param>, rounds: seq<Round>, p: Param)
    requires Covers(ps, rounds) && ValidHyper(h) && h.beta1 * h.beta1 < h.beta2
    ensures var mo := MomentsAt(RunSteps(h, sqrt, ps, rounds), p);
            RatioHolds(mo, RatioBound(h.beta1, h.beta2)) && 0.0 <= mo.v <= mo.vMax
  {
    hide MomentsOf, RatioHolds, RatioBound;
    var s := RunSteps(h, sqrt, ps, rounds);
    RunIsFaithful(h, sqrt, ps, rounds, p);
    RatioBoundCleared(h.beta1, h.beta2);
    MomentRatio(h.beta1, h.beta2, SeenAt(s, p), RatioBound(h.beta1, h.beta2));
    MomentSigns(h.beta1, h.beta2, SeenAt(s, p));
  }

  /** Under AMSGrad no condition on the betas is needed: (1 - beta2) * m^2 <= vMax in every run. */
  lemma RunKeepsAmsgradRatio(h: Hyper, sqrt: real -> real, ps: seq<Param>, rounds: seq<Round>, p: Param)
    requires Covers(ps, rounds) && ValidHyper(h)
    ensures var mo := MomentsAt(RunSteps(h, sqrt, ps, rounds), p);
            (1.0 - h.beta2) * (mo.m * mo.m) <= mo.vMax
  {
    hide MomentsOf, RunSteps;
    RunIsFaithful(h, sqrt, ps, rounds, p);
    AmsgradRatio(h.beta1, h.beta2, SeenAt(RunSteps(h, sqrt, ps, rounds), p));
  }

  lemma MomentSigns(beta1: real, beta2: real, gs: seq<real>)
    requires ValidBeta(beta2)
    ensures 0.0 <= MomentsOf(beta1, beta2, gs).v <= MomentsOf(beta1, beta2, gs).vMax
  {
    SecondMomentSign(beta2, gs);
  }

  // ---------------------------------------------------------------- bias correction

  lemma {:induction false} RepeatSeen(h: Hyper, sqrt: real -> real, step: nat, slot: Slot, grad: Option<real>, n: nat)
    ensures |Repeat(h, sqrt, step, slot, grad, n).seen| == |slot.seen| + if grad.Some? then n else 0
  {
    hide NewValue, NextMoments, EffectiveGradient;
    if n > 0 && grad.Some? {
      RepeatSeen(h, sqrt, step, slot, grad, n - 1);
    }
  }

  /** In a run of n steps a parameter listed k times receives at most k * n updates. */
  lemma {:induction false} UpdatesWithinSteps(h: Hyper, sqrt: real -> real, ps: seq<Param>, rounds: seq<Round>, p: Param)
    requires Covers(ps, rounds)
    ensures |SeenAt(RunSteps(h, sqrt, ps, rounds), p)| <= Times(ps, p) * |rounds|
    decreases |rounds|
  {
    hide UpdateAll, Repeat, Times;
    if rounds != [] {
      var r, init := rounds[|rounds| - 1], rounds[..|rounds| - 1];
      UpdatesWithinSteps(h, sqrt, ps, init, p);
      LastRound(h, sqrt, ps, rounds, p);
      RepeatSeen(h, sqrt, |rounds|, Fed(RunSteps(h, sqrt, ps, init), r, p), GradIn(r.grads, p), Times(ps, p));
      assert Times(ps, p) * |rounds| == Times(ps, p) * |init| + Times(ps, p);
    }
  }

  lemma BetaCorrection(b: real, n: nat)
    requires ValidBeta(b) && n > 0
    ensures 1.0 - b <= 1.0 - Pow(b, n) <= 1.0
  {
    PowRange(b, n);
  }

  /**
   For a parameter listed once, after any number of steps, even ones that skipped it, the corrected first moment is no
   larger than the largest effective gradient seen, and the corrected second moment than its square.
   */
  lemma BiasCorrectionBounded(
      h: Hyper, sqrt: real -> real, ps: seq<Param>, rounds: seq<Round>, p: Param, bound: real)
    requires Covers(ps, rounds) && ValidHyper(h) && Times(ps, p) <= 1 && rounds != [] && 0.0 <= bound
    requires Bounded(SeenAt(RunSteps(h, sqrt, ps, rounds), p), bound)
    ensures var s := RunSteps(h, sqrt, ps, rounds);
            && Abs(MHat(h, s.step, MomentsAt(s, p))) <= bound
            && 0.0 <= VHat(h, s.step, MomentsAt(s, p)) <= bound * bound
  {
    hide MomentsOf, RunSteps, Bounded, Times;
    var s := RunSteps(h, sqrt, ps, rounds);
    var gs, n := SeenAt(s, p), |rounds|;
    UpdatesWithinSteps(h, sqrt, ps, rounds, p);
    assert |gs| <= n by {
      assert Times(ps, p) * n <= n;
    }
    RunIsFaithful(h, sqrt, ps, rounds, p);
    FirstHatBounded(h, gs, bound, n, MomentsAt(s, p));
    SecondHatBounded(h, gs, bound, n, MomentsAt(s, p));
  }

  lemma FirstHatBounded(h: Hyper, gs: seq<real>, bound: real, n: nat, mo: Moments)
    requires ValidHyper(h) && Bounded(gs, bound) && 0.0 <= bound && |gs| <= n && n > 0
    requires mo == MomentsOf(h.beta1, h.beta2, gs)
    ensures Abs(MHat(h, n, mo)) <= bound
  {
    hide Mean, Pow, SecondMoment, MaxSecondMoment, Bounded;
    CorrectedMean(h.beta1, gs, bound, n, mo.m, 1.0 - Pow(h.beta1, n));
  }

  lemma SecondHatBounded(h: Hyper, gs: seq<real>, bound: real, n: nat, mo: Moments)
    requires ValidHyper(h) && Bounded(gs, bound) && 0.0 <= bound && |gs| <= n && n > 0
    requires mo == MomentsOf(h.beta1, h.beta2, gs)
    ensures 0.0 <= VHat(h, n, mo) <= bound * bound
  {
    hide Mean, Pow, SecondMoment, MaxSecondMoment, Bounded;
    var d, sq := 1.0 - Pow(h.beta2, n), bound * bound;
    SecondMomentSign(h.beta2, gs);
    MaxSecondBound(h.beta2, gs, bound, n, d, sq);
    QuotientBetween(if h.amsgrad then mo.vMax else mo.v, d, sq);
  }

  lemma QuotientBetween(x: real, d: real, bound: real)
    requires 0.0 <= x <= d * bound && 0.0 < d
    ensures 0.0 <= x / d <= bound
  {
    Quotient(x, d);
    DivBound(x, d, bound);
  }

  /** Every round gives p the same gradient, and weight decay does not reach it. */
  ghost predicate ConstantlyFed(h: Hyper, rounds: seq<Round>, p: Param, g: real) {
    && (h.decoupled || h.weightDecay == 0.0)
    && forall k :: 0 <= k < |rounds| ==> p in rounds[k].grads && rounds[k].grads[p] == Some(g)
  }

  lemma {:induction false} ConstantSeen(h: Hyper, sqrt: real -> real, ps: seq<Param>, rounds: seq<Round>, p: Param, g: real)
    requires Covers(ps, rounds) && Times(ps, p) == 1 && ConstantlyFed(h, rounds, p, g)
    ensures var gs := SeenAt(RunSteps(h, sqrt, ps, rounds), p); Constant(gs, g) && |gs| == |rounds|
    decreases |rounds|
  {
    hide UpdateAll, Times;
    if rounds != [] {
      var r, init := rounds[|rounds| - 1], rounds[..|rounds| - 1];
      ConstantSeen(h, sqrt, ps, init, p, g);
      LastRound(h, sqrt, ps, rounds, p);
      SingleUpdate(h, sqrt, |rounds|, Fed(RunSteps(h, sqrt, ps, init), r, p), g);
    }
  }

  lemma SingleUpdate(h: Hyper, sqrt: real -> real, step: nat, slot: Slot, grad: real)
    ensures Repeat(h, sqrt, step, slot, Some(grad), 1) == UpdateSlot(h, sqrt, step, slot, grad)
    ensures Repeat(h, sqrt, step, slot, Some(grad), 1).seen == slot.seen + [EffectiveGradient(h, slot.value, grad)]
  {
    hide NewValue, NextMoments, EffectiveGradient;
    assert Repeat(h, sqrt, step, slot, Some(grad), 0) == slot;
  }

  lemma ScaledQuotient(d: real, x: real)
    requires d > 0.0
    ensures d * x / d == x
  {
    var q := d * x / d;
    assert q * d == x * d;
    CancelEq(q, x, d);
  }

  /** With a constant gradient the corrected moments are exactly g and g^2 at every step, AMSGrad or not. */
  lemma ConstantGradientIsRecovered(
      h: Hyper, sqrt: real -> real, ps: seq<Param>, rounds: seq<Round>, p: Param, g: real)
    requires Covers(ps, rounds) && ValidHyper(h) && Times(ps, p) == 1 && rounds != []
    requires ConstantlyFed(h, rounds, p, g)
    ensures var s := RunSteps(h, sqrt, ps, rounds);
            MHat(h, s.step, MomentsAt(s, p)) == g && VHat(h, s.step, MomentsAt(s, p)) == g * g
  {
    hide MomentsOf, RunSteps, ConstantlyFed, Times;
    var s := RunSteps(h, sqrt, ps, rounds);
    ConstantSeen(h, sqrt, ps, rounds, p, g);
    RunIsFaithful(h, sqrt, ps, rounds, p);
    ConstantHats(h, SeenAt(s, p), g, |rounds|, MomentsAt(s, p), g * g);
  }

  lemma ConstantHats(h: Hyper, gs: seq<real>, g: real, n: nat, mo: Moments, sq: real)
    requires ValidHyper(h) && Constant(gs, g) && |gs| == n > 0
    requires mo == MomentsOf(h.beta1, h.beta2, gs) && sq == g * g
    ensures MHat(h, n, mo) == g && VHat(h, n, mo) == sq
  {
    hide Mean, Pow, SecondMoment, MaxSecondMoment;
    ConstantMean(h.beta1, gs, g);
    ConstantMax(h.beta2, gs, g);
    ConstantSecond(h.beta2, gs, g, sq);
    BetaCorrection(h.beta1, n);
    BetaCorrection(h.beta2, n);
    HatOf(mo.m, 1.0 - Pow(h.beta1, |gs|), g);
    HatOf(mo.v, 1.0 - Pow(h.beta2, |gs|), sq);
  }

  lemma HatOf(x: real, d: real, g: real)
    requires d > 0.0 && x == d * g
    ensures Div(x, d) == g
  {
    ScaledQuotient(d, g);
  }

  lemma SqrtOfSquare(sqrt: real -> real, g: real, r: real)
    requires IsSqrt(sqrt) && r == sqrt(g * g)
    ensures r == Abs(g)
  {
    SquareLe(g, Abs(g));
    RootIsUnique(r, Abs(g));
  }

  lemma SquareLt(a: real, b: real)
    requires 0.0 <= a < b
    ensures a * a < b * b
  {
    MulPos(b - a, b + a);
    assert (b - a) * (b + a) == b * b - a * a;
  }

  lemma RootIsUnique(r: real, a: real)
    requires 0.0 <= r && 0.0 <= a && r * r == a * a
    ensures r == a
  {
    if r < a {
      SquareLt(r, a);
    } else if a < r {
      SquareLt(a, r);
    }
  }

  /**
   Under a constant gradient g every step moves the parameter against it by exactly
   lr * g / (|g| + eps), after the decoupled decay of MetalAdamW.
   */
  lemma ConstantGradientStep(
      h: Hyper, sqrt: real -> real, ps: seq<Param>, rounds: seq<Round>, p: Param, g: real)
    requires Covers(ps, rounds) && ValidHyper(h) && Times(ps, p) == 1 && rounds != []
    requires ConstantlyFed(h, rounds, p, g) && IsSqrt(sqrt) && Abs(g) + h.eps > 0.0
    ensures var before, s := ValueIn(rounds[|rounds| - 1].values, p), RunSteps(h, sqrt, ps, rounds);
            ValueIn(s.values, p) == (if h.decoupled then before * (1.0 - h.lr * h.weightDecay) else before)
                           - h.lr * g / (Abs(g) + h.eps)
  {
    hide NewValue, MHat, VHat, IsSqrt, Abs, RunSteps, Times;
    var s := RunSteps(h, sqrt, ps, rounds);
    ConstantGradientIsRecovered(h, sqrt, ps, rounds, p, g);
    LastValue(h, sqrt, ps, rounds, p);
    SteppedValue(h, sqrt, s.step, MomentsAt(s, p), ValueIn(rounds[|rounds| - 1].values, p), g);
  }

  /** In any run, where the last step leaves a parameter that is listed once and has a gradient. */
  lemma LastValue(h: Hyper, sqrt: real -> real, ps: seq<Param>, rounds: seq<Round>, p: Param)
    requires Covers(ps, rounds) && Times(ps, p) == 1 && rounds != []
    requires GradIn(rounds[|rounds| - 1].grads, p).Some?
    ensures var s := RunSteps(h, sqrt, ps, rounds);
            ValueIn(s.values, p) == NewValue(h, sqrt, s.step, MomentsAt(s, p), ValueIn(rounds[|rounds| - 1].values, p))
  {
    hide NewValue, NextMoments, EffectiveGradient, UpdateAll, Times;
    var r, init := rounds[|rounds| - 1], rounds[..|rounds| - 1];
    LastRound(h, sqrt, ps, rounds, p);
    SingleUpdate(h, sqrt, |rounds|, Fed(RunSteps(h, sqrt, ps, init), r, p), r.grads[p].value);
  }

  lemma SteppedValue(h: Hyper, sqrt: real -> real, n: nat, mo: Moments, value: real, g: real)
    requires MHat(h, n, mo) == g && VHat(h, n, mo) == g * g && IsSqrt(sqrt) && Abs(g) + h.eps > 0.0
    ensures NewValue(h, sqrt, n, mo, value)
         == (if h.decoupled then value * (1.0 - h.lr * h.weightDecay) else value) - h.lr * g / (Abs(g) + h.eps)
  {
    hide MHat, VHat, IsSqrt;
    SqrtOfSquare(sqrt, g, sqrt(g * g));
    Negated(h.lr, g, Abs(g) + h.eps);
  }

  lemma Negated(a: real, b: real, c: real)
    requires c > 0.0
    ensures -a * b / c == -(a * b / c)
  {
  }


  // ---------------------------------------------------------------- the step size

  /** The constants C of m^2 <= C * (the second moment that the update divides by), for all gradients. */
  ghost predicate RatioConstant(h: Hyper, c: real) {
    0.0 <= c && (if h.beta1 * h.beta1 < h.beta2 then IsRatioBound(h.beta1, h.beta2, c)
                 else (h.amsgrad || h.beta1 == 0.0) && c * (1.0 - h.beta2) == 1.0)
  }

  function Denominator(h: Hyper, mo: Moments): real {
    if h.amsgrad then mo.vMax else mo.v
  }

  lemma DenominatorRatio(h: Hyper, gs: seq<real>, mo: Moments, c: real)
    requires ValidHyper(h) && RatioConstant(h, c) && mo == MomentsOf(h.beta1, h.beta2, gs)
    ensures mo.m * mo.m <= c * Denominator(h, mo) && 0.0 <= Denominator(h, mo)
  {
    hide MomentsOf, IsRatioBound;
    MomentSigns(h.beta1, h.beta2, gs);
    if h.beta1 * h.beta1 < h.beta2 {
      MomentRatio(h.beta1, h.beta2, gs, c);
    } else {
      if h.amsgrad {
        AmsgradRatio(h.beta1, h.beta2, gs);
      } else {
        MemorylessRatio(h.beta2, gs);
      }
      Inverted(1.0 - h.beta2, c, mo.m * mo.m, Denominator(h, mo));
    }
  }

  lemma Inverted(d: real, c: real, mm: real, v: real)
    requires 0.0 <= c && c * d == 1.0 && d * mm <= v
    ensures mm <= c * v
  {
    MulLe(d * mm, v, c);
    assert c * (d * mm) == c * d * mm;
  }

  lemma UpdateBounded(h: Hyper, sqrt: real -> real, n: nat, mo: Moments, c: real)
    requires ValidHyper(h) && IsSqrt(sqrt) && n > 0 && 0.0 <= c
    requires mo.m * mo.m <= c * Denominator(h, mo) && 0.0 <= Denominator(h, mo)
    ensures var u := AdamUpdate(h, sqrt, n, mo);
            u * u * ((1.0 - h.beta1) * (1.0 - h.beta1)) <= h.lr * h.lr * c
  {
    hide Pow, MHat, VHat;
    var q := Square(1.0 - h.beta1);
    var mh, vh := MHat(h, n, mo), VHat(h, n, mo);
    HatsBounded(h, n, mo, c, q, mh, vh);
    DividedStep(h.lr, mh, vh, q, sqrt(vh), sqrt(vh) + h.eps, c, AdamUpdate(h, sqrt, n, mo));
  }

  lemma HatsBounded(h: Hyper, n: nat, mo: Moments, c: real, q: real, mh: real, vh: real)
    requires ValidHyper(h) && n > 0 && 0.0 <= c && mo.m * mo.m <= c * Denominator(h, mo) && 0.0 <= Denominator(h, mo)
    requires q == (1.0 - h.beta1) * (1.0 - h.beta1) && mh == MHat(h, n, mo) && vh == VHat(h, n, mo)
    ensures 0.0 <= vh && mh * mh * q <= c * vh
  {
    hide Pow;
    var p1, p2 := 1.0 - Pow(h.beta1, n), 1.0 - Pow(h.beta2, n);
    BetaCorrection(h.beta1, n);
    BetaCorrection(h.beta2, n);
    Corrected(mo.m, Denominator(h, mo), p1, p2, mh, vh, c);
    SquareMono(1.0 - h.beta1, p1);
    ShrinkFactor(mh, q, p1 * p1, c * vh);
  }

  lemma ShrinkFactor(mh: real, q: real, q': real, r: real)
    requires q <= q' && mh * mh * q' <= r
    ensures mh * mh * q <= r
  {
    SquareLe(mh, Abs(mh));
    MulLe(q, q', mh * mh);
  }

  lemma DividedStep(lr: real, mh: real, vh: real, q: real, s: real, den: real, c: real, u: real)
    requires 0.0 <= lr && 0.0 <= c && 0.0 <= q && mh * mh * q <= c * vh
    requires 0.0 <= s <= den && s * s == vh && u == Div(-lr * mh, den)
    ensures u * u * q <= lr * lr * c
  {
    if den == 0.0 {
      assert u == 0.0;
      MulLe(0.0, lr, lr);
      MulLe(0.0, c, lr * lr);
    } else {
      var w := mh / den;
      StepBounded(c, mh, vh, q, s, den, w);
      assert w * den == mh;
      assert u * den == -lr * mh;
      CancelEq(u, -lr * w, den);
      SquareLe(lr, Abs(lr));
      MulLe(w * w * q, c, lr * lr);
      assert u * u * q == lr * lr * (w * w * q);
    }
  }

  /** What one update leaves of the value before Adam's own step is added. */
  function DecayFactor(h: Hyper): real {
    if h.decoupled && h.weightDecay != 0.0 then 1.0 - h.lr * h.weightDecay else 1.0
  }

  /** lr * sqrt(C) / (1 - beta1), or anything larger. */
  ghost predicate StepLimit(h: Hyper, c: real, u: real) {
    0.0 <= u && h.lr * h.lr * c <= u * u * ((1.0 - h.beta1) * (1.0 - h.beta1))
  }

  lemma UpdateWithin(h: Hyper, sqrt: real -> real, n: nat, gs: seq<real>, mo: Moments, c: real, u: real)
    requires ValidHyper(h) && IsSqrt(sqrt) && n > 0 && RatioConstant(h, c) && StepLimit(h, c, u)
    requires mo == MomentsOf(h.beta1, h.beta2, gs)
    ensures Abs(AdamUpdate(h, sqrt, n, mo)) <= u
  {
    hide MomentsOf, AdamUpdate, IsSqrt;
    DenominatorRatio(h, gs, mo, c);
    UpdateBounded(h, sqrt, n, mo, c);
    var q := Square(1.0 - h.beta1);
    SquaresCancel(AdamUpdate(h, sqrt, n, mo), u, q);
  }

  lemma SquaresCancel(x: real, u: real, q: real)
    requires 0.0 <= u && 0.0 < q && x * x * q <= u * u * q
    ensures Abs(x) <= u
  {
    CancelLe(x * x, u * u, q);
    if u < Abs(x) {
      SquareLt(u, Abs(x));
    }
  }

  /** v is off the n-fold decayed start by at most u times the sum of the first n decay powers. */
  ghost predicate Drifted(f: real, u: real, n: nat, start: real, v: real) {
    Off(v, Pow(f, n), start, u, Powers(Abs(f), n))
  }

  ghost predicate Off(v: real, w: real, start: real, u: real, s: real) {
    Abs(v - w * start) <= u * s
  }

  lemma {:induction false} RepeatMoves(
      h: Hyper, sqrt: real -> real, step: nat, slot: Slot, grad: real, n: nat, c: real, u: real)
    requires ValidHyper(h) && IsSqrt(sqrt) && step > 0 && RatioConstant(h, c) && StepLimit(h, c, u) && Faithful(h, slot)
    ensures Drifted(DecayFactor(h), u, n, slot.value, Repeat(h, sqrt, step, slot, Some(grad), n).value)
  {
    hide Faithful, UpdateSlot, RatioConstant, IsSqrt, DecayFactor, Drifted;
    var f := DecayFactor(h);
    if n == 0 {
      NoDrift(f, u, slot.value);
    } else {
      var before := Repeat(h, sqrt, step, slot, Some(grad), n - 1);
      RepeatMoves(h, sqrt, step, slot, grad, n - 1, c, u);
      RepeatFaithful(h, sqrt, step, slot, Some(grad), n - 1);
      var x := SlotMoves(h, sqrt, step, before, grad, c, u);
      DriftNext(f, u, n, slot.value, before.value, x, UpdateSlot(h, sqrt, step, before, grad).value);
    }
  }

  lemma NoDrift(f: real, u: real, value: real)
    ensures Drifted(f, u, 0, value, value)
  {
    assert Pow(f, 0) == 1.0 && Powers(Abs(f), 0) == 0.0;
  }

  lemma SlotMoves(h: Hyper, sqrt: real -> real, step: nat, slot: Slot, grad: real, c: real, u: real) returns (x: real)
    requires ValidHyper(h) && IsSqrt(sqrt) && step > 0 && RatioConstant(h, c) && StepLimit(h, c, u) && Faithful(h, slot)
    ensures Abs(x) <= u && UpdateSlot(h, sqrt, step, slot, grad).value == DecayFactor(h) * slot.value + x
  {
    hide MomentsOf, NextMoments, AdamUpdate, EffectiveGradient, IsSqrt, RatioConstant, StepLimit;
    var g := EffectiveGradient(h, slot.value, grad);
    RecurrenceIsClosedForm(h.beta1, h.beta2, slot.seen, g);
    var mo := NextMoments(h.beta1, h.beta2, slot.moments, g);
    UpdateWithin(h, sqrt, step, slot.seen + [g], mo, c, u);
    x := AdamUpdate(h, sqrt, step, mo);
  }

  lemma DriftNext(f: real, u: real, n: nat, start: real, v: real, x: real, after: real)
    requires n > 0 && 0.0 <= u && Abs(x) <= u && after == f * v + x && Drifted(f, u, n - 1, start, v)
    ensures Drifted(f, u, n, start, after)
  {
    hide *;
    var w, s, ws, us := OpenDrift(f, u, n - 1, start, v);
    NextPowers(f, n, w, s);
    AfterDrift(f, u, start, v, x, after, w, s, ws, us, Pow(f, n), Powers(Abs(f), n));
    CloseDrift(f, u, n, start, after);
  }

  lemma OpenDrift(f: real, u: real, n: nat, start: real, v: real) returns (w: real, s: real, ws: real, us: real)
    requires Drifted(f, u, n, start, v)
    ensures w == Pow(f, n) && s == Powers(Abs(f), n) && ws == w * start && us == u * s && Abs(v - ws) <= us
  {
    w, s := Pow(f, n), Powers(Abs(f), n);
    ws, us := Pow(f, n) * start, u * Powers(Abs(f), n);
  }

  lemma NextPowers(f: real, n: nat, w: real, s: real)
    requires n > 0 && w == Pow(f, n - 1) && s == Powers(Abs(f), n - 1)
    ensures Pow(f, n) == f * w && Powers(Abs(f), n) == 1.0 + Abs(f) * s
  {
    PowUnfold(f, n, w, Pow(f, n));
    PowersUnfold(Abs(f), n, s, Powers(Abs(f), n));
  }

  lemma AfterDrift(f: real, u: real, start: real, v: real, x: real, after: real,
                   w: real, s: real, ws: real, us: real, w': real, s': real)
    requires ws == w * start && us == u * s && Abs(v - ws) <= us && Abs(x) <= u && after == f * v + x
    requires w' == f * w && s' == 1.0 + Abs(f) * s
    ensures Off(after, w', start, u, s')
  {
    Contract(f, v, ws, x, u, us, f * v, f * ws, Abs(f) * us);
    Assoc(f, w, start, u, Abs(f), s);
    assert after == f * v + x;
  }

  lemma Assoc(f: real, w: real, start: real, u: real, a: real, s: real)
    ensures f * w * start == f * (w * start)
    ensures u * (1.0 + a * s) == u + a * (u * s)
  {
  }

  lemma CloseDrift(f: real, u: real, n: nat, start: real, v: real)
    requires Off(v, Pow(f, n), start, u, Powers(Abs(f), n))
    ensures Drifted(f, u, n, start, v)
  {
  }

  lemma Contract(f: real, v: real, w: real, x: real, u: real, d: real, fv: real, fw: real, fd: real)
    requires Abs(v - w) <= d && Abs(x) <= u && fv == f * v && fw == f * w && fd == Abs(f) * d
    ensures Abs(fv + x - fw) <= u + fd
  {
    var fvw := f * (v - w);
    AbsProduct(f, v - w);
    ProductsLe(Abs(v - w), d, Abs(f), Abs(v - w) * Abs(f), fd);
    Difference(f, v, w, fvw, fv, fw);
  }

  lemma Difference(f: real, v: real, w: real, fvw: real, fv: real, fw: real)
    requires fvw == f * (v - w) && fv == f * v && fw == f * w
    ensures fvw == fv - fw
  {
  }

  /**
   Whenever a ratio constant C exists (beta1^2 < beta2, or AMSGrad, or beta1 = 0), no gradients can make
   one step move a parameter listed k times away from its k-fold decayed value by more than
   U * (1 + |f| + ... + |f|^(k-1)), U = lr * sqrt(C) / (1 - beta1) and f the decay factor; without a
   gradient it does not move.
   */
  lemma StepMoves(h: Hyper, sqrt: real -> real, ps: seq<Param>, rounds: seq<Round>, p: Param, c: real, u: real)
    requires Covers(ps, rounds) && ValidHyper(h) && IsSqrt(sqrt) && rounds != [] && p in ps
    requires RatioConstant(h, c) && StepLimit(h, c, u)
    ensures var r, s := rounds[|rounds| - 1], RunSteps(h, sqrt, ps, rounds);
            var f, k := DecayFactor(h), Times(ps, p);
            && p in s.values
            && (r.grads[p].None? ==> s.values[p] == r.values[p])
            && (r.grads[p].Some? ==> Drifted(f, u, k, r.values[p], s.values[p]))
  {
    hide MomentsOf, UpdateAll, RatioConstant, StepLimit, IsSqrt, Drifted, Times, Repeat, DecayFactor;
    var r, init := rounds[|rounds| - 1], rounds[..|rounds| - 1];
    var slot := Fed(RunSteps(h, sqrt, ps, init), r, p);
    assert p in RunSteps(h, sqrt, ps, rounds).values;
    LastRound(h, sqrt, ps, rounds, p);
    RunIsFaithful(h, sqrt, ps, init, p);
    if r.grads[p].Some? {
      RepeatMoves(h, sqrt, |rounds|, slot, r.grads[p].value, Times(ps, p), c, u);
    } else {
      NotRepeated(h, sqrt, |rounds|, slot, Times(ps, p));
    }
  }

  lemma NotRepeated(h: Hyper, sqrt: real -> real, step: nat, slot: Slot, n: nat)
    ensures Repeat(h, sqrt, step, slot, None, n) == slot
  {
  }

  /** Listed once, a parameter stays within U of its decayed value. */
  lemma StepMovesOnce(h: Hyper, sqrt: real -> real, ps: seq<Param>, rounds: seq<Round>, p: Param, c: real, u: real)
    requires Covers(ps, rounds) && ValidHyper(h) && IsSqrt(sqrt) && rounds != [] && p in ps && Times(ps, p) == 1
    requires RatioConstant(h, c) && StepLimit(h, c, u)
    ensures var r, s := rounds[|rounds| - 1], RunSteps(h, sqrt, ps, rounds);
            && p in s.values
            && Abs(s.values[p] - (if r.grads[p].Some? then Decayed(h, r.values[p]) else r.values[p])) <= u
  {
    hide RunSteps, RatioConstant, IsSqrt, Times;
    StepMoves(h, sqrt, ps, rounds, p, c, u);
    var f, r := DecayFactor(h), rounds[|rounds| - 1];
    assert Pow(f, 1) == f * Pow(f, 0) && Powers(Abs(f), 1) == 1.0 + Abs(f) * Powers(Abs(f), 0);
    assert f * r.values[p] == Decayed(h, r.values[p]);
  }

  ghost predicate WithinRatio(h: Hyper, mo: Moments, c: real) {
    mo.m * mo.m <= c * Denominator(h, mo)
  }

  ghost predicate AlwaysWithin(h: Hyper, c: real) {
    forall gs :: WithinRatio(h, MomentsOf(h.beta1, h.beta2, gs), c)
  }

  /** Such a constant exists for exactly these hyperparameters. */
  lemma RatioConstantExistsIff(h: Hyper)
    requires ValidHyper(h)
    ensures (exists c :: AlwaysWithin(h, c)) <==> h.amsgrad || h.beta1 == 0.0 || h.beta1 * h.beta1 < h.beta2
    ensures h.amsgrad || h.beta1 == 0.0 || h.beta1 * h.beta1 < h.beta2 ==> exists c :: RatioConstant(h, c)
  {
    hide MomentsOf;
    if h.amsgrad || h.beta1 == 0.0 || h.beta1 * h.beta1 < h.beta2 {
      var c := SomeRatioConstant(h);
      forall gs
        ensures WithinRatio(h, MomentsOf(h.beta1, h.beta2, gs), c)
      {
        DenominatorRatio(h, gs, MomentsOf(h.beta1, h.beta2, gs), c);
      }
      assert AlwaysWithin(h, c);
    } else {
      forall c
        ensures !AlwaysWithin(h, c)
      {
        var gs := Unbounded(h.beta1, h.beta2, c);
        assert !WithinRatio(h, MomentsOf(h.beta1, h.beta2, gs), c);
      }
    }
  }

  lemma SomeRatioConstant(h: Hyper) returns (c: real)
    requires ValidHyper(h) && (h.amsgrad || h.beta1 == 0.0 || h.beta1 * h.beta1 < h.beta2)
    ensures RatioConstant(h, c)
  {
    if h.beta1 * h.beta1 < h.beta2 {
      RatioBoundCleared(h.beta1, h.beta2);
      c := RatioBound(h.beta1, h.beta2);
    } else {
      c := 1.0 / (1.0 - h.beta2);
      Quotient(1.0, 1.0 - h.beta2);
    }
  }

  // ---------------------------------------------------------------- division by zero

  /** The gradients that the second moment in use remembers were all 0. */
  ghost predicate NothingRemembered(h: Hyper, gs: seq<real>) {
    if h.amsgrad || h.beta2 > 0.0 then Constant(gs, 0.0) else gs == [] || gs[|gs| - 1] == 0.0
  }

  /**
   The update divides by zero exactly when eps is 0 and every gradient that reached the parameter was
   0; with beta2 = 0 and no AMSGrad, when the last one was.
   */
  lemma DivisionByZeroIff(h: Hyper, sqrt: real -> real, ps: seq<Param>, rounds: seq<Round>, p: Param)
    requires Covers(ps, rounds) && ValidHyper(h) && IsSqrt(sqrt) && rounds != []
    ensures var s := RunSteps(h, sqrt, ps, rounds);
            sqrt(VHat(h, s.step, MomentsAt(s, p))) + h.eps == 0.0
            <==> h.eps == 0.0 && NothingRemembered(h, SeenAt(s, p))
  {
    hide MomentsOf, RunSteps, NothingRemembered;
    var s := RunSteps(h, sqrt, ps, rounds);
    RunIsFaithful(h, sqrt, ps, rounds, p);
    HatIsZeroIff(h, SeenAt(s, p), s.step, MomentsAt(s, p));
    var vh := VHat(h, s.step, MomentsAt(s, p));
    SqrtZeroIff(vh, sqrt(vh));
  }

  lemma SqrtZeroIff(v: real, r: real)
    requires 0.0 <= v && 0.0 <= r && r * r == v
    ensures r == 0.0 <==> v == 0.0
  {
    if r > 0.0 {
      var sq := Square(r);
    }
  }

  lemma HatIsZeroIff(h: Hyper, gs: seq<real>, n: nat, mo: Moments)
    requires ValidHyper(h) && n > 0 && mo == MomentsOf(h.beta1, h.beta2, gs)
    ensures 0.0 <= VHat(h, n, mo) && (VHat(h, n, mo) == 0.0 <==> NothingRemembered(h, gs))
  {
    hide Mean, Pow, SecondMoment, MaxSecondMoment, NothingRemembered;
    SecondMomentSign(h.beta2, gs);
    BetaCorrection(h.beta2, n);
    DenominatorZeroIff(h, gs, mo);
    QuotientZeroIff(Denominator(h, mo), 1.0 - Pow(h.beta2, n));
  }

  lemma DenominatorZeroIff(h: Hyper, gs: seq<real>, mo: Moments)
    requires ValidHyper(h) && mo == MomentsOf(h.beta1, h.beta2, gs)
    ensures Denominator(h, mo) == 0.0 <==> NothingRemembered(h, gs)
  {
    hide Mean, Pow, SecondMoment, MaxSecondMoment;
    if Constant(gs, 0.0) {
      ConstantMax(h.beta2, gs, 0.0);
      ConstantSecond(h.beta2, gs, 0.0, 0.0);
    }
    if h.amsgrad {
      if mo.vMax == 0.0 {
        ZeroMax(h.beta2, gs);
      }
    } else if h.beta2 > 0.0 {
      if mo.v == 0.0 {
        ZeroSecondMoment(h.beta2, gs);
      }
    } else if gs == [] {
      EmptySecond(h.beta2);
    } else {
      var g := gs[|gs| - 1];
      LastSquare(h.beta2, gs, g * g);
      ZeroSquareIff(g);
    }
  }

  lemma ZeroSquareIff(g: real)
    ensures g * g == 0.0 <==> g == 0.0
  {
    if g != 0.0 {
      var sq := Square(Abs(g));
    }
  }

  lemma NoSquare(d: real, g: real)
    requires 0.0 < d
    ensures d * (g * g) <= 0.0 ==> g == 0.0
  {
    if g != 0.0 {
      var sq := Square(Abs(g));
      assert sq == g * g;
      MulPos(d, sq);
    }
  }

  lemma ZeroMax(beta2: real, gs: seq<real>)
    requires ValidBeta(beta2) && MaxSecondMoment(beta2, gs) == 0.0
    ensures Constant(gs, 0.0)
  {
    hide MaxSecondMoment;
    forall i | 0 <= i < |gs|
      ensures gs[i] == 0.0
    {
      MaxCoversEach(beta2, gs, i, gs[i] * gs[i]);
      NoSquare(1.0 - beta2, gs[i]);
    }
  }

  lemma QuotientZeroIff(x: real, d: real)
    requires 0.0 <= x && 0.0 < d
    ensures 0.0 <= x / d && (x / d == 0.0 <==> x == 0.0)
  {
    Quotient(x, d);
  }

  // ---------------------------------------------------------------- the exact step

  /** The L2 coefficient that enters the gradient: none in MetalAdamW. */
  function L2(h: Hyper): real {
    if h.decoupled then 0.0 else h.weightDecay
  }

  lemma GradientWithDecay(h: Hyper, decay: real, value: real, grad: real)
    requires decay == L2(h)
    ensures EffectiveGradient(h, value, grad) == WithDecay(decay, grad, value)
  {
    assert decay == 0.0 ==> decay * value == 0.0;
  }

  /** A parameter listed once is updated with its raw gradients plus the L2 coefficient times its values. */
  lemma {:induction false} SeenIsReceived(h: Hyper, sqrt: real -> real, ps: seq<Param>, rounds: seq<Round>, p: Param)
    requires Covers(ps, rounds) && Times(ps, p) == 1
    ensures SeenAt(RunSteps(h, sqrt, ps, rounds), p) == Received(L2(h), rounds, p)
    decreases |rounds|
  {
    hide UpdateAll, Times, UpdateSlot, Repeat, EffectiveGradient, L2, Contribution;
    if rounds != [] {
      var r, init := rounds[|rounds| - 1], rounds[..|rounds| - 1];
      var slot := Fed(RunSteps(h, sqrt, ps, init), r, p);
      SeenIsReceived(h, sqrt, ps, init, p);
      LastRound(h, sqrt, ps, rounds, p);
      SeenNext(h, sqrt, |rounds|, slot, r, p);
    }
  }

  lemma SeenNext(h: Hyper, sqrt: real -> real, step: nat, slot: Slot, r: Round, p: Param)
    requires slot.value == ValueIn(r.values, p)
    ensures Repeat(h, sqrt, step, slot, GradIn(r.grads, p), 1).seen == slot.seen + Contribution(L2(h), r, p)
  {
    hide UpdateSlot, Repeat, EffectiveGradient, L2;
    match GradIn(r.grads, p)
    case None => NotRepeated(h, sqrt, step, slot, 1);
    case Some(g) =>
      SingleUpdate(h, sqrt, step, slot, g);
      ContributionIs(h, L2(h), r, p, g);
  }

  lemma ContributionIs(h: Hyper, decay: real, r: Round, p: Param, g: real)
    requires GradIn(r.grads, p) == Some(g) && decay == L2(h)
    ensures Contribution(decay, r, p) == [EffectiveGradient(h, ValueIn(r.values, p), g)]
  {
    hide EffectiveGradient, L2, WithDecay;
    GradientWithDecay(h, decay, ValueIn(r.values, p), g);
  }

  /** The weighted mean of the gradients, over 1 - beta1^n. */
  ghost function CorrectedFirst(h: Hyper, n: nat, gs: seq<real>): real
    requires 1.0 - Pow(h.beta1, n) != 0.0
  {
    Mean(h.beta1, gs) / (1.0 - Pow(h.beta1, n))
  }

  /** That of their squares (its largest value over all prefixes, with AMSGrad), over 1 - beta2^n. */
  ghost function CorrectedSecond(h: Hyper, n: nat, gs: seq<real>): real
    requires 1.0 - Pow(h.beta2, n) != 0.0
  {
    (if h.amsgrad then MaxSecondMoment(h.beta2, gs) else Mean(h.beta2, Squares(gs))) / (1.0 - Pow(h.beta2, n))
  }

  /**
   Where value goes in step n after the gradients gs: to f * value - lr * mHat / (sqrt(vHat) + eps), unless
   that divides by zero, f being 1 - lr * weightDecay in MetalAdamW and 1 otherwise.
   */
  ghost predicate Arrives(h: Hyper, sqrt: real -> real, n: nat, gs: seq<real>, value: real, after: real)
    requires 1.0 - Pow(h.beta1, n) != 0.0 && 1.0 - Pow(h.beta2, n) != 0.0
  {
    var mHat, den := CorrectedFirst(h, n, gs), sqrt(CorrectedSecond(h, n, gs)) + h.eps;
    var f := if h.decoupled then 1.0 - h.lr * h.weightDecay else 1.0;
    den != 0.0 ==> after == f * value - h.lr * mHat / den
  }

  /**
   The last step of a run moves a parameter listed once exactly there, by the raw gradients plus the L2
   coefficient times the values of their rounds, and a parameter without a gradient not at all.
   */
  lemma StepIsExact(h: Hyper, sqrt: real -> real, ps: seq<Param>, rounds: seq<Round>, p: Param)
    requires Covers(ps, rounds) && Times(ps, p) == 1 && rounds != [] && ValidHyper(h)
    ensures var r, value := rounds[|rounds| - 1], ValueIn(RunSteps(h, sqrt, ps, rounds).values, p);
            var gs, n := Received(if h.decoupled then 0.0 else h.weightDecay, rounds, p), |rounds|;
            if GradIn(r.grads, p).None? then value == ValueIn(r.values, p)
            else
              && 1.0 - Pow(h.beta1, n) > 0.0 && 1.0 - Pow(h.beta2, n) > 0.0
              && Arrives(h, sqrt, n, gs, ValueIn(r.values, p), value)
  {
    hide UpdateAll, Times, Repeat, RunSteps, MomentsOf, Pow, NewValue, Arrives;
    var r, init := rounds[|rounds| - 1], rounds[..|rounds| - 1];
    if GradIn(r.grads, p).None? {
      LastRound(h, sqrt, ps, rounds, p);
      NotRepeated(h, sqrt, |rounds|, Fed(RunSteps(h, sqrt, ps, init), r, p), Times(ps, p));
    } else {
      BetaCorrection(h.beta1, |rounds|);
      BetaCorrection(h.beta2, |rounds|);
      LastValue(h, sqrt, ps, rounds, p);
      SeenIsReceived(h, sqrt, ps, rounds, p);
      RunIsFaithful(h, sqrt, ps, rounds, p);
      ValueIsExact(h, sqrt, |rounds|, Received(L2(h), rounds, p), ValueIn(r.values, p));
    }
  }

  lemma ValueIsExact(h: Hyper, sqrt: real -> real, n: nat, gs: seq<real>, value: real)
    requires 1.0 - Pow(h.beta1, n) != 0.0 && 1.0 - Pow(h.beta2, n) != 0.0
    ensures Arrives(h, sqrt, n, gs, value, NewValue(h, sqrt, n, MomentsOf(h.beta1, h.beta2, gs), value))
  {
    hide CorrectedFirst, CorrectedSecond, MHat, VHat, Descent, Decayed, MomentsOf;
    HatsAre(h, n, gs);
    var mHat, den := CorrectedFirst(h, n, gs), sqrt(CorrectedSecond(h, n, gs)) + h.eps;
    if den != 0.0 {
      DescentIs(h.lr, mHat, den);
      DecayIs(h, value);
    }
  }

  lemma HatsAre(h: Hyper, n: nat, gs: seq<real>)
    requires 1.0 - Pow(h.beta1, n) != 0.0 && 1.0 - Pow(h.beta2, n) != 0.0
    ensures MHat(h, n, MomentsOf(h.beta1, h.beta2, gs)) == CorrectedFirst(h, n, gs)
    ensures VHat(h, n, MomentsOf(h.beta1, h.beta2, gs)) == CorrectedSecond(h, n, gs)
  {
    hide MaxSecondMoment, Pow, Mean;
  }

  lemma DescentIs(lr: real, mHat: real, den: real)
    requires den != 0.0
    ensures Descent(lr, mHat, den) == -(lr * mHat / den)
  {
    var q := lr * mHat / den;
    assert q * den == lr * mHat;
    var d := Descent(lr, mHat, den);
    assert d * den == -lr * mHat;
    assert (d + q) * den == 0.0;
  }

  lemma DecayIs(h: Hyper, value: real)
    ensures Decayed(h, value) == (if h.decoupled then 1.0 - h.lr * h.weightDecay else 1.0) * value
  {
    assert h.weightDecay == 0.0 ==> h.lr * h.weightDecay == 0.0;
  }
}
