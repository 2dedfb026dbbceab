/**
 Exactly which parameter lists keep Adam's bias-corrected moments within the gradients seen
 (python/metal_native/optim/adam.py): the shared step counter advances once per step, but a parameter
 is updated as often as it is listed.
 */
module AdamLists {
  import opened Wrappers
  import opened Weighted
  import opened AdamMath
  import opened Params
  import opened Adam
  import opened AdamRuns

  // ---------------------------------------------------------------- without memory

  lemma MemorylessFirstHat(h: Hyper, gs: seq<real>, bound: real, n: nat, mo: Moments)
    requires ValidHyper(h) && h.beta1 == 0.0 && Bounded(gs, bound) && 0.0 <= bound && n > 0
    requires mo == MomentsOf(h.beta1, h.beta2, gs)
    ensures Abs(MHat(h, n, mo)) <= bound
  {
    hide Mean, SecondMoment, MaxSecondMoment;
    MemorylessMean(gs);
    assert Pow(h.beta1, n) == 0.0;
  }

  lemma MemorylessSecondHat(h: Hyper, gs: seq<real>, bound: real, n: nat, mo: Moments)
    requires ValidHyper(h) && h.beta2 == 0.0 && Bounded(gs, bound) && 0.0 <= bound && n > 0
    requires mo == MomentsOf(h.beta1, h.beta2, gs)
    ensures VHat(h, n, mo) <= bound * bound
  {
    hide Mean, SecondMoment, MaxSecondMoment, Bounded;
    assert Pow(0.0, n) == 0.0;
    SecondMomentSign(h.beta2, gs);
    var m := if |gs| == 0 then 1 else |gs|;
    assert Pow(0.0, m) == 0.0;
    MaxSecondBound(0.0, gs, bound, m, 1.0, bound * bound);
  }

  // ---------------------------------------------------------------- repeated updates of one step

  /** What a mean started from 0 reaches after one entry of at least low, and after two. */
  function One(b: real, low: real): real {
    (1.0 - b) * low
  }

  function Two(b: real, low: real): real {
    One(b, low) + b * One(b, low)
  }

  predicate Raised(x: real, one: real, two: real, n: nat) {
    0.0 <= x && (n >= 1 ==> one <= x) && (n >= 2 ==> two <= x)
  }

  /** All the gradients lie within [low, high], and the moments as far from 0 as n of them put them. */
  ghost predicate Spread(h: Hyper, slot: Slot, low: real, high: real, n: nat) {
    && (forall i :: 0 <= i < |slot.seen| ==> low <= slot.seen[i] <= high)
    && slot.moments.m <= high && slot.moments.v <= slot.moments.vMax
    && Raised(slot.moments.m, One(h.beta1, low), Two(h.beta1, low), n)
    && Raised(slot.moments.v, One(h.beta2, low * low), Two(h.beta2, low * low), n)
  }

  lemma RaisedNext(b: real, x: real, y: real, low: real, n: nat, z: real)
    requires ValidBeta(b) && 0.0 <= low <= y && Raised(x, One(b, low), Two(b, low), n) && z == b * x + (1.0 - b) * y
    ensures Raised(z, One(b, low), Two(b, low), n + 1)
  {
    hide One;
    var one := OpenOne(b, low);
    var bx, cy := b * x, (1.0 - b) * y;
    ProductsLe(0.0, x, b, 0.0, bx);
    ProductsLe(low, y, 1.0 - b, one, cy);
    ProductsLe(0.0, low, 1.0 - b, 0.0, one);
    if n >= 1 {
      ProductsLe(one, x, b, b * one, bx);
    }
    assert z == bx + cy;
  }

  lemma OpenOne(b: real, low: real) returns (one: real)
    ensures one == One(b, low) == (1.0 - b) * low
  {
    one := One(b, low);
  }

  lemma MeanBelow(b: real, x: real, y: real, high: real, z: real)
    requires ValidBeta(b) && x <= high && y <= high && z == b * x + (1.0 - b) * y
    ensures z <= high
  {
    var bx, cy, bh, ch := b * x, (1.0 - b) * y, b * high, (1.0 - b) * high;
    ProductsLe(x, high, b, bx, bh);
    ProductsLe(y, high, 1.0 - b, cy, ch);
    assert bh + ch == high;
    assert z == bx + cy;
  }

  /** The largest change of value in one update: the corrected ratio is at most 2 / (1 - beta1). */
  function Reach(h: Hyper): real
    requires ValidHyper(h)
  {
    h.lr * 2.0 / (1.0 - h.beta1)
  }

  lemma SpreadNext(h: Hyper, sqrt: real -> real, slot: Slot, grad: real, low: real, high: real, n: nat)
    requires ValidHyper(h) && IsSqrt(sqrt) && Spread(h, slot, low, high, n) && 0.0 < low <= high <= 2.0 * low
    requires low <= EffectiveGradient(h, slot.value, grad) <= high
    ensures Spread(h, UpdateSlot(h, sqrt, 1, slot, grad), low, high, n + 1)
  {
    hide NewValue, EffectiveGradient, Raised, One, Two;
    var g := EffectiveGradient(h, slot.value, grad);
    var mo := NextMoments(h.beta1, h.beta2, slot.moments, g);
    RaisedNext(h.beta1, slot.moments.m, g, low, n, mo.m);
    MeanBelow(h.beta1, slot.moments.m, g, high, mo.m);
    SecondRaised(h, slot.moments.v, g, low, n, mo.v);
  }

  lemma SecondRaised(h: Hyper, x: real, g: real, low: real, n: nat, z: real)
    requires ValidHyper(h) && 0.0 < low <= g && z == h.beta2 * x + (1.0 - h.beta2) * (g * g)
    requires Raised(x, One(h.beta2, low * low), Two(h.beta2, low * low), n)
    ensures Raised(z, One(h.beta2, low * low), Two(h.beta2, low * low), n + 1)
  {
    hide One, Two, Raised;
    SquareMono(low, g);
    SquareLe(low, low);
    RaisedNext(h.beta2, x, g * g, low * low, n, z);
  }

  lemma SpreadMoves(h: Hyper, sqrt: real -> real, mo: Moments, low: real, high: real)
    requires ValidHyper(h) && IsSqrt(sqrt) && 0.0 < low <= high <= 2.0 * low
    requires 0.0 <= mo.m <= high && One(h.beta2, low * low) <= mo.v <= mo.vMax
    ensures Abs(AdamUpdate(h, sqrt, 1, mo)) <= Reach(h)
  {
    hide MHat, VHat, IsSqrt;
    var mh, vh := FirstHats(h, mo, low, high);
    var root := sqrt(vh);
    RootAbove(sqrt, vh, low);
    BoundedDescent(h.lr, mh, root + h.eps, low, 1.0 - h.beta1, AdamUpdate(h, sqrt, 1, mo));
  }

  lemma FirstHats(h: Hyper, mo: Moments, low: real, high: real) returns (mh: real, vh: real)
    requires ValidHyper(h) && 0.0 < low <= high <= 2.0 * low
    requires 0.0 <= mo.m <= high && One(h.beta2, low * low) <= mo.v <= mo.vMax
    ensures mh == MHat(h, 1, mo) && vh == VHat(h, 1, mo)
    ensures 0.0 <= mh && mh * (1.0 - h.beta1) <= 2.0 * low && low * low <= vh
  {
    PowOne(h.beta1);
    PowOne(h.beta2);
    mh, vh := MHat(h, 1, mo), VHat(h, 1, mo);
    Quotient(mo.m, 1.0 - h.beta1);
    DivideBelow(low * low, 1.0 - h.beta2, Denominator(h, mo), vh);
  }

  lemma PowOne(b: real)
    ensures Pow(b, 1) == b
  {
    assert Pow(b, 1) == b * Pow(b, 0);
  }

  lemma DivideBelow(x: real, d: real, y: real, q: real)
    requires 0.0 < d && d * x <= y && q == y / d
    ensures x <= q
  {
    assert q * d == y;
    CancelLe(x, q, d);
  }

  lemma RootAbove(sqrt: real -> real, v: real, low: real)
    requires IsSqrt(sqrt) && 0.0 < low && low * low <= v
    ensures low <= sqrt(v)
  {
    SquareLe(low, low);
    var r := sqrt(v);
    if r < low {
      SquareLt(r, low);
    }
  }

  lemma BoundedDescent(lr: real, mh: real, den: real, low: real, d: real, u: real)
    requires 0.0 <= lr && 0.0 <= mh && mh * d <= 2.0 * low && 0.0 < low <= den && 0.0 < d && u == Descent(lr, mh, den)
    ensures Abs(u) <= lr * 2.0 / d
  {
    var w := mh / den;
    assert w * den == mh;
    var q := 2.0 / d;
    assert q * d == 2.0;
    RatioBelow(w, den, d, low, q);
    Quotient(mh, den);
    assert u * den == -lr * mh;
    CancelEq(u, -(lr * w), den);
    ProductsLe(w, q, lr, w * lr, q * lr);
    ProductsLe(0.0, w, lr, 0.0, w * lr);
    assert lr * 2.0 / d == q * lr;
  }

  lemma RatioBelow(w: real, den: real, d: real, low: real, q: real)
    requires 0.0 <= w && 0.0 < low <= den && 0.0 < d && w * den * d <= 2.0 * low && q * d == 2.0
    ensures w <= q
  {
    if q < w {
      MulLt(q, w, d);
      MulLt(2.0, w * d, den);
    }
  }

  /** How far n updates of one step can push the effective gradient away from the raw one. */
  function Push(h: Hyper, n: nat): real
    requires ValidHyper(h)
  {
    h.weightDecay * (n as real * Reach(h))
  }

  const NEW := Slot(0.0, ZERO_MOMENTS, [])

  lemma EffectiveNear(h: Hyper, value: real, grad: real, n: nat, k: nat)
    requires ValidHyper(h) && n <= k && (h.decoupled || Abs(value) <= n as real * Reach(h))
    ensures Abs(EffectiveGradient(h, value, grad) - grad) <= Push(h, k)
  {
    ReachSign(h);
    MulLe(n as real, k as real, Reach(h));
    MulLe(0.0, k as real, Reach(h));
    MulLe(0.0, k as real * Reach(h), h.weightDecay);
    if !h.decoupled {
      AbsProduct(h.weightDecay, value);
      MulLe(Abs(value), k as real * Reach(h), h.weightDecay);
    }
  }

  lemma ReachSign(h: Hyper)
    requires ValidHyper(h)
    ensures 0.0 <= Reach(h)
  {
    Quotient(h.lr * 2.0, 1.0 - h.beta1);
  }

  lemma {:induction false} RepeatSpread(h: Hyper, sqrt: real -> real, grad: real, low: real, high: real, k: nat, n: nat)
    requires ValidHyper(h) && IsSqrt(sqrt) && n <= k && 0.0 < low <= high <= 2.0 * low
    requires low <= grad - Push(h, k) && grad + Push(h, k) <= high
    ensures var slot := Repeat(h, sqrt, 1, NEW, Some(grad), n);
            Spread(h, slot, low, high, n) && (h.decoupled || Abs(slot.value) <= n as real * Reach(h))
  {
    hide UpdateSlot, Spread, EffectiveGradient, Push, Reach, IsSqrt;
    if n == 0 {
      NothingSpread(h, low, high);
    } else {
      var before := Repeat(h, sqrt, 1, NEW, Some(grad), n - 1);
      RepeatSpread(h, sqrt, grad, low, high, k, n - 1);
      EffectiveNear(h, before.value, grad, n - 1, k);
      SpreadNext(h, sqrt, before, grad, low, high, n - 1);
      ValueMoves(h, sqrt, before, grad, low, high, n - 1);
    }
  }

  lemma NothingSpread(h: Hyper, low: real, high: real)
    requires ValidHyper(h) && 0.0 < low <= high
    ensures Spread(h, NEW, low, high, 0) && Abs(NEW.value) <= 0 as real * Reach(h)
  {
    hide One, Two, Reach;
  }

  lemma ValueMoves(h: Hyper, sqrt: real -> real, slot: Slot, grad: real, low: real, high: real, n: nat)
    requires ValidHyper(h) && IsSqrt(sqrt) && 0.0 < low <= high <= 2.0 * low
    requires Spread(h, UpdateSlot(h, sqrt, 1, slot, grad), low, high, n + 1)
    requires h.decoupled || Abs(slot.value) <= n as real * Reach(h)
    ensures h.decoupled || Abs(UpdateSlot(h, sqrt, 1, slot, grad).value) <= (n + 1) as real * Reach(h)
  {
    hide AdamUpdate, EffectiveGradient, Reach, IsSqrt, NextMoments, One, Two;
    var mo := UpdateSlot(h, sqrt, 1, slot, grad).moments;
    SpreadMoves(h, sqrt, mo, low, high);
    assert (n + 1) as real * Reach(h) == n as real * Reach(h) + Reach(h);
  }

  // ---------------------------------------------------------------- the overshoot

  /** A gradient so large that decay cannot level out the surplus of a second update. */
  lemma LargeGradient(b: real, c: real) returns (grad: real)
    requires 0.0 < b < 1.0 && 0.0 <= c
    ensures var low, high := grad - c, grad + c;
            0.0 < low <= high <= 2.0 * low && high < low + b * low && high * high < low * low + b * (low * low)
  {
    var q := c / b;
    assert q * b == c;
    Quotient(c, b);
    grad := 16.0 * q + 1.0;
    var gb := grad * b;
    assert gb == 16.0 * c + b;
    ProductsLe(b, 1.0, grad, gb, grad);
    Surplus(b, c, grad, gb);
  }

  lemma Surplus(b: real, c: real, grad: real, gb: real)
    requires 0.0 < b < 1.0 && 0.0 <= c && gb == grad * b && gb == 16.0 * c + b && gb <= grad
    ensures var low, high := grad - c, grad + c;
            0.0 < low <= high <= 2.0 * low && high < low + b * low && high * high < low * low + b * (low * low)
  {
    var low, high := grad - c, grad + c;
    var bc := b * c;
    ProductsLe(b, 1.0, c, bc, c);
    assert b * low == gb - bc;
    ProductsLe(0.0, b, c, 0.0, bc);
    var d := b * low - (high - low);
    assert d == gb - bc - 2.0 * c && d > 2.0 * c;
    assert high < low + b * low;
    SquareSurplus(b, c, grad, gb, low, high);
  }

  lemma SquareSurplus(b: real, c: real, grad: real, gb: real, low: real, high: real)
    requires 0.0 < b < 1.0 && 0.0 <= c && gb == grad * b && gb == 16.0 * c + b && low == grad - c && high == grad + c
    requires 0.0 < low
    ensures high * high < low * low + b * (low * low)
  {
    var gc := grad * c;
    assert high * high - low * low == 4.0 * gc;
    var bl := b * low;
    assert bl == gb - b * c;
    ProductsLe(b, 1.0, c, b * c, c);
    assert bl >= 15.0 * c + b;
    MulLe(15.0 * c + b, bl, low);
    assert bl * low == b * (low * low);
    var cl := c * low;
    MulPos(b, low);
    assert (15.0 * c + b) * low == 15.0 * cl + b * low;
    assert cl == gc - c * c;
    Leftover(b, c, grad, gb, gc, cl);
  }

  lemma Leftover(b: real, c: real, grad: real, gb: real, gc: real, cl: real)
    requires 0.0 < b < 1.0 && 0.0 <= c && gb == 16.0 * c + b && gb == grad * b && gc == grad * c && cl == gc - c * c
    ensures 4.0 * gc <= 15.0 * cl
  {
    if grad < 16.0 * c {
      MulLt(grad, 16.0 * c, b);
      ProductsLe(b, 1.0, 16.0 * c, b * (16.0 * c), 16.0 * c);
    }
    MulLe(16.0 * c, grad, c);
  }

  /** A run of one step: every listed parameter starts from 0 and gets the same gradient. */
  lemma OneStep(h: Hyper, sqrt: real -> real, ps: seq<Param>, p: Param, grad: real) returns (rounds: seq<Round>)
    requires p in ps
    ensures Covers(ps, rounds) && |rounds| == 1
    ensures SlotOf(RunSteps(h, sqrt, ps, rounds), p) == Repeat(h, sqrt, 1, NEW, Some(grad), Times(ps, p))
  {
    hide UpdateAll, Repeat, Times;
    var r := Round(map q | q in ps :: 0.0, map q | q in ps :: Some(grad));
    rounds := [r];
    LastRound(h, sqrt, ps, rounds, p);
    assert rounds[..0] == [];
    assert Fed(RunSteps(h, sqrt, ps, []), r, p) == NEW;
  }

  lemma FirstOvershoots(h: Hyper, mo: Moments, low: real, high: real)
    requires ValidHyper(h) && Two(h.beta1, low) <= mo.m && high < low + h.beta1 * low
    ensures MHat(h, 1, mo) > high
  {
    PowOne(h.beta1);
    var d, x := 1.0 - h.beta1, low + h.beta1 * low;
    assert Two(h.beta1, low) == d * x;
    DivideBelow(x, d, mo.m, mo.m / d);
  }

  lemma SecondOvershoots(h: Hyper, mo: Moments, sq: real, square: real)
    requires ValidHyper(h) && Two(h.beta2, sq) <= mo.v <= mo.vMax && square < sq + h.beta2 * sq
    ensures VHat(h, 1, mo) > square
  {
    PowOne(h.beta2);
    var d, x := 1.0 - h.beta2, sq + h.beta2 * sq;
    assert Two(h.beta2, sq) == d * x;
    DivideBelow(x, d, Denominator(h, mo), Denominator(h, mo) / d);
  }

  /** One step in which a parameter listed twice or more overshoots, in either moment that has a memory. */
  lemma Overshoot(h: Hyper, sqrt: real -> real, ps: seq<Param>, p: Param, b: real) returns (rounds: seq<Round>, bound: real)
    requires ValidHyper(h) && IsSqrt(sqrt) && Times(ps, p) >= 2 && 0.0 < b && (b == h.beta1 || b == h.beta2)
    ensures Covers(ps, rounds) && |rounds| == 1 && 0.0 <= bound
    ensures var s := RunSteps(h, sqrt, ps, rounds);
            && Bounded(SeenAt(s, p), bound)
            && (b == h.beta1 ==> MHat(h, 1, MomentsAt(s, p)) > bound)
            && (b == h.beta2 ==> VHat(h, 1, MomentsAt(s, p)) > bound * bound)
  {
    hide Push, Reach, RunSteps, Repeat, MHat, VHat, One, Two, IsSqrt;
    var k := Times(ps, p);
    PushSign(h, k);
    var c := Push(h, k);
    var grad := LargeGradient(b, c);
    rounds := OneStep(h, sqrt, ps, p, grad);
    var low := grad - c;
    bound := grad + c;
    RepeatSpread(h, sqrt, grad, low, bound, k, k);
    var mo := Repeat(h, sqrt, 1, NEW, Some(grad), k).moments;
    if b == h.beta1 {
      FirstOvershoots(h, mo, low, bound);
    }
    if b == h.beta2 {
      SecondOvershoots(h, mo, low * low, bound * bound);
    }
  }

  lemma PushSign(h: Hyper, k: nat)
    requires ValidHyper(h)
    ensures 0.0 <= Push(h, k)
  {
    ReachSign(h);
    MulLe(0.0, k as real, Reach(h));
    MulLe(0.0, k as real * Reach(h), h.weightDecay);
  }

  // ---------------------------------------------------------------- exactly when the bounds hold

  /**
   In every run the corrected first moment stays within the effective gradients seen, exactly when the
   parameter is listed at most once or the first moment has no memory.
   */
  lemma FirstMomentBoundedIff(h: Hyper, sqrt: real -> real, ps: seq<Param>, p: Param)
    requires ValidHyper(h) && IsSqrt(sqrt)
    ensures (forall rounds, bound ::
               Covers(ps, rounds) && rounds != [] && 0.0 <= bound && Bounded(SeenAt(RunSteps(h, sqrt, ps, rounds), p), bound)
               ==> Abs(MHat(h, |rounds|, MomentsAt(RunSteps(h, sqrt, ps, rounds), p))) <= bound)
            <==> Times(ps, p) <= 1 || h.beta1 == 0.0
  {
    hide Times, RunSteps, MHat, Bounded, MomentsOf, IsSqrt;
    if Times(ps, p) <= 1 || h.beta1 == 0.0 {
      forall rounds, bound | Covers(ps, rounds) && rounds != [] && 0.0 <= bound && Bounded(SeenAt(RunSteps(h, sqrt, ps, rounds), p), bound)
        ensures Abs(MHat(h, |rounds|, MomentsAt(RunSteps(h, sqrt, ps, rounds), p))) <= bound
      {
        if Times(ps, p) <= 1 {
          BiasCorrectionBounded(h, sqrt, ps, rounds, p, bound);
        } else {
          var s := RunSteps(h, sqrt, ps, rounds);
          RunIsFaithful(h, sqrt, ps, rounds, p);
          MemorylessFirstHat(h, SeenAt(s, p), bound, |rounds|, MomentsAt(s, p));
        }
      }
    } else {
      var rounds, bound := Overshoot(h, sqrt, ps, p, h.beta1);
    }
  }

  /** The same for the corrected second moment and the square of the gradients' bound. */
  lemma SecondMomentBoundedIff(h: Hyper, sqrt: real -> real, ps: seq<Param>, p: Param)
    requires ValidHyper(h) && IsSqrt(sqrt)
    ensures (forall rounds, bound ::
               Covers(ps, rounds) && rounds != [] && 0.0 <= bound && Bounded(SeenAt(RunSteps(h, sqrt, ps, rounds), p), bound)
               ==> VHat(h, |rounds|, MomentsAt(RunSteps(h, sqrt, ps, rounds), p)) <= bound * bound)
            <==> Times(ps, p) <= 1 || h.beta2 == 0.0
  {
    hide Times, RunSteps, VHat, Bounded, MomentsOf, IsSqrt;
    if Times(ps, p) <= 1 || h.beta2 == 0.0 {
      forall rounds, bound | Covers(ps, rounds) && rounds != [] && 0.0 <= bound && Bounded(SeenAt(RunSteps(h, sqrt, ps, rounds), p), bound)
        ensures VHat(h, |rounds|, MomentsAt(RunSteps(h, sqrt, ps, rounds), p)) <= bound * bound
      {
        if Times(ps, p) <= 1 {
          BiasCorrectionBounded(h, sqrt, ps, rounds, p, bound);
        } else {
          var s := RunSteps(h, sqrt, ps, rounds);
          RunIsFaithful(h, sqrt, ps, rounds, p);
          MemorylessSecondHat(h, SeenAt(s, p), bound, |rounds|, MomentsAt(s, p));
        }
      }
    } else {
      var rounds, bound := Overshoot(h, sqrt, ps, p, h.beta2);
    }
  }

  lemma TwoHalves(mo: Moments)
    requires mo == NextMoments(0.5, 0.5, NextMoments(0.5, 0.5, ZERO_MOMENTS, 1.0), 1.0)
    ensures mo.m == 0.75
  {
  }

  /** For instance, one step with gradient 1 gives a parameter listed twice the corrected moment 1.5. */
  lemma ListedTwiceOvershoots(sqrt: real -> real, p: Param)
    ensures var h := Hyper(0.1, 0.5, 0.5, 1.0, 0.0, false, false);
            var s := RunSteps(h, sqrt, [p, p], [Round(map[p := 0.0], map[p := Some(1.0)])]);
            Bounded(SeenAt(s, p), 1.0) && MHat(h, s.step, MomentsAt(s, p)) == 1.5
  {
    hide NewValue, NextMoments, RunSteps, UpdateAll;
    var h := Hyper(0.1, 0.5, 0.5, 1.0, 0.0, false, false);
    var r := Round(map[p := 0.0], map[p := Some(1.0)]);
    LastRound(h, sqrt, [p, p], [r], p);
    assert [r][..0] == [] && RunSteps(h, sqrt, [p, p], []) == OptState(0, map[], map[], map[]) by {
      NoSteps(h, sqrt, [p, p]);
    }
    assert Repeat(h, sqrt, 1, NEW, Some(1.0), 1) == UpdateSlot(h, sqrt, 1, NEW, 1.0);
    TwoHalves(MomentsAt(RunSteps(h, sqrt, [p, p], [r]), p));
    PowOne(0.5);
  }

  lemma NoSteps(h: Hyper, sqrt: real -> real, ps: seq<Param>)
    ensures RunSteps(h, sqrt, ps, []) == OptState(0, map[], map[], map[])
  {
  }
}
