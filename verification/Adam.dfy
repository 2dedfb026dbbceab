/**
 MetalAdam and MetalAdamW (python/metal_native/optim/adam.py) over whole training runs, with real
 arithmetic and one coordinate per parameter.
 */
module Adam {
  import opened Wrappers
  import opened Weighted
  import opened AdamMath
  import opened Params

  /** `decoupled` selects MetalAdamW, whose weight decay does not enter the gradient. */
  datatype Hyper = Hyper(
    lr: real, beta1: real, beta2: real, eps: real, weightDecay: real, amsgrad: bool, decoupled: bool)

  predicate ValidHyper(h: Hyper) {
    0.0 <= h.lr && 0.0 <= h.eps && ValidBeta(h.beta1) && ValidBeta(h.beta2) && 0.0 <= h.weightDecay
  }

  ghost predicate IsSqrt(sqrt: real -> real) {
    forall v :: v >= 0.0 ==> sqrt(v) >= 0.0 && sqrt(v) * sqrt(v) == v
  }

  /** Real division; a quotient by zero, NaN in the source, is taken to be 0. */
  function Div(a: real, b: real): real {
    if b == 0.0 then 0.0 else a / b
  }

  // ---------------------------------------------------------------- one update

  function EffectiveGradient(h: Hyper, value: real, grad: real): real {
    if !h.decoupled && h.weightDecay != 0.0 then grad + h.weightDecay * value else grad
  }

  function MHat(h: Hyper, step: nat, mo: Moments): real {
    Div(mo.m, 1.0 - Pow(h.beta1, step))
  }

  function VHat(h: Hyper, step: nat, mo: Moments): real {
    Div(if h.amsgrad then mo.vMax else mo.v, 1.0 - Pow(h.beta2, step))
  }

  function AdamUpdate(h: Hyper, sqrt: real -> real, step: nat, mo: Moments): real {
    Descent(h.lr, MHat(h, step, mo), sqrt(VHat(h, step, mo)) + h.eps)
  }

  function Descent(lr: real, mHat: real, denominator: real): real {
    Div(-lr * mHat, denominator)
  }

  /** The decoupled decay of MetalAdamW. */
  function Decayed(h: Hyper, value: real): real {
    if h.decoupled && h.weightDecay != 0.0 then value * (1.0 - h.lr * h.weightDecay) else value
  }

  function NewValue(h: Hyper, sqrt: real -> real, step: nat, mo: Moments, value: real): real {
    Decayed(h, value) + AdamUpdate(h, sqrt, step, mo)
  }

  /** The assignments of one loop iteration compute the update functions. */
  lemma UpdateMeets(h: Hyper, sqrt: real -> real, step: nat, was: Moments, value: real, grad: real,
                    g: real, mo: Moments, mHat: real, vHat: real, decayed: real)
    requires g == if !h.decoupled && h.weightDecay != 0.0 then grad + h.weightDecay * value else grad
    requires mo.m == h.beta1 * was.m + (1.0 - h.beta1) * g
    requires mo.v == h.beta2 * was.v + (1.0 - h.beta2) * (g * g) && mo.vMax == Max(was.vMax, mo.v)
    requires mHat == Div(mo.m, 1.0 - Pow(h.beta1, step))
    requires vHat == Div(if h.amsgrad then mo.vMax else mo.v, 1.0 - Pow(h.beta2, step))
    requires decayed == if h.decoupled && h.weightDecay != 0.0 then value * (1.0 - h.lr * h.weightDecay) else value
    ensures g == EffectiveGradient(h, value, grad) && mo == NextMoments(h.beta1, h.beta2, was, g)
    ensures decayed + Descent(h.lr, mHat, sqrt(vHat) + h.eps) == NewValue(h, sqrt, step, mo, value)
  {
    hide Div, Pow, Descent;
  }

  /** `seen` records, per parameter, the effective gradients it was updated with. */
  datatype OptState = OptState(
    step: nat, values: map<Param, real>, moments: map<Param, Moments>, seen: map<Param, seq<real>>)

  ghost function MomentsAt(s: OptState, p: Param): Moments {
    if p in s.moments then s.moments[p] else ZERO_MOMENTS
  }

  ghost function SeenAt(s: OptState, p: Param): seq<real> {
    if p in s.seen then s.seen[p] else []
  }

  /** What a run leaves at one parameter. */
  datatype Slot = Slot(value: real, moments: Moments, seen: seq<real>)

  ghost function SlotOf(s: OptState, p: Param): Slot {
    Slot(ValueIn(s.values, p), MomentsAt(s, p), SeenAt(s, p))
  }

  ghost function UpdateSlot(h: Hyper, sqrt: real -> real, step: nat, slot: Slot, grad: real): Slot {
    var g := EffectiveGradient(h, slot.value, grad);
    var mo := NextMoments(h.beta1, h.beta2, slot.moments, g);
    Slot(NewValue(h, sqrt, step, mo, slot.value), mo, slot.seen + [g])
  }

  ghost function UpdateOne(h: Hyper, sqrt: real -> real, s: OptState, p: Param, grad: Option<real>): (t: OptState)
    requires p in s.values
    ensures t.step == s.step && t.values.Keys == s.values.Keys
  {
    if grad.None? then s
    else
      var slot := UpdateSlot(h, sqrt, s.step, SlotOf(s, p), grad.value);
      OptState(s.step, s.values[p := slot.value], s.moments[p := slot.moments], s.seen[p := slot.seen])
  }

  /** The loop over the parameter list; a parameter listed twice is updated twice. */
  ghost function UpdateAll(h: Hyper, sqrt: real -> real, s: OptState, ps: seq<Param>, grads: map<Param, Option<real>>): (t: OptState)
    requires forall p :: p in ps ==> p in s.values && p in grads
    ensures t.step == s.step && t.values.Keys == s.values.Keys
    decreases |ps|
  {
    if ps == [] then s
    else
      var init := ps[..|ps| - 1];
      assert forall p :: p in init ==> p in ps;
      UpdateOne(h, sqrt, UpdateAll(h, sqrt, s, init, grads), ps[|ps| - 1], grads[ps[|ps| - 1]])
  }

  // ---------------------------------------------------------------- the class

  class AdamOptimizer {
    const params: seq<Param>
    const h: Hyper
    const sqrt: real -> real
    var stepCount: nat
    var state: map<Param, Moments>
    ghost var seen: map<Param, seq<real>>

    constructor (params: seq<Param>, h: Hyper, sqrt: real -> real)
      ensures this.params == params && this.h == h && this.sqrt == sqrt
      ensures stepCount == 0 && state == map[] && seen == map[]
    {
      this.params, this.h, this.sqrt := params, h, sqrt;
      stepCount, state, seen := 0, map[], map[];
    }

    ghost function Abstract(): OptState
      reads this, params
    {
      OptState(stepCount, map p | p in params :: p.value, state, seen)
    }

    ghost function Grads(): map<Param, Option<real>>
      reads params
    {
      map p | p in params :: p.grad
    }

    /** The body of the loop for one parameter that has a gradient. */
    method UpdateParam(p: Param)
      requires p.grad.Some?
      modifies this, p
      ensures stepCount == old(stepCount) && p.grad == old(p.grad)
      ensures var g := EffectiveGradient(h, old(p.value), old(p.grad.value));
              var was := if p in old(state) then old(state)[p] else ZERO_MOMENTS;
              var mo := NextMoments(h.beta1, h.beta2, was, g);
              && state == old(state)[p := mo]
              && p.value == NewValue(h, sqrt, stepCount, mo, old(p.value))
              && seen == old(seen)[p := (if p in old(seen) then old(seen)[p] else []) + [g]]
    {
      hide NewValue, NextMoments, EffectiveGradient, Pow, Div, Descent;
      if p !in state {
        state := state[p := ZERO_MOMENTS];
      }
      ghost var was, value, grad := state[p], p.value, p.grad.value;
      var g := p.grad.value;
      if !h.decoupled && h.weightDecay != 0.0 {
        g := g + h.weightDecay * p.value;
      }
      var m := h.beta1 * state[p].m + (1.0 - h.beta1) * g;
      var v := h.beta2 * state[p].v + (1.0 - h.beta2) * (g * g);
      var vMax := Max(state[p].vMax, v);
      state := state[p := Moments(m, v, vMax)];
      var mHat := Div(m, 1.0 - Pow(h.beta1, stepCount));
      var vHat := Div(if h.amsgrad then vMax else v, 1.0 - Pow(h.beta2, stepCount));
      var update := Descent(h.lr, mHat, sqrt(vHat) + h.eps);
      seen := seen[p := (if p in seen then seen[p] else []) + [g]];
      if h.decoupled && h.weightDecay != 0.0 {
        p.value := p.value * (1.0 - h.lr * h.weightDecay);
      }
      UpdateMeets(h, sqrt, stepCount, was, value, grad, g, Moments(m, v, vMax), mHat, vHat, p.value);
      p.value := p.value + update;
    }

    /** Parameters without a gradient are skipped. */
    method VisitParam(p: Param)
      requires p in params
      modifies this, p
      ensures Grads() == old(Grads())
      ensures Abstract() == UpdateOne(h, sqrt, old(Abstract()), p, old(p.grad))
    {
      hide NewValue, NextMoments, EffectiveGradient;
      if p.grad.Some? {
        UpdateParam(p);
      }
    }

    method Step()
      modifies this, params
      ensures Grads() == old(Grads())
      ensures Abstract() == UpdateAll(h, sqrt, old(Abstract()).(step := old(stepCount) + 1), params, old(Grads()))
    {
      hide UpdateOne;
      ghost var s0, grads := Abstract().(step := stepCount + 1), Grads();
      stepCount := stepCount + 1;
      assert Abstract() == s0;
      for i := 0 to |params|
        invariant Grads() == grads
        invariant Abstract() == UpdateAll(h, sqrt, s0, params[..i], grads)
      {
        assert params[..i + 1][..i] == params[..i];
        assert Grads()[params[i]] == params[i].grad;
        VisitParam(params[i]);
      }
      assert params[..|params|] == params;
    }

    method ZeroGrad()
      modifies params
      ensures forall p :: p in params ==> p.grad == None && p.value == old(p.value)
    {
      for i := 0 to |params|
        invariant forall p :: p in params ==> p.value == old(p.value)
        invariant forall k :: 0 <= k < i ==> params[k].grad == None
      {
        params[i].grad := None;
      }
    }
  }

  method MakeAdam(params: seq<Param>, h: Hyper, sqrt: real -> real) returns (r: Result<AdamOptimizer>)
    ensures r.Ok? <==> ValidHyper(h)
    ensures r.Ok? <==> 0.0 <= h.lr && 0.0 <= h.eps && 0.0 <= h.beta1 < 1.0 && 0.0 <= h.beta2 < 1.0 && 0.0 <= h.weightDecay
    ensures r.Ok? ==> r.value.params == params && r.value.h == h && r.value.stepCount == 0 && r.value.state == map[]
  {
    if h.lr < 0.0 || h.eps < 0.0 {
      return Err(InvalidArgument);
    }
    if !(0.0 <= h.beta1 < 1.0) || !(0.0 <= h.beta2 < 1.0) {
      return Err(InvalidArgument);
    }
    if h.weightDecay < 0.0 {
      return Err(InvalidArgument);
    }
    var a := new AdamOptimizer(params, h, sqrt);
    return Ok(a);
  }

  // ---------------------------------------------------------------- whole runs

  ghost function RunSteps(h: Hyper, sqrt: real -> real, ps: seq<Param>, rounds: seq<Round>): (s: OptState)
    requires Covers(ps, rounds)
    ensures s.step == |rounds|
    decreases |rounds|
  {
    if rounds == [] then OptState(0, map[], map[], map[])
    else
      var r := rounds[|rounds| - 1];
      var s := RunSteps(h, sqrt, ps, rounds[..|rounds| - 1]);
      UpdateAll(h, sqrt, s.(step := s.step + 1, values := r.values), ps, r.grads)
  }

  lemma RunOneMore(h: Hyper, sqrt: real -> real, ps: seq<Param>, rounds: seq<Round>, k: nat)
    requires Covers(ps, rounds) && k < |rounds|
    ensures var s, r := RunSteps(h, sqrt, ps, rounds[..k]), rounds[k];
            RunSteps(h, sqrt, ps, rounds[..k + 1]) == UpdateAll(h, sqrt, s.(step := s.step + 1, values := r.values), ps, r.grads)
  {
    hide UpdateAll;
    assert rounds[..k + 1][..k] == rounds[..k];
  }

  /** One round of training: values and gradients are computed elsewhere, then the optimizer steps. */
  method TrainRound(o: AdamOptimizer, r: Round)
    requires r.values.Keys == r.grads.Keys == Listed(o.params)
    modifies o, o.params
    ensures o.Abstract() == UpdateAll(o.h, o.sqrt, OptState(old(o.stepCount) + 1, r.values, old(o.state), old(o.seen)),
                                      o.params, r.grads)
  {
    hide UpdateAll;
    SetParams(o.params, r);
    assert o.Abstract().values == r.values && o.Grads() == r.grads;
    o.Step();
  }

  /** The documented training loop. */
  method Train(o: AdamOptimizer, rounds: seq<Round>)
    requires o.stepCount == 0 && o.state == map[] && o.seen == map[]
    requires Exactly(o.params, rounds) && rounds != []
    modifies o, o.params
    ensures Covers(o.params, rounds) && o.Abstract() == RunSteps(o.h, o.sqrt, o.params, rounds)
  {
    ExactlyCovers(o.params, rounds);
    assert RunSteps(o.h, o.sqrt, o.params, rounds[..0]) == OptState(0, map[], map[], map[]);
    hide UpdateAll, RunSteps;
    for k := 0 to |rounds|
      invariant var s := RunSteps(o.h, o.sqrt, o.params, rounds[..k]);
                o.stepCount == s.step && o.state == s.moments && o.seen == s.seen
                && (k > 0 ==> o.Abstract() == s)
    {
      RunOneMore(o.h, o.sqrt, o.params, rounds, k);
      TrainRound(o, rounds[k]);
    }
    assert rounds[..|rounds|] == rounds;
  }
}
