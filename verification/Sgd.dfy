/**
 MetalSGD (python/metal_native/optim/sgd.py) over whole training runs, with real arithmetic and one
 coordinate per parameter.
 */
module Sgd {
  import opened Wrappers
  import opened Weighted
  import opened Params

  datatype Hyper = Hyper(lr: real, momentum: real, dampening: real, weightDecay: real, nesterov: bool)

  predicate ValidHyper(h: Hyper) {
    && 0.0 <= h.lr && 0.0 <= h.momentum && 0.0 <= h.weightDecay
    && (h.nesterov ==> 0.0 < h.momentum && h.dampening == 0.0)
  }

  function EffectiveGradient(h: Hyper, value: real, grad: real): real {
    if h.weightDecay != 0.0 then grad + h.weightDecay * value else grad
  }

  function NextBuffer(h: Hyper, buf: real, g: real): real {
    h.momentum * buf + (1.0 - h.dampening) * g
  }

  /** What the parameter moves along, given the buffer after this update. */
  function Direction(h: Hyper, buf: real, g: real): real {
    if h.momentum == 0.0 then g else if h.nesterov then g + h.momentum * buf else buf
  }

  function NewValue(h: Hyper, value: real, buf: real, g: real): real {
    value - h.lr * Direction(h, buf, g)
  }

  /** `seen` records, per parameter, the effective gradients it was updated with. */
  datatype SgdState = SgdState(values: map<Param, real>, buffers: map<Param, real>, seen: map<Param, seq<real>>)

  ghost function BufferAt(s: SgdState, p: Param): real {
    if p in s.buffers then s.buffers[p] else 0.0
  }

  ghost function SeenAt(s: SgdState, p: Param): seq<real> {
    if p in s.seen then s.seen[p] else []
  }

  /** What a run leaves at one parameter. */
  datatype Slot = Slot(value: real, buffer: real, seen: seq<real>)

  ghost function SlotOf(s: SgdState, p: Param): Slot {
    Slot(ValueIn(s.values, p), BufferAt(s, p), SeenAt(s, p))
  }

  ghost function UpdateSlot(h: Hyper, slot: Slot, grad: real): Slot {
    var g := EffectiveGradient(h, slot.value, grad);
    var buf := NextBuffer(h, slot.buffer, g);
    Slot(NewValue(h, slot.value, buf, g), if h.momentum != 0.0 then buf else slot.buffer, slot.seen + [g])
  }

  ghost function UpdateOne(h: Hyper, s: SgdState, p: Param, grad: Option<real>): (t: SgdState)
    requires p in s.values
    ensures t.values.Keys == s.values.Keys
  {
    if grad.None? then s
    else
      var slot := UpdateSlot(h, SlotOf(s, p), grad.value);
      SgdState(s.values[p := slot.value],
               if h.momentum != 0.0 then s.buffers[p := slot.buffer] else s.buffers,
               s.seen[p := slot.seen])
  }

  /** The loop over the parameter list. */
  ghost function UpdateAll(h: Hyper, s: SgdState, ps: seq<Param>, grads: map<Param, Option<real>>): (t: SgdState)
    requires forall p :: p in ps ==> p in s.values && p in grads
    ensures t.values.Keys == s.values.Keys
    decreases |ps|
  {
    if ps == [] then s
    else
      var init := ps[..|ps| - 1];
      assert forall p :: p in init ==> p in ps;
      UpdateOne(h, UpdateAll(h, s, init, grads), ps[|ps| - 1], grads[ps[|ps| - 1]])
  }

  // ---------------------------------------------------------------- the class

  class SgdOptimizer {
    const params: seq<Param>
    const h: Hyper
    var state: map<Param, real>
    ghost var seen: map<Param, seq<real>>

    constructor (params: seq<Param>, h: Hyper)
      ensures this.params == params && this.h == h && state == map[] && seen == map[]
    {
      this.params, this.h := params, h;
      state, seen := map[], map[];
    }

    ghost function Abstract(): SgdState
      reads this, params
    {
      SgdState(map p | p in params :: p.value, state, seen)
    }

    ghost function Grads(): map<Param, Option<real>>
      reads params
    {
      map p | p in params :: p.grad
    }

    method UpdateParam(p: Param)
      requires p.grad.Some?
      modifies this, p
      ensures p.grad == old(p.grad)
      ensures var g := EffectiveGradient(h, old(p.value), old(p.grad.value));
              var buf := NextBuffer(h, if p in old(state) then old(state)[p] else 0.0, g);
              && p.value == NewValue(h, old(p.value), buf, g)
              && state == (if h.momentum != 0.0 then old(state)[p := buf] else old(state))
              && seen == old(seen)[p := (if p in old(seen) then old(seen)[p] else []) + [g]]
    {
      var g := EffectiveGradient(h, p.value, p.grad.value);
      seen := seen[p := (if p in seen then seen[p] else []) + [g]];
      var direction := g;
      if h.momentum != 0.0 {
        if p !in state {
          state := state[p := 0.0];
        }
        var buf := NextBuffer(h, state[p], g);
        state := state[p := buf];
        if h.nesterov {
          direction := g + h.momentum * buf;
        } else {
          direction := buf;
        }
      }
      p.value := p.value - h.lr * direction;
    }

    /** Parameters without a gradient are skipped. */
    method VisitParam(p: Param)
      requires p in params
      modifies this, p
      ensures Grads() == old(Grads())
      ensures Abstract() == UpdateOne(h, old(Abstract()), p, old(p.grad))
    {
      hide EffectiveGradient, NextBuffer, NewValue;
      if p.grad.Some? {
        UpdateParam(p);
      }
    }

    method Step()
      modifies this, params
      ensures Grads() == old(Grads())
      ensures Abstract() == UpdateAll(h, old(Abstract()), params, old(Grads()))
    {
      hide UpdateOne;
      ghost var s0, grads := Abstract(), Grads();
      for i := 0 to |params|
        invariant Grads() == grads
        invariant Abstract() == UpdateAll(h, s0, params[..i], grads)
      {
        assert params[..i + 1][..i] == params[..i];
        assert Grads()[params[i]] == params[i].grad;
        VisitParam(params[i]);
      }
      assert params[..|params|] == params;
    }
  }

  method MakeSgd(params: seq<Param>, h: Hyper) returns (r: Result<SgdOptimizer>)
    ensures r.Ok? <==> ValidHyper(h)
    ensures r.Ok? <==>
            && 0.0 <= h.lr && 0.0 <= h.momentum && 0.0 <= h.weightDecay
            && !(h.nesterov && (h.momentum <= 0.0 || h.dampening != 0.0))
    ensures r.Ok? ==> r.value.params == params && r.value.h == h && r.value.state == map[]
  {
    if h.lr < 0.0 || h.momentum < 0.0 || h.weightDecay < 0.0 {
      return Err(InvalidArgument);
    }
    if h.nesterov && (h.momentum <= 0.0 || h.dampening != 0.0) {
      return Err(InvalidArgument);
    }
    var o := new SgdOptimizer(params, h);
    return Ok(o);
  }

  // ---------------------------------------------------------------- whole runs

  ghost function RunSteps(h: Hyper, ps: seq<Param>, rounds: seq<Round>): SgdState
    requires Covers(ps, rounds)
    decreases |rounds|
  {
    if rounds == [] then SgdState(map[], map[], map[])
    else
      var r := rounds[|rounds| - 1];
      UpdateAll(h, RunSteps(h, ps, rounds[..|rounds| - 1]).(values := r.values), ps, r.grads)
  }

  lemma RunOneMore(h: Hyper, ps: seq<Param>, rounds: seq<Round>, k: nat)
    requires Covers(ps, rounds) && k < |rounds|
    ensures var s, r := RunSteps(h, ps, rounds[..k]), rounds[k];
            RunSteps(h, ps, rounds[..k + 1]) == UpdateAll(h, s.(values := r.values), ps, r.grads)
  {
    hide UpdateAll;
    assert rounds[..k + 1][..k] == rounds[..k];
  }

  /** One round of training: values and gradients are computed elsewhere, then the optimizer steps. */
  method TrainRound(o: SgdOptimizer, r: Round)
    requires r.values.Keys == r.grads.Keys == Listed(o.params)
    modifies o, o.params
    ensures o.Abstract() == UpdateAll(o.h, SgdState(r.values, old(o.state), old(o.seen)), o.params, r.grads)
  {
    hide UpdateAll;
    SetParams(o.params, r);
    assert o.Abstract().values == r.values && o.Grads() == r.grads;
    o.Step();
  }

  /** The documented training loop. */
  method Train(o: SgdOptimizer, rounds: seq<Round>)
    requires o.state == map[] && o.seen == map[]
    requires Exactly(o.params, rounds) && rounds != []
    modifies o, o.params
    ensures Covers(o.params, rounds) && o.Abstract() == RunSteps(o.h, o.params, rounds)
  {
    ExactlyCovers(o.params, rounds);
    assert RunSteps(o.h, o.params, rounds[..0]) == SgdState(map[], map[], map[]);
    hide UpdateAll, RunSteps;
    for k := 0 to |rounds|
      invariant var s := RunSteps(o.h, o.params, rounds[..k]);
                o.state == s.buffers && o.seen == s.seen && (k > 0 ==> o.Abstract() == s)
    {
      RunOneMore(o.h, o.params, rounds, k);
      TrainRound(o, rounds[k]);
    }
    assert rounds[..|rounds|] == rounds;
  }

  /** The buffer as the explicit sum of momentum^(n-1-i) * (1 - dampening) * g_i. */
  ghost function BufferOf(h: Hyper, gs: seq<real>): real {
    (1.0 - h.dampening) * WeightedSum(h.momentum, gs)
  }

  lemma BufferAppend(h: Hyper, gs: seq<real>, g: real)
    ensures BufferOf(h, []) == 0.0
    ensures BufferOf(h, gs + [g]) == NextBuffer(h, BufferOf(h, gs), g)
  {
    WeightedSumAppend(h.momentum, gs, g);
    Spread(1.0 - h.dampening, h.momentum, WeightedSum(h.momentum, gs), g, WeightedSum(h.momentum, gs + [g]));
  }

  lemma Spread(c: real, b: real, w: real, x: real, sum: real)
    requires sum == b * w + x
    ensures c * sum == b * (c * w) + c * x
  {
  }

  // ---------------------------------------------------------------- one parameter within a run

  /** n updates of one parameter within the same step. */
  ghost function Repeat(h: Hyper, slot: Slot, grad: Option<real>, n: nat): Slot {
    if n == 0 || grad.None? then slot else UpdateSlot(h, Repeat(h, slot, grad, n - 1), grad.value)
  }

  lemma UpdateOneAt(h: Hyper, s: SgdState, q: Param, grad: Option<real>, p: Param)
    requires q in s.values
    ensures SlotOf(UpdateOne(h, s, q, grad), p) ==
            if p == q && grad.Some? then UpdateSlot(h, SlotOf(s, p), grad.value) else SlotOf(s, p)
  {
    hide EffectiveGradient, NextBuffer, NewValue;
  }

  /** A step updates a parameter as often as it is listed, each time with its own slot only. */
  lemma {:induction false} UpdatedTimes(h: Hyper, s: SgdState, ps: seq<Param>, grads: map<Param, Option<real>>, p: Param)
    requires forall q :: q in ps ==> q in s.values && q in grads
    ensures SlotOf(UpdateAll(h, s, ps, grads), p) == Repeat(h, SlotOf(s, p), GradIn(grads, p), Times(ps, p))
    decreases |ps|
  {
    hide UpdateOne, UpdateSlot, SlotOf;
    if ps != [] {
      var init, last := ps[..|ps| - 1], ps[|ps| - 1];
      TimesLast(ps, p);
      UpdatedTimes(h, s, init, grads, p);
      UpdateOneAt(h, UpdateAll(h, s, init, grads), last, grads[last], p);
      OneMoreTime(h, SlotOf(s, p), GradIn(grads, p), Times(init, p));
    }
  }

  lemma OneMoreTime(h: Hyper, slot: Slot, grad: Option<real>, n: nat)
    ensures var before := Repeat(h, slot, grad, n);
            Repeat(h, slot, grad, n + 1) == if grad.Some? then UpdateSlot(h, before, grad.value) else before
  {
    hide UpdateSlot;
    if grad.None? && n > 0 {
      assert Repeat(h, slot, grad, n) == slot;
    }
  }

  /** The slot of p before a step, when the round sets its value. */
  ghost function Fed(s: SgdState, r: Round, p: Param): Slot {
    SlotOf(s, p).(value := ValueIn(r.values, p))
  }

  /** The last step of a run, as p experiences it. */
  lemma LastRound(h: Hyper, ps: seq<Param>, rounds: seq<Round>, p: Param)
    requires Covers(ps, rounds) && rounds != []
    ensures var r := rounds[|rounds| - 1];
            SlotOf(RunSteps(h, ps, rounds), p)
              == Repeat(h, Fed(RunSteps(h, ps, rounds[..|rounds| - 1]), r, p), GradIn(r.grads, p), Times(ps, p))
  {
    hide UpdateAll, Repeat;
    var r := rounds[|rounds| - 1];
    var s := RunSteps(h, ps, rounds[..|rounds| - 1]);
    UpdatedTimes(h, s.(values := r.values), ps, r.grads, p);
    assert SlotOf(s.(values := r.values), p) == Fed(s, r, p);
  }

  // ---------------------------------------------------------------- the closed form

  ghost predicate Faithful(h: Hyper, slot: Slot) {
    slot.buffer == BufferOf(h, slot.seen)
  }

  lemma {:induction false} RepeatFaithful(h: Hyper, slot: Slot, grad: Option<real>, n: nat)
    requires h.momentum != 0.0 && Faithful(h, slot)
    ensures Faithful(h, Repeat(h, slot, grad, n))
  {
    hide BufferOf, NextBuffer, NewValue, EffectiveGradient;
    if n > 0 && grad.Some? {
      var before := Repeat(h, slot, grad, n - 1);
      RepeatFaithful(h, slot, grad, n - 1);
      BufferAppend(h, before.seen, EffectiveGradient(h, before.value, grad.value));
    }
  }

  /** In every run with momentum, each buffer is the closed form of the gradients its parameter received. */
  lemma {:induction false} BufferIsWeightedSum(h: Hyper, ps: seq<Param>, rounds: seq<Round>, p: Param)
    requires Covers(ps, rounds) && h.momentum != 0.0
    ensures var s := RunSteps(h, ps, rounds); BufferAt(s, p) == BufferOf(h, SeenAt(s, p))
    decreases |rounds|
  {
    hide BufferOf, UpdateAll, Repeat;
    if rounds == [] {
      BufferAppend(h, [], 0.0);
    } else {
      var r, init := rounds[|rounds| - 1], rounds[..|rounds| - 1];
      BufferIsWeightedSum(h, ps, init, p);
      LastRound(h, ps, rounds, p);
      RepeatFaithful(h, Fed(RunSteps(h, ps, init), r, p), GradIn(r.grads, p), Times(ps, p));
    }
  }

  // ---------------------------------------------------------------- bounds

  /** |buffer| * (1 - momentum) <= (1 - dampening) * G. */
  lemma BufferBounded(h: Hyper, gs: seq<real>, bound: real, buf: real)
    requires 0.0 <= h.momentum < 1.0 && h.dampening <= 1.0 && 0.0 <= bound && Bounded(gs, bound)
    requires buf == BufferOf(h, gs)
    ensures Abs(buf) * (1.0 - h.momentum) <= (1.0 - h.dampening) * bound
  {
    hide BufferOf, Pow, WeightedSum, Bounded;
    var w, p := OpenBuffer(h, gs, buf);
    GeometricBound(h.momentum, gs, bound, w, p);
    FactorBound(1.0 - h.momentum, w, p, bound);
    ScaleBound(1.0 - h.dampening, 1.0 - h.momentum, w, bound, buf);
  }

  lemma OpenBuffer(h: Hyper, gs: seq<real>, buf: real) returns (w: real, p: real)
    requires buf == BufferOf(h, gs) && 0.0 <= h.momentum < 1.0
    ensures w == WeightedSum(h.momentum, gs) && p == Pow(h.momentum, |gs|)
    ensures buf == (1.0 - h.dampening) * w && 0.0 <= p
  {
    w, p := WeightedSum(h.momentum, gs), Pow(h.momentum, |gs|);
    PowNonNegative(h.momentum, |gs|);
  }

  lemma FactorBound(c: real, w: real, p: real, bound: real)
    requires Abs(c * w) <= (1.0 - p) * bound && 0.0 <= p && 0.0 <= bound && 0.0 <= c
    ensures Abs(w) * c <= bound
  {
    MulLe(1.0 - p, 1.0, bound);
    assert Abs(w) * c == Abs(c * w) by {
      if w < 0.0 {
        MulLe(w, 0.0, c);
      } else {
        MulLe(0.0, w, c);
      }
    }
  }

  lemma ScaleBound(a: real, c: real, w: real, bound: real, buf: real)
    requires 0.0 <= a && Abs(w) * c <= bound && buf == a * w
    ensures Abs(buf) * c <= a * bound
  {
    AbsScale(a, w, buf);
    MulLe(Abs(w) * c, bound, a);
    assert Abs(buf) * c == a * (Abs(w) * c);
  }

  lemma AbsScale(a: real, w: real, buf: real)
    requires 0.0 <= a && buf == a * w
    ensures Abs(buf) == a * Abs(w)
  {
    if w < 0.0 {
      MulLe(w, 0.0, a);
    } else {
      MulLe(0.0, w, a);
    }
  }

  /** The step direction after any update, plain, momentum or Nesterov, is bounded by the gradients' bound. */
  lemma DirectionBounded(h: Hyper, gs: seq<real>, bound: real, buf: real, g: real)
    requires ValidHyper(h) && h.momentum < 1.0 && h.dampening <= 1.0 && 0.0 <= bound
    requires gs != [] && Bounded(gs, bound) && g == gs[|gs| - 1] && buf == BufferOf(h, gs)
    ensures Abs(Direction(h, buf, g)) * (1.0 - h.momentum) <= DirectionLimit(h, bound)
  {
    hide BufferOf;
    BufferBounded(h, gs, bound, buf);
    if h.momentum != 0.0 && h.nesterov {
      NesterovBound(h.momentum, buf, g, bound);
    } else if h.momentum == 0.0 {
      assert Direction(h, buf, g) == g;
    }
  }

  lemma NesterovBound(b: real, buf: real, g: real, bound: real)
    requires 0.0 <= b < 1.0 && Abs(g) <= bound && Abs(buf) * (1.0 - b) <= bound
    ensures Abs(g + b * buf) * (1.0 - b) <= bound
  {
    var x := b * buf;
    AbsScale(b, buf, x);
    SumBound(b, 1.0 - b, Abs(g), Abs(buf), Abs(x), Abs(g + x), bound);
    assert bound * (1.0 - b) + bound * b == bound;
  }

  lemma SumBound(b: real, c: real, ag: real, ab: real, ax: real, t: real, bound: real)
    requires 0.0 <= b && 0.0 <= c && t <= ag + ax && ax == b * ab
    requires ag <= bound && ab * c <= bound
    ensures t * c <= bound * c + bound * b
  {
    var abc := ab * c;
    MulLe(t, ag + ax, c);
    assert (ag + ax) * c == ag * c + ax * c;
    MulLe(ag, bound, c);
    MulLe(abc, bound, b);
    assert ax * c == abc * b;
  }

  /**
   In every run whose effective gradients for p are bounded by G, with 0 < momentum < 1 and
   dampening <= 1, the buffer of p stays within (1 - dampening) * G / (1 - momentum).
   */
  lemma RunBuffersBounded(h: Hyper, ps: seq<Param>, rounds: seq<Round>, p: Param, bound: real)
    requires Covers(ps, rounds) && 0.0 < h.momentum < 1.0 && h.dampening <= 1.0 && 0.0 <= bound
    requires Bounded(SeenAt(RunSteps(h, ps, rounds), p), bound)
    ensures Abs(BufferAt(RunSteps(h, ps, rounds), p)) <= (1.0 - h.dampening) * bound / (1.0 - h.momentum)
  {
    hide BufferOf, RunSteps, Bounded;
    var s := RunSteps(h, ps, rounds);
    BufferIsWeightedSum(h, ps, rounds, p);
    BufferBounded(h, SeenAt(s, p), bound, BufferAt(s, p));
    DivideBound(Abs(BufferAt(s, p)), 1.0 - h.momentum, (1.0 - h.dampening) * bound);
  }

  lemma DivideBound(x: real, c: real, y: real)
    requires x * c <= y && 0.0 < c
    ensures x <= y / c
  {
    var q := y / c;
    assert q * c == y;
    if x > q {
      MulPos(x - q, c);
    }
  }

  function DirectionLimit(h: Hyper, bound: real): real {
    if h.momentum != 0.0 && !h.nesterov then (1.0 - h.dampening) * bound else bound
  }

  lemma Moved(h: Hyper, slot: Slot, grad: real) returns (g: real, buf: real, d: real)
    ensures buf == NextBuffer(h, slot.buffer, g) && d == Direction(h, buf, g)
    ensures var t := UpdateSlot(h, slot, grad);
            t.value - slot.value == -(h.lr * d) && t.seen == slot.seen + [g]
  {
    g := EffectiveGradient(h, slot.value, grad);
    buf := NextBuffer(h, slot.buffer, g);
    d := Direction(h, buf, g);
  }

  /** One update moves a parameter by at most lr * G / (1 - momentum), in plain and in Nesterov mode. */
  lemma UpdateMoves(h: Hyper, slot: Slot, grad: real, bound: real)
    requires ValidHyper(h) && h.momentum < 1.0 && h.dampening <= 1.0 && 0.0 <= bound
    requires Faithful(h, slot) || h.momentum == 0.0
    requires Bounded(UpdateSlot(h, slot, grad).seen, bound)
    ensures Abs(UpdateSlot(h, slot, grad).value - slot.value) * (1.0 - h.momentum) <= h.lr * DirectionLimit(h, bound)
  {
    hide BufferOf, NextBuffer, UpdateSlot, Direction, DirectionLimit, Faithful;
    var g, buf, d := Moved(h, slot, grad);
    NewDirectionBounded(h, slot, g, buf, bound);
    ScaledMove(h.lr, 1.0 - h.momentum, d, DirectionLimit(h, bound), UpdateSlot(h, slot, grad).value - slot.value);
  }

  lemma NewDirectionBounded(h: Hyper, slot: Slot, g: real, buf: real, bound: real)
    requires ValidHyper(h) && h.momentum < 1.0 && h.dampening <= 1.0 && 0.0 <= bound
    requires Faithful(h, slot) || h.momentum == 0.0
    requires Bounded(slot.seen + [g], bound) && buf == NextBuffer(h, slot.buffer, g)
    ensures Abs(Direction(h, buf, g)) * (1.0 - h.momentum) <= DirectionLimit(h, bound)
  {
    hide BufferOf, NextBuffer, Direction, DirectionLimit;
    var gs := slot.seen + [g];
    assert gs[|gs| - 1] == g;
    if h.momentum == 0.0 {
      PlainDirection(h, buf, g, bound);
    } else {
      BufferAppend(h, slot.seen, g);
      DirectionBounded(h, gs, bound, buf, g);
    }
  }

  lemma PlainDirection(h: Hyper, buf: real, g: real, bound: real)
    requires h.momentum == 0.0 && Abs(g) <= bound
    ensures Abs(Direction(h, buf, g)) * (1.0 - h.momentum) <= DirectionLimit(h, bound)
  {
  }

  lemma ScaledMove(lr: real, c: real, d: real, limit: real, move: real)
    requires 0.0 <= lr && Abs(d) * c <= limit && move == -(lr * d)
    ensures Abs(move) * c <= lr * limit
  {
    AbsScale(lr, d, lr * d);
    MulLe(Abs(d) * c, limit, lr);
    assert Abs(move) == Abs(lr * d);
    assert lr * Abs(d) * c == lr * (Abs(d) * c);
  }

  /** n updates move a parameter at most n times as far. */
  lemma {:induction false} RepeatMoves(h: Hyper, slot: Slot, grad: real, n: nat, bound: real)
    requires ValidHyper(h) && h.momentum < 1.0 && h.dampening <= 1.0 && 0.0 <= bound
    requires Faithful(h, slot) || h.momentum == 0.0
    requires Bounded(Repeat(h, slot, Some(grad), n).seen, bound)
    ensures Abs(Repeat(h, slot, Some(grad), n).value - slot.value) * (1.0 - h.momentum)
         <= n as real * (h.lr * DirectionLimit(h, bound))
  {
    hide Faithful, UpdateSlot, DirectionLimit, Bounded;
    if n == 0 {
      Still(slot.value, 1.0 - h.momentum, h.lr * DirectionLimit(h, bound));
    } else {
      var before := Repeat(h, slot, Some(grad), n - 1);
      PrefixBounded(h, before, grad, bound);
      RepeatMoves(h, slot, grad, n - 1, bound);
      if h.momentum != 0.0 {
        RepeatFaithful(h, slot, Some(grad), n - 1);
      }
      UpdateMoves(h, before, grad, bound);
      TwoMoves(slot.value, before.value, UpdateSlot(h, before, grad).value, 1.0 - h.momentum, n, h.lr * DirectionLimit(h, bound));
    }
  }

  lemma Still(v: real, c: real, limit: real)
    ensures Abs(v - v) * c <= 0 as real * limit
  {
  }

  lemma PrefixBounded(h: Hyper, slot: Slot, grad: real, bound: real)
    requires Bounded(UpdateSlot(h, slot, grad).seen, bound)
    ensures Bounded(slot.seen, bound)
  {
    var longer := UpdateSlot(h, slot, grad).seen;
    assert forall i :: 0 <= i < |slot.seen| ==> longer[i] == slot.seen[i];
  }

  lemma TwoMoves(v: real, w: real, x: real, c: real, n: nat, limit: real)
    requires n > 0 && 0.0 <= c && Abs(w - v) * c <= (n - 1) as real * limit && Abs(x - w) * c <= limit
    ensures Abs(x - v) * c <= n as real * limit
  {
    var a, b, ab, xc := Abs(w - v) * c, Abs(x - w) * c, (Abs(w - v) + Abs(x - w)) * c, Abs(x - v) * c;
    ProductsLe(Abs(x - v), Abs(w - v) + Abs(x - w), c, xc, ab);
    assert ab == a + b;
    OneMore(n, limit);
  }

  lemma OneMore(n: nat, limit: real)
    requires n > 0
    ensures n as real * limit == (n - 1) as real * limit + limit
  {
  }

  /**
   In every run the last step moves a parameter listed k times by at most k * lr * G / (1 - momentum),
   times 1 - dampening in plain mode, and leaves the parameters without a gradient where they were.
   */
  lemma StepMoves(h: Hyper, ps: seq<Param>, rounds: seq<Round>, p: Param, bound: real)
    requires Covers(ps, rounds) && p in ps && rounds != []
    requires ValidHyper(h) && h.momentum < 1.0 && h.dampening <= 1.0 && 0.0 <= bound
    requires Bounded(SeenAt(RunSteps(h, ps, rounds), p), bound)
    ensures var r, s := rounds[|rounds| - 1], RunSteps(h, ps, rounds);
            && p in s.values
            && (r.grads[p].None? ==> s.values[p] == r.values[p])
            && (r.grads[p].Some? ==>
                  Abs(s.values[p] - r.values[p]) * (1.0 - h.momentum)
                    <= Times(ps, p) as real * (h.lr * DirectionLimit(h, bound)))
  {
    hide BufferOf, UpdateAll, Bounded, DirectionLimit, Repeat, Times;
    var r, init := rounds[|rounds| - 1], rounds[..|rounds| - 1];
    var slot := Fed(RunSteps(h, ps, init), r, p);
    assert p in RunSteps(h, ps, rounds).values;
    LastRound(h, ps, rounds, p);
    if h.momentum != 0.0 {
      BufferIsWeightedSum(h, ps, init, p);
    }
    if r.grads[p].Some? {
      RepeatMoves(h, slot, r.grads[p].value, Times(ps, p), bound);
    } else {
      NotRepeated(h, slot, Times(ps, p));
    }
  }

  lemma NotRepeated(h: Hyper, slot: Slot, n: nat)
    ensures Repeat(h, slot, None, n) == slot
  {
  }

  // ---------------------------------------------------------------- the exact step

  lemma SingleUpdate(h: Hyper, slot: Slot, grad: real)
    ensures Repeat(h, slot, Some(grad), 1) == UpdateSlot(h, slot, grad)
    ensures UpdateSlot(h, slot, grad).seen == slot.seen + [EffectiveGradient(h, slot.value, grad)]
  {
    hide NextBuffer, NewValue, EffectiveGradient;
    assert Repeat(h, slot, Some(grad), 0) == slot;
  }

  lemma GradientWithDecay(h: Hyper, value: real, grad: real)
    ensures EffectiveGradient(h, value, grad) == WithDecay(h.weightDecay, grad, value)
  {
    assert h.weightDecay == 0.0 ==> h.weightDecay * value == 0.0;
  }

  /** A parameter listed once is updated with its raw gradients plus weightDecay times its values. */
  lemma {:induction false} SeenIsReceived(h: Hyper, ps: seq<Param>, rounds: seq<Round>, p: Param)
    requires Covers(ps, rounds) && Times(ps, p) == 1
    ensures SeenAt(RunSteps(h, ps, rounds), p) == Received(h.weightDecay, rounds, p)
    decreases |rounds|
  {
    hide UpdateAll, Times, UpdateSlot, Repeat, Contribution;
    if rounds != [] {
      var r, init := rounds[|rounds| - 1], rounds[..|rounds| - 1];
      SeenIsReceived(h, ps, init, p);
      LastRound(h, ps, rounds, p);
      SeenNext(h, Fed(RunSteps(h, ps, init), r, p), r, p);
    }
  }

  lemma SeenNext(h: Hyper, slot: Slot, r: Round, p: Param)
    requires slot.value == ValueIn(r.values, p)
    ensures Repeat(h, slot, GradIn(r.grads, p), 1).seen == slot.seen + Contribution(h.weightDecay, r, p)
  {
    hide UpdateSlot, Repeat, EffectiveGradient, WithDecay;
    match GradIn(r.grads, p)
    case None => NotRepeated(h, slot, 1);
    case Some(g) =>
      SingleUpdate(h, slot, g);
      GradientWithDecay(h, ValueIn(r.values, p), g);
  }

  /**
   Where value goes after the gradients gs: down by lr times the newest gradient in plain mode, times the
   discounted sum of all of them with momentum, times the newest plus momentum times that sum with Nesterov.
   */
  ghost function Destination(h: Hyper, gs: seq<real>, value: real): real
    requires gs != []
  {
    var g, sum := gs[|gs| - 1], (1.0 - h.dampening) * WeightedSum(h.momentum, gs);
    value - h.lr * (if h.momentum == 0.0 then g else if h.nesterov then g + h.momentum * sum else sum)
  }

  /**
   The last step of a run moves a parameter listed once exactly there, by the raw gradients plus
   weightDecay times the values of their rounds, and a parameter without a gradient not at all.
   */
  lemma StepIsExact(h: Hyper, ps: seq<Param>, rounds: seq<Round>, p: Param)
    requires Covers(ps, rounds) && Times(ps, p) == 1 && rounds != []
    ensures var r, value := rounds[|rounds| - 1], ValueIn(RunSteps(h, ps, rounds).values, p);
            var gs := Received(h.weightDecay, rounds, p);
            if GradIn(r.grads, p).None? then value == ValueIn(r.values, p)
            else gs != [] && value == Destination(h, gs, ValueIn(r.values, p))
  {
    hide UpdateAll, Times, UpdateSlot, Repeat, BufferOf, Destination;
    var r, init := rounds[|rounds| - 1], rounds[..|rounds| - 1];
    var slot := Fed(RunSteps(h, ps, init), r, p);
    LastRound(h, ps, rounds, p);
    match GradIn(r.grads, p)
    case None => NotRepeated(h, slot, 1);
    case Some(g) =>
      SingleUpdate(h, slot, g);
      SeenIsReceived(h, ps, rounds, p);
      if h.momentum != 0.0 {
        BufferIsWeightedSum(h, ps, rounds, p);
      }
      SlotIsExact(h, slot, g, UpdateSlot(h, slot, g));
  }

  lemma SlotIsExact(h: Hyper, slot: Slot, grad: real, after: Slot)
    requires after == UpdateSlot(h, slot, grad)
    requires h.momentum != 0.0 ==> after.buffer == BufferOf(h, after.seen)
    ensures after.seen != [] && after.value == Destination(h, after.seen, slot.value)
  {
    hide WeightedSum, NextBuffer, EffectiveGradient;
  }
}
