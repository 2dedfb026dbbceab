/** A trainable parameter, one coordinate at a time: its value and the gradient of the last backward pass, if any. */
module Params {
  import opened Wrappers

  class Param {
    var value: real
    var grad: Option<real>

    constructor (value: real)
      ensures this.value == value && grad == None
    {
      this.value, this.grad := value, None;
    }
  }

  /** Before each step the training loop leaves arbitrary values and gradients in the parameters. */
  datatype Round = Round(values: map<Param, real>, grads: map<Param, Option<real>>)

  ghost predicate Covers(ps: seq<Param>, rounds: seq<Round>) {
    forall k, p :: 0 <= k < |rounds| && p in ps ==> p in rounds[k].values && p in rounds[k].grads
  }

  ghost function Listed(ps: seq<Param>): set<Param> {
    set p | p in ps
  }

  /** The rounds speak of the listed parameters and of no others. */
  ghost predicate Exactly(ps: seq<Param>, rounds: seq<Round>) {
    forall k :: 0 <= k < |rounds| ==> rounds[k].values.Keys == Listed(ps) && rounds[k].grads.Keys == Listed(ps)
  }

  lemma ExactlyCovers(ps: seq<Param>, rounds: seq<Round>)
    requires Exactly(ps, rounds)
    ensures Covers(ps, rounds)
  {
    forall k, p | 0 <= k < |rounds| && p in ps
      ensures p in rounds[k].values && p in rounds[k].grads
    {
      assert p in Listed(ps);
    }
  }

  /** How often p occurs in the parameter list. */
  ghost function Times(ps: seq<Param>, p: Param): nat {
    multiset(ps)[p]
  }

  lemma TimesLast(ps: seq<Param>, p: Param)
    requires ps != []
    ensures Times(ps, p) == Times(ps[..|ps| - 1], p) + if ps[|ps| - 1] == p then 1 else 0
  {
    assert ps == ps[..|ps| - 1] + [ps[|ps| - 1]];
  }

  ghost function ValueIn(values: map<Param, real>, p: Param): real {
    if p in values then values[p] else 0.0
  }

  ghost function GradIn(grads: map<Param, Option<real>>, p: Param): Option<real> {
    if p in grads then grads[p] else None
  }

  /**
   The gradients of a parameter over the rounds that gave it one, each with L2 decay: the raw gradient
   plus `decay` times the value that the round left in the parameter.
   */
  ghost function Received(decay: real, rounds: seq<Round>, p: Param): seq<real> {
    if rounds == [] then []
    else
      var r := rounds[|rounds| - 1];
      Received(decay, rounds[..|rounds| - 1], p) + Contribution(decay, r, p)
  }

  ghost function Contribution(decay: real, r: Round, p: Param): seq<real> {
    match GradIn(r.grads, p)
    case None => []
    case Some(g) => [WithDecay(decay, g, ValueIn(r.values, p))]
  }

  function WithDecay(decay: real, grad: real, value: real): real {
    grad + decay * value
  }

  method SetParams(ps: seq<Param>, r: Round)
    requires forall p :: p in ps ==> p in r.values && p in r.grads
    modifies ps
    ensures forall p :: p in ps ==> p.value == r.values[p] && p.grad == r.grads[p]
  {
    for i := 0 to |ps|
      invariant forall k :: 0 <= k < i ==> ps[k].value == r.values[ps[k]] && ps[k].grad == r.grads[ps[k]]
    {
      ps[i].value, ps[i].grad := r.values[ps[i]], r.grads[ps[i]];
    }
  }
}
