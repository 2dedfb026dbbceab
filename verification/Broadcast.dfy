/** NumPy broadcasting of MNShape (src/core/shape.cpp, `broadcast_with`). */
module Broadcast {
  import opened Wrappers

  /** The i-th dimension counted from the right; a missing dimension is 1. */
  function FromRight(dims: seq<int>, i: nat): int {
    if i < |dims| then dims[|dims| - 1 - i] else 1
  }

  predicate Joinable(x: int, y: int) {
    x == y || x == 1 || y == 1
  }

  function Join(x: int, y: int): int {
    if x == 1 then y else x
  }

  function MaxRank(a: seq<int>, b: seq<int>): nat {
    if |a| < |b| then |b| else |a|
  }

  predicate Compatible(a: seq<int>, b: seq<int>) {
    forall i: nat :: i < MaxRank(a, b) ==> Joinable(FromRight(a, i), FromRight(b, i))
  }

  function Joined(a: seq<int>, b: seq<int>): (c: seq<int>)
    ensures |c| == MaxRank(a, b)
    ensures forall i: nat :: FromRight(c, i) == Join(FromRight(a, i), FromRight(b, i))
  {
    var n := MaxRank(a, b);
    seq(n, k requires 0 <= k < n => Join(FromRight(a, n - 1 - k), FromRight(b, n - 1 - k)))
  }

  function Broadcast(a: seq<int>, b: seq<int>): Result<seq<int>> {
    if Compatible(a, b) then Ok(Joined(a, b)) else Err(InvalidArgument)
  }

  method BroadcastWith(a: seq<int>, b: seq<int>) returns (r: Result<seq<int>>)
    ensures r == Broadcast(a, b)
  {
    var n := if |a| < |b| then |b| else |a|;
    var result := new int[n];
    for i := 0 to n
      invariant forall k: nat :: k < i ==> Joinable(FromRight(a, k), FromRight(b, k))
      invariant forall k :: n - i <= k < n ==> result[k] == Join(FromRight(a, n - 1 - k), FromRight(b, n - 1 - k))
    {
      var d1 := if i < |a| then a[|a| - 1 - i] else 1;
      var d2 := if i < |b| then b[|b| - 1 - i] else 1;
      assert d1 == FromRight(a, i) && d2 == FromRight(b, i);
      if d1 == d2 {
        result[n - 1 - i] := d1;
      } else if d1 == 1 {
        result[n - 1 - i] := d2;
      } else if d2 == 1 {
        result[n - 1 - i] := d1;
      } else {
        return Err(InvalidArgument);
      }
    }
    assert result[..] == Joined(a, b);
    return Ok(result[..]);
  }

  /** `a` can be stretched to `c`: aligned at the right, every dimension of `a` is 1 or that of `c`. */
  ghost predicate BroadcastsTo(a: seq<int>, c: seq<int>) {
    |a| <= |c| && forall i: nat :: i < |c| ==> FromRight(a, i) == 1 || FromRight(a, i) == FromRight(c, i)
  }

  lemma SameFromRight(a: seq<int>, b: seq<int>)
    requires |a| == |b| && forall i: nat :: i < |a| ==> FromRight(a, i) == FromRight(b, i)
    ensures a == b
  {
    forall k | 0 <= k < |a|
      ensures a[k] == b[k]
    {
      assert FromRight(a, |a| - 1 - k) == FromRight(b, |a| - 1 - k);
    }
  }

  lemma BroadcastsToIsPartialOrder(a: seq<int>, b: seq<int>, c: seq<int>)
    ensures BroadcastsTo(a, a) && BroadcastsTo([], a)
    ensures BroadcastsTo(a, b) && BroadcastsTo(b, a) ==> a == b
    ensures BroadcastsTo(a, b) && BroadcastsTo(b, c) ==> BroadcastsTo(a, c)
  {
    if BroadcastsTo(a, b) && BroadcastsTo(b, a) {
      SameFromRight(a, b);
    }
  }

  /**
   The result is the least shape that both operands broadcast to; the call fails exactly when no
   shape accommodates both.
   */
  lemma BroadcastIsLeastUpperBound(a: seq<int>, b: seq<int>, c: seq<int>)
    ensures Broadcast(a, b).Ok? ==> BroadcastsTo(a, Broadcast(a, b).value) && BroadcastsTo(b, Broadcast(a, b).value)
    ensures BroadcastsTo(a, c) && BroadcastsTo(b, c) ==>
              Broadcast(a, b).Ok? && BroadcastsTo(Broadcast(a, b).value, c)
  {
  }

  lemma BroadcastCommutes(a: seq<int>, b: seq<int>)
    ensures Broadcast(a, b) == Broadcast(b, a)
  {
    assert Compatible(a, b) <==> Compatible(b, a);
    if Compatible(a, b) {
      SameFromRight(Joined(a, b), Joined(b, a));
    }
  }

  lemma BroadcastIdempotentWithUnit(a: seq<int>)
    ensures Broadcast(a, a) == Ok(a)
    ensures Broadcast(a, []) == Ok(a) && Broadcast([], a) == Ok(a)
  {
    SameFromRight(Joined(a, a), a);
    SameFromRight(Joined(a, []), a);
    SameFromRight(Joined([], a), a);
  }

  /** Shapes are aligned at the right: the last dimensions meet, and the rest broadcasts by itself. */
  lemma BroadcastFromTheRight(a: seq<int>, b: seq<int>, x: int, y: int)
    ensures Broadcast(a + [x], b + [y]) ==
            if Broadcast(a, b).Ok? && (x == y || x == 1 || y == 1)
            then Ok(Broadcast(a, b).value + [if x == 1 then y else x])
            else Err(InvalidArgument)
  {
    hide Compatible, Joined, FromRight;
    CompatibleFromTheRight(a, b, x, y);
    if Compatible(a + [x], b + [y]) {
      JoinedFromTheRight(a, b, x, y);
    }
  }

  lemma LastFromRight(a: seq<int>, x: int)
    ensures forall i: nat :: FromRight(a + [x], i) == if i == 0 then x else FromRight(a, i - 1)
  {
  }

  lemma CompatibleFromTheRight(a: seq<int>, b: seq<int>, x: int, y: int)
    ensures Compatible(a + [x], b + [y]) <==> Compatible(a, b) && Joinable(x, y)
  {
    hide FromRight;
    LastFromRight(a, x);
    LastFromRight(b, y);
    var c, d := a + [x], b + [y];
    assert MaxRank(c, d) == MaxRank(a, b) + 1;
    if Compatible(c, d) {
      forall i: nat | i < MaxRank(a, b)
        ensures Joinable(FromRight(a, i), FromRight(b, i))
      {
        assert Joinable(FromRight(c, i + 1), FromRight(d, i + 1));
      }
      assert Joinable(FromRight(c, 0), FromRight(d, 0));
    } else {
      var i: nat :| i < MaxRank(c, d) && !Joinable(FromRight(c, i), FromRight(d, i));
      if i > 0 {
        assert !Joinable(FromRight(a, i - 1), FromRight(b, i - 1));
      }
    }
  }

  lemma JoinedFromTheRight(a: seq<int>, b: seq<int>, x: int, y: int)
    ensures Joined(a + [x], b + [y]) == Joined(a, b) + [Join(x, y)]
  {
    hide FromRight;
    var c, d, e := Joined(a + [x], b + [y]), Joined(a, b), Joined(a, b) + [Join(x, y)];
    LastFromRight(a, x);
    LastFromRight(b, y);
    LastFromRight(d, Join(x, y));
    forall i: nat | i < |c|
      ensures FromRight(c, i) == FromRight(e, i)
    {
    }
    SameFromRight(c, e);
  }

  function AndThen(r: Result<seq<int>>, c: seq<int>): Result<seq<int>> {
    if r.Ok? then Broadcast(r.value, c) else r
  }

  function AfterThat(a: seq<int>, r: Result<seq<int>>): Result<seq<int>> {
    if r.Ok? then Broadcast(a, r.value) else r
  }

  /** Both bracketings give the same shape, and one fails exactly when the other does. */
  lemma BroadcastAssociates(a: seq<int>, b: seq<int>, c: seq<int>)
    ensures AndThen(Broadcast(a, b), c) == AfterThat(a, Broadcast(b, c))
  {
    var l := AndThen(Broadcast(a, b), c);
    var r := AndThen(Broadcast(b, c), a);
    if l.Ok? {
      BoundAbsorbs(a, b, c, l.value);
    }
    if r.Ok? {
      BoundAbsorbs(b, c, a, r.value);
      BoundAbsorbs(c, a, b, AndThen(Broadcast(c, a), b).value);
      BroadcastsToIsPartialOrder(r.value, AndThen(Broadcast(c, a), b).value, l.value);
      BroadcastsToIsPartialOrder(l.value, r.value, l.value);
    }
    if Broadcast(b, c).Ok? {
      BroadcastCommutes(a, Broadcast(b, c).value);
    }
  }

  /** A bracketing that succeeds bounds all three operands, so the rotated one succeeds below it. */
  lemma BoundAbsorbs(a: seq<int>, b: seq<int>, c: seq<int>, u: seq<int>)
    requires AndThen(Broadcast(a, b), c) == Ok(u)
    ensures BroadcastsTo(a, u) && BroadcastsTo(b, u) && BroadcastsTo(c, u)
    ensures AndThen(Broadcast(b, c), a).Ok? && BroadcastsTo(AndThen(Broadcast(b, c), a).value, u)
  {
    var ab := Broadcast(a, b).value;
    BroadcastIsLeastUpperBound(a, b, u);
    BroadcastIsLeastUpperBound(ab, c, u);
    BroadcastsToIsPartialOrder(a, ab, u);
    BroadcastsToIsPartialOrder(b, ab, u);
    BroadcastIsLeastUpperBound(b, c, u);
    BroadcastIsLeastUpperBound(Broadcast(b, c).value, a, u);
  }
}
