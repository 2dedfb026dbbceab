/** `reshape` of MNTensor (src/core/tensor.cpp): inferring a -1 dimension and re-indexing in place. */
module Reshape {
  import opened Wrappers
  import opened Shapes
  import opened Layouts

  /** `r` fills in the -1 entries of `newDims` so that the element count is `total`. */
  ghost predicate Resolution(newDims: seq<int>, total: int, r: seq<int>) {
    && |r| == |newDims|
    && NonNegative(r)
    && Product(r) == total
    && forall k :: 0 <= k < |newDims| && newDims[k] != -1 ==> r[k] == newDims[k]
  }

  ghost predicate UniqueResolution(newDims: seq<int>, total: int) {
    exists r :: Resolution(newDims, total, r) && forall q :: Resolution(newDims, total, q) ==> q == r
  }

  ghost predicate AtMostOneInferred(newDims: seq<int>) {
    forall p, q :: 0 <= p < q < |newDims| ==> newDims[p] != -1 || newDims[q] != -1
  }

  /** What `reshape` makes of the requested dimensions. */
  ghost function Resolve(newDims: seq<int>, total: int): Result<seq<int>> {
    if AtMostOneInferred(newDims) && UniqueResolution(newDims, total) then
      var r :| Resolution(newDims, total, r);
      Ok(r)
    else
      Err(InvalidArgument)
  }

  ghost function ReshapeLayout(l: Layout, newDims: seq<int>): Result<Layout>
    requires |l.strides| == |l.dims|
  {
    if !Contiguous(l.dims, l.strides) then Err(InvalidArgument)
    else
      match Resolve(newDims, Product(l.dims))
      case Err(e) => Err(e)
      case Ok(r) => Ok(l.(dims := r, strides := RowMajor(r)))
  }

  // ---------------------------------------------------------------- inferring a dimension

  /** The requested dimensions with every -1 replaced by 1: the product is the source's known_product. */
  function Known(dims: seq<int>): (r: seq<int>)
    ensures |r| == |dims|
    ensures forall k :: 0 <= k < |dims| ==> r[k] == if dims[k] == -1 then 1 else dims[k]
  {
    seq(|dims|, k requires 0 <= k < |dims| => if dims[k] == -1 then 1 else dims[k])
  }

  /** Giving the inferred entry p the value v makes the product v * known_product. */
  lemma FillOne(newDims: seq<int>, p: nat, v: int)
    requires p < |newDims| && newDims[p] == -1
    ensures Product(Known(newDims)[p := v]) == v * Product(Known(newDims))
  {
    assert Known(newDims)[p := 1] == Known(newDims);
    ProductUpdate(Known(newDims), p, v);
  }

  lemma NoneInferred(newDims: seq<int>, total: int)
    requires forall k :: 0 <= k < |newDims| ==> newDims[k] != -1
    ensures UniqueResolution(newDims, total) <==> NonNegative(newDims) && Product(newDims) == total
    ensures forall r :: Resolution(newDims, total, r) ==> r == newDims
  {
    forall r | Resolution(newDims, total, r)
      ensures r == newDims
    {
    }
    if NonNegative(newDims) && Product(newDims) == total {
      assert Resolution(newDims, total, newDims);
    }
  }

  ghost predicate KnownNonNegative(newDims: seq<int>) {
    forall k :: 0 <= k < |newDims| ==> newDims[k] >= -1
  }

  lemma OneInferredValue(newDims: seq<int>, total: int, p: nat, r: seq<int>)
    requires p < |newDims| && newDims[p] == -1
    requires forall k :: 0 <= k < |newDims| && k != p ==> newDims[k] != -1
    ensures Resolution(newDims, total, r) <==>
            |r| == |newDims| && KnownNonNegative(newDims) && r == Known(newDims)[p := r[p]]
            && 0 <= r[p] && r[p] * Product(Known(newDims)) == total
  {
    if |r| == |newDims| {
      FillOne(newDims, p, r[p]);
      if Resolution(newDims, total, r) {
        assert r == Known(newDims)[p := r[p]];
        assert forall k :: 0 <= k < |newDims| && newDims[k] != -1 ==> r[k] == newDims[k] && 0 <= r[k];
      }
    }
  }

  /** One -1 is resolvable in one way iff the known product is positive and divides the element count. */
  lemma OneInferred(newDims: seq<int>, total: int, p: nat)
    requires p < |newDims| && newDims[p] == -1 && 0 <= total
    requires forall k :: 0 <= k < |newDims| && k != p ==> newDims[k] != -1
    ensures var known := Product(Known(newDims));
            && (UniqueResolution(newDims, total) <==>
                KnownNonNegative(newDims) && known != 0 && total % known == 0)
            && (UniqueResolution(newDims, total) ==>
                Resolution(newDims, total, newDims[p := total / known])
                && forall r :: Resolution(newDims, total, r) ==> r == newDims[p := total / known])
  {
    var known := Product(Known(newDims));
    forall r
      ensures Resolution(newDims, total, r) <==>
              |r| == |newDims| && KnownNonNegative(newDims) && r == Known(newDims)[p := r[p]]
              && 0 <= r[p] && r[p] * known == total
    {
      OneInferredValue(newDims, total, p, r);
    }
    if KnownNonNegative(newDims) {
      ProductSign(Known(newDims));
      if known == 0 {
        var a, b := Known(newDims)[p := 0], Known(newDims)[p := 1];
        assert a[p] != b[p];
        assert total == 0 ==> Resolution(newDims, total, a) && Resolution(newDims, total, b);
      } else {
        var q := newDims[p := total / known];
        assert q == Known(newDims)[p := q[p]];
        forall r | Resolution(newDims, total, r)
          ensures r == q && total % known == 0
        {
          DivModUnique(r[p], 0, known);
        }
        if total % known == 0 {
          DivRangeOf(total, known);
          assert Resolution(newDims, total, q);
        }
      }
    }
  }

  lemma DivRangeOf(a: int, b: int)
    requires 0 <= a && 0 < b
    ensures 0 <= a / b && a == (a / b) * b + a % b
  {
  }

  // ---------------------------------------------------------------- several -1 entries

  lemma {:induction false} UnitProduct(s: seq<int>)
    requires NonNegative(s) && Product(s) == 1
    ensures forall k :: 0 <= k < |s| ==> s[k] == 1
  {
    if s != [] {
      ProductSign(s[1..]);
      assert s[0] == 1;
      UnitProduct(s[1..]);
    }
  }

  /** The entries `r` gives to the -1 positions, with 1 everywhere else. */
  function Inferred(newDims: seq<int>, r: seq<int>): seq<int>
    requires |newDims| == |r|
  {
    seq(|r|, k requires 0 <= k < |r| => if newDims[k] == -1 then r[k] else 1)
  }

  lemma {:induction false} ProductSplits(newDims: seq<int>, r: seq<int>)
    requires |newDims| == |r|
    requires forall k :: 0 <= k < |newDims| && newDims[k] != -1 ==> r[k] == newDims[k]
    ensures Product(r) == Product(Known(newDims)) * Product(Inferred(newDims, r))
  {
    if r != [] {
      ProductSplits(newDims[1..], r[1..]);
      assert Known(newDims)[1..] == Known(newDims[1..]);
      assert Inferred(newDims, r)[1..] == Inferred(newDims[1..], r[1..]);
      var a, b := Product(Known(newDims[1..])), Product(Inferred(newDims[1..], r[1..]));
      HeadFactor(r[0], a, b, if newDims[0] == -1 then 1 else newDims[0], if newDims[0] == -1 then r[0] else 1);
    }
  }

  lemma HeadFactor(head: int, a: int, b: int, known: int, inferred: int)
    requires (known == 1 && inferred == head) || (known == head && inferred == 1)
    ensures head * (a * b) == (known * a) * (inferred * b)
  {
    MulAssoc(head, a, b);
    assert a * (head * b) == head * (a * b);
  }

  /**
   With several -1 entries `reshape` always refuses, although a unique resolution exists exactly
   when the known dimensions already account for a positive element count.
   */
  lemma SeveralInferred(newDims: seq<int>, total: int)
    requires !AtMostOneInferred(newDims) && 0 <= total
    ensures Resolve(newDims, total).Err?
    ensures UniqueResolution(newDims, total) <==>
            KnownNonNegative(newDims) && Product(Known(newDims)) == total && total > 0
  {
    var p, q :| 0 <= p < q < |newDims| && newDims[p] == -1 && newDims[q] == -1;
    var known := Product(Known(newDims));
    if KnownNonNegative(newDims) {
      ProductSign(Known(newDims));
      if known == total > 0 {
        assert Resolution(newDims, total, Known(newDims));
        forall r | Resolution(newDims, total, r)
          ensures r == Known(newDims)
        {
          OnlyOnes(newDims, total, r);
        }
      } else {
        forall r | Resolution(newDims, total, r)
          ensures exists s :: Resolution(newDims, total, s) && s != r
        {
          TwoResolutions(newDims, total, p, q, r);
        }
      }
    } else {
      var k :| 0 <= k < |newDims| && newDims[k] < -1;
      assert forall r :: |r| == |newDims| && r[k] == newDims[k] ==> !NonNegative(r);
    }
  }

  lemma OnlyOnes(newDims: seq<int>, total: int, r: seq<int>)
    requires Resolution(newDims, total, r) && Product(Known(newDims)) == total > 0
    ensures r == Known(newDims)
  {
    var w := Inferred(newDims, r);
    ProductSplits(newDims, r);
    MulCancel(Product(w), 1, total);
    UnitProduct(w);
    forall k | 0 <= k < |r|
      ensures r[k] == Known(newDims)[k]
    {
      assert w[k] == 1;
    }
  }

  /** Putting m into one inferred entry and 1 into the others resolves the request if m * known = total. */
  lemma FilledResolves(newDims: seq<int>, total: int, p: nat, m: int)
    requires p < |newDims| && newDims[p] == -1 && KnownNonNegative(newDims)
    requires 0 <= m && m * Product(Known(newDims)) == total
    ensures Resolution(newDims, total, Known(newDims)[p := m])
  {
    hide Product;
    FillOne(newDims, p, m);
  }

  lemma OtherFactor(newDims: seq<int>, total: int, r: seq<int>) returns (m: int)
    requires KnownNonNegative(newDims) && Resolution(newDims, total, r)
    requires !(Product(Known(newDims)) == total > 0)
    ensures 0 <= m && m != 1 && m * Product(Known(newDims)) == total
  {
    hide Known, Inferred;
    var known := Product(Known(newDims));
    ProductSplits(newDims, r);
    KnownSign(newDims);
    InferredSign(newDims, r);
    m := if known == 0 then 0 else Product(Inferred(newDims, r));
  }

  lemma KnownSign(newDims: seq<int>)
    requires KnownNonNegative(newDims)
    ensures 0 <= Product(Known(newDims))
  {
    ProductSign(Known(newDims));
  }

  lemma InferredSign(newDims: seq<int>, r: seq<int>)
    requires |newDims| == |r| && NonNegative(r)
    ensures 0 <= Product(Inferred(newDims, r))
  {
    ProductSign(Inferred(newDims, r));
  }

  lemma TwoResolutions(newDims: seq<int>, total: int, p: nat, q: nat, r: seq<int>)
    requires p < q < |newDims| && newDims[p] == -1 && newDims[q] == -1
    requires KnownNonNegative(newDims) && Resolution(newDims, total, r)
    requires !(Product(Known(newDims)) == total > 0)
    ensures exists s :: Resolution(newDims, total, s) && s != r
  {
    hide Product, Resolution;
    var m := OtherFactor(newDims, total, r);
    FilledResolves(newDims, total, p, m);
    FilledResolves(newDims, total, q, m);
    var a, b := Known(newDims)[p := m], Known(newDims)[q := m];
    assert a[p] == m && b[p] == 1;
  }

  /** A request that has exactly one resolution and is refused all the same. */
  lemma RefusedThoughUnique()
    ensures UniqueResolution([-1, -1], 1) && Resolve([-1, -1], 1).Err?
  {
    assert Known([-1, -1]) == [1, 1];
    assert Product([1, 1]) == 1 by {
      assert [1, 1][1..] == [1];
      assert Product([1]) == 1 * Product([]);
    }
    assert [-1, -1][0] == -1 && [-1, -1][1] == -1;
    SeveralInferred([-1, -1], 1);
  }

  /** For the inputs the source can pass, acceptance coincides with unique resolvability exactly then. */
  lemma AcceptsExactly(newDims: seq<int>, total: int)
    requires 0 <= total
    ensures (Resolve(newDims, total).Ok? <==> UniqueResolution(newDims, total)) <==>
            AtMostOneInferred(newDims) || !KnownNonNegative(newDims) || total == 0 || Product(Known(newDims)) != total
  {
    if !AtMostOneInferred(newDims) {
      SeveralInferred(newDims, total);
    }
  }

  // ---------------------------------------------------------------- the method

  method ResolveDims(newDims: seq<int>, total: int) returns (r: Result<seq<int>>)
    requires 0 <= total
    ensures r == Resolve(newDims, total)
    ensures r.Ok? <==> AtMostOneInferred(newDims) && UniqueResolution(newDims, total)
    ensures r.Ok? ==> Resolution(newDims, total, r.value)
  {
    var inferred := -1;
    var known := 1;
    for i := 0 to |newDims|
      invariant -1 <= inferred < i
      invariant inferred >= 0 ==> newDims[inferred] == -1
      invariant forall k :: 0 <= k < i && k != inferred ==> newDims[k] >= 0
      invariant known * Product(Known(newDims)[i..]) == Product(Known(newDims))
    {
      assert Known(newDims)[i..][1..] == Known(newDims)[i + 1..];
      if newDims[i] == -1 {
        if inferred != -1 {
          assert !AtMostOneInferred(newDims);
          return Err(InvalidArgument);
        }
        inferred := i;
      } else {
        if newDims[i] < 0 {
          NegativeUnresolvable(newDims, total, i);
          return Err(InvalidArgument);
        }
        MulAssoc(known, newDims[i], Product(Known(newDims)[i + 1..]));
        known := known * newDims[i];
      }
    }
    if inferred >= 0 {
      OneInferred(newDims, total, inferred);
      if known == 0 || total % known != 0 {
        return Err(InvalidArgument);
      }
      return Ok(newDims[inferred := total / known]);
    } else {
      assert Known(newDims) == newDims;
      NoneInferred(newDims, total);
      if known != total {
        return Err(InvalidArgument);
      }
      return Ok(newDims);
    }
  }

  lemma NegativeUnresolvable(newDims: seq<int>, total: int, k: nat)
    requires k < |newDims| && newDims[k] < -1
    ensures !UniqueResolution(newDims, total)
  {
    forall r
      ensures !Resolution(newDims, total, r)
    {
      if |r| == |newDims| && r[k] == newDims[k] {
        assert !NonNegative(r);
      }
    }
  }

  /**
   Reshape succeeds exactly for contiguous tensors and uniquely resolvable requests with at most one
   -1; the new dimensions are the resolution, with total / known in place of the -1.
   */
  lemma ReshapeExactly(l: Layout, newDims: seq<int>)
    requires |l.strides| == |l.dims| && NonNegative(l.dims)
    ensures ReshapeLayout(l, newDims).Ok? <==>
            && Contiguous(l.dims, l.strides) && AtMostOneInferred(newDims)
            && UniqueResolution(newDims, Product(l.dims))
    ensures ReshapeLayout(l, newDims).Ok? ==>
              var v := ReshapeLayout(l, newDims).value;
              && Resolution(newDims, Product(l.dims), v.dims)
              && (forall p :: 0 <= p < |newDims| && newDims[p] == -1 ==>
                    Product(Known(newDims)) != 0 && v.dims == newDims[p := Product(l.dims) / Product(Known(newDims))])
              && ((forall p :: 0 <= p < |newDims| ==> newDims[p] != -1) ==> v.dims == newDims)
  {
    hide Product, Known;
    ProductSign(l.dims);
    if ReshapeLayout(l, newDims).Ok? {
      var dims := ReshapeLayout(l, newDims).value.dims;
      forall p | 0 <= p < |newDims| && newDims[p] == -1
        ensures Product(Known(newDims)) != 0 && dims == newDims[p := Product(l.dims) / Product(Known(newDims))]
      {
        OneInferred(newDims, Product(l.dims), p);
      }
    }
  }

  // ---------------------------------------------------------------- elements are preserved

  lemma ReshapeWellFormed(l: Layout, newDims: seq<int>)
    requires WellFormed(l) && ReshapeLayout(l, newDims).Ok?
    ensures var v := ReshapeLayout(l, newDims).value;
            WellFormed(v) && Contiguous(v.dims, v.strides) && Product(v.dims) == Product(l.dims)
  {
    RowMajorNonNegative(ReshapeLayout(l, newDims).value.dims);
  }

  /** The element at every row-major rank is the same byte range before and after. */
  lemma ReshapeKeepsElements(l: Layout, newDims: seq<int>, idx: seq<int>)
    requires WellFormed(l) && ReshapeLayout(l, newDims).Ok?
    requires ValidIndex(idx, ReshapeLayout(l, newDims).value.dims)
    ensures var v := ReshapeLayout(l, newDims).value;
            && Positive(l.dims)
            && ValidIndex(Unrank(Rank(idx, v.dims), l.dims), l.dims)
            && Rank(Unrank(Rank(idx, v.dims), l.dims), l.dims) == Rank(idx, v.dims)
            && Address(v, idx) == Address(l, Unrank(Rank(idx, v.dims), l.dims))
  {
    var v := ReshapeLayout(l, newDims).value;
    ReshapeWellFormed(l, newDims);
    RankBounds(idx, v.dims);
    ProductSign(l.dims);
    RankUnrank(Rank(idx, v.dims), l.dims);
    ContiguousAddress(v, idx);
    ContiguousAddress(l, Unrank(Rank(idx, v.dims), l.dims));
  }

  lemma ReshapeIsSafe(l: Layout, size: int, newDims: seq<int>)
    requires Safe(l, size) && ReshapeLayout(l, newDims).Ok?
    ensures Safe(ReshapeLayout(l, newDims).value, size)
  {
    var v := ReshapeLayout(l, newDims).value;
    ReshapeWellFormed(l, newDims);
    ContiguousInjective(v);
    forall idx | ValidIndex(idx, v.dims)
      ensures 0 <= Address(v, idx) && Address(v, idx) + v.elem <= size
    {
      ReshapeKeepsElements(l, newDims, idx);
    }
  }

  /** Reshaping back to the original dimensions restores the original indexing. */
  lemma ReshapeBack(l: Layout, newDims: seq<int>)
    requires WellFormed(l) && ReshapeLayout(l, newDims).Ok?
    ensures var back := ReshapeLayout(ReshapeLayout(l, newDims).value, l.dims);
            && back.Ok? && back.value.dims == l.dims && back.value.elem == l.elem
            && forall idx :: ValidIndex(idx, l.dims) ==> Address(back.value, idx) == Address(l, idx)
  {
    var v := ReshapeLayout(l, newDims).value;
    ReshapeWellFormed(l, newDims);
    NoneInferred(l.dims, Product(v.dims));
    var back := ReshapeLayout(v, l.dims).value;
    ReshapeWellFormed(v, l.dims);
    forall idx | ValidIndex(idx, l.dims)
      ensures Address(back, idx) == Address(l, idx)
    {
      ContiguousAddress(back, idx);
      ContiguousAddress(l, idx);
    }
  }
}
