/**
 Row-major shape arithmetic of MNShape (src/core/shape.cpp) and the odometer that walks the
 multi-indices of a shape (src/core/tensor.cpp).  Dimensions and strides are mathematical
 integers: `numel` is assumed not to overflow int64_t.
 */
module Shapes {

  ghost predicate NonNegative(s: seq<int>) {
    forall k :: 0 <= k < |s| ==> 0 <= s[k]
  }

  ghost predicate Positive(s: seq<int>) {
    forall k :: 0 <= k < |s| ==> 0 < s[k]
  }

  // ---------------------------------------------------------------- numel

  function Product(s: seq<int>): int {
    if s == [] then 1 else s[0] * Product(s[1..])
  }

  method Numel(dims: seq<int>) returns (n: int)
    ensures n == Product(dims)
  {
    if |dims| == 0 {
      return 1;
    }
    n := 1;
    for i := 0 to |dims|
      invariant n * Product(dims[i..]) == Product(dims)
    {
      assert dims[i..][1..] == dims[i + 1..];
      MulAssoc(n, dims[i], Product(dims[i + 1..]));
      n := n * dims[i];
    }
  }

  lemma MulAssoc(a: int, b: int, c: int)
    ensures a * b * c == a * (b * c)
  {
  }

  lemma {:induction false} ProductSign(s: seq<int>)
    requires NonNegative(s)
    ensures 0 <= Product(s)
    ensures Product(s) > 0 <==> Positive(s)
  {
    if s != [] {
      ProductSign(s[1..]);
      if Positive(s) {
        assert Positive(s[1..]);
      } else if s[0] > 0 {
        var k :| 0 <= k < |s| && s[k] <= 0;
        assert s[1..][k - 1] <= 0;
      }
    }
  }

  /** Replacing one factor scales the product. */
  lemma {:induction false} ProductUpdate(s: seq<int>, k: nat, v: int)
    requires k < |s|
    ensures Product(s[k := v]) == v * Product(s[k := 1])
  {
    if k == 0 {
      assert s[0 := v][1..] == s[1..] == s[0 := 1][1..];
    } else {
      assert s[k := v][1..] == s[1..][k - 1 := v];
      assert s[k := 1][1..] == s[1..][k - 1 := 1];
      ProductUpdate(s[1..], k - 1, v);
    }
  }

  // ---------------------------------------------------------------- strides

  /** Row-major strides: each dimension steps over the product of the dimensions after it. */
  function RowMajor(dims: seq<int>): (r: seq<int>)
    ensures |r| == |dims|
  {
    if dims == [] then [] else [Product(dims[1..])] + RowMajor(dims[1..])
  }

  lemma {:induction false} RowMajorAt(dims: seq<int>, k: nat)
    requires k < |dims|
    ensures RowMajor(dims)[k] == Product(dims[k + 1..])
  {
    if k > 0 {
      RowMajorAt(dims[1..], k - 1);
      assert dims[1..][k..] == dims[k + 1..];
    }
  }

  method ContiguousStrides(dims: seq<int>) returns (strides: seq<int>)
    ensures strides == RowMajor(dims)
  {
    var n := |dims|;
    if n == 0 {
      return [];
    }
    var a := new int[n];
    a[n - 1] := 1;
    var i := n - 1;
    while i > 0
      invariant 0 <= i < n
      invariant forall k :: i <= k < n ==> a[k] == Product(dims[k + 1..])
    {
      assert dims[i..][1..] == dims[i + 1..];
      a[i - 1] := a[i] * dims[i];
      i := i - 1;
    }
    strides := a[..];
    forall k | 0 <= k < n
      ensures strides[k] == RowMajor(dims)[k]
    {
      RowMajorAt(dims, k);
    }
  }

  // ---------------------------------------------------------------- multi-indices

  ghost predicate ValidIndex(idx: seq<int>, dims: seq<int>) {
    |idx| == |dims| && forall k :: 0 <= k < |idx| ==> 0 <= idx[k] < dims[k]
  }

  /** The element offset that the inner loops of `clone` and `fill_strided` add up. */
  function Dot(idx: seq<int>, strides: seq<int>): int
    requires |idx| == |strides|
  {
    if idx == [] then 0 else idx[0] * strides[0] + Dot(idx[1..], strides[1..])
  }

  function Rank(idx: seq<int>, dims: seq<int>): int
    requires |idx| == |dims|
  {
    Dot(idx, RowMajor(dims))
  }

  /** Mixed-radix digits of k, most significant first. */
  function Unrank(k: int, dims: seq<int>): (idx: seq<int>)
    requires Positive(dims)
    ensures |idx| == |dims|
    decreases dims
  {
    if dims == [] then []
    else
      ProductSign(dims[1..]);
      [k / Product(dims[1..])] + Unrank(k % Product(dims[1..]), dims[1..])
  }

  lemma ValidIndexPositive(idx: seq<int>, dims: seq<int>)
    requires ValidIndex(idx, dims)
    ensures Positive(dims)
  {
    assert forall k :: 0 <= k < |dims| ==> idx[k] < dims[k];
  }

  lemma NoIndex(dims: seq<int>)
    requires !Positive(dims)
    ensures forall idx :: !ValidIndex(idx, dims)
  {
    forall idx
      ensures !ValidIndex(idx, dims)
    {
      if ValidIndex(idx, dims) {
        ValidIndexPositive(idx, dims);
      }
    }
  }

  lemma MulMono(a: int, b: int, c: int)
    requires a <= b && 0 <= c
    ensures a * c <= b * c
  {
  }

  lemma DivModUnique(q: int, r: int, p: int)
    requires 0 <= r < p
    ensures (q * p + r) / p == q && (q * p + r) % p == r
  {
    var x := q * p + r;
    assert x == (x / p) * p + x % p;
    if x / p < q {
      MulMono(x / p + 1, q, p);
    } else if x / p > q {
      MulMono(q + 1, x / p, p);
    }
  }

  lemma {:induction false} RankBounds(idx: seq<int>, dims: seq<int>)
    requires ValidIndex(idx, dims)
    ensures 0 <= Rank(idx, dims) < Product(dims)
  {
    if dims != [] {
      RankBounds(idx[1..], dims[1..]);
      var p := Product(dims[1..]);
      MulMono(idx[0] + 1, dims[0], p);
      MulMono(0, idx[0], p);
      assert (idx[0] + 1) * p == idx[0] * p + p;
    }
  }

  /** Rank and Unrank are mutually inverse: the valid multi-indices are numbered 0 .. numel - 1. */
  lemma {:induction false} UnrankRank(idx: seq<int>, dims: seq<int>)
    requires ValidIndex(idx, dims)
    ensures Positive(dims) && Unrank(Rank(idx, dims), dims) == idx
  {
    ValidIndexPositive(idx, dims);
    if dims != [] {
      UnrankRank(idx[1..], dims[1..]);
      RankBounds(idx[1..], dims[1..]);
      DivModUnique(idx[0], Rank(idx[1..], dims[1..]), Product(dims[1..]));
    }
  }

  lemma DivRange(k: int, d: int, p: int)
    requires 0 <= k < d * p && 0 < p
    ensures 0 <= k / p < d && 0 <= k % p < p && k == (k / p) * p + k % p
  {
    assert k == (k / p) * p + k % p;
    if k / p >= d {
      MulMono(d, k / p, p);
    } else if k / p < 0 {
      MulMono(k / p, -1, p);
    }
  }

  lemma {:induction false} RankUnrank(k: int, dims: seq<int>)
    requires Positive(dims) && 0 <= k < Product(dims)
    ensures ValidIndex(Unrank(k, dims), dims) && Rank(Unrank(k, dims), dims) == k
  {
    if dims != [] {
      var p := Product(dims[1..]);
      ProductSign(dims[1..]);
      DivRange(k, dims[0], p);
      RankUnrank(k % p, dims[1..]);
    }
  }

  ghost predicate LexLess(i: seq<int>, j: seq<int>)
    requires |i| == |j|
  {
    i != [] && (i[0] < j[0] || (i[0] == j[0] && LexLess(i[1..], j[1..])))
  }

  lemma DigitOrder(a: int, x: int, b: int, y: int, p: int)
    requires 0 <= x < p && 0 <= y < p && a < b
    ensures a * p + x < b * p + y
  {
    MulMono(a + 1, b, p);
    assert (a + 1) * p == a * p + p;
  }

  /** Row-major rank is the position in lexicographic order. */
  lemma {:induction false} RankIsLexicographic(i: seq<int>, j: seq<int>, dims: seq<int>)
    requires ValidIndex(i, dims) && ValidIndex(j, dims)
    ensures Rank(i, dims) < Rank(j, dims) <==> LexLess(i, j)
  {
    if dims != [] {
      RankBounds(i[1..], dims[1..]);
      RankBounds(j[1..], dims[1..]);
      if i[0] < j[0] {
        DigitOrder(i[0], Rank(i[1..], dims[1..]), j[0], Rank(j[1..], dims[1..]), Product(dims[1..]));
      } else if j[0] < i[0] {
        DigitOrder(j[0], Rank(j[1..], dims[1..]), i[0], Rank(i[1..], dims[1..]), Product(dims[1..]));
      } else {
        RankIsLexicographic(i[1..], j[1..], dims[1..]);
      }
    }
  }

  // ---------------------------------------------------------------- the odometer

  lemma {:induction false} DotZero(idx: seq<int>, strides: seq<int>)
    requires |idx| == |strides| && forall k :: 0 <= k < |idx| ==> idx[k] == 0
    ensures Dot(idx, strides) == 0
  {
    if idx != [] {
      DotZero(idx[1..], strides[1..]);
    }
  }

  lemma {:induction false} MaxRank(idx: seq<int>, dims: seq<int>)
    requires |idx| == |dims| && forall k :: 0 <= k < |idx| ==> idx[k] == dims[k] - 1
    ensures Rank(idx, dims) == Product(dims) - 1
  {
    if dims != [] {
      MaxRank(idx[1..], dims[1..]);
      assert (dims[0] - 1) * Product(dims[1..]) == dims[0] * Product(dims[1..]) - Product(dims[1..]);
    }
  }

  /** One carry: digit p goes up, the saturated digits after it return to zero. */
  lemma {:induction false} CarryRank(a: seq<int>, b: seq<int>, dims: seq<int>, p: nat)
    requires |a| == |b| == |dims| && p < |dims|
    requires forall k :: 0 <= k < p ==> b[k] == a[k]
    requires b[p] == a[p] + 1
    requires forall k :: p < k < |dims| ==> a[k] == dims[k] - 1 && b[k] == 0
    ensures Rank(b, dims) == Rank(a, dims) + 1
  {
    if p == 0 {
      MaxRank(a[1..], dims[1..]);
      DotZero(b[1..], RowMajor(dims[1..]));
      assert (a[0] + 1) * Product(dims[1..]) == a[0] * Product(dims[1..]) + Product(dims[1..]);
    } else {
      CarryRank(a[1..], b[1..], dims[1..], p - 1);
    }
  }

  /** The rank after `r`, wrapping to 0 past the last element. */
  function NextRank(r: int, n: int): int {
    if r + 1 < n then r + 1 else 0
  }

  /** The digits that the carry loop leaves behind spell the next rank. */
  lemma CarriedIsNext(a: seq<int>, b: seq<int>, dims: seq<int>, p: int)
    requires ValidIndex(a, dims) && ValidIndex(b, dims) && -1 <= p < |dims|
    requires forall k :: 0 <= k < p ==> b[k] == a[k]
    requires p >= 0 ==> b[p] == a[p] + 1
    requires forall k :: p < k < |dims| ==> a[k] == dims[k] - 1 && b[k] == 0
    ensures Positive(dims) && b == Unrank(NextRank(Rank(a, dims), Product(dims)), dims)
  {
    UnrankRank(b, dims);
    RankBounds(b, dims);
    if p >= 0 {
      CarryRank(a, b, dims, p);
    } else {
      MaxRank(a, dims);
      DotZero(b, RowMajor(dims));
    }
  }

  /** Advance a multi-index by one in row-major order; after the last index it wraps to zero. */
  method AdvanceIndex(idx: array<int>, dims: seq<int>)
    requires ValidIndex(idx[..], dims)
    modifies idx
    ensures Positive(dims)
    ensures idx[..] == Unrank(NextRank(Rank(old(idx[..]), dims), Product(dims)), dims)
  {
    ghost var was := idx[..];
    var d := |dims|;
    while d > 0
      invariant 0 <= d <= |dims| == idx.Length
      invariant forall k :: 0 <= k < d ==> idx[k] == was[k]
      invariant forall k :: d <= k < |dims| ==> was[k] == dims[k] - 1 && idx[k] == 0
    {
      idx[d - 1] := idx[d - 1] + 1;
      if idx[d - 1] < dims[d - 1] {
        break;
      }
      idx[d - 1] := 0;
      d := d - 1;
    }
    CarriedIsNext(was, idx[..], dims, d - 1);
  }

  // ---------------------------------------------------------------- contiguity

  /** Strides that agree with the row-major ones wherever they matter. */
  ghost predicate Contiguous(dims: seq<int>, strides: seq<int>) {
    |strides| == |dims| && forall k :: 0 <= k < |dims| && dims[k] != 1 ==> strides[k] == RowMajor(dims)[k]
  }

  method IsContiguous(dims: seq<int>, strides: seq<int>) returns (b: bool)
    ensures b <==> Contiguous(dims, strides)
  {
    if |strides| != |dims| {
      return false;
    }
    if |dims| == 0 {
      return true;
    }
    var expected := 1;
    var i := |dims|;
    while i > 0
      invariant 0 <= i <= |dims|
      invariant expected == Product(dims[i..])
      invariant forall k :: i <= k < |dims| && dims[k] != 1 ==> strides[k] == RowMajor(dims)[k]
    {
      var d := i - 1;
      RowMajorAt(dims, d);
      assert dims[d..][1..] == dims[i..];
      if dims[d] != 1 {
        if strides[d] != expected {
          return false;
        }
        expected := expected * dims[d];
      }
      i := i - 1;
    }
    return true;
  }

  lemma {:induction false} DotAgree(idx: seq<int>, s: seq<int>, t: seq<int>)
    requires |idx| == |s| == |t|
    requires forall k :: 0 <= k < |idx| ==> idx[k] == 0 || s[k] == t[k]
    ensures Dot(idx, s) == Dot(idx, t)
  {
    if idx != [] {
      DotAgree(idx[1..], s[1..], t[1..]);
    }
  }

  function Unit(n: nat, d: nat): seq<int> {
    seq(n, k => if k == d then 1 else 0)
  }

  lemma {:induction false} DotUnit(n: nat, d: nat, strides: seq<int>)
    requires |strides| == n && d < n
    ensures Dot(Unit(n, d), strides) == strides[d]
  {
    if d == 0 {
      DotZero(Unit(n, d)[1..], strides[1..]);
    } else {
      assert Unit(n, d)[1..] == Unit(n - 1, d - 1);
      DotUnit(n - 1, d - 1, strides[1..]);
    }
  }

  lemma ContiguousOffsetIsRank(dims: seq<int>, strides: seq<int>, idx: seq<int>)
    requires Contiguous(dims, strides) && ValidIndex(idx, dims)
    ensures Dot(idx, strides) == Rank(idx, dims)
  {
    DotAgree(idx, strides, RowMajor(dims));
  }

  /** Every element sits at its row-major rank. */
  ghost predicate NoneMisplaced(dims: seq<int>, strides: seq<int>)
    requires |strides| == |dims|
  {
    forall idx :: ValidIndex(idx, dims) ==> Dot(idx, strides) == Rank(idx, dims)
  }

  /**
   Every element sits at its row-major rank exactly when `is_contiguous` accepts the strides or the
   shape has no elements.
   */
  lemma ContiguousIffOffsetIsRank(dims: seq<int>, strides: seq<int>)
    requires |strides| == |dims|
    ensures NoneMisplaced(dims, strides) <==> Contiguous(dims, strides) || !Positive(dims)
  {
    if !Positive(dims) {
      NoIndex(dims);
    } else if Contiguous(dims, strides) {
      forall idx | ValidIndex(idx, dims)
        ensures Dot(idx, strides) == Rank(idx, dims)
      {
        ContiguousOffsetIsRank(dims, strides, idx);
      }
    } else {
      var d :| 0 <= d < |dims| && dims[d] != 1 && strides[d] != RowMajor(dims)[d];
      var e := Unit(|dims|, d);
      DotUnit(|dims|, d, strides);
      DotUnit(|dims|, d, RowMajor(dims));
      assert ValidIndex(e, dims);
    }
  }

  /** Acceptance says whether an element is misplaced, for exactly these shapes and strides. */
  lemma AcceptanceIsExactIff(dims: seq<int>, strides: seq<int>)
    requires |strides| == |dims|
    ensures (Contiguous(dims, strides) <==> NoneMisplaced(dims, strides)) <==> Positive(dims) || Contiguous(dims, strides)
  {
    ContiguousIffOffsetIsRank(dims, strides);
  }

  /** With a zero dimension there is no element to misplace, yet some layouts are still refused. */
  lemma EmptyShapeMayBeRefused()
    ensures !Contiguous([0, 2], [7, 1])
    ensures forall idx :: !ValidIndex(idx, [0, 2])
  {
    assert RowMajor([0, 2])[0] == Product([0, 2][1..]) == 2 by {
      assert [0, 2][1..] == [2];
      assert Product([2]) == 2 * Product([]);
    }
    assert [0, 2][0] == 0;
    forall idx | ValidIndex(idx, [0, 2])
      ensures false
    {
      ValidIndexPositive(idx, [0, 2]);
    }
  }
}
