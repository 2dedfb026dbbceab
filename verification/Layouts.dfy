/**
 Strided views over a byte buffer, as values: the shape, strides, element size and byte offset of
 an MNTensor, with `reshape` and `slice` (src/core/tensor.cpp).
 */
module Layouts {
  import opened Wrappers
  import opened Shapes

  /** `strides` count elements, `offset` and `elem` count bytes. */
  datatype Layout = Layout(dims: seq<int>, strides: seq<int>, elem: nat, offset: int)

  ghost predicate WellFormed(l: Layout) {
    |l.strides| == |l.dims| && NonNegative(l.dims) && NonNegative(l.strides) && l.elem > 0 && l.offset >= 0
  }

  /** First byte of the element at a multi-index, relative to the buffer. */
  function Address(l: Layout, idx: seq<int>): int
    requires |idx| == |l.strides|
  {
    l.offset + Dot(idx, l.strides) * l.elem
  }

  ghost predicate InBounds(l: Layout, size: int)
    requires |l.strides| == |l.dims|
  {
    forall idx :: ValidIndex(idx, l.dims) ==> 0 <= Address(l, idx) && Address(l, idx) + l.elem <= size
  }

  ghost predicate Injective(l: Layout)
    requires |l.strides| == |l.dims|
  {
    forall i, j :: ValidIndex(i, l.dims) && ValidIndex(j, l.dims) && Address(l, i) == Address(l, j) ==> i == j
  }

  /** Every element lies inside the allocation and no two multi-indices share one. */
  ghost predicate Safe(l: Layout, size: int) {
    WellFormed(l) && InBounds(l, size) && Injective(l)
  }

  // ---------------------------------------------------------------- empty

  function Fresh(dims: seq<int>, elem: nat): Layout {
    Layout(dims, RowMajor(dims), elem, 0)
  }

  function AllocationSize(dims: seq<int>, elem: nat): int {
    var nbytes := Product(dims) * elem;
    if nbytes < 1 then 1 else nbytes
  }

  lemma {:induction false} RowMajorNonNegative(dims: seq<int>)
    requires NonNegative(dims)
    ensures NonNegative(RowMajor(dims))
  {
    if dims != [] {
      assert NonNegative(dims[1..]);
      ProductSign(dims[1..]);
      RowMajorNonNegative(dims[1..]);
    }
  }

  lemma ContiguousAddress(l: Layout, idx: seq<int>)
    requires WellFormed(l) && Contiguous(l.dims, l.strides) && ValidIndex(idx, l.dims)
    ensures Address(l, idx) == l.offset + Rank(idx, l.dims) * l.elem
  {
    ContiguousOffsetIsRank(l.dims, l.strides, idx);
  }

  lemma MulCancel(a: int, b: int, c: int)
    requires a * c == b * c && c > 0
    ensures a == b
  {
    if a < b {
      MulMono(a + 1, b, c);
    } else if b < a {
      MulMono(b + 1, a, c);
    }
  }

  lemma ContiguousInjective(l: Layout)
    requires WellFormed(l) && Contiguous(l.dims, l.strides)
    ensures Injective(l)
  {
    forall i, j | ValidIndex(i, l.dims) && ValidIndex(j, l.dims) && Address(l, i) == Address(l, j)
      ensures i == j
    {
      ContiguousAddress(l, i);
      ContiguousAddress(l, j);
      MulCancel(Rank(i, l.dims), Rank(j, l.dims), l.elem);
      UnrankRank(i, l.dims);
      UnrankRank(j, l.dims);
    }
  }

  lemma FreshIsSafe(dims: seq<int>, elem: nat)
    requires NonNegative(dims) && elem > 0
    ensures Contiguous(dims, RowMajor(dims))
    ensures Safe(Fresh(dims, elem), AllocationSize(dims, elem))
  {
    var l := Fresh(dims, elem);
    RowMajorNonNegative(dims);
    ContiguousInjective(l);
    forall idx | ValidIndex(idx, dims)
      ensures 0 <= Address(l, idx) && Address(l, idx) + elem <= AllocationSize(dims, elem)
    {
      RankBounds(idx, dims);
      MulMono(0, Rank(idx, dims), elem);
      MulMono(Rank(idx, dims) + 1, Product(dims), elem);
      assert (Rank(idx, dims) + 1) * elem == Rank(idx, dims) * elem + elem;
    }
  }

  /** The allocation is the smallest non-empty one that holds every element. */
  lemma AllocationIsTight(dims: seq<int>, elem: nat, size: int)
    requires NonNegative(dims) && elem > 0
    ensures InBounds(Fresh(dims, elem), size) && size >= 1 <==> size >= AllocationSize(dims, elem)
  {
    FreshIsSafe(dims, elem);
    ProductSign(dims);
    var n := Product(dims);
    if size >= AllocationSize(dims, elem) {
      assert forall idx :: ValidIndex(idx, dims) ==> Address(Fresh(dims, elem), idx) + elem <= AllocationSize(dims, elem);
    } else if n > 0 {
      RankUnrank(n - 1, dims);
      var last := Unrank(n - 1, dims);
      assert Address(Fresh(dims, elem), last) + elem == n * elem by {
        assert (n - 1) * elem + elem == n * elem;
      }
      MulMono(1, n, elem);
    }
  }

  // ---------------------------------------------------------------- slice

  function Min(a: int, b: int): int { if a < b then a else b }

  function Max(a: int, b: int): int { if a < b then b else a }

  /** Negative positions count from the end of the dimension. */
  function FromEnd(x: int, size: int): int {
    if x < 0 then x + size else x
  }

  function SliceStart(size: int, start: int): int {
    Max(0, Min(FromEnd(start, size), size))
  }

  function SliceEnd(size: int, start: int, end: int): int {
    Max(SliceStart(size, start), Min(FromEnd(end, size), size))
  }

  function Slice(l: Layout, dim: int, start: int, end: int): Result<Layout>
    requires |l.strides| == |l.dims|
  {
    var d := FromEnd(dim, |l.dims|);
    if 0 <= d < |l.dims| then
      var s := SliceStart(l.dims[d], start);
      var e := SliceEnd(l.dims[d], start, end);
      Ok(l.(dims := l.dims[d := e - s], offset := l.offset + s * l.strides[d] * l.elem))
    else
      Err(InvalidArgument)
  }

  /** A position of the sliced dimension is kept iff it lies in the requested half-open range. */
  lemma SliceKeeps(size: int, start: int, end: int, j: int)
    requires 0 <= j < size
    ensures SliceStart(size, start) <= j < SliceEnd(size, start, end) <==>
            (if start < 0 then start + size else start) <= j < (if end < 0 then end + size else end)
  {
  }

  function Distance(a: int, b: int): nat {
    if a < b then b - a else a - b
  }

  /** Both ends are clamped to the nearest position that exists, the end never before the start. */
  lemma SliceClamps(size: int, start: int, end: int, x: int)
    requires 0 <= x <= size
    ensures var s, f := SliceStart(size, start), if start < 0 then start + size else start;
            0 <= s <= size && Distance(s, f) <= Distance(x, f)
    ensures var s, e, f := SliceStart(size, start), SliceEnd(size, start, end), if end < 0 then end + size else end;
            s <= e <= size && (s <= x ==> Distance(e, f) <= Distance(x, f))
  {
  }

  /** Dimensions count from the end as well; anything else is refused. */
  lemma SliceAcceptsIff(l: Layout, dim: int, start: int, end: int)
    requires |l.strides| == |l.dims|
    ensures Slice(l, dim, start, end).Ok? <==> -|l.dims| <= dim < |l.dims|
    ensures dim < 0 ==> dim + |l.dims| >= 0 ==> Slice(l, dim, start, end) == Slice(l, dim + |l.dims|, start, end)
    ensures Slice(l, dim, start, end).Err? ==> Slice(l, dim, start, end).error == InvalidArgument
  {
  }

  /** `end == -1` drops the last position: it means the full extent only where nothing was left to drop. */
  lemma SliceEndMinusOne(size: int, start: int)
    requires 0 <= size
    ensures SliceEnd(size, start, -1) == size <==> size == 0 || start >= size
    ensures SliceEnd(size, start, -1) == Max(SliceStart(size, start), Max(0, size - 1))
  {
  }

  lemma {:induction false} DotShift(idx: seq<int>, strides: seq<int>, d: nat, s: int)
    requires |idx| == |strides| && d < |idx|
    ensures Dot(idx[d := idx[d] + s], strides) == Dot(idx, strides) + s * strides[d]
  {
    if d == 0 {
      assert idx[0 := idx[0] + s][1..] == idx[1..];
    } else {
      assert idx[d := idx[d] + s][1..] == idx[1..][d - 1 := idx[d] + s];
      DotShift(idx[1..], strides[1..], d - 1, s);
    }
  }

  /**
   The sliced view is the restriction of the parent: its index set is the parent's indices inside
   the range, shifted to start at zero, and each of them denotes the parent's element.
   */
  lemma SliceDenotes(l: Layout, dim: int, start: int, end: int, idx: seq<int>)
    requires WellFormed(l) && Slice(l, dim, start, end).Ok? && |idx| == |l.dims|
    ensures var d := FromEnd(dim, |l.dims|);
            var v := Slice(l, dim, start, end).value;
            var s := SliceStart(l.dims[d], start);
            var up := idx[d := idx[d] + s];
            && WellFormed(v)
            && (ValidIndex(idx, v.dims) <==> ValidIndex(up, l.dims) && s <= up[d] < SliceEnd(l.dims[d], start, end))
            && Address(v, idx) == Address(l, up)
  {
    var d := FromEnd(dim, |l.dims|);
    var v := Slice(l, dim, start, end).value;
    var s := SliceStart(l.dims[d], start);
    var e := SliceEnd(l.dims[d], start, end);
    var up := idx[d := idx[d] + s];
    DotShift(idx, l.strides, d, s);
    assert (Dot(idx, l.strides) + s * l.strides[d]) * l.elem == Dot(idx, l.strides) * l.elem + s * l.strides[d] * l.elem;
    MulMono(0, s, l.strides[d]);
    MulMono(0, s * l.strides[d], l.elem);
    if ValidIndex(idx, v.dims) {
      assert idx[d] < v.dims[d];
      assert ValidIndex(up, l.dims);
    }
    if ValidIndex(up, l.dims) && s <= up[d] < e {
      forall k | 0 <= k < |idx|
        ensures 0 <= idx[k] < v.dims[k]
      {
        assert k != d ==> up[k] == idx[k] && 0 <= up[k] < l.dims[k];
      }
    }
  }

  lemma SliceIsSafe(l: Layout, size: int, dim: int, start: int, end: int)
    requires Safe(l, size) && Slice(l, dim, start, end).Ok?
    ensures Safe(Slice(l, dim, start, end).value, size)
  {
    var d := FromEnd(dim, |l.dims|);
    var v := Slice(l, dim, start, end).value;
    var s := SliceStart(l.dims[d], start);
    SliceDenotes(l, dim, start, end, l.dims);
    forall i | ValidIndex(i, v.dims)
      ensures 0 <= Address(v, i) && Address(v, i) + v.elem <= size
    {
      SliceDenotes(l, dim, start, end, i);
    }
    forall i, j | ValidIndex(i, v.dims) && ValidIndex(j, v.dims) && Address(v, i) == Address(v, j)
      ensures i == j
    {
      SliceDenotes(l, dim, start, end, i);
      SliceDenotes(l, dim, start, end, j);
      var iu, ju := i[d := i[d] + s], j[d := j[d] + s];
      assert iu == ju;
      assert i == iu[d := iu[d] - s] && j == ju[d := ju[d] - s];
    }
  }
}
