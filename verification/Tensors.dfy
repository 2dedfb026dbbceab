/**
 MNTensor over a shared byte buffer (src/core/tensor.cpp): allocation, views, and the in-place
 loops of `fill_` and `clone`.
 */
module Tensors {
  import opened Wrappers
  import opened Shapes
  import opened Layouts
  import opened Reshape

  newtype byte = x: int | 0 <= x < 256

  datatype DType = Float32 | Float16 | BFloat16 | Int64 | Int32 | Int16 | Int8 | UInt8 | Bool

  function DTypeSize(t: DType): nat {
    match t
    case Float32 => 4
    case Float16 => 2
    case BFloat16 => 2
    case Int64 => 8
    case Int32 => 4
    case Int16 => 2
    case Int8 => 1
    case UInt8 => 1
    case Bool => 1
  }

  datatype StorageMode = Shared | Private

  const SIZE_MAX := 0xFFFF_FFFF_FFFF_FFFF

  /** Only the bytes of a Shared buffer are visible to the CPU. */
  class MNBuffer {
    const bytes: array<byte>
    const mode: StorageMode

    constructor (size: nat, mode: StorageMode)
      ensures fresh(bytes) && bytes.Length == size && this.mode == mode
    {
      this.bytes := new byte[size];
      this.mode := mode;
    }
  }

  datatype MNTensor = MNTensor(buffer: MNBuffer, layout: Layout, dtype: DType) {
    /** A view that may alias itself but stays inside its buffer. */
    ghost predicate Valid() {
      WellFormed(layout) && layout.elem == DTypeSize(dtype) && InBounds(layout, buffer.bytes.Length)
    }
  }

  /** The bytes of one element in a buffer's contents. */
  ghost function ElementOf(contents: seq<byte>, l: Layout, idx: seq<int>): seq<byte>
    requires |l.strides| == |l.dims| && InBounds(l, |contents|) && ValidIndex(idx, l.dims)
  {
    contents[Address(l, idx)..Address(l, idx) + l.elem]
  }

  // ---------------------------------------------------------------- empty, reshape, slice

  method Empty(dims: seq<int>, dtype: DType, mode: StorageMode) returns (r: Result<MNTensor>)
    requires NonNegative(dims)
    ensures r.Err? <==> Product(dims) * DTypeSize(dtype) > 0xFFFF_FFFF_FFFF_FFFF
    ensures r.Err? ==> r.error == OutOfMemory
    ensures r.Ok? ==> var t := r.value;
                      && fresh(t.buffer) && fresh(t.buffer.bytes)
                      && t.buffer.mode == mode && t.dtype == dtype
                      && t.layout == Fresh(dims, DTypeSize(dtype))
                      && t.buffer.bytes.Length == AllocationSize(dims, DTypeSize(dtype))
                      && t.Valid() && Injective(t.layout)
  {
    var numel := Numel(dims);
    var size := DTypeSize(dtype);
    ProductSign(dims);
    DivRangeOf(SIZE_MAX, size);
    if numel > SIZE_MAX / size {
      MulMono(SIZE_MAX / size + 1, numel, size);
      return Err(OutOfMemory);
    }
    MulMono(numel, SIZE_MAX / size, size);
    var nbytes := numel * size;
    var buffer := new MNBuffer(if nbytes < 1 then 1 else nbytes, mode);
    var strides := ContiguousStrides(dims);
    FreshIsSafe(dims, size);
    return Ok(MNTensor(buffer, Layout(dims, strides, size, 0), dtype));
  }

  method ReshapeTensor(t: MNTensor, newDims: seq<int>) returns (r: Result<MNTensor>)
    requires t.Valid()
    ensures r.Ok? <==> ReshapeLayout(t.layout, newDims).Ok?
    ensures r.Ok? <==>
            && Contiguous(t.layout.dims, t.layout.strides) && AtMostOneInferred(newDims)
            && UniqueResolution(newDims, Product(t.layout.dims))
    ensures r.Ok? ==> Resolution(newDims, Product(t.layout.dims), r.value.layout.dims)
    ensures r.Ok? ==> r.value == t.(layout := ReshapeLayout(t.layout, newDims).value)
    ensures r.Err? ==> r.error == InvalidArgument
  {
    var contiguous := IsContiguous(t.layout.dims, t.layout.strides);
    if !contiguous {
      return Err(InvalidArgument);
    }
    var total := Numel(t.layout.dims);
    ProductSign(t.layout.dims);
    var dims := ResolveDims(newDims, total);
    if dims.Err? {
      return Err(InvalidArgument);
    }
    var strides := ContiguousStrides(dims.value);
    return Ok(t.(layout := t.layout.(dims := dims.value, strides := strides)));
  }

  // ---------------------------------------------------------------- chains of view operations

  datatype Operation = ReshapeTo(newDims: seq<int>) | SliceBy(dim: int, start: int, end: int) | Cloned

  /** A view together with the size of the allocation behind it. */
  datatype View = View(layout: Layout, size: int)

  ghost function Apply(v: View, op: Operation): Result<View>
    requires |v.layout.strides| == |v.layout.dims|
  {
    match op
    case ReshapeTo(dims) =>
      (match ReshapeLayout(v.layout, dims)
       case Ok(l) => Ok(View(l, v.size))
       case Err(e) => Err(e))
    case SliceBy(d, s, e) =>
      (match Slice(v.layout, d, s, e)
       case Ok(l) => Ok(View(l, v.size))
       case Err(e) => Err(e))
    case Cloned =>
      Ok(View(Fresh(v.layout.dims, v.layout.elem), AllocationSize(v.layout.dims, v.layout.elem)))
  }

  lemma ApplyIsSafe(v: View, op: Operation)
    requires Safe(v.layout, v.size) && Apply(v, op).Ok?
    ensures Safe(Apply(v, op).value.layout, Apply(v, op).value.size)
  {
    match op
    case ReshapeTo(dims) => ReshapeIsSafe(v.layout, v.size, dims);
    case SliceBy(d, s, e) => SliceIsSafe(v.layout, v.size, d, s, e);
    case Cloned => FreshIsSafe(v.layout.dims, v.layout.elem);
  }

  /** `v` is reached from a freshly allocated tensor by the operations in order. */
  ghost predicate Reaches(dims: seq<int>, elem: nat, ops: seq<Operation>, v: View)
    decreases |ops|
  {
    if ops == [] then
      v == View(Fresh(dims, elem), AllocationSize(dims, elem))
    else
      exists u: View :: Reaches(dims, elem, ops[..|ops| - 1], u) && |u.layout.strides| == |u.layout.dims|
                        && Apply(u, ops[|ops| - 1]) == Ok(v)
  }

  /** No chain of reshape, slice and clone leaves its allocation or makes two indices share an element. */
  lemma {:induction false} ChainIsSafe(dims: seq<int>, elem: nat, ops: seq<Operation>, v: View)
    requires NonNegative(dims) && elem > 0 && Reaches(dims, elem, ops, v)
    ensures Safe(v.layout, v.size)
    decreases |ops|
  {
    if ops == [] {
      FreshIsSafe(dims, elem);
    } else {
      var u: View :| Reaches(dims, elem, ops[..|ops| - 1], u) && |u.layout.strides| == |u.layout.dims|
                     && Apply(u, ops[|ops| - 1]) == Ok(v);
      ChainIsSafe(dims, elem, ops[..|ops| - 1], u);
      ApplyIsSafe(u, ops[|ops| - 1]);
    }
  }

  // ---------------------------------------------------------------- fill_

  ghost predicate Covers(l: Layout, idx: seq<int>, p: int)
    requires |idx| == |l.strides|
  {
    Address(l, idx) <= p < Address(l, idx) + l.elem
  }

  ghost predicate Addressed(l: Layout, p: int)
    requires |l.strides| == |l.dims|
  {
    exists idx :: ValidIndex(idx, l.dims) && Covers(l, idx, p)
  }

  /** The buffer after writing `value` to every element of the view, and to nothing else. */
  ghost function Filled(before: seq<byte>, l: Layout, value: seq<byte>): (after: seq<byte>)
    requires |l.strides| == |l.dims| && |value| == l.elem > 0
    ensures |after| == |before|
  {
    seq(|before|, p requires 0 <= p < |before| =>
      if Addressed(l, p) then value[(p - l.offset) % l.elem] else before[p])
  }

  ghost predicate AddressedUpTo(l: Layout, p: int, n: int)
    requires |l.strides| == |l.dims| && (n > 0 ==> Positive(l.dims))
  {
    exists k :: 0 <= k < n && Covers(l, Unrank(k, l.dims), p)
  }

  /** The buffer once the first n elements in row-major order are written. */
  ghost function Written(before: seq<byte>, l: Layout, value: seq<byte>, n: int): (after: seq<byte>)
    requires |l.strides| == |l.dims| && |value| == l.elem > 0 && (n > 0 ==> Positive(l.dims))
    ensures |after| == |before|
  {
    seq(|before|, p requires 0 <= p < |before| =>
      if AddressedUpTo(l, p, n) then value[(p - l.offset) % l.elem] else before[p])
  }

  ghost function Splice(s: seq<byte>, at: int, value: seq<byte>): seq<byte>
    requires 0 <= at && at + |value| <= |s|
  {
    s[..at] + value + s[at + |value|..]
  }

  lemma CoveredByte(l: Layout, idx: seq<int>, p: int)
    requires |idx| == |l.strides| && l.elem > 0 && Covers(l, idx, p)
    ensures (p - l.offset) % l.elem == p - Address(l, idx)
  {
    DivModUnique(Dot(idx, l.strides), p - Address(l, idx), l.elem);
  }

  lemma WriteNext(before: seq<byte>, l: Layout, value: seq<byte>, n: int)
    requires WellFormed(l) && InBounds(l, |before|) && |value| == l.elem
    requires Positive(l.dims) && 0 <= n < Product(l.dims)
    ensures ValidIndex(Unrank(n, l.dims), l.dims)
    ensures Written(before, l, value, n + 1)
            == Splice(Written(before, l, value, n), Address(l, Unrank(n, l.dims)), value)
  {
    RankUnrank(n, l.dims);
    var idx := Unrank(n, l.dims);
    var at := Address(l, idx);
    var now, next := Written(before, l, value, n), Splice(Written(before, l, value, n), at, value);
    forall p | 0 <= p < |before|
      ensures Written(before, l, value, n + 1)[p] == next[p]
    {
      if Covers(l, idx, p) {
        CoveredByte(l, idx, p);
        assert AddressedUpTo(l, p, n + 1);
      } else {
        assert AddressedUpTo(l, p, n + 1) <==> AddressedUpTo(l, p, n);
        assert next[p] == now[p];
      }
    }
  }

  lemma AllWritten(before: seq<byte>, l: Layout, value: seq<byte>)
    requires WellFormed(l) && |value| == l.elem
    ensures Product(l.dims) > 0 ==> Positive(l.dims)
    ensures Written(before, l, value, Product(l.dims)) == Filled(before, l, value)
  {
    var n := Product(l.dims);
    ProductSign(l.dims);
    forall p
      ensures AddressedUpTo(l, p, n) <==> Addressed(l, p)
    {
      if k :| 0 <= k < n && Covers(l, Unrank(k, l.dims), p) {
        RankUnrank(k, l.dims);
      }
      if idx :| ValidIndex(idx, l.dims) && Covers(l, idx, p) {
        RankBounds(idx, l.dims);
        UnrankRank(idx, l.dims);
        assert Covers(l, Unrank(Rank(idx, l.dims), l.dims), p);
      }
    }
  }

  method WriteElement(a: array<byte>, at: int, value: seq<byte>)
    requires 0 <= at && at + |value| <= a.Length
    modifies a
    ensures a[..] == Splice(old(a[..]), at, value)
  {
    forall k | 0 <= k < |value| {
      a[at + k] := value[k];
    }
    ghost var was := old(a[..]);
    forall p | 0 <= p < a.Length
      ensures a[p] == Splice(was, at, value)[p]
    {
      if at <= p < at + |value| {
        assert a[at + (p - at)] == value[p - at];
      }
    }
  }

  /** The element offset at a multi-index, added up dimension by dimension. */
  method ElementOffset(idx: array<int>, strides: seq<int>) returns (off: int)
    requires idx.Length == |strides|
    ensures off == Dot(idx[..], strides)
  {
    off := 0;
    for d := 0 to |strides|
      invariant off + Dot(idx[d..], strides[d..]) == Dot(idx[..], strides)
    {
      assert idx[d..][1..] == idx[d + 1..] && strides[d..][1..] == strides[d + 1..];
      off := off + idx[d] * strides[d];
    }
  }

  method FillStrided(bytes: array<byte>, l: Layout, value: seq<byte>)
    requires WellFormed(l) && InBounds(l, bytes.Length) && |value| == l.elem
    modifies bytes
    ensures bytes[..] == Filled(old(bytes[..]), l, value)
  {
    ghost var before := bytes[..];
    var n := Numel(l.dims);
    var idx := new int[|l.dims|](_ => 0);
    ProductSign(l.dims);
    AllWritten(before, l, value);
    if n > 0 {
      StartIndex(idx[..], l.dims);
    }
    for flat := 0 to n
      invariant n > 0 ==> Positive(l.dims) && idx[..] == Unrank(if flat < n then flat else 0, l.dims)
      invariant bytes[..] == Written(before, l, value, flat)
    {
      WriteNext(before, l, value, flat);
      RankUnrank(flat, l.dims);
      var off := ElementOffset(idx, l.strides);
      WriteElement(bytes, l.offset + off * l.elem, value);
      AdvanceIndex(idx, l.dims);
    }
  }

  lemma StartIndex(idx: seq<int>, dims: seq<int>)
    requires NonNegative(dims) && Product(dims) > 0
    requires |idx| == |dims| && forall k :: 0 <= k < |idx| ==> idx[k] == 0
    ensures Positive(dims) && idx == Unrank(0, dims)
  {
    ProductSign(dims);
    DotZero(idx, RowMajor(dims));
    UnrankRank(idx, dims);
  }

  /** The fast path for contiguous tensors: one pass over consecutive elements. */
  method FillContiguous(bytes: array<byte>, l: Layout, value: seq<byte>)
    requires WellFormed(l) && InBounds(l, bytes.Length) && |value| == l.elem && Contiguous(l.dims, l.strides)
    modifies bytes
    ensures bytes[..] == Filled(old(bytes[..]), l, value)
  {
    ghost var before := bytes[..];
    var n := Numel(l.dims);
    ProductSign(l.dims);
    AllWritten(before, l, value);
    for i := 0 to n
      invariant bytes[..] == Written(before, l, value, i)
    {
      WriteNext(before, l, value, i);
      RankUnrank(i, l.dims);
      ContiguousAddress(l, Unrank(i, l.dims));
      WriteElement(bytes, l.offset + i * l.elem, value);
    }
  }

  /** `fill_`, given the fill value already encoded in the tensor's dtype. */
  method Fill(t: MNTensor, value: seq<byte>) returns (r: Result<()>)
    requires t.Valid() && |value| == DTypeSize(t.dtype)
    modifies t.buffer.bytes
    ensures t.buffer.mode == Private ==> r == Err(InvalidArgument) && t.buffer.bytes[..] == old(t.buffer.bytes[..])
    ensures t.buffer.mode == Shared ==>
              r == Ok(()) && t.buffer.bytes[..] == Filled(old(t.buffer.bytes[..]), t.layout, value)
  {
    if t.buffer.mode == Private {
      return Err(InvalidArgument);
    }
    var contiguous := IsContiguous(t.layout.dims, t.layout.strides);
    if contiguous {
      FillContiguous(t.buffer.bytes, t.layout, value);
    } else {
      FillStrided(t.buffer.bytes, t.layout, value);
    }
    return Ok(());
  }

  // ---------------------------------------------------------------- what a fill changes

  lemma FilledElement(before: seq<byte>, l: Layout, value: seq<byte>, idx: seq<int>)
    requires WellFormed(l) && InBounds(l, |before|) && |value| == l.elem && ValidIndex(idx, l.dims)
    ensures ElementOf(Filled(before, l, value), l, idx) == value
  {
    var a := Address(l, idx);
    forall k | 0 <= k < l.elem
      ensures Filled(before, l, value)[a + k] == value[k]
    {
      assert Covers(l, idx, a + k);
      CoveredByte(l, idx, a + k);
    }
  }

  /** Distinct element addresses are a whole number of elements apart. */
  lemma ElementsDisjoint(l: Layout, i: seq<int>, j: seq<int>, p: int)
    requires |i| == |j| == |l.strides| && l.elem > 0
    requires Covers(l, i, p) && Covers(l, j, p)
    ensures Address(l, i) == Address(l, j)
  {
    CoveredByte(l, i, p);
    CoveredByte(l, j, p);
  }

  /**
   Filling a slice of a tensor whose indices do not share elements rewrites exactly the parent's
   elements inside the slice, and every byte that no sliced element owns keeps its value.
   */
  lemma FillSliceChangesSlice(before: seq<byte>, l: Layout, dim: int, start: int, end: int, value: seq<byte>, idx: seq<int>)
    requires Safe(l, |before|) && Slice(l, dim, start, end).Ok? && |value| == l.elem && ValidIndex(idx, l.dims)
    ensures var d := FromEnd(dim, |l.dims|);
            var after := Filled(before, Slice(l, dim, start, end).value, value);
            ElementOf(after, l, idx) ==
              if FromEnd(start, l.dims[d]) <= idx[d] < FromEnd(end, l.dims[d]) then value else ElementOf(before, l, idx)
    ensures var v := Slice(l, dim, start, end).value;
            forall p :: 0 <= p < |before| && !Addressed(v, p) ==> Filled(before, v, value)[p] == before[p]
  {
    var d := FromEnd(dim, |l.dims|);
    var v := Slice(l, dim, start, end).value;
    var s := SliceStart(l.dims[d], start);
    var down := idx[d := idx[d] - s];
    SliceKeeps(l.dims[d], start, end, idx[d]);
    SliceDenotes(l, dim, start, end, down);
    SliceIsSafe(l, |before|, dim, start, end);
    assert down[d := down[d] + s] == idx;
    if ValidIndex(down, v.dims) {
      FilledElement(before, v, value, down);
    } else {
      forall p | Covers(l, idx, p)
        ensures !Addressed(v, p)
      {
        if i :| ValidIndex(i, v.dims) && Covers(v, i, p) {
          SliceDenotes(l, dim, start, end, i);
          ElementsDisjoint(l, idx, i[d := i[d] + s], p);
        }
      }
    }
  }

  // ---------------------------------------------------------------- clone

  lemma BlockFits(k: int, n: int, e: nat)
    requires 0 <= k < n
    ensures 0 <= k * e && k * e + e == (k + 1) * e <= n * e
  {
    MulMono(0, k, e);
    MulMono(k + 1, n, e);
  }

  /** The elements of the view one after another, in row-major order. */
  ghost function Gathered(src: seq<byte>, l: Layout, n: int): (r: seq<byte>)
    requires WellFormed(l) && InBounds(l, |src|) && 0 <= n <= Product(l.dims)
    ensures |r| == n * l.elem
  {
    if n == 0 then []
    else
      ProductSign(l.dims);
      RankUnrank(n - 1, l.dims);
      BlockFits(n - 1, n, l.elem);
      Gathered(src, l, n - 1) + ElementOf(src, l, Unrank(n - 1, l.dims))
  }

  lemma {:induction false} GatheredAt(src: seq<byte>, l: Layout, n: int, k: int)
    requires WellFormed(l) && InBounds(l, |src|) && 0 <= k < n <= Product(l.dims)
    ensures Positive(l.dims) && ValidIndex(Unrank(k, l.dims), l.dims)
    ensures 0 <= k * l.elem && k * l.elem + l.elem <= n * l.elem
    ensures Gathered(src, l, n)[k * l.elem..k * l.elem + l.elem] == ElementOf(src, l, Unrank(k, l.dims))
    decreases n
  {
    ProductSign(l.dims);
    RankUnrank(k, l.dims);
    RankUnrank(n - 1, l.dims);
    BlockFits(k, n, l.elem);
    var at := k * l.elem;
    var init, last := Gathered(src, l, n - 1), ElementOf(src, l, Unrank(n - 1, l.dims));
    assert Gathered(src, l, n) == init + last;
    if k < n - 1 {
      GatheredAt(src, l, n - 1, k);
      PrefixSlice(init, last, at, at + l.elem);
    } else {
      assert |init| == at;
    }
  }

  lemma PrefixSlice(a: seq<byte>, b: seq<byte>, lo: int, hi: int)
    requires 0 <= lo <= hi <= |a|
    ensures (a + b)[lo..hi] == a[lo..hi]
  {
  }

  /** A contiguous view is one block, so a single memcpy gathers it. */
  lemma {:induction false} GatheredBlock(src: seq<byte>, l: Layout, n: int)
    requires WellFormed(l) && InBounds(l, |src|) && Contiguous(l.dims, l.strides) && 0 < n <= Product(l.dims)
    ensures l.offset + n * l.elem <= |src| && src[l.offset..l.offset + n * l.elem] == Gathered(src, l, n)
    decreases n
  {
    ProductSign(l.dims);
    RankUnrank(n - 1, l.dims);
    ContiguousAddress(l, Unrank(n - 1, l.dims));
    BlockFits(n - 1, n, l.elem);
    if n > 1 {
      GatheredBlock(src, l, n - 1);
    }
  }

  /** The next element to copy, and where it goes. */
  lemma GatherNext(src: seq<byte>, l: Layout, n: int)
    requires WellFormed(l) && InBounds(l, |src|) && 0 <= n < Product(l.dims)
    ensures Positive(l.dims) && ValidIndex(Unrank(n, l.dims), l.dims) && Rank(Unrank(n, l.dims), l.dims) == n
    ensures 0 <= n * l.elem && n * l.elem + l.elem == (n + 1) * l.elem <= Product(l.dims) * l.elem
    ensures var at := Address(l, Unrank(n, l.dims));
            && 0 <= at && at + l.elem <= |src|
            && Gathered(src, l, n + 1) == Gathered(src, l, n) + src[at..at + l.elem]
  {
    ProductSign(l.dims);
    RankUnrank(n, l.dims);
    BlockFits(n, Product(l.dims), l.elem);
  }

  /** Copy the element at idx, the one of rank `flat`, behind the `flat` elements already copied. */
  method CopyNext(dst: array<byte>, src: array<byte>, l: Layout, idx: array<int>, flat: int)
    requires dst != src && WellFormed(l) && InBounds(l, src.Length) && Product(l.dims) * l.elem <= dst.Length
    requires 0 <= flat < Product(l.dims) && Positive(l.dims) && idx[..] == Unrank(flat, l.dims)
    requires 0 <= flat * l.elem <= dst.Length && dst[..flat * l.elem] == Gathered(src[..], l, flat)
    modifies dst
    ensures 0 <= (flat + 1) * l.elem <= dst.Length
    ensures dst[..(flat + 1) * l.elem] == Gathered(src[..], l, flat + 1)
  {
    GatherNext(src[..], l, flat);
    hide Gathered, Product, Unrank, Dot, WellFormed;
    var off := ElementOffset(idx, l.strides);
    CopyElement(dst, flat * l.elem, src, l.offset + off * l.elem, l.elem);
  }

  method CopyStrided(dst: array<byte>, src: array<byte>, l: Layout)
    requires dst != src && WellFormed(l) && InBounds(l, src.Length) && Product(l.dims) * l.elem <= dst.Length
    modifies dst
    ensures 0 <= Product(l.dims) * l.elem && 0 <= Product(l.dims)
    ensures dst[..Product(l.dims) * l.elem] == Gathered(src[..], l, Product(l.dims))
  {
    ghost var contents := src[..];
    var n := Numel(l.dims);
    var idx := new int[|l.dims|](_ => 0);
    ProductSign(l.dims);
    if n > 0 {
      StartIndex(idx[..], l.dims);
    }
    for flat := 0 to n
      invariant n > 0 ==> Positive(l.dims) && idx[..] == Unrank(if flat < n then flat else 0, l.dims)
      invariant 0 <= flat * l.elem <= dst.Length
      invariant dst[..flat * l.elem] == Gathered(contents, l, flat)
    {
      RankUnrank(flat, l.dims);
      CopyNext(dst, src, l, idx, flat);
      AdvanceIndex(idx, l.dims);
    }
  }

  method CopyElement(dst: array<byte>, to: int, src: array<byte>, from: int, elem: nat)
    requires dst != src && 0 <= to && to + elem <= dst.Length && 0 <= from && from + elem <= src.Length
    modifies dst
    ensures dst[..to + elem] == old(dst[..to]) + src[from..from + elem]
  {
    WriteElement(dst, to, src[from..from + elem]);
  }

  lemma GatheredElement(src: seq<byte>, l: Layout, idx: seq<int>)
    requires WellFormed(l) && InBounds(l, |src|) && ValidIndex(idx, l.dims) && 0 <= Product(l.dims)
    ensures var at := Address(Fresh(l.dims, l.elem), idx);
            0 <= at && at + l.elem <= Product(l.dims) * l.elem
            && Gathered(src, l, Product(l.dims))[at..at + l.elem] == ElementOf(src, l, idx)
  {
    RankBounds(idx, l.dims);
    UnrankRank(idx, l.dims);
    GatheredAt(src, l, Product(l.dims), Rank(idx, l.dims));
  }

  /** Fresh row-major storage holding the gathered elements denotes the same tensor. */
  lemma GatheredDenotes(dst: seq<byte>, src: seq<byte>, l: Layout, idx: seq<int>, nbytes: int)
    requires WellFormed(l) && InBounds(l, |src|) && ValidIndex(idx, l.dims)
    requires InBounds(Fresh(l.dims, l.elem), |dst|) && 0 <= Product(l.dims)
    requires nbytes == Product(l.dims) * l.elem && 0 <= nbytes <= |dst|
    requires dst[..nbytes] == Gathered(src, l, Product(l.dims))
    ensures ElementOf(dst, Fresh(l.dims, l.elem), idx) == ElementOf(src, l, idx)
  {
    var at := Address(Fresh(l.dims, l.elem), idx);
    hide Gathered, Address, InBounds;
    GatheredElement(src, l, idx);
    SubPrefix(dst, nbytes, at, at + l.elem);
  }

  lemma SubPrefix(a: seq<byte>, n: int, lo: int, hi: int)
    requires 0 <= lo <= hi <= n <= |a|
    ensures a[..n][lo..hi] == a[lo..hi]
  {
  }

  method Clone(t: MNTensor) returns (r: Result<MNTensor>)
    requires t.Valid()
    ensures r.Err? <==> t.buffer.mode == Private
    ensures r.Err? ==> r.error == InvalidArgument
    ensures r.Ok? ==> var c := r.value;
                      && fresh(c.buffer.bytes) && c.buffer.mode == Shared && c.dtype == t.dtype
                      && c.layout == Fresh(t.layout.dims, t.layout.elem)
                      && c.buffer.bytes.Length == AllocationSize(t.layout.dims, t.layout.elem)
                      && c.Valid() && Injective(c.layout)
                      && forall idx :: ValidIndex(idx, t.layout.dims) ==>
                           ElementOf(c.buffer.bytes[..], c.layout, idx) == ElementOf(t.buffer.bytes[..], t.layout, idx)
  {
    if t.buffer.mode == Private {
      return Err(InvalidArgument);
    }
    var l := t.layout;
    var n := Numel(l.dims);
    var nbytes := n * l.elem;
    ProductSign(l.dims);
    MulMono(0, n, l.elem);
    var buffer := new MNBuffer(if nbytes < 1 then 1 else nbytes, Shared);
    var contiguous := IsContiguous(l.dims, l.strides);
    if contiguous {
      if n > 0 {
        GatheredBlock(t.buffer.bytes[..], l, n);
        CopyElement(buffer.bytes, 0, t.buffer.bytes, l.offset, nbytes);
      }
    } else {
      CopyStrided(buffer.bytes, t.buffer.bytes, l);
    }
    var strides := ContiguousStrides(l.dims);
    FreshIsSafe(l.dims, l.elem);
    forall idx | ValidIndex(idx, l.dims)
      ensures ElementOf(buffer.bytes[..], Fresh(l.dims, l.elem), idx) == ElementOf(t.buffer.bytes[..], l, idx)
    {
      GatheredDenotes(buffer.bytes[..], t.buffer.bytes[..], l, idx, nbytes);
    }
    return Ok(MNTensor(buffer, Layout(l.dims, strides, l.elem, 0), t.dtype));
  }
}
