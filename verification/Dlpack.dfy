/** DLPack export and import (src/interop/dlpack.cpp) over one flat address space. */
module Dlpack {
  import opened Wrappers
  import opened Shapes
  import opened Layouts
  import opened Tensors

  // ---------------------------------------------------------------- data types

  const DL_INT := 0
  const DL_UINT := 1
  const DL_FLOAT := 2
  const DL_BFLOAT := 4

  datatype DLDataType = DLDataType(code: int, bits: int, lanes: int)

  function ToDLDataType(t: DType): DLDataType {
    match t
    case Float32 => DLDataType(DL_FLOAT, 32, 1)
    case Float16 => DLDataType(DL_FLOAT, 16, 1)
    case BFloat16 => DLDataType(DL_BFLOAT, 16, 1)
    case Int64 => DLDataType(DL_INT, 64, 1)
    case Int32 => DLDataType(DL_INT, 32, 1)
    case Int16 => DLDataType(DL_INT, 16, 1)
    case Int8 => DLDataType(DL_INT, 8, 1)
    case UInt8 => DLDataType(DL_UINT, 8, 1)
    case Bool => DLDataType(DL_UINT, 8, 1)
  }

  function FromDLDataType(d: DLDataType): Result<DType> {
    if d.lanes != 1 then Err(InvalidArgument)
    else if d.code == DL_FLOAT && d.bits == 32 then Ok(Float32)
    else if d.code == DL_FLOAT && d.bits == 16 then Ok(Float16)
    else if d.code == DL_BFLOAT && d.bits == 16 then Ok(BFloat16)
    else if d.code == DL_INT && d.bits == 64 then Ok(Int64)
    else if d.code == DL_INT && d.bits == 32 then Ok(Int32)
    else if d.code == DL_INT && d.bits == 16 then Ok(Int16)
    else if d.code == DL_INT && d.bits == 8 then Ok(Int8)
    else if d.code == DL_UINT && d.bits == 8 then Ok(UInt8)
    else Err(InvalidArgument)
  }

  /** The maps invert each other except that Bool is exported as an 8-bit unsigned integer. */
  lemma DTypeRoundTrip(t: DType, d: DLDataType)
    ensures FromDLDataType(ToDLDataType(t)) == Ok(if t == Bool then UInt8 else t)
    ensures FromDLDataType(d).Ok? ==> ToDLDataType(FromDLDataType(d).value) == d
    ensures FromDLDataType(d).Ok? <==> exists s :: ToDLDataType(s) == d
    ensures ToDLDataType(t).bits == 8 * DTypeSize(t)
  {
    if FromDLDataType(d).Ok? {
      assert ToDLDataType(FromDLDataType(d).value) == d;
    }
  }

  // ---------------------------------------------------------------- descriptors

  const DL_CPU := 1
  const DL_CUDA_HOST := 3
  const DL_METAL := 8
  const PAGE := 16384

  /** A tensor whose buffer starts at address `base`. */
  datatype Placed = Placed(base: nat, layout: Layout, dtype: DType)

  function ElementAddress(t: Placed, idx: seq<int>): int
    requires |idx| == |t.layout.strides|
  {
    t.base + Address(t.layout, idx)
  }

  /** The fields of a DLTensor; a null stride pointer is None. */
  datatype DLTensor = DLTensor(
    data: int, deviceType: int, dtype: DLDataType, shape: seq<int>, strides: Option<seq<int>>, byteOffset: int)

  class DLManagedTensor {
    var data: int
    var deviceType: int
    var dtype: DLDataType
    var shape: array<int>
    var strides: array?<int>
    var byteOffset: int

    constructor (data: int, deviceType: int, dtype: DLDataType, shape: array<int>, strides: array?<int>, byteOffset: int)
      ensures this.data == data && this.deviceType == deviceType && this.dtype == dtype
      ensures this.shape == shape && this.strides == strides && this.byteOffset == byteOffset
    {
      this.data, this.deviceType, this.dtype := data, deviceType, dtype;
      this.shape, this.strides, this.byteOffset := shape, strides, byteOffset;
    }

    function View(): DLTensor
      reads this, shape, strides
    {
      DLTensor(data, deviceType, dtype, shape[..], if strides == null then None else Some(strides[..]), byteOffset)
    }
  }

  /** The exported data pointer already includes the tensor's offset, which is also sent as byte_offset. */
  function Exported(t: Placed): DLTensor {
    DLTensor(t.base + t.layout.offset, DL_METAL, ToDLDataType(t.dtype), t.layout.dims, Some(t.layout.strides), t.layout.offset)
  }

  /** An importer reads as many strides as there are dimensions. */
  predicate Readable(dl: DLTensor) {
    dl.strides.Some? ==> |dl.shape| <= |dl.strides.value|
  }

  function StridesOf(dl: DLTensor): (r: seq<int>)
    requires Readable(dl)
    ensures |r| == |dl.shape|
  {
    match dl.strides
    case Some(s) => s[..|dl.shape|]
    case None => RowMajor(dl.shape)
  }

  /** Wrapping external memory aligns the pointer down to a page and reports the remainder. */
  function WrappedAt(dl: DLTensor, dtype: DType): Placed
    requires Readable(dl) && 0 <= dl.data + dl.byteOffset
  {
    var p := dl.data + dl.byteOffset;
    Placed(p - p % PAGE, Layout(dl.shape, StridesOf(dl), DTypeSize(dtype), p % PAGE), dtype)
  }

  method CopyOut(s: seq<int>) returns (a: array<int>)
    ensures fresh(a) && a[..] == s
  {
    a := new int[|s|];
    for i := 0 to |s|
      invariant a[..i] == s[..i]
    {
      a[i] := s[i];
    }
  }

  method ToDlpack(t: Placed) returns (r: Result<DLManagedTensor>)
    ensures r.Ok? <==> Contiguous(t.layout.dims, t.layout.strides)
    ensures r.Err? ==> r.error == InvalidArgument
    ensures r.Ok? ==> fresh(r.value) && fresh(r.value.shape) && r.value.strides != null && fresh(r.value.strides)
    ensures r.Ok? ==> r.value.View() == Exported(t)
  {
    var contiguous := IsContiguous(t.layout.dims, t.layout.strides);
    if !contiguous {
      return Err(InvalidArgument);
    }
    var shape := CopyOut(t.layout.dims);
    var strides := CopyOut(t.layout.strides);
    var m := new DLManagedTensor(
      t.base + t.layout.offset, DL_METAL, ToDLDataType(t.dtype), shape, strides, t.layout.offset);
    return Ok(m);
  }

  /** The loop that stands in for a null stride pointer. */
  method DefaultStrides(shape: array<int>) returns (r: seq<int>)
    ensures r == RowMajor(shape[..])
  {
    var dims := shape[..];
    var strides := new int[|dims|];
    var stride := 1;
    var i := |dims| - 1;
    while i >= 0
      invariant -1 <= i < |dims|
      invariant stride == Product(dims[i + 1..])
      invariant forall k :: i < k < |dims| ==> strides[k] == Product(dims[k + 1..])
    {
      strides[i] := stride;
      assert dims[i..][1..] == dims[i + 1..];
      stride := stride * dims[i];
      i := i - 1;
    }
    r := strides[..];
    forall k | 0 <= k < |dims|
      ensures r[k] == RowMajor(dims)[k]
    {
      RowMajorAt(dims, k);
    }
  }

  datatype Imported = Wrapped(tensor: Placed, size: int) | Copied(copy: MNTensor)

  /** Where the copy of host memory starts. */
  function HostStart(dl: DLTensor): int {
    dl.data + dl.byteOffset
  }

  predicate IsHost(dl: DLTensor) {
    dl.deviceType == DL_CPU || dl.deviceType == DL_CUDA_HOST
  }

  method TotalBytes(dims: seq<int>, elem: nat) returns (total: int)
    ensures total == Product(dims) * elem
  {
    total := elem;
    for i := 0 to |dims|
      invariant total * Product(dims[i..]) == elem * Product(dims)
    {
      assert dims[i..][1..] == dims[i + 1..];
      MulAssoc(total, dims[i], Product(dims[i + 1..]));
      total := total * dims[i];
    }
  }

  /** The host path: a fresh tensor with one flat copy of its bytes. */
  method CopyFromHost(dims: seq<int>, dtype: DType, host: array<byte>, from: int) returns (r: Result<MNTensor>)
    requires NonNegative(dims) && 0 <= from && from + Product(dims) * DTypeSize(dtype) <= host.Length
    ensures var nbytes := Product(dims) * DTypeSize(dtype);
            if nbytes > SIZE_MAX then r == Err(OutOfMemory)
            else
              && r.Ok? && r.value.dtype == dtype && r.value.layout == Fresh(dims, DTypeSize(dtype))
              && fresh(r.value.buffer.bytes) && r.value.Valid()
              && 0 <= nbytes <= r.value.buffer.bytes.Length
              && r.value.buffer.bytes[..nbytes] == host[from..from + nbytes]
  {
    r := Empty(dims, dtype, Shared);
    if r.Err? {
      return;
    }
    var n := Numel(dims);
    var nbytes := n * DTypeSize(dtype);
    ProductSign(dims);
    MulMono(0, n, DTypeSize(dtype));
    CopyElement(r.value.buffer.bytes, 0, host, from, nbytes);
  }

  /** `host` is the CPU memory that a host descriptor points into. */
  method FromDlpack(m: DLManagedTensor?, host: array<byte>) returns (r: Result<Imported>)
    requires m != null ==> Readable(m.View()) && 0 <= HostStart(m.View())
    requires m != null && IsHost(m.View()) && FromDLDataType(m.dtype).Ok? ==>
               NonNegative(m.shape[..]) &&
               HostStart(m.View()) + Product(m.shape[..]) * DTypeSize(FromDLDataType(m.dtype).value) <= host.Length
    ensures m == null ==> r == Err(InvalidArgument)
    ensures m != null ==>
              var dl := m.View();
              match FromDLDataType(dl.dtype)
              case Err(_) => r == Err(InvalidArgument)
              case Ok(dtype) =>
                var nbytes := Product(dl.shape) * DTypeSize(dtype);
                if dl.deviceType == DL_METAL then r == Ok(Wrapped(WrappedAt(dl, dtype), nbytes))
                else if !IsHost(dl) then r == Err(InvalidArgument)
                else if nbytes > SIZE_MAX then r == Err(OutOfMemory)
                else
                  && r.Ok? && r.value.Copied?
                  && r.value.copy.dtype == dtype && r.value.copy.layout == Fresh(dl.shape, DTypeSize(dtype))
                  && fresh(r.value.copy.buffer.bytes) && r.value.copy.Valid()
                  && 0 <= nbytes <= r.value.copy.buffer.bytes.Length
                  && r.value.copy.buffer.bytes[..nbytes] == host[HostStart(dl)..HostStart(dl) + nbytes]
  {
    if m == null {
      return Err(InvalidArgument);
    }
    var dt := FromDLDataType(m.dtype);
    if dt.Err? {
      return Err(InvalidArgument);
    }
    var dtype := dt.value;
    var dims := m.shape[..];
    var strides;
    if m.strides != null {
      strides := m.strides[..|dims|];
    } else {
      strides := DefaultStrides(m.shape);
    }
    if m.deviceType == DL_METAL {
      var p := m.data + m.byteOffset;
      var total := TotalBytes(dims, DTypeSize(dtype));
      return Ok(Wrapped(Placed(p - p % PAGE, Layout(dims, strides, DTypeSize(dtype), p % PAGE), dtype), total));
    } else if m.deviceType == DL_CPU || m.deviceType == DL_CUDA_HOST {
      var copy := CopyFromHost(dims, dtype, host, m.data + m.byteOffset);
      if copy.Err? {
        return Err(copy.error);
      }
      return Ok(Copied(copy.value));
    } else {
      return Err(InvalidArgument);
    }
  }

  // ---------------------------------------------------------------- round trip

  /**
   Exporting a contiguous tensor and importing it back keeps shape, strides and, but for Bool, the
   dtype; every element is found exactly `offset` bytes further on, inside the wrapped region
   shifted by the same amount.
   */
  lemma RoundTrip(t: Placed, dtype: DType, idx: seq<int>)
    requires WellFormed(t.layout) && t.layout.elem == DTypeSize(t.dtype)
    requires Contiguous(t.layout.dims, t.layout.strides)
    requires FromDLDataType(Exported(t).dtype) == Ok(dtype) && ValidIndex(idx, t.layout.dims)
    ensures var back := WrappedAt(Exported(t), dtype);
            && dtype == (if t.dtype == Bool then UInt8 else t.dtype)
            && back.dtype == dtype && back.base % PAGE == 0 && 0 <= back.layout.offset < PAGE
            && back.layout == t.layout.(offset := back.layout.offset)
            && ElementAddress(back, idx) == ElementAddress(t, idx) + t.layout.offset
            && HostStart(Exported(t)) <= ElementAddress(back, idx)
            && ElementAddress(back, idx) + back.layout.elem
                 <= HostStart(Exported(t)) + Product(t.layout.dims) * back.layout.elem
  {
    var back := WrappedAt(Exported(t), dtype);
    var p := HostStart(Exported(t));
    assert (p - p % PAGE) % PAGE == 0;
    ContiguousAddress(t.layout, idx);
    RankBounds(idx, t.layout.dims);
    BlockFits(Rank(idx, t.layout.dims), Product(t.layout.dims), t.layout.elem);
  }

  /** The imported tensor denotes the same elements exactly when the exported view starts its buffer or is empty. */
  lemma SameElementsIffNoOffset(t: Placed)
    requires WellFormed(t.layout) && t.layout.elem == DTypeSize(t.dtype)
    requires Contiguous(t.layout.dims, t.layout.strides)
    ensures var dtype := FromDLDataType(Exported(t).dtype).value;
            (forall idx :: ValidIndex(idx, t.layout.dims) ==>
               ElementAddress(WrappedAt(Exported(t), dtype), idx) == ElementAddress(t, idx))
            <==> t.layout.offset == 0 || Product(t.layout.dims) == 0
  {
    var dtype := FromDLDataType(Exported(t).dtype).value;
    forall idx | ValidIndex(idx, t.layout.dims)
      ensures ElementAddress(WrappedAt(Exported(t), dtype), idx) == ElementAddress(t, idx) + t.layout.offset
    {
      RoundTrip(t, dtype, idx);
    }
    ProductSign(t.layout.dims);
    if Product(t.layout.dims) > 0 {
      RankUnrank(0, t.layout.dims);
      assert ValidIndex(Unrank(0, t.layout.dims), t.layout.dims);
    } else {
      NoIndex(t.layout.dims);
    }
  }

  /**
   A host import copies one flat block, so the element at every index is the one the descriptor
   places there exactly when the descriptor's strides are contiguous or there are no elements.
   */
  lemma HostImportFaithful(dl: DLTensor, dtype: DType)
    requires Readable(dl)
    ensures (forall idx :: ValidIndex(idx, dl.shape) ==>
               HostStart(dl) + Address(Fresh(dl.shape, DTypeSize(dtype)), idx)
               == Address(Layout(dl.shape, StridesOf(dl), DTypeSize(dtype), HostStart(dl)), idx))
            <==> Contiguous(dl.shape, StridesOf(dl)) || !Positive(dl.shape)
  {
    ContiguousIffOffsetIsRank(dl.shape, StridesOf(dl));
    forall idx | ValidIndex(idx, dl.shape)
      ensures HostStart(dl) + Address(Fresh(dl.shape, DTypeSize(dtype)), idx)
              == Address(Layout(dl.shape, StridesOf(dl), DTypeSize(dtype), HostStart(dl)), idx)
              <==> Dot(idx, StridesOf(dl)) == Rank(idx, dl.shape)
    {
      if Rank(idx, dl.shape) * DTypeSize(dtype) == Dot(idx, StridesOf(dl)) * DTypeSize(dtype) {
        MulCancel(Rank(idx, dl.shape), Dot(idx, StridesOf(dl)), DTypeSize(dtype));
      }
    }
  }

  /** The numbers that the DLPack header assigns, and the page that wrapped memory is aligned to. */
  lemma StandardCodes()
    ensures ToDLDataType(Int32) == DLDataType(0, 32, 1) && ToDLDataType(UInt8) == DLDataType(1, 8, 1)
    ensures ToDLDataType(Float32) == DLDataType(2, 32, 1) && ToDLDataType(BFloat16) == DLDataType(4, 16, 1)
    ensures DL_CPU == 1 && DL_CUDA_HOST == 3 && DL_METAL == 8 && PAGE == 16 * 1024
  {
  }

  /** A wrapped descriptor denotes, at each index, its strided offset; null strides are row-major. */
  lemma WrappedElements(dl: DLTensor, dtype: DType, idx: seq<int>)
    requires Readable(dl) && 0 <= dl.data + dl.byteOffset && ValidIndex(idx, dl.shape)
    ensures var steps := match dl.strides
                         case None => Rank(idx, dl.shape)
                         case Some(strides) => Dot(idx, strides[..|dl.shape|]);
            ElementAddress(WrappedAt(dl, dtype), idx) == dl.data + dl.byteOffset + steps * DTypeSize(dtype)
  {
  }

  /** The round trip through both calls: the Metal path, with the first element `offset` bytes further on. */
  method Reimport(t: Placed, host: array<byte>) returns (r: Result<Imported>)
    requires WellFormed(t.layout) && t.layout.elem == DTypeSize(t.dtype)
    ensures r.Ok? <==> Contiguous(t.layout.dims, t.layout.strides)
    ensures r.Ok? ==>
              && r.value.Wrapped?
              && var back := r.value.tensor;
              && back.layout.dims == t.layout.dims && back.layout.strides == t.layout.strides
              && back.layout.elem == t.layout.elem && back.dtype == (if t.dtype == Bool then UInt8 else t.dtype)
              && back.base % PAGE == 0 && 0 <= back.layout.offset < PAGE
              && back.base + back.layout.offset == t.base + 2 * t.layout.offset
              && r.value.size == Product(t.layout.dims) * t.layout.elem
  {
    var m := ToDlpack(t);
    if m.Err? {
      return Err(m.error);
    }
    r := FromDlpack(m.value, host);
  }

  // ---------------------------------------------------------------- staying inside the memory

  /** The last multi-index of a shape. */
  function Last(dims: seq<int>): seq<int> {
    seq(|dims|, k requires 0 <= k < |dims| => dims[k] - 1)
  }

  lemma {:induction false} DotLast(idx: seq<int>, dims: seq<int>, strides: seq<int>)
    requires ValidIndex(idx, dims) && |strides| == |dims| && NonNegative(strides)
    ensures 0 <= Dot(idx, strides) <= Dot(Last(dims), strides)
  {
    if dims != [] {
      assert Last(dims)[1..] == Last(dims[1..]);
      DotLast(idx[1..], dims[1..], strides[1..]);
      MulMono(0, idx[0], strides[0]);
      MulMono(idx[0], dims[0] - 1, strides[0]);
    }
  }

  /** All the elements of t lie in [from, to). */
  ghost predicate Inside(t: Placed, from: int, to: int)
    requires |t.layout.strides| == |t.layout.dims|
  {
    forall idx :: ValidIndex(idx, t.layout.dims) ==>
      from <= ElementAddress(t, idx) && ElementAddress(t, idx) + t.layout.elem <= to
  }

  lemma InsideIffLast(t: Placed, from: int, to: int)
    requires WellFormed(t.layout) && Positive(t.layout.dims) && from <= t.base + t.layout.offset
    ensures Inside(t, from, to) <==> ElementAddress(t, Last(t.layout.dims)) + t.layout.elem <= to
  {
    var last := Last(t.layout.dims);
    assert ValidIndex(last, t.layout.dims);
    DotLast(last, t.layout.dims, t.layout.strides);
    forall idx | ValidIndex(idx, t.layout.dims)
      ensures t.base + t.layout.offset <= ElementAddress(t, idx) <= ElementAddress(t, last)
    {
      DotLast(idx, t.layout.dims, t.layout.strides);
      MulMono(0, Dot(idx, t.layout.strides), t.layout.elem);
      MulMono(Dot(idx, t.layout.strides), Dot(last, t.layout.strides), t.layout.elem);
    }
  }

  lemma ScaledLess(a: int, n: int, e: nat)
    requires 0 < e
    ensures a * e + e <= n * e <==> a < n
  {
    assert (a + 1) * e == a * e + e;
    if a < n {
      MulMono(a + 1, n, e);
    } else {
      MulMono(n, a, e);
    }
  }

  /**
   A Metal import wraps numel elements' worth of bytes whatever the strides, so with non-negative
   strides it stays inside exactly when it is empty or its last element has an offset below numel.
   */
  lemma WrapStaysInsideIff(dl: DLTensor, dtype: DType)
    requires Readable(dl) && 0 <= HostStart(dl) && NonNegative(dl.shape) && NonNegative(StridesOf(dl))
    ensures Inside(WrappedAt(dl, dtype), HostStart(dl), HostStart(dl) + Product(dl.shape) * DTypeSize(dtype))
       <==> !Positive(dl.shape) || Dot(Last(dl.shape), StridesOf(dl)) < Product(dl.shape)
  {
    var t := WrappedAt(dl, dtype);
    var from, to := HostStart(dl), HostStart(dl) + Product(dl.shape) * DTypeSize(dtype);
    if Positive(dl.shape) {
      InsideIffLast(t, from, to);
      ScaledLess(Dot(Last(dl.shape), StridesOf(dl)), Product(dl.shape), DTypeSize(dtype));
    } else {
      NoIndex(dl.shape);
    }
  }

  /** Shape [2] with strides [5] of float32: element [1] starts at byte 20 of an 8-byte region. */
  lemma WrapMayLeaveRegion(base: nat)
    ensures var dl := DLTensor(base, DL_METAL, ToDLDataType(Float32), [2], Some([5]), 0);
            !Inside(WrappedAt(dl, Float32), HostStart(dl), HostStart(dl) + 8)
  {
    var dl := DLTensor(base, DL_METAL, ToDLDataType(Float32), [2], Some([5]), 0);
    assert Dot([1], [5]) == 5 + Dot([], []);
    assert ValidIndex([1], [2]);
    assert StridesOf(dl) == [5];
    assert ElementAddress(WrappedAt(dl, Float32), [1]) == base + 20;
  }

  /**
   Importing an export again stays inside the original allocation exactly when the tensor is empty or
   its offset fits behind it a second time.
   */
  lemma ReimportStaysInsideIff(t: Placed, size: int)
    requires WellFormed(t.layout) && t.layout.elem == DTypeSize(t.dtype) && Contiguous(t.layout.dims, t.layout.strides)
    ensures var back := WrappedAt(Exported(t), FromDLDataType(Exported(t).dtype).value);
            Inside(back, t.base, t.base + size) <==>
              Product(t.layout.dims) == 0 || 2 * t.layout.offset + Product(t.layout.dims) * t.layout.elem <= size
  {
    var back := WrappedAt(Exported(t), FromDLDataType(Exported(t).dtype).value);
    ProductSign(t.layout.dims);
    assert back.layout.strides == t.layout.strides;
    if Positive(t.layout.dims) {
      var last := Last(t.layout.dims);
      assert ValidIndex(last, t.layout.dims);
      InsideIffLast(back, t.base, t.base + size);
      MaxRank(last, t.layout.dims);
      ContiguousOffsetIsRank(t.layout.dims, t.layout.strides, last);
      BlockFits(Product(t.layout.dims) - 1, Product(t.layout.dims), t.layout.elem);
    } else {
      NoIndex(t.layout.dims);
    }
  }
}
