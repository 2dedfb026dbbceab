/**
 `parallel_memcpy` (bindings/bind_interop.cpp): a large copy cut into 4 MB chunks that a concurrent
 queue runs in any order, or interleaved. Memory is one byte array; source and destination are two
 ranges of it that do not overlap, as memcpy demands of its callers.
 */
module ParallelCopy {
  import opened Tensors

  const CHUNK_SIZE: nat := 4 * 1024 * 1024

  function Chunks(nbytes: nat): nat {
    (nbytes + CHUNK_SIZE - 1) / CHUNK_SIZE
  }

  function ChunkOffset(i: nat): nat {
    i * CHUNK_SIZE
  }

  function ChunkLength(nbytes: nat, i: nat): int {
    if CHUNK_SIZE < nbytes - ChunkOffset(i) then CHUNK_SIZE else nbytes - ChunkOffset(i)
  }

  predicate InChunk(nbytes: nat, i: nat, k: nat) {
    ChunkOffset(i) <= k < ChunkOffset(i) + ChunkLength(nbytes, i)
  }

  /** The chunks cover [0, nbytes) and nothing else, and no byte lies in two of them. */
  lemma ChunksPartition(nbytes: nat, i: nat, k: nat)
    ensures i < Chunks(nbytes) && InChunk(nbytes, i, k) <==> k < nbytes && i == k / 4_194_304
    ensures i < Chunks(nbytes) ==> ChunkLength(nbytes, i) > 0
  {}

  // ---------------------------------------------------------------- a single copy

  /** Copy `nbytes` bytes from `src` to `dst`. */
  datatype Job = Job(dst: nat, src: nat, nbytes: nat)

  predicate Apart(size: nat, job: Job) {
    && job.dst + job.nbytes <= size && job.src + job.nbytes <= size
    && (job.dst + job.nbytes <= job.src || job.src + job.nbytes <= job.dst)
  }

  function Part(job: Job, off: nat, len: nat): Job {
    Job(job.dst + off, job.src + off, len)
  }

  function Copied(mem: seq<byte>, job: Job): (r: seq<byte>)
    requires Apart(|mem|, job)
    ensures |r| == |mem|
    ensures forall p :: 0 <= p < |mem| ==>
              r[p] == if job.dst <= p < job.dst + job.nbytes then mem[job.src + (p - job.dst)] else mem[p]
  {
    mem[..job.dst] + mem[job.src..job.src + job.nbytes] + mem[job.dst + job.nbytes..]
  }

  method Memcpy(mem: array<byte>, job: Job)
    requires Apart(mem.Length, job)
    modifies mem
    ensures mem[..] == Copied(old(mem[..]), job)
  {
    for k := 0 to job.nbytes
      invariant forall p :: 0 <= p < mem.Length ==>
                  mem[p] == old(mem[if job.dst <= p < job.dst + k then job.src + (p - job.dst) else p])
    {
      mem[job.dst + k] := mem[job.src + k];
    }
  }

  // ---------------------------------------------------------------- part of a copy

  /** Location p holds the source byte if it is a destination byte already moved, its old byte otherwise. */
  predicate Holds(mem: seq<byte>, now: seq<byte>, job: Job, moved: set<nat>, p: nat)
    requires Apart(|mem|, job) && |now| == |mem| && p < |mem|
  {
    var k := p - job.dst;
    now[p] == if 0 <= k < job.nbytes && k in moved then mem[job.src + k] else mem[p]
  }

  /** The bytes `moved` of the job have been copied, and nothing else has changed. */
  ghost predicate PartlyCopied(mem: seq<byte>, now: seq<byte>, job: Job, moved: set<nat>)
    requires Apart(|mem|, job)
  {
    |now| == |mem| && forall p :: 0 <= p < |mem| ==> Holds(mem, now, job, moved, p)
  }

  function Range(off: nat, len: nat): (r: set<nat>)
    ensures |r| == len && forall k :: k in r <==> off <= k < off + len
  {
    if len == 0 then {} else Range(off, len - 1) + {off + len - 1}
  }

  lemma MoveMore(mem: seq<byte>, now: seq<byte>, job: Job, moved: set<nat>, off: nat, len: nat)
    requires Apart(|mem|, job) && PartlyCopied(mem, now, job, moved) && off + len <= job.nbytes
    ensures PartlyCopied(mem, Copied(now, Part(job, off, len)), job, moved + Range(off, len))
  {
    forall p | 0 <= p < |mem|
      ensures Holds(mem, Copied(now, Part(job, off, len)), job, moved + Range(off, len), p)
    {
      HoldsAfter(mem, now, job, moved, off, len, p);
    }
  }

  lemma HoldsAfter(mem: seq<byte>, now: seq<byte>, job: Job, moved: set<nat>, off: nat, len: nat, p: nat)
    requires Apart(|mem|, job) && PartlyCopied(mem, now, job, moved) && off + len <= job.nbytes && p < |mem|
    ensures Holds(mem, Copied(now, Part(job, off, len)), job, moved + Range(off, len), p)
  {
    hide Range;
    var part := Part(job, off, len);
    var after, k := Copied(now, part), p - job.dst;
    assert part.dst == job.dst + off && part.src == job.src + off && part.nbytes == len;
    assert after[p] == if part.dst <= p < part.dst + len then now[part.src + (p - part.dst)] else now[p];
    assert Holds(mem, now, job, moved, p);
    if off <= k < off + len {
      assert Holds(mem, now, job, moved, job.src + k);
      assert after[p] == now[job.src + k];
      assert k in moved + Range(off, len);
    } else {
      assert after[p] == now[p];
      assert k >= 0 ==> (k in moved + Range(off, len) <==> k in moved);
    }
  }

  lemma AllMoved(mem: seq<byte>, now: seq<byte>, job: Job, moved: set<nat>)
    requires Apart(|mem|, job) && PartlyCopied(mem, now, job, moved)
    requires forall k :: 0 <= k < job.nbytes ==> k in moved
    ensures now == Copied(mem, job)
  {
    forall p | 0 <= p < |mem|
      ensures now[p] == Copied(mem, job)[p]
    {
      assert Holds(mem, now, job, moved, p);
    }
  }

  // ---------------------------------------------------------------- chunk after chunk

  /** Every chunk exactly once. */
  ghost predicate Schedule(order: seq<nat>, nbytes: nat) {
    && |order| == Chunks(nbytes)
    && (forall j :: 0 <= j < |order| ==> order[j] < Chunks(nbytes))
    && (forall i, j :: 0 <= i < j < |order| ==> order[i] != order[j])
  }

  function Elements(order: seq<nat>): set<nat> {
    set i | i in order
  }

  lemma AllScheduled(order: seq<nat>, n: nat)
    requires forall j :: 0 <= j < |order| ==> order[j] < n
    requires forall i, j :: 0 <= i < j < |order| ==> order[i] != order[j]
    requires |order| == n
    ensures forall i :: 0 <= i < n ==> i in order
  {
    Distinct(order);
    assert Elements(order) <= Range(0, n);
    if Elements(order) != Range(0, n) {
      SmallerSubset(Elements(order), Range(0, n));
    }
    forall i | 0 <= i < n
      ensures i in order
    {
      assert i in Range(0, n);
    }
  }

  lemma {:induction false} Distinct(order: seq<nat>)
    requires forall i, j :: 0 <= i < j < |order| ==> order[i] != order[j]
    ensures |Elements(order)| == |order|
  {
    if order != [] {
      var init, last := order[..|order| - 1], order[|order| - 1];
      Distinct(init);
      assert Elements(order) == Elements(init) + {last};
    }
  }

  lemma {:induction false} SmallerSubset(a: set<nat>, b: set<nat>)
    requires a < b
    ensures |a| < |b|
  {
    var x :| x in b && x !in a;
    if a != {} {
      var y :| y in a;
      SmallerSubset(a - {y}, b - {y});
    }
  }

  /** The bytes of the chunks in `ran`. */
  function BytesOf(nbytes: nat, ran: set<nat>): set<nat> {
    set k | 0 <= k < nbytes && k / CHUNK_SIZE in ran
  }

  lemma OneMoreChunk(nbytes: nat, ran: set<nat>, i: nat)
    requires i < Chunks(nbytes)
    ensures ChunkLength(nbytes, i) > 0 && ChunkOffset(i) + ChunkLength(nbytes, i) <= nbytes
    ensures BytesOf(nbytes, ran + {i}) == BytesOf(nbytes, ran) + Range(ChunkOffset(i), ChunkLength(nbytes, i))
  {
    ChunksPartition(nbytes, i, ChunkOffset(i));
    forall k: nat
      ensures k in BytesOf(nbytes, ran + {i})
         <==> k in BytesOf(nbytes, ran) + Range(ChunkOffset(i), ChunkLength(nbytes, i))
    {
      ChunksPartition(nbytes, i, k);
    }
  }

  /** The block that the queue runs once per chunk. */
  method RunChunk(mem: array<byte>, job: Job, i: nat, ghost before: seq<byte>, ghost ran: set<nat>)
    requires |before| == mem.Length && Apart(mem.Length, job) && i < Chunks(job.nbytes)
    requires PartlyCopied(before, mem[..], job, BytesOf(job.nbytes, ran))
    modifies mem
    ensures PartlyCopied(before, mem[..], job, BytesOf(job.nbytes, ran + {i}))
  {
    hide PartlyCopied, Copied, BytesOf, Range;
    OneMoreChunk(job.nbytes, ran, i);
    var offset, len := ChunkOffset(i), ChunkLength(job.nbytes, i);
    MoveMore(before, mem[..], job, BytesOf(job.nbytes, ran), offset, len);
    Memcpy(mem, Part(job, offset, len));
  }

  /** Running every chunk once, in whatever order, is one copy of the whole range. */
  method ParallelMemcpy(mem: array<byte>, job: Job, order: seq<nat>)
    requires Apart(mem.Length, job) && Schedule(order, job.nbytes)
    modifies mem
    ensures mem[..] == Copied(old(mem[..]), job)
  {
    if job.nbytes <= CHUNK_SIZE {
      Memcpy(mem, job);
      return;
    }
    ghost var before := mem[..];
    for j := 0 to |order|
      invariant PartlyCopied(before, mem[..], job, BytesOf(job.nbytes, Elements(order[..j])))
    {
      RunChunk(mem, job, order[j], before, Elements(order[..j]));
      assert Elements(order[..j + 1]) == Elements(order[..j]) + {order[j]};
    }
    assert order[..|order|] == order;
    AllRan(before, mem[..], job, order);
  }

  lemma AllRan(mem: seq<byte>, now: seq<byte>, job: Job, order: seq<nat>)
    requires Apart(|mem|, job) && Schedule(order, job.nbytes)
    requires PartlyCopied(mem, now, job, BytesOf(job.nbytes, Elements(order)))
    ensures now == Copied(mem, job)
  {
    hide PartlyCopied, Copied;
    AllScheduled(order, Chunks(job.nbytes));
    forall k | 0 <= k < job.nbytes
      ensures k in BytesOf(job.nbytes, Elements(order))
    {
      ChunksPartition(job.nbytes, k / CHUNK_SIZE, k);
    }
    AllMoved(mem, now, job, BytesOf(job.nbytes, Elements(order)));
  }

  // ---------------------------------------------------------------- byte by byte, interleaved

  /** How many bytes each chunk has moved so far. */
  datatype State = State(mem: seq<byte>, moved: seq<nat>)

  ghost predicate Initial(job: Job, s: State) {
    && Apart(|s.mem|, job)
    && |s.moved| == Chunks(job.nbytes)
    && forall i :: 0 <= i < |s.moved| ==> s.moved[i] == 0
  }

  predicate Enabled(job: Job, s: State, i: nat) {
    i < |s.moved| && s.moved[i] < ChunkLength(job.nbytes, i)
  }

  /** Chunk i moves its next byte. */
  function Next(job: Job, s: State, i: nat): State
    requires Apart(|s.mem|, job) && Enabled(job, s, i)
  {
    var k := ChunkOffset(i) + s.moved[i];
    State(s.mem[job.dst + k := s.mem[job.src + k]], s.moved[i := s.moved[i] + 1])
  }

  ghost predicate Run(job: Job, s: State, steps: seq<nat>, t: State)
    decreases |steps|
  {
    if steps == [] then s == t
    else Apart(|s.mem|, job) && Enabled(job, s, steps[0]) && Run(job, Next(job, s, steps[0]), steps[1..], t)
  }

  function MovedBytes(nbytes: nat, moved: seq<nat>): set<nat> {
    set k | 0 <= k < nbytes && k / CHUNK_SIZE < |moved| && k % CHUNK_SIZE < moved[k / CHUNK_SIZE]
  }

  ghost predicate Inv(job: Job, start: seq<byte>, s: State) {
    && Apart(|start|, job)
    && |s.moved| == Chunks(job.nbytes)
    && (forall i :: 0 <= i < |s.moved| ==> s.moved[i] <= ChunkLength(job.nbytes, i))
    && PartlyCopied(start, s.mem, job, MovedBytes(job.nbytes, s.moved))
  }

  lemma OneMoreByte(nbytes: nat, moved: seq<nat>, i: nat)
    requires |moved| == Chunks(nbytes) && i < |moved| && moved[i] < ChunkLength(nbytes, i)
    ensures MovedBytes(nbytes, moved[i := moved[i] + 1])
         == MovedBytes(nbytes, moved) + Range(ChunkOffset(i) + moved[i], 1)
  {
    var at := ChunkOffset(i) + moved[i];
    ChunksPartition(nbytes, i, at);
    var after := moved[i := moved[i] + 1];
    forall k: nat
      ensures k in MovedBytes(nbytes, after) <==> k in MovedBytes(nbytes, moved) + Range(at, 1)
    {
      assert k == k / CHUNK_SIZE * CHUNK_SIZE + k % CHUNK_SIZE;
    }
  }

  lemma StepKeepsInv(job: Job, start: seq<byte>, s: State, i: nat)
    requires Inv(job, start, s) && Enabled(job, s, i)
    ensures Inv(job, start, Next(job, s, i))
  {
    hide MovedBytes, Range;
    var k := ChunkOffset(i) + s.moved[i];
    ChunksPartition(job.nbytes, i, k);
    OneMoreByte(job.nbytes, s.moved, i);
    MoveMore(start, s.mem, job, MovedBytes(job.nbytes, s.moved), k, 1);
    assert Copied(s.mem, Part(job, k, 1)) == Next(job, s, i).mem;
  }

  ghost predicate Finished(job: Job, s: State) {
    forall i :: 0 <= i < |s.moved| ==> !Enabled(job, s, i)
  }

  lemma FinishedIsCopied(job: Job, start: seq<byte>, s: State)
    requires Inv(job, start, s) && Finished(job, s)
    ensures s.mem == Copied(start, job)
  {
    hide PartlyCopied, Copied;
    forall k | 0 <= k < job.nbytes
      ensures k in MovedBytes(job.nbytes, s.moved)
    {
      var i := k / CHUNK_SIZE;
      ChunksPartition(job.nbytes, i, k);
      assert !Enabled(job, s, i);
    }
    AllMoved(start, s.mem, job, MovedBytes(job.nbytes, s.moved));
  }

  function Sum(s: seq<nat>): nat {
    if s == [] then 0 else s[0] + Sum(s[1..])
  }

  lemma {:induction false} SumUpdate(s: seq<nat>, i: nat)
    requires i < |s|
    ensures Sum(s[i := s[i] + 1]) == Sum(s) + 1
  {
    var t := s[i := s[i] + 1];
    if i == 0 {
      assert t[1..] == s[1..];
    } else {
      assert t[1..] == s[1..][i - 1 := s[1..][i - 1] + 1];
      SumUpdate(s[1..], i - 1);
    }
  }

  lemma {:induction false} RunKeepsInv(job: Job, start: seq<byte>, s: State, steps: seq<nat>, t: State)
    requires Inv(job, start, s) && Run(job, s, steps, t)
    ensures Inv(job, start, t)
    ensures Sum(t.moved) == Sum(s.moved) + |steps|
    decreases |steps|
  {
    if steps != [] {
      StepKeepsInv(job, start, s, steps[0]);
      SumUpdate(s.moved, steps[0]);
      RunKeepsInv(job, start, Next(job, s, steps[0]), steps[1..], t);
    }
  }

  /** Bytes from chunk i on. */
  function Rest(nbytes: nat, i: nat): int {
    if i < Chunks(nbytes) then nbytes - ChunkOffset(i) else 0
  }

  lemma RestNext(nbytes: nat, i: nat)
    requires i < Chunks(nbytes)
    ensures Rest(nbytes, i) == ChunkLength(nbytes, i) + Rest(nbytes, i + 1)
  {}

  /** The chunks can move no more bytes than there are, and all of them only together. */
  lemma {:induction false} SumBounded(nbytes: nat, moved: seq<nat>, i: nat)
    requires |moved| == Chunks(nbytes) && i <= |moved|
    requires forall j :: 0 <= j < |moved| ==> moved[j] <= ChunkLength(nbytes, j)
    ensures Sum(moved[i..]) <= Rest(nbytes, i)
    ensures Sum(moved[i..]) == Rest(nbytes, i)
       <==> forall j :: i <= j < |moved| ==> moved[j] == ChunkLength(nbytes, j)
    decreases |moved| - i
  {
    if i < |moved| {
      SumBounded(nbytes, moved, i + 1);
      RestNext(nbytes, i);
      assert moved[i..][1..] == moved[i + 1..];
    }
  }

  lemma {:induction false} SumZero(s: seq<nat>)
    requires forall i :: 0 <= i < |s| ==> s[i] == 0
    ensures Sum(s) == 0
  {
    if s != [] {
      SumZero(s[1..]);
    }
  }

  lemma FinishedIff(job: Job, start: seq<byte>, s: State)
    requires Inv(job, start, s)
    ensures Finished(job, s) <==> forall i :: 0 <= i < |s.moved| ==> s.moved[i] == ChunkLength(job.nbytes, i)
  {
    hide PartlyCopied;
    forall i | 0 <= i < |s.moved|
      ensures Enabled(job, s, i) <==> s.moved[i] < ChunkLength(job.nbytes, i)
    {
      if s.moved[i] < ChunkLength(job.nbytes, i) {
        ChunksPartition(job.nbytes, i, ChunkOffset(i) + s.moved[i]);
      }
    }
  }

  /**
   However the chunks interleave, a run moves at most nbytes bytes; when no chunk can go on, it has
   moved exactly nbytes and memory is what a single copy would have left.
   */
  lemma InterleavingIsOneCopy(job: Job, s: State, steps: seq<nat>, t: State)
    requires Initial(job, s) && Run(job, s, steps, t)
    ensures Finished(job, t) <==> |steps| == job.nbytes
    ensures |steps| <= job.nbytes
    ensures Finished(job, t) ==> t.mem == Copied(s.mem, job)
  {
    hide PartlyCopied, Copied, Run, Finished;
    StartsWithinInv(job, s);
    RunKeepsInv(job, s.mem, s, steps, t);
    SumZero(s.moved);
    assert t.moved[0..] == t.moved;
    SumBounded(job.nbytes, t.moved, 0);
    FinishedIff(job, s.mem, t);
    assert Rest(job.nbytes, 0) == job.nbytes;
    if Finished(job, t) {
      FinishedIsCopied(job, s.mem, t);
    }
  }

  lemma StartsWithinInv(job: Job, s: State)
    requires Initial(job, s)
    ensures Inv(job, s.mem, s)
  {
    forall i | 0 <= i < |s.moved|
      ensures ChunkLength(job.nbytes, i) > 0
    {
      ChunksPartition(job.nbytes, i, 0);
    }
  }
}
