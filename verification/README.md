# Verified model of metal_native's host-side core

This project models the parts of metal_native that run on the CPU around its Metal kernels, and
proves what they promise. `dafny verify dfyconfig.toml` checks all of it.

* **Tensor views** (`Shapes`, `Broadcast`, `Layouts`, `Reshape`, `Tensors`). A view is a shape,
  strides, an element size and a byte offset over a shared byte buffer. The multi-index "odometer"
  of `fill_` and `clone` is shown to spell the row-major rank at every iteration; `fill_` and
  `clone` are array methods proved against functions of the old buffer; and every chain of
  `reshape`, `slice` and `clone` stays inside its allocation without two indices sharing an element.
* **DLPack** (`Dlpack`). Export and import over one address space, with the exact displacement of a
  round trip.
* **Dispatch** (`Worker`, `WorkerHistory`, `Backpressure`). Every mutex region, atomic access, notification and
  wakeup is one step of a transition system; threads interleave freely and waits may end
  spuriously. Safety is an invariant of every run; what finally happens follows from a work measure
  that every step under way decreases; and every part of the state is shown to be what the history of
  actions alone says it is.
* **Optimizers** (`Weighted`, `AdamMath`, `Adam`, `AdamRuns`, `AdamLists`, `AdamSteps`, `Sgd`, with
  `Params`). Whole training runs over
  real numbers, one coordinate per parameter, with arbitrary gradients, skipped parameters and
  parameter values between steps.
* **Numeric and copying helpers** (`Bf16`, `ParallelCopy`, `Iqr`). Bit-level bfloat16 conversion,
  the chunked parallel copy, and the IQR outlier filter of the benchmark runner.

Where state is updated in place the model is a class or an array method whose postcondition gives
the whole new state as a function of the old one; the laws are then lemmas about that function.

The code and its documentation differ in places. The model follows the code:

* `drain` waits for an empty queue, not for finished tasks (src/dispatch/worker_thread.cpp:137
  against worker_thread.h:56-57). `Worker.DrainDeliversIff`: it keeps its promise in every
  continuation exactly when nothing was unfinished at the call; `Worker.DrainMayReturnEarly` gives a
  run where it does not, and `Worker.DrainReturns` what holds whenever it returns.
* `submit` tests `running` outside the mutex, so one that races with `stop` can enqueue behind the
  exited worker (`Worker.RacingSubmitIsStranded`); the task runs after the next `start`.
  `Worker.StopDeliversIff`: with no new callers, `stop` leaves nothing behind exactly when no submit
  was between its check and its push at the call.
* `slice` treats `end == -1` as "all but the last", not as the full extent (tensor.cpp:160-164
  against tensor.h:119): for every start, `Layouts.SliceEndMinusOne` says when the two agree.
* `to_dlpack` sends the offset twice, inside the data pointer and as `byte_offset`, so an import is
  displaced by `offset` bytes: `Dlpack.RoundTrip`, `Dlpack.SameElementsIffNoOffset`. It leaves the
  original allocation unless the offset fits in twice: `Dlpack.ReimportStaysInsideIff`.
* `is_contiguous` may refuse a shape with a zero dimension although no element is misplaced
  (`Shapes.EmptyShapeMayBeRefused`); `Shapes.AcceptanceIsExactIff` says for which shapes and strides
  its answer is exact.
* `reshape` refuses two or more -1 entries even where only one resolution exists
  (`Reshape.RefusedThoughUnique`); `Reshape.AcceptsExactly` says for which requests acceptance and
  unique resolvability agree.
* Adam's corrected first moment stays within the gradients seen, in every run, exactly when the
  parameter is listed at most once or `beta1 == 0`, and the corrected second moment within their
  squares exactly when it is listed at most once or `beta2 == 0` (`AdamLists.FirstMomentBoundedIff`,
  `AdamLists.SecondMomentBoundedIff`).
* A bound on `m^2 / v` independent of the gradients exists exactly for `beta1 == 0` or
  `beta1^2 < beta2` (`AdamMath.RatioBoundedIff`); on `m^2 / v_max` it exists for all betas
  (`AdamMath.AmsgradRatio`). Hence a bound on the steps themselves exists exactly in these cases, or
  for `lr == 0` (`AdamSteps.StepBoundedIff`).
* `float_to_bf16` maps some NaN patterns to infinity or zero (`Bf16.NaNSurvivesIff`).

## Model

| member | source | states |
|---|---|---|
| Shapes.Numel | src/core/shape.cpp:25-31 | the accumulated product of all dimensions, 1 for a scalar |
| Shapes.ContiguousStrides | src/core/shape.cpp:55-66 | the backward loop yields, in each dimension, the product of the dimensions after it |
| Shapes.IsContiguous | src/core/shape.cpp:106-125 | true iff every stride of a dimension other than 1 is the row-major one |
| Shapes.ContiguousIffOffsetIsRank | src/core/shape.cpp:106-125 | every valid multi-index has its row-major rank as strided offset iff the strides are accepted or the shape has no elements |
| Shapes.AcceptanceIsExactIff | src/core/shape.cpp:106-125 | acceptance coincides with "no element is misplaced" iff there is no zero dimension or every stride of a dimension other than 1 is the row-major one |
| Shapes.EmptyShapeMayBeRefused | src/core/shape.cpp:113-124 | a shape without elements whose strides are refused although no offset can differ |
| Shapes.RankBounds | src/core/shape.cpp:55-66 | row-major strides send valid multi-indices into [0, numel) |
| Shapes.UnrankRank | src/core/shape.cpp:55-66 | every multi-index is recovered from its rank, so row-major addressing is injective |
| Shapes.RankUnrank | src/core/shape.cpp:55-66 | every number in [0, numel) is the rank of a valid multi-index, so row-major addressing is onto |
| Shapes.RankIsLexicographic | src/core/shape.cpp:55-66 | ranks are ordered as the multi-indices are lexicographically |
| Shapes.CarryRank | src/core/tensor.cpp:222-227 | bumping one digit and clearing the saturated digits after it raises the rank by exactly one |
| Shapes.AdvanceIndex | src/core/tensor.cpp:222-227 | the in-place carry loop turns the multi-index of rank r into that of rank r + 1, wrapping to zero after the last |
| Broadcast.BroadcastWith | src/core/shape.cpp:72-100 | the loop returns the joined shape, or InvalidArgument exactly when some aligned pair of dimensions is incompatible |
| Broadcast.BroadcastIsLeastUpperBound | src/core/shape.cpp:72-100 | the result is the least shape both operands broadcast to; it fails iff there is none |
| Broadcast.BroadcastsToIsPartialOrder | src/core/shape.cpp:72-100 | "broadcasts to" is a partial order with the scalar shape as least element |
| Broadcast.BroadcastCommutes | src/core/shape.cpp:72-100 | operand order does not matter, for results and failures |
| Broadcast.BroadcastIdempotentWithUnit | src/core/shape.cpp:72-100 | a shape broadcasts with itself and with the scalar shape to itself |
| Broadcast.BroadcastAssociates | src/core/shape.cpp:72-100 | both bracketings of three shapes give the same result, and one fails iff the other does |
| Broadcast.BroadcastFromTheRight | src/core/shape.cpp:76-97 | alignment at the right: the last dimensions join by themselves, and the rest broadcasts by itself |
| Layouts.FreshIsSafe | src/core/tensor.cpp:38-62 | row-major strides pass the contiguity test, and a fresh tensor addresses only its allocation, injectively |
| Layouts.AllocationIsTight | src/core/tensor.cpp:52-54 | the allocated size is the smallest non-empty one that holds every element |
| Layouts.SliceKeeps | src/core/tensor.cpp:155-164 | after all clamping, position j survives iff it lies in the requested half-open range with negatives counted from the end |
| Layouts.SliceClamps | src/core/tensor.cpp:155-164 | start and end are moved to the nearest existing position, the end never before the start |
| Layouts.SliceAcceptsIff | src/core/tensor.cpp:146-151 | a dimension is accepted iff it lies in [-rank, rank), a negative one meaning the same as counted from the end |
| Layouts.SliceEndMinusOne | src/core/tensor.cpp:155-164 | for every start, end == -1 reaches the full extent iff the dimension is empty or start lies at or past its end; otherwise it stops one short |
| Layouts.SliceDenotes | src/core/tensor.cpp:145-178 | the slice's indices are exactly the parent's indices inside the range, shifted to zero, each at the parent's address |
| Layouts.SliceIsSafe | src/core/tensor.cpp:145-178 | a slice of an in-bounds injective view is in bounds and injective |
| Reshape.ResolveDims | src/core/tensor.cpp:100-133 | the validation loop accepts exactly requests with at most one -1 and a unique resolution, and returns that resolution |
| Reshape.NoneInferred | src/core/tensor.cpp:128-133 | without -1, resolvable iff all dimensions are non-negative and the element counts agree |
| Reshape.OneInferred | src/core/tensor.cpp:121-127 | with one -1, uniquely resolvable iff the known product is non-zero and divides numel, and then by that quotient |
| Reshape.SeveralInferred | src/core/tensor.cpp:105-109 | several -1 are always refused; a unique resolution exists iff the known dimensions already account for a positive numel |
| Reshape.RefusedThoughUnique | src/core/tensor.cpp:105-109 | [-1, -1] for one element has one resolution and is refused |
| Reshape.AcceptsExactly | src/core/tensor.cpp:100-133 | acceptance coincides with unique resolvability iff not (several -1, the rest non-negative with product numel > 0) |
| Reshape.ReshapeExactly | src/core/tensor.cpp:95-139 | accepted iff contiguous, at most one -1 and uniquely resolvable; the new dimensions are the resolution, with numel / known in place of the -1 |
| Reshape.ReshapeKeepsElements | src/core/tensor.cpp:135-138 | the element of every row-major rank is the same bytes before and after |
| Reshape.ReshapeWellFormed | src/core/tensor.cpp:135-138 | the result is contiguous and has as many elements |
| Reshape.ReshapeIsSafe | src/core/tensor.cpp:95-139 | reshaping keeps bounds and injectivity |
| Reshape.ReshapeBack | src/core/tensor.cpp:95-139 | reshaping back is accepted and restores every address |
| Tensors.Empty | src/core/tensor.cpp:38-62 | OutOfMemory iff the byte size exceeds SIZE_MAX; otherwise a fresh contiguous tensor over at least one byte |
| Tensors.ReshapeTensor | src/core/tensor.cpp:95-139 | reshape as a view on the same buffer, refused iff not contiguous or not resolvable |
| Tensors.ChainIsSafe | src/core/tensor.cpp:95-233 | no chain of reshape, slice and clone from empty leaves its allocation or makes two indices share an element |
| Tensors.ApplyIsSafe | src/core/tensor.cpp:95-233 | each single view operation keeps bounds and injectivity |
| Tensors.ElementOffset | src/core/tensor.cpp:256-260 | the inner loop adds up index times stride |
| Tensors.FillStrided | src/core/tensor.cpp:246-270 | the odometer loop writes the value to every addressed element and leaves every other byte alone, overlapping views included |
| Tensors.FillContiguous | src/core/tensor.cpp:291-391 | the sequential fast path has the same effect as the strided path |
| Tensors.Fill | src/core/tensor.cpp:278-392 | Private buffers are refused untouched; otherwise the buffer becomes the filled one, whichever path runs |
| Tensors.WriteNext | src/core/tensor.cpp:255-261 | one iteration turns "the first n elements written" into "the first n + 1 written" |
| Tensors.AllWritten | src/core/tensor.cpp:255-269 | after numel iterations exactly the addressed bytes have been written |
| Tensors.FilledElement | src/core/tensor.cpp:278-392 | every element of the view reads back as the value |
| Tensors.FillSliceChangesSlice | src/core/tensor.cpp:145-392 | filling a slice of an injective parent changes exactly the parent elements inside the slice, and no byte outside it |
| Tensors.GatheredAt | src/core/tensor.cpp:210-220 | the k-th block of the copy is the element of rank k |
| Tensors.GatheredBlock | src/core/tensor.cpp:198-200 | for a contiguous source one memcpy equals the element loop |
| Tensors.CopyNext | src/core/tensor.cpp:213-220 | one iteration appends the element at the current multi-index to the copy |
| Tensors.CopyStrided | src/core/tensor.cpp:207-228 | the element loop leaves the view's elements in row-major order |
| Tensors.GatheredDenotes | src/core/tensor.cpp:198-232 | row-major storage of those elements denotes the same tensor at every multi-index |
| Tensors.Clone | src/core/tensor.cpp:184-233 | a fresh contiguous injective tensor with the same element at every multi-index; Private buffers are refused |
| Dlpack.DTypeRoundTrip | src/interop/dlpack.cpp:20-91 | the dtype maps invert each other except Bool, which returns as UInt8; import accepts exactly the exported codes; bits are 8 times dtype_size |
| Dlpack.StandardCodes | src/interop/dlpack.cpp:20-91 | the type and device numbers are those of the DLPack header, and wrapped memory is aligned to 16 KB |
| Dlpack.ToDlpack | src/interop/dlpack.cpp:121-163 | refused iff not contiguous; otherwise fresh shape and stride arrays, the offset pointer and byte_offset |
| Dlpack.DefaultStrides | src/interop/dlpack.cpp:193-198 | the null-strides loop equals contiguous_strides for every shape |
| Dlpack.CopyFromHost | src/interop/dlpack.cpp:225-237 | the host path: a fresh row-major tensor holding one flat copy of the bytes, OutOfMemory iff their number exceeds SIZE_MAX |
| Dlpack.FromDlpack | src/interop/dlpack.cpp:169-243 | every branch of the import: null, dtype, Metal wrap, host copy with its bytes, overflow, other devices |
| Dlpack.TotalBytes | src/interop/dlpack.cpp:207-211 | the size loop computes numel times the element size |
| Dlpack.RoundTrip | src/interop/dlpack.cpp:121-224 | shape, strides and (but for Bool) dtype survive; every element is found exactly `offset` bytes further on, inside the wrapped region |
| Dlpack.Reimport | src/interop/dlpack.cpp:121-224 | export followed by import, as calls: it takes the Metal path, keeps the layout and starts the data at twice the offset |
| Dlpack.WrappedElements | src/interop/dlpack.cpp:187-224 | a wrapped descriptor denotes, at every index, its strided offset, and the row-major one where strides are null |
| Dlpack.SameElementsIffNoOffset | src/interop/dlpack.cpp:149-156 | the imported tensor denotes the same elements iff the offset is 0 or there are none |
| Dlpack.HostImportFaithful | src/interop/dlpack.cpp:225-237 | the flat host copy puts every element where the descriptor says iff its strides are contiguous or it has no elements |
| Dlpack.WrapStaysInsideIff | src/interop/dlpack.cpp:202-224 | with non-negative strides every element of a Metal import lies in the wrapped region iff there are none or the last one's offset is below numel |
| Dlpack.WrapMayLeaveRegion | src/interop/dlpack.cpp:207-224 | shape [2] with strides [5]: the second element lies outside the region |
| Dlpack.ReimportStaysInsideIff | src/interop/dlpack.cpp:149-156 | a re-imported export stays in the original allocation iff it is empty or twice its offset plus its bytes fits |
| Backpressure.BackpressureController.TakeOrWait | src/dispatch/backpressure.cpp:24-28 | the locked region of acquire is one Acquire or Recheck step |
| Backpressure.BackpressureController.ReleaseSlot | src/dispatch/backpressure.cpp:31-37 | the locked region of release is one Release step, an error without a slot in flight |
| Backpressure.BackpressureController.NotifyOne | src/dispatch/backpressure.cpp:38 | notify_one moves one waiter, if any, to re-check |
| Backpressure.MakeController | src/dispatch/backpressure.cpp:13-18 | max_in_flight must be positive |
| Backpressure.BackpressureController.Perform | src/dispatch/backpressure.cpp:24-39 | any step of any thread, as one call on the object |
| Backpressure.Execute | src/dispatch/backpressure.cpp:13-39 | a new controller taken through any possible interleaving follows the step system, keeps its limit and loses no wakeup |
| Backpressure.StepKeepsInv | src/dispatch/backpressure.cpp:24-39 | every step keeps the slot bounds and the wakeup accounting |
| Backpressure.EveryRunIsSafe | src/dispatch/backpressure.cpp:24-39 | in every run of any number of threads 0 <= in_flight <= max, in_flight = acquires - releases, and while anybody sleeps free slots never exceed pending notifications plus unchecked wakeups |
| Backpressure.HistoryDecides | src/dispatch/backpressure.cpp:24-39 | in every run in_flight is the acquires that found a slot free minus the releases that had one to give back, read off the actions, and every thread stands where its own last step or wakeup left it: a release that frees a slot owes a notification |
| Backpressure.CallsAreOpen | src/dispatch/backpressure.cpp:24-39 | any thread outside may acquire or release, any sleeper may wake |
| Backpressure.WakeupsTerminate | src/dispatch/backpressure.cpp:24-39 | wakeups under way run out within a computable number of steps |
| Backpressure.SettledMeansNothingPending | src/dispatch/backpressure.cpp:24-39 | when no wakeup can proceed, no thread is woken or owes a notification |
| Backpressure.WakeupsReachSleepers | src/dispatch/backpressure.cpp:24-39 | once they have run out, a thread still sleeps only if every slot is taken |
| Worker.WorkerThread.CheckSubmit | src/dispatch/worker_thread.cpp:119-125 | submit's running and null checks, outside the mutex |
| Worker.WorkerThread.PushWork | src/dispatch/worker_thread.cpp:127-130 | appends the task under the mutex |
| Worker.WorkerThread.NotifyWork | src/dispatch/worker_thread.cpp:131 | wakes a sleeping worker |
| Worker.WorkerThread.WaitAndPop | src/dispatch/worker_thread.cpp:35-47 | the locked region of the loop: sleep, leave, or pop the front task |
| Worker.WorkerThread.FinishTask | src/dispatch/worker_thread.cpp:49-52 | the popped task runs exactly then |
| Worker.WorkerThread.LoadFlag | src/dispatch/worker_thread.cpp:55 | the atomic load that decides whether to notify |
| Worker.WorkerThread.NotifyDrainers | src/dispatch/worker_thread.cpp:56-59 | wakes the drainer iff the queue is empty |
| Worker.WorkerThread.RaiseDrainFlag | src/dispatch/worker_thread.cpp:135 | the flag goes up before the mutex is taken |
| Worker.WorkerThread.TestQueue | src/dispatch/worker_thread.cpp:136-137 | the drainer passes iff the queue is empty, else sleeps |
| Worker.WorkerThread.LowerDrainFlag | src/dispatch/worker_thread.cpp:138-139 | the flag goes down still under the mutex |
| Worker.WorkerThread.BeginStart | src/dispatch/worker_thread.cpp:80-83 | start is a no-op while running |
| Worker.WorkerThread.ClearStopRequest | src/dispatch/worker_thread.cpp:85-88 | clears the stop request under the mutex |
| Worker.WorkerThread.SpawnThread | src/dispatch/worker_thread.cpp:90 | the worker starts before running is published |
| Worker.WorkerThread.PublishRunning | src/dispatch/worker_thread.cpp:91 | running becomes true |
| Worker.WorkerThread.BeginStop | src/dispatch/worker_thread.cpp:94-97 | stop is a no-op unless running |
| Worker.WorkerThread.RequestStop | src/dispatch/worker_thread.cpp:99-102 | sets the stop request under the mutex |
| Worker.WorkerThread.NotifyStopRequest | src/dispatch/worker_thread.cpp:103 | wakes a sleeping worker |
| Worker.WorkerThread.JoinThread | src/dispatch/worker_thread.cpp:105-107 | joins only after the worker has left its loop |
| Worker.WorkerThread.PublishStopped | src/dispatch/worker_thread.cpp:108 | running becomes false |
| Worker.WorkerThread.Perform | src/dispatch/worker_thread.cpp:32-139 | any step of any thread, as one call on the object |
| Worker.Execute | src/dispatch/worker_thread.cpp:32-139 | a new worker object taken through any possible interleaving follows the step system and keeps its invariant |
| WorkerHistory.HistoryDecides | src/dispatch/worker_thread.cpp:32-139 | in every run flags, tasks and thread positions are what the actions alone say: which submits were let in, which tasks were pushed, popped and run, and where each thread stands |
| WorkerHistory.OnlyAcceptedTasks | src/dispatch/worker_thread.cpp:119-132 | in every run the tasks enqueued, with those let in and not yet pushed, are exactly the tasks of the submit calls made while running: a refused submit leaves no trace |
| WorkerHistory.ClosedUntilStarted | src/dispatch/worker_thread.cpp:119-125 | while the worker is not running and nobody was let in, nothing is enqueued until a start is published |
| WorkerHistory.CallsAreOpen | src/dispatch/worker_thread.cpp:80-139 | calls, and spurious wakeups of sleepers, are possible whenever their thread is free |
| Worker.StepKeepsInv | src/dispatch/worker_thread.cpp:32-139 | every step of every thread keeps the history, lifecycle and wakeup invariants |
| Worker.EveryRunKeepsInv | src/dispatch/worker_thread.cpp:32-139 | so does every run |
| Worker.NoLostWakeup | src/dispatch/worker_thread.cpp:54-60 | a sleeping drainer has its flag up and the queue is non-empty or the worker is between pop and notify; a worker asleep on work has a notification coming |
| Worker.FifoExactlyOnce | src/dispatch/worker_thread.cpp:32-62 | executed, in hand and queued tasks are together exactly the enqueued ones in order; the worker exits only after running everything enqueued before its exit |
| Worker.DrainReturns | src/dispatch/worker_thread.cpp:134-139 | at return every earlier task has left the queue and at most the one in hand is unfinished; all have finished iff the task in hand is not the last of them |
| Worker.DrainDeliversIff | src/dispatch/worker_thread.cpp:134-139 | every continuation of a call to drain returns only after all earlier tasks have run, iff they had all run at the call |
| Worker.DrainMayReturnEarly | src/dispatch/worker_thread.cpp:134-139 | a reachable state in which drain returns before a submitted task has finished |
| Worker.RacingSubmitIsStranded | src/dispatch/worker_thread.cpp:119-132 | a reachable state in which a task was enqueued after the worker left |
| Worker.StopDeliversIff | src/dispatch/worker_thread.cpp:94-132 | with no new submit calls, every continuation of a stop joins a worker that has run every task enqueued, iff no submit was between its check and its push at the call |
| Worker.ProgressConsumes | src/dispatch/worker_thread.cpp:32-139 | every step that carries on work under way strictly reduces a measure of the work left |
| Worker.ProgressTerminates | src/dispatch/worker_thread.cpp:32-139 | any run is bounded by the work under way plus eleven steps per new call or spurious wakeup, submits arriving during a stop included |
| Worker.EverythingSettles | src/dispatch/worker_thread.cpp:32-139 | once no work is under way every call has completed, a running worker has executed everything and released the drainer, and a stopped one left only tasks enqueued after its exit |
| Weighted.WeightedSumAppend | python/metal_native/optim/sgd.py:122 | appending an entry discounts all earlier ones: recurrence and explicit sum agree |
| Weighted.GeometricBound | python/metal_native/optim/sgd.py:122 | the sum stays within the finite geometric series of its entries' bound |
| AdamMath.RecurrenceIsClosedForm | python/metal_native/optim/adam.py:135-146 | one update keeps m, v and v_max equal to the weighted mean of the gradients, of their squares, and its largest value over all prefixes |
| AdamMath.MomentRatio | python/metal_native/optim/adam.py:135-146 | m^2 <= C * v and m^2 <= C * v_max for every gradient sequence when beta1^2 < beta2 |
| AdamMath.AmsgradRatio | python/metal_native/optim/adam.py:134-147 | (1 - beta2) * m^2 <= v_max for every gradient sequence and all betas |
| AdamMath.MaxCoversEach | python/metal_native/optim/adam.py:143-146 | v_max never falls below (1 - beta2) times any gradient's square |
| AdamMath.RatioBoundedIff | python/metal_native/optim/adam.py:135-138 | a bound on m^2 / v independent of the gradients exists iff beta1 = 0 or beta1^2 < beta2 |
| AdamMath.GrowingRun | python/metal_native/optim/adam.py:135-138 | otherwise gradients exist that push the ratio past any number of fixed gains |
| AdamMath.CorrectedMean | python/metal_native/optim/adam.py:140-141 | the corrected mean stays within the bound of its entries even when corrected for more steps than entries |
| AdamMath.MaxSecondBound | python/metal_native/optim/adam.py:143-147 | the same for the AMSGrad maximum |
| AdamMath.ZeroSecondMoment | python/metal_native/optim/adam.py:137-138 | v is 0 only if every gradient was |
| Adam.MakeAdam | python/metal_native/optim/adam.py:42-79 | construction succeeds iff every hyperparameter passes its check |
| Adam.AdamOptimizer.UpdateParam | python/metal_native/optim/adam.py:111-164 | one loop iteration: state created on first use, moments, bias correction, AMSGrad and the new value |
| Adam.AdamOptimizer.VisitParam | python/metal_native/optim/adam.py:106-109 | parameters without a gradient change nothing |
| Adam.AdamOptimizer.Step | python/metal_native/optim/adam.py:88-166 | the counter advances once and the parameters are updated in list order |
| Adam.AdamOptimizer.ZeroGrad | python/metal_native/optim/adam.py:81-86 | clears every gradient and no value |
| Adam.Train | python/metal_native/optim/adam.py:33-40 | the documented training loop, run on the optimizer object, ends in exactly the state that the results on runs speak of |
| AdamRuns.UpdatedTimes | python/metal_native/optim/adam.py:106-164 | a step updates a parameter exactly as often as it is listed, each time from its own slot only, whatever happens to the others |
| AdamRuns.RunIsFaithful | python/metal_native/optim/adam.py:101-164 | in every run each parameter's moments are the closed form of the effective gradients it received |
| AdamRuns.SeenIsReceived | python/metal_native/optim/adam.py:126-132 | a parameter listed once is updated with its raw gradients, plus weight_decay times the values of their rounds except in MetalAdamW |
| AdamRuns.StepIsExact | python/metal_native/optim/adam.py:134-164 | the last step of any run leaves exactly f * value - lr * m_hat / (sqrt(v_hat) + eps), spelled out in the raw gradients and values of all rounds; a skipped parameter is unchanged |
| AdamRuns.RunKeepsMomentRatio | python/metal_native/optim/adam.py:103-152 | in every run, Adam or AdamW, beta1^2 < beta2 gives m^2 <= C * v <= C * v_max with C = (1-beta1)^2 / ((1-beta2) * (1 - beta1^2/beta2)) |
| AdamRuns.RunKeepsAmsgradRatio | python/metal_native/optim/adam.py:143-147 | in every run and for all betas (1 - beta2) * m^2 <= v_max |
| AdamRuns.UpdatesWithinSteps | python/metal_native/optim/adam.py:101-109 | in n steps a parameter listed k times receives at most k * n updates |
| AdamRuns.BiasCorrectionBounded | python/metal_native/optim/adam.py:134-149 | for a parameter listed at most once the corrected moments never exceed the largest gradient seen and its square, skipped steps included |
| AdamRuns.ConstantGradientIsRecovered | python/metal_native/optim/adam.py:140-149 | for a parameter listed once, under a constant gradient g, the corrected moments are exactly g and g^2 at every step, with and without AMSGrad |
| AdamRuns.ConstantGradientStep | python/metal_native/optim/adam.py:254-272 | under a constant gradient each step moves such a parameter by exactly -lr * g / (abs(g) + eps), after AdamW's decay |
| AdamRuns.RatioConstantExistsIff | python/metal_native/optim/adam.py:134-149 | a bound on m^2 over the second moment that the update divides by exists iff AMSGrad is on, or beta1 = 0, or beta1^2 < beta2 |
| AdamRuns.StepMoves | python/metal_native/optim/adam.py:140-164 | then one step takes a parameter listed k times at most U * (1 + f + ... + f^(k-1)) away from its k-fold decayed value, U = lr * sqrt(C) / (1 - beta1) and f the size of the decay factor; a skipped parameter does not move |
| AdamRuns.StepMovesOnce | python/metal_native/optim/adam.py:140-164 | a parameter listed once stays within U of its decayed value |
| AdamRuns.DivisionByZeroIff | python/metal_native/optim/adam.py:143-152 | the update divides by zero iff eps is 0 and every gradient so far was 0, or, for beta2 = 0 without AMSGrad, the last one was |
| AdamLists.FirstMomentBoundedIff | python/metal_native/optim/adam.py:101-141 | the corrected first moment stays within the gradients seen in every run iff the parameter is listed at most once or beta1 = 0 |
| AdamLists.SecondMomentBoundedIff | python/metal_native/optim/adam.py:101-149 | the corrected second moment stays within their squares in every run iff the parameter is listed at most once or beta2 = 0 |
| AdamLists.Overshoot | python/metal_native/optim/adam.py:101-149 | one step, with a gradient large enough to outweigh any weight decay, in which a parameter listed twice or more exceeds those bounds |
| AdamLists.ListedTwiceOvershoots | python/metal_native/optim/adam.py:101-141 | for instance gradient 1 gives the corrected moment 1.5 |
| AdamSteps.StepBoundedIff | python/metal_native/optim/adam.py:134-164 | a bound on the steps of a parameter listed once that holds for all gradients exists iff lr = 0, AMSGrad is on, beta1 = 0 or beta1^2 < beta2 |
| AdamSteps.LargeStep | python/metal_native/optim/adam.py:134-152 | otherwise a run exists whose last step exceeds any given length, whatever eps |
| Sgd.MakeSgd | python/metal_native/optim/sgd.py:40-73 | construction succeeds iff the hyperparameters pass their checks, Nesterov's included |
| Sgd.SgdOptimizer.UpdateParam | python/metal_native/optim/sgd.py:101-140 | one loop iteration: decay, buffer, Nesterov or plain direction, new value |
| Sgd.SgdOptimizer.VisitParam | python/metal_native/optim/sgd.py:96-99 | parameters without a gradient change nothing |
| Sgd.SgdOptimizer.Step | python/metal_native/optim/sgd.py:82-140 | the parameters are updated in list order |
| Sgd.Train | python/metal_native/optim/sgd.py:30-34 | the documented training loop, run on the optimizer object, ends in exactly the state that the results on runs speak of |
| Sgd.UpdatedTimes | python/metal_native/optim/sgd.py:96-133 | a step updates a parameter exactly as often as it is listed, each time from its own slot only |
| Sgd.BufferIsWeightedSum | python/metal_native/optim/sgd.py:111-123 | in every run the buffer is (1 - dampening) times the sum of momentum^(t-i) * g_i over that parameter's updates |
| Sgd.SeenIsReceived | python/metal_native/optim/sgd.py:103-109 | a parameter listed once is updated with its raw gradients plus weight_decay times the values of their rounds |
| Sgd.StepIsExact | python/metal_native/optim/sgd.py:111-133 | the last step of any run leaves exactly value - lr * D, D the newest gradient, the discounted sum of all, or the newest plus momentum times that sum (plain, momentum, Nesterov), in raw gradients and values; a skipped parameter is unchanged |
| Sgd.BufferBounded | python/metal_native/optim/sgd.py:122 | gradients within G keep the buffer within (1 - dampening) * G / (1 - momentum) |
| Sgd.RunBuffersBounded | python/metal_native/optim/sgd.py:95-123 | the same for every parameter in every run |
| Sgd.DirectionBounded | python/metal_native/optim/sgd.py:125-129 | plain, momentum and Nesterov directions stay within G / (1 - momentum) |
| Sgd.StepMoves | python/metal_native/optim/sgd.py:95-133 | in every run a step moves a parameter listed k times by at most k * lr * G / (1 - momentum), and skipped parameters not at all |
| Bf16.RoundsToNearestEven | shaders/common/metal_types.h:22-26 | every non-NaN float32 becomes the nearest bfloat16 in value, ties to even (section 4.3.1 of IEEE 754-2019, overflow included), with its sign |
| Bf16.ValuesAreBinary | shaders/common/metal_types.h:17-26 | the values that rounding is judged by are IEEE 754's: fraction units below 2^24, doubling with each exponent, and 1.0 at 0x3F800000 |
| Bf16.NearestEvenIsUnique | shaders/common/metal_types.h:22-26 | that rule determines the value |
| Bf16.RoundingIsMonotone | shaders/common/metal_types.h:22-26 | conversion never exchanges the order of two values |
| Bf16.NarrowingUndoesWidening | shaders/common/metal_types.h:17-26 | float_to_bf16 inverts bf16_to_float on every 16-bit pattern, NaNs included |
| Bf16.WideningUndoesNarrowingIff | shaders/common/metal_types.h:17-26 | the other way round iff the lower 16 bits are clear |
| Bf16.NaNSurvivesIff | shaders/common/metal_types.h:22-26 | a NaN stays one iff its magnitude pattern lies strictly between 0x7F808000 and 0x7FFF8000; below it becomes infinite, above a zero |
| Bf16.NaNLost | shaders/common/metal_types.h:22-26 | three NaN patterns that become infinity, negative zero and, by 32-bit wrap-around, zero |
| Bf16.TruncatesTowardZero | src/core/tensor.cpp:313-322 | the narrowing in fill_ gives the largest bfloat16 magnitude that is not too large |
| Bf16.TruncationAgreesIff | src/core/tensor.cpp:313-322 | it agrees with float_to_bf16, NaNs included, iff rounding does not go up |
| ParallelCopy.ChunksPartition | bindings/bind_interop.cpp:105-110 | byte k belongs to chunk i iff k < nbytes and i = k / 4 MB: chunks are disjoint, non-empty and cover [0, nbytes) exactly |
| ParallelCopy.Memcpy | bindings/bind_interop.cpp:101-104 | the destination range becomes the source range and nothing else changes |
| ParallelCopy.RunChunk | bindings/bind_interop.cpp:108-113 | one block moves exactly its chunk, whichever chunks have run before |
| ParallelCopy.ParallelMemcpy | bindings/bind_interop.cpp:99-114 | chunks run once each in any order leave memory as one copy would |
| ParallelCopy.StepKeepsInv | bindings/bind_interop.cpp:106-113 | in any byte-by-byte interleaving exactly the bytes moved so far differ from the start |
| ParallelCopy.InterleavingIsOneCopy | bindings/bind_interop.cpp:106-113 | every interleaved run is finished iff it has made nbytes moves, and then memory is as after one copy |
| Iqr.SortSorted | benchmarks/regression_runner.py:38-39 | the percentiles are taken over the samples in ascending order |
| Iqr.SortedUnique | benchmarks/regression_runner.py:38-39 | the sorted sequence does not depend on the samples' order |
| Iqr.QuartileIsLinear | benchmarks/regression_runner.py:38-39 | with 4p + w = num * (n - 1), four times the quartile is (4 - w) * s[p] + w * s[p + 1] |
| Iqr.KeepsExactly | benchmarks/regression_runner.py:35-51 | fewer than four samples are returned unchanged; otherwise exactly the samples between Q1 - 1.5 * IQR and Q3 + 1.5 * IQR, stated on the sorted samples |
| Iqr.Keep | benchmarks/regression_runner.py:45 | the survivors are exactly the samples within the fences, each as often as before |
| Iqr.KeepAppend | benchmarks/regression_runner.py:45 | filtering goes sample by sample, so order is kept |
| Iqr.MiddleWithinFences | benchmarks/regression_runner.py:38-45 | every sorted sample from the first quartile's neighbour to the third's lies within the fences |
| Iqr.HalfSurvive | benchmarks/regression_runner.py:38-45 | at least half of any four or more samples lie within the fences |
| Iqr.FallbackUnreachable | benchmarks/regression_runner.py:47-51 | for four or more samples the filtered list is always what is returned |
| Iqr.OrderIndependent | benchmarks/regression_runner.py:26-51 | permuting the samples only permutes the result |

## Left out

* 64-bit overflow of `numel`, strides, offsets and chunk counts: sizes are mathematical integers, except for the allocation check of `empty`, which is modelled.
* Negative strides: no modelled operation produces one.
- Tensors.Empty: requires non-negative dimensions; the source does not check them and would allocate by the wrapped product.
- Tensors.Fill: takes the fill value already encoded; the C++ conversions from `double` to each dtype are not part of this model (the bfloat16 truncation is in `Bf16`).
* The pooled allocator, Metal buffers and storage-mode transfers (`to_shared`); `zeros` and `ones` are `empty` followed by a fill.
* `wrap_external`: taken as the contract in include/metal_native/core/buffer.h:104-125 (page-aligned base, offset returned).
* DLPack deleters, ownership and null data pointers of Private buffers; host imports assume readable host memory of the described size.
- Dlpack.FromDlpack: requires as many strides as dimensions, and on the host path non-negative dimensions and enough host memory, because reads are undefined otherwise.
- Worker.NoLostWakeup: is, like the rest of `Worker`, for one draining thread, because one drainer clearing the flag (src/dispatch/worker_thread.cpp:138) can strand another.
* Weak-memory effects of the relaxed `drain_waiters` accesses: steps are sequentially consistent.
* Exceptions thrown by tasks, tasks that call `drain` or `stop`, and concurrent callers of `start` and `stop`.
* Fairness: the dispatch results bound the steps of work under way and say what holds when it ends; they do not assume a scheduler.
* Floating-point rounding in optimizers and percentiles: arithmetic is over reals, and the square root is any function that returns the non-negative root.
- Adam.AdamOptimizer.UpdateParam: takes a quotient by zero, not a number or infinite in the source, to be 0; `AdamRuns.DivisionByZeroIff` says exactly when it arises.
- AdamRuns.RunIsFaithful: the model keeps v_max also without AMSGrad, where nothing reads it.
* Tensor-valued parameters (updates are per coordinate), parameter groups with different settings, closures, `state_dict` and `load_state_dict`.
- AdamRuns.BiasCorrectionBounded: requires the parameter to be listed at most once; `AdamLists` gives the exact condition for each moment.
* bf16 vector conversions: four scalar conversions each.
* Grand Central Dispatch: the queue is an arbitrary order or interleaving of the chunks; overlapping source and destination, undefined for memcpy, are excluded.
* Metal kernels, the components of which only headers are present, configuration, profiling, benchmark timing and reports.
