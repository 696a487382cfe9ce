# A verified model of Paddle's SSA graph engine, graph passes and kernels

This project models the core of an early version of PaddlePaddle Fluid in Dafny and proves properties of it. The core has four parts.

- **The SSA dependency-graph engine.**
  - Versioned variable handles: each version has one generator and a set of pending readers.
  - The builder helpers that hand out versions per (name, device).
  - The repair of write-after-read hazards with dummy control edges.
  - The multi-device graph builder.
  - The validity check and depth analysis that simulate an execution.
  - The depth pass over the operator graph.
  - The dependency-counting scheduler of the threaded executor: fetch-op insertion, device choice, ready queues and the `total_ops` count.
- **The IR graph rewrite passes.**
  - Operator fusion (`OpFusionPass`).
  - The elementwise-add/activation fusion pass with its edge-list rewrites.
  - The optimizer-op fusion pass, which collects optimizer ops and their auxiliary variables and reorders them by parameter.
- **Small stateful managers.**
  - The staging buffer.
  - The temporary-allocation delete queues.
  - The scope-buffered executor's variable placement.
  - The scope monitor's history of local execution scopes.
- **Kernels and loaders.**
  - The scalar functors and their compound and gradient forms, and the functor-list checks.
  - The fused elementwise/activation operators, elementwise add, sequence_expand_as, the read op, max pooling with index, alloc_continuous_space and fuse_vars.
  - The imperative tracer's preparation of inputs and outputs.
  - The CoNLL-2003 dataset loader.

There is one Dafny module per source file.

- Code that changes state in place is a `class` or a `method` with loops and invariants. Each is specified against a function of its inputs or its old state.
- Pure code is functions and lemmas.
- Graphs are arenas: vertices are indices into sequences, or keys of maps.

Where the code does something its messages, comments or documentation evidently did not intend, the model does both:

- it keeps the code as written, with a lemma that exhibits the difference;
- it gives a corrected member that the rest of the model uses.

These cases are listed under "Findings".

## Model

| member | source | states |
|---|---|---|
| StagingBuffer.Buffer.constructor | paddle/operators/detail/buffer.h:35-36 | a new buffer keeps its capacity and byte limit, holds nothing and counts zero bytes |
| StagingBuffer.Buffer.Put | paddle/operators/detail/buffer.h:38-63 | with the size check as its message describes it: an element over a positive byte limit is refused and nothing changes; otherwise (once a bounded buffer admits it) it is appended at the back and current_bytes_ grows by its byte size; current_bytes_ stays the summed size of the buffered elements and no limit is passed |
| StagingBuffer.Buffer.PutAsWritten | paddle/operators/detail/buffer.h:43-56 | with the check as written, every call the wait lets finish fails the check and leaves the buffer unchanged |
| StagingBuffer.AsWrittenPutNeverProceeds | paddle/operators/detail/buffer.h:43-55 | an element that passes the check as written makes the buffer bounded and is admitted by no state, so Put waits for ever |
| StagingBuffer.PassingElementFitsEmptyBuffer | paddle/operators/detail/buffer.h:43-55 | with the intended check, an element that passes is admitted by an empty buffer |
| StagingBuffer.Buffer.Get | paddle/operators/detail/buffer.h:65-76 | on a non-empty buffer the front element is returned and removed, and its byte size is uncounted; the byte invariant is kept |
| StagingBuffer.Buffer.Size | paddle/operators/detail/buffer.h:78-81 | the number of buffered elements |
| StagingBuffer.Buffer.Clear | paddle/operators/detail/buffer.h:83-89 | no element and no byte is left |
| StagingBuffer.FirstInFirstOut | paddle/operators/detail/buffer.h:58-73 | two elements put into an unbounded buffer come out in the order they went in |
| StagingBuffer.Registry.constructor | paddle/operators/detail/buffer.h:126 | the place-to-buffer map starts empty |
| StagingBuffer.Registry.GetBufferAsWritten | paddle/operators/detail/buffer.h:124-132 | as written: a place already in the map gets a new empty buffer in its entry; a place not in it gets a null entry, which is returned |
| StagingBuffer.Registry.GetBuffer | paddle/operators/detail/buffer.h:124-132 | as intended: the first request for a place creates and records an empty buffer, later requests return the recorded one |
| StagingBuffer.FirstRequestGetsNoBuffer | paddle/operators/detail/buffer.h:128-131 | the first request for a place yields null as written and an empty buffer as intended |
| TemporaryAllocation.TemporaryAllocator.constructor | paddle/fluid/platform/temporay_allocator.cc:28-30 | a new allocator has an empty queue, no delete queue and wait_delete_mem_ zero |
| TemporaryAllocation.TemporaryAllocator.Free | paddle/fluid/platform/temporay_allocator.cc:58-71 | an allocation that is not a TemporayAllocation fails; a GPU one is appended to the queue and its size added to wait_delete_mem_; any other is deleted at once; wait_delete_mem_ stays the size of the queue and every freed allocation is queued, pending or deleted |
| TemporaryAllocation.TemporaryAllocator.Enqueue | paddle/fluid/platform/temporay_allocator.cc:61-68 | a GPU allocation joins the end of the queue and its size is added to the waiting total; the delete queue and the deleted allocations are unchanged |
| TemporaryAllocation.TemporaryAllocator.DeleteNow | paddle/fluid/platform/temporay_allocator.cc:70 | any other allocation is deleted at once; the queues and the waiting total are unchanged |
| TemporaryAllocation.TemporaryAllocator.MoveToDeleteQueue | paddle/fluid/platform/temporay_allocator.cc:34-41 | with no delete queue pending, the queue becomes the delete queue, a fresh empty queue starts and wait_delete_mem_ is 0 |
| TemporaryAllocation.TemporaryAllocator.Release | paddle/fluid/platform/temporay_allocator.cc:43-56 | the delete queue is taken, none is left pending, and its allocations are deleted in queue order |
| TemporaryAllocation.TemporaryAllocator.WaitDeleteQueueSize | paddle/fluid/platform/temporay_allocator.cc:73-76 | 0 with no delete queue, its length otherwise |
| TemporaryAllocation.TemporaryAllocator.TemporaryAllocationQueueSize | paddle/fluid/platform/temporay_allocator.cc:78-81 | the length of the current queue |
| TemporaryAllocation.Cycle | paddle/fluid/platform/temporay_allocator.cc:34-71 | freeing two GPU allocations and one other counts the two GPU sizes, deletes the other at once, and Release after MoveToDeleteQueue deletes the two in the order they were freed |
| Functors.ApplyUnary | paddle/fluid/operators/math/functors.h:44-75 | ScaleFunctor gives coeff times x; ReluFunctor gives a non-negative value that is x exactly when x is not negative and 0 otherwise |
| Functors.RecomputationIsTransparent | paddle/fluid/operators/math/functors.h:94-207 | for every unary functor the gradient functors give the same dx and dy whether they recompute the intermediate from x and y or read it from out |
| Functors.BinaryCompoundGradIsSlope | paddle/fluid/operators/math/functors.h:77-142 | BinaryCompoundGradDx/Dy are the exact slopes of binary(x, unary(y)): moving x or y by h moves the output by h times the gradient (for ReLU, wherever y keeps its sign) |
| Functors.UnaryCompoundGradIsSlope | paddle/fluid/operators/math/functors.h:143-207 | UnaryCompoundGradDx/Dy are the exact slopes of unary(binary(x, y)) in the same sense |
| Functors.FindComma | paddle/fluid/operators/math/functors.h:213 | find(",") is npos exactly when there is no comma, and otherwise the index of the first comma |
| Functors.SplitFunctorList | paddle/fluid/operators/math/functors.h:213-215 | with a comma the list is the first name, a comma and the second, and the first name holds no comma; without one npos + 1 wraps to 0 and both halves are the whole list |
| Functors.SplitJoinedList | paddle/fluid/operators/math/functors.h:213-215 | splitting "f1,f2" gives back f1 and f2 whenever f1 has no comma |
| Functors.SplitForwardLists | paddle/fluid/operators/math/functors.h:213-221 | each of the four implemented lists splits into elementwise_add and scale or relu |
| Functors.ValidCheckAcceptsExactly | paddle/fluid/operators/math/functors.h:209-227 | ValidCheck passes exactly for "elementwise_add,scale", "scale,elementwise_add", "elementwise_add,relu" and "relu,elementwise_add", and fails for every other string |
| Functors.RunFunctorsImplementsValidLists | paddle/fluid/operators/math/functors.h:323-351 | RunFunctors computes a value exactly for the lists ValidCheck accepts and throws for every other |
| Functors.RunFunctorsReadsOutsideIn | paddle/fluid/operators/math/functors.h:323-351 | "elementwise_add,u" computes x + u(y) and "u,elementwise_add" computes u(x + y) |
| Functors.RunGradFunctors | paddle/fluid/operators/math/functors.h:355-430 | succeeds exactly for the four "_grad" lists and throws for every other string |
| Functors.RunGradFunctorsOnGradLists | paddle/fluid/operators/math/functors.h:355-430 | each of the four gradient lists computes the compound gradient of the matching forward list, honouring recomputation |
| CompoundFunctors.IntermediateOutRoundTrip | paddle/fluid/operators/math/compound_functors.h:30-62 | for both compound kinds GetOut(x, y) equals GetOutUseIntermediateOut(x, GetIntermediateOut(x, y)); the intermediate is unary(y) or binary(x, y), and GetOut agrees with the functors of math/functors.h |
| CompoundFunctors.IntermediateGradsAgree | paddle/fluid/operators/math/compound_functors.h:72-185 | fed the true intermediate, the five-argument gradient functors equal the four-argument ones, which equal the gradients of math/functors.h |
| CompoundFunctors.CompoundFunctorRegistry.constructor | paddle/fluid/operators/math/compound_functors.h:236-238 | the registry starts with no functor |
| CompoundFunctors.CompoundFunctorRegistry.Insert | paddle/fluid/operators/math/compound_functors.h:222-227 | a name already registered is refused and the map is unchanged; a new name is added with its creator and nothing else changes |
| CompoundFunctors.CompoundFunctorRegistry.Get | paddle/fluid/operators/math/compound_functors.h:229-233 | succeeds exactly when the name is registered (Has), and then returns its creator |
| CompoundFunctors.Register | paddle/fluid/operators/math/compound_functors.h:244-250 | the registrar's constructor refuses a name already registered and otherwise registers it, after which Get finds it |
| FusedElemwiseActivation.GradNames | paddle/fluid/operators/fused_elemwise_activation_op.h:78-85 | the gradient names of a variable list, position by position |
| FusedElemwiseActivation.GradVarNameIsInjective | paddle/fluid/operators/fused_elemwise_activation_op.h:76-86 | two different names never get the same gradient name, so the grad maker's parameters do not collide |
| FusedElemwiseActivation.GradKeyed | paddle/fluid/operators/fused_elemwise_activation_op.h:76-86 | every parameter p gains the parameter GradVarName(p) with the gradient names of p's arguments, and nothing but gradient names |
| FusedElemwiseActivation.GradMakerKeepsForwardArgs | paddle/fluid/operators/fused_elemwise_activation_op.h:72-86 | the gradient op is of type forward + "_grad" and reads every forward input and output under its own parameter with the same arguments |
| FusedElemwiseActivation.GradMakerWritesInputGrads | paddle/fluid/operators/fused_elemwise_activation_op.h:76-80 | the gradient op writes GradVarName of every forward input's arguments under GradVarName of its parameter |
| FusedElemwiseActivation.GradMakerReadsOutputGrads | paddle/fluid/operators/fused_elemwise_activation_op.h:82-86 | the gradient op reads the gradient of every forward output |
| FusedElemwiseActivation.GradFunctorListOfValidList | paddle/fluid/operators/fused_elemwise_activation_op.h:89-95 | "f1,f2" becomes "f1_grad,f2_grad", and for every list ValidCheck accepts that is one of the lists the gradient dispatch implements |
| FusedElemwiseActivation.ForwardKernel | paddle/fluid/operators/fused_elemwise_activation_op.h:341-369 | the forward kernel computes a value exactly when the op has a functor_list that ValidCheck accepts |
| FusedElemwiseActivation.GradKernel | paddle/fluid/operators/fused_elemwise_activation_op.h:372-448 | the gradient kernel computes exactly when functor_list is one of the four "_grad" lists |
| FusedElemwiseActivation.GradOpOfValidOpRuns | paddle/fluid/operators/fused_elemwise_activation_op.h:72-95 | the gradient op made for a valid forward op carries a functor_list the gradient kernel runs |
| FusedOperators.GetFunctionMode | paddle/fluid/operators/fused_operators_op.h:102-118 | succeeds exactly when the first or second entry is add or sub and the other entry's prefix before its first comma is scale or relu; the mode is 2 exactly when the first entry is binary, else 1 |
| FusedOperators.ForwardKernel | paddle/fluid/operators/fused_operators_op.h:60-100 | succeeds exactly when the mode does; mode 2 computes x + 0.1 * y and mode 1 computes 0.1 * (x + y) |
| FusedOperators.GradKernel | paddle/fluid/operators/fused_operators_op.h:127-190 | succeeds exactly when the list has two entries and the mode succeeds |
| FusedOperators.GradKernelIsSlope | paddle/fluid/operators/fused_operators_op.h:60-190 | for every accepted two-entry list the gradient kernel's (dX, dY) are the exact slopes of the forward kernel |
| FusedOperators.KernelDependsOnlyOnMode | paddle/fluid/operators/fused_operators_op.h:71-99 | two accepted lists with the same mode compute the same values: the scale is 0.1 whatever the list says, and sub adds |
| ElementwiseAdd.RowWiseIndex | paddle/operators/elementwise_add_op.h:36-40 | the element of Y that Add_RowWise pairs with element i of X lies inside Y |
| ElementwiseAdd.MidWiseIndex | paddle/operators/elementwise_add_op.h:47-53 | the element of Y that Add_MidWise pairs with element i of X lies inside Y |
| ElementwiseAdd.MidWiseIndexIsMiddleCoordinate | paddle/operators/elementwise_add_op.h:44-55 | viewing X as [pre, n, post], the element at coordinate (a, b, c) meets Y[b] |
| ElementwiseAdd.RowWiseIsMidWiseWithPostOne | paddle/operators/elementwise_add_op.h:34-55 | with post == 1 the mid-wise pairing is the row-wise one, and the element at (a, b) of X viewed as [pre, n] meets Y[b] |
| ElementwiseAdd.AddSame | paddle/operators/elementwise_add_op.h:27-32 | z[i] = x[i] + y[i] for every i < num, and the rest of z is untouched |
| ElementwiseAdd.AddRowWise | paddle/operators/elementwise_add_op.h:34-42 | the wrap-around counter gives z[i] = x[i] + y[i mod y_num] for every i < x_num, and the rest of z is untouched |
| ElementwiseAdd.AddMidWise | paddle/operators/elementwise_add_op.h:44-55 | z[i] = x[i] + y[(i mod (y_num * post)) / post] for every i < x_num, and the rest of z is untouched |
| ElementwiseAdd.MidDims | paddle/operators/elementwise_add_op.h:87-88 | get_mid_dims succeeds exactly when Y's dims equal X's dims from axis on, and then gives pre, n and post as the products of X's dims before, of Y's dims, and of X's dims after |
| ElementwiseAdd.KernelPlan | paddle/operators/elementwise_add_op.h:70-99 | rank(X) < rank(Y) fails; equal dims add element by element over product(dims); otherwise axis -1 becomes rank(X) - rank(Y), an axis outside [0, rank(X)) fails, and post == 1 chooses the row-wise loop, anything else the mid-wise loop |
| ElementwiseAdd.MidDimsCoverX | paddle/operators/elementwise_add_op.h:87-96 | X's element count is pre * n * post whenever get_mid_dims succeeds |
| ElementwiseAdd.KernelPlanIsBroadcast | paddle/operators/elementwise_add_op.h:82-99 | every plan accepted for distinct dims is the broadcast [pre, n, post]: X has pre * n * post elements, Y has n, and the element at (a, b, c) of X meets Y[b] |
| ElementwiseAdd.PlanIndexIsMiddleCoordinate | paddle/operators/elementwise_add_op.h:89-99 | the loop chosen for [pre, n, post] pairs the element at (a, b, c) of X with Y[b] |
| ElementwiseAdd.Compute | paddle/operators/elementwise_add_op.h:60-100 | fails exactly when the plan is refused, leaving Out as it was; otherwise Out[i] = X[i] + Y[j] over all of X, with j the index the chosen loop pairs with i |
| SequenceExpandAs.SegmentOf | paddle/fluid/operators/sequence_expand_as_op.h:57-64 | the segment found for an output row is one whose offsets enclose it |
| SequenceExpandAs.SegmentOfIsUnique | paddle/fluid/operators/sequence_expand_as_op.h:57-64 | with monotone offsets a row inside segment h belongs to h and to no other segment |
| SequenceExpandAs.Expand | paddle/fluid/operators/sequence_expand_as_op.h:45-70 | every output row inside segment h gets row h of X added at every column, segments with span 0 add nothing, and rows outside all segments keep their values |
| SequenceExpandAs.AddRowToSegment | paddle/fluid/operators/sequence_expand_as_op.h:60-67 | rows lo .. hi-1 of the output get row h of X added and nothing else changes |
| SequenceExpandAs.AddToColumn | paddle/fluid/operators/sequence_expand_as_op.h:62-66 | ele is added to column w of rows lo .. hi-1 and nothing else changes |
| SequenceExpandAs.CheckLoD | paddle/fluid/operators/sequence_expand_as_op.h:80-82 | passes exactly when Y has one LoD level holding at least two offsets |
| SequenceExpandAs.Compute | paddle/fluid/operators/sequence_expand_as_op.h:75-89 | fails exactly when the LoD checks fail, leaving Out as it was; otherwise Out is what the functor computes over Y's only level |
| SequenceExpandAs.ExpandGrad | paddle/fluid/operators/sequence_expand_as_op.h:103-126 | row i-1 of dX is the column sum of the repeat_num = lod[i] - lod[i-1] rows of dOut from a running offset that advances by repeat_num; segments with no repeats and rows past the last segment keep their values |
| SequenceExpandAs.WriteGradRow | paddle/fluid/operators/sequence_expand_as_op.h:115-121 | each column of dX row `row` becomes the column sum of `count` rows of dOut from `start`, and no other row changes |
| SequenceExpandAs.ColumnSumOfEqualRows | paddle/fluid/operators/sequence_expand_as_op.h:117-121 | the column sum of k rows that all hold v is k times v |
| SequenceExpandAs.GainInSegment | paddle/fluid/operators/sequence_expand_as_op.h:57-67 | inside segment h the forward functor adds exactly row h of X |
| SequenceExpandAs.ExpandedInSegment | paddle/fluid/operators/sequence_expand_as_op.h:57-67 | started from zeros, the forward output holds row h of X in every row of segment h |
| SequenceExpandAs.GradOfExpand | paddle/fluid/operators/sequence_expand_as_op.h:57-124 | the gradient functor applied to the forward output from zeros gives row h of X times segment h's repeat count |
| SequenceExpandAs.GradExample | paddle/fluid/operators/sequence_expand_as_op.h:92-102 | for LoD [0, 3, 6] and dOut [0.1, 0.2, 0.3, 0.4, 0.5, 0.6], dX is [0.6, 1.5] |
| ReadOp.DimensionIsCompatibleWith | paddle/fluid/operators/reader/read_op.cc:30-42 | true exactly when the ranks are equal and at every position where both entries are non-negative they are equal |
| ReadOp.CompatibleSymmetric | paddle/fluid/operators/reader/read_op.cc:30-42 | the test gives the same answer with its arguments swapped |
| ReadOp.CompatibleReflexive | paddle/fluid/operators/reader/read_op.cc:30-42 | every shape is compatible with itself |
| ReadOp.CompatibleNotTransitive | paddle/fluid/operators/reader/read_op.cc:24-29 | a wildcard is compatible with two shapes that are not compatible with each other |
| ReadOp.RunImpl | paddle/fluid/operators/reader/read_op.cc:108-141 | an empty read is the end of the data and changes nothing; the read succeeds exactly when the counts of tensors, outputs and feed flags agree and every checked output has a compatible shape and the same dtype, and then every output name holds its tensor; a failed check reports the first output that failed |
| ReadOp.ShareOutputs | paddle/fluid/operators/reader/read_op.cc:124-141 | succeeds exactly when every output passes its feed check, and then every output holds its tensor; on failure the earlier outputs are shared and the failing one is named |
| PoolWithIndex.TruncDiv | paddle/operators/pool_with_index_op.cc:22 | C++ division truncates toward zero: the remainder lies in [0, b) for non-negative a and in (-b, 0] for negative a |
| PoolWithIndex.OutputSizeCountsWindows | paddle/operators/pool_with_index_op.cc:20-24 | when the padded input holds a window and the stride is positive, the output size is the number of window positions: the last one fits and one more stride would not |
| PoolWithIndex.OutputSizeOfTooSmallInput | paddle/operators/pool_with_index_op.cc:22 | truncation rounds a negative quotient up, so an input of 1 with window 3 and stride 3 still yields one position |
| PoolWithIndex.InferShape | paddle/operators/pool_with_index_op.cc:31-70 | succeeds exactly when X, Out and Mask exist, the input is 4-D or 5-D, ksize (the spatial dims under global pooling) covers the spatial dims and strides and paddings are as long; the shape is [N, C, out_1, ...] with each out_i the output-size formula |
| PoolWithIndex.SpatialDims | paddle/operators/pool_with_index_op.cc:48-52 | global pooling takes ksize from the input's spatial dims |
| PoolWithIndex.OutputShape | paddle/operators/pool_with_index_op.cc:63-67 | the shape keeps N and C and gives each spatial dim its output size |
| AllocContinuousSpace.GetMemSizeAndDtype | paddle/fluid/operators/alloc_continuous_space2_op.cc:73-97 | succeeds exactly when the counts match, every tensor is initialized, the first type replaces a BOOL dtype and is not BOOL itself, every later type equals the settled one and every size is positive; then numel is the sum of the sizes (at least the number of tensors) and dtype the settled type |
| AllocContinuousSpace.Compute | paddle/fluid/operators/alloc_continuous_space2_op.cc:30-71 | succeeds exactly when there is at least one input, as many outputs as inputs, every slot is a LoD tensor, with check_name the names match pairwise, and every input holds memory for TensorCopy; then output i is a copy of input i's whole tensor (type, size, dims and data) |
| AllocContinuousSpace.IntendedCompute | paddle/fluid/operators/alloc_continuous_space2_op.cc:110-150 | the documented operator, on success: one output per input, and FusedOutput and every output hold as many elements as their numel says |
| AllocContinuousSpace.SizedSums | paddle/fluid/operators/alloc_continuous_space2_op.cc:140-145 | the offsets of the documented layout grow by each input's size and the concatenated data is as long as the sum of the sizes |
| AllocContinuousSpace.ConcatSlice | paddle/fluid/operators/alloc_continuous_space2_op.cc:140-145 | input i's data sits between offsets i and i+1 of the concatenation |
| AllocContinuousSpace.IntendedOutput | paddle/fluid/operators/alloc_continuous_space2_op.cc:114-145 | output i of the documented operator is the slice of FusedOutput between its offsets, with its input's dims |
| AllocContinuousSpace.IntendedSlicesFused | paddle/fluid/operators/alloc_continuous_space2_op.cc:114-150 | the documented operator succeeds exactly when GetMemSizeAndDtype accepts the inputs; FusedOutput then has dims {sum(numel)} and the settled dtype, the outputs are consecutive slices that tile it exactly, with copy_data each output holds its input's data, and with set_constant alone every element is the constant |
| AllocContinuousSpace.IntendedTiled | paddle/fluid/operators/alloc_continuous_space2_op.cc:140-145 | an accepted call gives outputs that tile FusedOutput in input order |
| AllocContinuousSpace.IntendedCopies | paddle/fluid/operators/alloc_continuous_space2_op.cc:124-125 | with copy_data every output holds its input's data |
| AllocContinuousSpace.AsWrittenIgnoresFusedOutput | paddle/fluid/operators/alloc_continuous_space2_op.cc:30-71 | for one input holding 1.0 with set_constant and constant 0.0, the kernel as written returns a copy holding 1.0 and no fused tensor, while the documented operator gives a FusedOutput [0.0] and an output [0.0] |
| FuseVarsOp.TotalNumel | paddle/fluid/operators/fuse_vars_op.cc:27-52 | succeeds exactly when X, Y and FusedX are present and, at compile time, the first input type is LOD_TENSOR, every type equals it, there is an input and no input has a negative count; at run time nothing more is checked and no dim is set; otherwise the total is the non-negative sum of the inputs' dim products |
| FuseVarsOp.InferShapeAsWritten | paddle/fluid/operators/fuse_vars_op.cc:27-54 | as written: the same acceptance, and at compile time the total is set as the dim of a name the operator does not declare as an output |
| FuseVarsOp.InferShape | paddle/fluid/operators/fuse_vars_op.cc:27-54 | as intended: the same acceptance, and at compile time the declared output FusedX gets the dim {total} |
| FuseVarsKernel.GpuIndicesExact | paddle/fluid/operators/fuse_vars_op.h:36-54 | the recorded positions are exactly the GPU inputs, each once, in increasing order |
| FuseVarsKernel.FirstGpuIsLeast | paddle/fluid/operators/fuse_vars_op.h:40-44 | the first GPU input is the one with no GPU input before it |
| FuseVarsKernel.ScanInputs | paddle/fluid/operators/fuse_vars_op.h:32-54 | succeeds exactly when every input is its output's variable, every input is a LoD tensor, every GPU input shares the first GPU input's place and type and has a non-negative count; the total is the summed count of the GPU inputs |
| FuseVarsKernel.ComputeAsWritten | paddle/fluid/operators/fuse_vars_op.h:27-74 | as written: succeeds exactly when the first loop's checks pass and, if some input is on the GPU, the slice [0, numel) of the first GPU input's own tensor passes Tensor::Slice's bounds (0 <= begin < end <= rows); the result then records only that input, re-sliced from its own tensor |
| FuseVarsKernel.Compute | paddle/fluid/operators/fuse_vars_op.h:27-74 | as intended: succeeds exactly when the first loop's checks pass and every GPU input holds at least one element (Tensor::Slice refuses an empty slice of the fused buffer); then every GPU input gets its slice of the fused buffer |
| FuseVarsKernel.FillSlices | paddle/fluid/operators/fuse_vars_op.h:61-70 | succeeds exactly when every slice [s, s + numel) passes Tensor::Slice's bounds on the tensor it is taken from; a running offset advances by each listed input's count, and each listed output becomes the slice [s, s + numel) |
| FuseVarsKernel.PrefixNumel | paddle/fluid/operators/fuse_vars_op.h:61-68 | with non-negative counts, each running offset is non-negative and the slice after it ends within the total |
| FuseVarsKernel.FusedSlicesFit | paddle/fluid/operators/fuse_vars_op.h:56-68 | after the first loop's checks, every slice of the fused buffer of dims {total_numel} passes Tensor::Slice's bounds exactly when every GPU input holds at least one element |
| FuseVarsKernel.SlicesTile | paddle/fluid/operators/fuse_vars_op.h:61-70 | the slices are contiguous: each starts where the previous ends, the last ends at the start plus the total count, and each is as long as its input |
| FuseVarsKernel.IntendedSlicesCoverBuffer | paddle/fluid/operators/fuse_vars_op.h:56-70 | as intended, every GPU input gets a slice of the fused buffer and the slices tile [0, total_numel) exactly |
| FuseVarsKernel.AsWrittenSlicesOnlyFirstGpuVar | paddle/fluid/operators/fuse_vars_op.h:41-43 | for two one-dimensional GPU inputs of 2 and 3 elements both versions succeed and the buffer holds 5, but as written only the first is re-pointed, at rows [0, 2) of its own tensor; as intended both get slices [0, 2) and [2, 5) of the buffer |
| FuseVarsKernel.AsWrittenLeavesBufferUnused | paddle/fluid/operators/fuse_vars_op.h:62-68 | as written, once some input is on the GPU the code succeeds exactly when the first GPU input holds between 1 and rows elements, so a tensor of more elements than rows (any tensor with a second dim above 1) fails; on success the single output re-pointed is that input, at the whole of its own tensor, so nothing shares the fused buffer |
| Conll03.BeforeOrder | python/paddle/dataset/conll03.py:37 | the sort key (-frequency, word) is a strict total order on entries with distinct words: irreflexive, asymmetric, transitive and total |
| Conll03.CountsIsFreqOf | python/paddle/dataset/conll03.py:27-32 | a dictionary built by one `+= 1` per key on a defaultdict(int) is the frequency map of the keys |
| Conll03.CountWords | python/paddle/dataset/conll03.py:27-33 | build_dict's loop counts `words[pos]` of every two-token line: the result is the frequency map of those words |
| Conll03.CountWordChars | python/paddle/dataset/conll03.py:52-53 | counting the characters of one word extends the counted keys by exactly its characters |
| Conll03.CountChars | python/paddle/dataset/conll03.py:46-53 | build_char_dict's loops count every character of `words[pos]` of every two-token line |
| Conll03.Kept | python/paddle/dataset/conll03.py:35 | the filter keeps exactly the entries whose frequency exceeds the cutoff, with their frequencies |
| Conll03.RanksInjective | python/paddle/dataset/conll03.py:39 | the numbering gives distinct words distinct numbers |
| Conll03.Insert | python/paddle/dataset/conll03.py:37 | inserting an entry with a new word into a sorted list gives a sorted list holding the old entries and the new one |
| Conll03.SortEntries | python/paddle/dataset/conll03.py:37 | sorted(...) returns exactly the kept entries, each once, ordered by (-frequency, word) |
| Conll03.SortedWordsDistinct | python/paddle/dataset/conll03.py:37-38 | the words unpacked from the sorted list are pairwise distinct |
| Conll03.NumberWords | python/paddle/dataset/conll03.py:39 | `dict(zip(words, xrange(len(words))))` maps exactly the listed words, each to its position |
| Conll03.NumberingRanks | python/paddle/dataset/conll03.py:37-39 | numbering the sorted kept entries by position ranks them: the most frequent word gets 0, ties broken by the word, the numbers are 0 .. n-1 |
| Conll03.MakeIndex | python/paddle/dataset/conll03.py:35-39 | fails exactly when no entry passes the cutoff (unpacking an empty zip); otherwise it ranks the kept entries |
| Conll03.BuildDict | python/paddle/dataset/conll03.py:26-42 | succeeds exactly when some word passes the cutoff; with pos 1 the index ranks the kept words, otherwise '<unk>' gets number len(words) and the rest ranks the other kept words |
| Conll03.WithUnk | python/paddle/dataset/conll03.py:40-41 | '<unk>' is mapped to the number of kept words and the other entries still rank the kept words |
| Conll03.BuildCharDict | python/paddle/dataset/conll03.py:45-62 | succeeds exactly when some character passes the cutoff, and then '<unk>' always gets len(words) and the rest ranks the kept characters |
| Conll03.CharIds | python/paddle/dataset/conll03.py:84-85 | one id per character, the character's id or UNK when it has none |
| Conll03.LoadFromErrPersists | python/paddle/dataset/conll03.py:76-93 | once the loop has raised, later lines change nothing |
| Conll03.LoadFromStep | python/paddle/dataset/conll03.py:76-93 | the first two lines are skipped (ln < 2) and every later line takes one step of the loop |
| Conll03.WordCharIds | python/paddle/dataset/conll03.py:84-85 | the inner loop builds exactly the character ids of the word |
| Conll03.ReaderCreator | python/paddle/dataset/conll03.py:65-96 | reader_creator's loading is the specified load: KeyError without '<unk>', else the loop's result |
| Conll03.FailureIsFinal | python/paddle/dataset/conll03.py:80-83 | a non-blank line with fewer than two tokens or an unknown label makes the whole load fail, whatever follows |
| Conll03.LoadFromOk | python/paddle/dataset/conll03.py:76-93 | the loop succeeds exactly when every line it reads is blank or has a known label in its second token |
| Conll03.LoadFromGroups | python/paddle/dataset/conll03.py:80-93 | a successful loop has emitted one encoded sentence per blank line, each the group of lines before it, and buffers the open group |
| Conll03.EncodeSnoc | python/paddle/dataset/conll03.py:82-88 | one more line of a sentence appends one word id, one label id and one character list |
| Conll03.GroupsCount | python/paddle/dataset/conll03.py:89-93 | one group per blank line |
| Conll03.LoadYieldsSentences | python/paddle/dataset/conll03.py:65-103 | the load succeeds exactly when '<unk>' is a word and every line after the first two is blank or carries a known label; it then yields one sentence per blank line, with as many word ids, label ids and character lists as lines |
| Conll03.TrailingLineNotEmitted | python/paddle/dataset/conll03.py:89-94 | a last sentence that no blank line closes is never emitted |
| Conll03.ReaderCreatorWord | python/paddle/dataset/conll03.py:106-129 | reader_creator_word yields the same sentences as reader_creator, without the character ids, and fails exactly when it does |
| Conll03.StripLeftSuffix | python/paddle/dataset/conll03.py:143 | strip's left part removes exactly the leading whitespace |
| Conll03.StripRightPrefix | python/paddle/dataset/conll03.py:143 | strip's right part removes exactly the trailing whitespace |
| Conll03.StripIdempotent | python/paddle/dataset/conll03.py:143 | a stripped line has no whitespace at either end and stripping it again changes nothing |
| Conll03.LoadDict | python/paddle/dataset/conll03.py:139-147 | the keys are exactly the stripped lines, each numbered by the index of its last occurrence |
| Tracer.Find | paddle/fluid/imperative/tracer.cc:92 | `varbase_map.find(name)` is end exactly when no slot has the name, and otherwise yields that slot's variables |
| Tracer.Names | paddle/fluid/imperative/tracer.cc:97-101 | the argument list holds the variables' names, one per variable, in order |
| Tracer.GetExpectedPlace | paddle/fluid/imperative/tracer.cc:65-81 | succeeds exactly when every input variable is on the given place, and then returns that place |
| Tracer.CreateVarNameMap | paddle/fluid/imperative/tracer.cc:83-137 | without an OpInfo or a proto the map is empty; otherwise it fails exactly when a missing slot is not dispensable, and it has exactly the proto's slots, each mapped to its variables' names or to [] when missing |
| Tracer.LastByNameSnoc | paddle/fluid/imperative/tracer.cc:319 | recording one more variable under its name keeps current_vars_map holding, for every name, the last variable of that name |
| Tracer.TrackCurrent | paddle/fluid/imperative/tracer.cc:313-324 | with stop_gradient current_vars_map stays empty; otherwise after a slot it holds the last variable of each name among those seen so far |
| Tracer.PrepareInputAndOutput | paddle/fluid/imperative/tracer.cc:303-344 | fails exactly when some input has no Variable; otherwise every input and output slot maps to its variables, and current_vars_map is empty with stop_gradient and otherwise holds the last variable of each name over inputs then outputs |
| Tracer.CheckInputVars | paddle/fluid/imperative/tracer.cc:313-316 | the enforce passes exactly when every variable of the slot holds a Variable |
| Tracer.PrepareInputs | paddle/fluid/imperative/tracer.cc:310-326 | the input loop succeeds exactly when every input holds a Variable, maps each slot to its variables and records the inputs by name unless stop_gradient |
| Tracer.PrepareOutputs | paddle/fluid/imperative/tracer.cc:328-343 | the output loop maps each slot to its variables and records the outputs by name after what was recorded, unless stop_gradient |
| Tracer.GetVarsSavedForBackward | paddle/fluid/imperative/tracer.cc:229-301 | with stop_gradient nothing is saved; otherwise it fails exactly when some grad op argument does not resolve (an input neither a gradient nor a current variable, an output not a gradient of a current variable), and it saves exactly the input slots that have an argument |
| Tracer.SaveInputs | paddle/fluid/imperative/tracer.cc:262-281 | one grad op's inputs: fails exactly when an argument does not resolve; saves exactly the slots with at least one argument |
| Tracer.SavedSlotsSnoc | paddle/fluid/imperative/tracer.cc:260-281 | the slots saved over one more grad op are the old ones plus that op's non-empty input slots |
| VarNames.GradVarName | paddle/fluid/operators/fused_elemwise_activation_op.h:76-86 | the gradient name is the variable's name followed by the "@GRAD" suffix |
| VarNames.GradVarNameInjective | paddle/fluid/operators/fused_elemwise_activation_op.h:76-86 | two variables with the same gradient name are the same variable |
| IrNode.OpOrVar | paddle/fluid/framework/ir/node.h:29 | every node is exactly one of an operation and a variable (IsOp differs from IsVar) |
| IrNode.Var | paddle/fluid/framework/ir/node.h:65-68 | Var() succeeds exactly on a variable node, returning its VarDesc |
| IrNode.Op | paddle/fluid/framework/ir/node.h:70-73 | Op() succeeds exactly on an operation node, returning its OpDesc |
| IrNode.DescriptionGuards | paddle/fluid/framework/ir/node.h:39-73 | a node built from a VarDesc answers Var() with it and refuses Op(); one built from an OpDesc the other way round |
| IrNode.NoDupInputSize | paddle/fluid/framework/ir/node.h:57-63 | the loop's set size is the number of distinct input nodes |
| IrNode.MembersBound | paddle/fluid/framework/ir/node.h:57-63 | the distinct count is at most the number of inputs, and equals it exactly when no input is listed twice |
| IrNode.RepeatedInputCountedOnce | paddle/fluid/framework/ir/node.h:58-61 | inputs [a, b, a] with a != b count 2 |
| IrGraph.Arguments | paddle/fluid/framework/ir/op_fusion_pass.cc:277-278 | OpDesc::Input(name) succeeds exactly when the parameter exists, and returns its arguments |
| IrGraph.SetParam | paddle/fluid/framework/ir/op_fusion_pass.cc:262-279 | after SetInput/SetOutput the parameter holds exactly the new arguments and every other parameter is unchanged |
| IrGraph.GetAttr | paddle/fluid/framework/ir/fuse_elewise_add_act_pass.cc:50 | GetAttr succeeds exactly when the attribute exists, and returns it |
| IrGraph.GetIntAttr | paddle/fluid/framework/ir/op_fusion_pass.cc:202-203 | `boost::get<int>(GetAttr(name))` succeeds exactly when the attribute exists and is an int |
| IrGraph.Graph.CreateOpNode | paddle/fluid/framework/ir/op_fusion_pass.cc:158 | a fresh operation node named after the description's type, without edges, is added with its description; nothing else changes |
| IrGraph.Graph.ReleaseNode | paddle/fluid/framework/ir/op_fusion_pass.cc:74 | the node and its description leave the graph and nothing else changes |
| VarHandles.RemoveAllSpec | paddle/fluid/framework/details/var_handle.h:65-67 | the erase-remove idiom leaves no occurrence of the node, keeps every other entry as often as before and never lengthens the list |
| VarHandles.RemoveAllAppend | paddle/fluid/framework/details/var_handle.h:65-67 | the kept entries stay in their relative order |
| VarHandles.VarHandleBase.constructor | paddle/fluid/framework/details/var_handle.h:37-41 | a new handle has no generator and no pending operator, and wraps the node's edges |
| VarHandles.VarHandleBase.AddInput | paddle/fluid/framework/details/var_handle.h:48-52 | the op becomes the only generator, replacing any earlier one, and the node's inputs become exactly that node; nothing else changes |
| VarHandles.VarHandleBase.AddOutput | paddle/fluid/framework/details/var_handle.h:54-61 | an op already pending changes nothing; a null op is refused and changes nothing; another op becomes pending and its node is appended |
| VarHandles.VarHandleBase.RemoveOutput | paddle/fluid/framework/details/var_handle.h:63-68 | the op stops pending and every occurrence of its node leaves the outputs; the generator and inputs are unchanged |
| VarHandles.VarHandleBase.ClearGeneratedOp | paddle/fluid/framework/details/var_handle.h:70-73 | no generator and no node input is left; the pending ops and outputs are unchanged |
| VarHandles.AddOutputIsIdempotent | paddle/fluid/framework/details/var_handle.h:54-61 | adding the same op twice leaves the handle as adding it once |
| VarHandles.AddInputReplaces | paddle/fluid/framework/details/var_handle.h:48-52 | a second AddInput leaves only the second generator: the variable stays single-assignment |
| VarHandles.IsTheSameVarIgnoresVersion | paddle/fluid/framework/details/var_handle.h:113-125 | handles differing only in version or place are the same variable |
| VarHandles.IsTheSameVarEquivalence | paddle/fluid/framework/details/var_handle.h:122-125 | IsTheSameVar is reflexive, symmetric and transitive |
| SSAGraphs.NewVar | paddle/fluid/framework/details/ssa_graph_builder.cc:42 | the graph gains one handle at the end, with no generator and no reader; everything else is kept |
| SSAGraphs.NewOp | paddle/fluid/framework/details/multi_devices_graph_builder.cc:81 | the graph gains one operator of the given type at the end, without edges; everything else is kept |
| SSAGraphs.WithOutput | paddle/fluid/framework/details/ssa_graph_builder.cc:140 | op->AddOutput(var): the op lists the variable as its last output and becomes its generator; no other op or variable changes |
| SSAGraphs.WithInput | paddle/fluid/framework/details/ssa_graph_builder.cc:44 | op->AddInput(var): the op lists the variable as its last input and joins its pending ops; no other op or variable changes |
| SSAGraphs.EdgesKeepValid | paddle/fluid/framework/details/ssa_graph_builder.cc:42-45 | adding a variable or an edge keeps every handle the graph refers to in range |
| SSAGraphs.SSAGraph.constructor | paddle/fluid/framework/details/multi_devices_graph_builder.cc:61-64 | a new graph has no variable, no operator, no dependency variable and one empty variable table per place |
| SSAGraphs.SSAGraph.NewVarHandle | paddle/fluid/framework/details/ssa_graph_builder.cc:42 | the graph object changes exactly as NewVar says and returns the new handle |
| SSAGraphs.SSAGraph.NewOpHandle | paddle/fluid/framework/details/multi_devices_graph_builder.cc:81 | the graph object changes exactly as NewOp says and returns the new operator |
| SSAGraphs.SSAGraph.AddOpOutput | paddle/fluid/framework/details/ssa_graph_builder.cc:140 | the graph object changes exactly as WithOutput says |
| SSAGraphs.SSAGraph.AddOpInput | paddle/fluid/framework/details/ssa_graph_builder.cc:44 | the graph object changes exactly as WithInput says |
| SSAGraphBuilder.CreateOrGetLatestVarHandle | paddle/fluid/framework/details/ssa_graph_builder.cc:117-130 | the graph and the returned handle are LatestVersion's |
| SSAGraphBuilder.LatestVersionSpec | paddle/fluid/framework/details/ssa_graph_builder.cc:117-130 | the handle returned is the newest version of the name on the place; with versions present the graph is unchanged, and without them it gains exactly version 0, generatorless and unread; numbering and validity are kept |
| SSAGraphBuilder.LatestVersionStable | paddle/fluid/framework/details/ssa_graph_builder.cc:117-130 | a second call for the same name and place changes nothing and returns the same handle |
| SSAGraphBuilder.ValidAfterNewVersion | paddle/fluid/framework/details/ssa_graph_builder.cc:124-139 | appending a new version to a (place, name) list keeps every handle in range |
| SSAGraphBuilder.CreateOpOutput | paddle/fluid/framework/details/ssa_graph_builder.cc:132-141 | the graph becomes OpOutput's |
| SSAGraphBuilder.OpOutputSpec | paddle/fluid/framework/details/ssa_graph_builder.cc:132-141 | the new handle is version = previous list length, appended to the list, generated by the op and listed last among its outputs; earlier handles and the numbering (version = list position) are kept |
| SSAGraphBuilder.AddDummy | paddle/fluid/framework/details/ssa_graph_builder.cc:42-45 | one new dummy, generated by the reader and read by the writer alone, joins dep_vars_; handles and versions are kept |
| SSAGraphBuilder.AddDummyByEdges | paddle/fluid/framework/details/ssa_graph_builder.cc:42-45 | AddDummy equals what the edge primitives build: a new dummy, the reader's AddOutput, the writer's AddInput, the dep_vars_ insert |
| SSAGraphBuilder.AddDummiesDepVars | paddle/fluid/framework/details/ssa_graph_builder.cc:45 | dep_vars_ gains exactly the new dummies |
| SSAGraphBuilder.AddDummiesInputs | paddle/fluid/framework/details/ssa_graph_builder.cc:44 | every operator keeps its type and only gains, after its own inputs, the dummies of the hazards it writes in, in order |
| SSAGraphBuilder.AddDummiesOutputs | paddle/fluid/framework/details/ssa_graph_builder.cc:43 | every operator only gains, after its own outputs, the dummies of the hazards it reads in, in order |
| SSAGraphBuilder.HazardRepaired | paddle/fluid/framework/details/ssa_graph_builder.cc:28-46 | for each listed hazard the i-th new handle is a dummy in dep_vars_, generated by the reader, read by the writer alone, and listed among the reader's outputs and the writer's inputs |
| SSAGraphBuilder.NoSelfEdge | paddle/fluid/framework/details/ssa_graph_builder.cc:36-39 | no dummy links an operator to itself: a reader that generates the next version gets no dummy |
| SSAGraphBuilder.PolishKeepsVersions | paddle/fluid/framework/details/ssa_graph_builder.cc:25-27 | polishing keeps the version lists and their numbering, and a name with at most one version on a place has no hazard |
| SSAGraphBuilder.AddDepVar | paddle/fluid/framework/details/ssa_graph_builder.cc:42-45 | one dummy for one hazard: the graph object is AddDummies over the hazards listed so far plus this one |
| SSAGraphBuilder.PolishReader | paddle/fluid/framework/details/ssa_graph_builder.cc:35-46 | one reader of version k-1 gets a dummy edge to the writer of version k, unless it is that writer |
| SSAGraphBuilder.PolishPair | paddle/fluid/framework/details/ssa_graph_builder.cc:31-47 | every reader of version k-1 other than the writer of version k gets one dummy edge to it, and the pair is done |
| SSAGraphBuilder.PolishName | paddle/fluid/framework/details/ssa_graph_builder.cc:25-47 | every adjacent version pair of the name is done, a name with at most one version adds nothing, and no other name is touched |
| SSAGraphBuilder.PolishPlace | paddle/fluid/framework/details/ssa_graph_builder.cc:24-48 | every pair of every name on the place is done, and no other place is touched |
| SSAGraphBuilder.PolishGraphToSupportDataHazards | paddle/fluid/framework/details/ssa_graph_builder.cc:22-50 | the graph becomes AddDummies over a list of hazards that holds every write-after-read hazard of the graph exactly once and nothing else |
| SSAGraphBuilder.ListsComplete | paddle/fluid/framework/details/ssa_graph_builder.cc:23-48 | once every (place, name, k) pair is done the hazard list enumerates exactly the graph's hazards |
| SSAGraphBuilder.AddLeaf | paddle/fluid/framework/details/ssa_graph_builder.cc:148-150 | the op gains one new dummy output, generated by it, that joins dep_vars_; no other op changes |
| SSAGraphBuilder.AddOutputToLeafOps | paddle/fluid/framework/details/ssa_graph_builder.cc:143-152 | the graph becomes AddLeafOutputs over all operators |
| SSAGraphBuilder.LeafOutputsOps | paddle/fluid/framework/details/ssa_graph_builder.cc:144-151 | every op keeps its type and inputs; an op with outputs keeps them; a visited leaf gets exactly one output, a new handle |
| SSAGraphBuilder.LeafOutputVar | paddle/fluid/framework/details/ssa_graph_builder.cc:148-150 | every new handle is a dummy in dep_vars_, read by nothing, and the only output of the leaf that generates it |
| SSAGraphBuilder.LeafOutputGenerated | paddle/fluid/framework/details/ssa_graph_builder.cc:148-150 | a leaf's one new output is generated by that leaf, so leaves and new dummies match one to one |
| SSAGraphBuilder.EveryOpHasOutput | paddle/fluid/framework/details/ssa_graph_builder.cc:143-152 | after AddOutputToLeafOps every operator has at least one output |
| SSAGraphChecker.InsertPendingVars | paddle/fluid/framework/details/ssa_graph_checker.cc:30-47 | every registered handle, versioned or dependency, is pending, nothing else is, and exactly the generatorless ones among them are ready |
| SSAGraphChecker.InsertPendingVar | paddle/fluid/framework/details/ssa_graph_checker.cc:30-35 | the handle joins pending_vars, and ready_vars when nothing generates it |
| SSAGraphChecker.InitOps | paddle/fluid/framework/details/ssa_graph_checker.cc:49-55 | exactly the ops without inputs start ready; every other op starts pending with the number of its distinct inputs |
| SSAGraphChecker.BelowCard | paddle/fluid/framework/details/ssa_graph_checker.cc:49-55 | the op identifiers of a graph with n ops are n many |
| SSAGraphChecker.RunAllOps | paddle/fluid/framework/details/ssa_graph_checker.cc:57-69 | every ready op runs once and each of its outputs becomes ready; ready_vars only grows, and with no ready op it is unchanged; a schedule stays a schedule |
| SSAGraphChecker.ScheduleSnoc | paddle/fluid/framework/details/ssa_graph_checker.cc:57-69 | running one more op whose inputs are produced extends a schedule |
| SSAGraphChecker.ReleaseReader | paddle/fluid/framework/details/ssa_graph_checker.cc:80-85 | one waiting op's count is decremented (operator[] inserts a zero first) and it becomes ready exactly when the count reaches zero |
| SSAGraphChecker.ReleaseVar | paddle/fluid/framework/details/ssa_graph_checker.cc:78-86 | every waiting op of the ready handle is decremented once; only those ops can become ready, and the counts keep counting the distinct unprocessed inputs |
| SSAGraphChecker.ReleaseReadyVars | paddle/fluid/framework/details/ssa_graph_checker.cc:78-88 | the ready handles leave pending_vars and are processed; an op becomes ready exactly when its last input is processed |
| SSAGraphChecker.Round | paddle/fluid/framework/details/ssa_graph_checker.cc:71-89 | one round runs the ready ops; it stalls when no handle is ready, and then some generated handle's generator never ran and every op that has not run has an input that is unregistered or whose generator never ran; otherwise the state between rounds is kept and progress is made |
| SSAGraphChecker.IsValidGraph | paddle/fluid/framework/details/ssa_graph_checker.cc:24-91 | on a graph whose edge lists agree the rounds form a schedule (each op once, after the generators of its inputs), and the answer is true exactly when every generator of a registered handle ran; a false answer leaves every op that did not run with an unavailable input; and when every input is a registered handle, the answer is true exactly when some schedule runs every generator |
| SSAGraphChecker.InputDepth | paddle/fluid/framework/details/ssa_graph_checker.cc:130-139 | get_depth throws exactly when the generator has no depth yet (-1), and is 0 for a handle nothing generates |
| SSAGraphChecker.AssignDepths | paddle/fluid/framework/details/ssa_graph_checker.cc:146-159 | every op of the round gets a depth of at least the round number, no other op changes, and when all inputs come from earlier rounds each gets exactly the round number |
| SSAGraphChecker.DeepRound | paddle/fluid/framework/details/ssa_graph_checker.cc:141-181 | the round number grows when ops are ready, the round's ops get their depths, and the round of IsValidGraph follows |
| SSAGraphChecker.AnalysisDeepId | paddle/fluid/framework/details/ssa_graph_checker.cc:93-193 | on a graph whose edge lists agree the rounds form a schedule; the analysis succeeds exactly when every generator runs, every op that runs gets a depth of at least 1, deeper than the generator of each of its inputs, and ops that never run keep their depth; when every input is a registered handle, it succeeds exactly when some schedule runs every generator |
| SSAGraphChecker.ReadyGeneratorsRun | paddle/fluid/framework/details/ssa_graph_checker.cc:71-86 | between rounds the generators of the inputs of the ready ops have run |
| SSAGraphChecker.LayeredStep | paddle/fluid/framework/details/ssa_graph_checker.cc:146-158 | ops of a new round whose inputs come from earlier rounds keep the depths layered |
| SSAGraphChecker.LayeredRound | paddle/fluid/framework/details/ssa_graph_checker.cc:141-181 | after a round that ran its ready ops at the new depth, every op that has run is deeper than the generators of its inputs |
| SSAGraphChecker.StalledStuck | paddle/fluid/framework/details/ssa_graph_checker.cc:71-77 | when a round readies no handle, every op that has not run waits on an input that is unregistered or whose generator has not run |
| SSAGraphChecker.StuckCoversSchedule | paddle/fluid/framework/details/ssa_graph_checker.cc:71-89 | when every input is registered, a stalled simulation has already run every op of any schedule |
| SSAGraphChecker.NoFullSchedule | paddle/fluid/framework/details/ssa_graph_checker.cc:71-77 | a stall that missed a generator means no schedule runs every generator, so a false answer is not premature |
| AddDepthInOpNode.Preceding | paddle/fluid/framework/ir/multi_devices_graph_pass/add_depth_in_op_node_pass.cc:37 | the operators an op waits on are exactly those that list it as a pending op |
| AddDepthInOpNode.RemainingDrop | paddle/fluid/framework/ir/multi_devices_graph_pass/add_depth_in_op_node_pass.cc:66 | finishing one more operator lowers an op's count by one exactly when the op waits on it and it was not finished before |
| AddDepthInOpNode.WaitingZero | paddle/fluid/framework/ir/multi_devices_graph_pass/add_depth_in_op_node_pass.cc:66-71 | an op's count is zero exactly when every operator it waits on is finished |
| AddDepthInOpNode.PrecedingDepNum | paddle/fluid/framework/ir/multi_devices_graph_pass/add_depth_in_op_node_pass.cc:37-38 | GetPrecedingDepNum maps every operator, and nothing else, to the number of operators it waits on |
| AddDepthInOpNode.LayerBelow | paddle/fluid/framework/ir/multi_devices_graph_pass/add_depth_in_op_node_pass.cc:53-79 | a layering is never deeper than another layering at any operator |
| AddDepthInOpNode.LayeredUnique | paddle/fluid/framework/ir/multi_devices_graph_pass/add_depth_in_op_node_pass.cc:53-79 | there is at most one layering, so the depths the pass assigns are determined by the graph |
| AddDepthInOpNode.Unstuck | paddle/fluid/framework/ir/multi_devices_graph_pass/add_depth_in_op_node_pass.cc:74-78 | in a layered graph every set of operators has a member that waits on none of the others |
| AddDepthInOpNode.NoLayeringWhenStuck | paddle/fluid/framework/ir/multi_devices_graph_pass/add_depth_in_op_node_pass.cc:81-82 | a set of operators each waiting on another of the set rules out every layering |
| AddDepthInOpNode.SeedReady | paddle/fluid/framework/ir/multi_devices_graph_pass/add_depth_in_op_node_pass.cc:42-51 | every operator with zero preceding dependencies gets depth 0, is queued, visited and erased from op_deps, and no other is touched |
| AddDepthInOpNode.Release | paddle/fluid/framework/ir/multi_devices_graph_pass/add_depth_in_op_node_pass.cc:60-72 | every not yet visited pending op of the current op has its count lowered; one that reaches zero gets this round's depth, is visited, erased from op_deps and queued; visited ops keep their depth |
| AddDepthInOpNode.PopFront | paddle/fluid/framework/ir/multi_devices_graph_pass/add_depth_in_op_node_pass.cc:56-58 | the front of the queue is visited, not finished, and placed one level below the round |
| AddDepthInOpNode.Round | paddle/fluid/framework/ir/multi_devices_graph_pass/add_depth_in_op_node_pass.cc:53-79 | one round pops the whole queue; the ops that become ready are exactly the next queue, they leave op_deps, and op_deps only shrinks |
| AddDepthInOpNode.Blocked | paddle/fluid/framework/ir/multi_devices_graph_pass/add_depth_in_op_node_pass.cc:74-78 | when the next queue is empty the ops left in op_deps each wait on another of them |
| AddDepthInOpNode.AllBelow | paddle/fluid/framework/ir/multi_devices_graph_pass/add_depth_in_op_node_pass.cc:81-82 | with op_deps empty the visited ops are exactly the graph's ops |
| AddDepthInOpNode.AllVisited | paddle/fluid/framework/ir/multi_devices_graph_pass/add_depth_in_op_node_pass.cc:81-82 | with op_deps empty the depths are a layering, and depth 0 goes exactly to the ops that wait on nothing |
| AddDepthInOpNode.Outcome | paddle/fluid/framework/ir/multi_devices_graph_pass/add_depth_in_op_node_pass.cc:74-82 | when the queue runs dry either every op is visited and the depths are a layering, or no layering exists |
| AddDepthInOpNode.ApplyImpl | paddle/fluid/framework/ir/multi_devices_graph_pass/add_depth_in_op_node_pass.cc:31-94 | the pass succeeds exactly when the graph can be layered; every op then gets depth 0 when it waits on nothing and otherwise one more than the deepest op it waits on; otherwise it fails with "There are unvisited ops" |
| MultiDevGraphBuilder.NewOpKeeps | paddle/fluid/framework/details/multi_devices_graph_builder.cc:81 | appending an operator handle keeps an intermediate graph well-formed |
| MultiDevGraphBuilder.ReadKeeps | paddle/fluid/framework/details/multi_devices_graph_builder.cc:88-92 | a read hands out a handle that exists, appends it to the operator's inputs, and keeps the graph well-formed |
| MultiDevGraphBuilder.OutputKeeps | paddle/fluid/framework/details/multi_devices_graph_builder.cc:95-97 | CreateOpOutput keeps the graph well-formed: every version after the first still has a generator |
| MultiDevGraphBuilder.ReadOne | paddle/fluid/framework/details/multi_devices_graph_builder.cc:89-91 | a read keeps the number of operators and places |
| MultiDevGraphBuilder.ReadInputs | paddle/fluid/framework/details/multi_devices_graph_builder.cc:86-92 | the inputs loop keeps the number of operators and places |
| MultiDevGraphBuilder.WriteOutputs | paddle/fluid/framework/details/multi_devices_graph_builder.cc:93-97 | the outputs loop keeps the number of operators and places |
| MultiDevGraphBuilder.Compute | paddle/fluid/framework/details/multi_devices_graph_builder.cc:81-97 | one computation handle adds exactly one operator and keeps the places |
| MultiDevGraphBuilder.ScaleLoss | paddle/fluid/framework/details/multi_devices_graph_builder.cc:109-119 | one ScaleLossGrad handle adds exactly one operator and keeps the places |
| MultiDevGraphBuilder.PlaceStep | paddle/fluid/framework/details/multi_devices_graph_builder.cc:78-122 | the body of the loop over places keeps the number of places |
| MultiDevGraphBuilder.Places | paddle/fluid/framework/details/multi_devices_graph_builder.cc:77-123 | the trace of the loop over places starts at the given graph and has one more graph per place, all with the same places |
| MultiDevGraphBuilder.OnPlaces | paddle/fluid/framework/details/multi_devices_graph_builder.cc:77-123 | the loop over places keeps the number of places |
| MultiDevGraphBuilder.OnPlacesStep | paddle/fluid/framework/details/multi_devices_graph_builder.cc:77-123 | one more place applies its loop body to the graph the earlier places left |
| MultiDevGraphBuilder.CollectOn | paddle/fluid/framework/details/multi_devices_graph_builder.cc:145-165 | one collective on a place keeps the number of operators and places |
| MultiDevGraphBuilder.Gather | paddle/fluid/framework/details/multi_devices_graph_builder.cc:145-165 | the gather loop adds exactly one AllGather handle per place, with or without the gradient |
| MultiDevGraphBuilder.GatherOn | paddle/fluid/framework/details/multi_devices_graph_builder.cc:149-151 | one AllGather handle is one more operator |
| MultiDevGraphBuilder.Reduce | paddle/fluid/framework/details/multi_devices_graph_builder.cc:172-188 | the reduce loop adds no operator: it only gives the AllReduce handle edges |
| MultiDevGraphBuilder.Broadcast | paddle/fluid/framework/details/multi_devices_graph_builder.cc:143-188 | broadcasting one gradient adds one operator per place plus one AllReduce handle |
| MultiDevGraphBuilder.Grads | paddle/fluid/framework/details/multi_devices_graph_builder.cc:129-217 | the outputs loop keeps the places and the forwarding flag |
| MultiDevGraphBuilder.Step | paddle/fluid/framework/details/multi_devices_graph_builder.cc:67-218 | one program operator keeps the number of places |
| MultiDevGraphBuilder.Steps | paddle/fluid/framework/details/multi_devices_graph_builder.cc:59-218 | the loop over the program keeps one variable table per place |
| MultiDevGraphBuilder.ReadInputsKeeps | paddle/fluid/framework/details/multi_devices_graph_builder.cc:88-92 | the inputs loop keeps the graph well-formed |
| MultiDevGraphBuilder.WriteOutputsKeeps | paddle/fluid/framework/details/multi_devices_graph_builder.cc:95-97 | the outputs loop keeps the graph well-formed |
| MultiDevGraphBuilder.ComputeKeeps | paddle/fluid/framework/details/multi_devices_graph_builder.cc:81-97 | one computation handle keeps the graph well-formed |
| MultiDevGraphBuilder.ScaleLossKeeps | paddle/fluid/framework/details/multi_devices_graph_builder.cc:109-119 | one ScaleLossGrad handle keeps the graph well-formed |
| MultiDevGraphBuilder.PlaceStepKeeps | paddle/fluid/framework/details/multi_devices_graph_builder.cc:78-122 | the body of the loop over places keeps the graph well-formed |
| MultiDevGraphBuilder.CollectOnKeeps | paddle/fluid/framework/details/multi_devices_graph_builder.cc:147-164 | a collective on one place keeps the graph well-formed |
| MultiDevGraphBuilder.LaterWrittenHasWriters | paddle/fluid/framework/details/multi_devices_graph_builder.cc:224 | in a well-formed graph every version after the first has a writer, which the hazard pass needs |
| MultiDevGraphBuilder.ReadOneSpec | paddle/fluid/framework/details/multi_devices_graph_builder.cc:89-91 | a read hands out the newest version of the name, creating version 0 only when there is none, appends it to the operator's inputs, and changes no other operator and no handle's kind or generator |
| MultiDevGraphBuilder.ReadOneFrame | paddle/fluid/framework/details/multi_devices_graph_builder.cc:89-91 | a read changes no operator but the reader, whose type and outputs it keeps, and no existing handle's kind or generator |
| MultiDevGraphBuilder.ReadInputsFrame | paddle/fluid/framework/details/multi_devices_graph_builder.cc:86-92 | the reads of a computation keep its type and outputs and change no other operator and no existing handle's kind or generator |
| MultiDevGraphBuilder.ReadInputsShape | paddle/fluid/framework/details/multi_devices_graph_builder.cc:86-92 | the reads of a computation append exactly one input per name; no other operator and no existing handle changes |
| MultiDevGraphBuilder.ReadInputsVersions | paddle/fluid/framework/details/multi_devices_graph_builder.cc:86-92 | only names without a version gain one, version 0; a list with versions keeps them |
| MultiDevGraphBuilder.ReadStep | paddle/fluid/framework/details/multi_devices_graph_builder.cc:88-92 | one more read appends the version the lookup hands out on the graph before it |
| MultiDevGraphBuilder.ReadInputLatest | paddle/fluid/framework/details/multi_devices_graph_builder.cc:86-92 | input j of the computation is the latest version of the j-th name; earlier reads do not change which one |
| MultiDevGraphBuilder.WriteOutputsShape | paddle/fluid/framework/details/multi_devices_graph_builder.cc:93-97 | the writes append one new handle per output name as outputs of the operator; no other operator, existing handle or place's table changes |
| MultiDevGraphBuilder.WriteOutputsCount | paddle/fluid/framework/details/multi_devices_graph_builder.cc:93-97 | after the writes a name has one more version per time it is written |
| MultiDevGraphBuilder.OutputVersions | paddle/fluid/framework/details/multi_devices_graph_builder.cc:96 | one CreateOpOutput adds a version to its own name's list and to no other list |
| MultiDevGraphBuilder.WriteOutputVar | paddle/fluid/framework/details/multi_devices_graph_builder.cc:93-97 | output j is a fresh handle of the j-th name, generated by the operator, whose version counts the existing versions and the earlier writes of that name |
| MultiDevGraphBuilder.ComputeSpec | paddle/fluid/framework/details/multi_devices_graph_builder.cc:81-97 | the computation handle is the next operator, of the program operator's type; output j is a new handle of the j-th output name generated by it; nothing that existed changes |
| MultiDevGraphBuilder.ComputeInput | paddle/fluid/framework/details/multi_devices_graph_builder.cc:86-92 | input j of the computation handle is the latest version of the j-th input name (version 0 if the name had none) |
| MultiDevGraphBuilder.ComputeOutput | paddle/fluid/framework/details/multi_devices_graph_builder.cc:93-97 | output j's version follows every version before it: the existing ones, one created by a read of the name, and the earlier outputs of that name |
| MultiDevGraphBuilder.ScaleLossSpec | paddle/fluid/framework/details/multi_devices_graph_builder.cc:109-119 | the ScaleLossGrad handle is the next operator, has no input, and its one output is a new version of the loss gradient on the place, generated by it |
| MultiDevGraphBuilder.ExtendsTrans | paddle/fluid/framework/details/multi_devices_graph_builder.cc:77-123 | only adding to a graph is transitive |
| MultiDevGraphBuilder.ExtendsKeeps | paddle/fluid/framework/details/multi_devices_graph_builder.cc:77-123 | what a computation or ScaleLossGrad handle is stays true in every graph that only adds to it |
| MultiDevGraphBuilder.ComputeReplica | paddle/fluid/framework/details/multi_devices_graph_builder.cc:81-97 | the computation handle is a replica of the program operator on the place |
| MultiDevGraphBuilder.OnPlacesCount | paddle/fluid/framework/details/multi_devices_graph_builder.cc:77-123 | the loop over places adds one operator per place, two when the loss gradient is scaled |
| MultiDevGraphBuilder.ScaleLossAfter | paddle/fluid/framework/details/multi_devices_graph_builder.cc:109-119 | a ScaleLossGrad handle appended after a computation keeps what the computation is |
| MultiDevGraphBuilder.PlaceAppended | paddle/fluid/framework/details/multi_devices_graph_builder.cc:78-122 | one place appends its computation and, when scaled, its ScaleLossGrad handle right after it |
| MultiDevGraphBuilder.TraceSnoc | paddle/fluid/framework/details/multi_devices_graph_builder.cc:77-123 | a trace of the loop stays one when the next graph has the facts of its place |
| MultiDevGraphBuilder.OnPlacesTrace | paddle/fluid/framework/details/multi_devices_graph_builder.cc:77-123 | every step of the loop over places appends exactly the handles of its place |
| MultiDevGraphBuilder.TraceExtends | paddle/fluid/framework/details/multi_devices_graph_builder.cc:77-123 | a later graph of the loop only adds to an earlier one |
| MultiDevGraphBuilder.TraceCount | paddle/fluid/framework/details/multi_devices_graph_builder.cc:77-123 | after k places the graph has k (or 2k when scaled) more operators |
| MultiDevGraphBuilder.OnPlacesExtends | paddle/fluid/framework/details/multi_devices_graph_builder.cc:77-123 | the loop over places only adds to the graph |
| MultiDevGraphBuilder.TraceReplica | paddle/fluid/framework/details/multi_devices_graph_builder.cc:77-123 | the handles of place i stay what they are to the end of the loop |
| MultiDevGraphBuilder.OnPlacesReplica | paddle/fluid/framework/details/multi_devices_graph_builder.cc:77-123 | exactly one computation per place in place order, at the next operator index, each followed by its ScaleLossGrad handle when the loss gradient is scaled |
| MultiDevGraphBuilder.CollectOnSpec | paddle/fluid/framework/details/multi_devices_graph_builder.cc:147-164 | a place without the gradient is skipped; otherwise the collective reads the newest version and writes the next one, which becomes the newest |
| MultiDevGraphBuilder.GradsSpec | paddle/fluid/framework/details/multi_devices_graph_builder.cc:135-139 | the outputs loop marks exactly the parameter gradients among the outputs, and adds nothing when every one of them was broadcast before |
| MultiDevGraphBuilder.GradsOnce | paddle/fluid/framework/details/multi_devices_graph_builder.cc:131-139 | each gradient is broadcast at most once: a second pass over the same outputs changes nothing |
| MultiDevGraphBuilder.StepsForwarding | paddle/fluid/framework/details/multi_devices_graph_builder.cc:66-127 | the builder is forwarding exactly until an operator whose only output is the loss has run on at least one place; nothing is broadcast while forwarding, and only parameter gradients ever are |
| MultiDevGraphBuilder.AddInputs | paddle/fluid/framework/details/multi_devices_graph_builder.cc:86-92 | the graph object becomes ReadInputs of the old graph and stays well-formed |
| MultiDevGraphBuilder.AddOutputs | paddle/fluid/framework/details/multi_devices_graph_builder.cc:93-97 | the graph object becomes WriteOutputs of the old graph and stays well-formed |
| MultiDevGraphBuilder.AddCollective | paddle/fluid/framework/details/multi_devices_graph_builder.cc:145-165 | the graph object becomes CollectOn of the old graph and stays well-formed |
| MultiDevGraphBuilder.AddGathers | paddle/fluid/framework/details/multi_devices_graph_builder.cc:145-165 | the graph object becomes Gather of the old graph over every place |
| MultiDevGraphBuilder.AddAllReduce | paddle/fluid/framework/details/multi_devices_graph_builder.cc:168-188 | the graph object gains the AllReduce handle and its edges on every place that has the gradient |
| MultiDevGraphBuilder.AddBroadcast | paddle/fluid/framework/details/multi_devices_graph_builder.cc:143-188 | the graph object becomes Broadcast of the old graph |
| MultiDevGraphBuilder.AddOnPlaces | paddle/fluid/framework/details/multi_devices_graph_builder.cc:77-123 | the graph object becomes OnPlaces of the old graph, and change_forward holds exactly when the op produces the loss while forwarding on at least one place |
| MultiDevGraphBuilder.AddOnPlace | paddle/fluid/framework/details/multi_devices_graph_builder.cc:78-122 | the graph object becomes PlaceStep of the old graph |
| MultiDevGraphBuilder.AddGrads | paddle/fluid/framework/details/multi_devices_graph_builder.cc:129-217 | the graph and the broadcast set become Grads of the old state |
| MultiDevGraphBuilder.AddGrad | paddle/fluid/framework/details/multi_devices_graph_builder.cc:135-215 | one output: a parameter gradient not broadcast yet is marked and broadcast, anything else changes nothing |
| MultiDevGraphBuilder.AddProgramOp | paddle/fluid/framework/details/multi_devices_graph_builder.cc:67-218 | one loop iteration takes the state to Step of the old state |
| MultiDevGraphBuilder.MultiDevSSAGraphBuilder.constructor | paddle/fluid/framework/details/multi_devices_graph_builder.cc:46-57 | the gradient names are exactly GradVarName of the parameters |
| MultiDevGraphBuilder.MultiDevSSAGraphBuilder.Build | paddle/fluid/framework/details/multi_devices_graph_builder.cc:59-238 | the graph returned is the program's Steps graph, polished with one dummy per write-after-read hazard (listed exactly once each) and with an output on every leaf operator |
| MultiDevGraphOrder.NewOpOrdered | paddle/fluid/framework/details/multi_devices_graph_builder.cc:81 | a new operator handle keeps every input reading from an earlier operator and every hazard's reader before its writer |
| MultiDevGraphOrder.LatestOrdered | paddle/fluid/framework/details/ssa_graph_builder.cc:117-130 | CreateOrGetLatestVarHandle keeps the order: at most it adds a version 0 generated by nothing |
| MultiDevGraphOrder.ReadOrdered | paddle/fluid/framework/details/multi_devices_graph_builder.cc:88-92 | reading the latest version keeps the order: that version comes from an earlier operator, and no hazard gains a reader |
| MultiDevGraphOrder.OutputOrdered | paddle/fluid/framework/details/multi_devices_graph_builder.cc:95-97 | a new output version is generated by the newest operator, created after every reader of the previous version |
| MultiDevGraphOrder.ReadInputsOrdered | paddle/fluid/framework/details/multi_devices_graph_builder.cc:86-92 | the inputs loop of the newest operator keeps the graph ordered |
| MultiDevGraphOrder.WriteOutputsOrdered | paddle/fluid/framework/details/multi_devices_graph_builder.cc:93-97 | the outputs loop of the newest operator keeps the graph ordered |
| MultiDevGraphOrder.ComputeOrdered | paddle/fluid/framework/details/multi_devices_graph_builder.cc:81-97 | one computation handle keeps the graph ordered |
| MultiDevGraphOrder.PlaceStepOrdered | paddle/fluid/framework/details/multi_devices_graph_builder.cc:78-122 | the body of the loop over places keeps the graph ordered |
| MultiDevGraphOrder.OnPlacesOrdered | paddle/fluid/framework/details/multi_devices_graph_builder.cc:77-123 | the loop over places keeps the graph well-formed and ordered |
| MultiDevGraphOrder.CollectOnOrdered | paddle/fluid/framework/details/multi_devices_graph_builder.cc:172-188 | one place of a collective keeps the graph well-formed and ordered, and the handle has written only on the places up to this one |
| MultiDevGraphOrder.GatherOne | paddle/fluid/framework/details/multi_devices_graph_builder.cc:149-164 | one AllGather handle keeps the graph well-formed and ordered |
| MultiDevGraphOrder.GatherOrdered | paddle/fluid/framework/details/multi_devices_graph_builder.cc:145-165 | the gather loop keeps the graph well-formed and ordered |
| MultiDevGraphOrder.ReduceStep | paddle/fluid/framework/details/multi_devices_graph_builder.cc:172-188 | one more place of the AllReduce handle keeps the graph well-formed and ordered |
| MultiDevGraphOrder.ReduceOrdered | paddle/fluid/framework/details/multi_devices_graph_builder.cc:168-188 | the reduce loop keeps the graph well-formed and ordered |
| MultiDevGraphOrder.BroadcastOrdered | paddle/fluid/framework/details/multi_devices_graph_builder.cc:143-188 | broadcasting one gradient keeps the graph well-formed and ordered |
| MultiDevGraphOrder.GradsOrdered | paddle/fluid/framework/details/multi_devices_graph_builder.cc:129-217 | the outputs loop in backward mode keeps the graph well-formed and ordered |
| MultiDevGraphOrder.StepOrdered | paddle/fluid/framework/details/multi_devices_graph_builder.cc:67-218 | one program operator keeps the graph well-formed and ordered |
| MultiDevGraphOrder.StepsOrdered | paddle/fluid/framework/details/multi_devices_graph_builder.cc:67-218 | every graph the loop over the program produces is well-formed, reads only from earlier operators, and has every hazard's reader before its writer |
| MultiDevGraphOrder.Creation | paddle/fluid/framework/details/multi_devices_graph_builder.cc:81 | creation order lists the operators 0 to n-1 in turn |
| MultiDevGraphOrder.DummyWriter | paddle/fluid/framework/details/ssa_graph_builder.cc:42-44 | a dummy an operator reads was made for a hazard whose writer is that operator |
| MultiDevGraphOrder.CreationPrefix | paddle/fluid/framework/details/multi_devices_graph_builder.cc:81 | the operators created before operator i are the first i of creation order |
| MultiDevGraphOrder.PrefixAt | paddle/fluid/framework/details/ssa_graph_builder.cc:42 | a handle keeps its value in every later handle list |
| MultiDevGraphOrder.PolishedDummy | paddle/fluid/framework/details/ssa_graph_builder.cc:42-44 | the dummy an operator waits on is generated by the hazard's reader, created before that operator |
| MultiDevGraphOrder.PolishedInput | paddle/fluid/framework/details/multi_devices_graph_builder.cc:224-229 | every input of an operator of the finished graph is generated by nothing or by an earlier operator |
| MultiDevGraphOrder.PolishedGenerator | paddle/fluid/framework/details/multi_devices_graph_builder.cc:224-229 | every generator in the finished graph is one of its operators |
| MultiDevGraphOrder.CreationSchedule | paddle/fluid/framework/details/ssa_graph_checker.cc:71-89 | creation order is a schedule of a graph whose operators read only handles generated by nothing or by an earlier operator |
| MultiDevGraphOrder.CreationGenerates | paddle/fluid/framework/details/ssa_graph_checker.cc:71-89 | creation order runs the generator of every handle |
| MultiDevGraphOrder.PolishedReadsEarlier | paddle/fluid/framework/details/ssa_graph_builder.cc:22-50 | after polishing, every operator still reads only handles generated by nothing or by an earlier operator |
| MultiDevGraphOrder.PolishedGeneratorsInRange | paddle/fluid/framework/details/ssa_graph_builder.cc:22-50 | after polishing, every generator is one of the graph's operators |
| MultiDevGraphOrder.PolishedScheduled | paddle/fluid/framework/details/multi_devices_graph_builder.cc:224-229 | after polishing and the leaf outputs, creation order is a schedule that runs every generator |
| MultiDevGraphOrder.BuiltScheduled | paddle/fluid/framework/details/multi_devices_graph_builder.cc:59-238 | for the graph Build returns, after the data-hazard pass and the leaf outputs are added, creation order is a schedule in the validity check's sense (every operator after the generators of its inputs) that runs the generator of every variable |
| ThreadedExecutor.FirstDeviceSpec | paddle/fluid/framework/details/threaded_ssa_graph_executor.cc:116-130 | there is no device exactly when every handle is a dummy; otherwise the device is that of the first VarHandle, every handle before it being a dummy |
| ThreadedExecutor.OpHandlesIn | paddle/fluid/framework/details/threaded_ssa_graph_executor.cc:116-130 | the inputs and outputs of an operator of a valid graph exist |
| ThreadedExecutor.DeviceOf | paddle/fluid/framework/details/threaded_ssa_graph_executor.cc:114-134 | a device id that passes the enforce is one of the dev_cnt devices |
| ThreadedExecutor.GetDeviceId | paddle/fluid/framework/details/threaded_ssa_graph_executor.cc:114-134 | the two loops stop at the first VarHandle and give DeviceOf's answer, the enforce included |
| ThreadedExecutor.DeviceFromFirstOutput | paddle/fluid/framework/details/threaded_ssa_graph_executor.cc:116-122 | an operator whose first output is a VarHandle on a device below dev_cnt runs there, whatever its inputs |
| ThreadedExecutor.DeviceFromInputs | paddle/fluid/framework/details/threaded_ssa_graph_executor.cc:123-132 | an operator with only dummy outputs runs on the device of its first VarHandle input, or fails the enforce |
| ThreadedExecutor.Latests | paddle/fluid/framework/details/threaded_ssa_graph_executor.cc:231-236 | at most one newest version per place |
| ThreadedExecutor.FetchedVarsKeys | paddle/fluid/framework/details/threaded_ssa_graph_executor.cc:228-237 | a name gets an entry in fetched_vars exactly when it is fetched and found on some place |
| ThreadedExecutor.FetchedVarsSpec | paddle/fluid/framework/details/threaded_ssa_graph_executor.cc:228-237 | a fetched name's entry repeats the newest versions on every place once per occurrence of the name among the fetched names |
| ThreadedExecutor.ExtendAt | paddle/fluid/framework/details/threaded_ssa_graph_executor.cc:234 | the entry of one name after the pushes for one place: created on the first push, grown on later ones, others unchanged |
| ThreadedExecutor.OccurrencesAbsent | paddle/fluid/framework/details/threaded_ssa_graph_executor.cc:230 | a name outside the fetched list occurs zero times in it |
| ThreadedExecutor.LatestsSpec | paddle/fluid/framework/details/threaded_ssa_graph_executor.cc:231-236 | the newest versions collected exist, and there are none exactly when no place has a version of the name |
| ThreadedExecutor.FetchedVarsIn | paddle/fluid/framework/details/threaded_ssa_graph_executor.cc:228-237 | every handle fetched_vars holds exists in the graph |
| ThreadedExecutor.AddInputs | paddle/fluid/framework/details/threaded_ssa_graph_executor.cc:249-251 | adding inputs changes neither the numbers of operators and handles nor the version tables |
| ThreadedExecutor.AddInputsSpec | paddle/fluid/framework/details/threaded_ssa_graph_executor.cc:249-251 | the operator reads the handles after what it read before, each of them gains it as a pending operator, and nothing else changes |
| ThreadedExecutor.FetchOp | paddle/fluid/framework/details/threaded_ssa_graph_executor.cc:242-255 | one fetch operator is one more operator and one more handle; the version tables are kept |
| ThreadedExecutor.FetchOpSpec | paddle/fluid/framework/details/threaded_ssa_graph_executor.cc:242-255 | the fetch operator is appended with the fetched handles as inputs and a new dummy as only output, which it generates and nothing reads; the fetched handles gain it as a pending operator |
| ThreadedExecutor.FetchOps | paddle/fluid/framework/details/threaded_ssa_graph_executor.cc:239-256 | on success there is one fetch operator and one dummy per fetched name |
| ThreadedExecutor.FetchOpsOk | paddle/fluid/framework/details/threaded_ssa_graph_executor.cc:241 | the fetch operators are built exactly when every fetched name has an entry |
| ThreadedExecutor.FetchOpsStops | paddle/fluid/framework/details/threaded_ssa_graph_executor.cc:241 | the first name without an entry is the one the lookup throws for |
| ThreadedExecutor.FetchOpsPrefix | paddle/fluid/framework/details/threaded_ssa_graph_executor.cc:239-256 | the graph's own operators are unchanged |
| ThreadedExecutor.FetchOpsHandle | paddle/fluid/framework/details/threaded_ssa_graph_executor.cc:239-256 | the i-th fetch operator reads the entry of the i-th name and writes the i-th new dummy, which it generates and nothing reads |
| ThreadedExecutor.FetchOpsReaders | paddle/fluid/framework/details/threaded_ssa_graph_executor.cc:249-251 | the graph's handles keep kind and generator, and gain as pending operators exactly the fetch operators that read them |
| ThreadedExecutor.ExtendSnoc | paddle/fluid/framework/details/threaded_ssa_graph_executor.cc:234 | one push appends one handle to the name's entry, creating it first |
| ThreadedExecutor.FetchOpValid | paddle/fluid/framework/details/threaded_ssa_graph_executor.cc:242-255 | one fetch operator keeps every handle of the graph in range |
| ThreadedExecutor.FetchOpsValid | paddle/fluid/framework/details/threaded_ssa_graph_executor.cc:239-256 | the fetch operators keep every handle of the graph in range |
| ThreadedExecutor.FetchedNamesFound | paddle/fluid/framework/details/threaded_ssa_graph_executor.cc:228-241 | a fetched name has an entry exactly when some place has a version of it |
| ThreadedExecutor.WithFetchOps | paddle/fluid/framework/details/threaded_ssa_graph_executor.cc:223-257 | the graph with fetch operators exists exactly when every fetched name is found; it is valid and keeps the graph's operators as a prefix |
| ThreadedExecutor.CollectLatest | paddle/fluid/framework/details/threaded_ssa_graph_executor.cc:231-236 | the loop over places pushes the newest version on each place that has the name |
| ThreadedExecutor.AddFetchOp | paddle/fluid/framework/details/threaded_ssa_graph_executor.cc:242-255 | one iteration of the second loop builds FetchOp |
| ThreadedExecutor.InsertFetchOps | paddle/fluid/framework/details/threaded_ssa_graph_executor.cc:223-257 | the result is WithFetchOps: the graph with the fetch operators, or the lookup's error |
| ThreadedExecutor.DistinctNoDuplicates | paddle/fluid/framework/details/threaded_ssa_graph_executor.cc:136-147 | the pairwise and the recursive no-duplicates properties agree |
| ThreadedExecutor.DistinctSnoc | paddle/fluid/framework/details/threaded_ssa_graph_executor.cc:139 | appending an absent operator keeps a queue without repeats |
| ThreadedExecutor.DistinctConcat | paddle/fluid/framework/details/threaded_ssa_graph_executor.cc:83 | concatenating disjoint lists without repeats gives a list without repeats |
| ThreadedExecutor.DistinctTail | paddle/fluid/framework/details/threaded_ssa_graph_executor.cc:54-55 | popping the front keeps the rest without repeats and the front is not in it |
| ThreadedExecutor.Devices | paddle/fluid/framework/details/threaded_ssa_graph_executor.cc:136-147 | every operator has the device get_device_id gives it |
| ThreadedExecutor.PlaceReady | paddle/fluid/framework/details/threaded_ssa_graph_executor.cc:138-139 | an operator without inputs is pushed on its device's ready queue with no pending count |
| ThreadedExecutor.PlacePending | paddle/fluid/framework/details/threaded_ssa_graph_executor.cc:140-146 | an operator with inputs, and every fetch operator, gets its NoDupInputSize as pending count on its device |
| ThreadedExecutor.InitQueues | paddle/fluid/framework/details/threaded_ssa_graph_executor.cc:136-147 | the first two loops fail exactly when some operator has no valid device; otherwise every operator is on its device's ready queue or has its count there |
| ThreadedExecutor.ReadByAdd | paddle/fluid/framework/details/threaded_ssa_graph_executor.cc:150-176 | visiting one more handle adds one decrement to each of its pending operators |
| ThreadedExecutor.SeedReader | paddle/fluid/framework/details/threaded_ssa_graph_executor.cc:155-159 | one decrement: the operator's count on its device goes down by one, and it is pushed ready when the count reaches zero |
| ThreadedExecutor.SeedingDecrement | paddle/fluid/framework/details/threaded_ssa_graph_executor.cc:156-158 | one decrement keeps the seeding invariant |
| ThreadedExecutor.PlacedDecrement | paddle/fluid/framework/details/threaded_ssa_graph_executor.cc:156-158 | one decrement keeps every queue and count on the device of its operator |
| ThreadedExecutor.SeedNext | paddle/fluid/framework/details/threaded_ssa_graph_executor.cc:154-160 | one pending operator of a handle is decremented and leaves the to-do set |
| ThreadedExecutor.SeedingClose | paddle/fluid/framework/details/threaded_ssa_graph_executor.cc:154-160 | once all its pending operators are decremented, the handle counts as visited |
| ThreadedExecutor.SeedVar | paddle/fluid/framework/details/threaded_ssa_graph_executor.cc:153-160 | the decrements for one generatorless handle, one per pending operator |
| ThreadedExecutor.Seed | paddle/fluid/framework/details/threaded_ssa_graph_executor.cc:105-176 | seeding fails exactly when some operator has no valid device; otherwise every generatorless handle has been visited |
| ThreadedExecutor.ReadByInputs | paddle/fluid/framework/details/threaded_ssa_graph_executor.cc:150-176 | the visited handles an operator waits on are exactly its inputs among them |
| ThreadedExecutor.SeedMeaning | paddle/fluid/framework/details/threaded_ssa_graph_executor.cc:136-176 | after seeding an operator with inputs, and every fetch operator, waits on exactly its distinct inputs that nothing generates; it is ready exactly when all its inputs are such |
| ThreadedExecutor.CoveredCount | paddle/fluid/framework/details/threaded_ssa_graph_executor.cc:157 | a count reaches zero exactly when every distinct input has been visited |
| ThreadedExecutor.FirstUndelayed | paddle/fluid/framework/details/threaded_ssa_graph_executor.cc:78-80 | the first operator that is not a delayed transfer, every one before it being delayed |
| ThreadedExecutor.FirstUndelayedSnoc | paddle/fluid/framework/details/threaded_ssa_graph_executor.cc:74-89 | the first undelayed operator after one more ready operator |
| ThreadedExecutor.RouteSpec | paddle/fluid/framework/details/threaded_ssa_graph_executor.cc:77-86 | the first operator made ready that is not a delayed transfer runs next; the others go to local_ops in the order they became ready |
| ThreadedExecutor.RouteParts | paddle/fluid/framework/details/threaded_ssa_graph_executor.cc:77-86 | routing hands on every operator exactly once |
| ThreadedExecutor.ReleaseReader | paddle/fluid/framework/details/threaded_ssa_graph_executor.cc:76-87 | one decrement succeeds exactly when the operator has a count on this device, and keeps the release invariant |
| ThreadedExecutor.ReleaseCountNext | paddle/fluid/framework/details/threaded_ssa_graph_executor.cc:74-75 | the decrements for one more released handle |
| ThreadedExecutor.ReleaseVar | paddle/fluid/framework/details/threaded_ssa_graph_executor.cc:75-88 | the decrements for one released handle succeed exactly when each reader has a count on this device |
| ThreadedExecutor.Release | paddle/fluid/framework/details/threaded_ssa_graph_executor.cc:70-89 | the release succeeds exactly when every reader of an output has a count here; each count goes down by its number of released inputs, the operators whose count reached zero are made ready once each, and they are routed |
| ThreadedExecutor.DistinctBound | paddle/fluid/framework/details/threaded_ssa_graph_executor.cc:46-90 | a list without repeats of operators below n has at most n elements |
| ThreadedExecutor.Pick | paddle/fluid/framework/details/threaded_ssa_graph_executor.cc:47-56 | the operator to run is current_op, else the front of local_ops, else the front of the ready queue; it joins the operators that ran |
| ThreadedExecutor.PositiveAfter | paddle/fluid/framework/details/threaded_ssa_graph_executor.cc:76-77 | the counts still positive after a release are those positive before that did not reach zero |
| ThreadedExecutor.PushedFresh | paddle/fluid/framework/details/threaded_ssa_graph_executor.cc:76-83 | an operator a release made ready was waiting, and is in neither the ready queue nor the positive counts |
| ThreadedExecutor.RoutedFresh | paddle/fluid/framework/details/threaded_ssa_graph_executor.cc:73-89 | the operators made ready are fresh: in neither local_ops nor the ready queue, and no longer waiting |
| ThreadedExecutor.Routed | paddle/fluid/framework/details/threaded_ssa_graph_executor.cc:73-89 | routing keeps the worker's bookkeeping |
| ThreadedExecutor.ReleaseStep | paddle/fluid/framework/details/threaded_ssa_graph_executor.cc:70-89 | the release succeeds exactly when every reader has a count here, and keeps the worker's bookkeeping |
| ThreadedExecutor.Step | paddle/fluid/framework/details/threaded_ssa_graph_executor.cc:46-90 | one pass picks and runs an operator; a normal return decrements total_ops, an EnforceNotMet sets exception_, anything else aborts |
| ThreadedExecutor.SurvivorsSnoc | paddle/fluid/framework/details/threaded_ssa_graph_executor.cc:58-69 | one more operator that survived keeps all survivors |
| ThreadedExecutor.NoneEnforced | paddle/fluid/framework/details/threaded_ssa_graph_executor.cc:65-66 | with rethrow, no operator that ran threw EnforceNotMet |
| ThreadedExecutor.CountsSnoc | paddle/fluid/framework/details/threaded_ssa_graph_executor.cc:63-66 | the successes and exception_ over one more operator |
| ThreadedExecutor.Halted | paddle/fluid/framework/details/threaded_ssa_graph_executor.cc:48-49 | a worker whose queues are empty stops, Finished or Blocked |
| ThreadedExecutor.Stopped | paddle/fluid/framework/details/threaded_ssa_graph_executor.cc:65-68 | a worker stops on the operator it ran last, fatally or by raising |
| ThreadedExecutor.RunOp | paddle/fluid/framework/details/threaded_ssa_graph_executor.cc:36-94 | each operator runs at most once on its device; total_ops drops by the normal returns and exception_ holds the last EnforceNotMet; a fatal end follows the operator that failed; Finished means total_ops reached zero |
| ThreadedExecutor.SuccessesBound | paddle/fluid/framework/details/threaded_ssa_graph_executor.cc:63 | at most every operator that ran returned normally, all of them exactly when none failed |
| ThreadedExecutor.SuccessesConcat | paddle/fluid/framework/details/threaded_ssa_graph_executor.cc:63 | normal returns add up over consecutive runs |
| ThreadedExecutor.LastFailureConcat | paddle/fluid/framework/details/threaded_ssa_graph_executor.cc:66 | exception_ after two runs is exception_ after the second, started from the first |
| ThreadedExecutor.LastFailureSpec | paddle/fluid/framework/details/threaded_ssa_graph_executor.cc:66 | exception_ holds the message of the last operator that threw EnforceNotMet, and its old value when none did |
| ThreadedExecutor.FullCover | paddle/fluid/framework/details/threaded_ssa_graph_executor.cc:213 | a list without repeats of n operators below n holds every one of them |
| ThreadedExecutor.EnforcedStaysPositive | paddle/fluid/framework/details/threaded_ssa_graph_executor.cc:63-66 | when an operator that ran threw EnforceNotMet, total_ops stays positive |
| ThreadedExecutor.FlattenDevices | paddle/fluid/framework/details/threaded_ssa_graph_executor.cc:202-207 | every operator that ran belongs to one of the workers' devices |
| ThreadedExecutor.SeededQueue | paddle/fluid/framework/details/threaded_ssa_graph_executor.cc:178-193 | each worker's ready queue has no repeats and holds only operators of its device that no longer wait, and its counts are for operators of its device |
| ThreadedExecutor.Joined | paddle/fluid/framework/details/threaded_ssa_graph_executor.cc:209-211 | one more worker: what it ran follows what the earlier workers ran, without repeats, and its totals carry on from theirs |
| ThreadedExecutor.Finish | paddle/fluid/framework/details/threaded_ssa_graph_executor.cc:213 | total_ops at or below zero after the workers means every operator ran and returned normally |
| ThreadedExecutor.Run | paddle/fluid/framework/details/threaded_ssa_graph_executor.cc:96-221 | a fetched name found nowhere is the error; an operator without a valid device fails; otherwise every operator runs at most once on its device, Fetched means all ran and returned normally, and as written an EnforceNotMet is never reported, while corrected it is the error returned |
| ThreadedExecutor.Workers | paddle/fluid/framework/details/threaded_ssa_graph_executor.cc:199-213 | the workers, device after device, on the shared total_ops give the outcome Run states |
| OpFusionPass.IsFusible | paddle/fluid/framework/ir/op_fusion_pass.cc:109-134 | the check fails exactly when either node is a variable; otherwise two ops are fusible exactly when one is an activation and the other an elementwise op |
| OpFusionPass.IsElemwiseAndActivation | paddle/fluid/framework/ir/op_fusion_pass.cc:227-236 | the enforce passes exactly when one op is to be fused and all nodes are ops; the answer is then that of IsFusible on the pair |
| OpFusionPass.IsForward | paddle/fluid/framework/ir/op_fusion_pass.cc:200-213 | fails unless every op carries the same op_role as the current one; otherwise answers whether that role is the forward role |
| OpFusionPass.OtherInput | paddle/fluid/framework/ir/op_fusion_pass.cc:264-270 | fails exactly when the intermediate variable is neither argument; otherwise gives the other of the two arguments |
| OpFusionPass.FuseElemwiseAndActivation | paddle/fluid/framework/ir/op_fusion_pass.cc:238-306 | a failing role check fails; a backward pair leaves the desc empty; a forward pair yields a fused_elemwise_activation desc with the outer op's outputs and the functor list of the two op types |
| OpFusionPass.FusedDescAsWritten | paddle/fluid/framework/ir/op_fusion_pass.cc:141-155 | as written, a set of fusion candidates whose size is not one leaves the fused desc empty instead of failing |
| OpFusionPass.FusedDesc | paddle/fluid/framework/ir/op_fusion_pass.cc:141-155 | the fused desc exists only for exactly one candidate that forms an elementwise/activation pair with the current op |
| OpFusionPass.AsWrittenAcceptsThreeOps | paddle/fluid/framework/ir/op_fusion_pass.cc:154 | with two candidates the code as written goes on with an empty desc, while the intended check rejects them |
| OpFusionPass.FusibleGeneratorsSnoc | paddle/fluid/framework/ir/op_fusion_pass.cc:89-104 | scanning one more input adds its generating op to the candidates exactly when it forms an activation pair with the current op |
| OpFusionPass.SetupFusion | paddle/fluid/framework/ir/op_fusion_pass.cc:79-107 | the setup fails exactly when the node is a variable or an input lacks a single generating op; the candidates are the fusible generators of the current op's inputs, and fusion is attempted exactly when there is one |
| OpFusionPass.FuseSnoc | paddle/fluid/framework/ir/op_fusion_pass.cc:160-186 | handling one more input extends the fused inputs by its contribution, the removed nodes by the absorbed generator and its outputs, and the checks by its own |
| OpFusionPass.Rewired | paddle/fluid/framework/ir/op_fusion_pass.cc:158-196 | rewiring keeps the set of nodes |
| OpFusionPass.FeedOne | paddle/fluid/framework/ir/op_fusion_pass.cc:166-173 | pointing one more input at the fused op is the rewired graph with that input added |
| OpFusionPass.ProduceOne | paddle/fluid/framework/ir/op_fusion_pass.cc:189-195 | making one more output come from the fused op is the rewired graph with that output added |
| OpFusionPass.RewiredAt | paddle/fluid/framework/ir/op_fusion_pass.cc:158-196 | a rewired node keeps its kind and name; it is produced by the fused op when it is a fused output and feeds only the fused op when it is a fused input |
| OpFusionPass.FeedInto | paddle/fluid/framework/ir/op_fusion_pass.cc:166-173 | succeeds exactly when every input given feeds one op (and is a variable where demanded), and then the graph is rewired with those inputs feeding the fused op |
| OpFusionPass.AbsorbOutputs | paddle/fluid/framework/ir/op_fusion_pass.cc:175-178 | succeeds exactly when every output of the absorbed op is a variable, and then all of them are marked for removal |
| OpFusionPass.ProduceFrom | paddle/fluid/framework/ir/op_fusion_pass.cc:189-195 | succeeds exactly when every output of the current op is a variable, and then each of them is made only by the fused op |
| OpFusionPass.ContributionInGraph | paddle/fluid/framework/ir/op_fusion_pass.cc:160-186 | every node an input contributes, and every output of its generator, is in the graph |
| OpFusionPass.FusedInputsFeedOne | paddle/fluid/framework/ir/op_fusion_pass.cc:166-173 | every input of the fused op is a node of the graph feeding exactly one op |
| OpFusionPass.FusedClosed | paddle/fluid/framework/ir/op_fusion_pass.cc:158-196 | the graph after fusion has no edge to a node outside it |
| OpFusionPass.RewireStep | paddle/fluid/framework/ir/op_fusion_pass.cc:160-186 | one step of the input loop keeps the fused inputs and removed nodes equal to their definitions over the inputs scanned so far |
| OpFusionPass.RewireInputs | paddle/fluid/framework/ir/op_fusion_pass.cc:160-186 | the input loop succeeds exactly when every input passes its checks, and then the fused op's inputs, the rewired graph and the removed nodes are those the definitions give |
| OpFusionPass.FuseOperators | paddle/fluid/framework/ir/op_fusion_pass.cc:136-198 | fails exactly when there is no fused desc or an input or output check fails; on success the new op has the fused desc, the fused inputs and the current op's outputs, and the absorbed nodes are marked for removal |
| OpFusionPass.FuseWithDesc | paddle/fluid/framework/ir/op_fusion_pass.cc:158-196 | with a given desc, the rewiring succeeds exactly when the checks pass, leaves a closed graph whose fused outputs are made only by the new op, and leaves every other op as it was |
| OpFusionPass.FusedNodes | paddle/fluid/framework/ir/op_fusion_pass.cc:158-196 | the graph the rewiring builds is the fused graph: one new op node beside the old ones, every node still described |
| OpFusionPass.KindsKeptDescribed | paddle/fluid/framework/ir/op_fusion_pass.cc:158-196 | a graph that keeps the kind of every old node and adds one described op stays described |
| OpFusionPass.FuseNodes | paddle/fluid/framework/ir/op_fusion_pass.cc:158-196 | succeeds exactly when the inputs pass their checks and the outputs are variables; the graph is then the rewired one with the new op holding the fused inputs and the outputs |
| OpFusionPass.Insert | paddle/fluid/framework/ir/op_fusion_pass.cc:316-329 | a variable is always pending and ready exactly when it has no producer; an op is ready exactly when it has no inputs |
| OpFusionPass.InitStep | paddle/fluid/framework/ir/op_fusion_pass.cc:330-336 | seeding the queues with one more node is inserting that node |
| OpFusionPass.InitQueues | paddle/fluid/framework/ir/op_fusion_pass.cc:330-336 | the queues built by the loop are those the seeding definition gives over all nodes |
| OpFusionPass.RunAll | paddle/fluid/framework/ir/op_fusion_pass.cc:338-347 | every ready op is put once into the order, and their outputs become ready |
| OpFusionPass.DecrementedCounts | paddle/fluid/framework/ir/op_fusion_pass.cc:357-360 | releasing a variable lowers each waiting op's count by the number of times it reads it |
| OpFusionPass.DecrementedReady | paddle/fluid/framework/ir/op_fusion_pass.cc:357-360 | an op becomes ready exactly when its count falls to zero |
| OpFusionPass.DecrementedCounting | paddle/fluid/framework/ir/op_fusion_pass.cc:357-360 | releasing a variable keeps every count equal to the op's unproduced inputs and never unreadies an op |
| OpFusionPass.ReleaseVar | paddle/fluid/framework/ir/op_fusion_pass.cc:357-360 | the loop over a variable's readers computes the decremented counts and ready set |
| OpFusionPass.ReleaseReady | paddle/fluid/framework/ir/op_fusion_pass.cc:355-362 | every ready variable stops pending, the counts stay exact, and every op still waiting keeps a positive count bounded by its pending inputs (equal to them in an SSA graph) |
| OpFusionPass.InitScheduled | paddle/fluid/framework/ir/op_fusion_pass.cc:316-336 | the seeded queues meet the scheduling invariant with nothing run |
| OpFusionPass.RunStep | paddle/fluid/framework/ir/op_fusion_pass.cc:338-347 | running the ready ops keeps the run invariant with them prepended to the order |
| OpFusionPass.RunMeasure | paddle/fluid/framework/ir/op_fusion_pass.cc:349-365 | a round that runs ops leaves fewer ops to run |
| OpFusionPass.StuckStep | paddle/fluid/framework/ir/op_fusion_pass.cc:352 | when no variable is ready while some is pending, the ops run so far leave some variable unmade |
| OpFusionPass.ReleaseStep | paddle/fluid/framework/ir/op_fusion_pass.cc:355-362 | releasing the ready variables restores the scheduling invariant |
| OpFusionPass.FinalStep | paddle/fluid/framework/ir/op_fusion_pass.cc:349 | when nothing is pending every variable is made |
| OpFusionPass.ScheduledFacts | paddle/fluid/framework/ir/op_fusion_pass.cc:349-365 | the order holds only ops, each once, exactly those run |
| OpFusionPass.WaitingRelease | paddle/fluid/framework/ir/op_fusion_pass.cc:357-360 | in a linked graph, releasing a variable keeps every op still waiting at a positive count no larger than its pending inputs |
| OpFusionPass.CountAfter | paddle/fluid/framework/ir/op_fusion_pass.cc:357-360 | releasing a pending variable lowers an op's number of pending inputs by one exactly when the op reads it |
| OpFusionPass.ExactCounts | paddle/fluid/framework/ir/op_fusion_pass.cc:357-360 | in an SSA graph, releasing a pending variable keeps every waiting op's count equal to its pending inputs |
| OpFusionPass.ExactFed | paddle/fluid/framework/ir/op_fusion_pass.cc:357-360 | in an SSA graph, an op that releasing a pending variable makes ready has no input left pending |
| OpFusionPass.ExactRelease | paddle/fluid/framework/ir/op_fusion_pass.cc:357-360 | in an SSA graph, releasing a pending variable keeps every waiting op's count equal to its pending inputs, and no op that is ready or has run reads a pending variable |
| OpFusionPass.ReleaseTracked | paddle/fluid/framework/ir/op_fusion_pass.cc:357-360 | releasing one variable keeps both counting facts |
| OpFusionPass.InitTracked | paddle/fluid/framework/ir/op_fusion_pass.cc:316-336 | the seeded queues meet both counting facts: an op with inputs waits on all of them |
| OpFusionPass.NotMadeBeforeRun | paddle/fluid/framework/ir/op_fusion_pass.cc:338-347 | in an SSA graph an output of an op that has not run is not made yet |
| OpFusionPass.OutputsWaiting | paddle/fluid/framework/ir/op_fusion_pass.cc:338-347 | in an SSA graph the outputs of the ready ops are still pending |
| OpFusionPass.RanOrdered | paddle/fluid/framework/ir/op_fusion_pass.cc:346 | in an SSA graph, putting the ready ops in front keeps the order free of an op that outputs an input of itself or of an op after it |
| OpFusionPass.StuckBlocked | paddle/fluid/framework/ir/op_fusion_pass.cc:352 | in a linked graph, a round that makes no variable ready leaves every op not run waiting on an unmade input |
| OpFusionPass.MadeGrows | paddle/fluid/framework/ir/op_fusion_pass.cc:349-365 | a variable made by some ops stays made when more ops run |
| OpFusionPass.PrefixDone | paddle/fluid/framework/ir/op_fusion_pass.cc:349-365 | when every op not run waits on an unmade input, any order that runs ops only after their inputs are made runs no op outside those run |
| OpFusionPass.NotSortable | paddle/fluid/framework/ir/op_fusion_pass.cc:352 | a failed sort whose remaining ops all wait on unmade inputs means no order of the graph makes every variable |
| OpFusionPass.MadeBehind | paddle/fluid/framework/ir/op_fusion_pass.cc:346 | a variable made by the order, by none of its first ops, is made by the ops after them |
| OpFusionPass.ReversedAt | paddle/fluid/framework/ir/op_fusion_pass.cc:346 | reading an order from the back puts its last op first: position i holds the op at position n - 1 - i |
| OpFusionPass.ReversedPrefix | paddle/fluid/framework/ir/op_fusion_pass.cc:346 | the first k ops of an order read from the back are its last k ops |
| OpFusionPass.ReversedMembers | paddle/fluid/framework/ir/op_fusion_pass.cc:346 | reversing the order keeps its ops |
| OpFusionPass.FedFromBack | paddle/fluid/framework/ir/op_fusion_pass.cc:346 | in a dependency-ordered order that makes every variable, each op reads only variables made by the ops after it, which come before it when the order is read from the back |
| OpFusionPass.ReversedFeeds | paddle/fluid/framework/ir/op_fusion_pass.cc:346 | such an order, read from the back, runs every op after the ops that make its inputs |
| OpFusionPass.FinalFeeds | paddle/fluid/framework/ir/op_fusion_pass.cc:349-365 | in an SSA graph, once nothing is pending the order read from the back runs each op after the ops that make its inputs, so a valid order exists |
| OpFusionPass.RunReady | paddle/fluid/framework/ir/op_fusion_pass.cc:350-351 | the ready ops run as one block in front of the order, their outputs join the ready variables, the waiting counts carry over, and in an SSA graph the order stays dependency-ordered |
| OpFusionPass.Round | paddle/fluid/framework/ir/op_fusion_pass.cc:350-364 | a stuck round leaves a variable unmade and, in a linked graph, every op not run waits on an unmade input; otherwise the scheduling invariant and the waiting counts hold and either fewer ops remain or fewer variables pend; in an SSA graph no op of the order outputs an input of itself or of an op after it |
| OpFusionPass.TopoSort | paddle/fluid/framework/ir/op_fusion_pass.cc:349-365 | the order lists ops of the graph, each once, and succeeds exactly when running them makes every variable; on failure in a linked graph every op not run waits on an unmade input and no order of the graph runs every op after its inputs are made; in an SSA graph the order read from the back runs each op after the producers of its inputs, and it succeeds exactly when such an order exists. As in the source, whose loop stops once no variable pends, an op that becomes ready only in the last round (it then has no unmade output) is not run and is left out of the order |
| OpFusionPass.RoundStep | paddle/fluid/framework/ir/op_fusion_pass.cc:338-347 | prepending a block of fresh ops keeps the order duplicate-free and the produced variables the union |
| OpFusionPass.GetTopoOrder | paddle/fluid/framework/ir/op_fusion_pass.cc:310-366 | as written, the caller's order is left unchanged, since the sort fills a local copy; success is exactly that the ops sorted make every variable; the failure, dependency-order and existence facts of TopoSort hold of the sorted ops |
| OpFusionPass.GetTopoOrderFilled | paddle/fluid/framework/ir/op_fusion_pass.cc:310-366 | the intended version puts the sorted ops, each once, in front of the caller's order; success is exactly that they make every variable, with TopoSort's failure, dependency-order and existence facts |
| OpFusionPass.CheckedInputs | paddle/fluid/framework/ir/op_fusion_pass.cc:89-104 | inputs that pass the setup checks are generated variables, and every candidate is a node of the graph |
| OpFusionPass.Redirect | paddle/fluid/framework/ir/op_fusion_pass.cc:59-65 | the ops fused away and the current op all map to the fused op; every other entry stays |
| OpFusionPass.FusingStep | paddle/fluid/framework/ir/op_fusion_pass.cc:44-70 | one fusion keeps the old ops and adds one fused op to those created, producing the outputs of the op it was fused into |
| OpFusionPass.FusedIntoKinds | paddle/fluid/framework/ir/op_fusion_pass.cc:158-196 | in the graph FuseOperators leaves, the fused op produces the outputs of the op fused into and no old node changes kind |
| OpFusionPass.FuseTracked | paddle/fluid/framework/ir/op_fusion_pass.cc:54-55 | a successful FuseOperators adds the new op to the fused ops, recording the op it was fused into, and leaves the earlier fused ops as they were |
| OpFusionPass.FuseInOrder | paddle/fluid/framework/ir/op_fusion_pass.cc:44-70 | an empty order changes nothing; on success every old op is kept and each created node is an op producing exactly the outputs of the op it was fused into; with the enforce of lines 67-68 each created op is also left without edges, so success means no op with an output was fused |
| OpFusionPass.ReleaseAll | paddle/fluid/framework/ir/op_fusion_pass.cc:73-75 | the nodes marked for removal are gone, with their descs, and nothing else changes |
| OpFusionPass.ApplyImpl | paddle/fluid/framework/ir/op_fusion_pass.cc:27-77 | as written the graph is left unchanged (the order it walks is empty); success is exactly that the sorted ops make every variable; a failure in a linked graph means no valid order exists, and in an SSA graph success is exactly that one exists |
| OpFusionPass.ApplyImplFilled | paddle/fluid/framework/ir/op_fusion_pass.cc:27-77 | with the order filled and without the enforce of lines 67-68, a sort that leaves a variable unmade fails with the graph unchanged (in a linked graph, exactly when no valid order exists); on success the result is a fused graph, whose every fused op produces the outputs of the op it was fused into, minus the removed nodes; in an SSA graph the ops are visited producers first |
| FuseElewiseAddActPass.Replaced | paddle/fluid/framework/ir/fuse_elewise_add_act_pass.cc:395-402 | the list keeps its length and has `repl` exactly where it had `cur` |
| FuseElewiseAddActPass.ReplaceNode | paddle/fluid/framework/ir/fuse_elewise_add_act_pass.cc:391-406 | the enforce passes exactly when `cur` is in the list; the result then has the same length, `repl` where `cur` was, and no `cur` left |
| FuseElewiseAddActPass.ReplaceNodeInverse | paddle/fluid/framework/ir/fuse_elewise_add_act_pass.cc:391-406 | replacing `repl` back by `cur` restores the list when `repl` was not in it |
| FuseElewiseAddActPass.RemoveNode | paddle/fluid/framework/ir/fuse_elewise_add_act_pass.cc:408-417 | the result holds exactly the members other than `trg`, each as often as before, and is shorter by the occurrences of `trg` |
| FuseElewiseAddActPass.RemoveNodeConcat | paddle/fluid/framework/ir/fuse_elewise_add_act_pass.cc:408-417 | removal keeps order: it distributes over concatenation |
| FuseElewiseAddActPass.RemoveNodeAbsent | paddle/fluid/framework/ir/fuse_elewise_add_act_pass.cc:408-417 | a list without `trg` is left unchanged |
| FuseElewiseAddActPass.RemoveNodeIdempotent | paddle/fluid/framework/ir/fuse_elewise_add_act_pass.cc:408-417 | removing a node twice is removing it once |
| FuseElewiseAddActPass.Without | paddle/fluid/framework/ir/fuse_elewise_add_act_pass.cc:388 | the filtered list holds exactly the members outside the removed set and is no longer than before |
| FuseElewiseAddActPass.RemoveNodeIsWithout | paddle/fluid/framework/ir/fuse_elewise_add_act_pass.cc:408-417 | removing one node is filtering by the singleton set, as the graph-wide removal does |
| FuseElewiseAddActPass.WithoutConcat | paddle/fluid/framework/ir/fuse_elewise_add_act_pass.cc:388 | filtering distributes over concatenation |
| FuseElewiseAddActPass.WithoutSame | paddle/fluid/framework/ir/fuse_elewise_add_act_pass.cc:388 | two removal sets that agree on the list's members filter it alike |
| FuseElewiseAddActPass.WithoutTwice | paddle/fluid/framework/ir/fuse_elewise_add_act_pass.cc:388 | filtering by two sets in turn is filtering by their union |
| FuseElewiseAddActPass.WithoutNothing | paddle/fluid/framework/ir/fuse_elewise_add_act_pass.cc:388 | a list with no member in the removal set is unchanged |
| FuseElewiseAddActPass.SafeRemove | paddle/fluid/framework/ir/fuse_elewise_add_act_pass.cc:388 | the removed nodes leave the graph, every kept node keeps its fields, and every edge into a removed node is dropped |
| FuseElewiseAddActPass.Link | paddle/fluid/framework/ir/fuse_elewise_add_act_pass.cc:363 | linking keeps the set of nodes |
| FuseElewiseAddActPass.FeedFused | paddle/fluid/framework/ir/fuse_elewise_add_act_pass.cc:350-353 | feeding the inputs to the fused op keeps the set of nodes |
| FuseElewiseAddActPass.FeedFusedOk | paddle/fluid/framework/ir/fuse_elewise_add_act_pass.cc:350-353 | on mirrored edges and inputs without duplicates, no ReplaceNode enforce fails |
| FuseElewiseAddActPass.FeedFusedFrame | paddle/fluid/framework/ir/fuse_elewise_add_act_pass.cc:350-353 | the loop keeps every node's kind and name and changes only the fused op's inputs and the visited inputs' outputs |
| FuseElewiseAddActPass.FeedFusedInputs | paddle/fluid/framework/ir/fuse_elewise_add_act_pass.cc:350-353 | the fused op gains the visited inputs outside the skipped set, in order |
| FuseElewiseAddActPass.FeedFusedOutputs | paddle/fluid/framework/ir/fuse_elewise_add_act_pass.cc:350-353 | every output edge except those to the replaced op is kept, and each visited input now feeds the fused op |
| FuseElewiseAddActPass.FeedFusedEdges | paddle/fluid/framework/ir/fuse_elewise_add_act_pass.cc:373-379 | the combined effect of the input loop on the fused op and on the inputs it visits |
| FuseElewiseAddActPass.LinkOp1Outputs | paddle/fluid/framework/ir/fuse_elewise_add_act_pass.cc:355-371 | handling op_1's outputs keeps the set of nodes |
| FuseElewiseAddActPass.LinkOp1OutputsOk | paddle/fluid/framework/ir/fuse_elewise_add_act_pass.cc:368 | the second loop's enforce passes exactly when every output of op_1 is a control variable or the intermediate variable |
| FuseElewiseAddActPass.SharedCtrlSplit | paddle/fluid/framework/ir/fuse_elewise_add_act_pass.cc:357-366 | the shared control variables are the first output when op_2 reads it, plus those of the rest |
| FuseElewiseAddActPass.LinkOp1OutputsShared | paddle/fluid/framework/ir/fuse_elewise_add_act_pass.cc:357-366 | the nodes set aside for deletion are exactly the control variables op_2 also reads |
| FuseElewiseAddActPass.LinkOp1OutputsFused | paddle/fluid/framework/ir/fuse_elewise_add_act_pass.cc:355-371 | the fused op gains op_1's outputs that are not set aside, in order |
| FuseElewiseAddActPass.LinkOp1OutputsEdges | paddle/fluid/framework/ir/fuse_elewise_add_act_pass.cc:355-371 | only the fused op's outputs and the linked outputs' inputs change; each linked output is made by the fused op alone |
| FuseElewiseAddActPass.LinkAll | paddle/fluid/framework/ir/fuse_elewise_add_act_pass.cc:381-383 | linking op_2's outputs keeps the set of nodes |
| FuseElewiseAddActPass.LinkAllFrame | paddle/fluid/framework/ir/fuse_elewise_add_act_pass.cc:381-383 | only the fused op's outputs and the listed outputs change, and kinds and names are kept |
| FuseElewiseAddActPass.LinkAllFused | paddle/fluid/framework/ir/fuse_elewise_add_act_pass.cc:381-383 | the fused op gains op_2's outputs, in order |
| FuseElewiseAddActPass.LinkAllMade | paddle/fluid/framework/ir/fuse_elewise_add_act_pass.cc:381-383 | each output of op_2 is then made by the fused op alone |
| FuseElewiseAddActPass.LinkAllEdges | paddle/fluid/framework/ir/fuse_elewise_add_act_pass.cc:381-383 | the combined effect of the last loop on the fused op and the outputs |
| FuseElewiseAddActPass.RelinkedOk | paddle/fluid/framework/ir/fuse_elewise_add_act_pass.cc:345-389 | re-linking fails when op_1 has an output that is neither a control variable nor the intermediate variable, and succeeds otherwise on mirrored edges without duplicate inputs |
| FuseElewiseAddActPass.RelinkedFused | paddle/fluid/framework/ir/fuse_elewise_add_act_pass.cc:345-389 | the fused op reads op_1's inputs then op_2's other inputs, and writes op_1's kept outputs then op_2's outputs, with no removed node among them |
| FuseElewiseAddActPass.RelinkedShape | paddle/fluid/framework/ir/fuse_elewise_add_act_pass.cc:385-388 | afterwards the graph holds every node except op_1, op_2 and the shared control variables, with names and kinds kept and no edge to a removed node |
| FuseElewiseAddActPass.RelinkedOutputs | paddle/fluid/framework/ir/fuse_elewise_add_act_pass.cc:355-383 | every kept output of the two ops is made by the fused op alone |
| FuseElewiseAddActPass.RelinkedInputs | paddle/fluid/framework/ir/fuse_elewise_add_act_pass.cc:350-379 | every kept input of the two ops feeds the fused op |
| FuseElewiseAddActPass.FeedInputs | paddle/fluid/framework/ir/fuse_elewise_add_act_pass.cc:350-353 | the loop computes FeedFused, failing exactly where the ReplaceNode enforce would |
| FuseElewiseAddActPass.LinkOp1OutputsStep | paddle/fluid/framework/ir/fuse_elewise_add_act_pass.cc:356-371 | one iteration of the second loop: a shared control variable is set aside, another control variable or the intermediate is linked, anything else fails |
| FuseElewiseAddActPass.LinkFirstOutputs | paddle/fluid/framework/ir/fuse_elewise_add_act_pass.cc:355-371 | the loop computes LinkOp1Outputs |
| FuseElewiseAddActPass.LinkOutputs | paddle/fluid/framework/ir/fuse_elewise_add_act_pass.cc:381-383 | the loop computes LinkAll |
| FuseElewiseAddActPass.ReLinkNodes | paddle/fluid/framework/ir/fuse_elewise_add_act_pass.cc:345-389 | succeeds exactly when the re-linking definition does, and then the graph is the re-linked one and the removed nodes lose their descs; in the model a failure leaves the graph unchanged (the source's partial edits are not modelled) |
| FuseElewiseAddActPass.IntermediateName | paddle/fluid/framework/ir/fuse_elewise_add_act_pass.cc:47-56 | only a fused op or its grad names a droppable output; a forward fused op passes the enforce exactly when it saves a nonempty IntermediateOut, the grad op exactly when IntermediateOut@GRAD is nonempty |
| FuseElewiseAddActPass.CreatedDescSaves | paddle/fluid/framework/ir/fuse_elewise_add_act_pass.cc:320-343 | a fused op fresh from creation passes the enforce of lines 53-56 and names the elementwise output as droppable |
| FuseElewiseAddActPass.SavingFusedOpNamed | paddle/fluid/framework/ir/fuse_elewise_add_act_pass.cc:48-56 | a fused op that saves its intermediate output names its first IntermediateOut |
| FuseElewiseAddActPass.CreatedDescSaveAttr | paddle/fluid/framework/ir/fuse_elewise_add_act_pass.cc:330-339 | the created desc has save_intermediate_out set to true |
| FuseElewiseAddActPass.CreatedDescIntermediate | paddle/fluid/framework/ir/fuse_elewise_add_act_pass.cc:328 | the created desc's IntermediateOut is the elementwise output |
| FuseElewiseAddActPass.CreatedDescArgs | paddle/fluid/framework/ir/fuse_elewise_add_act_pass.cc:325-332 | the created desc reads X and Y, writes Out, and lists the two op types as functors unless the ops' own attributes override that |
| FuseElewiseAddActPass.CreatedDescChecks | paddle/fluid/framework/ir/fuse_elewise_add_act_pass.cc:320-343 | the created desc passes the check and has the arguments above |
| FuseElewiseAddActPass.OverriddenDescFails | paddle/fluid/framework/ir/fuse_elewise_add_act_pass.cc:335-339 | when one of the ops' own attributes switches saving off, the fused op fails the enforce of lines 53-56 |
| FuseElewiseAddActPass.CreateFuseElewiseAddActNode | paddle/fluid/framework/ir/fuse_elewise_add_act_pass.cc:320-343 | a fresh op node is added holding the fused desc built from op_1 and op_2 |
| FuseElewiseAddActPass.FreshReLinkable | paddle/fluid/framework/ir/fuse_elewise_add_act_pass.cc:320-389 | a freshly created op can take over the edges of the two ops and leaves the same nodes to drop |
| FuseElewiseAddActPass.FuseMatched | paddle/fluid/framework/ir/fuse_elewise_add_act_pass.cc:117-137 | the fused op is created, then re-linking succeeds exactly as defined; on success the graph is the re-linked one and the descs those of the fused op minus the removed nodes |
| FuseElewiseAddActPass.FuseElewiseAddActMatch | paddle/fluid/framework/ir/fuse_elewise_add_act_pass.cc:117-137 | for act(elementwise_add(x, y)) the add is fused into the activation, with x and y as inputs and the add's output as intermediate |
| FuseElewiseAddActPass.FuseActElewiseAddMatch | paddle/fluid/framework/ir/fuse_elewise_add_act_pass.cc:165-190 | for elementwise_add(x, act(y)) the activation is fused into the add, its output the intermediate |
| FuseElewiseAddActPass.UnreadAmongAll | paddle/fluid/framework/ir/fuse_elewise_add_act_pass.cc:62-70 | the outputs found by the scan are exactly those in the graph with the name that nothing reads |
| FuseElewiseAddActPass.UnreadAmongPrefix | paddle/fluid/framework/ir/fuse_elewise_add_act_pass.cc:62-70 | scanning one more output adds it exactly when it is unread |
| FuseElewiseAddActPass.DropOne | paddle/fluid/framework/ir/fuse_elewise_add_act_pass.cc:65-66 | removing one more output from the filtered list is filtering by the larger set |
| FuseElewiseAddActPass.DropUnread | paddle/fluid/framework/ir/fuse_elewise_add_act_pass.cc:62-71 | the inner loop drops exactly the unread outputs with the intermediate name, keeping the rest in order |
| FuseElewiseAddActPass.UnreadAmongSame | paddle/fluid/framework/ir/fuse_elewise_add_act_pass.cc:62-70 | the scan gives the same answer on two graphs that agree on the scanned nodes |
| FuseElewiseAddActPass.AllUnreadStep | paddle/fluid/framework/ir/fuse_elewise_add_act_pass.cc:46-90 | visiting one more op adds its droppable outputs to the collected set |
| FuseElewiseAddActPass.AllUnreadNext | paddle/fluid/framework/ir/fuse_elewise_add_act_pass.cc:46-90 | the same, counted from the nodes still to visit |
| FuseElewiseAddActPass.VisitedNodesStep | paddle/fluid/framework/ir/fuse_elewise_add_act_pass.cc:65-66 | updating a visited op's outputs keeps the loop's invariant on nodes |
| FuseElewiseAddActPass.VisitedNodesSkip | paddle/fluid/framework/ir/fuse_elewise_add_act_pass.cc:47 | skipping a node keeps the invariant on nodes |
| FuseElewiseAddActPass.VisitedDescsStep | paddle/fluid/framework/ir/fuse_elewise_add_act_pass.cc:68 | retiring a visited op's desc keeps the invariant on descs |
| FuseElewiseAddActPass.VisitedDescsSkip | paddle/fluid/framework/ir/fuse_elewise_add_act_pass.cc:47 | skipping a node keeps the invariant on descs |
| FuseElewiseAddActPass.DropIntermediate | paddle/fluid/framework/ir/fuse_elewise_add_act_pass.cc:61-71 | the outputs a fused op drops are its unread intermediate outputs, as read from the graph the loop started from |
| FuseElewiseAddActPass.VisitedStep | paddle/fluid/framework/ir/fuse_elewise_add_act_pass.cc:46-90 | a visited node adds its droppable outputs to the collected set and keeps the loop's invariant |
| FuseElewiseAddActPass.VisitNode | paddle/fluid/framework/ir/fuse_elewise_add_act_pass.cc:46-90 | one node passes exactly when its check passes, and then the invariant holds with its droppable outputs collected |
| FuseElewiseAddActPass.VisitedNodeAt | paddle/fluid/framework/ir/fuse_elewise_add_act_pass.cc:91 | after the loop each kept node looks the same after removal as in the original graph |
| FuseElewiseAddActPass.VisitedAllNodes | paddle/fluid/framework/ir/fuse_elewise_add_act_pass.cc:91 | removing the collected nodes from the final graph is removing them from the original one |
| FuseElewiseAddActPass.VisitedAllDescs | paddle/fluid/framework/ir/fuse_elewise_add_act_pass.cc:68 | after the loop the descs are the retired ones |
| FuseElewiseAddActPass.VisitedDone | paddle/fluid/framework/ir/fuse_elewise_add_act_pass.cc:46-91 | once every node is visited, all checks passed, the collected set is every droppable output, and the graph and descs are as defined |
| FuseElewiseAddActPass.VisitAll | paddle/fluid/framework/ir/fuse_elewise_add_act_pass.cc:46-90 | the loop succeeds exactly when every node passes its check, and then collects every droppable output and retires the descs |
| FuseElewiseAddActPass.RetiredDescribed | paddle/fluid/framework/ir/fuse_elewise_add_act_pass.cc:91 | every op left after the removal keeps a description |
| FuseElewiseAddActPass.RemoveIntermediateOut | paddle/fluid/framework/ir/fuse_elewise_add_act_pass.cc:44-92 | passes exactly when every node passes its check; then every unread intermediate output leaves the graph and the descs are retired; in the model a failure leaves the graph unchanged (the source's partial edits are not modelled) |
| FuseOptimizerOpPass.Append | paddle/fluid/framework/details/fuse_optimizer_op_pass.cc:202 | appending an argument makes its name a key and keeps every other key |
| FuseOptimizerOpPass.ArgIsSingle | paddle/fluid/framework/details/fuse_optimizer_op_pass.cc:200-202 | an input that passes the enforce of line 201 has exactly its one argument |
| FuseOptimizerOpPass.AppendArgsOk | paddle/fluid/framework/details/fuse_optimizer_op_pass.cc:199-204 | the appending loop passes exactly when every auxiliary input of the op has one argument |
| FuseOptimizerOpPass.AppendArgsValue | paddle/fluid/framework/details/fuse_optimizer_op_pass.cc:199-204 | over distinct names, each name's list grows by that input's one argument and every other list is unchanged |
| FuseOptimizerOpPass.GetSpecifiedOpsAndVars | paddle/fluid/framework/details/fuse_optimizer_op_pass.cc:192-206 | the method computes the specification of one op's collection step: ops of another type are skipped, the enforce can fail, otherwise the op and its arguments are appended |
| FuseOptimizerOpPass.Matching | paddle/fluid/framework/details/fuse_optimizer_op_pass.cc:197 | the kept ops are exactly the ops of the fused type |
| FuseOptimizerOpPass.CollectedOk | paddle/fluid/framework/details/fuse_optimizer_op_pass.cc:36-42 | collection fails exactly when some op of the fused type lacks a single argument for an auxiliary input |
| FuseOptimizerOpPass.CollectedValue | paddle/fluid/framework/details/fuse_optimizer_op_pass.cc:36-42 | the collected ops are those of the fused type in topological order, each name's list has one entry per op, and the i-th entry is the i-th op's argument |
| FuseOptimizerOpPass.CollectedPrefixErr | paddle/fluid/framework/details/fuse_optimizer_op_pass.cc:39-42 | a failure on a prefix of the ops is the failure of the whole loop |
| FuseOptimizerOpPass.AppendArgsGrows | paddle/fluid/framework/details/fuse_optimizer_op_pass.cc:199-204 | appending never shortens a list and lengthens every auxiliary name's list |
| FuseOptimizerOpPass.CollectedGrows | paddle/fluid/framework/details/fuse_optimizer_op_pass.cc:36-42 | every auxiliary name holds at least one argument per collected op |
| FuseOptimizerOpPass.CollectedOps | paddle/fluid/framework/details/fuse_optimizer_op_pass.cc:36-42 | the collected ops are the ops of the fused type in topological order |
| FuseOptimizerOpPass.CollectOps | paddle/fluid/framework/details/fuse_optimizer_op_pass.cc:35-42 | the loop computes the collection specification |
| FuseOptimizerOpPass.FusedNamesFrom | paddle/fluid/framework/details/fuse_optimizer_op_pass.cc:69-76 | every fused name from the i-th input on is in the set |
| FuseOptimizerOpPass.NameFusedOk | paddle/fluid/framework/details/fuse_optimizer_op_pass.cc:69-76 | naming passes the enforce of line 74 exactly when every fused name is new and they are pairwise different |
| FuseOptimizerOpPass.NameFusedStep | paddle/fluid/framework/details/fuse_optimizer_op_pass.cc:70-75 | one naming step extends the map and the set and leaves the rest of the loop unchanged |
| FuseOptimizerOpPass.NameFusedSet | paddle/fluid/framework/details/fuse_optimizer_op_pass.cc:75 | a successful naming adds exactly the fused names to the graph's fused variables |
| FuseOptimizerOpPass.NameFusedKeys | paddle/fluid/framework/details/fuse_optimizer_op_pass.cc:73 | a successful naming maps exactly the names already mapped and the remaining input names |
| FuseOptimizerOpPass.NameFusedEntries | paddle/fluid/framework/details/fuse_optimizer_op_pass.cc:73 | each input name maps to its fused name, and earlier entries are kept |
| FuseOptimizerOpPass.NameFusedValue | paddle/fluid/framework/details/fuse_optimizer_op_pass.cc:69-76 | the set and the map a successful naming produces, as above |
| FuseOptimizerOpPass.NameFusedDistinct | paddle/fluid/framework/details/fuse_optimizer_op_pass.cc:69-76 | a successful naming implies the auxiliary input names were pairwise different |
| FuseOptimizerOpPass.NameFusedVars | paddle/fluid/framework/details/fuse_optimizer_op_pass.cc:59-76 | the loop computes the naming specification |
| FuseOptimizerOpPass.Find | paddle/fluid/framework/details/fuse_optimizer_op_pass.cc:163 | the first position holding the value, or the length when it is absent |
| FuseOptimizerOpPass.SortIndex | paddle/fluid/framework/details/fuse_optimizer_op_pass.cc:162-167 | fails exactly when a parameter of params_grads is not among the collected parameters; otherwise gives one position per pair, holding that pair's parameter |
| FuseOptimizerOpPass.Gather | paddle/fluid/framework/details/fuse_optimizer_op_pass.cc:170-174 | the gathered list has the original list's length |
| FuseOptimizerOpPass.SortedVars | paddle/fluid/framework/details/fuse_optimizer_op_pass.cc:152-190 | reordering fails exactly when there is no Param list or it misses a parameter; otherwise keeps every key and length and puts the parameters in params_grads' order |
| FuseOptimizerOpPass.SortedTogether | paddle/fluid/framework/details/fuse_optimizer_op_pass.cc:169-189 | the i-th op and the i-th entry of every list after reordering all come from one position before it |
| FuseOptimizerOpPass.GatherPermutes | paddle/fluid/framework/details/fuse_optimizer_op_pass.cc:170-175 | gathering by pairwise different positions below the length permutes the list |
| FuseOptimizerOpPass.SortedPermutes | paddle/fluid/framework/details/fuse_optimizer_op_pass.cc:152-190 | when the parameters of params_grads are pairwise different, reordering is a permutation of the ops and of every list |
| FuseOptimizerOpPass.Rearrange | paddle/fluid/framework/details/fuse_optimizer_op_pass.cc:170-175 | the loop computes the gathered list |
| FuseOptimizerOpPass.FindParams | paddle/fluid/framework/details/fuse_optimizer_op_pass.cc:162-167 | the loop computes SortIndex, failing where the enforce of line 164 would |
| FuseOptimizerOpPass.RearrangeAll | paddle/fluid/framework/details/fuse_optimizer_op_pass.cc:169-182 | every list is replaced by its gathered version |
| FuseOptimizerOpPass.SortParametersAndAuxVars | paddle/fluid/framework/details/fuse_optimizer_op_pass.cc:152-190 | the method computes the reordering specification, enforces included |
| FuseOptimizerOpPass.ApplyImpl | paddle/fluid/framework/details/fuse_optimizer_op_pass.cc:25-96 | the method computes the plan specification of steps 1 to 4 |
| FuseOptimizerOpPass.PreparedSkips | paddle/fluid/framework/details/fuse_optimizer_op_pass.cc:45-53 | the pass returns the graph untouched exactly when no op has the fused type or a fused type is already recorded |
| FuseOptimizerOpPass.PreparedNames | paddle/fluid/framework/details/fuse_optimizer_op_pass.cc:49-89 | a plan records the fused type, adds every fused name to the fused variables, and maps each input and "Grad" to its fused variable |
| FuseOptimizerOpPass.PreparedSorted | paddle/fluid/framework/details/fuse_optimizer_op_pass.cc:91-96 | a plan holds the collected ops and lists reordered by params_grads, whose size matches |
| FuseOptimizerOpPass.PreparedOrder | paddle/fluid/framework/details/fuse_optimizer_op_pass.cc:91-96 | a plan lists the ops in the order of params_grads' parameters, and permutes the collected ops when those parameters are distinct |
| FuseOptimizerOpPass.SortedAligned | paddle/fluid/framework/details/fuse_optimizer_op_pass.cc:152-190 | reordering keeps the i-th op with the i-th argument of every list |
| FuseOptimizerOpPass.PreparedAligned | paddle/fluid/framework/details/fuse_optimizer_op_pass.cc:25-96 | in a plan, every op's argument for each auxiliary input is the entry at its position |
| FuseOptimizerOpPass.Redirect | paddle/fluid/framework/details/fuse_optimizer_op_pass.cc:228 | each entry in the target set becomes the replacement and the rest keep their place |
| FuseOptimizerOpPass.RedirectTwice | paddle/fluid/framework/details/fuse_optimizer_op_pass.cc:224-235 | replacing one more target after a set of them is replacing the union |
| FuseOptimizerOpPass.Redirected | paddle/fluid/framework/details/fuse_optimizer_op_pass.cc:224-235 | redirection keeps the set of nodes |
| FuseOptimizerOpPass.FusedIntoEdges | paddle/fluid/framework/details/fuse_optimizer_op_pass.cc:220-240 | afterwards no variable keeps an edge to a fused op; each has one to the fused node instead, and the fused node lists every input and output of the ops |
| FuseOptimizerOpPass.ReplaceOp | paddle/fluid/framework/details/fuse_optimizer_op_pass.cc:227-234 | the op is replaced by the fused node in the outputs (or inputs) of each listed variable, and no other node changes |
| FuseOptimizerOpPass.ReadersStep | paddle/fluid/framework/details/fuse_optimizer_op_pass.cc:224-235 | one more op adds itself to the readers and writers of the variables it touches |
| FuseOptimizerOpPass.RedirectNodeStep | paddle/fluid/framework/details/fuse_optimizer_op_pass.cc:227-234 | one variable's edges after one more op are redirected by the enlarged sets |
| FuseOptimizerOpPass.RedirectOne | paddle/fluid/framework/details/fuse_optimizer_op_pass.cc:225-234 | one op's edges redirected keeps the loop's invariant |
| FuseOptimizerOpPass.RedirectAll | paddle/fluid/framework/details/fuse_optimizer_op_pass.cc:224-235 | the loop computes the redirected graph |
| FuseOptimizerOpPass.Enumerate | paddle/fluid/framework/details/fuse_optimizer_op_pass.cc:236-239 | a set listed each member once |
| FuseOptimizerOpPass.InserInputAndOutputForOptOps | paddle/fluid/framework/details/fuse_optimizer_op_pass.cc:220-240 | the fused node gets every input and output of the ops, each once, and every variable they touched lists the fused node in their place; nothing else changes |
| ScopeBufferedExecutor.PlaceSound | paddle/fluid/framework/details/scope_buffered_ssa_graph_executor.cc:63-89 | every variable ends up in the outer scope or the local execution scope; the outer scope keeps its names and gains only names that go there, the local execution scope only new names that do not |
| ScopeBufferedExecutor.PlaceDisjoint | paddle/fluid/framework/details/scope_buffered_ssa_graph_executor.cc:63-89 | no variable is created in both scopes |
| ScopeBufferedExecutor.PlacementExamples | paddle/fluid/framework/details/scope_buffered_ssa_graph_executor.cc:67-73 | a name without "tmp" and a persistable one go to the outer scope, as does a tmp name of an fc_ op; an ordinary tmp name goes to the local execution scope |
| ScopeBufferedExecutor.ContainsAt | paddle/fluid/framework/details/scope_buffered_ssa_graph_executor.cc:67 | a string containing the pattern at some position contains it |
| ScopeBufferedExecutor.MissingCharNotContains | paddle/fluid/framework/details/scope_buffered_ssa_graph_executor.cc:67 | a string lacking one of the pattern's characters does not contain it |
| ScopeBufferedExecutor.NameLessIrreflexive | paddle/fluid/framework/details/scope_buffered_ssa_graph_executor.cc:54-57 | no name sorts before itself |
| ScopeBufferedExecutor.NameLessTransitive | paddle/fluid/framework/details/scope_buffered_ssa_graph_executor.cc:54-57 | the name order is transitive |
| ScopeBufferedExecutor.InsertPermutes | paddle/fluid/framework/details/scope_buffered_ssa_graph_executor.cc:54-57 | inserting an info adds exactly it |
| ScopeBufferedExecutor.InsertSorted | paddle/fluid/framework/details/scope_buffered_ssa_graph_executor.cc:54-57 | inserting into a sorted list keeps it sorted |
| ScopeBufferedExecutor.SortByNameSortsAndPermutes | paddle/fluid/framework/details/scope_buffered_ssa_graph_executor.cc:54-57 | the sort puts the infos in name order and keeps each of them |
| ScopeBufferedExecutor.InsertLast | paddle/fluid/framework/details/scope_buffered_ssa_graph_executor.cc:54-57 | inserting an info no other name exceeds appends it |
| ScopeBufferedExecutor.SortByNameKeepsSorted | paddle/fluid/framework/details/scope_buffered_ssa_graph_executor.cc:54-57 | sorting a sorted list changes nothing, so the sort repeated for every later scope has no effect |
| ScopeBufferedExecutor.ScopeBufferedSSAGraphExecutor.constructor | paddle/fluid/framework/details/scope_buffered_ssa_graph_executor.cc:31-39 | the executor starts with the drop counter at zero and the given infos and scopes |
| ScopeBufferedExecutor.ScopeBufferedSSAGraphExecutor.Run | paddle/fluid/framework/details/scope_buffered_ssa_graph_executor.cc:41-170 | the run's outcome is the underlying executor's, error included; the counter is zero after it; with the counter at zero the infos are sorted and every scope gets its variables placed, and every local execution scope is deleted at the end |
| ScopeBufferedExecutor.CreateVariables | paddle/fluid/framework/details/scope_buffered_ssa_graph_executor.cc:63-89 | the loop for one scope computes the placement specification |
| ScopeMonitor.Increments | paddle/fluid/framework/details/scope_buffered_monitor.cc:102-110 | each scope's increment holds exactly the kids present after the run that were not present before |
| ScopeMonitor.RecordedAt | paddle/fluid/framework/details/scope_buffered_monitor.cc:124-133 | a scope is recorded exactly when some history entry holds it at that position |
| ScopeMonitor.Remaining | paddle/fluid/framework/details/scope_buffered_monitor.cc:124-133 | each position keeps its kids minus those recorded in the dropped entries |
| ScopeMonitor.ScopeBufferedMonitor.constructor | paddle/fluid/framework/details/scope_buffered_monitor.cc:68-73 | the monitor starts with empty history and empty before/after sets, one per local execution scope |
| ScopeMonitor.ScopeBufferedMonitor.Run | paddle/fluid/framework/details/scope_buffered_monitor.cc:75-146 | the before and after sets are the kids before and after the callback; the increment is appended to the history, and with a fetch and at least two entries every older entry's scopes are deleted and only the newest entry is kept |
| ScopeMonitor.ScopeBufferedMonitor.DropOlderEntries | paddle/fluid/framework/details/scope_buffered_monitor.cc:122-134 | every entry but the last is dropped, its scopes are deleted from the kids, and the before/after sets are unchanged |
| ScopeMonitor.ScopeBufferedMonitor.DeleteScopes | paddle/fluid/framework/details/scope_buffered_monitor.cc:128-130 | the given scopes leave the kids of one local execution scope and nothing else changes |
| ScopeMonitor.ScopeBufferedMonitor.ClearHistoryLocalExecScopes | paddle/fluid/framework/details/scope_buffered_monitor.cc:148-150 | the history becomes empty and nothing else changes |
| ScopeMonitor.RemainingSnoc | paddle/fluid/framework/details/scope_buffered_monitor.cc:124-133 | dropping one more entry removes its scopes from each position |
| ScopeMonitor.HistoryLength | paddle/fluid/framework/details/scope_buffered_monitor.cc:121-133 | without a fetch the history grows by one; with one it keeps a single entry |

## Left out

- Threads, mutexes and condition variables are not modelled. Each blocking wait becomes a `requires` on the operation that waits, and concurrent workers run one after another.
- ThreadedExecutor.Workers: the per-device worker threads run one after the other, in device order. `BlockingQueue` timeouts and the atomic counter become plain state. The interleaving of workers does not change which operators each one runs (each worker pops only its own queue), but the model does not capture timing.
- ThreadedExecutor.RunOp: the thread-pool overload (threaded_ssa_graph_executor.cc:273-294) is not modelled; only the inline dependency loop is.
- ThreadedExecutor.Run: running an operator on a device, fetching tensors and the per-op handles (fetch_op_handle.cc, computation_op_handle.cc) are not part of this model; an operator's run is its success or failure message given as input.
- StagingBuffer.Buffer.Put: the wait until the buffer has room becomes `requires` that it has room.
- StagingBuffer.Buffer.Get: the wait until the buffer holds an element becomes `requires` that it is not empty.
- TemporaryAllocation.TemporaryAllocator.MoveToDeleteQueue: the wait for the previous delete queue to drain becomes `requires` that there is none.
- TemporaryAllocation.TemporaryAllocator.Release: requires a pending allocation queue, where the source dereferences a queue that may be null (temporay_allocator.cc:51).
- TemporaryAllocation.TemporaryAllocator.Free: the memory behind an allocation is not modelled. Deleting an allocation appends it to a `deleted` list, and `dynamic_cast` is a flag on the allocation.
- Tracer.PrepareInputAndOutput: the `prepare_pool_` future (tracer.cc:185-193) is not modelled; preparation runs inline.
- Tracer.PrepareInputAndOutput: the calls to TrackPreOp on each input and output (tracer.cc:325, 335), which record the op that last produced a variable, are not modelled, because VarBase and OpBase are not part of this model. The same holds for Tracer.PrepareInputs and Tracer.PrepareOutputs.
- Tracer.GetVarsSavedForBackward: the gradient variables themselves are not modelled. CreateNoBuffuerGrad and the filling of grad_input_vars_ and grad_output_vars_ (tracer.cc:253-296) allocate VarBase objects, so the model states only which arguments resolve and which input slots are saved.
- ScopeBufferedExecutor.ScopeBufferedSSAGraphExecutor.Run: the FLAGS_begin/FLAGS_end debug window and its static flag (scope_buffered_ssa_graph_executor.cc:44-45, 60-86) are not modelled. Neither is the creation of the kLocalExecScopeName variable (:51). `FindVar` is modelled as membership in the scope's own names; lookups through parent scopes are not modelled.
- ScopeBufferedExecutor.ScopeBufferedSSAGraphExecutor.Run: the wrapped executor's Run is an input that either fails or succeeds.
- ScopeMonitor.ScopeBufferedMonitor.Run: GetScopeVarMemorySize and the clearing of tensors (scope_buffered_monitor.cc:137-145) measure device memory and are not modelled.
- Functors.ApplyUnary: the element type T is modelled as `real`, so floating-point rounding and overflow are not modelled. The same holds for the compound functors, FusedElemwiseActivation, FusedOperators, ElementwiseAdd and SequenceExpandAs.
- AllocContinuousSpace.Compute: TensorCopy (tensor_util.cc) is not part of this model. It is specified from its use: it refuses an input that holds no memory, and otherwise gives a copy of the whole tensor.
- FuseVarsKernel.FillSlices: Tensor::Slice (tensor.cc) is not part of this model. It is specified from its use at fuse_vars_op.h:66 by its bounds check, 0 <= begin < end <= dims[0]; its check that the tensor holds memory is not modelled. The same holds for FuseVarsKernel.ComputeAsWritten and FuseVarsKernel.Compute.
- Tracer.GetExpectedPlace: `Get<LoDTensor>().place()` (tracer.cc:69-70) also fails when an input is not a LoD tensor or holds no memory. Variables are modelled by their place alone, so those failures are not modelled.
- ElementwiseAdd.MidDims: get_mid_dims is not part of this model. It is specified from its use in the kernel: pre, n and post are the products of the dimensions before, inside and after the axis window.
- ElementwiseAdd.Compute: only the addition and its broadcast plan are modelled; Eigen evaluation and device dispatch are not.
- FusedElemwiseActivation.GradMakerWritesInputGrads: the source's `InputGrad(name, true)` drops a gradient whose name is empty (fused_elemwise_activation_op.h:79). The model writes the gradient name of every input, because SingleGradOpDescMaker is not part of this model.
- PoolWithIndex.OutputSizeMaxPool: requires `stride != 0`; the source divides by zero there. C++ `int` overflow is not modelled.
- PoolWithIndex.InferShape: requires every stride to be non-zero, for the same reason. C++ `int` overflow is not modelled.
- Conll03.BuildCharDict: Python 2 iterates a `str` byte by byte (conll03.py:52-53). The model iterates characters, so a multi-byte character counts once.
- Conll03.ReaderCreator: the file is a list of lines given as input. The debug `print INS[0]` (conll03.py:97) is dropped; on an empty load it raises IndexError, which the model does not reproduce.
- Conll03.ReaderCreatorWord: as for ReaderCreator (conll03.py:130).
- MultiDevGraphBuilder.MultiDevSSAGraphBuilder.Build: only the CUDA branch of the collective insertion is modelled. For each gradient it adds one AllGather handle per place, which reads the place's latest version of the gradient and writes a new one, and then one AllReduce handle over all places, which reads each place's latest version and writes another; the all-reduce handle's internals (all_reduce_op_handle.cc) are not part of this model. The non-CUDA `PADDLE_ENFORCE("Not implemented")` (multi_devices_graph_builder.cc:213) passes a non-null string and never fails, so it is not modelled as a failure.
- MultiDevGraphBuilder.ScaleLoss: the scale value 1/num_dev and its copy to the device are not modelled; only the handle and its output version are.
- SSAGraphBuilder.PolishGraphToSupportDataHazards: idempotence is not proved, because it does not hold. Nothing removes existing dummy edges, so a second run adds new ones (ssa_graph_builder.cc:42-45).
- RemoveIndependentGraph (ssa_graph_builder.cc:52-115) is not modelled. It only logs, and its traversal does not state a property.
- MultiDevGraphOrder.BuiltScheduled: it proves that creation order is a schedule running every generator, not that IsValidGraph returns true on Build's output. That conclusion also needs the edge lists to agree (Consistent) and every input to be registered (InputsRegistered), which are not proved for Build's output.
- SSAGraphChecker.IsValidGraph: "true exactly when a schedule runs every generator" is proved only for graphs whose inputs are all registered handles. It does not hold in general: an operator that reads a generatorless handle the checker never registered never becomes ready, though a schedule may run it. The same holds for SSAGraphChecker.AnalysisDeepId.
- SSAGraphChecker.AnalysisDeepId: the operators' deep ids are a sequence passed in and returned, because op_handle_base.h is not part of this model. On failure the partly written ids are not returned.
- AddDepthInOpNode.ApplyImpl: the pending-input lists come from op_graph_view, which is not part of this model; they are an input.
- OpFusionPass.FuseInOrder: when an operator already fused into another group is reached again, the model fails before fusing. The source fuses first and then fails the check at op_fusion_pass.cc:64, so the partly fused graph left behind differs.
- OpFusionPass.ApplyImpl: the graph's topological order comes from the model's own sort; graph_helper is not part of this model.
- OpFusionPass.ApplyImplFilled: it leaves out the enforce of op_fusion_pass.cc:67-68, which every fusion of an op with an output fails (see "Findings"). With that enforce, the pass succeeds only when every op fused into has no output; OpFusionPass.FuseInOrder states this for the code as written.
- OpFusionPass.IsForward: the role test is a parameter, because op_proto_maker.h is not part of this model. Paddle defines OpRole::kForward as 0, so `role & kForward` is false for every role and the forward branch of op_fusion_pass.cc:249 is never taken.
- OpFusionPass.TopoSort: the failure facts (every op not run waits on an unmade input, so no valid order exists) are proved for linked graphs, where every input of an op lists the op among its readers. The dependency order and "succeeds exactly when a valid order exists" are proved for SSA graphs, where in addition each reader reads the variable once and each output has its op as only producer. Without those shapes the counts in pending_ops need not match the pending inputs, so the model states only that success means every variable is made. The same holds for OpFusionPass.GetTopoOrder, OpFusionPass.GetTopoOrderFilled, OpFusionPass.ApplyImpl and OpFusionPass.ApplyImplFilled.
- OpFusionPass.StuckStep: it states only that a variable is unmade; that no valid order exists is stated by OpFusionPass.StuckBlocked and OpFusionPass.NotSortable.
- FuseElewiseAddActPass.FuseElewiseAddActMatch: GraphPatternDetector is not part of this model. A match is an input, and the handler's rewrite is modelled from it.
- FuseElewiseAddActPass.SafeRemove: GraphSafeRemoveNodes is not part of this model. It is specified from its use: it removes the nodes and every edge that touches them.
- FuseElewiseAddActPass.ReLinkNodes: on failure the model leaves the graph unchanged, but the source does not roll back. When the enforce at fuse_elewise_add_act_pass.cc:368 fires, op_1's inputs have already been re-pointed (:350-353) and earlier control variables linked (:363); that partly edited graph is not modelled.
- FuseElewiseAddActPass.RemoveIntermediateOut: on failure the model leaves the graph unchanged, but the source does not roll back. The enforces at fuse_elewise_add_act_pass.cc:53-56 and :75-78 fire inside the loop, after earlier nodes were edited; that partly edited graph is not modelled.
- FuseElewiseAddActPass.Link: IR_OP_VAR_LINK is not part of this model. It is specified from its use at fuse_elewise_add_act_pass.cc:363: the variable is appended to the op's outputs and the op becomes the variable's only input.
- FuseOptimizerOpPass.ApplyImpl: only steps 1-4 are modelled (the early exits, the collection of optimizer ops, the fused names and the sort). InitFusedVarsAndAllocSpaceForVars, FuseOptimizerOps and the node removal (fuse_optimizer_op_pass.cc:98-109) run operators on scopes and are not modelled. AppendAllocContinuousSpace is not modelled either.
- FuseOptimizerOpPass.ApplyImpl: the graph attributes it reads and writes are a value of the model's own attribute record.
- The Python program-building scripts, the cuDNN kernels, the kernels that only delegate to Eigen or to math code not shown, and the registration-only or stub files are not part of this model.

## Findings

| source | as written | input that shows it | evidently intended | confidence | as-written member | corrected member |
|---|---|---|---|---|---|---|
| paddle/operators/detail/buffer.h:43-46 | the enforce passes only when the limit is positive and the element is larger than it, so it fails for every element that fits and whenever the limit is 0 | a limit of 100 and an element of 10 bytes: the check fails, so Put never stores anything that fits | fail only when an element larger than a positive limit is put | not executed | StagingBuffer.Buffer.PutAsWritten, StagingBuffer.AsWrittenPutNeverProceeds | StagingBuffer.Buffer.Put, StagingBuffer.PassingElementFitsEmptyBuffer |
| paddle/operators/detail/buffer.h:124-132 | GetBuffer creates a buffer only when the place already has one | the first request for any place | create the buffer when the place has none | not executed | StagingBuffer.Registry.GetBufferAsWritten, StagingBuffer.FirstRequestGetsNoBuffer | StagingBuffer.Registry.GetBuffer |
| paddle/fluid/operators/fuse_vars_op.h:41-68 | only the first GPU variable is recorded, and each output re-slices its own tensor rather than the fused buffer, which Tensor::Slice also refuses when the tensor has fewer rows than elements | two one-dimensional GPU inputs of 2 and 3 elements: the second is never sliced, and no output refers to the fused buffer; a GPU input of dims [2, 3] fails the slice bound | every GPU output is a slice of the fused buffer at its running offset | not executed | FuseVarsKernel.ComputeAsWritten, FuseVarsKernel.AsWrittenSlicesOnlyFirstGpuVar, FuseVarsKernel.AsWrittenLeavesBufferUnused | FuseVarsKernel.Compute, FuseVarsKernel.IntendedSlicesCoverBuffer |
| paddle/fluid/operators/fuse_vars_op.cc:53 | InferShape sets the dimension of "Out", which the operator does not declare | any call: FusedX is never sized | size FusedX with the total element count | not executed | FuseVarsOp.InferShapeAsWritten | FuseVarsOp.InferShape |
| paddle/fluid/framework/details/threaded_ssa_graph_executor.cc:65-66 | a failed operator's EnforceNotMet is stored and never rethrown | an operator that fails: Run returns normally or waits forever | Run rethrows the stored exception | not executed | ThreadedExecutor.Run (rethrow false) | ThreadedExecutor.Run (rethrow true) |
| paddle/fluid/framework/ir/op_fusion_pass.cc:154 | the check is a string literal, which never fails | three operators to fuse: the pass goes on with an empty description | fail unless exactly one operator description remains | not executed | OpFusionPass.FusedDescAsWritten, OpFusionPass.AsWrittenAcceptsThreeOps | OpFusionPass.FusedDesc |
| paddle/fluid/framework/ir/op_fusion_pass.cc:310 | the sort fills a copy of the caller's order | any graph: the order stays empty, so ApplyImpl fuses nothing | fill the caller's order | not executed | OpFusionPass.GetTopoOrder, OpFusionPass.ApplyImpl | OpFusionPass.GetTopoOrderFilled, OpFusionPass.ApplyImplFilled |
| paddle/fluid/framework/ir/op_fusion_pass.cc:67-68 | the enforce requires the fused op to have no inputs and no outputs, but FuseOperators has just given it the outputs of the op fused into | any fusion whose op fused into has an output, such as elementwise_add into relu with relu's output: the pass fails | no such check on the fused op, which keeps the edges it takes over | not executed | OpFusionPass.FuseInOrder (checkEdges true) | OpFusionPass.FuseInOrder (checkEdges false), OpFusionPass.ApplyImplFilled |
| paddle/fluid/operators/alloc_continuous_space2_op.cc:30-71 | the kernel never fills FusedOutput and ignores copy_data and set_constant, which the operator's documentation (:110-150) promises | any call with copy_data set: the outputs are not slices of FusedOutput | allocate FusedOutput with the summed size, make each output a slice of it, and copy or set the values as asked | not executed | AllocContinuousSpace.Compute, AllocContinuousSpace.AsWrittenIgnoresFusedOutput | AllocContinuousSpace.IntendedCompute, AllocContinuousSpace.IntendedSlicesFused |
