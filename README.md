# hipDNN on MIOpen: a Dafny model of the shim

hipDNN exposes a cuDNN-shaped interface and, on AMD hardware, forwards each call
to MIOpen. The file `library/src/hcc_detail/hipdnn_miopen.cpp` does more than
forward calls. This project models the logic the shim adds, together with the
CPU reference max pooling that the pooling tests check the library against:

- **Workspace cache** (`workspace.dfy`). Five pairs of global maps, one pair per
  operation family, take a descriptor handle to a device workspace and its size.
  - Every compute entry point runs the same get-or-allocate block.
  - `Free` and the destruction of a convolution descriptor erase entries.
  - The class `WorkspaceCache` keeps the two maps, keyed by `Slot(family, handle)`.
  - The pure functions `Acquired`, `Released` and `Destroyed` state each operation's effect on the joined map.
  - The invariant `Backed` ties every cached pointer to a distinct live device allocation.
  - The device allocator (`device.dfy`) stands in for the HIP runtime. `hipMalloc` of zero bytes yields a null pointer.
- **Beta emulation** (`accumulate.dfy`). The backend ignores the blending factor
  beta for the backward passes, so the shim emulates it:
  - it takes a snapshot of the destination;
  - it calls the backend with beta forced to zero;
  - it adds `beta * snapshot` back with the `TensorAdd` kernel;
  - it frees the snapshot.
  - `Emulated` and `BatchNormEmulated` state the result. Lemmas show it equals what a backend honouring beta natively would produce.
- **Entry points** (`dispatch.dfy`):
  - the forward, backward-filter and backward-data convolutions and their algorithm searches;
  - pooling and LRN;
  - batch-normalisation backward.

  Each is reduced to its cache block, its enum translation and its beta branch.
- **Translation tables** (`translate.dfy`). These cover:
  - the enum translators in both directions;
  - the index-to-algorithm helpers;
  - the decoding of an op-tensor descriptor;
  - the support checks;
  - the status messages.
- **Descriptor setters** (`descriptors.dfy`):
  - the dimension dispatch of the N-dimensional pooling and convolution setters;
  - the packed-stride loop of the N-dimensional filter setter.
- **Reference max pooling** (`maxpool.dfy`). `compute_cpuref_maxpool_fwd` from
  `test/test_pooling_fwd_common.hpp` is modelled over arrays, with its four output
  loops and its two window loops. It is proved to store, for every output
  element, the first maximum of the in-bounds window, or `lowest` when the whole
  window lies in the padding.

Conventions:
- The definition of `CHECK_HIPDNN` is not part of this model. The `Aborted` outcome of `Enums.Outcome` assumes that a `CHECK_HIPDNN` whose translator fails leaves the call without a normal return, as `CHECK_MIO` does by exiting. In hipdnnConvolutionBackwardData the check sits inside a `try` block whose handler returns success; if the macro threw instead, that call would return success with dx untouched.
- A translator's `HIPDNN_STATUS_NOT_SUPPORTED` is `None`.
- Element values are `real`.
- Backend calls are function parameters:
  - `Backend` is the destination's new contents as a function of beta and its old contents.
  - `BatchNormBackend` is the same for the three batch-normalisation gradients.

## Model

Source paths are relative to the repository root; every `hipdnn_miopen.cpp` path is `library/src/hcc_detail/hipdnn_miopen.cpp`.

| member | source | states |
|---|---|---|
| Workspace.Acquired | library/src/hcc_detail/hipdnn_miopen.cpp:1282-1306 | a present key leaves the cache as it is; an absent key gains (pointer, required size) and no other key changes |
| Workspace.Released | library/src/hcc_detail/hipdnn_miopen.cpp:94-106 | the key is erased exactly when it is present with a non-null pointer and a positive size; otherwise nothing changes; other keys keep their entries |
| Workspace.AcquireIdempotent | library/src/hcc_detail/hipdnn_miopen.cpp:1282-1306 | a second acquire of the same key returns the first one's entry, whatever size it asks for |
| Workspace.AcquireThenReleaseRestores | library/src/hcc_detail/hipdnn_miopen.cpp:94-106 | freeing a freshly allocated non-empty workspace restores the cache |
| Workspace.ZeroSizeEntrySticks | library/src/hcc_detail/hipdnn_miopen.cpp:94-106 | a zero-byte workspace is cached as (null, 0) and Free never erases it |
| Workspace.DestroyReleasesConvolutionSlots | library/src/hcc_detail/hipdnn_miopen.cpp:1064-1077 | after destroying a convolution descriptor none of its three convolution slots holds a releasable workspace; every slot of another descriptor or of the pooling and LRN families is unchanged |
| Workspace.DestroyIdempotent | library/src/hcc_detail/hipdnn_miopen.cpp:1064-1077 | destroying a descriptor twice does no more than destroying it once |
| Workspace.AcquirePreservesBacked | library/src/hcc_detail/hipdnn_miopen.cpp:1282-1306 | recording a new allocation keeps every cached pointer backed by a distinct live allocation of its recorded size |
| Workspace.ReleasePreservesBacked | library/src/hcc_detail/hipdnn_miopen.cpp:94-106 | freeing a releasable slot keeps every other cached pointer backed |
| Workspace.WorkspaceCache.constructor | library/src/hcc_detail/hipdnn_miopen.cpp:67-90 | the maps start empty |
| Workspace.WorkspaceCache.Acquire | library/src/hcc_detail/hipdnn_miopen.cpp:1282-1306 | the cache becomes `Acquired(old, slot, p, required)`; a hit returns the stored pair and allocates nothing; a miss allocates `required` bytes (null when zero) at a pointer not live before; together: `AllocatedFor(old entries, slot, p, required, old live, live)` |
| Workspace.SecondAcquireAllocatesNothing | library/src/hcc_detail/hipdnn_miopen.cpp:1282-1306 | a second get-or-allocate on a slot already cached leaves the device's allocations unchanged, whatever size it asks for |
| Workspace.ReleasedPtr | library/src/hcc_detail/hipdnn_miopen.cpp:94-106 | the pointer handed to hipFree is the slot's pointer when the slot is releasable, and nothing otherwise |
| Workspace.WorkspaceCache.FreeEntry | library/src/hcc_detail/hipdnn_miopen.cpp:94-106 | the cache becomes `Released(old, slot)`; the device frees the slot's pointer exactly when it was releasable |
| Workspace.WorkspaceCache.DestroyConvolutionDescriptor | library/src/hcc_detail/hipdnn_miopen.cpp:1064-1077 | the cache becomes `Destroyed(old, desc)`: forward, backward-kernel and backward-data slots are freed in that order; the device loses exactly the pointers of those of the three slots that were releasable, and no other allocation |
| Accumulation.Recombined | library/src/hcc_detail/hipdnn_miopen.cpp:113-120 | each of the first n elements becomes beta times the prior's element plus its own; the rest and the length are unchanged |
| Accumulation.RecombinedZeroBeta | library/src/hcc_detail/hipdnn_miopen.cpp:113-120 | with beta zero the kernel changes nothing |
| Accumulation.RecombinedTwice | library/src/hcc_detail/hipdnn_miopen.cpp:113-120 | two passes with the same prior add their factors |
| Accumulation.TensorAdd | library/src/hcc_detail/hipdnn_miopen.cpp:113-120 | C becomes `Recombined(old C, A, beta, N)`: `C[i] = beta*A[i] + C[i]` for i below N, C[j] unchanged for j at or past N, A unchanged |
| Accumulation.ElementCountAsWritten | library/src/hcc_detail/hipdnn_miopen.cpp:816-817 | the count is the product of the first four extents; it is the element count exactly for four extents |
| Accumulation.FifthExtentIgnored | library/src/hcc_detail/hipdnn_miopen.cpp:816-817 | for five positive extents with a last extent above one, that count is below the element count |
| Accumulation.FifthExtentCounterexample | library/src/hcc_detail/hipdnn_miopen.cpp:816-817 | for extents (1,1,1,1,2) the as-written count leaves the second element unblended |
| Accumulation.AccumulateGradients | library/src/hcc_detail/hipdnn_miopen.cpp:803-827 | returns success and blends the prior into the gradient over all of the gradient's elements |
| Accumulation.SaveAsPriorBuffer | library/src/hcc_detail/hipdnn_miopen.cpp:127-138 | a fresh copy of the data in a new non-null allocation as large as the data's allocation |
| Accumulation.DeallocPrior | library/src/hcc_detail/hipdnn_miopen.cpp:140-144 | the buffer is no longer live afterwards; nothing else changes |
| Accumulation.Emulated | library/src/hcc_detail/hipdnn_miopen.cpp:1548-1566 | the beta branch keeps the destination's length |
| Accumulation.EmulatedBranchesAgree | library/src/hcc_detail/hipdnn_miopen.cpp:1548-1566 | the beta-zero short cut gives what the snapshot path would: the beta-zero result recombined with the old contents |
| Accumulation.EmulationMatchesNative | library/src/hcc_detail/hipdnn_miopen.cpp:1548-1566 | over the whole tensor the emulation equals any backend that follows the blending rule element by element (new[i] = result[i] + beta * old[i]) |
| Accumulation.BlendedCall | library/src/hcc_detail/hipdnn_miopen.cpp:1548-1566 | the destination becomes `Emulated(backend, old, beta, count)` and the snapshot is freed: the device's allocations are as before |
| Accumulation.BatchNormEmulated | library/src/hcc_detail/hipdnn_miopen.cpp:2401-2440 | the three gradients keep their lengths |
| Accumulation.BatchNormEmulationMatchesNative | library/src/hcc_detail/hipdnn_miopen.cpp:2401-2440 | over whole tensors the emulation equals any backend following the blending rule element by element for both factors: dx blended with the data factor, scale and bias gradients with the parameter factor |
| Accumulation.BatchNormBlendedCall | library/src/hcc_detail/hipdnn_miopen.cpp:2401-2440 | the gradients become `BatchNormEmulated(...)`; all three snapshots are freed |
| Dispatch.ReportPerf | library/src/hcc_detail/hipdnn_miopen.cpp:1226-1235 | succeeds exactly when every backend result's algorithm translates; each reported entry carries the translated algorithm, status success and the backend's time and memory |
| Dispatch.FindConvolutionForwardAlgorithm | library/src/hcc_detail/hipdnn_miopen.cpp:1168-1239 | acquires the forward workspace of the descriptor, then reports the results; never fails; aborts exactly when some result does not translate; otherwise reports one entry per backend result, in order, each `PerfOf` the result with its translated algorithm (status success, the backend's time and memory); the device gains exactly the workspace's allocation on a miss of positive size and is otherwise unchanged (`AllocatedFor`) |
| Dispatch.ConvolutionForward | library/src/hcc_detail/hipdnn_miopen.cpp:1269-1320 | the workspace is acquired before the algorithm is translated; aborts exactly when the algorithm does not translate; otherwise the backend gets the translated algorithm and the cached workspace; the device gains exactly the workspace's allocation on a miss of positive size and is otherwise unchanged (`AllocatedFor`) |
| Dispatch.FindConvolutionBackwardFilterAlgorithm | library/src/hcc_detail/hipdnn_miopen.cpp:1402-1479 | as the forward search, on the backward-kernel workspace, with the same device effect |
| Dispatch.ConvolutionBackwardFilter | library/src/hcc_detail/hipdnn_miopen.cpp:1509-1578 | acquires the backward-kernel workspace; aborts with dw untouched exactly when the algorithm does not translate; otherwise dw becomes `Emulated(backend, old dw, beta, count)`; the snapshot is freed again, so the device gains exactly the workspace's allocation on a miss of positive size and is otherwise unchanged (`AllocatedFor`) |
| Dispatch.FindConvolutionBackwardDataAlgorithm | library/src/hcc_detail/hipdnn_miopen.cpp:1680-1767 | as the forward search, on the backward-data workspace, with the same device effect |
| Dispatch.ConvolutionBackwardData | library/src/hcc_detail/hipdnn_miopen.cpp:1771-1851 | acquires the backward-data workspace; aborts with dx untouched exactly when the algorithm does not translate; otherwise dx becomes `Emulated(backend, old dx, beta, count)`; the snapshot is freed again, so the device gains exactly the workspace's allocation on a miss of positive size and is otherwise unchanged (`AllocatedFor`) |
| Dispatch.PoolingWorkspace | library/src/hcc_detail/hipdnn_miopen.cpp:1968-2054 | forward and backward pooling acquire the same slot, keyed by the output descriptor yDesc; the device gains exactly the workspace's allocation on a miss of positive size and is otherwise unchanged (`AllocatedFor`), so a second call allocates nothing |
| Dispatch.LrnCrossChannel | library/src/hcc_detail/hipdnn_miopen.cpp:2194-2303 | an untranslatable mode aborts before the cache is touched; otherwise the LRN slot keyed by yDesc is acquired, and the device gains exactly the workspace's allocation on a miss of positive size and is otherwise unchanged (`AllocatedFor`) |
| Dispatch.BatchNormalizationBackward | library/src/hcc_detail/hipdnn_miopen.cpp:2387-2443 | aborts with the gradients untouched exactly when the mode does not translate; otherwise the gradients become `BatchNormEmulated(...)` and the device's allocations are as before |
| Translate.MiopenToHipStatus | library/src/hcc_detail/hipdnn_miopen.cpp:148-178 | success exactly for backend success; not-supported exactly for not-implemented and unnamed codes; never an unnamed status |
| Translate.MiopenToHipStatusInjective | library/src/hcc_detail/hipdnn_miopen.cpp:148-178 | distinct backend statuses stay distinct unless both are not-implemented or unnamed |
| Translate.HipToMiopenDataType | library/src/hcc_detail/hipdnn_miopen.cpp:182-200 | defined exactly for float and half |
| Translate.MiopenToHipDataType | library/src/hcc_detail/hipdnn_miopen.cpp:202-216 | defined exactly for the named backend types |
| Translate.DataTypeRoundTrip | library/src/hcc_detail/hipdnn_miopen.cpp:182-216 | the two data-type tables are inverse on what they translate |
| Translate.MiopenToHipOpTensorOp | library/src/hcc_detail/hipdnn_miopen.cpp:220-241 | defined exactly for the named backend operators |
| Translate.HipToMiopenOpTensorOp | library/src/hcc_detail/hipdnn_miopen.cpp:243-266 | defined exactly for add, mul, min and max |
| Translate.OpTensorOpRoundTrip | library/src/hcc_detail/hipdnn_miopen.cpp:220-266 | the two operator tables are inverse |
| Translate.DescriptorTensorOp | library/src/hcc_detail/hipdnn_miopen.cpp:935-950 | values 1 to 4 select add, mul, min, max; every value outside 2 to 4 gives add |
| Translate.DescriptorTensorOpRoundTrip | library/src/hcc_detail/hipdnn_miopen.cpp:935-950 | every backend operator is selected by its own value |
| Translate.HipToMiopenConvolutionMode | library/src/hcc_detail/hipdnn_miopen.cpp:277-282 | every mode becomes the plain backend convolution |
| Translate.MiopenToHipConvolutionMode | library/src/hcc_detail/hipdnn_miopen.cpp:270-275 | every backend mode becomes convolution |
| Translate.HipToMiopenPoolingMode | library/src/hcc_detail/hipdnn_miopen.cpp:286-307 | defined exactly for the named modes; max exactly for max and max-deterministic |
| Translate.MiopenToHipPoolingMode | library/src/hcc_detail/hipdnn_miopen.cpp:309-326 | defined exactly for the two named backend modes |
| Translate.PoolingModeRoundTrip | library/src/hcc_detail/hipdnn_miopen.cpp:286-326 | there and back is the identity exactly for max and average-including-padding |
| Translate.PoolingModeCollapse | library/src/hcc_detail/hipdnn_miopen.cpp:286-326 | both averages meet, max and max-deterministic meet, and average comes back as average-including-padding |
| Translate.MiPoolingModeRoundTrip | library/src/hcc_detail/hipdnn_miopen.cpp:286-326 | a backend mode survives the trip through the shim |
| Translate.HipToMiopenLrnMode | library/src/hcc_detail/hipdnn_miopen.cpp:330-344 | defined exactly for the two named modes |
| Translate.MiopenToHipLrnMode | library/src/hcc_detail/hipdnn_miopen.cpp:346-360 | defined exactly for the two named backend modes |
| Translate.LrnModeRoundTrip | library/src/hcc_detail/hipdnn_miopen.cpp:330-360 | the two LRN tables are inverse |
| Translate.HipToMiopenBatchNormMode | library/src/hcc_detail/hipdnn_miopen.cpp:364-382 | defined exactly for the named modes; spatial-persistent is served by spatial |
| Translate.MiopenToHipActivationMode | library/src/hcc_detail/hipdnn_miopen.cpp:386-423 | defined exactly for the named backend modes |
| Translate.HipToMiopenActivationMode | library/src/hcc_detail/hipdnn_miopen.cpp:425-477 | refused exactly for ELU, clipped ReLU and unnamed modes |
| Translate.ActivationModeRoundTrip | library/src/hcc_detail/hipdnn_miopen.cpp:386-477 | the two activation tables are inverse |
| Translate.HipToMiopenConvFwdAlgo | library/src/hcc_detail/hipdnn_miopen.cpp:481-518 | defined exactly for the named algorithms; GEMM exactly for GEMM and implicit GEMM |
| Translate.MiopenToHipConvFwdAlgo | library/src/hcc_detail/hipdnn_miopen.cpp:520-543 | defined exactly for the named backend algorithms; never yields implicit GEMM |
| Translate.ConvFwdAlgoRoundTrip | library/src/hcc_detail/hipdnn_miopen.cpp:481-543 | backend algorithms survive the round trip; shim algorithms do except implicit GEMM |
| Translate.GetConvolutionFwdAlgo | library/src/hcc_detail/hipdnn_miopen.cpp:545-562 | index i names the backend algorithm with code i; indices at or past the count clamp to Winograd; negative indices abort |
| Translate.HipToMiopenConvBwdFilterAlgo | library/src/hcc_detail/hipdnn_miopen.cpp:566-595 | defined exactly for the named algorithms |
| Translate.MiopenToHipConvBwdFilterAlgo | library/src/hcc_detail/hipdnn_miopen.cpp:597-612 | defined exactly for the named backend algorithms |
| Translate.ConvBwdFilterAlgoRoundTrip | library/src/hcc_detail/hipdnn_miopen.cpp:566-612 | the two tables are inverse |
| Translate.GetConvolutionBwdFilterAlgo | library/src/hcc_detail/hipdnn_miopen.cpp:614-633 | index i names the backend algorithm with code i; indices at or past the count clamp to algorithm 0, GEMM; negative indices abort |
| Translate.HipToMiopenConvBwdDataAlgo | library/src/hcc_detail/hipdnn_miopen.cpp:637-683 | defined exactly for the named algorithms; Winograd exactly for Winograd and non-fused Winograd |
| Translate.MiopenToHipConvBwdDataAlgo | library/src/hcc_detail/hipdnn_miopen.cpp:685-709 | defined exactly for the named backend algorithms; never yields non-fused Winograd |
| Translate.ConvBwdDataAlgoRoundTrip | library/src/hcc_detail/hipdnn_miopen.cpp:637-709 | backend algorithms survive the round trip; shim algorithms do except non-fused Winograd |
| Translate.GetConvolutionBwdDataAlgo | library/src/hcc_detail/hipdnn_miopen.cpp:711-730 | index i names the backend algorithm with code i; indices at or past the count of 2 clamp to Winograd; negative indices abort |
| Translate.SoftmaxModeSupported | library/src/hcc_detail/hipdnn_miopen.cpp:734-746 | not supported exactly for the per-instance mode |
| Translate.SoftmaxAlgorithmSupported | library/src/hcc_detail/hipdnn_miopen.cpp:748-758 | not supported exactly for log-softmax |
| Translate.TensorFormatSupported | library/src/hcc_detail/hipdnn_miopen.cpp:762-771 | supported exactly for NCHW |
| Translate.ConvFwdPreferenceSupported | library/src/hcc_detail/hipdnn_miopen.cpp:773-785 | not supported exactly for no-workspace and workspace-limit |
| Translate.ConvBwdFilterPreferenceSupported | library/src/hcc_detail/hipdnn_miopen.cpp:787-798 | not supported exactly for no-workspace and workspace-limit |
| Translate.ErrorString | library/src/hcc_detail/hipdnn_miopen.cpp:2763-2803 | the fallback message exactly for unnamed statuses; every named status gets a message starting with `HIPDNN_STATUS_` |
| Translate.StatusNameRoundTrip | library/src/hcc_detail/hipdnn_miopen.cpp:2765-2800 | each enumerator name reads back to its own status |
| Translate.ErrorStringRoundTrip | library/src/hcc_detail/hipdnn_miopen.cpp:2763-2803 | a message determines its named status, and names none for the fallback |
| Translate.ErrorStringInjective | library/src/hcc_detail/hipdnn_miopen.cpp:2763-2803 | distinct named statuses have distinct messages |
| Descriptors.SetPoolingNd | library/src/hcc_detail/hipdnn_miopen.cpp:2732-2759 | not supported exactly when nbDims is not 2; aborts exactly for an untranslatable mode; otherwise the translated mode with window, padding and stride from the first two entries |
| Descriptors.SetPoolingNdCollapsesModes | library/src/hcc_detail/hipdnn_miopen.cpp:2740-2752 | both averages give the same descriptor, as do max and max-deterministic; max and average differ |
| Descriptors.ConvolutionDescriptors.SetConvolutionNd | library/src/hcc_detail/hipdnn_miopen.cpp:2806-2860 | success exactly for two or three dimensions, recording the planar plain-convolution geometry; three records the depth triple; other lengths change nothing |
| Descriptors.PackedStridesRecurrence | library/src/hcc_detail/hipdnn_miopen.cpp:2498-2501 | the last stride is 1 and each other is the next stride times the next extent |
| Descriptors.PackedStridesDense | library/src/hcc_detail/hipdnn_miopen.cpp:2498-2507 | the first stride times the first extent is the element count |
| Descriptors.FilterStrides | library/src/hcc_detail/hipdnn_miopen.cpp:2496-2501 | the backward loop over a buffer of one entry per extent fills it with the packed strides |
| Descriptors.SetFilterNd | library/src/hcc_detail/hipdnn_miopen.cpp:2488-2517 | aborts exactly for an untranslatable data type; otherwise the dimensions, translated type and packed strides |
| Descriptors.WrittenIndices | library/src/hcc_detail/hipdnn_miopen.cpp:2498 | the stride loop writes indices nbDims-1 down to 0 |
| Descriptors.StrideLoopOverruns | library/src/hcc_detail/hipdnn_miopen.cpp:2496-2499 | with the declared nbDims-1 entries the first write is one past the end |
| Descriptors.StrideLoopFits | library/src/hcc_detail/hipdnn_miopen.cpp:2496-2499 | with nbDims entries every write is in bounds |
| MaxPoolReference.FlatBound | test/test_pooling_fwd_common.hpp:39-41 | in-range coordinates give an offset inside the tensor |
| MaxPoolReference.FlatInjective | test/test_pooling_fwd_common.hpp:39-41 | distinct in-range coordinates give distinct offsets, so no output cell is written twice |
| MaxPoolReference.Cell | test/test_pooling_fwd_common.hpp:53-64 | a window cell is read exactly when its input row and column are in bounds |
| MaxPoolReference.ScanIsFirstMaximum | test/test_pooling_fwd_common.hpp:43-75 | the scan is initialised exactly when a cell is in bounds; its value bounds every value; when initialised it sits at refIndex and every earlier value is strictly smaller; otherwise it is (lowest, 0) |
| MaxPoolReference.WindowMaximum | test/test_pooling_fwd_common.hpp:43-76 | the same in window coordinates: lowest for an all-padding window, else the first maximum over in-bounds cells |
| MaxPoolReference.ScanWindow | test/test_pooling_fwd_common.hpp:43-76 | the two window loops compute the window's scan result |
| MaxPoolReference.PoolPlane | test/test_pooling_fwd_common.hpp:37-82 | the outputs of one (n, c) plane receive their window results; later cells are untouched |
| MaxPoolReference.MaxPoolForward | test/test_pooling_fwd_common.hpp:34-86 | every output element holds its window's result; every offset below the output count is an output element's; cells past the output are untouched; src is unchanged |

## Left out

- Accumulation.BlendedCall blends `Product(dims)` elements, the corrected count of the fifth-extent finding below. The source blends only the product of the first four extents, so for a 5-D tensor whose fifth extent exceeds one it differs from the model.
- Accumulation.AccumulateAll: as BlendedCall, uses the corrected count for all three gradients.
- Accumulation.BatchNormBlendedCall: as BlendedCall, uses the corrected count for dx and the parameter gradients.
- Dispatch.ConvolutionBackwardFilter: dw is blended over all extents through BlendedCall; the source leaves elements past the first four extents of a 5-D dw unblended.
- Dispatch.ConvolutionBackwardData: dx is blended over all extents through BlendedCall; the source leaves elements past the first four extents of a 5-D dx unblended.
- Dispatch.BatchNormalizationBackward: the gradients are blended over all extents through BatchNormBlendedCall; the source leaves elements past the first four extents of 5-D gradients unblended.
- Backend calls. Every MIOpen call is a parameter or left to the caller. A failing backend call, `hipMalloc`, `hipMemcpy` or `hipMemPtrGetInfo` is not modelled: the model assumes they succeed. `CHECK_MIO` exits the process on failure; the definition of `CHECK_HIP` is not part of this model, so its behaviour on failure is not modelled either.
- The HIP runtime. The `Device` class is not part of the source. It stands in for `hipMalloc`, `hipFree` and `hipMemPtrGetInfo`. Accumulation.BlendedCall, Dispatch.ConvolutionBackwardFilter and Dispatch.ConvolutionBackwardData require the gradient's pointer to be a live device allocation on both beta branches, although only the snapshot branch queries it; any gradient allocated with `hipMalloc` meets this.
- Floating point. Values are reals, so single-precision rounding and NaN are not modelled. In the source, `beta` is read through a float pointer.
- Grid-stride parallelism. `TensorAdd` visits its indices sequentially; each index is visited exactly once either way.
- Accumulation.AccumulateGradients, Accumulation.BlendedCall, Accumulation.BatchNormBlendedCall, Dispatch.ConvolutionBackwardFilter, Dispatch.ConvolutionBackwardData and Dispatch.BatchNormalizationBackward require four or five extents. The source never checks the rank: with fewer than four it reads unset entries of its five-entry extent buffer, and with more than five it writes past that buffer. Neither case is modelled.
- Integer widths:
  - Accumulation.AccumulateGradients does not model the 32-bit `int` product `totalElements`, which can overflow. It also does not model the comparison of a `size_t` index with that `int`.
  - MaxPoolReference.MaxPoolForward computes offsets as unbounded integers; the source uses `size_t`.
  - Descriptors.SetFilterNd and Descriptors.FilterStrides compute the stride products as unbounded integers; the source multiplies 32-bit `int` values, which can overflow for large filters.
- The `hipdnnGet*Algorithm` and the non-Ex `hipdnnFind*Algorithm` bodies, since they forward to the backend with dummy buffers.
- The RNN, dropout, reduction and fusion pass-throughs. They have no logic of their own.
- Logging, the exception handlers around backend calls, and thread safety of the global maps. The model is single-threaded.
- Descriptors.ConvolutionDescriptors.SetConvolutionNd:
  - It records the depth triple as a value. The source stores a pointer to a stack array that dies when the function returns.
  - The depth map is never erased, as in the source.
- Descriptors.SetPoolingNd ignores the NaN-propagation option, as the source does.
- Descriptors.SetFilterNd:
  - It ignores the tensor format, as the source does.
  - The source's lines 2510-2514 hold unresolved merge markers. Both sides pass strides computed the same way.
- Pooling and LRN workspaces are never released. The pooling and LRN descriptor destructors do not touch the cache. The model has no operation that removes those slots.
- Dispatch.PoolingWorkspace and Dispatch.LrnCrossChannel return the cached workspace only. The backend calls that use it, including pooling backward's call without a size, are not modelled.
- Dispatch.ConvolutionForward does not model the output tensor: the backend receives beta natively.
- Dispatch.ReportPerf models the copying loop over the results the backend returned. The number of results requested is not modelled.

## Findings

| source | as written | input that shows it | evidently intended | confidence | as-written member | corrected member |
|---|---|---|---|---|---|---|
| library/src/hcc_detail/hipdnn_miopen.cpp:2496-2506 | `strideA` and `strideDimA` are declared with `nbDims - 1` entries, but the loops write indices `nbDims - 1` down to 0 | nbDims = 4: the first write is `strideA[3]` into a 3-entry array | one entry per extent (`nbDims` entries) | not executed | Descriptors.StrideLoopOverruns | Descriptors.FilterStrides |
| library/src/hcc_detail/hipdnn_miopen.cpp:816-817 | `totalElements` is the product of the first four extents only, although the extents buffer has room for five | a 5-D gradient with extents (1,1,1,1,2), result 0, prior 1, beta 1: the second element stays 0 instead of becoming 1 | the product of all the gradient's extents | not executed | Accumulation.FifthExtentCounterexample | Accumulation.AccumulateGradients |
