/**
 * The compute entry points of the shim, reduced to what the shim itself does
 * around each backend call: fetch or allocate the cached workspace, translate
 * the requested algorithm or mode, and emulate beta where the backend would
 * ignore it. The backend calls themselves are parameters or are left to the
 * caller, who receives the arguments the backend would be given.
 */
module Dispatch {
  import opened Wrappers
  import opened Enums
  import opened Translate
  import opened DeviceMemory
  import opened Workspace
  import opened Shapes
  import opened Accumulation

  /** The algorithm and the workspace a backend call receives. */
  datatype Launch<A> = Launch(algo: A, workspace: Ptr, workspaceSize: nat)

  // ------------------------------------------------------------ algorithm search results

  /** One entry of the backend's search results. */
  datatype MiPerf<M> = MiPerf(algo: M, time: real, memory: nat)

  /** One entry of the shim's search results. */
  datatype Perf<H> = Perf(algo: H, status: Status, time: real, memory: nat)

  /** A backend search result as the shim reports it: translated algorithm, status always success. */
  function PerfOf<M, H>(result: MiPerf<M>, algo: H): (p: Perf<H>)
    ensures p.status == Success && p.time == result.time && p.memory == result.memory && p.algo == algo
  {
    Perf(algo, Success, result.time, result.memory)
  }

  /**
   * The result-copying loop of the three Find*AlgorithmEx entry points: every
   * backend result is translated in order; the first untranslatable one aborts.
   */
  method ReportPerf<M, H>(results: seq<MiPerf<M>>, translate: M -> Option<H>) returns (r: Outcome<seq<Perf<H>>>)
    ensures !r.Failed?
    ensures r.Done? <==> forall i :: 0 <= i < |results| ==> translate(results[i].algo).Some?
    ensures r.Done? ==> |r.value| == |results|
    ensures r.Done? ==> forall i :: 0 <= i < |results| ==>
              translate(results[i].algo).Some? && r.value[i] == PerfOf(results[i], translate(results[i].algo).value)
  {
    var perfResults: seq<Perf<H>> := [];
    var i := 0;
    while i < |results|
      invariant 0 <= i <= |results| && |perfResults| == i
      invariant forall j :: 0 <= j < i ==>
                  translate(results[j].algo).Some? && perfResults[j] == PerfOf(results[j], translate(results[j].algo).value)
    {
      var algo := translate(results[i].algo);
      if algo.None? {
        return Aborted;
      }
      perfResults := perfResults + [PerfOf(results[i], algo.value)];
      i := i + 1;
    }
    r := Done(perfResults);
  }

  // ------------------------------------------------------------ convolution

  /**
   * hipdnnFindConvolutionForwardAlgorithmEx: the forward workspace is fetched
   * or allocated under the convolution descriptor, then the backend's results
   * are reported.
   */
  method FindConvolutionForwardAlgorithm(cache: WorkspaceCache, convDesc: Handle, required: nat,
                                         results: seq<MiPerf<MiConvFwdAlgo>>)
    returns (workspace: Entry, r: Outcome<seq<Perf<ConvFwdAlgo>>>)
    requires cache.Valid()
    modifies cache, cache.dev
    ensures cache.Valid()
    ensures cache.Entries() == Acquired(old(cache.Entries()), Slot(ForwardConvolution, convDesc), workspace.ptr, required)
    ensures workspace == cache.Entries()[Slot(ForwardConvolution, convDesc)]
    ensures AllocatedFor(old(cache.Entries()), Slot(ForwardConvolution, convDesc), workspace.ptr, required,
                         old(cache.dev.live), cache.dev.live)
    ensures !r.Failed?
    ensures r.Done? <==> forall i :: 0 <= i < |results| ==> MiopenToHipConvFwdAlgo(results[i].algo).Some?
    ensures r.Done? ==> |r.value| == |results| && forall i :: 0 <= i < |results| ==>
              MiopenToHipConvFwdAlgo(results[i].algo).Some? && r.value[i] == PerfOf(results[i], MiopenToHipConvFwdAlgo(results[i].algo).value)
  {
    var p, size := cache.Acquire(Slot(ForwardConvolution, convDesc), required);
    workspace := Entry(p, size);
    r := ReportPerf(results, MiopenToHipConvFwdAlgo);
  }

  /**
   * hipdnnConvolutionForward: the workspace block runs before the algorithm is
   * translated, so an untranslatable algorithm still leaves a cached workspace.
   */
  method ConvolutionForward(cache: WorkspaceCache, convDesc: Handle, algo: ConvFwdAlgo, required: nat)
    returns (r: Outcome<Launch<MiConvFwdAlgo>>)
    requires cache.Valid()
    modifies cache, cache.dev
    ensures cache.Valid()
    ensures Slot(ForwardConvolution, convDesc) in cache.ptrs
    ensures cache.Entries() == Acquired(old(cache.Entries()), Slot(ForwardConvolution, convDesc),
                                        cache.ptrs[Slot(ForwardConvolution, convDesc)], required)
    ensures AllocatedFor(old(cache.Entries()), Slot(ForwardConvolution, convDesc), cache.ptrs[Slot(ForwardConvolution, convDesc)], required,
                         old(cache.dev.live), cache.dev.live)
    ensures !r.Failed?
    ensures r.Aborted? <==> HipToMiopenConvFwdAlgo(algo).None?
    ensures r.Done? ==> Some(r.value.algo) == HipToMiopenConvFwdAlgo(algo)
    ensures r.Done? ==> Entry(r.value.workspace, r.value.workspaceSize) == cache.Entries()[Slot(ForwardConvolution, convDesc)]
  {
    var p, size := cache.Acquire(Slot(ForwardConvolution, convDesc), required);
    var mialgo := HipToMiopenConvFwdAlgo(algo);
    if mialgo.None? {
      return Aborted;
    }
    r := Done(Launch(mialgo.value, p, size));
  }

  /** hipdnnFindConvolutionBackwardFilterAlgorithmEx, with the backward-kernel workspace. */
  method FindConvolutionBackwardFilterAlgorithm(cache: WorkspaceCache, convDesc: Handle, required: nat,
                                                results: seq<MiPerf<MiConvBwdWeightsAlgo>>)
    returns (workspace: Entry, r: Outcome<seq<Perf<ConvBwdFilterAlgo>>>)
    requires cache.Valid()
    modifies cache, cache.dev
    ensures cache.Valid()
    ensures cache.Entries() == Acquired(old(cache.Entries()), Slot(BackwardKernelConvolution, convDesc), workspace.ptr, required)
    ensures workspace == cache.Entries()[Slot(BackwardKernelConvolution, convDesc)]
    ensures AllocatedFor(old(cache.Entries()), Slot(BackwardKernelConvolution, convDesc), workspace.ptr, required,
                         old(cache.dev.live), cache.dev.live)
    ensures !r.Failed?
    ensures r.Done? <==> forall i :: 0 <= i < |results| ==> MiopenToHipConvBwdFilterAlgo(results[i].algo).Some?
    ensures r.Done? ==> |r.value| == |results| && forall i :: 0 <= i < |results| ==>
              MiopenToHipConvBwdFilterAlgo(results[i].algo).Some? && r.value[i] == PerfOf(results[i], MiopenToHipConvBwdFilterAlgo(results[i].algo).value)
  {
    var p, size := cache.Acquire(Slot(BackwardKernelConvolution, convDesc), required);
    workspace := Entry(p, size);
    r := ReportPerf(results, MiopenToHipConvBwdFilterAlgo);
  }

  /**
   * hipdnnConvolutionBackwardFilter: workspace block, algorithm translation,
   * then the beta branch on the filter gradient dw.
   */
  method ConvolutionBackwardFilter(cache: WorkspaceCache, convDesc: Handle, algo: ConvBwdFilterAlgo, required: nat,
                                   beta: real, dw: array<real>, dwPtr: Ptr, dwDims: seq<int>, backend: Backend)
    returns (r: Outcome<Launch<MiConvBwdWeightsAlgo>>)
    requires cache.Valid() && dwPtr in cache.dev.live
    requires PreservesLength(backend)
    requires 4 <= |dwDims| <= 5 && forall k :: 0 <= k < |dwDims| ==> dwDims[k] >= 0
    requires Product(dwDims) <= dw.Length
    modifies cache, cache.dev, dw
    ensures cache.Valid()
    ensures Slot(BackwardKernelConvolution, convDesc) in cache.ptrs
    ensures cache.Entries() == Acquired(old(cache.Entries()), Slot(BackwardKernelConvolution, convDesc),
                                        cache.ptrs[Slot(BackwardKernelConvolution, convDesc)], required)
    ensures AllocatedFor(old(cache.Entries()), Slot(BackwardKernelConvolution, convDesc), cache.ptrs[Slot(BackwardKernelConvolution, convDesc)], required,
                         old(cache.dev.live), cache.dev.live)
    ensures !r.Failed?
    ensures r.Aborted? <==> HipToMiopenConvBwdFilterAlgo(algo).None?
    ensures r.Aborted? ==> dw[..] == old(dw[..])
    ensures r.Done? ==> Some(r.value.algo) == HipToMiopenConvBwdFilterAlgo(algo)
    ensures r.Done? ==> Entry(r.value.workspace, r.value.workspaceSize) == cache.Entries()[Slot(BackwardKernelConvolution, convDesc)]
    ensures r.Done? ==> dw[..] == Emulated(backend, old(dw[..]), beta, Product(dwDims))
  {
    var p, size := cache.Acquire(Slot(BackwardKernelConvolution, convDesc), required);
    var mialgo := HipToMiopenConvBwdFilterAlgo(algo);
    if mialgo.None? {
      return Aborted;
    }
    BlendedCall(cache.dev, dw, dwPtr, dwDims, beta, backend);
    r := Done(Launch(mialgo.value, p, size));
  }

  /** hipdnnFindConvolutionBackwardDataAlgorithmEx, with the backward-data workspace. */
  method FindConvolutionBackwardDataAlgorithm(cache: WorkspaceCache, convDesc: Handle, required: nat,
                                              results: seq<MiPerf<MiConvBwdDataAlgo>>)
    returns (workspace: Entry, r: Outcome<seq<Perf<ConvBwdDataAlgo>>>)
    requires cache.Valid()
    modifies cache, cache.dev
    ensures cache.Valid()
    ensures cache.Entries() == Acquired(old(cache.Entries()), Slot(BackwardDataConvolution, convDesc), workspace.ptr, required)
    ensures workspace == cache.Entries()[Slot(BackwardDataConvolution, convDesc)]
    ensures AllocatedFor(old(cache.Entries()), Slot(BackwardDataConvolution, convDesc), workspace.ptr, required,
                         old(cache.dev.live), cache.dev.live)
    ensures !r.Failed?
    ensures r.Done? <==> forall i :: 0 <= i < |results| ==> MiopenToHipConvBwdDataAlgo(results[i].algo).Some?
    ensures r.Done? ==> |r.value| == |results| && forall i :: 0 <= i < |results| ==>
              MiopenToHipConvBwdDataAlgo(results[i].algo).Some? && r.value[i] == PerfOf(results[i], MiopenToHipConvBwdDataAlgo(results[i].algo).value)
  {
    var p, size := cache.Acquire(Slot(BackwardDataConvolution, convDesc), required);
    workspace := Entry(p, size);
    r := ReportPerf(results, MiopenToHipConvBwdDataAlgo);
  }

  /**
   * hipdnnConvolutionBackwardData: workspace block, algorithm translation,
   * then the beta branch on the data gradient dx.
   */
  method ConvolutionBackwardData(cache: WorkspaceCache, convDesc: Handle, algo: ConvBwdDataAlgo, required: nat,
                                 beta: real, dx: array<real>, dxPtr: Ptr, dxDims: seq<int>, backend: Backend)
    returns (r: Outcome<Launch<MiConvBwdDataAlgo>>)
    requires cache.Valid() && dxPtr in cache.dev.live
    requires PreservesLength(backend)
    requires 4 <= |dxDims| <= 5 && forall k :: 0 <= k < |dxDims| ==> dxDims[k] >= 0
    requires Product(dxDims) <= dx.Length
    modifies cache, cache.dev, dx
    ensures cache.Valid()
    ensures Slot(BackwardDataConvolution, convDesc) in cache.ptrs
    ensures cache.Entries() == Acquired(old(cache.Entries()), Slot(BackwardDataConvolution, convDesc),
                                        cache.ptrs[Slot(BackwardDataConvolution, convDesc)], required)
    ensures AllocatedFor(old(cache.Entries()), Slot(BackwardDataConvolution, convDesc), cache.ptrs[Slot(BackwardDataConvolution, convDesc)], required,
                         old(cache.dev.live), cache.dev.live)
    ensures !r.Failed?
    ensures r.Aborted? <==> HipToMiopenConvBwdDataAlgo(algo).None?
    ensures r.Aborted? ==> dx[..] == old(dx[..])
    ensures r.Done? ==> Some(r.value.algo) == HipToMiopenConvBwdDataAlgo(algo)
    ensures r.Done? ==> Entry(r.value.workspace, r.value.workspaceSize) == cache.Entries()[Slot(BackwardDataConvolution, convDesc)]
    ensures r.Done? ==> dx[..] == Emulated(backend, old(dx[..]), beta, Product(dxDims))
  {
    var p, size := cache.Acquire(Slot(BackwardDataConvolution, convDesc), required);
    var mialgo := HipToMiopenConvBwdDataAlgo(algo);
    if mialgo.None? {
      return Aborted;
    }
    BlendedCall(cache.dev, dx, dxPtr, dxDims, beta, backend);
    r := Done(Launch(mialgo.value, p, size));
  }

  // ------------------------------------------------------------ pooling and LRN

  /**
   * hipdnnPoolingForward and hipdnnPoolingBackward: both run the same block on
   * the pooling maps, keyed by the output descriptor yDesc rather than by the
   * pooling descriptor.
   */
  method PoolingWorkspace(cache: WorkspaceCache, yDesc: Handle, required: nat) returns (workspace: Entry)
    requires cache.Valid()
    modifies cache, cache.dev
    ensures cache.Valid()
    ensures cache.Entries() == Acquired(old(cache.Entries()), Slot(Pooling, yDesc), workspace.ptr, required)
    ensures workspace == cache.Entries()[Slot(Pooling, yDesc)]
    ensures AllocatedFor(old(cache.Entries()), Slot(Pooling, yDesc), workspace.ptr, required,
                         old(cache.dev.live), cache.dev.live)
  {
    var p, size := cache.Acquire(Slot(Pooling, yDesc), required);
    workspace := Entry(p, size);
  }

  /**
   * hipdnnLRNCrossChannelForward and hipdnnLRNCrossChannelBackward: the mode is
   * translated first, so an untranslatable mode aborts before the LRN maps are
   * touched; otherwise the block runs on the LRN maps, keyed by yDesc.
   */
  method LrnCrossChannel(cache: WorkspaceCache, lrnMode: LrnMode, yDesc: Handle, required: nat)
    returns (r: Outcome<Entry>)
    requires cache.Valid()
    modifies cache, cache.dev
    ensures cache.Valid()
    ensures !r.Failed?
    ensures r.Aborted? <==> HipToMiopenLrnMode(lrnMode).None?
    ensures r.Aborted? ==> cache.Entries() == old(cache.Entries()) && cache.dev.live == old(cache.dev.live)
    ensures r.Done? ==> cache.Entries() == Acquired(old(cache.Entries()), Slot(Lrn, yDesc), r.value.ptr, required)
    ensures r.Done? ==> r.value == cache.Entries()[Slot(Lrn, yDesc)]
    ensures r.Done? ==> AllocatedFor(old(cache.Entries()), Slot(Lrn, yDesc), r.value.ptr, required,
                                     old(cache.dev.live), cache.dev.live)
  {
    var mimode := HipToMiopenLrnMode(lrnMode);
    if mimode.None? {
      return Aborted;
    }
    var p, size := cache.Acquire(Slot(Lrn, yDesc), required);
    r := Done(Entry(p, size));
  }

  // ------------------------------------------------------------ batch normalisation

  /**
   * hipdnnBatchNormalizationBackward: the mode is translated (an untranslatable
   * mode aborts with the gradients untouched), then the beta branch runs on
   * the three gradients.
   */
  method BatchNormalizationBackward(dev: Device, mode: BatchNormMode, betaData: real, betaParam: real,
                                    dx: array<real>, dxPtr: Ptr, dxDims: seq<int>,
                                    scaleDiff: array<real>, scalePtr: Ptr, biasDiff: array<real>, biasPtr: Ptr,
                                    paramDims: seq<int>, backend: BatchNormBackend)
    returns (r: Outcome<MiBatchNormMode>)
    requires dev.Valid() && dxPtr in dev.live && scalePtr in dev.live && biasPtr in dev.live
    requires PreservesShapes(backend)
    requires dx != scaleDiff && dx != biasDiff && scaleDiff != biasDiff
    requires 4 <= |dxDims| <= 5 && forall k :: 0 <= k < |dxDims| ==> dxDims[k] >= 0
    requires 4 <= |paramDims| <= 5 && forall k :: 0 <= k < |paramDims| ==> paramDims[k] >= 0
    requires Product(dxDims) <= dx.Length
    requires Product(paramDims) <= scaleDiff.Length && Product(paramDims) <= biasDiff.Length
    modifies dev, dx, scaleDiff, biasDiff
    ensures dev.Valid() && dev.live == old(dev.live)
    ensures !r.Failed?
    ensures r.Aborted? <==> HipToMiopenBatchNormMode(mode).None?
    ensures r.Aborted? ==> dx[..] == old(dx[..]) && scaleDiff[..] == old(scaleDiff[..]) && biasDiff[..] == old(biasDiff[..])
    ensures r.Done? ==> Some(r.value) == HipToMiopenBatchNormMode(mode)
    ensures r.Done? ==>
              (Gradients(dx[..], scaleDiff[..], biasDiff[..]) ==
               BatchNormEmulated(backend, old(Gradients(dx[..], scaleDiff[..], biasDiff[..])),
                                 betaData, betaParam, Product(dxDims), Product(paramDims)))
  {
    var miBNMode := HipToMiopenBatchNormMode(mode);
    if miBNMode.None? {
      return Aborted;
    }
    BatchNormBlendedCall(dev, dx, dxPtr, dxDims, scaleDiff, scalePtr, biasDiff, biasPtr, paramDims,
                         betaData, betaParam, backend);
    r := Done(miBNMode.value);
  }
}
