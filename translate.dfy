/**
 * The shim's translation and validation tables: pure mappings between the two
 * interfaces' enumerations (library/src/hcc_detail/hipdnn_miopen.cpp:148-798),
 * the decoding of an op-tensor descriptor value (:935-950) and the status
 * message table (:2763-2804).
 *
 * A translator in the source returns HIPDNN_STATUS_SUCCESS and writes its out
 * parameter, or returns HIPDNN_STATUS_NOT_SUPPORTED; here that is `Some(v)` and
 * `None`.
 */
module Translate {
  import opened Wrappers
  import opened Enums

  // ------------------------------------------------------------ status codes

  /** Backend status to shim status; CHECK_MIO treats exactly MiSuccess as success. */
  function MiopenToHipStatus(s: MiStatus): (r: Status)
    ensures r == Success <==> s == MiSuccess
    ensures r == NotSupported <==> s == MiNotImplemented || s.OtherMiStatus?
    ensures !r.OtherStatus?
  {
    match s
    case MiSuccess => Success
    case MiNotInitialized => NotInitialized
    case MiAllocFailed => AllocFailed
    case MiBadParm => BadParam
    case MiInternalError => InternalError
    case MiInvalidValue => InvalidValue
    case MiUnknownError => ExecutionFailed
    case MiNotImplemented => NotSupported
    case OtherMiStatus(_) => NotSupported
  }

  /** Distinct named backend failures stay distinct, except that "not implemented" and unnamed codes merge. */
  lemma MiopenToHipStatusInjective(s: MiStatus, t: MiStatus)
    requires s != t
    requires !(s == MiNotImplemented || s.OtherMiStatus?) || !(t == MiNotImplemented || t.OtherMiStatus?)
    ensures MiopenToHipStatus(s) != MiopenToHipStatus(t)
  {
  }

  // ------------------------------------------------------------ data types

  function HipToMiopenDataType(t: DataType): (r: Option<MiDataType>)
    ensures r.Some? <==> t == Float || t == Half
    ensures r.Some? ==> !r.value.OtherMiDataType?
  {
    match t
    case Float => Some(MiFloat)
    case Half => Some(MiHalf)
    case _ => None
  }

  function MiopenToHipDataType(t: MiDataType): (r: Option<DataType>)
    ensures r.Some? <==> !t.OtherMiDataType?
  {
    match t
    case MiFloat => Some(Float)
    case MiHalf => Some(Half)
    case OtherMiDataType(_) => None
  }

  /** The two data-type tables are inverse to each other on what they translate. */
  lemma DataTypeRoundTrip(t: DataType, m: MiDataType)
    ensures HipToMiopenDataType(t) == Some(m) <==> MiopenToHipDataType(m) == Some(t)
  {
  }

  // ------------------------------------------------------------ op-tensor operators

  function MiopenToHipOpTensorOp(op: MiTensorOp): (r: Option<OpTensorOp>)
    ensures r.Some? <==> !op.OtherMiTensorOp?
  {
    match op
    case MiOpAdd => Some(OpAdd)
    case MiOpMul => Some(OpMul)
    case MiOpMin => Some(OpMin)
    case MiOpMax => Some(OpMax)
    case OtherMiTensorOp(_) => None
  }

  function HipToMiopenOpTensorOp(op: OpTensorOp): (r: Option<MiTensorOp>)
    ensures r.Some? <==> op in {OpAdd, OpMul, OpMin, OpMax}
  {
    match op
    case OpAdd => Some(MiOpAdd)
    case OpMul => Some(MiOpMul)
    case OpMin => Some(MiOpMin)
    case OpMax => Some(MiOpMax)
    case _ => None
  }

  lemma OpTensorOpRoundTrip(op: OpTensorOp, m: MiTensorOp)
    ensures HipToMiopenOpTensorOp(op) == Some(m) <==> MiopenToHipOpTensorOp(m) == Some(op)
  {
  }

  /**
   * The op-tensor "descriptor" is an operator code carried in the pointer value
   * itself: 1 to 4 select Add, Mul, Min and Max, anything else falls back to Add.
   */
  function DescriptorTensorOp(descriptorValue: nat): (r: MiTensorOp)
    ensures !r.OtherMiTensorOp?
    ensures r == MiOpAdd <==> !(2 <= descriptorValue <= 4)
    ensures 1 <= descriptorValue <= 4 ==> TensorOpDescriptorValue(r) == descriptorValue
  {
    if descriptorValue == 1 then MiOpAdd
    else if descriptorValue == 2 then MiOpMul
    else if descriptorValue == 3 then MiOpMin
    else if descriptorValue == 4 then MiOpMax
    else MiOpAdd
  }

  /** The pointer value that selects each backend operator. */
  function TensorOpDescriptorValue(op: MiTensorOp): (v: nat)
    requires !op.OtherMiTensorOp?
    ensures 1 <= v <= 4
  {
    match op
    case MiOpAdd => 1
    case MiOpMul => 2
    case MiOpMin => 3
    case MiOpMax => 4
  }

  lemma DescriptorTensorOpRoundTrip(op: MiTensorOp)
    requires !op.OtherMiTensorOp?
    ensures DescriptorTensorOp(TensorOpDescriptorValue(op)) == op
  {
  }

  // ------------------------------------------------------------ convolution mode

  /** Only plain convolution exists on the backend; the requested mode is ignored. */
  function HipToMiopenConvolutionMode(mode: ConvolutionMode): (r: MiConvolutionMode)
    ensures r == MiConvolution
  {
    if mode == Convolution then MiConvolution else MiConvolution
  }

  function MiopenToHipConvolutionMode(mode: MiConvolutionMode): (r: ConvolutionMode)
    ensures r == Convolution
  {
    if mode == MiConvolution then Convolution else Convolution
  }

  // ------------------------------------------------------------ pooling modes

  function HipToMiopenPoolingMode(mode: PoolingMode): (r: Option<MiPoolingMode>)
    ensures r.Some? <==> !mode.OtherPoolingMode?
    ensures r.Some? ==> !r.value.OtherMiPoolingMode?
    ensures r == Some(MiPoolMax) <==> mode == PoolMax || mode == PoolMaxDeterministic
  {
    match mode
    case PoolMax => Some(MiPoolMax)
    case PoolAverageIncludePadding => Some(MiPoolAverage)
    case PoolAverageExcludePadding => Some(MiPoolAverage)
    case PoolMaxDeterministic => Some(MiPoolMax)
    case OtherPoolingMode(_) => None
  }

  function MiopenToHipPoolingMode(mode: MiPoolingMode): (r: Option<PoolingMode>)
    ensures r.Some? <==> !mode.OtherMiPoolingMode?
  {
    match mode
    case MiPoolMax => Some(PoolMax)
    case MiPoolAverage => Some(PoolAverageIncludePadding)
    case OtherMiPoolingMode(_) => None
  }

  /**
   * The pooling translation loses information: translating to the backend and
   * back is the identity exactly for PoolMax and PoolAverageIncludePadding.
   */
  lemma PoolingModeRoundTrip(mode: PoolingMode)
    ensures (HipToMiopenPoolingMode(mode).Some? &&
             MiopenToHipPoolingMode(HipToMiopenPoolingMode(mode).value) == Some(mode))
        <==> (mode == PoolMax || mode == PoolAverageIncludePadding)
  {
  }

  /** Both averaging modes become the one backend average; the reverse picks "include padding". */
  lemma PoolingModeCollapse()
    ensures HipToMiopenPoolingMode(PoolAverageIncludePadding) == HipToMiopenPoolingMode(PoolAverageExcludePadding)
    ensures HipToMiopenPoolingMode(PoolMax) == HipToMiopenPoolingMode(PoolMaxDeterministic)
    ensures MiopenToHipPoolingMode(MiPoolAverage) == Some(PoolAverageIncludePadding)
  {
  }

  /** Every backend mode that comes back to the shim translates forward to itself. */
  lemma MiPoolingModeRoundTrip(m: MiPoolingMode)
    ensures MiopenToHipPoolingMode(m).Some? ==> HipToMiopenPoolingMode(MiopenToHipPoolingMode(m).value) == Some(m)
  {
  }

  // ------------------------------------------------------------ LRN modes

  function HipToMiopenLrnMode(mode: LrnMode): (r: Option<MiLrnMode>)
    ensures r.Some? <==> !mode.OtherLrnMode?
  {
    match mode
    case LrnWithinChannel => Some(MiLrnWithinChannel)
    case LrnCrossChannel => Some(MiLrnCrossChannel)
    case OtherLrnMode(_) => None
  }

  function MiopenToHipLrnMode(mode: MiLrnMode): (r: Option<LrnMode>)
    ensures r.Some? <==> !mode.OtherMiLrnMode?
  {
    match mode
    case MiLrnWithinChannel => Some(LrnWithinChannel)
    case MiLrnCrossChannel => Some(LrnCrossChannel)
    case OtherMiLrnMode(_) => None
  }

  lemma LrnModeRoundTrip(mode: LrnMode, m: MiLrnMode)
    ensures HipToMiopenLrnMode(mode) == Some(m) <==> MiopenToHipLrnMode(m) == Some(mode)
  {
  }

  // ------------------------------------------------------------ batch-norm modes

  /** Spatial-persistent is served by the plain spatial backend mode. */
  function HipToMiopenBatchNormMode(mode: BatchNormMode): (r: Option<MiBatchNormMode>)
    ensures r.Some? <==> !mode.OtherBatchNormMode?
    ensures r == Some(MiBnSpatial) <==> mode == BnSpatial || mode == BnSpatialPersistent
  {
    match mode
    case BnPerActivation => Some(MiBnPerActivation)
    case BnSpatial => Some(MiBnSpatial)
    case BnSpatialPersistent => Some(MiBnSpatial)
    case OtherBatchNormMode(_) => None
  }

  // ------------------------------------------------------------ activation modes

  function MiopenToHipActivationMode(mode: MiActivationMode): (r: Option<ActivationMode>)
    ensures r.Some? <==> !mode.OtherMiActivationMode?
  {
    match mode
    case MiLogistic => Some(Sigmoid)
    case MiRelu => Some(Relu)
    case MiTanh => Some(Tanh)
    case MiPasthru => Some(PathTru)
    case MiSoftRelu => Some(SoftRelu)
    case MiAbs => Some(Abs)
    case MiPower => Some(Power)
    case OtherMiActivationMode(_) => None
  }

  function HipToMiopenActivationMode(mode: ActivationMode): (r: Option<MiActivationMode>)
    ensures r.None? <==> mode == Elu || mode == ClippedRelu || mode.OtherActivationMode?
  {
    match mode
    case Sigmoid => Some(MiLogistic)
    case Relu => Some(MiRelu)
    case Tanh => Some(MiTanh)
    case PathTru => Some(MiPasthru)
    case SoftRelu => Some(MiSoftRelu)
    case Abs => Some(MiAbs)
    case Power => Some(MiPower)
    case Elu => None
    case ClippedRelu => None
    case OtherActivationMode(_) => None
  }

  lemma ActivationModeRoundTrip(mode: ActivationMode, m: MiActivationMode)
    ensures HipToMiopenActivationMode(mode) == Some(m) <==> MiopenToHipActivationMode(m) == Some(mode)
  {
  }

  // ------------------------------------------------------------ forward algorithms

  function HipToMiopenConvFwdAlgo(algo: ConvFwdAlgo): (r: Option<MiConvFwdAlgo>)
    ensures r.Some? <==> !algo.OtherFwdAlgo?
    ensures r.Some? ==> !r.value.OtherMiFwdAlgo?
    ensures r == Some(MiFwdGemm) <==> algo == FwdGemm || algo == FwdImplicitGemm
  {
    match algo
    case FwdGemm => Some(MiFwdGemm)
    case FwdDirect => Some(MiFwdDirect)
    case FwdFft => Some(MiFwdFft)
    case FwdWinograd => Some(MiFwdWinograd)
    case FwdImplicitGemm => Some(MiFwdGemm)
    case OtherFwdAlgo(_) => None
  }

  function MiopenToHipConvFwdAlgo(algo: MiConvFwdAlgo): (r: Option<ConvFwdAlgo>)
    ensures r.Some? <==> !algo.OtherMiFwdAlgo?
    ensures r.Some? ==> r.value != FwdImplicitGemm
  {
    match algo
    case MiFwdGemm => Some(FwdGemm)
    case MiFwdDirect => Some(FwdDirect)
    case MiFwdFft => Some(FwdFft)
    case MiFwdWinograd => Some(FwdWinograd)
    case OtherMiFwdAlgo(_) => None
  }

  /** Backend algorithms survive the trip through the shim; shim algorithms do except implicit GEMM. */
  lemma ConvFwdAlgoRoundTrip(algo: ConvFwdAlgo, m: MiConvFwdAlgo)
    ensures MiopenToHipConvFwdAlgo(m) == Some(algo) ==> HipToMiopenConvFwdAlgo(algo) == Some(m)
    ensures HipToMiopenConvFwdAlgo(algo) == Some(m) && algo != FwdImplicitGemm ==> MiopenToHipConvFwdAlgo(m) == Some(algo)
  {
  }

  /** The backend enumerator with the given integer code. */
  function MiConvFwdAlgoOfCode(code: int): (r: MiConvFwdAlgo)
    ensures r.OtherMiFwdAlgo? <==> !(0 <= code < 4)
  {
    if code == 0 then MiFwdGemm
    else if code == 1 then MiFwdDirect
    else if code == 2 then MiFwdFft
    else if code == 3 then MiFwdWinograd
    else OtherMiFwdAlgo(code)
  }

  function ConvolutionFwdAlgoCount(): int { 4 }

  /**
   * The i-th forward algorithm; an index at or past the count is clamped to
   * Winograd, and a negative index names no backend algorithm, so the
   * CHECK_HIPDNN guard fires.
   */
  function GetConvolutionFwdAlgo(i: int): (r: Outcome<ConvFwdAlgo>)
    ensures r.Done? <==> 0 <= i
    ensures r.Done? ==> HipToMiopenConvFwdAlgo(r.value) ==
                          Some(MiConvFwdAlgoOfCode(if i < ConvolutionFwdAlgoCount() then i else 3))
    ensures ConvolutionFwdAlgoCount() <= i ==> r == Done(FwdWinograd)
  {
    var mialgo := if i < ConvolutionFwdAlgoCount() then MiConvFwdAlgoOfCode(i) else MiFwdWinograd;
    match MiopenToHipConvFwdAlgo(mialgo)
    case Some(algo) => Done(algo)
    case None => Aborted
  }

  // ------------------------------------------------------------ backward-filter algorithms

  function HipToMiopenConvBwdFilterAlgo(algo: ConvBwdFilterAlgo): (r: Option<MiConvBwdWeightsAlgo>)
    ensures r.Some? <==> !algo.OtherBwdFilterAlgo?
  {
    match algo
    case BwdFilterAlgo0 => Some(MiBwdWeightsGemm)
    case BwdFilterAlgo1 => Some(MiBwdWeightsDirect)
    case OtherBwdFilterAlgo(_) => None
  }

  function MiopenToHipConvBwdFilterAlgo(algo: MiConvBwdWeightsAlgo): (r: Option<ConvBwdFilterAlgo>)
    ensures r.Some? <==> !algo.OtherMiBwdWeightsAlgo?
  {
    match algo
    case MiBwdWeightsGemm => Some(BwdFilterAlgo0)
    case MiBwdWeightsDirect => Some(BwdFilterAlgo1)
    case OtherMiBwdWeightsAlgo(_) => None
  }

  lemma ConvBwdFilterAlgoRoundTrip(algo: ConvBwdFilterAlgo, m: MiConvBwdWeightsAlgo)
    ensures HipToMiopenConvBwdFilterAlgo(algo) == Some(m) <==> MiopenToHipConvBwdFilterAlgo(m) == Some(algo)
  {
  }

  function MiConvBwdWeightsAlgoOfCode(code: int): (r: MiConvBwdWeightsAlgo)
    ensures r.OtherMiBwdWeightsAlgo? <==> !(0 <= code < 2)
  {
    if code == 0 then MiBwdWeightsGemm
    else if code == 1 then MiBwdWeightsDirect
    else OtherMiBwdWeightsAlgo(code)
  }

  function ConvolutionBwdFilterAlgoCount(): int { 2 }

  /** The i-th weight-gradient algorithm; an index at or past the count is clamped to GEMM. */
  function GetConvolutionBwdFilterAlgo(i: int): (r: Outcome<ConvBwdFilterAlgo>)
    ensures r.Done? <==> 0 <= i
    ensures r.Done? ==> HipToMiopenConvBwdFilterAlgo(r.value) ==
                          Some(MiConvBwdWeightsAlgoOfCode(if i < ConvolutionBwdFilterAlgoCount() then i else 0))
    ensures ConvolutionBwdFilterAlgoCount() <= i ==> r == Done(BwdFilterAlgo0)
  {
    var mialgo := if i < ConvolutionBwdFilterAlgoCount() then MiConvBwdWeightsAlgoOfCode(i) else MiBwdWeightsGemm;
    match MiopenToHipConvBwdFilterAlgo(mialgo)
    case Some(algo) => Done(algo)
    case None => Aborted
  }

  // ------------------------------------------------------------ backward-data algorithms

  function HipToMiopenConvBwdDataAlgo(algo: ConvBwdDataAlgo): (r: Option<MiConvBwdDataAlgo>)
    ensures r.Some? <==> !algo.OtherBwdDataAlgo?
    ensures r.Some? ==> !r.value.OtherMiBwdDataAlgo?
    ensures r == Some(MiBwdDataWinograd) <==> algo == BwdDataWinograd || algo == BwdDataWinogradNonfused
  {
    match algo
    case BwdDataAlgo0 => Some(MiBwdDataGemm)
    case BwdDataAlgo1 => Some(MiBwdDataDirect)
    case BwdDataWinograd => Some(MiBwdDataWinograd)
    case BwdDataWinogradNonfused => Some(MiBwdDataWinograd)
    case BwdDataFft => Some(MiBwdDataFft)
    case BwdDataTransposeGemm => Some(MiTransposeBwdDataGemm)
    case OtherBwdDataAlgo(_) => None
  }

  function MiopenToHipConvBwdDataAlgo(algo: MiConvBwdDataAlgo): (r: Option<ConvBwdDataAlgo>)
    ensures r.Some? <==> !algo.OtherMiBwdDataAlgo?
    ensures r.Some? ==> r.value != BwdDataWinogradNonfused
  {
    match algo
    case MiBwdDataGemm => Some(BwdDataAlgo0)
    case MiBwdDataDirect => Some(BwdDataAlgo1)
    case MiBwdDataFft => Some(BwdDataFft)
    case MiBwdDataWinograd => Some(BwdDataWinograd)
    case MiTransposeBwdDataGemm => Some(BwdDataTransposeGemm)
    case OtherMiBwdDataAlgo(_) => None
  }

  lemma ConvBwdDataAlgoRoundTrip(algo: ConvBwdDataAlgo, m: MiConvBwdDataAlgo)
    ensures MiopenToHipConvBwdDataAlgo(m) == Some(algo) ==> HipToMiopenConvBwdDataAlgo(algo) == Some(m)
    ensures HipToMiopenConvBwdDataAlgo(algo) == Some(m) && algo != BwdDataWinogradNonfused
            ==> MiopenToHipConvBwdDataAlgo(m) == Some(algo)
  {
  }

  function MiConvBwdDataAlgoOfCode(code: int): (r: MiConvBwdDataAlgo)
    ensures r.OtherMiBwdDataAlgo? <==> !(0 <= code < 5)
  {
    if code == 0 then MiBwdDataGemm
    else if code == 1 then MiBwdDataDirect
    else if code == 2 then MiBwdDataFft
    else if code == 3 then MiBwdDataWinograd
    else if code == 4 then MiTransposeBwdDataGemm
    else OtherMiBwdDataAlgo(code)
  }

  function ConvolutionBwdDataAlgoCount(): int { 2 }

  /**
   * The i-th data-gradient algorithm. The count is 2 although the backend names
   * five algorithms, so every index from 2 on (FFT's code included) is clamped
   * to Winograd.
   */
  function GetConvolutionBwdDataAlgo(i: int): (r: Outcome<ConvBwdDataAlgo>)
    ensures r.Done? <==> 0 <= i
    ensures r.Done? ==> HipToMiopenConvBwdDataAlgo(r.value) ==
                          Some(MiConvBwdDataAlgoOfCode(if i < ConvolutionBwdDataAlgoCount() then i else 3))
    ensures ConvolutionBwdDataAlgoCount() <= i ==> r == Done(BwdDataWinograd)
  {
    var mialgo := if i < ConvolutionBwdDataAlgoCount() then MiConvBwdDataAlgoOfCode(i) else MiBwdDataWinograd;
    match MiopenToHipConvBwdDataAlgo(mialgo)
    case Some(algo) => Done(algo)
    case None => Aborted
  }

  // ------------------------------------------------------------ support checks

  /** Only the per-instance softmax mode is refused; a value the switch does not name passes. */
  function SoftmaxModeSupported(mode: SoftmaxMode): (r: Status)
    ensures r == Success || r == NotSupported
    ensures r == NotSupported <==> mode == SoftmaxInstance
  {
    match mode
    case SoftmaxInstance => NotSupported
    case SoftmaxChannel => Success
    case OtherSoftmaxMode(_) => Success
  }

  /** Only the log-softmax algorithm is refused; a value the switch does not name passes. */
  function SoftmaxAlgorithmSupported(algo: SoftmaxAlgorithm): (r: Status)
    ensures r == Success || r == NotSupported
    ensures r == NotSupported <==> algo == SoftmaxLog
  {
    match algo
    case SoftmaxFast => Success
    case SoftmaxAccurate => Success
    case SoftmaxLog => NotSupported
    case OtherSoftmaxAlgorithm(_) => Success
  }

  /** The backend has no layout parameter: NCHW is implied and every other layout is refused. */
  function TensorFormatSupported(format: TensorFormat): (r: Status)
    ensures r == Success || r == NotSupported
    ensures r == Success <==> format == Nchw
  {
    if format == Nchw then Success else NotSupported
  }

  function ConvFwdPreferenceSupported(pref: ConvFwdPreference): (r: Status)
    ensures r == Success || r == NotSupported
    ensures r == NotSupported <==> pref == FwdNoWorkspace || pref == FwdSpecifyWorkspaceLimit
  {
    match pref
    case FwdNoWorkspace => NotSupported
    case FwdPreferFastest => Success
    case FwdSpecifyWorkspaceLimit => NotSupported
    case OtherFwdPreference(_) => Success
  }

  function ConvBwdFilterPreferenceSupported(pref: ConvBwdFilterPreference): (r: Status)
    ensures r == Success || r == NotSupported
    ensures r == NotSupported <==> pref == BwdFilterNoWorkspace || pref == BwdFilterSpecifyWorkspaceLimit
  {
    match pref
    case BwdFilterNoWorkspace => NotSupported
    case BwdFilterPreferFastest => Success
    case BwdFilterSpecifyWorkspaceLimit => NotSupported
    case OtherBwdFilterPreference(_) => Success
  }

  // ------------------------------------------------------------ status messages

  const StatusPrefix: string := "HIPDNN_STATUS_"

  /** The enumerator name of a named status, without the common prefix. */
  function StatusName(status: Status): (name: string)
    requires !status.OtherStatus?
    ensures |name| > 0
  {
    match status
    case Success => "SUCCESS"
    case NotInitialized => "NOT_INITIALIZED"
    case AllocFailed => "ALLOC_FAILED"
    case BadParam => "BAD_PARAM"
    case InternalError => "INTERNAL_ERROR"
    case InvalidValue => "INVALID_VALUE"
    case ArchMismatch => "ARCH_MISMATCH"
    case MappingError => "MAPPING_ERROR"
    case ExecutionFailed => "EXECUTION_FAILED"
    case NotSupported => "NOT_SUPPORTED"
    case LicenseError => "LICENSE_ERROR"
    case RuntimePrerequisiteMissing => "RUNTIME_PREREQUISITE_MISSING"
  }

  /**
   * hipdnnGetErrorString: the enumerator's full name, such as
   * "HIPDNN_STATUS_BAD_PARAM", or a fixed fallback for an unnamed value.
   */
  function ErrorString(status: Status): (r: string)
    ensures status.OtherStatus? <==> r == "Unrecognized Status Code"
    ensures !status.OtherStatus? ==> |StatusPrefix| < |r| && r[..|StatusPrefix|] == StatusPrefix
  {
    if status.OtherStatus? then "Unrecognized Status Code" else StatusPrefix + StatusName(status)
  }

  /** Reads an enumerator name back to its status. */
  function StatusOfName(name: string): (r: Option<Status>)
  {
    if name == "SUCCESS" then Some(Success)
    else if name == "NOT_INITIALIZED" then Some(NotInitialized)
    else if name == "ALLOC_FAILED" then Some(AllocFailed)
    else if name == "BAD_PARAM" then Some(BadParam)
    else if name == "INTERNAL_ERROR" then Some(InternalError)
    else if name == "INVALID_VALUE" then Some(InvalidValue)
    else if name == "ARCH_MISMATCH" then Some(ArchMismatch)
    else if name == "MAPPING_ERROR" then Some(MappingError)
    else if name == "EXECUTION_FAILED" then Some(ExecutionFailed)
    else if name == "NOT_SUPPORTED" then Some(NotSupported)
    else if name == "LICENSE_ERROR" then Some(LicenseError)
    else if name == "RUNTIME_PREREQUISITE_MISSING" then Some(RuntimePrerequisiteMissing)
    else None
  }

  /** Reads a message back to the status it names. */
  function StatusOfErrorString(message: string): (r: Option<Status>)
  {
    if |StatusPrefix| <= |message| && message[..|StatusPrefix|] == StatusPrefix
    then StatusOfName(message[|StatusPrefix|..])
    else None
  }

  /** Every named status has its own message: the message determines the status. */
  lemma ErrorStringRoundTrip(status: Status)
    ensures status.OtherStatus? <==> StatusOfErrorString(ErrorString(status)).None?
    ensures !status.OtherStatus? ==> StatusOfErrorString(ErrorString(status)) == Some(status)
  {
    if status.OtherStatus? {
      assert "Unrecognized Status Code"[0] != StatusPrefix[0];
    } else {
      assert ErrorString(status)[|StatusPrefix|..] == StatusName(status);
      StatusNameRoundTrip(status);
    }
  }

  /** Each enumerator name reads back to its own status. */
  lemma StatusNameRoundTrip(status: Status)
    requires !status.OtherStatus?
    ensures StatusOfName(StatusName(status)) == Some(status)
  {
  }

  lemma ErrorStringInjective(s: Status, t: Status)
    requires s != t && !s.OtherStatus? && !t.OtherStatus?
    ensures ErrorString(s) != ErrorString(t)
  {
    ErrorStringRoundTrip(s);
    ErrorStringRoundTrip(t);
  }
}
