/**
 * The enumerations of the two primitive-library interfaces the shim sits between:
 * the public hipDNN interface (no prefix) and the MIOpen backend (prefix `Mi`).
 *
 * A C enumeration variable may hold any integer, and most of the shim's switch
 * statements have a `default` arm; every enumeration therefore has one
 * `Other...(code)` alternative standing for any value that the source's switch
 * does not name.
 */
module Enums {

  // ---------------------------------------------------------------- hipDNN side

  datatype Status =
    | Success
    | NotInitialized
    | AllocFailed
    | BadParam
    | InternalError
    | InvalidValue
    | ArchMismatch
    | MappingError
    | ExecutionFailed
    | NotSupported
    | LicenseError
    | RuntimePrerequisiteMissing
    | OtherStatus(code: int)

  datatype DataType = Float | Double | Half | Int8 | Int32 | Int8x4 | OtherDataType(code: int)

  datatype OpTensorOp = OpAdd | OpMul | OpMin | OpMax | OpSqrt | OtherOpTensorOp(code: int)

  datatype ConvolutionMode = Convolution | CrossCorrelation

  datatype PoolingMode =
    | PoolMax
    | PoolAverageIncludePadding
    | PoolAverageExcludePadding
    | PoolMaxDeterministic
    | OtherPoolingMode(code: int)

  datatype LrnMode = LrnWithinChannel | LrnCrossChannel | OtherLrnMode(code: int)

  datatype BatchNormMode =
    | BnPerActivation
    | BnSpatial
    | BnSpatialPersistent
    | OtherBatchNormMode(code: int)

  datatype ActivationMode =
    | Sigmoid
    | Relu
    | Tanh
    | ClippedRelu
    | Elu
    | PathTru
    | SoftRelu
    | Abs
    | Power
    | OtherActivationMode(code: int)

  datatype ConvFwdAlgo =
    | FwdImplicitGemm
    | FwdGemm
    | FwdDirect
    | FwdFft
    | FwdWinograd
    | OtherFwdAlgo(code: int)

  datatype ConvBwdFilterAlgo = BwdFilterAlgo0 | BwdFilterAlgo1 | OtherBwdFilterAlgo(code: int)

  datatype ConvBwdDataAlgo =
    | BwdDataAlgo0
    | BwdDataAlgo1
    | BwdDataFft
    | BwdDataWinograd
    | BwdDataWinogradNonfused
    | BwdDataTransposeGemm
    | OtherBwdDataAlgo(code: int)

  datatype SoftmaxMode = SoftmaxInstance | SoftmaxChannel | OtherSoftmaxMode(code: int)

  datatype SoftmaxAlgorithm =
    | SoftmaxFast
    | SoftmaxAccurate
    | SoftmaxLog
    | OtherSoftmaxAlgorithm(code: int)

  datatype TensorFormat = Nchw | OtherTensorFormat(code: int)

  datatype ConvFwdPreference =
    | FwdNoWorkspace
    | FwdPreferFastest
    | FwdSpecifyWorkspaceLimit
    | OtherFwdPreference(code: int)

  datatype ConvBwdFilterPreference =
    | BwdFilterNoWorkspace
    | BwdFilterPreferFastest
    | BwdFilterSpecifyWorkspaceLimit
    | OtherBwdFilterPreference(code: int)

  // ---------------------------------------------------------------- MIOpen side

  datatype MiStatus =
    | MiSuccess
    | MiNotInitialized
    | MiInvalidValue
    | MiBadParm
    | MiAllocFailed
    | MiInternalError
    | MiNotImplemented
    | MiUnknownError
    | OtherMiStatus(code: int)

  datatype MiDataType = MiHalf | MiFloat | OtherMiDataType(code: int)

  datatype MiTensorOp = MiOpAdd | MiOpMul | MiOpMin | MiOpMax | OtherMiTensorOp(code: int)

  datatype MiConvolutionMode = MiConvolution | OtherMiConvolutionMode(code: int)

  datatype MiPoolingMode = MiPoolMax | MiPoolAverage | OtherMiPoolingMode(code: int)

  datatype MiLrnMode = MiLrnWithinChannel | MiLrnCrossChannel | OtherMiLrnMode(code: int)

  datatype MiBatchNormMode = MiBnPerActivation | MiBnSpatial

  datatype MiActivationMode =
    | MiPasthru
    | MiLogistic
    | MiTanh
    | MiRelu
    | MiSoftRelu
    | MiAbs
    | MiPower
    | OtherMiActivationMode(code: int)

  /** Backend forward algorithms; GEMM..Winograd carry the codes 0..3. */
  datatype MiConvFwdAlgo = MiFwdGemm | MiFwdDirect | MiFwdFft | MiFwdWinograd | OtherMiFwdAlgo(code: int)

  /** Backend weight-gradient algorithms; GEMM and Direct carry the codes 0 and 1. */
  datatype MiConvBwdWeightsAlgo = MiBwdWeightsGemm | MiBwdWeightsDirect | OtherMiBwdWeightsAlgo(code: int)

  /** Backend data-gradient algorithms; GEMM..TransposeGEMM carry the codes 0..4. */
  datatype MiConvBwdDataAlgo =
    | MiBwdDataGemm
    | MiBwdDataDirect
    | MiBwdDataFft
    | MiBwdDataWinograd
    | MiTransposeBwdDataGemm
    | OtherMiBwdDataAlgo(code: int)

  // ---------------------------------------------------------------- outcomes

  /**
   * How a shim entry point ends.
   * - Done: the call returned SUCCESS, with the value the model observes;
   * - Failed: the call returned the given non-success status;
   * - Aborted: a CHECK_HIPDNN guard fired on a failed translation, so the call
   *   does not return normally.
   */
  datatype Outcome<+T> = Done(value: T) | Failed(status: Status) | Aborted
}
