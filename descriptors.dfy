/**
 * The N-dimensional descriptor setters: pooling (2-D only), convolution
 * (2-D, or 3-D with the depth direction kept aside by the shim) and filter
 * (packed strides computed by the shim).
 */
module Descriptors {
  import opened Wrappers
  import opened Enums
  import opened Translate
  import opened Shapes
  import opened Workspace

  // ------------------------------------------------------------ pooling

  /** The 2-D pooling descriptor the backend receives. */
  datatype Pooling2d = Pooling2d(
    mode: MiPoolingMode,
    windowHeight: int, windowWidth: int,
    padH: int, padW: int,
    strideH: int, strideW: int)

  /**
   * hipdnnSetPoolingNdDescriptor: only two spatial dimensions are supported; the
   * mode is translated only then, and an untranslatable mode aborts.
   */
  function SetPoolingNd(mode: PoolingMode, nbDims: int, windowDimA: seq<int>, paddingA: seq<int>, strideA: seq<int>)
    : (r: Outcome<Pooling2d>)
    requires nbDims == 2 ==> |windowDimA| >= 2 && |paddingA| >= 2 && |strideA| >= 2
    ensures r == Failed(NotSupported) <==> nbDims != 2
    ensures r.Aborted? <==> nbDims == 2 && HipToMiopenPoolingMode(mode).None?
    ensures r.Done? ==> Some(r.value.mode) == HipToMiopenPoolingMode(mode)
    ensures r.Done? ==> r.value.windowHeight == windowDimA[0] && r.value.windowWidth == windowDimA[1]
    ensures r.Done? ==> r.value.padH == paddingA[0] && r.value.padW == paddingA[1]
    ensures r.Done? ==> r.value.strideH == strideA[0] && r.value.strideW == strideA[1]
  {
    if nbDims == 2 then
      match HipToMiopenPoolingMode(mode)
      case None => Aborted
      case Some(poolingMode) =>
        Done(Pooling2d(poolingMode, windowDimA[0], windowDimA[1], paddingA[0], paddingA[1], strideA[0], strideA[1]))
    else
      Failed(NotSupported)
  }

  /** Both averaging modes give the same backend descriptor, and so do both max modes. */
  lemma SetPoolingNdCollapsesModes(nbDims: int, windowDimA: seq<int>, paddingA: seq<int>, strideA: seq<int>)
    requires nbDims == 2 && |windowDimA| >= 2 && |paddingA| >= 2 && |strideA| >= 2
    ensures SetPoolingNd(PoolAverageIncludePadding, nbDims, windowDimA, paddingA, strideA) ==
            SetPoolingNd(PoolAverageExcludePadding, nbDims, windowDimA, paddingA, strideA)
    ensures SetPoolingNd(PoolMax, nbDims, windowDimA, paddingA, strideA) ==
            SetPoolingNd(PoolMaxDeterministic, nbDims, windowDimA, paddingA, strideA)
    ensures SetPoolingNd(PoolMax, nbDims, windowDimA, paddingA, strideA) !=
            SetPoolingNd(PoolAverageIncludePadding, nbDims, windowDimA, paddingA, strideA)
  {
  }

  // ------------------------------------------------------------ convolution

  /** The 2-D convolution descriptor the backend records. */
  datatype Convolution2d = Convolution2d(
    mode: MiConvolutionMode,
    padH: int, padW: int,
    strideH: int, strideW: int,
    dilationH: int, dilationW: int)

  /** What the shim keeps for the depth direction of a 3-D convolution. */
  datatype DepthTriple = DepthTriple(pad: int, stride: int, dilation: int)

  /** The planar part of an N-dimensional request: the first two entries of each array. */
  function Planar(padA: seq<int>, filterStrideA: seq<int>, dilationA: seq<int>): (c: Convolution2d)
    requires |padA| >= 2 && |filterStrideA| >= 2 && |dilationA| >= 2
    ensures c.mode == MiConvolution
    ensures c.padH == padA[0] && c.padW == padA[1]
    ensures c.strideH == filterStrideA[0] && c.strideW == filterStrideA[1]
    ensures c.dilationH == dilationA[0] && c.dilationW == dilationA[1]
  {
    Convolution2d(MiConvolution, padA[0], padA[1], filterStrideA[0], filterStrideA[1], dilationA[0], dilationA[1])
  }

  class ConvolutionDescriptors {
    /** The backend's 2-D convolution descriptors. */
    var geometry: map<Handle, Convolution2d>
    /** The shim's global depth table for 3-D convolutions. */
    var depth: map<Handle, DepthTriple>

    constructor ()
      ensures geometry == map[] && depth == map[]
    {
      geometry := map[];
      depth := map[];
    }

    /**
     * hipdnnSetConvolutionNdDescriptor: two or three spatial dimensions. The
     * backend always receives a plain convolution, whatever mode is asked for;
     * the compute type is not used. A 3-D request also records its depth triple;
     * a 2-D request leaves an earlier depth entry in place.
     */
    method SetConvolutionNd(desc: Handle, arrayLength: int, padA: seq<int>, filterStrideA: seq<int>,
                            dilationA: seq<int>, mode: ConvolutionMode, computeType: DataType)
      returns (status: Status)
      requires arrayLength == 2 || arrayLength == 3 ==>
                 |padA| >= arrayLength && |filterStrideA| >= arrayLength && |dilationA| >= arrayLength
      modifies this
      ensures status == Success <==> arrayLength == 2 || arrayLength == 3
      ensures status != Success ==> status == NotSupported && geometry == old(geometry) && depth == old(depth)
      ensures status == Success ==> geometry == old(geometry)[desc := Planar(padA, filterStrideA, dilationA)]
      ensures arrayLength == 2 ==> depth == old(depth)
      ensures arrayLength == 3 ==> depth == old(depth)[desc := DepthTriple(padA[2], filterStrideA[2], dilationA[2])]
    {
      if arrayLength == 2 {
        geometry := geometry[desc := Planar(padA, filterStrideA, dilationA)];
        status := Success;
      } else if arrayLength == 3 {
        geometry := geometry[desc := Planar(padA, filterStrideA, dilationA)];
        depth := depth[desc := DepthTriple(padA[2], filterStrideA[2], dilationA[2])];
        status := Success;
      } else {
        status := NotSupported;
      }
    }
  }

  // ------------------------------------------------------------ filter

  /** Packed row-major strides: each extent's stride is the product of the extents after it. */
  function PackedStrides(dims: seq<int>): (strides: seq<int>)
    ensures |strides| == |dims|
  {
    seq(|dims|, k requires 0 <= k < |dims| => Product(dims[k + 1..]))
  }

  /** The recurrence the stride loop follows: the last stride is 1, each other is the next stride times the next extent. */
  lemma PackedStridesRecurrence(dims: seq<int>)
    ensures |dims| > 0 ==> PackedStrides(dims)[|dims| - 1] == 1
    ensures forall k :: 0 <= k < |dims| - 1 ==>
              PackedStrides(dims)[k] == PackedStrides(dims)[k + 1] * dims[k + 1]
  {
    forall k | 0 <= k < |dims| - 1
      ensures PackedStrides(dims)[k] == PackedStrides(dims)[k + 1] * dims[k + 1]
    {
      assert dims[k + 1..][1..] == dims[k + 2..];
    }
    if |dims| > 0 {
      assert dims[|dims|..] == [];
    }
  }

  /**
   * One of the stride loops of hipdnnSetFilterNdDescriptor, filling the array
   * from the back. The array holds one stride per extent.
   */
  method FilterStrides(filterDimA: seq<int>) returns (strideA: array<int>)
    ensures fresh(strideA)
    ensures strideA.Length == |filterDimA| && strideA[..] == PackedStrides(filterDimA)
  {
    var nbDims := |filterDimA|;
    strideA := new int[nbDims];
    var k := nbDims - 1;
    while k >= 0
      invariant -1 <= k < nbDims
      invariant forall j :: k < j < nbDims ==> strideA[j] == Product(filterDimA[j + 1..])
    {
      if k != nbDims - 1 {
        StrideStep(filterDimA, k);
        strideA[k] := strideA[k + 1] * filterDimA[k + 1];
      } else {
        assert filterDimA[k + 1..] == [];
        strideA[k] := 1;
      }
      k := k - 1;
    }
    assert forall j :: 0 <= j < nbDims ==> strideA[..][j] == PackedStrides(filterDimA)[j];
  }

  /** One step of the stride loop: the stride at k is the stride at k + 1 times the extent at k + 1. */
  lemma StrideStep(dims: seq<int>, k: int)
    requires 0 <= k < |dims| - 1
    ensures Product(dims[k + 1..]) == Product(dims[k + 2..]) * dims[k + 1]
  {
    assert dims[k + 1..][1..] == dims[k + 2..];
    var x, y := dims[k + 1], Product(dims[k + 2..]);
    assert x * y == y * x;
  }

  /** The filter descriptor the backend receives: a tensor descriptor with packed strides. */
  datatype Filter = Filter(dataType: MiDataType, dims: seq<int>, strides: seq<int>)

  /**
   * hipdnnSetFilterNdDescriptor: computes the strides, translates the data type
   * (aborting when it has no backend counterpart), computes the strides again
   * and hands dimensions and strides to the backend. The format is not consulted.
   */
  method SetFilterNd(dataType: DataType, format: TensorFormat, filterDimA: seq<int>) returns (r: Outcome<Filter>)
    ensures r.Aborted? <==> HipToMiopenDataType(dataType).None?
    ensures !r.Failed?
    ensures r.Done? ==> r.value.dims == filterDimA && Some(r.value.dataType) == HipToMiopenDataType(dataType)
    ensures r.Done? ==> r.value.strides == PackedStrides(filterDimA)
  {
    var strideA := FilterStrides(filterDimA);
    var moDT := HipToMiopenDataType(dataType);
    if moDT.None? {
      return Aborted;
    }
    var strideDimA := FilterStrides(filterDimA);
    r := Done(Filter(moDT.value, filterDimA, strideDimA[..]));
  }

  /** A filter descriptor's strides lay its elements out densely: the first stride times the first extent is the element count. */
  lemma PackedStridesDense(dims: seq<int>)
    requires |dims| > 0
    ensures PackedStrides(dims)[0] * dims[0] == Product(dims)
  {
    var rest := Product(dims[1..]);
    assert PackedStrides(dims)[0] == rest;
    assert rest * dims[0] == dims[0] * rest;
  }

  // ------------------------------------------------------------ the stride buffer as declared

  /** The number of entries the source declares its stride buffers with: one fewer than the extents. */
  function DeclaredStrideLength(nbDims: int): int
  {
    nbDims - 1
  }

  /** The indices the stride loops write, in order: from nbDims - 1 down to 0. */
  function WrittenIndices(nbDims: int): (ks: seq<int>)
    ensures nbDims >= 0 ==> |ks| == nbDims
    ensures forall i :: 0 <= i < |ks| ==> ks[i] == nbDims - 1 - i
    decreases if nbDims < 0 then 0 else nbDims
  {
    if nbDims <= 0 then [] else [nbDims - 1] + WrittenIndices(nbDims - 1)
  }

  /**
   * For every non-empty filter the first index the stride loops write equals the
   * declared buffer length, one past its end. This states which index is written;
   * the out-of-bounds write itself is not modelled.
   */
  lemma StrideLoopOverruns(nbDims: int)
    requires nbDims >= 1
    ensures WrittenIndices(nbDims)[0] == DeclaredStrideLength(nbDims)
    ensures exists i :: 0 <= i < |WrittenIndices(nbDims)| && WrittenIndices(nbDims)[i] >= DeclaredStrideLength(nbDims)
  {
    assert WrittenIndices(nbDims)[0] >= DeclaredStrideLength(nbDims);
  }

  /** With a buffer of one entry per extent every index the loop writes is in bounds. */
  lemma StrideLoopFits(nbDims: nat)
    ensures forall i :: 0 <= i < |WrittenIndices(nbDims)| ==> 0 <= WrittenIndices(nbDims)[i] < nbDims
  {
  }
}
