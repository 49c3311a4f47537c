/**
 * Emulation of the blending factor beta for backends that ignore it.
 *
 * The backward passes promise `dst := result + beta * dst`. The shim takes a
 * snapshot of `dst`, runs the backend with beta forced to zero, adds
 * `beta * snapshot` back element by element (`TensorAdd`), and frees the
 * snapshot. Element values are reals; the source works on single-precision floats.
 */
module Accumulation {
  import opened Enums
  import opened DeviceMemory
  import opened Shapes

  // ------------------------------------------------------------ the recombination

  /** `cur` after TensorAdd over its first n elements: each of them gains beta times the prior's. */
  function Recombined(cur: seq<real>, prior: seq<real>, beta: real, n: nat): (r: seq<real>)
    requires n <= |cur| && n <= |prior|
    ensures |r| == |cur|
    ensures forall i :: 0 <= i < n ==> r[i] == beta * prior[i] + cur[i]
    ensures forall i :: n <= i < |cur| ==> r[i] == cur[i]
    decreases n
  {
    if n == 0 then cur
    else Recombined(cur, prior, beta, n - 1)[n - 1 := beta * prior[n - 1] + cur[n - 1]]
  }

  /** With beta zero the recombination changes nothing. */
  lemma RecombinedZeroBeta(cur: seq<real>, prior: seq<real>, n: nat)
    requires n <= |cur| && n <= |prior|
    ensures Recombined(cur, prior, 0.0, n) == cur
  {
    assert forall i :: 0 <= i < |cur| ==> Recombined(cur, prior, 0.0, n)[i] == cur[i];
  }

  /** Two recombinations with the same prior add their factors. */
  lemma RecombinedTwice(cur: seq<real>, prior: seq<real>, b1: real, b2: real, n: nat)
    requires n <= |cur| && n <= |prior|
    ensures Recombined(Recombined(cur, prior, b1, n), prior, b2, n) == Recombined(cur, prior, b1 + b2, n)
  {
    var lhs := Recombined(Recombined(cur, prior, b1, n), prior, b2, n);
    var rhs := Recombined(cur, prior, b1 + b2, n);
    forall i | 0 <= i < |cur|
      ensures lhs[i] == rhs[i]
    {
      if i < n {
        calc {
          lhs[i];
          b2 * prior[i] + (b1 * prior[i] + cur[i]);
          (b1 + b2) * prior[i] + cur[i];
        }
      }
    }
  }

  /**
   * TensorAdd: `C[i] := beta * A[i] + C[i]` for every i below N. The device
   * kernel spreads the indices over a grid; each index is visited once, so the
   * model visits them in order.
   */
  method TensorAdd(c: array<real>, a: array<real>, beta: real, n: nat)
    requires c != a
    requires n <= c.Length && n <= a.Length
    modifies c
    ensures c[..] == Recombined(old(c[..]), a[..], beta, n)
    ensures a[..] == old(a[..])
  {
    var i := 0;
    while i < n
      invariant 0 <= i <= n
      invariant c[..] == Recombined(old(c[..]), a[..], beta, i)
    {
      c[i] := beta * a[i] + c[i];
      i := i + 1;
    }
  }

  // ------------------------------------------------------------ element counts

  /** The element count accumulateGradients computes: the product of the first four extents only. */
  function ElementCountAsWritten(dims: seq<int>): (n: int)
    requires |dims| >= 4
    ensures (forall k :: 0 <= k < 4 ==> dims[k] >= 0) ==> n >= 0
    ensures |dims| == 4 ==> n == Product(dims)
  {
    assert |dims| == 4 ==> dims[..4] == dims;
    Product(dims[..4])
  }

  /**
   * A five-dimensional gradient whose last extent exceeds one has more elements
   * than the first four extents account for.
   */
  lemma FifthExtentIgnored(dims: seq<int>)
    requires |dims| == 5 && forall k :: 0 <= k < 5 ==> dims[k] > 0
    requires dims[4] > 1
    ensures ElementCountAsWritten(dims) < Product(dims)
  {
    var head := dims[..4];
    assert dims == head + [dims[4]];
    ProductSnoc(head, dims[4]);
    assert Product(head) > 0;
    assert Product(head) * dims[4] == Product(head) + Product(head) * (dims[4] - 1);
  }

  /**
   * With gradient extents (1, 1, 1, 1, 2) the as-written count blends only the
   * first of the two elements: with a zero result, a prior of ones and beta one
   * the second element stays 0 instead of becoming 1.
   */
  lemma FifthExtentCounterexample()
    ensures ElementCountAsWritten([1, 1, 1, 1, 2]) == 1
    ensures Recombined([0.0, 0.0], [1.0, 1.0], 1.0, ElementCountAsWritten([1, 1, 1, 1, 2]))[1] == 0.0
    ensures Recombined([0.0, 0.0], [1.0, 1.0], 1.0, Product([1, 1, 1, 1, 2]))[1] == 1.0
  {
    FifthExtentIgnored([1, 1, 1, 1, 2]);
    assert Product([1, 1, 1, 1, 2]) == 2 by {
      assert [1, 1, 1, 1, 2][1..] == [1, 1, 1, 2];
      assert [1, 1, 1, 2][1..] == [1, 1, 2];
      assert [1, 1, 2][1..] == [1, 2];
      assert [1, 2][1..] == [2];
      assert [2][1..] == [];
    }
  }

  /**
   * accumulateGradients: blends a prior into a gradient over all of the
   * gradient's elements. The extents are those the backend reports for the
   * gradient's descriptor (four or five of them).
   */
  method AccumulateGradients(gradient: array<real>, prior: array<real>, dims: seq<int>, beta: real)
    returns (status: Status)
    requires 4 <= |dims| <= 5 && forall k :: 0 <= k < |dims| ==> dims[k] >= 0
    requires gradient != prior
    requires Product(dims) <= gradient.Length && Product(dims) <= prior.Length
    modifies gradient
    ensures status == Success
    ensures gradient[..] == Recombined(old(gradient[..]), prior[..], beta, Product(dims))
  {
    var totalElements := Product(dims);
    TensorAdd(gradient, prior, beta, totalElements);
    status := Success;
  }

  // ------------------------------------------------------------ snapshots

  /**
   * SaveAsPriorBuffer: allocates a buffer as large as the allocation holding
   * `data` and copies `data` into it.
   */
  method SaveAsPriorBuffer(dev: Device, data: array<real>, dataPtr: Ptr) returns (prior: array<real>, priorPtr: Ptr)
    requires dev.Valid() && dataPtr in dev.live
    modifies dev
    ensures dev.Valid()
    ensures fresh(prior) && prior[..] == data[..]
    ensures priorPtr != Null && priorPtr !in old(dev.live)
    ensures dev.live == old(dev.live)[priorPtr := old(dev.live[dataPtr])]
  {
    var priorSize := dev.SizeOf(dataPtr);
    priorPtr := dev.Malloc(priorSize);
    prior := new real[data.Length](i requires 0 <= i < data.Length reads data => data[i]);
  }

  /** deallocPrior: frees the buffer when the device reports a positive size for it. */
  method DeallocPrior(dev: Device, p: Ptr)
    requires dev.Valid()
    modifies dev
    ensures dev.Valid()
    ensures dev.live == old(dev.live) - {p}
  {
    var priorSize := dev.SizeOf(p);
    if priorSize > 0 {
      dev.Free(p);
    }
  }

  /** The backend writing its result into a destination buffer. */
  method WriteBack(dst: array<real>, result: seq<real>)
    requires |result| == dst.Length
    modifies dst
    ensures dst[..] == result
  {
    forall i | 0 <= i < dst.Length {
      dst[i] := result[i];
    }
  }

  // ------------------------------------------------------------ the beta branch

  /** A backend call as a function of the blending factor and the destination's contents. */
  type Backend = (real, seq<real>) -> seq<real>

  ghost predicate PreservesLength(backend: Backend)
  {
    forall beta, s :: |backend(beta, s)| == |s|
  }

  /**
   * A backend that honours beta natively, by the blending rule of the interface:
   * every element of its result is its beta-zero result plus beta times the old element.
   */
  ghost predicate HonoursBeta(backend: Backend)
  {
    PreservesLength(backend) &&
    forall beta, s, i :: 0 <= i < |s| ==> backend(beta, s)[i] == backend(0.0, s)[i] + beta * s[i]
  }

  /** What the beta branch leaves in the destination, given its old contents `s` and the element count n. */
  function Emulated(backend: Backend, s: seq<real>, beta: real, n: nat): (r: seq<real>)
    requires PreservesLength(backend) && n <= |s|
    ensures |r| == |s|
  {
    if beta == 0.0 then backend(beta, s) else Recombined(backend(0.0, s), s, beta, n)
  }

  /** The short cut for beta zero gives what the general path would. */
  lemma EmulatedBranchesAgree(backend: Backend, s: seq<real>, beta: real, n: nat)
    requires PreservesLength(backend) && n <= |s|
    ensures Emulated(backend, s, beta, n) == Recombined(backend(0.0, s), s, beta, n)
  {
    if beta == 0.0 {
      RecombinedZeroBeta(backend(0.0, s), s, n);
    }
  }

  /** When the count covers the whole tensor, the emulation gives what a backend honouring beta would. */
  lemma EmulationMatchesNative(backend: Backend, s: seq<real>, beta: real)
    requires HonoursBeta(backend)
    ensures Emulated(backend, s, beta, |s|) == backend(beta, s)
  {
    EmulatedBranchesAgree(backend, s, beta, |s|);
    BlendsPointwise(backend(0.0, s), s, beta, backend(beta, s));
  }

  /** A sequence that follows the blending rule element by element is the recombination over the whole tensor. */
  lemma BlendsPointwise(zeroed: seq<real>, s: seq<real>, beta: real, blended: seq<real>)
    requires |zeroed| == |s| == |blended|
    requires forall i :: 0 <= i < |s| ==> blended[i] == zeroed[i] + beta * s[i]
    ensures Recombined(zeroed, s, beta, |s|) == blended
  {
    var r := Recombined(zeroed, s, beta, |s|);
    assert forall i :: 0 <= i < |s| ==> r[i] == blended[i];
  }

  /**
   * The beta branch of hipdnnConvolutionBackwardFilter and
   * hipdnnConvolutionBackwardData: call the backend directly when beta is zero;
   * otherwise snapshot, call with beta zero, accumulate, free the snapshot.
   */
  method BlendedCall(dev: Device, dst: array<real>, dstPtr: Ptr, dims: seq<int>, beta: real, backend: Backend)
    requires dev.Valid() && dstPtr in dev.live
    requires PreservesLength(backend)
    requires 4 <= |dims| <= 5 && forall k :: 0 <= k < |dims| ==> dims[k] >= 0
    requires Product(dims) <= dst.Length
    modifies dev, dst
    ensures dev.Valid() && dev.live == old(dev.live)
    ensures dst[..] == Emulated(backend, old(dst[..]), beta, Product(dims))
  {
    if beta == 0.0 {
      WriteBack(dst, backend(beta, dst[..]));
    } else {
      var tempBeta := 0.0;
      var prior, priorPtr := SaveAsPriorBuffer(dev, dst, dstPtr);
      WriteBack(dst, backend(tempBeta, dst[..]));
      var _ := AccumulateGradients(dst, prior, dims, beta);
      DeallocPrior(dev, priorPtr);
    }
  }

  // ------------------------------------------------------------ batch normalisation

  /** The three gradients batch-normalisation backward produces. */
  datatype Gradients = Gradients(dx: seq<real>, scaleDiff: seq<real>, biasDiff: seq<real>)

  /** The batch-normalisation backend as a function of its two blending factors and the old gradients. */
  type BatchNormBackend = (real, real, Gradients) -> Gradients

  ghost predicate PreservesShapes(backend: BatchNormBackend)
  {
    forall bd, bp, g :: |backend(bd, bp, g).dx| == |g.dx| &&
                        |backend(bd, bp, g).scaleDiff| == |g.scaleDiff| &&
                        |backend(bd, bp, g).biasDiff| == |g.biasDiff|
  }

  /** What hipdnnBatchNormalizationBackward leaves in the three gradients. */
  function BatchNormEmulated(backend: BatchNormBackend, g: Gradients, betaData: real, betaParam: real, nData: nat, nParam: nat): (r: Gradients)
    requires PreservesShapes(backend)
    requires nData <= |g.dx| && nParam <= |g.scaleDiff| && nParam <= |g.biasDiff|
    ensures |r.dx| == |g.dx| && |r.scaleDiff| == |g.scaleDiff| && |r.biasDiff| == |g.biasDiff|
  {
    if betaData == 0.0 && betaParam == 0.0 then backend(betaData, betaParam, g)
    else
      var zeroed := backend(0.0, 0.0, g);
      Gradients(Recombined(zeroed.dx, g.dx, betaData, nData),
                Recombined(zeroed.scaleDiff, g.scaleDiff, betaParam, nParam),
                Recombined(zeroed.biasDiff, g.biasDiff, betaParam, nParam))
  }

  /** A batch-normalisation backend honouring both factors natively. */
  ghost predicate HonoursBetas(backend: BatchNormBackend)
  {
    PreservesShapes(backend) &&
    (forall bd: real, bp: real, g: Gradients, i :: 0 <= i < |g.dx| ==>
       backend(bd, bp, g).dx[i] == backend(0.0, 0.0, g).dx[i] + bd * g.dx[i]) &&
    (forall bd: real, bp: real, g: Gradients, i :: 0 <= i < |g.scaleDiff| ==>
       backend(bd, bp, g).scaleDiff[i] == backend(0.0, 0.0, g).scaleDiff[i] + bp * g.scaleDiff[i]) &&
    (forall bd: real, bp: real, g: Gradients, i :: 0 <= i < |g.biasDiff| ==>
       backend(bd, bp, g).biasDiff[i] == backend(0.0, 0.0, g).biasDiff[i] + bp * g.biasDiff[i])
  }

  /**
   * When the counts cover the tensors, the emulation gives what a backend
   * honouring both factors would: dx is blended with the data factor, the
   * scale and bias gradients with the parameter factor.
   */
  lemma BatchNormEmulationMatchesNative(backend: BatchNormBackend, g: Gradients, betaData: real, betaParam: real)
    requires HonoursBetas(backend)
    requires |g.scaleDiff| == |g.biasDiff|
    ensures BatchNormEmulated(backend, g, betaData, betaParam, |g.dx|, |g.scaleDiff|) == backend(betaData, betaParam, g)
  {
    var zeroed := backend(0.0, 0.0, g);
    var native := backend(betaData, betaParam, g);
    if !(betaData == 0.0 && betaParam == 0.0) {
      BlendsPointwise(zeroed.dx, g.dx, betaData, native.dx);
      BlendsPointwise(zeroed.scaleDiff, g.scaleDiff, betaParam, native.scaleDiff);
      BlendsPointwise(zeroed.biasDiff, g.biasDiff, betaParam, native.biasDiff);
    }
  }

  /** Three snapshots allocated and then freed in another order leave the allocations as they were. */
  lemma SnapshotsReleased(live: map<Ptr, nat>, a: Ptr, sa: nat, b: Ptr, sb: nat, c: Ptr, sc: nat)
    requires a !in live && b !in live[a := sa] && c !in live[a := sa][b := sb]
    ensures live[a := sa][b := sb][c := sc] - {a} - {c} - {b} == live
  {
  }

  /** The backend writing its three results. */
  method WriteGradients(dx: array<real>, scaleDiff: array<real>, biasDiff: array<real>, r: Gradients)
    requires dx != scaleDiff && dx != biasDiff && scaleDiff != biasDiff
    requires |r.dx| == dx.Length && |r.scaleDiff| == scaleDiff.Length && |r.biasDiff| == biasDiff.Length
    modifies dx, scaleDiff, biasDiff
    ensures Gradients(dx[..], scaleDiff[..], biasDiff[..]) == r
  {
    WriteBack(dx, r.dx);
    WriteBack(scaleDiff, r.scaleDiff);
    WriteBack(biasDiff, r.biasDiff);
  }

  /** The three accumulateGradients calls: dx with the data factor, scale and bias gradients with the parameter factor. */
  method AccumulateAll(dx: array<real>, dxPrior: array<real>, dxDims: seq<int>,
                       scaleDiff: array<real>, scalePrior: array<real>, biasDiff: array<real>, biasPrior: array<real>,
                       paramDims: seq<int>, betaData: real, betaParam: real)
    requires dx != scaleDiff && dx != biasDiff && scaleDiff != biasDiff
    requires dxPrior !in {dx, scaleDiff, biasDiff} && scalePrior !in {dx, scaleDiff, biasDiff} && biasPrior !in {dx, scaleDiff, biasDiff}
    requires 4 <= |dxDims| <= 5 && forall k :: 0 <= k < |dxDims| ==> dxDims[k] >= 0
    requires 4 <= |paramDims| <= 5 && forall k :: 0 <= k < |paramDims| ==> paramDims[k] >= 0
    requires Product(dxDims) <= dx.Length && Product(dxDims) <= dxPrior.Length
    requires Product(paramDims) <= scaleDiff.Length && Product(paramDims) <= scalePrior.Length
    requires Product(paramDims) <= biasDiff.Length && Product(paramDims) <= biasPrior.Length
    modifies dx, scaleDiff, biasDiff
    ensures dx[..] == Recombined(old(dx[..]), dxPrior[..], betaData, Product(dxDims))
    ensures scaleDiff[..] == Recombined(old(scaleDiff[..]), scalePrior[..], betaParam, Product(paramDims))
    ensures biasDiff[..] == Recombined(old(biasDiff[..]), biasPrior[..], betaParam, Product(paramDims))
  {
    var _ := AccumulateGradients(dx, dxPrior, dxDims, betaData);
    var _ := AccumulateGradients(scaleDiff, scalePrior, paramDims, betaParam);
    var _ := AccumulateGradients(biasDiff, biasPrior, paramDims, betaParam);
  }

  /**
   * The body of hipdnnBatchNormalizationBackward after the mode check: call the
   * backend directly when both factors are zero; otherwise snapshot dx, the
   * scale gradient and the bias gradient, call with both factors zero,
   * accumulate each, and free the three snapshots.
   */
  method BatchNormBlendedCall(dev: Device, dx: array<real>, dxPtr: Ptr, dxDims: seq<int>,
                              scaleDiff: array<real>, scalePtr: Ptr, biasDiff: array<real>, biasPtr: Ptr,
                              paramDims: seq<int>, betaData: real, betaParam: real, backend: BatchNormBackend)
    requires dev.Valid() && dxPtr in dev.live && scalePtr in dev.live && biasPtr in dev.live
    requires PreservesShapes(backend)
    requires dx != scaleDiff && dx != biasDiff && scaleDiff != biasDiff
    requires 4 <= |dxDims| <= 5 && forall k :: 0 <= k < |dxDims| ==> dxDims[k] >= 0
    requires 4 <= |paramDims| <= 5 && forall k :: 0 <= k < |paramDims| ==> paramDims[k] >= 0
    requires Product(dxDims) <= dx.Length
    requires Product(paramDims) <= scaleDiff.Length && Product(paramDims) <= biasDiff.Length
    modifies dev, dx, scaleDiff, biasDiff
    ensures dev.Valid() && dev.live == old(dev.live)
    ensures Gradients(dx[..], scaleDiff[..], biasDiff[..]) ==
            BatchNormEmulated(backend, old(Gradients(dx[..], scaleDiff[..], biasDiff[..])),
                              betaData, betaParam, Product(dxDims), Product(paramDims))
  {
    var g := Gradients(dx[..], scaleDiff[..], biasDiff[..]);
    if betaData == 0.0 && betaParam == 0.0 {
      WriteGradients(dx, scaleDiff, biasDiff, backend(betaData, betaParam, g));
    } else {
      ghost var live0 := dev.live;
      var tempBetaDataDiff, tempBetaParamDiff := 0.0, 0.0;
      var dxPrior, dxPriorPtr := SaveAsPriorBuffer(dev, dx, dxPtr);
      var scalePrior, scalePriorPtr := SaveAsPriorBuffer(dev, scaleDiff, scalePtr);
      var biasPrior, biasPriorPtr := SaveAsPriorBuffer(dev, biasDiff, biasPtr);
      SnapshotsReleased(live0, dxPriorPtr, live0[dxPtr], scalePriorPtr, live0[scalePtr], biasPriorPtr, live0[biasPtr]);
      WriteGradients(dx, scaleDiff, biasDiff, backend(tempBetaDataDiff, tempBetaParamDiff, g));
      AccumulateAll(dx, dxPrior, dxDims, scaleDiff, scalePrior, biasDiff, biasPrior, paramDims, betaData, betaParam);
      DeallocPrior(dev, dxPriorPtr);
      DeallocPrior(dev, biasPriorPtr);
      DeallocPrior(dev, scalePriorPtr);
    }
  }
}
