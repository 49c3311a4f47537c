/**
 * The CPU reference for 2-D max pooling used by the pooling tests
 * (test/test_pooling_fwd_common.hpp:34-86): for every output element of an
 * NCHW tensor it scans the pooling window in row-major order, skips cells that
 * fall in the padding, keeps the first maximum it meets and stores it; a window
 * that lies entirely in the padding yields the element type's lowest value.
 *
 * Elements are modelled as `real` (the tests instantiate the template with
 * float); `lowest` stands for `std::numeric_limits<dataType>::lowest()`.
 */
module MaxPoolReference {
  import opened Wrappers

  /** The pooling problem: batch, channels, input and output extents, window, padding, strides. */
  datatype PoolDesc = PoolDesc(
    mb: int, c: int,
    ih: int, iw: int,
    oh: int, ow: int,
    kh: int, kw: int,
    padt: int, padl: int,
    strh: int, strw: int)

  /** Extents are counts; padding and strides may be any integer. */
  predicate ValidShape(pd: PoolDesc)
  {
    0 <= pd.mb && 0 <= pd.c && 0 <= pd.ih && 0 <= pd.iw &&
    0 <= pd.oh && 0 <= pd.ow && 0 <= pd.kh && 0 <= pd.kw
  }

  /** The running state of one window scan: best value, its window index, and whether any cell was seen. */
  datatype Acc = Acc(value: real, refIndex: int, initialized: bool)

  // ------------------------------------------------------------ NCHW indexing

  /**
   * Integer multiplication, written as repeated addition so that offsets are
   * reasoned about only through the lemmas below (MulIsProduct relates it to `*`).
   */
  function Mul(a: int, b: int): int
    decreases if a < 0 then -a else a
  {
    if a == 0 then 0 else if a > 0 then Mul(a - 1, b) + b else Mul(a + 1, b) - b
  }

  lemma {:induction false} MulIsProduct(a: int, b: int)
    ensures Mul(a, b) == a * b
    decreases if a < 0 then -a else a
  {
    if a > 0 {
      MulIsProduct(a - 1, b);
    } else if a < 0 {
      MulIsProduct(a + 1, b);
    }
  }

  /** Row-major offset ((n * C + c) * H + h) * W + w of (n, c, h, w) in an N x C x H x W tensor. */
  function Flat(n: int, c: int, h: int, w: int, C: int, H: int, W: int): int
  {
    Mul(Mul(Mul(n, C) + c, H) + h, W) + w
  }

  /** Number of elements N * C * H * W. */
  function Count(N: int, C: int, H: int, W: int): int
  {
    Mul(Mul(Mul(N, C), H), W)
  }

  function InputIndex(pd: PoolDesc, n: int, c: int, ih: int, iw: int): int
  {
    Flat(n, c, ih, iw, pd.c, pd.ih, pd.iw)
  }

  function OutputIndex(pd: PoolDesc, n: int, c: int, oh: int, ow: int): int
  {
    Flat(n, c, oh, ow, pd.c, pd.oh, pd.ow)
  }

  function InputCount(pd: PoolDesc): int { Count(pd.mb, pd.c, pd.ih, pd.iw) }

  function OutputCount(pd: PoolDesc): int { Count(pd.mb, pd.c, pd.oh, pd.ow) }

  lemma {:induction false} MulAtLeast(x: int, B: int)
    requires x >= 1 && B >= 0
    ensures Mul(x, B) >= B
    decreases x
  {
    if x > 1 {
      MulAtLeast(x - 1, B);
    }
  }

  lemma MulDifference(a: int, b: int, B: int)
    ensures Mul(a, B) - Mul(b, B) == Mul(a - b, B)
  {
    MulIsProduct(a, B);
    MulIsProduct(b, B);
    MulIsProduct(a - b, B);
  }

  /** A digit below the radix fixes both parts of hi * B + lo. */
  lemma RadixUnique(hi1: int, lo1: int, hi2: int, lo2: int, B: int)
    requires 0 <= lo1 < B && 0 <= lo2 < B
    requires Mul(hi1, B) + lo1 == Mul(hi2, B) + lo2
    ensures hi1 == hi2 && lo1 == lo2
  {
    if hi1 > hi2 {
      MulDifference(hi1, hi2, B);
      MulAtLeast(hi1 - hi2, B);
    } else if hi1 < hi2 {
      MulDifference(hi2, hi1, B);
      MulAtLeast(hi2 - hi1, B);
    }
  }

  /** A digit below the radix keeps hi * B + lo below H * B. */
  lemma RadixBound(hi: int, lo: int, H: int, B: int)
    requires 0 <= hi < H && 0 <= lo < B
    ensures 0 <= Mul(hi, B) + lo < Mul(H, B)
  {
    MulDifference(H, hi, B);
    MulAtLeast(H - hi, B);
    if hi > 0 {
      MulAtLeast(hi, B);
    }
  }

  /** In-range coordinates land inside the tensor. */
  lemma FlatBound(n: int, c: int, h: int, w: int, N: int, C: int, H: int, W: int)
    requires 0 <= n < N && 0 <= c < C && 0 <= h < H && 0 <= w < W
    ensures 0 <= Flat(n, c, h, w, C, H, W) < Count(N, C, H, W)
  {
    RadixBound(n, c, N, C);
    RadixBound(Mul(n, C) + c, h, Mul(N, C), H);
    RadixBound(Mul(Mul(n, C) + c, H) + h, w, Mul(Mul(N, C), H), W);
  }

  /** Distinct in-range coordinates have distinct offsets. */
  lemma FlatInjective(n1: int, c1: int, h1: int, w1: int, n2: int, c2: int, h2: int, w2: int, C: int, H: int, W: int)
    requires 0 <= c1 < C && 0 <= h1 < H && 0 <= w1 < W
    requires 0 <= c2 < C && 0 <= h2 < H && 0 <= w2 < W
    requires Flat(n1, c1, h1, w1, C, H, W) == Flat(n2, c2, h2, w2, C, H, W)
    ensures n1 == n2 && c1 == c2 && h1 == h2 && w1 == w2
  {
    RadixUnique(Mul(Mul(n1, C) + c1, H) + h1, w1, Mul(Mul(n2, C) + c2, H) + h2, w2, W);
    RadixUnique(Mul(n1, C) + c1, h1, Mul(n2, C) + c2, h2, H);
    RadixUnique(n1, c1, n2, c2, C);
  }

  lemma MulNext(a: int, b: int)
    ensures Mul(a + 1, b) == Mul(a, b) + b
  {
    MulIsProduct(a + 1, b);
    MulIsProduct(a, b);
  }

  /** Moving past the last position of one extent is moving to the start of the next. */
  lemma FlatCarry(n: int, c: int, h: int, C: int, H: int, W: int)
    ensures Flat(n, c, h, W, C, H, W) == Flat(n, c, h + 1, 0, C, H, W)
    ensures Flat(n, c, H, 0, C, H, W) == Flat(n, c + 1, 0, 0, C, H, W)
    ensures Flat(n, C, 0, 0, C, H, W) == Flat(n + 1, 0, 0, 0, C, H, W)
    ensures Flat(n, 0, 0, 0, C, H, W) == Count(n, C, H, W)
  {
    MulNext(Mul(Mul(n, C) + c, H) + h, W);
    MulNext(Mul(n, C) + c, H);
    MulNext(n, C);
  }

  // ------------------------------------------------------------ the window

  function InputRow(pd: PoolDesc, oh: int, r: int): int { Mul(oh, pd.strh) - pd.padt + r }

  function InputCol(pd: PoolDesc, ow: int, j: int): int { Mul(ow, pd.strw) - pd.padl + j }

  predicate InBounds(pd: PoolDesc, oh: int, ow: int, r: int, j: int)
  {
    0 <= InputRow(pd, oh, r) < pd.ih && 0 <= InputCol(pd, ow, j) < pd.iw
  }

  /** Window cell (r, j) of output (n, c, oh, ow): the input value, or None in the padding. */
  function Cell(pd: PoolDesc, src: seq<real>, n: int, c: int, oh: int, ow: int, r: int, j: int): (cell: Option<real>)
    requires ValidShape(pd) && InputCount(pd) <= |src|
    requires 0 <= n < pd.mb && 0 <= c < pd.c
    ensures cell.Some? <==> InBounds(pd, oh, ow, r, j)
  {
    if InBounds(pd, oh, ow, r, j) then
      FlatBound(n, c, InputRow(pd, oh, r), InputCol(pd, ow, j), pd.mb, pd.c, pd.ih, pd.iw);
      Some(src[InputIndex(pd, n, c, InputRow(pd, oh, r), InputCol(pd, ow, j))])
    else None
  }

  function WindowRow(pd: PoolDesc, src: seq<real>, n: int, c: int, oh: int, ow: int, r: int): (row: seq<Option<real>>)
    requires ValidShape(pd) && InputCount(pd) <= |src|
    requires 0 <= n < pd.mb && 0 <= c < pd.c
    ensures |row| == pd.kw
  {
    seq(pd.kw, j requires 0 <= j < pd.kw => Cell(pd, src, n, c, oh, ow, r, j))
  }

  /** The first `rows` rows of the window, in row-major order. */
  function WindowPrefix(pd: PoolDesc, src: seq<real>, n: int, c: int, oh: int, ow: int, rows: nat): (cells: seq<Option<real>>)
    requires ValidShape(pd) && InputCount(pd) <= |src|
    requires 0 <= n < pd.mb && 0 <= c < pd.c
    ensures |cells| == Mul(rows, pd.kw)
  {
    if rows == 0 then []
    else WindowPrefix(pd, src, n, c, oh, ow, rows - 1) + WindowRow(pd, src, n, c, oh, ow, rows - 1)
  }

  /** The window index of cell (r, j): out_ref_index = r * kw + j. */
  function RefIndex(pd: PoolDesc, r: int, j: int): int { Mul(r, pd.kw) + j }

  /** The whole window of output (n, c, oh, ow), cell (r, j) at position RefIndex(r, j). */
  function Window(pd: PoolDesc, src: seq<real>, n: int, c: int, oh: int, ow: int): seq<Option<real>>
    requires ValidShape(pd) && InputCount(pd) <= |src|
    requires 0 <= n < pd.mb && 0 <= c < pd.c
  {
    WindowPrefix(pd, src, n, c, oh, ow, pd.kh)
  }

  /** Every position of the first `rows` rows holds the cell whose window index it is. */
  lemma {:induction false} WindowPrefixAt(pd: PoolDesc, src: seq<real>, n: int, c: int, oh: int, ow: int, rows: nat, i: int)
    requires ValidShape(pd) && InputCount(pd) <= |src|
    requires 0 <= n < pd.mb && 0 <= c < pd.c
    requires 0 <= i < Mul(rows, pd.kw)
    ensures exists r, j :: 0 <= r < rows && 0 <= j < pd.kw && i == RefIndex(pd, r, j) &&
                           WindowPrefix(pd, src, n, c, oh, ow, rows)[i] == Cell(pd, src, n, c, oh, ow, r, j)
  {
    var prefix := WindowPrefix(pd, src, n, c, oh, ow, rows - 1);
    if i < Mul(rows - 1, pd.kw) {
      WindowPrefixAt(pd, src, n, c, oh, ow, rows - 1, i);
      var r, j :| 0 <= r < rows - 1 && 0 <= j < pd.kw && i == RefIndex(pd, r, j) &&
                  prefix[i] == Cell(pd, src, n, c, oh, ow, r, j);
      assert WindowPrefix(pd, src, n, c, oh, ow, rows)[i] == prefix[i];
    } else {
      var j := i - Mul(rows - 1, pd.kw);
      assert i == RefIndex(pd, rows - 1, j);
      assert WindowPrefix(pd, src, n, c, oh, ow, rows)[i] == WindowRow(pd, src, n, c, oh, ow, rows - 1)[j];
    }
  }

  /** Cell (r, j) sits at position RefIndex(r, j) of the window. */
  lemma {:induction false} WindowCellAt(pd: PoolDesc, src: seq<real>, n: int, c: int, oh: int, ow: int, rows: nat, r: int, j: int)
    requires ValidShape(pd) && InputCount(pd) <= |src|
    requires 0 <= n < pd.mb && 0 <= c < pd.c
    requires 0 <= r < rows && 0 <= j < pd.kw
    ensures 0 <= RefIndex(pd, r, j) < Mul(rows, pd.kw)
    ensures WindowPrefix(pd, src, n, c, oh, ow, rows)[RefIndex(pd, r, j)] == Cell(pd, src, n, c, oh, ow, r, j)
  {
    RadixBound(r, j, rows, pd.kw);
    if r < rows - 1 {
      WindowCellAt(pd, src, n, c, oh, ow, rows - 1, r, j);
    } else {
      assert WindowPrefix(pd, src, n, c, oh, ow, rows)[RefIndex(pd, r, j)] == WindowRow(pd, src, n, c, oh, ow, r)[j];
    }
  }

  // ------------------------------------------------------------ the scan

  /** One iteration of the scan over a cell at window index `idx`: padding is skipped, the first value initialises, a strictly larger value replaces. */
  function Step(acc: Acc, cell: Option<real>, idx: int): Acc
  {
    match cell
    case None => acc
    case Some(d) =>
      if !acc.initialized then Acc(d, idx, true)
      else if acc.value < d then Acc(d, idx, true)
      else acc
  }

  /** The accumulator after scanning `cells` from the start, beginning at (lowest, 0, false). */
  function Scan(cells: seq<Option<real>>, lowest: real): Acc
  {
    if cells == [] then Acc(lowest, 0, false)
    else Step(Scan(cells[..|cells| - 1], lowest), cells[|cells| - 1], |cells| - 1)
  }

  /**
   * The scan finds the first maximum: it is initialised exactly when some cell
   * holds a value; its value bounds every value; when initialised, it sits at
   * `refIndex` and every earlier value is strictly smaller; otherwise it is
   * (lowest, 0).
   */
  lemma {:induction false} ScanIsFirstMaximum(cells: seq<Option<real>>, lowest: real)
    ensures Scan(cells, lowest).initialized <==> exists i :: 0 <= i < |cells| && cells[i].Some?
    ensures forall i :: 0 <= i < |cells| && cells[i].Some? ==> cells[i].value <= Scan(cells, lowest).value
    ensures !Scan(cells, lowest).initialized ==> Scan(cells, lowest) == Acc(lowest, 0, false)
    ensures Scan(cells, lowest).initialized ==>
              var a := Scan(cells, lowest);
              0 <= a.refIndex < |cells| && cells[a.refIndex] == Some(a.value) &&
              forall i :: 0 <= i < a.refIndex && cells[i].Some? ==> cells[i].value < a.value
  {
    if cells != [] {
      var init := cells[..|cells| - 1];
      ScanIsFirstMaximum(init, lowest);
      assert forall i :: 0 <= i < |init| ==> init[i] == cells[i];
    }
  }

  /** The reference result for one output element. */
  function WindowResult(pd: PoolDesc, src: seq<real>, n: int, c: int, oh: int, ow: int, lowest: real): Acc
    requires ValidShape(pd) && InputCount(pd) <= |src|
    requires 0 <= n < pd.mb && 0 <= c < pd.c
  {
    Scan(Window(pd, src, n, c, oh, ow), lowest)
  }

  /**
   * In window coordinates: the output is `lowest` when the window lies in the
   * padding; otherwise it is the value of an in-bounds cell (r, j) with
   * out_ref_index = RefIndex(r, j), no in-bounds cell is larger, and every in-bounds
   * cell earlier in row-major order is strictly smaller.
   */
  lemma WindowMaximum(pd: PoolDesc, src: seq<real>, n: int, c: int, oh: int, ow: int, lowest: real)
    requires ValidShape(pd) && InputCount(pd) <= |src|
    requires 0 <= n < pd.mb && 0 <= c < pd.c
    ensures var a := WindowResult(pd, src, n, c, oh, ow, lowest);
      (a.initialized <==> exists r, j :: 0 <= r < pd.kh && 0 <= j < pd.kw && InBounds(pd, oh, ow, r, j))
      && (forall r, j :: 0 <= r < pd.kh && 0 <= j < pd.kw && InBounds(pd, oh, ow, r, j) ==>
            Cell(pd, src, n, c, oh, ow, r, j).value <= a.value)
      && (!a.initialized ==> a.value == lowest && a.refIndex == 0)
      && (a.initialized ==>
            exists r, j :: 0 <= r < pd.kh && 0 <= j < pd.kw && a.refIndex == RefIndex(pd, r, j) &&
              Cell(pd, src, n, c, oh, ow, r, j) == Some(a.value) &&
              forall r', j' ::
                (0 <= r' < pd.kh && 0 <= j' < pd.kw && RefIndex(pd, r', j') < a.refIndex && InBounds(pd, oh, ow, r', j'))
                ==> Cell(pd, src, n, c, oh, ow, r', j').value < a.value)
  {
    var cells := Window(pd, src, n, c, oh, ow);
    var a := WindowResult(pd, src, n, c, oh, ow, lowest);
    ScanIsFirstMaximum(cells, lowest);
    forall r, j | 0 <= r < pd.kh && 0 <= j < pd.kw
      ensures 0 <= RefIndex(pd, r, j) < |cells| && cells[RefIndex(pd, r, j)] == Cell(pd, src, n, c, oh, ow, r, j)
    {
      WindowCellAt(pd, src, n, c, oh, ow, pd.kh, r, j);
    }
    if a.initialized {
      var i :| 0 <= i < |cells| && cells[i].Some?;
      WindowPrefixAt(pd, src, n, c, oh, ow, pd.kh, i);
      WindowPrefixAt(pd, src, n, c, oh, ow, pd.kh, a.refIndex);
    } else {
      forall r, j | 0 <= r < pd.kh && 0 <= j < pd.kw
        ensures !InBounds(pd, oh, ow, r, j)
      {
        assert cells[RefIndex(pd, r, j)] == Cell(pd, src, n, c, oh, ow, r, j);
      }
    }
  }

  /** The scan after the first `kw` cells of window row `kh`. */
  function ScanUpTo(pd: PoolDesc, src: seq<real>, n: int, c: int, oh: int, ow: int, kh: nat, kw: nat, lowest: real): Acc
    requires ValidShape(pd) && InputCount(pd) <= |src|
    requires 0 <= n < pd.mb && 0 <= c < pd.c && kw <= pd.kw
  {
    Scan(WindowPrefix(pd, src, n, c, oh, ow, kh) + WindowRow(pd, src, n, c, oh, ow, kh)[..kw], lowest)
  }

  /** Scanning one more cell of a row is one Step at that cell's window index. */
  lemma ScanUpToNext(pd: PoolDesc, src: seq<real>, n: int, c: int, oh: int, ow: int, kh: nat, kw: nat, lowest: real)
    requires ValidShape(pd) && InputCount(pd) <= |src|
    requires 0 <= n < pd.mb && 0 <= c < pd.c && kw < pd.kw
    ensures ScanUpTo(pd, src, n, c, oh, ow, kh, kw + 1, lowest) ==
            Step(ScanUpTo(pd, src, n, c, oh, ow, kh, kw, lowest), Cell(pd, src, n, c, oh, ow, kh, kw), RefIndex(pd, kh, kw))
  {
    var done := WindowPrefix(pd, src, n, c, oh, ow, kh);
    var row := WindowRow(pd, src, n, c, oh, ow, kh);
    var before := done + row[..kw];
    assert (done + row[..kw + 1])[..|before|] == before;
    assert (done + row[..kw + 1])[|before|] == Cell(pd, src, n, c, oh, ow, kh, kw);
  }

  /** The start and the end of a row of the scan. */
  lemma ScanUpToEnds(pd: PoolDesc, src: seq<real>, n: int, c: int, oh: int, ow: int, kh: nat, lowest: real)
    requires ValidShape(pd) && InputCount(pd) <= |src|
    requires 0 <= n < pd.mb && 0 <= c < pd.c
    ensures ScanUpTo(pd, src, n, c, oh, ow, kh, 0, lowest) == Scan(WindowPrefix(pd, src, n, c, oh, ow, kh), lowest)
    ensures ScanUpTo(pd, src, n, c, oh, ow, kh, pd.kw, lowest) == Scan(WindowPrefix(pd, src, n, c, oh, ow, kh + 1), lowest)
  {
    var done := WindowPrefix(pd, src, n, c, oh, ow, kh);
    var row := WindowRow(pd, src, n, c, oh, ow, kh);
    assert done + row[..0] == done;
    assert row[..pd.kw] == row;
  }

  /** The two nested window loops for one output element. */
  method ScanWindow(pd: PoolDesc, src: array<real>, n: int, c: int, oh: int, ow: int, lowest: real) returns (acc: Acc)
    requires ValidShape(pd) && InputCount(pd) <= src.Length
    requires 0 <= n < pd.mb && 0 <= c < pd.c
    ensures acc == WindowResult(pd, src[..], n, c, oh, ow, lowest)
  {
    acc := Acc(lowest, 0, false);
    var kh := 0;
    while kh < pd.kh
      invariant 0 <= kh <= pd.kh
      invariant acc == Scan(WindowPrefix(pd, src[..], n, c, oh, ow, kh), lowest)
    {
      ScanUpToEnds(pd, src[..], n, c, oh, ow, kh, lowest);
      var kw := 0;
      while kw < pd.kw
        invariant 0 <= kw <= pd.kw
        invariant acc == ScanUpTo(pd, src[..], n, c, oh, ow, kh, kw, lowest)
      {
        ScanUpToNext(pd, src[..], n, c, oh, ow, kh, kw, lowest);
        var ih := InputRow(pd, oh, kh);
        var iw := InputCol(pd, ow, kw);
        if ih < 0 || ih >= pd.ih || iw < 0 || iw >= pd.iw {
          kw := kw + 1;
          continue;
        }
        FlatBound(n, c, ih, iw, pd.mb, pd.c, pd.ih, pd.iw);
        var d := src[InputIndex(pd, n, c, ih, iw)];
        if !acc.initialized {
          acc := Acc(d, RefIndex(pd, kh, kw), true);
        } else if acc.value < d {
          acc := Acc(d, RefIndex(pd, kh, kw), true);
        }
        kw := kw + 1;
      }
      kh := kh + 1;
    }
  }

  /**
   * The reference max pooling: every output element of the N x C x OH x OW
   * output receives its window's result; elements past the output are untouched.
   */
  method MaxPoolForward(pd: PoolDesc, src: array<real>, dst: array<real>, lowest: real)
    requires ValidShape(pd)
    requires InputCount(pd) <= src.Length && OutputCount(pd) <= dst.Length
    requires src != dst
    modifies dst
    ensures forall n, c, oh, ow :: 0 <= n < pd.mb && 0 <= c < pd.c && 0 <= oh < pd.oh && 0 <= ow < pd.ow ==>
              0 <= OutputIndex(pd, n, c, oh, ow) < OutputCount(pd) &&
              dst[OutputIndex(pd, n, c, oh, ow)] == WindowResult(pd, src[..], n, c, oh, ow, lowest).value
    ensures forall k :: 0 <= k < dst.Length && OutputCount(pd) <= k ==> dst[k] == old(dst[k])
    ensures Covered(pd, OutputCount(pd))
    ensures src[..] == old(src[..])
  {
    forall n, c, oh, ow | 0 <= n < pd.mb && 0 <= c < pd.c && 0 <= oh < pd.oh && 0 <= ow < pd.ow
      ensures 0 <= OutputIndex(pd, n, c, oh, ow)
    {
      FlatBound(n, c, oh, ow, pd.mb, pd.c, pd.oh, pd.ow);
    }
    var n := 0;
    while n < pd.mb
      invariant 0 <= n <= pd.mb
      invariant 0 <= OutputIndex(pd, n, 0, 0, 0)
      invariant Done(pd, src[..], dst[..], lowest, OutputIndex(pd, n, 0, 0, 0))
      invariant Covered(pd, OutputIndex(pd, n, 0, 0, 0))
      invariant forall k :: 0 <= k < dst.Length && OutputIndex(pd, n, 0, 0, 0) <= k ==> dst[k] == old(dst[k])
    {
      var c := 0;
      while c < pd.c
        invariant 0 <= c <= pd.c
        invariant OutputIndex(pd, n, 0, 0, 0) <= OutputIndex(pd, n, c, 0, 0)
        invariant Done(pd, src[..], dst[..], lowest, OutputIndex(pd, n, c, 0, 0))
        invariant Covered(pd, OutputIndex(pd, n, c, 0, 0))
        invariant forall k :: 0 <= k < dst.Length && OutputIndex(pd, n, c, 0, 0) <= k ==> dst[k] == old(dst[k])
      {
        PoolPlane(pd, src, dst, n, c, lowest);
        c := c + 1;
      }
      FlatCarry(n, c, 0, pd.c, pd.oh, pd.ow);
      n := n + 1;
    }
    FlatCarry(n, 0, 0, pd.c, pd.oh, pd.ow);
    forall n, c, oh, ow | 0 <= n < pd.mb && 0 <= c < pd.c && 0 <= oh < pd.oh && 0 <= ow < pd.ow
      ensures 0 <= OutputIndex(pd, n, c, oh, ow) < OutputCount(pd)
    {
      FlatBound(n, c, oh, ow, pd.mb, pd.c, pd.oh, pd.ow);
    }
  }

  /** The two inner loops of the reference: all outputs of channel c of image n. */
  method PoolPlane(pd: PoolDesc, src: array<real>, dst: array<real>, n: int, c: int, lowest: real)
    requires ValidShape(pd)
    requires InputCount(pd) <= src.Length && OutputCount(pd) <= dst.Length
    requires src != dst
    requires 0 <= n < pd.mb && 0 <= c < pd.c
    requires Done(pd, src[..], dst[..], lowest, OutputIndex(pd, n, c, 0, 0))
    requires Covered(pd, OutputIndex(pd, n, c, 0, 0))
    modifies dst
    ensures OutputIndex(pd, n, c, 0, 0) <= OutputIndex(pd, n, c + 1, 0, 0)
    ensures Done(pd, src[..], dst[..], lowest, OutputIndex(pd, n, c + 1, 0, 0))
    ensures Covered(pd, OutputIndex(pd, n, c + 1, 0, 0))
    ensures forall k :: 0 <= k < dst.Length && OutputIndex(pd, n, c + 1, 0, 0) <= k ==> dst[k] == old(dst[k])
  {
    ghost var start := OutputIndex(pd, n, c, 0, 0);
    ghost var cur := start;
    var oh := 0;
    while oh < pd.oh
      invariant 0 <= oh <= pd.oh
      invariant start <= cur == OutputIndex(pd, n, c, oh, 0)
      invariant Done(pd, src[..], dst[..], lowest, cur)
      invariant Covered(pd, cur)
      invariant forall k :: 0 <= k < dst.Length && cur <= k ==> dst[k] == old(dst[k])
    {
      var ow := 0;
      while ow < pd.ow
        invariant 0 <= ow <= pd.ow
        invariant start <= cur == OutputIndex(pd, n, c, oh, ow)
        invariant Done(pd, src[..], dst[..], lowest, cur)
        invariant Covered(pd, cur)
        invariant forall k :: 0 <= k < dst.Length && cur <= k ==> dst[k] == old(dst[k])
      {
        var oidx := OutputIndex(pd, n, c, oh, ow);
        FlatBound(n, c, oh, ow, pd.mb, pd.c, pd.oh, pd.ow);
        var acc := ScanWindow(pd, src, n, c, oh, ow, lowest);
        ghost var before := dst[..];
        dst[oidx] := acc.value;
        DoneExtends(pd, src[..], before, dst[..], lowest, cur, n, c, oh, ow);
        CoveredExtends(pd, cur, n, c, oh, ow);
        cur := cur + 1;
        ow := ow + 1;
      }
      FlatCarry(n, c, oh, pd.c, pd.oh, pd.ow);
      cur := OutputIndex(pd, n, c, oh + 1, 0);
      oh := oh + 1;
    }
    FlatCarry(n, c, oh, pd.c, pd.oh, pd.ow);
  }

  /** Every output element whose offset is below `bound` holds its window's result. */
  ghost predicate Done(pd: PoolDesc, src: seq<real>, dst: seq<real>, lowest: real, bound: int)
    requires ValidShape(pd) && InputCount(pd) <= |src|
  {
    forall n, c, oh, ow ::
      (0 <= n < pd.mb && 0 <= c < pd.c && 0 <= oh < pd.oh && 0 <= ow < pd.ow && OutputIndex(pd, n, c, oh, ow) < bound)
      ==>
        0 <= OutputIndex(pd, n, c, oh, ow) < |dst| &&
        dst[OutputIndex(pd, n, c, oh, ow)] == WindowResult(pd, src, n, c, oh, ow, lowest).value
  }

  /** Writing the result of the element at offset `bound` extends the finished region by one. */
  lemma DoneExtends(pd: PoolDesc, src: seq<real>, before: seq<real>, after: seq<real>, lowest: real, bound: int,
                    n: int, c: int, oh: int, ow: int)
    requires ValidShape(pd) && InputCount(pd) <= |src|
    requires 0 <= n < pd.mb && 0 <= c < pd.c && 0 <= oh < pd.oh && 0 <= ow < pd.ow
    requires bound == OutputIndex(pd, n, c, oh, ow) && 0 <= bound < |before|
    requires Done(pd, src, before, lowest, bound)
    requires after == before[bound := WindowResult(pd, src, n, c, oh, ow, lowest).value]
    ensures Done(pd, src, after, lowest, bound + 1)
  {
    forall n', c', oh', ow' | 0 <= n' < pd.mb && 0 <= c' < pd.c && 0 <= oh' < pd.oh && 0 <= ow' < pd.ow &&
      OutputIndex(pd, n', c', oh', ow') == bound
      ensures n' == n && c' == c && oh' == oh && ow' == ow
    {
      FlatInjective(n', c', oh', ow', n, c, oh, ow, pd.c, pd.oh, pd.ow);
    }
  }

  /** Offset k is the offset of some output element. */
  ghost predicate IsOutputOffset(pd: PoolDesc, k: int)
  {
    exists n, c, oh, ow :: 0 <= n < pd.mb && 0 <= c < pd.c && 0 <= oh < pd.oh && 0 <= ow < pd.ow &&
                           OutputIndex(pd, n, c, oh, ow) == k
  }

  /** Every offset below `bound` is the offset of some output element. */
  ghost predicate Covered(pd: PoolDesc, bound: int)
  {
    forall k :: 0 <= k < bound ==> IsOutputOffset(pd, k)
  }

  /** The element at offset `bound` extends the covered region by one. */
  lemma CoveredExtends(pd: PoolDesc, bound: int, n: int, c: int, oh: int, ow: int)
    requires 0 <= n < pd.mb && 0 <= c < pd.c && 0 <= oh < pd.oh && 0 <= ow < pd.ow
    requires bound == OutputIndex(pd, n, c, oh, ow)
    requires Covered(pd, bound)
    ensures Covered(pd, bound + 1)
  {
    assert IsOutputOffset(pd, bound);
  }
}
