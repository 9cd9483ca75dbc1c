/**
 tpu_sync/core/layout_utils.cc: whether a buffer and the buffer with its leading
 dimensions folded into one keep every element at the same device offset.
 */
module FoldedLayout {
  import opened Arith
  import opened TiledLayout

  datatype Layout = Layout(
    minorToMajor: seq<int>,
    tiles: seq<seq<int>>,
    elementSizeInBits: int,
    tailPaddingAlignment: int,
    memorySpace: int)

  datatype DeviceLayout = NoLayout | HasLayout(layout: Layout)

  datatype Shape = Shape(dims: seq<int>, device: DeviceLayout)

  datatype Reason =
    | NotAFold
    | NoDeviceLayout
    | LayoutRank
    | NotRowMajor
    | LayoutsDiffer
    | TileWithoutSize
    | TilesInterleave
    | TileSpansFoldedDims
    | RowGroupsPadded

  datatype Verdict = Accepted | Refused(reason: Reason)

  // ---- folding of dimensions ----

  /** `folded` multiplies two or more leading dimensions and keeps the others. */
  predicate Folds(dims: seq<int>, folded: seq<int>)
  {
    && 1 <= |folded| < |dims|
    && var k := NumFolded(dims, folded);
       && dims[k..] == folded[1..]
       && (forall i :: 0 <= i < k ==> dims[i] >= 0)
       && Product(dims[..k]) == folded[0]
  }

  function NumFolded(dims: seq<int>, folded: seq<int>): (k: nat)
    requires 1 <= |folded| < |dims|
    ensures 2 <= k <= |dims|
  {
    |dims| - |folded| + 1
  }

  /**
   What NumFoldedLeadingDims recognizes: every fold, except that a folded size
   of zero is only recognized when the first dimension is the empty one.
   */
  predicate RecognizedFold(dims: seq<int>, folded: seq<int>)
  {
    Folds(dims, folded) && (folded[0] > 0 || dims[0] == 0)
  }

  method NumFoldedLeadingDims(dims: seq<int>, folded: seq<int>) returns (n: nat)
    ensures n > 0 <==> RecognizedFold(dims, folded)
    ensures n > 0 ==> n == NumFolded(dims, folded)
  {
    if folded == [] || |dims| <= |folded| {
      return 0;
    }
    var numFolded := |dims| - |folded| + 1;
    if dims[numFolded..] != folded[1..] {
      return 0;
    }
    var product := 1;
    for i := 0 to numFolded
      invariant product == Product(dims[..i])
      invariant forall j :: 0 <= j < i ==> dims[j] >= 0
      // The running product never leaves the range of its operands.
      invariant 0 <= product && (product <= 1 || product <= folded[0])
      invariant i > 0 && folded[0] <= 0 ==> dims[0] == 0
    {
      var dim := dims[i];
      if dim < 0 || (dim > 0 && product > TruncDiv(folded[0], dim)) {
        RecognizedFoldsPass(dims, folded, i);
        return 0;
      }
      ExtendProduct(dims, i);
      PrefixStaysBelow(product, dim, folded[0]);
      product := product * dim;
    }
    n := if product == folded[0] then numFolded else 0;
  }

  lemma ExtendProduct(dims: seq<int>, i: nat)
    requires i < |dims|
    ensures Product(dims[..i + 1]) == Product(dims[..i]) * dims[i]
  {
    assert dims[..i + 1] == dims[..i] + [dims[i]];
    ProductConcat(dims[..i], [dims[i]]);
  }

  lemma PrefixStaysBelow(product: int, dim: int, limit: int)
    requires product >= 0 && dim >= 0
    requires dim > 0 ==> product <= TruncDiv(limit, dim)
    ensures 0 <= product * dim
    ensures product * dim <= 1 || product * dim <= limit
  {
    if dim > 0 {
      MulMonotone(product, TruncDiv(limit, dim), dim);
      MulMonotone(0, product, dim);
    }
  }

  /** The early exit never fires on a fold that RecognizedFold admits. */
  lemma RecognizedFoldsPass(dims: seq<int>, folded: seq<int>, i: nat)
    requires 1 <= |folded| < |dims| && i < NumFolded(dims, folded)
    ensures RecognizedFold(dims, folded) ==>
              dims[i] >= 0 && (dims[i] > 0 ==> Product(dims[..i]) <= TruncDiv(folded[0], dims[i]))
  {
    if RecognizedFold(dims, folded) && dims[i] > 0 {
      var lead := dims[..NumFolded(dims, folded)];
      assert lead[..i] == dims[..i];
      if folded[0] == 0 {
        assert dims[..i] == [0] + dims[1..i];
        assert Product(dims[..i]) == 0 * Product(dims[1..i]);
      } else {
        PrefixProductBounded(lead, i);
        QuotientIsLargest(Product(dims[..i]), dims[i], folded[0]);
      }
    }
  }

  lemma {:induction false} QuotientIsLargest(p: int, d: int, limit: int)
    requires d > 0 && limit >= 0 && p * d <= limit
    ensures p <= TruncDiv(limit, d)
  {
    if p > TruncDiv(limit, d) {
      MulMonotone(TruncDiv(limit, d) + 1, p, d);
      assert false;
    }
  }

  /** In a positive product no prefix exceeds the whole. */
  lemma {:induction false} PrefixProductBounded(s: seq<int>, i: nat)
    requires i < |s| && Product(s) > 0 && forall j :: 0 <= j < |s| ==> s[j] >= 0
    ensures Product(s[..i]) * s[i] <= Product(s)
  {
    SplitProduct(s, i);
    var tail := s[i + 1..];
    NonZeroFactors(s);
    ProductPositive(tail);
    ProductNonNegative(s[..i]);
    MulMonotone(0, Product(s[..i]), s[i]);
    MulMonotone(1, Product(tail), Product(s[..i]) * s[i]);
  }

  lemma SplitProduct(s: seq<int>, i: nat)
    requires i < |s|
    ensures Product(s) == (Product(s[..i]) * s[i]) * Product(s[i + 1..])
  {
    assert s == s[..i + 1] + s[i + 1..];
    ProductConcat(s[..i + 1], s[i + 1..]);
    ExtendProduct(s, i);
  }

  lemma {:induction false} NonZeroFactors(s: seq<int>)
    requires Product(s) != 0
    ensures forall i :: 0 <= i < |s| ==> s[i] != 0
  {
    if s != [] {
      NonZeroFactors(s[1..]);
      assert forall i :: 1 <= i < |s| ==> s[i] == s[1..][i - 1];
    }
  }

  /** Of shapes whose folded dimensions are all positive, every fold is recognized. */
  lemma PositiveFoldsRecognized(dims: seq<int>, folded: seq<int>)
    requires Folds(dims, folded)
    requires forall i :: 0 <= i < NumFolded(dims, folded) ==> dims[i] > 0
    ensures RecognizedFold(dims, folded)
  {
    ProductPositive(dims[..NumFolded(dims, folded)]);
  }

  /** A fold with an empty dimension is recognized only if the first one is empty. */
  lemma EmptyFoldsExactly(dims: seq<int>, folded: seq<int>, i: nat)
    requires Folds(dims, folded) && i < NumFolded(dims, folded) && dims[i] == 0
    ensures folded[0] == 0 && (RecognizedFold(dims, folded) <==> dims[0] == 0)
  {
    ZeroFactor(dims[..NumFolded(dims, folded)], i);
  }

  lemma {:induction false} ZeroFactor(s: seq<int>, i: nat)
    requires i < |s| && s[i] == 0
    ensures Product(s) == 0
  {
    if i > 0 {
      ZeroFactor(s[1..], i - 1);
    }
  }

  /** So the fold of [5, 0] into [0] is refused. */
  lemma EmptyFoldRefused()
    ensures Folds([5, 0], [0]) && !RecognizedFold([5, 0], [0])
  {
    assert [5, 0][..2] == [5, 0];
    assert [5, 0][1..] == [0];
    assert Product([0]) == 0 * Product([]);
    assert [5, 0][2..] == [0][1..];
  }

  // ---- the elements of both shapes ----

  function Axes(dims: seq<int>, element: seq<int>): (r: seq<Axis>)
    requires |dims| == |element|
    ensures |r| == |dims|
  {
    if dims == [] then []
    else
      var n := |dims| - 1;
      Axes(dims[..n], element[..n]) + [Axis(dims[n], element[n])]
  }

  lemma {:induction false} AxesAt(dims: seq<int>, element: seq<int>, i: nat)
    requires |dims| == |element| && i < |dims|
    ensures Axes(dims, element)[i] == Axis(dims[i], element[i])
    decreases |dims|
  {
    if i < |dims| - 1 {
      AxesAt(dims[..|dims| - 1], element[..|dims| - 1], i);
    }
  }

  lemma AxesSplit(dims: seq<int>, element: seq<int>, k: nat)
    requires k <= |dims| == |element|
    ensures Axes(dims, element) == Axes(dims[..k], element[..k]) + Axes(dims[k..], element[k..])
  {
    var whole, front, back := Axes(dims, element), Axes(dims[..k], element[..k]), Axes(dims[k..], element[k..]);
    forall i | 0 <= i < |dims|
      ensures whole[i] == (front + back)[i]
    {
      AxesAt(dims, element, i);
      if i < k {
        AxesAt(dims[..k], element[..k], i);
      } else {
        AxesAt(dims[k..], element[k..], i - k);
      }
    }
  }

  lemma AxesInside(dims: seq<int>, element: seq<int>)
    requires InShape(element, dims)
    ensures Inside(Axes(dims, element))
  {
    forall i | 0 <= i < |dims|
      ensures 0 <= Axes(dims, element)[i].index < Axes(dims, element)[i].size
    {
      AxesAt(dims, element, i);
    }
  }

  /** The element of the folded shape that holds `element`. */
  function FoldElement(dims: seq<int>, element: seq<int>, k: nat): (r: seq<int>)
    requires k <= |dims| == |element|
  {
    [Linear(Axes(dims[..k], element[..k]))] + element[k..]
  }

  /** Mixed-radix digits of `v`: the element of row-major index `v`. */
  function Digits(dims: seq<int>, v: int): (r: seq<int>)
    requires Positive(dims)
    ensures |r| == |dims|
  {
    if dims == [] then []
    else
      var last := dims[|dims| - 1];
      Digits(dims[..|dims| - 1], v / last) + [v % last]
  }

  lemma {:induction false} DigitsAreInverse(dims: seq<int>, v: int)
    requires Positive(dims) && 0 <= v < Product(dims)
    ensures InShape(Digits(dims, v), dims)
    ensures Linear(Axes(dims, Digits(dims, v))) == v
    decreases |dims|
  {
    if dims != [] {
      var n := |dims| - 1;
      var init, last := dims[..n], dims[n];
      ExtendProduct(dims, n);
      assert dims[..n + 1] == dims;
      QuotientBelow(v, Product(init), last);
      DigitsAreInverse(init, v / last);
      AppendDigit(dims, Digits(init, v / last), v % last);
      assert v == v / last * last + v % last;
    }
  }

  lemma {:induction false} AppendDigit(dims: seq<int>, digits: seq<int>, d: int)
    requires dims != [] && InShape(digits, dims[..|dims| - 1]) && 0 <= d < dims[|dims| - 1]
    ensures InShape(digits + [d], dims)
    ensures Linear(Axes(dims, digits + [d])) == Linear(Axes(dims[..|dims| - 1], digits)) * dims[|dims| - 1] + d
  {
    var n := |dims| - 1;
    assert (digits + [d])[..n] == digits;
    assert InShape(digits + [d], dims) by { DigitsInShape(dims, digits, d); }
    LinearAppend(Axes(dims[..n], digits), Axis(dims[n], d));
  }

  lemma DigitsInShape(dims: seq<int>, digits: seq<int>, d: int)
    requires dims != [] && InShape(digits, dims[..|dims| - 1]) && 0 <= d < dims[|dims| - 1]
    ensures InShape(digits + [d], dims)
  {
    forall i | 0 <= i < |dims| - 1
      ensures 0 <= digits[i] < dims[i]
    {
      assert dims[..|dims| - 1][i] == dims[i];
    }
  }

  lemma {:induction false} ExtentIsProduct(dims: seq<int>, element: seq<int>)
    requires |dims| == |element|
    ensures Extent(Axes(dims, element)) == Product(dims)
    decreases |dims|
  {
    if dims != [] {
      var n := |dims| - 1;
      ExtentIsProduct(dims[..n], element[..n]);
      ExtendProduct(dims, n);
      assert dims[..n + 1] == dims;
    }
  }

  /** Folding maps the elements of the buffer onto those of the folded buffer. */
  lemma FoldElementInShape(dims: seq<int>, folded: seq<int>, element: seq<int>)
    requires Folds(dims, folded) && InShape(element, dims)
    ensures InShape(FoldElement(dims, element, NumFolded(dims, folded)), folded)
  {
    var k := NumFolded(dims, folded);
    AxesInside(dims[..k], element[..k]);
    LinearBounds(Axes(dims[..k], element[..k]));
    ExtentIsProduct(dims[..k], element[..k]);
    var f := FoldElement(dims, element, k);
    forall i | 1 <= i < |folded|
      ensures 0 <= f[i] < folded[i]
    {
      assert f[i] == element[k + i - 1];
      assert folded[i] == folded[1..][i - 1] == dims[k..][i - 1];
    }
  }

  /** ... and every element of the folded buffer is reached. */
  lemma {:induction false} FoldElementOnto(dims: seq<int>, folded: seq<int>, f: seq<int>) returns (element: seq<int>)
    requires Folds(dims, folded) && InShape(f, folded)
    ensures InShape(element, dims)
    ensures FoldElement(dims, element, NumFolded(dims, folded)) == f
  {
    var k := NumFolded(dims, folded);
    var lead := dims[..k];
    NonZeroFactors(lead);
    DigitsAreInverse(lead, f[0]);
    element := Digits(lead, f[0]) + f[1..];
    assert element[..k] == Digits(lead, f[0]) && element[k..] == f[1..];
    TailInShape(f, folded);
    InShapeParts(dims, element, k);
    assert f == [f[0]] + f[1..];
  }

  lemma TailInShape(f: seq<int>, folded: seq<int>)
    requires InShape(f, folded) && f != []
    ensures InShape(f[1..], folded[1..])
  {
    assert forall i :: 0 <= i < |f[1..]| ==> f[1..][i] == f[i + 1] && folded[1..][i] == folded[i + 1];
  }

  lemma InShapeParts(dims: seq<int>, element: seq<int>, k: nat)
    requires |element| == |dims| && k <= |dims|
    requires InShape(element[..k], dims[..k]) && InShape(element[k..], dims[k..])
    ensures InShape(element, dims)
  {
    forall i | 0 <= i < |dims|
      ensures 0 <= element[i] < dims[i]
    {
      if i < k {
        assert element[..k][i] == element[i] && dims[..k][i] == dims[i];
      } else {
        assert element[k..][i - k] == element[i] && dims[k..][i - k] == dims[i];
      }
    }
  }

  // ---- row-major layouts ----

  function RowMajor(rank: nat): (r: seq<int>)
    ensures IsPermutation(r, rank)
  {
    seq(rank, i requires 0 <= i < rank => rank - 1 - i)
  }

  predicate Descending(minorToMajor: seq<int>)
  {
    forall i, j :: 0 <= i < j < |minorToMajor| ==> minorToMajor[i] >= minorToMajor[j]
  }

  lemma {:induction false} DescendingFloor(m: seq<int>, rank: nat, i: nat)
    requires IsPermutation(m, rank) && Descending(m) && i < rank
    ensures m[i] >= rank - 1 - i
    decreases rank - i
  {
    if i + 1 < rank {
      DescendingFloor(m, rank, i + 1);
    }
  }

  lemma {:induction false} DescendingCeiling(m: seq<int>, rank: nat, i: nat)
    requires IsPermutation(m, rank) && Descending(m) && i < rank
    ensures m[i] <= rank - 1 - i
    decreases i
  {
    if i > 0 {
      DescendingCeiling(m, rank, i - 1);
    }
  }

  /** The only permutation IsMonotonicWithDim0Major admits is row-major order. */
  lemma DescendingIsRowMajor(m: seq<int>, rank: nat)
    requires IsPermutation(m, rank)
    ensures Descending(m) <==> m == RowMajor(rank)
  {
    if Descending(m) {
      forall i | 0 <= i < rank
        ensures m[i] == RowMajor(rank)[i]
      {
        DescendingFloor(m, rank, i);
        DescendingCeiling(m, rank, i);
      }
    }
  }

  lemma RowMajorPhysical(dims: seq<int>, element: seq<int>)
    requires |dims| == |element|
    ensures Physical(dims, RowMajor(|dims|), element) == Axes(dims, element)
  {
    forall i | 0 <= i < |dims|
      ensures Physical(dims, RowMajor(|dims|), element)[i] == Axes(dims, element)[i]
    {
      AxesAt(dims, element, i);
    }
  }

  // ---- the check ----

  /** XLA keeps the layout of a shape a permutation of its dimensions. */
  predicate WellFormed(shape: Shape)
  {
    shape.device.HasLayout? ==> IsPermutation(shape.device.layout.minorToMajor, |shape.dims|)
  }

  predicate SameButMemorySpace(a: Layout, b: Layout)
  {
    && a.tiles == b.tiles
    && a.elementSizeInBits == b.elementSizeInBits
    && a.tailPaddingAlignment == b.tailPaddingAlignment
  }

  /** Some leading folded dimension other than the last one regroups elements. */
  predicate Regroups(dims: seq<int>, k: nat)
    requires 2 <= k <= |dims|
  {
    exists i :: 0 <= i < k - 1 && dims[i] != 1
  }

  /** Tiles that leave the regrouped elements of k leading dimensions in place. */
  predicate TilesPermitFold(dims: seq<int>, k: nat, tiles: seq<seq<int>>)
    requires 2 <= k <= |dims| && tiles != []
  {
    && AllPositive(tiles)
    && Nested(tiles[1..], |tiles[0]|)
    && (|tiles[0]| <= |dims| - k || (|tiles[0]| == |dims| - k + 1 && dims[k - 1] % tiles[0][0] == 0))
  }

  /** The last test refuses: whole tiles do not fit a group of rows. */
  predicate PadsRowGroups(dims: seq<int>, k: nat, tiles: seq<seq<int>>)
    requires 2 <= k <= |dims|
  {
    && tiles != []
    && AllPositive(tiles)
    && Nested(tiles[1..], |tiles[0]|)
    && |tiles[0]| == |dims| - k + 1
    && dims[k - 1] % tiles[0][0] != 0
  }

  predicate LayoutsComparable(shape: Shape, folded: seq<int>, foldedLayout: Layout)
  {
    && RecognizedFold(shape.dims, folded)
    && shape.device.HasLayout?
    && |foldedLayout.minorToMajor| == |folded|
    && Descending(shape.device.layout.minorToMajor)
    && Descending(foldedLayout.minorToMajor)
    && SameButMemorySpace(foldedLayout, shape.device.layout)
  }

  predicate Accepts(shape: Shape, folded: seq<int>, foldedLayout: Layout)
  {
    && LayoutsComparable(shape, folded, foldedLayout)
    && var k := NumFolded(shape.dims, folded);
       var tiles := foldedLayout.tiles;
       (!Regroups(shape.dims, k) || tiles == [] || TilesPermitFold(shape.dims, k, tiles))
  }

  /** Bit offset of an element; a layout without its own element size uses the type's. */
  function DeviceBit(dims: seq<int>, layout: Layout, typeBits: int, element: seq<int>): (r: int)
    requires IsPermutation(layout.minorToMajor, |dims|) && |element| == |dims|
  {
    var bits := if layout.elementSizeInBits != 0 then layout.elementSizeInBits else typeBits;
    DeviceOffset(dims, layout.minorToMajor, layout.tiles, element) * bits
  }

  /** Every element of the buffer is where the folded buffer keeps it. */
  ghost predicate SameDeviceBits(shape: Shape, folded: seq<int>, foldedLayout: Layout)
  {
    && Folds(shape.dims, folded)
    && shape.device.HasLayout?
    && IsPermutation(shape.device.layout.minorToMajor, |shape.dims|)
    && IsPermutation(foldedLayout.minorToMajor, |folded|)
    && forall element: seq<int>, typeBits: int :: InShape(element, shape.dims) ==>
         DeviceBit(shape.dims, shape.device.layout, typeBits, element)
         == DeviceBit(folded, foldedLayout, typeBits, FoldElement(shape.dims, element, NumFolded(shape.dims, folded)))
  }

  method CheckFoldedDeviceLayout(shape: Shape, folded: seq<int>, foldedLayout: Layout) returns (v: Verdict)
    requires WellFormed(shape)
    requires IsPermutation(foldedLayout.minorToMajor, |foldedLayout.minorToMajor|)
    ensures v.Accepted? ==> SameDeviceBits(shape, folded, foldedLayout)
    ensures v.Accepted? <==> Accepts(shape, folded, foldedLayout)
    ensures v == Refused(RowGroupsPadded) <==>
            && LayoutsComparable(shape, folded, foldedLayout)
            && Regroups(shape.dims, NumFolded(shape.dims, folded))
            && PadsRowGroups(shape.dims, NumFolded(shape.dims, folded), foldedLayout.tiles)
  {
    var dims := shape.dims;
    var numFolded := NumFoldedLeadingDims(dims, folded);
    if numFolded == 0 {
      return Refused(NotAFold);
    }
    if shape.device.NoLayout? {
      return Refused(NoDeviceLayout);
    }
    if |foldedLayout.minorToMajor| != |folded| {
      return Refused(LayoutRank);
    }
    var layout := shape.device.layout;
    if !Descending(layout.minorToMajor) || !Descending(foldedLayout.minorToMajor) {
      return Refused(NotRowMajor);
    }
    if !SameButMemorySpace(foldedLayout, layout) {
      return Refused(LayoutsDiffer);
    }
    var tiles := layout.tiles;
    v := CheckTiles(dims, numFolded, tiles);
    if v.Accepted? {
      AcceptedFoldsKeepOffsets(shape, folded, foldedLayout);
    }
  }

  /** The tile tests of CheckFoldedDeviceLayout. */
  method CheckTiles(dims: seq<int>, numFolded: nat, tiles: seq<seq<int>>) returns (v: Verdict)
    requires 2 <= numFolded <= |dims|
    requires forall i :: 0 <= i < numFolded ==> dims[i] >= 0
    ensures v.Accepted? <==> !Regroups(dims, numFolded) || tiles == [] || TilesPermitFold(dims, numFolded, tiles)
    ensures v == Refused(RowGroupsPadded) <==> Regroups(dims, numFolded) && PadsRowGroups(dims, numFolded, tiles)
    ensures v.Accepted? || v.reason in {TileWithoutSize, TilesInterleave, TileSpansFoldedDims, RowGroupsPadded}
  {
    var numGroups := 1;
    for i := 0 to numFolded - 1
      invariant numGroups == Product(dims[..i])
    {
      ExtendProduct(dims, i);
      numGroups := numGroups * dims[i];
    }
    GroupsCountRegrouping(dims, numFolded);
    if numGroups == 1 || tiles == [] {
      return Accepted;
    }
    for t := 0 to |tiles|
      invariant forall k :: 0 <= k < t ==> Positive(tiles[k])
    {
      for d := 0 to |tiles[t]|
        invariant forall i :: 0 <= i < d ==> tiles[t][i] > 0
      {
        if tiles[t][d] <= 0 {
          assert !Positive(tiles[t]);
          return Refused(TileWithoutSize);
        }
      }
    }
    var numTileDims := |tiles[0]|;
    for t := 1 to |tiles|
      invariant numTileDims >= 0
      invariant Nested(tiles[1..], |tiles[0]|) <==> Nested(tiles[t..], numTileDims)
    {
      assert tiles[t..][0] == tiles[t] && tiles[t..][1..] == tiles[t + 1..];
      if |tiles[t]| > numTileDims {
        return Refused(TilesInterleave);
      }
      numTileDims := numTileDims + |tiles[t]|;
    }
    var numKept := |dims| - numFolded;
    var tile := tiles[0];
    if |tile| <= numKept {
      return Accepted;
    }
    if |tile| > numKept + 1 {
      return Refused(TileSpansFoldedDims);
    }
    var rows := dims[numFolded - 1];
    if rows % tile[0] != 0 {
      return Refused(RowGroupsPadded);
    }
    return Accepted;
  }

  lemma {:induction false} ProductOfOnes(s: seq<int>)
    requires forall i :: 0 <= i < |s| ==> s[i] >= 0
    ensures Product(s) == 1 <==> forall i :: 0 <= i < |s| ==> s[i] == 1
  {
    if s != [] {
      var rest := s[1..];
      assert forall i :: 0 <= i < |rest| ==> rest[i] == s[i + 1];
      ProductOfOnes(rest);
      ProductNonNegative(rest);
      if s[0] * Product(rest) == 1 {
        assert forall i :: 1 <= i < |s| ==> s[i] == rest[i - 1];
      }
    }
  }

  lemma GroupsCountRegrouping(dims: seq<int>, k: nat)
    requires 2 <= k <= |dims|
    requires forall i :: 0 <= i < k ==> dims[i] >= 0
    ensures Product(dims[..k - 1]) == 1 <==> !Regroups(dims, k)
  {
    var groups := dims[..k - 1];
    ProductOfOnes(groups);
    assert forall i :: 0 <= i < k - 1 ==> groups[i] == dims[i];
  }

  // ---- accepted folds keep every element in place ----

  lemma {:induction false} AcceptedFoldsKeepOffsets(shape: Shape, folded: seq<int>, foldedLayout: Layout)
    requires WellFormed(shape)
    requires IsPermutation(foldedLayout.minorToMajor, |foldedLayout.minorToMajor|)
    requires Accepts(shape, folded, foldedLayout)
    ensures SameDeviceBits(shape, folded, foldedLayout)
  {
    var dims := shape.dims;
    DescendingIsRowMajor(shape.device.layout.minorToMajor, |dims|);
    DescendingIsRowMajor(foldedLayout.minorToMajor, |folded|);
    forall element: seq<int> | InShape(element, dims)
      ensures DeviceOffset(dims, RowMajor(|dims|), foldedLayout.tiles, element)
           == DeviceOffset(folded, RowMajor(|folded|), foldedLayout.tiles,
                           FoldElement(dims, element, NumFolded(dims, folded)))
    {
      FoldKeepsOffset(dims, folded, foldedLayout.tiles, element);
    }
  }

  /** The axes of an element before and after folding differ in the leading ones only. */
  lemma FoldedAxes(dims: seq<int>, folded: seq<int>, element: seq<int>)
    requires Folds(dims, folded) && |element| == |dims|
    ensures var k := NumFolded(dims, folded);
            var lead := Axes(dims[..k], element[..k]);
            var kept := Axes(dims[k..], element[k..]);
            && Physical(dims, RowMajor(|dims|), element) == lead + kept
            && Physical(folded, RowMajor(|folded|), FoldElement(dims, element, k))
               == [Axis(folded[0], Linear(lead))] + kept
  {
    var k := NumFolded(dims, folded);
    var f := FoldElement(dims, element, k);
    RowMajorPhysical(dims, element);
    RowMajorPhysical(folded, f);
    AxesSplit(dims, element, k);
    AxesSplit(folded, f, 1);
    assert f[1..] == element[k..];
    assert folded[..1][..0] == [] && f[..1][..0] == [];
  }

  /** The offset of one element, over all ranks and all tile lists. */
  lemma {:induction false} FoldKeepsOffset(dims: seq<int>, folded: seq<int>, tiles: seq<seq<int>>, element: seq<int>)
    requires Folds(dims, folded) && InShape(element, dims)
    requires var k := NumFolded(dims, folded);
             !Regroups(dims, k) || tiles == [] || TilesPermitFold(dims, k, tiles)
    ensures DeviceOffset(dims, RowMajor(|dims|), tiles, element)
         == DeviceOffset(folded, RowMajor(|folded|), tiles, FoldElement(dims, element, NumFolded(dims, folded)))
  {
    var k := NumFolded(dims, folded);
    FoldedAxes(dims, folded, element);
    if !Regroups(dims, k) {
      FoldOfOnes(dims, element, k, tiles);
    } else {
      var lead := Axes(dims[..k], element[..k]);
      var kept := Axes(dims[k..], element[k..]);
      if tiles == [] {
        SameIndexUntiled(lead, Axis(folded[0], Linear(lead)), kept);
      } else if |tiles[0]| <= |kept| {
        TilesOnKeptAxes(lead, Axis(folded[0], Linear(lead)), kept, tiles);
      } else {
        LastAxis(dims, element, k);
        TilesOnRows(Axes(dims[..k - 1], element[..k - 1]), Axis(dims[k - 1], element[k - 1]), folded[0], kept, tiles);
      }
    }
  }

  lemma SameIndexUntiled(lead: seq<Axis>, joined: Axis, kept: seq<Axis>)
    requires joined.index == Linear(lead)
    ensures Linear(lead + kept) == Linear([joined] + kept)
  {
    LinearConcat(lead, kept);
    LinearConcat([joined], kept);
    LinearSingle(joined);
  }

  /** Leading dimensions of size 1 fold into the next one without a trace. */
  lemma FoldOfOnes(dims: seq<int>, element: seq<int>, k: nat, tiles: seq<seq<int>>)
    requires 2 <= k <= |dims| && InShape(element, dims) && !Regroups(dims, k)
    ensures var lead := Axes(dims[..k], element[..k]);
            var kept := Axes(dims[k..], element[k..]);
            Linear(Tiled(lead + kept, tiles)) == Linear(Tiled([Axis(Product(dims[..k]), Linear(lead))] + kept, tiles))
  {
    OnesLead(dims, element, k);
    var kept := Axes(dims[k..], element[k..]);
    var last := Axis(dims[k - 1], element[k - 1]);
    assert (Ones(k - 1) + [last]) + kept == Ones(k - 1) + ([last] + kept);
    OnesThroughTiles(k - 1, [last] + kept, tiles);
  }

  lemma LastAxis(dims: seq<int>, element: seq<int>, k: nat)
    requires 1 <= k <= |dims| == |element|
    ensures Axes(dims[..k], element[..k])
         == Axes(dims[..k - 1], element[..k - 1]) + [Axis(dims[k - 1], element[k - 1])]
  {
    assert dims[..k][..k - 1] == dims[..k - 1] && element[..k][..k - 1] == element[..k - 1];
  }

  lemma OnesLead(dims: seq<int>, element: seq<int>, k: nat)
    requires 2 <= k <= |dims| && InShape(element, dims) && !Regroups(dims, k)
    ensures Axes(dims[..k], element[..k]) == Ones(k - 1) + [Axis(dims[k - 1], element[k - 1])]
    ensures Linear(Axes(dims[..k], element[..k])) == element[k - 1]
    ensures Product(dims[..k]) == dims[k - 1]
  {
    var last := Axis(dims[k - 1], element[k - 1]);
    var lead := Axes(dims[..k], element[..k]);
    forall i | 0 <= i < k
      ensures lead[i] == (Ones(k - 1) + [last])[i]
    {
      AxesAt(dims[..k], element[..k], i);
    }
    assert lead == Ones(k - 1) + [last];
    OnesAreInvisible(k - 1, [last]);
    assert Linear([last]) == last.index;
    GroupsCountRegrouping(dims, k);
    ExtendProduct(dims, k - 1);
  }

  lemma {:induction false} NestedIsMonotone(tiles: seq<seq<int>>, a: nat, b: nat)
    requires Nested(tiles, a) && a <= b
    ensures Nested(tiles, b)
    decreases |tiles|
  {
    if tiles != [] {
      NestedIsMonotone(tiles[1..], a + |tiles[0]|, b + |tiles[0]|);
    }
  }

  /** The first tile covers kept dimensions only: the folded ones stay untiled. */
  lemma {:induction false} TilesOnKeptAxes(lead: seq<Axis>, joined: Axis, kept: seq<Axis>, tiles: seq<seq<int>>)
    requires tiles != [] && AllPositive(tiles) && Nested(tiles[1..], |tiles[0]|)
    requires |tiles[0]| <= |kept|
    requires Linear(lead) == joined.index
    ensures Linear(Tiled(lead + kept, tiles)) == Linear(Tiled([joined] + kept, tiles))
  {
    LinearSingle(joined);
    var inner := TileMinor(kept, tiles[0]);
    TileMinorSplit(lead, kept, tiles[0]);
    TileMinorSplit([joined], kept, tiles[0]);
    TileMinorLength(kept, tiles[0]);
    SameIndexOutside(lead, [joined], inner, tiles[1..], |tiles[0]|);
  }

  lemma {:induction false} SameIndexOutside(p: seq<Axis>, q: seq<Axis>, inner: seq<Axis>,
                                            tiles: seq<seq<int>>, available: nat)
    requires AllPositive(tiles) && Nested(tiles, available) && available <= |inner|
    requires Linear(p) == Linear(q)
    ensures Linear(Tiled(p + inner, tiles)) == Linear(Tiled(q + inner, tiles))
  {
    NestedIsMonotone(tiles, available, |inner|);
    NestedTilesStayInside(p, inner, tiles);
    NestedTilesStayInside(q, inner, tiles);
    LinearConcat(p, Tiled(inner, tiles));
    LinearConcat(q, Tiled(inner, tiles));
  }

  /** The axes inside the row tiles: the other tile indices, then the tile itself. */
  function InsideRowTile(row: int, kept: seq<Axis>, tile: seq<int>): (r: seq<Axis>)
    requires Positive(tile) && |tile| == |kept| + 1
    ensures |r| == |kept| + |tile|
  {
    Grid(kept, tile[1..]) + ([Axis(tile[0], row % tile[0])] + Inner(kept, tile[1..]))
  }

  /** One tile whose first dimension covers `rows` and whose others cover `kept`. */
  lemma TileRowsAndKept(outer: seq<Axis>, rows: Axis, kept: seq<Axis>, tile: seq<int>)
    requires Positive(tile) && |tile| == |kept| + 1
    ensures TileMinor(outer + ([rows] + kept), tile)
         == (outer + [TileIndex(rows, tile[0])]) + InsideRowTile(rows.index, kept, tile)
  {
    TileMinorSplit(outer, [rows] + kept, tile);
    TileRowsFirst(rows, kept, tile);
    Assoc(outer, [TileIndex(rows, tile[0])], InsideRowTile(rows.index, kept, tile));
  }

  lemma TileRowsFirst(rows: Axis, kept: seq<Axis>, tile: seq<int>)
    requires Positive(tile) && |tile| == |kept| + 1
    ensures TileAll([rows] + kept, tile) == [TileIndex(rows, tile[0])] + InsideRowTile(rows.index, kept, tile)
  {
    var minor := [rows] + kept;
    PositiveTilesKeepAxes(minor, tile);
    assert minor[1..] == kept;
  }

  lemma {:induction false} TileRowsThenRest(outer: seq<Axis>, rows: Axis, kept: seq<Axis>, tiles: seq<seq<int>>)
    requires tiles != [] && Positive(tiles[0]) && |tiles[0]| == |kept| + 1
    ensures Tiled((outer + [rows]) + kept, tiles)
         == Tiled((outer + [TileIndex(rows, tiles[0][0])]) + InsideRowTile(rows.index, kept, tiles[0]), tiles[1..])
  {
    Assoc(outer, [rows], kept);
    TileRowsAndKept(outer, rows, kept, tiles[0]);
  }

  /** The first tile also covers the last folded dimension, in whole tiles. */
  lemma {:induction false} TilesOnRows(groups: seq<Axis>, rows: Axis, size: int, kept: seq<Axis>, tiles: seq<seq<int>>)
    requires tiles != [] && AllPositive(tiles) && Nested(tiles[1..], |tiles[0]|)
    requires |tiles[0]| == |kept| + 1 && rows.size % tiles[0][0] == 0
    requires 0 <= rows.index < rows.size
    ensures Linear(Tiled((groups + [rows]) + kept, tiles))
         == Linear(Tiled([Axis(size, Linear(groups + [rows]))] + kept, tiles))
  {
    var t := tiles[0][0];
    var joined := Axis(size, Linear(groups + [rows]));
    TileRowsThenRest(groups, rows, kept, tiles);
    TileRowsThenRest([], joined, kept, tiles);
    SameRowTile(groups, rows, joined, t);
    SameIndexOutside(groups + [TileIndex(rows, t)], [] + [TileIndex(joined, t)],
                     InsideRowTile(rows.index, kept, tiles[0]), tiles[1..], |tiles[0]|);
    assert [] + [joined] == [joined];
  }

  lemma {:induction false} SameRowTile(groups: seq<Axis>, rows: Axis, joined: Axis, t: int)
    requires t > 0 && rows.size % t == 0 && 0 <= rows.index < rows.size
    requires joined.index == Linear(groups + [rows])
    ensures Linear(groups + [TileIndex(rows, t)]) == Linear([] + [TileIndex(joined, t)])
    ensures rows.index % t == joined.index % t
  {
    WholeTiles(Linear(groups), rows.size, rows.index, t);
    LinearAppend(groups, rows);
    LinearAppend(groups, TileIndex(rows, t));
    LinearAppend([], TileIndex(joined, t));
  }

  lemma {:induction false} WholeTiles(g: int, rows: int, r: int, t: int)
    requires t > 0 && rows % t == 0 && 0 <= r < rows
    ensures CeilDiv(rows, t) * t == rows
    ensures (g * rows + r) / t == g * CeilDiv(rows, t) + r / t
    ensures (g * rows + r) % t == r % t
  {
    var q := rows / t;
    assert rows == q * t;
    DivModUnique(q, t, t - 1);
    assert CeilDiv(rows, t) == q;
    calc {
      g * rows + r;
      { MulAssoc(g, q, t); }
      (g * q) * t + (r / t) * t + r % t;
      (g * q + r / t) * t + r % t;
    }
    DivModUnique(g * q + r / t, t, r % t);
  }

  // ---- the refusal for padded row groups is exact ----

  /**
   When the last test refuses, some element really is at another offset: the
   first row of the second group starts a new tile in the buffer but not in the
   folded buffer.
   */
  lemma {:induction false} PaddedRowGroupsMoveAnElement(dims: seq<int>, folded: seq<int>, tiles: seq<seq<int>>)
    returns (element: seq<int>)
    requires Folds(dims, folded) && Positive(dims)
    requires Regroups(dims, NumFolded(dims, folded))
    requires PadsRowGroups(dims, NumFolded(dims, folded), tiles)
    ensures InShape(element, dims)
    ensures DeviceOffset(dims, RowMajor(|dims|), tiles, element)
         > DeviceOffset(folded, RowMajor(|folded|), tiles, FoldElement(dims, element, NumFolded(dims, folded)))
  {
    element := SecondGroup(dims, NumFolded(dims, folded));
    SecondGroupMoves(dims, folded, tiles, element);
  }

  lemma {:induction false} SecondGroupMoves(dims: seq<int>, folded: seq<int>, tiles: seq<seq<int>>, element: seq<int>)
    requires Folds(dims, folded) && InShape(element, dims)
    requires PadsRowGroups(dims, NumFolded(dims, folded), tiles)
    requires var k := NumFolded(dims, folded);
             element[k - 1] == 0 && Linear(Axes(dims[..k - 1], element[..k - 1])) == 1
    ensures DeviceOffset(dims, RowMajor(|dims|), tiles, element)
          > DeviceOffset(folded, RowMajor(|folded|), tiles, FoldElement(dims, element, NumFolded(dims, folded)))
  {
    var k := NumFolded(dims, folded);
    FoldedAxes(dims, folded, element);
    LastAxis(dims, element, k);
    AxesInside(dims[k..], element[k..]);
    PaddedRowsFallBehind(Axes(dims[..k - 1], element[..k - 1]), Axis(dims[k - 1], element[k - 1]), folded[0],
                         Axes(dims[k..], element[k..]), tiles);
  }

  lemma SecondGroup(dims: seq<int>, k: nat) returns (element: seq<int>)
    requires 2 <= k <= |dims| && Positive(dims) && Regroups(dims, k)
    ensures InShape(element, dims) && element[k - 1] == 0
    ensures Linear(Axes(dims[..k - 1], element[..k - 1])) == 1
  {
    assert Product(dims[..k - 1]) > 1 by {
      ProductPositive(dims[..k - 1]);
      GroupsCountRegrouping(dims, k);
    }
    var digits := SecondDigits(dims[..k - 1]);
    element := ZerosAfter(dims, digits);
  }

  lemma ZerosAfter(dims: seq<int>, digits: seq<int>) returns (element: seq<int>)
    requires |digits| < |dims| && Positive(dims) && InShape(digits, dims[..|digits|])
    ensures InShape(element, dims) && element[..|digits|] == digits && element[|digits|] == 0
  {
    var k := |digits|;
    var zeros := seq(|dims| - k, _ => 0);
    element := digits + zeros;
    assert element[..k] == digits && element[k..] == zeros;
    ZerosInShape(zeros, dims[k..]);
    InShapeParts(dims, element, k);
  }

  lemma SecondDigits(dims: seq<int>) returns (digits: seq<int>)
    requires Positive(dims) && Product(dims) > 1
    ensures InShape(digits, dims) && Linear(Axes(dims, digits)) == 1
  {
    DigitsAreInverse(dims, 1);
    digits := Digits(dims, 1);
  }

  lemma ZerosInShape(zeros: seq<int>, dims: seq<int>)
    requires |zeros| == |dims| && Positive(dims) && forall i :: 0 <= i < |zeros| ==> zeros[i] == 0
    ensures InShape(zeros, dims)
  {
  }

  lemma {:induction false} PaddedRowsFallBehind(groups: seq<Axis>, rows: Axis, size: int, kept: seq<Axis>,
                                                tiles: seq<seq<int>>)
    requires tiles != [] && AllPositive(tiles) && Nested(tiles[1..], |tiles[0]|)
    requires |tiles[0]| == |kept| + 1 && rows.size > 0 && rows.size % tiles[0][0] != 0
    requires Linear(groups) == 1 && rows.index == 0
    requires Inside(kept)
    ensures Linear(Tiled((groups + [rows]) + kept, tiles))
          > Linear(Tiled([Axis(size, Linear(groups + [rows]))] + kept, tiles))
  {
    var t := tiles[0][0];
    var joined := Axis(size, Linear(groups + [rows]));
    TileRowsThenRest(groups, rows, kept, tiles);
    TileRowsThenRest([], joined, kept, tiles);
    assert [] + [joined] == [joined];
    LaterRowTile(groups, rows, joined, t);
    InsideRowTileBounded(rows.index, joined.index, kept, tiles[0]);
    LaterTileWins(groups + [TileIndex(rows, t)], [] + [TileIndex(joined, t)],
                  InsideRowTile(rows.index, kept, tiles[0]), InsideRowTile(joined.index, kept, tiles[0]),
                  tiles[1..], |tiles[0]|);
  }

  /** An element in a later tile is at a larger offset, wherever inside the tiles. */
  lemma LaterTileWins(p: seq<Axis>, q: seq<Axis>, a: seq<Axis>, b: seq<Axis>, tiles: seq<seq<int>>, available: nat)
    requires AllPositive(tiles) && Nested(tiles, available) && available <= |a|
    requires SameSizes(a, b) && Inside(a) && Inside(b)
    requires Linear(p) > Linear(q)
    ensures Linear(Tiled(p + a, tiles)) > Linear(Tiled(q + b, tiles))
  {
    NestedIsMonotone(tiles, available, |a|);
    NestedTilesStayInside(p, a, tiles);
    NestedTilesStayInside(q, b, tiles);
    NestedTilesStayBounded(a, tiles);
    NestedTilesStayBounded(b, tiles);
    TilingKeepsSizesEqual(a, b, tiles);
    var a', b' := Tiled(a, tiles), Tiled(b, tiles);
    SizesGiveExtent(a', b');
    LinearBounds(a');
    LinearBounds(b');
    LinearConcat(p, a');
    LinearConcat(q, b');
    MulMonotone(Linear(q) + 1, Linear(p), Extent(a'));
    assert (Linear(q) + 1) * Extent(a') == Linear(q) * Extent(a') + Extent(a');
  }

  lemma LaterRowTile(groups: seq<Axis>, rows: Axis, joined: Axis, t: int)
    requires t > 0 && rows.size > 0 && rows.size % t != 0 && rows.index == 0
    requires Linear(groups) == 1 && joined.index == Linear(groups + [rows])
    ensures Linear(groups + [TileIndex(rows, t)]) > Linear([] + [TileIndex(joined, t)])
  {
    LinearAppend(groups, rows);
    LinearAppend(groups, TileIndex(rows, t));
    LinearAppend([], TileIndex(joined, t));
    PartialTile(rows.size, t);
  }

  lemma InsideRowTileBounded(row: int, row': int, kept: seq<Axis>, tile: seq<int>)
    requires Positive(tile) && |tile| == |kept| + 1 && Inside(kept)
    ensures Inside(InsideRowTile(row, kept, tile)) && Inside(InsideRowTile(row', kept, tile))
    ensures SameSizes(InsideRowTile(row, kept, tile), InsideRowTile(row', kept, tile))
  {
    GridAndInnerBounded(kept, tile[1..]);
  }

  lemma {:induction false} PartialTile(rows: int, t: int)
    requires t > 0 && rows % t != 0
    ensures CeilDiv(rows, t) == rows / t + 1
  {
    assert rows + t - 1 == (rows / t + 1) * t + (rows % t - 1);
    DivModUnique(rows / t + 1, t, rows % t - 1);
  }

  /** Tiles the check does not turn away unseen: sized, nested, and within the folded rank. */
  predicate PlainTiles(tiles: seq<seq<int>>, rank: nat)
  {
    tiles == [] || (AllPositive(tiles) && Nested(tiles[1..], |tiles[0]|) && |tiles[0]| <= rank)
  }

  /** For comparable layouts with plain tiles, acceptance and equal offsets are the same thing. */
  lemma CheckIsExact(shape: Shape, folded: seq<int>, foldedLayout: Layout)
    requires WellFormed(shape) && Positive(shape.dims)
    requires IsPermutation(foldedLayout.minorToMajor, |foldedLayout.minorToMajor|)
    requires LayoutsComparable(shape, folded, foldedLayout) && PlainTiles(foldedLayout.tiles, |folded|)
    ensures Accepts(shape, folded, foldedLayout) <==> SameDeviceBits(shape, folded, foldedLayout)
  {
    if Accepts(shape, folded, foldedLayout) {
      AcceptedFoldsKeepOffsets(shape, folded, foldedLayout);
    } else {
      RefusedFoldMoves(shape, folded, foldedLayout);
    }
  }

  lemma RefusedFoldMoves(shape: Shape, folded: seq<int>, foldedLayout: Layout)
    requires WellFormed(shape) && Positive(shape.dims)
    requires IsPermutation(foldedLayout.minorToMajor, |foldedLayout.minorToMajor|)
    requires LayoutsComparable(shape, folded, foldedLayout) && PlainTiles(foldedLayout.tiles, |folded|)
    requires !Accepts(shape, folded, foldedLayout)
    ensures !SameDeviceBits(shape, folded, foldedLayout)
  {
    var dims, tiles := shape.dims, foldedLayout.tiles;
    var k := NumFolded(dims, folded);
    assert PadsRowGroups(dims, k, tiles);
    DescendingIsRowMajor(shape.device.layout.minorToMajor, |dims|);
    DescendingIsRowMajor(foldedLayout.minorToMajor, |folded|);
    var element := PaddedRowGroupsMoveAnElement(dims, folded, tiles);
    var bits := if foldedLayout.elementSizeInBits != 0 then foldedLayout.elementSizeInBits else 1;
    ScaledApart(DeviceOffset(dims, RowMajor(|dims|), tiles, element),
                DeviceOffset(folded, RowMajor(|folded|), tiles, FoldElement(dims, element, k)), bits);
    assert DeviceBit(dims, shape.device.layout, 1, element)
        != DeviceBit(folded, foldedLayout, 1, FoldElement(dims, element, k));
  }

  lemma ScaledApart(a: int, b: int, bits: int)
    requires a != b && bits != 0
    ensures a * bits != b * bits
  {
  }

  /**
   The check refuses more than it must: tiles of 1x1x1 move nothing, yet they
   span two folded dimensions.
   */
  lemma SpanningTileRefusedNeedlessly(element: seq<int>)
    requires InShape(element, [2, 2, 2])
    ensures Regroups([2, 2, 2], 2) && !TilesPermitFold([2, 2, 2], 2, [[1, 1, 1]])
    ensures DeviceOffset([2, 2, 2], RowMajor(3), [[1, 1, 1]], element)
         == DeviceOffset([4, 2], RowMajor(2), [[1, 1, 1]], FoldElement([2, 2, 2], element, 2))
  {
    assert [2, 2, 2][0] != 1;
    var lead := Axes([2, 2, 2][..2], element[..2]);
    var kept := Axes([2, 2, 2][2..], element[2..]);
    var joined := Axis(4, Linear(lead));
    assert Product([2, 2]) == 4 by {
      assert [2, 2][1..] == [2] && [2][1..] == [];
    }
    assert [2, 2, 2][..2] == [2, 2];
    FoldedAxes([2, 2, 2], [4, 2], element);
    UnitTilesMoveNothing(lead + kept, [[1, 1, 1]]);
    UnitTilesMoveNothing([joined] + kept, [[1, 1, 1]]);
    LinearConcat(lead, kept);
    LinearConcat([joined], kept);
    LinearSingle(joined);
  }

  lemma UnitTilesMoveNothing(axes: seq<Axis>, tiles: seq<seq<int>>)
    requires |axes| <= 3 && tiles == [[1, 1, 1]]
    ensures Linear(Tiled(axes, tiles)) == Linear(axes)
  {
    var padded := Pad(axes, 3);
    assert Linear(padded) == Linear(axes) by {
      assert padded == Ones(3 - |axes|) + axes;
      OnesAreInvisible(3 - |axes|, axes);
    }
    UnitTile(padded, tiles[0]);
    assert padded[..0] == [] && padded[0..] == padded;
    assert TileMinor(axes, tiles[0]) == padded + Ones(3);
    OnesAtTheEnd(padded);
  }

  lemma OnesAtTheEnd(axes: seq<Axis>)
    ensures Linear(axes + Ones(3)) == Linear(axes)
  {
    LinearAppend(axes, Axis(1, 0));
    LinearAppend(axes + [Axis(1, 0)], Axis(1, 0));
    LinearAppend(axes + [Axis(1, 0)] + [Axis(1, 0)], Axis(1, 0));
    assert axes + Ones(3) == axes + [Axis(1, 0)] + [Axis(1, 0)] + [Axis(1, 0)];
  }

  lemma UnitTile(axes: seq<Axis>, tile: seq<int>)
    requires |axes| == 3 && tile == [1, 1, 1]
    ensures TileAll(axes, tile) == axes + Ones(3)
  {
    PositiveTilesKeepAxes(axes, tile);
    UnitGrid(axes, tile);
  }

  lemma {:induction false} UnitGrid(axes: seq<Axis>, tile: seq<int>)
    requires |axes| == |tile| && forall i :: 0 <= i < |tile| ==> tile[i] == 1
    ensures Grid(axes, tile) == axes && Inner(axes, tile) == Ones(|tile|)
    decreases |tile|
  {
    if tile != [] {
      UnitGrid(axes[1..], tile[1..]);
      assert Ones(|tile|) == [Axis(1, 0)] + Ones(|tile| - 1);
    }
  }
}
