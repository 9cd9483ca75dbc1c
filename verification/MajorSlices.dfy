/**
 tpu_sync/core/raw_transfer_core.h: how many device bytes one index of the major
 dimension occupies, and that those bytes hold exactly that index.
 */
module MajorSlices {
  import opened Arith
  import opened TiledLayout

  datatype Layout = NoLayout | Layout(minorToMajor: seq<int>, tiles: seq<seq<int>>)

  datatype SliceSize = Bytes(value: int) | UnsupportedTiling | NotWholeSlices

  // ---- products over selected dimensions ----

  predicate Selects(indices: seq<int>, rank: nat)
  {
    forall i :: 0 <= i < |indices| ==> 0 <= indices[i] < rank
  }

  predicate Distinct(indices: seq<int>)
  {
    forall i, j :: 0 <= i < j < |indices| ==> indices[i] != indices[j]
  }

  function ProductOver(dims: seq<int>, indices: seq<int>): (p: int)
    requires Selects(indices, |dims|)
  {
    if indices == [] then 1 else dims[indices[0]] * ProductOver(dims, indices[1..])
  }

  lemma {:induction false} ProductOverConcat(dims: seq<int>, a: seq<int>, b: seq<int>)
    requires Selects(a, |dims|) && Selects(b, |dims|)
    ensures Selects(a + b, |dims|)
    ensures ProductOver(dims, a + b) == ProductOver(dims, a) * ProductOver(dims, b)
  {
    if a == [] {
      assert a + b == b;
    } else {
      assert (a + b)[1..] == a[1..] + b;
      ProductOverConcat(dims, a[1..], b);
      MulAssoc(dims[a[0]], ProductOver(dims, a[1..]), ProductOver(dims, b));
    }
  }

  function Without(s: seq<int>, j: nat): (r: seq<int>)
    requires j < |s|
  {
    s[..j] + s[j + 1..]
  }

  lemma {:induction false} RemoveFactor(dims: seq<int>, b: seq<int>, j: nat)
    requires Selects(b, |dims|) && j < |b|
    ensures Selects(Without(b, j), |dims|)
    ensures ProductOver(dims, b) == dims[b[j]] * ProductOver(dims, Without(b, j))
    decreases |b|
  {
    if j == 0 {
      assert Without(b, j) == b[1..];
    } else {
      RemoveFactor(dims, b[1..], j - 1);
      assert Without(b, j) == [b[0]] + Without(b[1..], j - 1);
      assert Without(b, j)[1..] == Without(b[1..], j - 1);
      SwapFactors(dims[b[0]], dims[b[j]], ProductOver(dims, Without(b[1..], j - 1)));
    }
  }

  lemma SwapFactors(x: int, y: int, z: int)
    ensures x * (y * z) == y * (x * z)
  {
  }

  lemma {:induction false} ProductOverSameSet(dims: seq<int>, a: seq<int>, b: seq<int>)
    requires Selects(a, |dims|) && Selects(b, |dims|) && Distinct(a) && Distinct(b)
    requires forall x :: x in a <==> x in b
    ensures ProductOver(dims, a) == ProductOver(dims, b)
    decreases |a|
  {
    if a == [] {
      assert forall i :: 0 <= i < |b| ==> b[i] !in a;
    } else {
      assert a[0] in b;
      var j :| 0 <= j < |b| && b[j] == a[0];
      RemoveFactor(dims, b, j);
      var b' := Without(b, j);
      SameSetWithout(a, b, j);
      ProductOverSameSet(dims, a[1..], b');
    }
  }

  lemma SameSetWithout(a: seq<int>, b: seq<int>, j: nat)
    requires a != [] && j < |b| && b[j] == a[0] && Distinct(a) && Distinct(b)
    requires forall x :: x in a <==> x in b
    ensures Distinct(Without(b, j))
    ensures forall x :: x in a[1..] <==> x in Without(b, j)
  {
    var b' := Without(b, j);
    forall x
      ensures x in a[1..] <==> x in b'
    {
      if x in a[1..] {
        assert x in a && x != a[0];
        var i :| 0 <= i < |b| && b[i] == x;
        assert x == if i < j then b'[i] else b'[i - 1];
      }
      if x in b' {
        assert x in b && x != b[j];
        assert x in a;
      }
    }
  }

  // ---- permutations ----

  function Range(n: nat): (r: set<int>)
    ensures |r| == n && forall x :: x in r <==> 0 <= x < n
  {
    if n == 0 then {} else Range(n - 1) + {n - 1}
  }

  function Image(m: seq<int>): (r: set<int>)
    ensures forall x :: x in r <==> x in m
  {
    if m == [] then {} else Image(m[..|m| - 1]) + {m[|m| - 1]}
  }

  lemma {:induction false} ImageSize(m: seq<int>)
    requires Distinct(m)
    ensures |Image(m)| == |m|
  {
    if m != [] {
      var init := m[..|m| - 1];
      ImageSize(init);
      assert m[|m| - 1] !in init;
    }
  }

  lemma CardinalityMonotone(a: set<int>, b: set<int>)
    requires a <= b
    ensures |a| <= |b|
  {
    assert b == a + (b - a);
  }

  /** A permutation of 0..rank reaches every dimension. */
  lemma PermutationOnto(m: seq<int>, rank: nat, x: int)
    requires IsPermutation(m, rank) && 0 <= x < rank
    ensures x in m
  {
    ImageSize(m);
    if x !in Image(m) {
      MissingOne(Image(m), rank, x);
    }
  }

  lemma MissingOne(s: set<int>, rank: nat, x: int)
    requires (forall y :: y in s ==> 0 <= y < rank) && 0 <= x < rank && x !in s
    ensures |s| < rank
  {
    CardinalityMonotone(s, Range(rank) - {x});
  }

  // ---- the cells below one major index ----

  function Zeros(n: nat): (r: seq<int>)
    ensures |r| == n
  {
    seq(n, _ => 0)
  }

  predicate MajorOutermost(minorToMajor: seq<int>, rank: nat)
  {
    rank > 0 && IsPermutation(minorToMajor, rank) && minorToMajor[rank - 1] == 0
  }

  /** The axes of an element inside its major slice. */
  function Below(dims: seq<int>, minorToMajor: seq<int>, element: seq<int>): (r: seq<Axis>)
    requires MajorOutermost(minorToMajor, |dims|) && |element| == |dims|
    ensures |r| == |dims| - 1
  {
    Physical(dims, minorToMajor, element)[1..]
  }

  /** Cells of one major slice, padding included. */
  function SliceCells(dims: seq<int>, minorToMajor: seq<int>, tiles: seq<seq<int>>): (r: int)
    requires MajorOutermost(minorToMajor, |dims|)
  {
    Extent(Tiled(Below(dims, minorToMajor, Zeros(|dims|)), tiles))
  }

  /** The tiles reach no further than the dimensions below the major one. */
  predicate TilesBelowMajor(tiles: seq<seq<int>>, rank: nat)
  {
    tiles == [] || (AllPositive(tiles) && |tiles[0]| < rank && Nested(tiles[1..], rank - 1 + |tiles[0]|))
  }

  /**
   The elements of major index i are exactly at the offsets of slice i, each at
   the same place inside the slice whatever i is.
   */
  predicate InSlice(i: int, cells: int, offset: int)
  {
    i * cells <= offset < (i + 1) * cells
  }

  lemma SliceRange(dims: seq<int>, m: seq<int>, tiles: seq<seq<int>>, element: seq<int>)
    requires MajorOutermost(m, |dims|) && InShape(element, dims)
    requires TilesBelowMajor(tiles, |dims|)
    ensures InSlice(element[0], SliceCells(dims, m, tiles), DeviceOffset(dims, m, tiles, element))
  {
    SliceHoldsMajorIndex(dims, m, tiles, element, 0);
  }

  lemma SliceHoldsMajorIndex(dims: seq<int>, m: seq<int>, tiles: seq<seq<int>>, element: seq<int>, other: int)
    requires MajorOutermost(m, |dims|) && InShape(element, dims)
    requires TilesBelowMajor(tiles, |dims|)
    ensures var cells := SliceCells(dims, m, tiles);
            var offset := DeviceOffset(dims, m, tiles, element);
            && element[0] * cells <= offset < (element[0] + 1) * cells
            && DeviceOffset(dims, m, tiles, element[0 := other]) == offset + (other - element[0]) * cells
  {
    OffsetBelowMajor(dims, m, tiles, element, element[0]);
    OffsetBelowMajor(dims, m, tiles, element, other);
    Shift(element[0], other, SliceCells(dims, m, tiles));
  }

  lemma Shift(i: int, j: int, cells: int)
    ensures (i + 1) * cells == i * cells + cells
    ensures (j - i) * cells == j * cells - i * cells
  {
  }

  lemma SplitMajor(dims: seq<int>, m: seq<int>, element: seq<int>, other: int)
    requires MajorOutermost(m, |dims|) && |element| == |dims|
    ensures Physical(dims, m, element[0 := other]) == [Axis(dims[0], other)] + Below(dims, m, element)
  {
  }

  lemma {:induction false} OffsetBelowMajor(dims: seq<int>, m: seq<int>, tiles: seq<seq<int>>, element: seq<int>,
                                            major: int)
    requires MajorOutermost(m, |dims|) && InShape(element, dims)
    requires TilesBelowMajor(tiles, |dims|)
    ensures var inner := Tiled(Below(dims, m, element), tiles);
            && DeviceOffset(dims, m, tiles, element[0 := major]) == major * SliceCells(dims, m, tiles) + Linear(inner)
            && 0 <= Linear(inner) < SliceCells(dims, m, tiles)
    ensures element[0 := element[0]] == element
  {
    SplitMajor(dims, m, element, major);
    TiledIndex([Axis(dims[0], major)], Below(dims, m, element), tiles);
    LinearSingle(Axis(dims[0], major));
    BelowExtent(dims, m, tiles, element);
  }

  lemma {:induction false} BelowExtent(dims: seq<int>, m: seq<int>, tiles: seq<seq<int>>, element: seq<int>)
    requires MajorOutermost(m, |dims|) && |element| == |dims|
    requires TilesBelowMajor(tiles, |dims|)
    ensures Extent(Tiled(Below(dims, m, element), tiles)) == SliceCells(dims, m, tiles)
  {
    var zero := Below(dims, m, Zeros(|dims|));
    TilingKeepsSizesEqual(Below(dims, m, element), zero, tiles);
    SizesGiveExtent(Tiled(Below(dims, m, element), tiles), Tiled(zero, tiles));
  }

  // ---- later tiles that subdivide the first one exactly ----

  /** Each tile divides the axes it lands on; sizes are those of the minor axes. */
  predicate Subdivides(axes: seq<Axis>, tiles: seq<seq<int>>)
    decreases |tiles|
  {
    tiles == [] ||
    (&& Positive(tiles[0])
     && |tiles[0]| <= |axes|
     && Divides(axes[|axes| - |tiles[0]|..], tiles[0])
     && Subdivides(TileMinor(axes, tiles[0]), tiles[1..]))
  }

  predicate Divides(axes: seq<Axis>, tile: seq<int>)
    requires |axes| == |tile| && Positive(tile)
  {
    forall i :: 0 <= i < |tile| ==> axes[i].size % tile[i] == 0
  }

  lemma {:induction false} ExactGrid(axes: seq<Axis>, tile: seq<int>)
    requires |axes| == |tile| && Positive(tile) && Divides(axes, tile)
    ensures Extent(Grid(axes, tile)) * Extent(Inner(axes, tile)) == Extent(axes)
    decreases |tile|
  {
    if tile == [] {
      assert Extent([]) == 1;
    } else {
      var a, t := axes[0], tile[0];
      ExactGrid(axes[1..], tile[1..]);
      LinearConcat([TileIndex(a, t)], Grid(axes[1..], tile[1..]));
      LinearConcat([Axis(t, a.index % t)], Inner(axes[1..], tile[1..]));
      assert axes == [a] + axes[1..];
      LinearConcat([a], axes[1..]);
      ExtentSingle(a);
      ExtentSingle(TileIndex(a, t));
      ExtentSingle(Axis(t, a.index % t));
      ExactCeil(a.size, t);
      Regroup(CeilDiv(a.size, t), Extent(Grid(axes[1..], tile[1..])), t, Extent(Inner(axes[1..], tile[1..])));
    }
  }

  lemma Regroup(a: int, b: int, c: int, d: int)
    ensures (a * b) * (c * d) == (a * c) * (b * d)
  {
  }

  lemma ExtentSingle(a: Axis)
    ensures Extent([a]) == a.size
  {
    assert [a][..0] == [] && Extent([]) == 1;
  }

  lemma {:induction false} ExactCeil(d: int, t: int)
    requires t > 0 && d % t == 0
    ensures CeilDiv(d, t) * t == d
  {
    DivModUnique(d / t, t, t - 1);
  }

  lemma {:induction false} ExactTilesKeepExtent(axes: seq<Axis>, tiles: seq<seq<int>>)
    requires Subdivides(axes, tiles)
    ensures Extent(Tiled(axes, tiles)) == Extent(axes)
    decreases |tiles|
  {
    if tiles != [] {
      ExactTileKeepsExtent(axes, tiles[0]);
      ExactTilesKeepExtent(TileMinor(axes, tiles[0]), tiles[1..]);
    }
  }

  lemma {:induction false} ExactTileKeepsExtent(axes: seq<Axis>, tile: seq<int>)
    requires Positive(tile) && |tile| <= |axes| && Divides(axes[|axes| - |tile|..], tile)
    ensures Extent(TileMinor(axes, tile)) == Extent(axes)
  {
    var minor := axes[|axes| - |tile|..];
    ExactGrid(minor, tile);
    TileAllExtent(minor, tile);
    TileMinorExtent(axes, tile);
    ExtentSplit(axes, |axes| - |tile|);
  }

  /** Tiles such as (8,128)(2,1), where every later tile divides what it refines. */
  lemma SubtilesKeepSliceCells(dims: seq<int>, m: seq<int>, tiles: seq<seq<int>>)
    requires MajorOutermost(m, |dims|) && tiles != []
    requires Subdivides(TileMinor(Below(dims, m, Zeros(|dims|)), tiles[0]), tiles[1..])
    ensures SliceCells(dims, m, tiles) == SliceCells(dims, m, [tiles[0]])
  {
    var below := Below(dims, m, Zeros(|dims|));
    ExactTilesKeepExtent(TileMinor(below, tiles[0]), tiles[1..]);
    OneTile(below, tiles[0]);
  }

  lemma OneTile(axes: seq<Axis>, tile: seq<int>)
    ensures Tiled(axes, [tile]) == TileMinor(axes, tile)
  {
    assert [tile][1..] == [];
  }

  // ---- GetMajorSliceByteSize ----

  /** The shape-only size looks at the first tile, of shapes of rank 3 and up. */
  function TilesUsed(layout: Layout, rank: nat): (r: seq<seq<int>>)
  {
    if layout.Layout? && layout.tiles != [] && rank >= 3 then [layout.tiles[0]] else []
  }

  function Order(layout: Layout, rank: nat): (r: seq<int>)
  {
    if layout.Layout? then layout.minorToMajor else seq(rank, i requires 0 <= i < rank => rank - 1 - i)
  }

  predicate WellFormed(dims: seq<int>, layout: Layout)
  {
    && (layout.Layout? ==> IsPermutation(layout.minorToMajor, |dims|))
    && AllPositive(TilesUsed(layout, |dims|))
  }

  /** Dimension indices 1..i other than the two minor ones. */
  function Others(i: nat, minor0: int, minor1: int): (r: seq<int>)
  {
    if i <= 1 then []
    else if i - 1 == minor0 || i - 1 == minor1 then Others(i - 1, minor0, minor1)
    else Others(i - 1, minor0, minor1) + [i - 1]
  }

  lemma {:induction false} OthersContents(i: nat, minor0: int, minor1: int)
    ensures forall x :: x in Others(i, minor0, minor1) <==> 1 <= x < i && x != minor0 && x != minor1
    ensures Distinct(Others(i, minor0, minor1))
  {
    if i > 1 {
      OthersContents(i - 1, minor0, minor1);
      DistinctAppend(Others(i - 1, minor0, minor1), i - 1);
    }
  }

  lemma DistinctAppend(s: seq<int>, x: int)
    requires Distinct(s) && x !in s
    ensures Distinct(s + [x])
  {
  }

  lemma SelectsMembers(s: seq<int>, rank: nat)
    requires forall x :: x in s ==> 0 <= x < rank
    ensures Selects(s, rank)
  {
    assert forall i :: 0 <= i < |s| ==> s[i] in s;
  }

  /** All dimensions below the major one, multiplied. */
  method StrideBelow(dims: seq<int>) returns (stride: int)
    requires dims != []
    ensures Selects(Others(|dims|, 0, 0), |dims|) && stride == ProductOver(dims, Others(|dims|, 0, 0))
  {
    stride := 1;
    for i := 1 to |dims|
      invariant Selects(Others(i, 0, 0), |dims|) && stride == ProductOver(dims, Others(i, 0, 0))
    {
      OthersContents(i + 1, 0, 0);
      ProductOverConcat(dims, Others(i, 0, 0), [i]);
      stride := stride * dims[i];
    }
  }

  /** The same without the two tiled ones. */
  method MultiplierBelow(dims: seq<int>, minor0: int, minor1: int) returns (multiplier: int)
    requires dims != []
    ensures Selects(Others(|dims|, minor0, minor1), |dims|)
    ensures multiplier == ProductOver(dims, Others(|dims|, minor0, minor1))
  {
    multiplier := 1;
    for i := 1 to |dims|
      invariant Selects(Others(i, minor0, minor1), |dims|)
      invariant multiplier == ProductOver(dims, Others(i, minor0, minor1))
    {
      OthersContents(i + 1, minor0, minor1);
      if i != minor0 && i != minor1 {
        ProductOverConcat(dims, Others(i, minor0, minor1), [i]);
        multiplier := multiplier * dims[i];
      }
    }
  }

  method MajorSliceByteSize(dims: seq<int>, layout: Layout, itemSize: int) returns (r: SliceSize)
    requires WellFormed(dims, layout)
    ensures dims == [] ==> r == Bytes(0)
    ensures r == UnsupportedTiling <==> TilesUsed(layout, |dims|) != [] && |layout.tiles[0]| != 2
    ensures r != UnsupportedTiling && MajorOutermost(Order(layout, |dims|), |dims|) ==>
              r == Bytes(SliceCells(dims, Order(layout, |dims|), TilesUsed(layout, |dims|)) * itemSize)
  {
    if dims == [] {
      return Bytes(0);
    }
    var rank := |dims|;
    var stride := StrideBelow(dims);
    if layout.Layout? && layout.tiles != [] && rank >= 3 {
      var tile := layout.tiles[0];
      if |tile| != 2 {
        return UnsupportedTiling;
      }
      assert Positive(TilesUsed(layout, rank)[0]);
      var tH, tW := tile[0], tile[1];
      var minor0, minor1 := layout.minorToMajor[0], layout.minorToMajor[1];
      var numTiles0 := CeilDiv(dims[minor0], tW);
      var numTiles1 := CeilDiv(dims[minor1], tH);
      var tiled2dBlockSize := numTiles0 * numTiles1 * tH * tW * itemSize;
      var multiplier := MultiplierBelow(dims, minor0, minor1);
      if MajorOutermost(layout.minorToMajor, rank) {
        TiledSliceCells(dims, layout.minorToMajor, tile);
        TiledProduct(numTiles0, numTiles1, tH, tW, itemSize, multiplier);
      }
      return Bytes(tiled2dBlockSize * multiplier);
    }
    if MajorOutermost(Order(layout, rank), rank) {
      UntiledSliceCells(dims, Order(layout, rank));
    }
    return Bytes(stride * itemSize);
  }

  lemma TiledProduct(n0: int, n1: int, tH: int, tW: int, item: int, mult: int)
    ensures (n0 * n1 * tH * tW * item) * mult == (mult * ((n1 * n0) * (tH * tW))) * item
  {
    var cells := (n1 * n0) * (tH * tW);
    assert n0 * n1 * tH * tW == cells;
    assert (cells * item) * mult == (mult * cells) * item;
  }

  /** Physical order of dimensions [lo, hi) counted from the minor end. */
  function Descending(m: seq<int>, lo: nat, hi: nat): (r: seq<int>)
    requires lo <= hi <= |m|
    ensures |r| == hi - lo
    ensures forall x :: x in r <==> x in m[lo..hi]
  {
    if lo == hi then [] else
      assert m[lo..hi] == m[lo..hi - 1] + [m[hi - 1]];
      [m[hi - 1]] + Descending(m, lo, hi - 1)
  }

  lemma {:induction false} DescendingIsDistinct(m: seq<int>, rank: nat, lo: nat, hi: nat)
    requires IsPermutation(m, rank) && lo <= hi <= rank
    ensures Selects(Descending(m, lo, hi), rank) && Distinct(Descending(m, lo, hi))
    decreases hi
  {
    if lo < hi {
      DescendingIsDistinct(m, rank, lo, hi - 1);
      var rest := Descending(m, lo, hi - 1);
      forall i | 0 <= i < |rest|
        ensures rest[i] != m[hi - 1] && 0 <= rest[i] < rank
      {
        assert rest[i] in m[lo..hi - 1];
      }
    }
  }

  lemma {:induction false} ExtentOfDescending(dims: seq<int>, m: seq<int>, lo: nat, hi: nat)
    requires IsPermutation(m, |dims|) && lo <= hi <= |dims|
    ensures Selects(Descending(m, lo, hi), |dims|)
    ensures var n := |dims|;
            Extent(Physical(dims, m, Zeros(n))[n - hi..n - lo]) == ProductOver(dims, Descending(m, lo, hi))
    decreases hi - lo
  {
    var n := |dims|;
    DescendingIsDistinct(m, n, lo, hi);
    var axes := Physical(dims, m, Zeros(n));
    if lo < hi {
      ExtentOfDescending(dims, m, lo, hi - 1);
      ExtentFirst(axes, n - hi, n - lo);
      assert axes[n - hi].size == dims[m[hi - 1]];
      ProductOverFirst(dims, m[hi - 1], Descending(m, lo, hi - 1));
    } else {
      assert axes[n - hi..n - lo] == [];
    }
  }

  lemma ProductOverFirst(dims: seq<int>, x: int, rest: seq<int>)
    requires Selects([x] + rest, |dims|) && Selects(rest, |dims|)
    ensures 0 <= x < |dims| && ProductOver(dims, [x] + rest) == dims[x] * ProductOver(dims, rest)
  {
    assert ([x] + rest)[0] == x && ([x] + rest)[1..] == rest;
  }

  lemma ExtentFirst(axes: seq<Axis>, i: nat, j: nat)
    requires i < j <= |axes|
    ensures Extent(axes[i..j]) == axes[i].size * Extent(axes[i + 1..j])
  {
    assert axes[i..j] == [axes[i]] + axes[i + 1..j];
    LinearConcat([axes[i]], axes[i + 1..j]);
    ExtentSingle(axes[i]);
  }

  /** The dimensions below the major one, past `lo` minor ones, as logical indices. */
  lemma OthersAreDescending(dims: seq<int>, m: seq<int>, lo: nat, minor0: int, minor1: int)
    requires MajorOutermost(m, |dims|) && lo <= |dims| - 1
    requires forall x :: x in m[..lo] <==> 0 < x < |dims| && (x == minor0 || x == minor1)
    ensures Selects(Others(|dims|, minor0, minor1), |dims|) && Selects(Descending(m, lo, |dims| - 1), |dims|)
    ensures ProductOver(dims, Others(|dims|, minor0, minor1)) == ProductOver(dims, Descending(m, lo, |dims| - 1))
  {
    var n := |dims|;
    OthersContents(n, minor0, minor1);
    SelectsMembers(Others(n, minor0, minor1), n);
    DescendingIsDistinct(m, n, lo, n - 1);
    forall x
      ensures x in Others(n, minor0, minor1) <==> x in Descending(m, lo, n - 1)
    {
      MiddleOfPermutation(m, n, lo, x);
    }
    ProductOverSameSet(dims, Others(n, minor0, minor1), Descending(m, lo, n - 1));
  }

  lemma MiddleOfPermutation(m: seq<int>, rank: nat, lo: nat, x: int)
    requires MajorOutermost(m, rank) && lo <= rank - 1
    ensures x in m[lo..rank - 1] <==> 0 < x < rank && x !in m[..lo]
  {
    if 0 < x < rank && x !in m[..lo] {
      PermutationOnto(m, rank, x);
      var i :| 0 <= i < rank && m[i] == x;
      assert i >= lo by {
        assert forall j :: 0 <= j < lo ==> m[..lo][j] == m[j];
      }
      assert m[lo..rank - 1][i - lo] == x;
    }
  }

  lemma {:induction false} UntiledSliceCells(dims: seq<int>, m: seq<int>)
    requires MajorOutermost(m, |dims|)
    ensures Selects(Others(|dims|, 0, 0), |dims|)
    ensures SliceCells(dims, m, []) == ProductOver(dims, Others(|dims|, 0, 0))
  {
    OthersAreDescending(dims, m, 0, 0, 0);
    ExtentOfDescending(dims, m, 0, |dims| - 1);
    assert SliceCells(dims, m, []) == Extent(Physical(dims, m, Zeros(|dims|))[1..|dims|]) by {
      BelowPrefix(dims, m, 0);
    }
  }

  lemma BelowPrefix(dims: seq<int>, m: seq<int>, minor: nat)
    requires MajorOutermost(m, |dims|) && minor <= |dims| - 1
    ensures var n := |dims|;
            Below(dims, m, Zeros(n))[..n - 1 - minor] == Physical(dims, m, Zeros(n))[1..n - minor]
    ensures Below(dims, m, Zeros(|dims|))[..|dims| - 1] == Below(dims, m, Zeros(|dims|))
  {
  }

  lemma {:induction false} TiledSliceCells(dims: seq<int>, m: seq<int>, tile: seq<int>)
    requires MajorOutermost(m, |dims|) && |dims| >= 3 && |tile| == 2 && Positive(tile)
    ensures Selects(Others(|dims|, m[0], m[1]), |dims|)
    ensures SliceCells(dims, m, [tile])
         == ProductOver(dims, Others(|dims|, m[0], m[1]))
            * ((CeilDiv(dims[m[1]], tile[0]) * CeilDiv(dims[m[0]], tile[1])) * (tile[0] * tile[1]))
  {
    MiddleDimensions(dims, m);
    TiledExtent(Below(dims, m, Zeros(|dims|)), tile);
    TwoMinorAxes(dims, m);
    TwoAxisTile(Axis(dims[m[1]], 0), Axis(dims[m[0]], 0), tile);
  }

  lemma {:induction false} MiddleDimensions(dims: seq<int>, m: seq<int>)
    requires MajorOutermost(m, |dims|) && |dims| >= 3
    ensures Selects(Others(|dims|, m[0], m[1]), |dims|)
    ensures Extent(Below(dims, m, Zeros(|dims|))[..|dims| - 3]) == ProductOver(dims, Others(|dims|, m[0], m[1]))
  {
    OthersAreDescending(dims, m, 2, m[0], m[1]);
    ExtentOfDescending(dims, m, 2, |dims| - 1);
    BelowPrefix(dims, m, 2);
  }

  lemma {:induction false} TiledExtent(axes: seq<Axis>, tile: seq<int>)
    requires |tile| <= |axes|
    ensures var k := |axes| - |tile|;
            Extent(Tiled(axes, [tile])) == Extent(axes[..k]) * Extent(TileAll(axes[k..], tile))
  {
    OneTile(axes, tile);
    TileMinorExtent(axes, tile);
  }

  lemma TwoMinorAxes(dims: seq<int>, m: seq<int>)
    requires MajorOutermost(m, |dims|) && |dims| >= 3
    ensures Below(dims, m, Zeros(|dims|))[|dims| - 3..] == [Axis(dims[m[1]], 0), Axis(dims[m[0]], 0)]
  {
  }

  lemma {:induction false} TwoAxisTile(a: Axis, b: Axis, tile: seq<int>)
    requires |tile| == 2 && Positive(tile)
    ensures Extent(TileAll([a, b], tile))
         == (CeilDiv(a.size, tile[0]) * CeilDiv(b.size, tile[1])) * (tile[0] * tile[1])
  {
    TileAllExtent([a, b], tile);
    ExtentPair(TileIndex(a, tile[0]), TileIndex(b, tile[1]));
    ExtentPair(Axis(tile[0], a.index % tile[0]), Axis(tile[1], b.index % tile[1]));
  }

  lemma ExtentPair(a: Axis, b: Axis)
    ensures Extent([a, b]) == a.size * b.size
  {
    assert [a, b][..1] == [a];
    ExtentSingle(a);
  }

  // ---- the overload that knows the on-device size ----

  method MajorSliceOnDevice(dims: seq<int>, layout: Layout, itemSize: int, subByte: bool, physicalSize: int)
    returns (r: SliceSize)
    requires WellFormed(dims, layout)
    ensures dims == [] ==> r == Bytes(0)
    ensures subByte && dims != [] && physicalSize > 0 ==>
              if dims[0] > 0 && physicalSize % dims[0] == 0
              then r.Bytes? && r.value * dims[0] == physicalSize
              else r == NotWholeSlices
    ensures (!subByte || physicalSize <= 0) && r.Bytes? && MajorOutermost(Order(layout, |dims|), |dims|) ==>
              r.value == SliceCells(dims, Order(layout, |dims|), TilesUsed(layout, |dims|)) * itemSize
  {
    if dims == [] || physicalSize <= 0 || !subByte {
      r := MajorSliceByteSize(dims, layout, itemSize);
      return;
    }
    var major := dims[0];
    if major <= 0 || physicalSize % major != 0 {
      return NotWholeSlices;
    }
    return Bytes(physicalSize / major);
  }

  /**
   Packed elements of `bits` bits each: when the buffer is exactly its slices,
   dividing the on-device size by the major dimension is the packed slice size.
   */
  lemma PackedSliceHoldsMajorIndex(dims: seq<int>, m: seq<int>, tiles: seq<seq<int>>, element: seq<int>,
                                   bits: int, slice: int, physicalSize: int)
    requires MajorOutermost(m, |dims|) && InShape(element, dims)
    requires TilesBelowMajor(tiles, |dims|)
    requires bits > 0 && slice * dims[0] == physicalSize
    requires physicalSize * 8 == (dims[0] * SliceCells(dims, m, tiles)) * bits
    ensures var offset := DeviceOffset(dims, m, tiles, element);
            element[0] * (slice * 8) <= offset * bits && (offset + 1) * bits <= (element[0] + 1) * (slice * 8)
  {
    SliceRange(dims, m, tiles, element);
    PackedRange(dims[0], element[0], SliceCells(dims, m, tiles), DeviceOffset(dims, m, tiles, element), bits, slice,
                physicalSize);
  }

  lemma {:induction false} PackedRange(major: int, i: int, cells: int, offset: int, bits: int, slice: int,
                                       physicalSize: int)
    requires major > 0 && bits > 0 && InSlice(i, cells, offset)
    requires slice * major == physicalSize && physicalSize * 8 == (major * cells) * bits
    ensures i * (slice * 8) <= offset * bits && (offset + 1) * bits <= (i + 1) * (slice * 8)
  {
    assert (slice * major) * 8 == major * (slice * 8);
    MulAssoc(major, cells, bits);
    ScaleRange(i, cells, offset, bits);
  }

  lemma {:induction false} ScaleRange(i: int, cells: int, offset: int, bits: int)
    requires bits > 0 && i * cells <= offset < (i + 1) * cells
    ensures i * (cells * bits) <= offset * bits
    ensures (offset + 1) * bits <= (i + 1) * (cells * bits)
  {
    MulMonotone(i * cells, offset, bits);
    MulMonotone(offset + 1, (i + 1) * cells, bits);
    MulAssoc(i, cells, bits);
    MulAssoc(i + 1, cells, bits);
  }
}
