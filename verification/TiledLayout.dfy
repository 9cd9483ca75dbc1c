/**
 The linear index an element gets in a tiled XLA layout, following the OpenXLA
 document "Tiled layout": sections "Linear index formulas for tiling given a
 shape and a tile", "Combining dimensions using tiling" and "Repeated tiling".
 */
module TiledLayout {
  import opened Arith

  /** One physical dimension as one element sees it, most major first. */
  datatype Axis = Axis(size: int, index: int)

  /** Row-major index over the axes. */
  function Linear(axes: seq<Axis>): (r: int)
  {
    if axes == [] then 0
    else
      var last := axes[|axes| - 1];
      Linear(axes[..|axes| - 1]) * last.size + last.index
  }

  /** Number of cells the axes span, padding included. */
  function Extent(axes: seq<Axis>): (r: int)
  {
    if axes == [] then 1
    else Extent(axes[..|axes| - 1]) * axes[|axes| - 1].size
  }

  predicate Inside(axes: seq<Axis>)
  {
    forall i :: 0 <= i < |axes| ==> 0 <= axes[i].index < axes[i].size
  }

  /** A shape of lower rank than a tile is widened with dimensions of size 1. */
  function Pad(axes: seq<Axis>, rank: nat): (r: seq<Axis>)
    ensures |r| >= rank && |r| >= |axes|
  {
    if |axes| >= rank then axes else Ones(rank - |axes|) + axes
  }

  function Ones(n: nat): (r: seq<Axis>)
    ensures |r| == n
  {
    seq(n, _ => Axis(1, 0))
  }

  /**
   A tile dimension without a fixed size (zero or less) combines its axis with
   the next more minor one before tiling.
   */
  function Combine(axes: seq<Axis>, tile: seq<int>): (r: seq<Axis>)
    requires |axes| == |tile|
    ensures |r| == |FixedDims(tile)|
    decreases |tile|
  {
    if |tile| <= 1 then axes
    else if tile[0] <= 0 then
      var merged := Axis(axes[0].size * axes[1].size, axes[0].index * axes[1].size + axes[1].index);
      Combine([merged] + axes[2..], tile[1..])
    else [axes[0]] + Combine(axes[1..], tile[1..])
  }

  function FixedDims(tile: seq<int>): (r: seq<int>)
    ensures Positive(r)
    decreases |tile|
  {
    if tile == [] then []
    else if tile[0] > 0 then [tile[0]] + FixedDims(tile[1..])
    else if |tile| == 1 then [1]
    else FixedDims(tile[1..])
  }

  predicate Positive(tile: seq<int>)
  {
    forall i :: 0 <= i < |tile| ==> tile[i] > 0
  }

  /** Which tile of size `t` the element falls in, along one axis. */
  function TileIndex(axis: Axis, t: int): (r: Axis)
    requires t > 0
  {
    Axis(CeilDiv(axis.size, t), axis.index / t)
  }

  function Grid(axes: seq<Axis>, tile: seq<int>): (r: seq<Axis>)
    requires |axes| == |tile| && Positive(tile)
    ensures |r| == |tile|
  {
    if tile == [] then [] else [TileIndex(axes[0], tile[0])] + Grid(axes[1..], tile[1..])
  }

  /** Where in its tile the element falls, along each tiled axis. */
  function Inner(axes: seq<Axis>, tile: seq<int>): (r: seq<Axis>)
    requires |axes| == |tile| && Positive(tile)
    ensures |r| == |tile|
  {
    if tile == [] then [] else [Axis(tile[0], axes[0].index % tile[0])] + Inner(axes[1..], tile[1..])
  }

  /** One tile over exactly as many axes as it has dimensions. */
  function TileAll(axes: seq<Axis>, tile: seq<int>): (r: seq<Axis>)
    requires |axes| == |tile|
  {
    var fixed := FixedDims(tile);
    var combined := Combine(axes, tile);
    Grid(combined, fixed) + Inner(combined, fixed)
  }

  /** One tile applied to the most minor axes. */
  function TileMinor(axes: seq<Axis>, tile: seq<int>): (r: seq<Axis>)
  {
    var padded := Pad(axes, |tile|);
    var outer := |padded| - |tile|;
    padded[..outer] + TileAll(padded[outer..], tile)
  }

  /** Repeated tiling: each tile applies to the axes the previous ones left. */
  function Tiled(axes: seq<Axis>, tiles: seq<seq<int>>): (r: seq<Axis>)
    decreases |tiles|
  {
    if tiles == [] then axes else Tiled(TileMinor(axes, tiles[0]), tiles[1..])
  }

  predicate IsPermutation(minorToMajor: seq<int>, rank: nat)
  {
    && |minorToMajor| == rank
    && (forall i :: 0 <= i < rank ==> 0 <= minorToMajor[i] < rank)
    && (forall i, j :: 0 <= i < j < rank ==> minorToMajor[i] != minorToMajor[j])
  }

  predicate InShape(element: seq<int>, dims: seq<int>)
  {
    |element| == |dims| && forall i :: 0 <= i < |dims| ==> 0 <= element[i] < dims[i]
  }

  /** The logical dimensions in physical order, most major first. */
  function Physical(dims: seq<int>, minorToMajor: seq<int>, element: seq<int>): (r: seq<Axis>)
    requires IsPermutation(minorToMajor, |dims|) && |element| == |dims|
    ensures |r| == |dims|
  {
    var n := |dims|;
    seq(n, i requires 0 <= i < n => Axis(dims[minorToMajor[n - 1 - i]], element[minorToMajor[n - 1 - i]]))
  }

  /** Element offset, counted in elements, inside the device buffer. */
  function DeviceOffset(dims: seq<int>, minorToMajor: seq<int>, tiles: seq<seq<int>>, element: seq<int>): (r: int)
    requires IsPermutation(minorToMajor, |dims|) && |element| == |dims|
  {
    Linear(Tiled(Physical(dims, minorToMajor, element), tiles))
  }

  // ---- row-major indices of concatenations ----

  lemma {:induction false} LinearConcat(p: seq<Axis>, s: seq<Axis>)
    ensures Extent(p + s) == Extent(p) * Extent(s)
    ensures Linear(p + s) == Linear(p) * Extent(s) + Linear(s)
    decreases |s|
  {
    if s == [] {
      assert p + s == p;
    } else {
      var last := s[|s| - 1];
      var init := s[..|s| - 1];
      assert (p + s)[..|p + s| - 1] == p + init;
      LinearConcat(p, init);
      LinearStep(Extent(p), Linear(p), Extent(init), Linear(init), last);
    }
  }

  lemma LinearStep(extentP: int, linearP: int, extent: int, linear: int, last: Axis)
    ensures (extentP * extent) * last.size == extentP * (extent * last.size)
    ensures (linearP * extent + linear) * last.size + last.index
         == linearP * (extent * last.size) + (linear * last.size + last.index)
  {
    MulAssoc(extentP, extent, last.size);
    MulAssoc(linearP, extent, last.size);
  }

  lemma LinearSingle(a: Axis)
    ensures Linear([a]) == a.index
  {
    assert [a][..0] == [];
  }

  lemma LinearAppend(p: seq<Axis>, a: Axis)
    ensures Linear(p + [a]) == Linear(p) * a.size + a.index
  {
    assert (p + [a])[..|p + [a]| - 1] == p;
  }

  lemma ExtentSplit(axes: seq<Axis>, k: nat)
    requires k <= |axes|
    ensures Extent(axes) == Extent(axes[..k]) * Extent(axes[k..])
  {
    assert axes == axes[..k] + axes[k..];
    LinearConcat(axes[..k], axes[k..]);
  }

  lemma {:induction false} LinearBounds(axes: seq<Axis>)
    requires Inside(axes)
    ensures 0 <= Linear(axes) < Extent(axes)
  {
    if axes != [] {
      var init := axes[..|axes| - 1];
      var last := axes[|axes| - 1];
      LinearBounds(init);
      MulMonotone(0, Linear(init), last.size);
      MulMonotone(Linear(init) + 1, Extent(init), last.size);
      assert (Linear(init) + 1) * last.size == Linear(init) * last.size + last.size;
    }
  }

  lemma {:induction false} OnesAreInvisible(n: nat, axes: seq<Axis>)
    ensures Linear(Ones(n) + axes) == Linear(axes)
    decreases n
  {
    if n == 0 {
      assert Ones(n) + axes == axes;
    } else {
      assert Ones(n) + axes == Ones(n - 1) + ([Axis(1, 0)] + axes);
      OnesAreInvisible(n - 1, [Axis(1, 0)] + axes);
      LinearConcat([Axis(1, 0)], axes);
      assert Linear([Axis(1, 0)]) == 0;
    }
  }

  // ---- tiles that stay inside the minor axes ----

  lemma TileMinorSplit(p: seq<Axis>, s: seq<Axis>, tile: seq<int>)
    requires |tile| <= |s|
    ensures TileMinor(p + s, tile) == p + TileMinor(s, tile)
  {
    var k := |s| - |tile|;
    var inner := TileAll(s[k..], tile);
    Unpadded(s, tile);
    assert TileMinor(p + s, tile) == (p + s)[..|p| + k] + inner by {
      Unpadded(p + s, tile);
      CutTail(p, s, k);
    }
    PrependToCut(p, s, k, inner);
  }

  lemma PrependToCut(p: seq<Axis>, s: seq<Axis>, k: nat, inner: seq<Axis>)
    requires k <= |s|
    ensures (p + s)[..|p| + k] + inner == p + (s[..k] + inner)
  {
    assert (p + s)[..|p| + k] == p + s[..k];
  }

  lemma Unpadded(axes: seq<Axis>, tile: seq<int>)
    requires |tile| <= |axes|
    ensures var k := |axes| - |tile|;
            TileMinor(axes, tile) == axes[..k] + TileAll(axes[k..], tile)
  {
  }

  lemma CutTail(p: seq<Axis>, s: seq<Axis>, k: nat)
    requires k <= |s|
    ensures (p + s)[|p| + k..] == s[k..]
  {
  }

  lemma Assoc(a: seq<Axis>, b: seq<Axis>, c: seq<Axis>)
    ensures (a + b) + c == a + (b + c)
  {
  }

  lemma TileMinorExtent(axes: seq<Axis>, tile: seq<int>)
    requires |tile| <= |axes|
    ensures var k := |axes| - |tile|;
            Extent(TileMinor(axes, tile)) == Extent(axes[..k]) * Extent(TileAll(axes[k..], tile))
  {
    LinearConcat(axes[..|axes| - |tile|], TileAll(axes[|axes| - |tile|..], tile));
  }

  lemma {:induction false} TileAllExtent(axes: seq<Axis>, tile: seq<int>)
    requires |tile| == |axes| && Positive(tile)
    ensures Extent(TileAll(axes, tile)) == Extent(Grid(axes, tile)) * Extent(Inner(axes, tile))
  {
    PositiveTilesKeepAxes(axes, tile);
    LinearConcat(Grid(axes, tile), Inner(axes, tile));
  }

  /** The axes outside a nested tile list only scale and shift the index. */
  lemma TiledIndex(p: seq<Axis>, s: seq<Axis>, tiles: seq<seq<int>>)
    requires Nested(tiles, |s|) && AllPositive(tiles) && Inside(s)
    ensures var inner := Tiled(s, tiles);
            && Linear(Tiled(p + s, tiles)) == Linear(p) * Extent(inner) + Linear(inner)
            && 0 <= Linear(inner) < Extent(inner)
  {
    NestedTilesStayInside(p, s, tiles);
    LinearConcat(p, Tiled(s, tiles));
    NestedTilesStayBounded(s, tiles);
    LinearBounds(Tiled(s, tiles));
  }

  /** Every tile has at most as many dimensions as the tiles before it hold. */
  predicate Nested(tiles: seq<seq<int>>, available: nat)
    decreases |tiles|
  {
    tiles == [] || (|tiles[0]| <= available && Nested(tiles[1..], available + |tiles[0]|))
  }

  predicate AllPositive(tiles: seq<seq<int>>)
  {
    forall k :: 0 <= k < |tiles| ==> Positive(tiles[k])
  }

  lemma {:induction false} PositiveTilesKeepAxes(axes: seq<Axis>, tile: seq<int>)
    requires |axes| == |tile|
    requires Positive(tile)
    ensures FixedDims(tile) == tile && Combine(axes, tile) == axes
    decreases |tile|
  {
    if tile != [] {
      PositiveTilesKeepAxes(axes[1..], tile[1..]);
    }
  }

  /** Nested tiles rearrange only the axes they reach, never the ones outside. */
  lemma {:induction false} NestedTilesStayInside(p: seq<Axis>, s: seq<Axis>, tiles: seq<seq<int>>)
    requires Nested(tiles, |s|) && AllPositive(tiles)
    ensures Tiled(p + s, tiles) == p + Tiled(s, tiles)
    decreases |tiles|
  {
    if tiles != [] {
      TileMinorSplit(p, s, tiles[0]);
      TileMinorLength(s, tiles[0]);
      NestedTilesStayInside(p, TileMinor(s, tiles[0]), tiles[1..]);
    }
  }

  /** Nested tiles keep an element inside its (padded) cells. */
  lemma {:induction false} NestedTilesStayBounded(s: seq<Axis>, tiles: seq<seq<int>>)
    requires Nested(tiles, |s|) && AllPositive(tiles) && Inside(s)
    ensures Inside(Tiled(s, tiles))
    decreases |tiles|
  {
    if tiles != [] {
      TileMinorBounded(s, tiles[0]);
      TileMinorLength(s, tiles[0]);
      NestedTilesStayBounded(TileMinor(s, tiles[0]), tiles[1..]);
    }
  }

  lemma TileMinorBounded(s: seq<Axis>, tile: seq<int>)
    requires |tile| <= |s| && Inside(s)
    requires Positive(tile)
    ensures Inside(TileMinor(s, tile))
  {
    TileAllBounded(s[|s| - |tile|..], tile);
  }

  lemma TileMinorLength(s: seq<Axis>, tile: seq<int>)
    requires |tile| <= |s| && Positive(tile)
    ensures |TileMinor(s, tile)| == |s| + |tile|
  {
    PositiveTilesKeepAxes(s[|s| - |tile|..], tile);
  }

  lemma TileAllBounded(s: seq<Axis>, tile: seq<int>)
    requires |s| == |tile| && Inside(s) && Positive(tile)
    ensures Inside(TileAll(s, tile))
  {
    PositiveTilesKeepAxes(s, tile);
    GridAndInnerBounded(s, tile);
  }

  lemma {:induction false} GridAndInnerBounded(s: seq<Axis>, tile: seq<int>)
    requires |s| == |tile| && Inside(s) && Positive(tile)
    ensures Inside(Grid(s, tile)) && Inside(Inner(s, tile))
    decreases |s|
  {
    if s != [] {
      TileIndexBounded(s[0].index, s[0].size, tile[0]);
      GridAndInnerBounded(s[1..], tile[1..]);
    }
  }

  lemma TileIndexBounded(i: int, d: int, t: int)
    requires 0 <= i < d && t > 0
    ensures 0 <= i / t < CeilDiv(d, t)
  {
    var q := CeilDiv(d, t);
    assert (i / t) * t <= i;
    if i / t >= q {
      MulMonotone(q, i / t, t);
      assert false;
    }
  }

  /** Leading axes of size 1 never influence the tiles, whatever those are. */
  lemma {:induction false} OnesThroughTiles(n: nat, axes: seq<Axis>, tiles: seq<seq<int>>)
    ensures Linear(Tiled(Ones(n) + axes, tiles)) == Linear(Tiled(axes, tiles))
    decreases |tiles|
  {
    if tiles == [] {
      OnesAreInvisible(n, axes);
    } else {
      var m := OnesThroughOneTile(n, axes, tiles[0]);
      OnesThroughTiles(m, TileMinor(axes, tiles[0]), tiles[1..]);
    }
  }

  lemma OnesThroughOneTile(n: nat, axes: seq<Axis>, tile: seq<int>) returns (m: nat)
    ensures TileMinor(Ones(n) + axes, tile) == Ones(m) + TileMinor(axes, tile)
  {
    if |tile| <= |axes| {
      m := n;
      TileMinorSplit(Ones(n), axes, tile);
    } else if |tile| <= n + |axes| {
      m := n + |axes| - |tile|;
      var padded := Pad(axes, |tile|);
      assert Ones(n) + axes == Ones(m) + padded;
      TileMinorSplit(Ones(m), padded, tile);
    } else {
      m := 0;
      assert Pad(Ones(n) + axes, |tile|) == Pad(axes, |tile|);
      assert Ones(0) + TileMinor(axes, tile) == TileMinor(axes, tile);
    }
  }

  // ---- the number of cells depends on the sizes only ----

  predicate SameSizes(a: seq<Axis>, b: seq<Axis>)
  {
    |a| == |b| && forall i :: 0 <= i < |a| ==> a[i].size == b[i].size
  }

  lemma {:induction false} SizesGiveExtent(a: seq<Axis>, b: seq<Axis>)
    requires SameSizes(a, b)
    ensures Extent(a) == Extent(b)
    decreases |a|
  {
    if a != [] {
      SizesGiveExtent(a[..|a| - 1], b[..|b| - 1]);
    }
  }

  lemma {:induction false} TilingKeepsSizesEqual(a: seq<Axis>, b: seq<Axis>, tiles: seq<seq<int>>)
    requires SameSizes(a, b) && Nested(tiles, |a|) && AllPositive(tiles)
    ensures SameSizes(Tiled(a, tiles), Tiled(b, tiles))
    decreases |tiles|
  {
    if tiles != [] {
      OneTileKeepsSizesEqual(a, b, tiles[0]);
      TileMinorLength(a, tiles[0]);
      TilingKeepsSizesEqual(TileMinor(a, tiles[0]), TileMinor(b, tiles[0]), tiles[1..]);
    }
  }

  lemma {:induction false} OneTileKeepsSizesEqual(a: seq<Axis>, b: seq<Axis>, tile: seq<int>)
    requires SameSizes(a, b) && |tile| <= |a| && Positive(tile)
    ensures SameSizes(TileMinor(a, tile), TileMinor(b, tile))
  {
    var k := |a| - |tile|;
    var x, y := a[k..], b[k..];
    PositiveTilesKeepAxes(x, tile);
    PositiveTilesKeepAxes(y, tile);
    GridSizes(x, y, tile);
    SizesConcat(Grid(x, tile), Grid(y, tile), Inner(x, tile), Inner(y, tile));
    assert SameSizes(TileAll(x, tile), TileAll(y, tile));
    SizesConcat(a[..k], b[..k], TileAll(x, tile), TileAll(y, tile));
    Unpadded(a, tile);
    Unpadded(b, tile);
  }

  lemma SizesConcat(a: seq<Axis>, b: seq<Axis>, c: seq<Axis>, d: seq<Axis>)
    requires SameSizes(a, b) && SameSizes(c, d)
    ensures SameSizes(a + c, b + d)
  {
  }

  lemma {:induction false} GridSizes(a: seq<Axis>, b: seq<Axis>, tile: seq<int>)
    requires SameSizes(a, b) && |tile| == |a| && Positive(tile)
    ensures SameSizes(Grid(a, tile), Grid(b, tile)) && SameSizes(Inner(a, tile), Inner(b, tile))
    decreases |tile|
  {
    if tile != [] {
      GridSizes(a[1..], b[1..], tile[1..]);
    }
  }
}
