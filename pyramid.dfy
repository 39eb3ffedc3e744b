/** The tile pyramid of js/pyramid.js: an image of `width` × `height`
    pixels cut into 256-pixel tiles at `layerCount` resolutions, each layer
    √2 times finer than the one before, the last layer at full
    resolution. The pyramid is fixed once made, so it is a value and every
    query a function; `forTiles`, a nested loop driving a callback, is a
    method that returns the callback's arguments in call order. */
module Pyramids {
  import opened Wrappers
  import opened Numerics
  import opened Geometry

  /** `TILE_SIZE`. */
  const TileSize: real := 256.0

  /** The slack `layerForScale` adds before taking the floor. */
  const LevelSlack: real := 0.0000001

  /** What `makePyramid` keeps: the image size and its layer count. The
      host's `Math` functions travel with it. */
  datatype Pyramid = Pyramid(width: real, height: real, layerCount: int, math: HostMath)

  /** `LOG_MULTIPLIER`: the logarithm of `RESOLUTION_MULTIPLIER` = √2. */
  function LogMultiplier(math: HostMath): (l: real)
    requires ValidMath(math)
    ensures l > 0.0
  {
    LogSign(math, math.sqrt2);
    math.ln(math.sqrt2)
  }

  /** How many `base`-fold steps a side of `side` pixels exceeds a tile of
      `tile` pixels by: one axis of the layer computation. */
  function Steps(side: real, tile: real, base: real, math: HostMath): real
    requires math.ln(base) != 0.0
  {
    (math.ln(side) - math.ln(tile)) / math.ln(base)
  }

  /** `computeLayers`. */
  function LayerCount(width: real, height: real, math: HostMath): int
    requires ValidMath(math)
  {
    LogSign(math, math.sqrt2);
    Ceil(Max(Steps(width, TileSize, math.sqrt2, math), Steps(height, TileSize, math.sqrt2, math))) + 1
  }

  /** `makePyramid(width, height)`. */
  function MakePyramid(width: real, height: real, math: HostMath): (p: Pyramid)
    requires ValidMath(math)
    ensures p.width == width && p.height == height && p.math == math
    ensures p.layerCount == LayerCount(width, height, math)
  {
    Pyramid(width, height, LayerCount(width, height, math), math)
  }

  /** A side of `tile · base^k` pixels needs exactly `k` steps. */
  lemma StepsOfPower(side: real, tile: real, base: real, math: HostMath, k: int)
    requires LogOfProduct(math.ln) && tile > 0.0 && base > 0.0 && math.ln(base) != 0.0
    requires side == tile * Power(base, k)
    ensures Steps(side, tile, base, math) == k as real
  {
    LogPower(math, base, k);
    StepsOfProduct(side, tile, Power(base, k), base, math, k);
  }

  /** `StepsOfPower` for a factor whose logarithm is `k` steps. */
  lemma StepsOfProduct(side: real, tile: real, factor: real, base: real, math: HostMath, k: int)
    requires LogOfProduct(math.ln) && tile > 0.0 && factor > 0.0 && math.ln(base) != 0.0
    requires side == tile * factor && math.ln(factor) == k as real * math.ln(base)
    ensures Steps(side, tile, base, math) == k as real
  {
    LogProduct(math, tile, factor);
    StepsOfLogs(math.ln(side), math.ln(tile), math.ln(factor), math.ln(base), k);
  }

  /** Arithmetic behind `StepsOfPower`, on plain numbers. */
  lemma StepsOfLogs(lnSide: real, lnTile: real, lnPower: real, l: real, k: int)
    requires l != 0.0 && lnSide == lnTile + lnPower && lnPower == k as real * l
    ensures (lnSide - lnTile) / l == k as real
  {
    QuotientOfMultiple(k as real, l);
  }

  /** For a base above one, `k` steps at least as many as a side needs
      give a tile that covers the side. */
  lemma StepsCover(side: real, tile: real, base: real, math: HostMath, k: int)
    requires ValidMath(math) && side > 0.0 && tile > 0.0 && base > 1.0
    requires (LogSign(math, base); k as real >= Steps(side, tile, base, math))
    ensures tile * Power(base, k) >= side
  {
    var factor := Power(base, k);
    assert math.ln(base) > 0.0 by { LogSign(math, base); }
    assert math.ln(factor) == k as real * math.ln(base) by { LogPower(math, base, k); }
    FactorCompare(side, tile, factor, base, math, k);
  }

  /** For a base above one, fewer steps than a side needs give a tile
      narrower than the side. */
  lemma StepsShort(side: real, tile: real, base: real, math: HostMath, k: int)
    requires ValidMath(math) && side > 0.0 && tile > 0.0 && base > 1.0
    requires (LogSign(math, base); (k as real) < Steps(side, tile, base, math))
    ensures tile * Power(base, k) < side
  {
    var factor := Power(base, k);
    assert math.ln(base) > 0.0 by { LogSign(math, base); }
    assert math.ln(factor) == k as real * math.ln(base) by { LogPower(math, base, k); }
    FactorCompare(side, tile, factor, base, math, k);
  }

  /** `StepsCover` and `StepsShort` for a factor whose logarithm is `k`
      steps. */
  lemma FactorCompare(side: real, tile: real, factor: real, base: real, math: HostMath, k: int)
    requires ValidMath(math) && side > 0.0 && tile > 0.0 && factor > 0.0
    requires math.ln(base) > 0.0 && math.ln(factor) == k as real * math.ln(base)
    ensures k as real >= Steps(side, tile, base, math) ==> tile * factor >= side
    ensures k as real < Steps(side, tile, base, math) ==> tile * factor < side
  {
    LogProduct(math, tile, factor);
    StepsCompare(k, math.ln(side), math.ln(tile), math.ln(factor), math.ln(tile * factor), math.ln(base));
    if k as real >= Steps(side, tile, base, math) {
      LogReflectsOrder(math, side, tile * factor);
    } else {
      LogReflectsStrictOrder(math, tile * factor, side);
    }
  }

  /** Arithmetic behind `StepsCover` and `StepsShort`: comparing `k` with
      the step count compares the logarithms of tile and side. */
  lemma StepsCompare(k: int, lnSide: real, lnTile: real, lnPower: real, lnCover: real, lnBase: real)
    requires lnBase > 0.0 && lnPower == k as real * lnBase && lnCover == lnTile + lnPower
    ensures k as real >= (lnSide - lnTile) / lnBase ==> lnSide <= lnCover
    ensures k as real < (lnSide - lnTile) / lnBase ==> lnCover < lnSide
  {
    QuotientBound(k as real, lnSide - lnTile, lnBase);
  }

  /** An image whose sides are `TileSize · √2^k` pixels, k ≥ 0, has `k + 1`
      layers (2048 × 2048, k = 6, has 7). */
  lemma LayerCountOfPowerSize(math: HostMath, k: int)
    requires ValidMath(math) && k >= 0
    ensures LayerCount(TileSize * Power(math.sqrt2, k), TileSize * Power(math.sqrt2, k), math) == k + 1
  {
    LogSign(math, math.sqrt2);
    StepsOfPower(TileSize * Power(math.sqrt2, k), TileSize, math.sqrt2, math, k);
  }

  /** At layer 0 one tile, `TileSize · √2^(layerCount − 1)` pixels wide,
      covers the whole image. */
  lemma TopLayerCoversImage(width: real, height: real, math: HostMath)
    requires ValidMath(math) && width > 0.0 && height > 0.0
    ensures TileSize * Power(math.sqrt2, LayerCount(width, height, math) - 1) >= Max(width, height)
  {
    var k := LayerCount(width, height, math) - 1;
    StepsCover(width, TileSize, math.sqrt2, math, k);
    StepsCover(height, TileSize, math.sqrt2, math, k);
  }

  /** One layer fewer would not do: at layer 1 a tile is narrower than the
      image's longer side. */
  lemma TopLayerIsNeeded(width: real, height: real, math: HostMath)
    requires ValidMath(math) && width > 0.0 && height > 0.0
    ensures TileSize * Power(math.sqrt2, LayerCount(width, height, math) - 2) < Max(width, height)
  {
    var k := LayerCount(width, height, math) - 2;
    LogSign(math, math.sqrt2);
    if Steps(width, TileSize, math.sqrt2, math) >= Steps(height, TileSize, math.sqrt2, math) {
      StepsShort(width, TileSize, math.sqrt2, math, k);
    } else {
      StepsShort(height, TileSize, math.sqrt2, math, k);
    }
  }

  /** Images no larger than 128 pixels on either side get no layers at
      all: the layer count is at most -1, so no layer exists to draw. */
  lemma SmallImageHasNoLayers(width: real, height: real, math: HostMath)
    requires ValidMath(math) && 0.0 < width <= 128.0 && 0.0 < height <= 128.0
    ensures LayerCount(width, height, math) <= -1
  {
    var l := LogMultiplier(math);
    var s := math.sqrt2;
    LogProduct(math, s, s);
    assert s * s == 2.0;
    assert math.ln(2.0) == 2.0 * l;
    LogProduct(math, 128.0, 2.0);
    assert math.ln(TileSize) == math.ln(128.0) + 2.0 * l;
    LogMonotone(math, width, 128.0);
    LogMonotone(math, height, 128.0);
    QuotientBound(-2.0, math.ln(width) - math.ln(TileSize), l);
    QuotientBound(-2.0, math.ln(height) - math.ln(TileSize), l);
  }

  // *** Layers and scales

  /** How many √2-steps `layer` lies below the full-resolution layer. */
  function LayerIndex(p: Pyramid, layer: int): int
  {
    p.layerCount - layer - 1
  }

  /** `layerForScale`: the layer to draw at `scale`, from the logarithm of
      the scale, never below layer 0 and, since `level` is clamped at 0,
      never above the last layer; every scale from 1 up selects the last
      layer. The host's logarithm is -Infinity at 0, which sends the layer
      to 0, and NaN below 0, which the model answers with `None`. */
  function LayerForScale(p: Pyramid, scale: real): (layer: Option<int>)
    requires ValidMath(p.math)
    ensures layer.None? <==> scale < 0.0
    ensures scale == 0.0 ==> layer == Some(0)
    ensures layer.Some? ==> 0 <= layer.value
    ensures layer.Some? && p.layerCount >= 1 ==> layer.value <= p.layerCount - 1
    ensures scale >= 1.0 ==> layer == Some(MaxInt(p.layerCount - 1, 0))
  {
    if scale < 0.0 then None
    else if scale == 0.0 then Some(0)
    else
      var lastLayer := p.layerCount - 1;
      var level := Max(p.math.ln(scale) / -LogMultiplier(p.math), 0.0);
      LevelAtFullScale(p.math, scale, level);
      Some(MaxInt(lastLayer - Floor(level + LevelSlack), 0))
  }

  /** From scale 1 up the clamped level is 0. */
  lemma LevelAtFullScale(math: HostMath, scale: real, level: real)
    requires ValidMath(math) && scale > 0.0
    requires level == Max(math.ln(scale) / -LogMultiplier(math), 0.0)
    ensures level >= 0.0
    ensures scale >= 1.0 ==> level == 0.0
  {
    if scale >= 1.0 {
      LogMonotone(math, 1.0, scale);
      assert math.ln(1.0) == 0.0;
      DivideByNegative(0.0, math.ln(scale), -LogMultiplier(math));
    }
  }

  /** `scaleForLayer`: 1 / √2^(layer's distance below the last layer). */
  function ScaleForLayer(p: Pyramid, layer: int): (scale: real)
    requires ValidMath(p.math)
    ensures scale > 0.0
    ensures layer == p.layerCount - 1 ==> scale == 1.0
    ensures layer < p.layerCount - 1 ==> scale < 1.0
  {
    var k := LayerIndex(p, layer);
    PowerAgainstOne(p.math.sqrt2, k);
    1.0 / Power(p.math.sqrt2, k)
  }

  /** A larger scale never selects a coarser layer. */
  lemma LayerForScaleMonotone(p: Pyramid, s1: real, s2: real)
    requires ValidMath(p.math) && 0.0 <= s1 <= s2
    ensures LayerForScale(p, s1).value <= LayerForScale(p, s2).value
  {
    if s1 > 0.0 {
      var l := LogMultiplier(p.math);
      LogMonotone(p.math, s1, s2);
      DivideByNegative(p.math.ln(s1), p.math.ln(s2), -l);
      var level1 := Max(p.math.ln(s1) / -l, 0.0);
      var level2 := Max(p.math.ln(s2) / -l, 0.0);
      FloorMonotone(level2 + LevelSlack, level1 + LevelSlack);
    }
  }

  /** The layer chosen for a layer's own scale is that layer. */
  lemma LayerForScaleOfScaleForLayer(p: Pyramid, layer: int)
    requires ValidMath(p.math) && 0 <= layer <= p.layerCount - 1
    ensures LayerForScale(p, ScaleForLayer(p, layer)) == Some(layer)
  {
    var k := LayerIndex(p, layer);
    var l := LogMultiplier(p.math);
    var pk := Power(p.math.sqrt2, k);
    LogReciprocal(p.math, pk);
    LogPower(p.math, p.math.sqrt2, k);
    var lnScale := p.math.ln(1.0 / pk);
    NegatedSteps(lnScale, l, k);
    assert Max(lnScale / -l, 0.0) == k as real;
    assert Floor(k as real + LevelSlack) == k;
  }

  /** Arithmetic behind `LayerForScaleOfScaleForLayer`, on plain numbers. */
  lemma NegatedSteps(lnScale: real, l: real, k: int)
    requires l > 0.0 && lnScale == -(k as real * l)
    ensures lnScale / -l == k as real
  {
    assert lnScale == k as real * -l;
    QuotientOfMultiple(k as real, -l);
  }

  // *** Tiles

  /** The side of a tile's source area before flooring: TileSize · √2^index. */
  function UnflooredExtent(p: Pyramid, layer: int): (e: real)
    requires ValidMath(p.math)
    ensures e > 0.0
  {
    TileSize * Power(p.math.sqrt2, LayerIndex(p, layer))
  }

  /** `tileExtent`: the floored side of a tile's source area, 256 at the
      last layer and at least 256 on every layer up to it. */
  function TileExtent(p: Pyramid, layer: int): (extent: int)
    requires ValidMath(p.math)
    ensures extent >= 0
    ensures extent as real <= UnflooredExtent(p, layer) < extent as real + 1.0
    ensures layer == p.layerCount - 1 ==> extent == 256
    ensures layer <= p.layerCount - 1 ==> extent >= 256
  {
    var k := LayerIndex(p, layer);
    PowerAgainstOne(p.math.sqrt2, k);
    Floor(TileSize * Power(p.math.sqrt2, k))
  }

  /** `tileGridSize`: columns and rows of tiles, each the image side over
      the extent, rounded up. A zero extent (a layer far beyond the last)
      makes the source divide by zero; the model answers `None` there. */
  function TileGridSize(p: Pyramid, layer: int): (grid: Option<Dimensions>)
    requires ValidMath(p.math)
    ensures grid.None? <==> TileExtent(p, layer) == 0
    ensures grid.Some? ==> GridCovers(grid.value.width, p.width, TileExtent(p, layer) as real)
    ensures grid.Some? ==> GridCovers(grid.value.height, p.height, TileExtent(p, layer) as real)
  {
    var extent := TileExtent(p, layer) as real;
    if extent == 0.0 then None
    else
      var columns, rows := Ceil(p.width / extent), Ceil(p.height / extent);
      CeilOfQuotient(p.width, extent, columns);
      CeilOfQuotient(p.height, extent, rows);
      Some(Dimensions(columns as real, rows as real))
  }

  /** `count` whole tiles of side `extent` cover `side`, and one fewer
      would not. */
  ghost predicate GridCovers(count: real, side: real, extent: real)
  {
    count == (count.Floor) as real && side <= count * extent && (count - 1.0) * extent < side
  }

  /** Every layer up to the last has a grid. */
  lemma GridExistsUpToLastLayer(p: Pyramid, layer: int)
    requires ValidMath(p.math) && layer <= p.layerCount - 1
    ensures TileGridSize(p, layer).Some?
  {
  }

  /** `tileSourceRectangle`: the extent × extent square of the full image
      at (extent · column, extent · row), not clipped to the image. */
  function TileSourceRectangle(p: Pyramid, column: int, row: int, layer: int): (r: Rectangle)
    requires ValidMath(p.math)
    ensures var extent := TileExtent(p, layer) as real;
            && r.left == extent * column as real && r.top == extent * row as real
            && RectangleDimensions(r) == Dimensions(extent, extent)
  {
    GridSquare(TileExtent(p, layer) as real, column, row)
  }

  /** The extent × extent square in column `column` and row `row` of a grid
      of such squares starting at the origin. */
  function GridSquare(extent: real, column: int, row: int): (r: Rectangle)
    ensures r.left == extent * column as real && r.top == extent * row as real
    ensures RectangleDimensions(r) == Dimensions(extent, extent)
  {
    var r := MakeRectangleWidthHeight(extent * column as real, extent * row as real, extent, extent);
    assert TopLeft(r) == Point(r.left, r.top);
    r
  }

  /** Source tiles of one layer sit edge to edge: the next column starts
      where this one ends, and likewise for rows. */
  lemma SourceTilesAdjoin(p: Pyramid, column: int, row: int, layer: int)
    requires ValidMath(p.math)
    ensures TileSourceRectangle(p, column + 1, row, layer).left == TileSourceRectangle(p, column, row, layer).right
    ensures TileSourceRectangle(p, column, row + 1, layer).top == TileSourceRectangle(p, column, row, layer).bottom
  {
    var e := TileExtent(p, layer) as real;
    assert e * (column + 1) as real == e * column as real + e;
    assert e * (row + 1) as real == e * row as real + e;
  }

  /** Every point lies in the source rectangle of the tile found by
      dividing its coordinates by the floored extent. */
  lemma PointInSourceTile(p: Pyramid, layer: int, point: Point)
    requires ValidMath(p.math) && TileExtent(p, layer) > 0
    ensures var e := TileExtent(p, layer) as real;
            ContainsPoint(TileSourceRectangle(p, Floor(point.x / e), Floor(point.y / e), layer), point)
  {
    var e := TileExtent(p, layer) as real;
    var c, r := Floor(point.x / e), Floor(point.y / e);
    FloorOfQuotient(point.x, e, c);
    FloorOfQuotient(point.y, e, r);
    assert (c + 1) as real * e == e * c as real + e;
    assert (r + 1) as real * e == e * r as real + e;
  }

  /** A number as JavaScript computes it: finite, or NaN. */
  datatype JsNumber = Finite(value: real) | NaN

  /** `clippedDimensions`. The source reads `width` and `height` from the
      intersected rectangle, which has neither, so both divisions and both
      ceilings are NaN whatever the arguments. */
  function ClippedDimensions(p: Pyramid, column: int, row: int, layer: int): (d: (JsNumber, JsNumber))
    requires ValidMath(p.math)
    ensures d.0 == NaN && d.1 == NaN
  {
    var scale := Power(p.math.sqrt2, LayerIndex(p, layer));
    var tileRect := TileSourceRectangle(p, column, row, layer);
    var sceneRect := MakeRectangleWidthHeight(0.0, 0.0, p.width, p.height);
    var clippedTile := Intersect(tileRect, sceneRect);
    var missingWidth, missingHeight := NaN, NaN;
    (CeilNumber(DivideNumber(missingWidth, scale)), CeilNumber(DivideNumber(missingHeight, scale)))
  }

  /** `/` on a number that may be NaN, by a positive divisor. */
  function DivideNumber(n: JsNumber, d: real): (q: JsNumber)
    requires d > 0.0
    ensures q.NaN? <==> n.NaN?
  {
    match n
    case NaN => NaN
    case Finite(v) => Finite(v / d)
  }

  /** `Math.ceil` on a number that may be NaN. */
  function CeilNumber(n: JsNumber): (c: JsNumber)
    ensures c.NaN? <==> n.NaN?
  {
    match n
    case NaN => NaN
    case Finite(v) => Finite(Ceil(v) as real)
  }

  /** `tileColumn`: the column holding `x`, by the UNFLOORED extent. */
  function TileColumn(p: Pyramid, x: real, layer: int): (column: int)
    requires ValidMath(p.math)
    ensures (column as real) * UnflooredExtent(p, layer) <= x < ((column + 1) as real) * UnflooredExtent(p, layer)
  {
    var extent := UnflooredExtent(p, layer);
    FloorOfQuotient(x, extent, Floor(x / extent));
    Floor(x / extent)
  }

  /** `tileRow`: the row holding `y`, by the unfloored extent. */
  function TileRow(p: Pyramid, y: real, layer: int): (row: int)
    requires ValidMath(p.math)
    ensures (row as real) * UnflooredExtent(p, layer) <= y < ((row + 1) as real) * UnflooredExtent(p, layer)
  {
    var extent := UnflooredExtent(p, layer);
    FloorOfQuotient(y, extent, Floor(y / extent));
    Floor(y / extent)
  }

  /** Columns and rows never decrease as the coordinate grows. */
  lemma TileColumnMonotone(p: Pyramid, x1: real, x2: real, layer: int)
    requires ValidMath(p.math) && x1 <= x2
    ensures TileColumn(p, x1, layer) <= TileColumn(p, x2, layer)
    ensures TileRow(p, x1, layer) <= TileRow(p, x2, layer)
  {
    var e := UnflooredExtent(p, layer);
    CellIndexMonotone(x1, x2, e, TileColumn(p, x1, layer), TileColumn(p, x2, layer));
    CellIndexMonotone(x1, x2, e, TileRow(p, x1, layer), TileRow(p, x2, layer));
  }

  /** Two coordinates in order lie in cells of width `e` in order. */
  lemma CellIndexMonotone(x1: real, x2: real, e: real, c1: int, c2: int)
    requires e > 0.0 && x1 <= x2
    requires (c1 as real) * e <= x1 && x2 < ((c2 + 1) as real) * e
    ensures c1 <= c2
  {
    if c2 < c1 {
      ScaleOrder((c2 + 1) as real, c1 as real, e);
    }
  }

  // *** Enumerating tiles

  /** A column or row index clamped into a grid of `size` entries. */
  function ClampIndex(index: int, size: int): (c: int)
    ensures 0 <= c
    ensures size >= 1 ==> c <= size - 1
    ensures 0 <= index <= size - 1 ==> c == index
  {
    MaxInt(0, MinInt(index, size - 1))
  }

  /** The cells of one row, columns `left` to `right`, in order. */
  function RowCells(row: int, left: int, right: int): seq<(int, int)>
    decreases right - left + 1
  {
    if left > right then [] else RowCells(row, left, right - 1) + [(right, row)]
  }

  /** Rows `top` to `bottom`, each from column `left` to `right`: rows
      outer, columns inner. */
  function RowMajor(top: int, bottom: int, left: int, right: int): seq<(int, int)>
    decreases bottom - top + 1
  {
    if top > bottom then [] else RowMajor(top, bottom - 1, left, right) + RowCells(bottom, left, right)
  }

  /** The clamped column and row range `forTiles` enumerates. */
  datatype TileSpan = TileSpan(left: int, right: int, top: int, bottom: int)

  function ForTilesSpan(p: Pyramid, rectangle: Rectangle, layer: int): (span: TileSpan)
    requires ValidMath(p.math) && TileExtent(p, layer) > 0
    ensures var grid := TileGridSize(p, layer).value;
            && 0 <= span.left && 0 <= span.right && 0 <= span.top && 0 <= span.bottom
            && (grid.width >= 1.0 ==> span.left as real <= grid.width - 1.0 && span.right as real <= grid.width - 1.0)
            && (grid.height >= 1.0 ==> span.top as real <= grid.height - 1.0 && span.bottom as real <= grid.height - 1.0)
  {
    var grid := TileGridSize(p, layer).value;
    var columns, rows := grid.width.Floor, grid.height.Floor;
    TileSpan(
      ClampIndex(TileColumn(p, rectangle.left, layer), columns),
      ClampIndex(TileColumn(p, rectangle.right, layer), columns),
      ClampIndex(TileRow(p, rectangle.top, layer), rows),
      ClampIndex(TileRow(p, rectangle.bottom, layer), rows))
  }

  /** `forTiles`: the (column, row) pairs handed to the callback, in call
      order. The callback's other arguments, the layer number and `this`,
      are the same on every call. Layers whose floored extent is zero are
      excluded (see `TileGridSize`). */
  method ForTiles(p: Pyramid, rectangle: Rectangle, layer: int) returns (visits: seq<(int, int)>)
    requires ValidMath(p.math) && TileExtent(p, layer) > 0
    ensures var span := ForTilesSpan(p, rectangle, layer);
            visits == RowMajor(span.top, span.bottom, span.left, span.right)
  {
    var gridSize := TileGridSize(p, layer).value;
    var columns, rows := gridSize.width.Floor, gridSize.height.Floor;
    var left := TileColumn(p, rectangle.left, layer);
    left := MaxInt(0, MinInt(left, columns - 1));
    var right := TileColumn(p, rectangle.right, layer);
    right := MaxInt(0, MinInt(right, columns - 1));
    var top := TileRow(p, rectangle.top, layer);
    top := MaxInt(0, MinInt(top, rows - 1));
    var bottom := TileRow(p, rectangle.bottom, layer);
    bottom := MaxInt(0, MinInt(bottom, rows - 1));

    visits := [];
    var row := top;
    while row <= bottom
      invariant top <= row && (row <= bottom + 1 || row == top)
      invariant visits == RowMajor(top, row - 1, left, right)
    {
      var column := left;
      while column <= right
        invariant left <= column && (column <= right + 1 || column == left)
        invariant visits == RowMajor(top, row - 1, left, right) + RowCells(row, left, column - 1)
      {
        visits := visits + [(column, row)];
        column := column + 1;
      }
      assert RowCells(row, left, column - 1) == RowCells(row, left, right);
      row := row + 1;
    }
    assert RowMajor(top, row - 1, left, right) == RowMajor(top, bottom, left, right);
  }

  /** A row holds each of its cells exactly once and nothing else. */
  lemma {:induction false} RowCellsOnce(row: int, left: int, right: int, cell: (int, int))
    ensures multiset(RowCells(row, left, right))[cell] ==
              if cell.1 == row && left <= cell.0 <= right then 1 else 0
    decreases right - left + 1
  {
    if left <= right {
      RowCellsOnce(row, left, right - 1, cell);
    }
  }

  /** The enumeration visits each (column, row) of the span exactly once,
      and nothing outside it. */
  lemma {:induction false} RowMajorOnce(top: int, bottom: int, left: int, right: int, cell: (int, int))
    ensures multiset(RowMajor(top, bottom, left, right))[cell] ==
              if top <= cell.1 <= bottom && left <= cell.0 <= right then 1 else 0
    decreases bottom - top + 1
  {
    if top <= bottom {
      RowMajorOnce(top, bottom - 1, left, right, cell);
      RowCellsOnce(bottom, left, right, cell);
    }
  }

  /** For a rectangle whose edges are in order, `forTiles` visits at least
      one tile: the clamped ends stay in order. */
  lemma ForTilesNonEmpty(p: Pyramid, rectangle: Rectangle, layer: int)
    requires ValidMath(p.math) && TileExtent(p, layer) > 0
    requires rectangle.left <= rectangle.right && rectangle.top <= rectangle.bottom
    ensures var span := ForTilesSpan(p, rectangle, layer);
            span.left <= span.right && span.top <= span.bottom
            && |RowMajor(span.top, span.bottom, span.left, span.right)| > 0
  {
    var span := ForTilesSpan(p, rectangle, layer);
    TileColumnMonotone(p, rectangle.left, rectangle.right, layer);
    TileColumnMonotone(p, rectangle.top, rectangle.bottom, layer);
    RowMajorOnce(span.top, span.bottom, span.left, span.right, (span.left, span.top));
  }
}
