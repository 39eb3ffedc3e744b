/** The Python tiler's pyramid, tiler/tiler-v02/tiled_image/pyramid.py:
    the same tile pyramid as `Pyramids`, with a tile of any width and
    height and any resolution multiplier. The layer count is fixed in the
    constructor, so the pyramid is a value and every method a function.
    Python raises where the host's logarithm or a division fails; the model
    returns those exceptions as `Failure` with Python's message. */
module PyPyramids {
  import opened Wrappers
  import opened Numerics
  import Pyramids

  /** `ValueError` from `math.log` of a number that is not positive. */
  const DomainError: string := "math domain error"

  /** `ZeroDivisionError` from a float division by zero. */
  const ZeroDivision: string := "float division by zero"

  /** The slack `layerForScale` adds before taking the floor. */
  const LevelSlack: real := 0.0000001

  /** A `Pyramid` once constructed: image and tile sizes are the integer
      sizes the tiler passes, `multiplier` the resolution multiplier. */
  datatype PyPyramid = PyPyramid(
    imageWidth: int, imageHeight: int,
    tileWidth: int, tileHeight: int,
    multiplier: real, layerCount: int, math: HostMath)

  /** The steps of one axis, as `initializeLayerCount` computes them. */
  function AxisSteps(image: int, tile: int, multiplier: real, math: HostMath): real
    requires math.ln(multiplier) != 0.0
  {
    Pyramids.Steps(image as real, tile as real, multiplier, math)
  }

  /** `initializeLayerCount`, in Python's evaluation order: the logarithm of
      the multiplier, then the width axis (two logarithms and a division),
      then the height axis. */
  function InitializeLayerCount(imageWidth: int, imageHeight: int, tileWidth: int, tileHeight: int,
                                multiplier: real, math: HostMath): (count: Result<int, string>)
    requires ValidMath(math)
    ensures count.Failure? <==>
              multiplier <= 0.0 || multiplier == 1.0 ||
              imageWidth <= 0 || tileWidth <= 0 || imageHeight <= 0 || tileHeight <= 0
    ensures count.Failure? && multiplier > 0.0 && imageWidth > 0 && tileWidth > 0 ==>
              count.error == (if multiplier == 1.0 then ZeroDivision else DomainError)
  {
    if multiplier <= 0.0 then Failure(DomainError)
    else if imageWidth <= 0 || tileWidth <= 0 then Failure(DomainError)
    else
      LogSign(math, multiplier);
      if math.ln(multiplier) == 0.0 then Failure(ZeroDivision)
      else if imageHeight <= 0 || tileHeight <= 0 then Failure(DomainError)
      else
        var widthLayers := AxisSteps(imageWidth, tileWidth, multiplier, math);
        var heightLayers := AxisSteps(imageHeight, tileHeight, multiplier, math);
        Success(Ceil(Max(widthLayers, heightLayers)) + 1)
  }

  /** `Pyramid(image_size, tile_size, resolution_multiplier)`. */
  function NewPyramid(imageWidth: int, imageHeight: int, tileWidth: int, tileHeight: int,
                      multiplier: real, math: HostMath): (p: Result<PyPyramid, string>)
    requires ValidMath(math)
    ensures p.Success? <==> InitializeLayerCount(imageWidth, imageHeight, tileWidth, tileHeight, multiplier, math).Success?
    ensures p.Success? ==> Constructed(p.value)
    ensures p.Success? ==>
              && p.value.imageWidth == imageWidth && p.value.imageHeight == imageHeight
              && p.value.tileWidth == tileWidth && p.value.tileHeight == tileHeight
              && p.value.multiplier == multiplier
  {
    match InitializeLayerCount(imageWidth, imageHeight, tileWidth, tileHeight, multiplier, math)
    case Failure(e) => Failure(e)
    case Success(count) =>
      Success(PyPyramid(imageWidth, imageHeight, tileWidth, tileHeight, multiplier, count, math))
  }

  /** `Pyramid(image_size)` with the default 256 × 256 tile and √2. */
  function DefaultPyramid(imageWidth: int, imageHeight: int, math: HostMath): (p: Result<PyPyramid, string>)
    requires ValidMath(math)
    ensures p.Success? <==> imageWidth > 0 && imageHeight > 0
  {
    NewPyramid(imageWidth, imageHeight, 256, 256, math.sqrt2, math)
  }

  /** What every constructed pyramid satisfies: sizes and multiplier
      positive, the multiplier's logarithm non-zero. */
  ghost predicate Valid(p: PyPyramid)
  {
    && ValidMath(p.math)
    && p.multiplier > 0.0 && p.math.ln(p.multiplier) != 0.0
    && p.imageWidth > 0 && p.imageHeight > 0 && p.tileWidth > 0 && p.tileHeight > 0
  }

  /** A pyramid as the constructor leaves it: valid, with the layer count
      `initializeLayerCount` stores. */
  ghost predicate Constructed(p: PyPyramid)
  {
    Valid(p) && p.layerCount == LayerCountOf(p)
  }

  /** The layer count `initializeLayerCount` stores when nothing raises. */
  function LayerCountOf(p: PyPyramid): int
    requires p.math.ln(p.multiplier) != 0.0
  {
    var widthLayers := AxisSteps(p.imageWidth, p.tileWidth, p.multiplier, p.math);
    var heightLayers := AxisSteps(p.imageHeight, p.tileHeight, p.multiplier, p.math);
    Ceil(Max(widthLayers, heightLayers)) + 1
  }

  /** A tile of side `tile` grown by `k` multiplier-steps spans `side`. */
  ghost predicate Spans(tile: int, base: real, k: int, side: int)
    requires base > 0.0
  {
    tile as real * Power(base, k) >= side as real
  }

  /** With a multiplier above one, the layer count is the fewest layers
      whose layer 0 tile covers the image: `layerCount − 1` steps span
      both axes and one step fewer does not span the longer one. */
  lemma LayerCountCoversImage(p: PyPyramid)
    requires Constructed(p) && p.multiplier > 1.0
    ensures Spans(p.tileWidth, p.multiplier, p.layerCount - 1, p.imageWidth)
    ensures Spans(p.tileHeight, p.multiplier, p.layerCount - 1, p.imageHeight)
    ensures !Spans(p.tileWidth, p.multiplier, p.layerCount - 2, p.imageWidth)
         || !Spans(p.tileHeight, p.multiplier, p.layerCount - 2, p.imageHeight)
  {
    var m := p.multiplier;
    LogSign(p.math, m);
    var w := AxisSteps(p.imageWidth, p.tileWidth, m, p.math);
    var h := AxisSteps(p.imageHeight, p.tileHeight, m, p.math);
    AxisCovers(p.imageWidth, p.tileWidth, m, p.math, p.layerCount - 1);
    AxisCovers(p.imageHeight, p.tileHeight, m, p.math, p.layerCount - 1);
    if w >= h {
      AxisShort(p.imageWidth, p.tileWidth, m, p.math, p.layerCount - 2);
    } else {
      AxisShort(p.imageHeight, p.tileHeight, m, p.math, p.layerCount - 2);
    }
  }

  /** One axis of `LayerCountCoversImage`: `k` steps span the side when `k`
      is at least the side's step count. */
  lemma AxisCovers(image: int, tile: int, m: real, math: HostMath, k: int)
    requires ValidMath(math) && image > 0 && tile > 0 && m > 1.0
    requires (LogSign(math, m); AxisSteps(image, tile, m, math) <= k as real)
    ensures Spans(tile, m, k, image)
  {
    LogSign(math, m);
    Pyramids.StepsCover(image as real, tile as real, m, math, k);
  }

  /** The other half: `k` steps do not span the side when its step count
      is above `k`. */
  lemma AxisShort(image: int, tile: int, m: real, math: HostMath, k: int)
    requires ValidMath(math) && image > 0 && tile > 0 && m > 1.0
    requires (LogSign(math, m); k as real < AxisSteps(image, tile, m, math))
    ensures !Spans(tile, m, k, image)
  {
    LogSign(math, m);
    Pyramids.StepsShort(image as real, tile as real, m, math, k);
  }

  /** How many multiplier-steps `layer` lies below the last layer. */
  function LayerIndex(p: PyPyramid, layer: int): int
  {
    p.layerCount - layer - 1
  }

  /** `scaleForLayer`: 1 / multiplier^(layer's distance below the last). */
  function ScaleForLayer(p: PyPyramid, layer: int): (scale: real)
    requires Valid(p)
    ensures scale > 0.0
    ensures layer == p.layerCount - 1 ==> scale == 1.0
  {
    1.0 / Power(p.multiplier, LayerIndex(p, layer))
  }

  /** `layerForScale`: `log` of a scale that is not positive raises; the
      result is never below 0 but, unlike the browser's version, is not
      clamped above the last layer. */
  function LayerForScale(p: PyPyramid, scale: real): (layer: Result<int, string>)
    requires Valid(p)
    ensures layer.Failure? <==> scale <= 0.0
    ensures layer.Failure? ==> layer.error == DomainError
    ensures layer.Success? ==> layer.value >= 0
  {
    if scale <= 0.0 then Failure(DomainError)
    else
      LogSign(p.math, p.multiplier);
      var lastLayer := p.layerCount - 1;
      var level := p.math.ln(scale) / -p.math.ln(p.multiplier);
      Success(MaxInt(lastLayer - Floor(level + LevelSlack), 0))
  }

  /** The layer chosen for any layer's own scale is that layer, for every
      layer from 0 up, including layers past the last. */
  lemma LayerForScaleOfScaleForLayer(p: PyPyramid, layer: int)
    requires Valid(p) && layer >= 0
    ensures LayerForScale(p, ScaleForLayer(p, layer)) == Success(layer)
  {
    var k := LayerIndex(p, layer);
    var m := p.multiplier;
    LogSign(p.math, m);
    var pk := Power(m, k);
    LogReciprocal(p.math, pk);
    LogPower(p.math, m, k);
    var lnScale := p.math.ln(1.0 / pk);
    ReciprocalSteps(lnScale, p.math.ln(m), k);
    assert Floor(k as real + LevelSlack) == k;
  }

  /** Arithmetic behind `LayerForScaleOfScaleForLayer`, on plain numbers. */
  lemma ReciprocalSteps(lnScale: real, l: real, k: int)
    requires l != 0.0 && lnScale == -(k as real * l)
    ensures lnScale / -l == k as real
  {
    assert lnScale == k as real * -l;
    QuotientOfMultiple(k as real, -l);
  }

  /** Without the upper clamp, zooming in past full resolution by one
      multiplier step or more selects a layer beyond the last. */
  lemma LayerForScaleBeyondLast(p: PyPyramid, scale: real)
    requires Valid(p) && p.multiplier > 1.0 && scale >= p.multiplier && p.layerCount >= 0
    ensures LayerForScale(p, scale).Success?
    ensures LayerForScale(p, scale).value >= p.layerCount
  {
    var m := p.multiplier;
    LogSign(p.math, m);
    var l := p.math.ln(m);
    LogMonotone(p.math, m, scale);
    var level := p.math.ln(scale) / -l;
    LevelAtMostMinusOne(p.math.ln(scale), l, level);
    FloorMonotone(level + LevelSlack, -1.0 + LevelSlack);
  }

  /** Arithmetic behind `LayerForScaleBeyondLast`: a logarithm of at least
      one step gives a level of at most -1. */
  lemma LevelAtMostMinusOne(lnScale: real, l: real, level: real)
    requires l > 0.0 && lnScale >= l && level == lnScale / -l
    ensures level <= -1.0
  {
    QuotientBound(-1.0, -lnScale, l);
    assert level == -lnScale / l;
  }

  /** `tileExtent`: per axis, the tile side times multiplier^index,
      truncated by `int`; at the last layer, the tile size itself. */
  function TileExtent(p: PyPyramid, layer: int): (extent: (int, int))
    requires Valid(p)
    ensures extent.0 >= 0 && extent.1 >= 0
    ensures extent.0 as real <= AxisExtent(p, p.tileWidth, layer) < extent.0 as real + 1.0
    ensures extent.1 as real <= AxisExtent(p, p.tileHeight, layer) < extent.1 as real + 1.0
    ensures layer == p.layerCount - 1 ==> extent == (p.tileWidth, p.tileHeight)
  {
    (TruncatedSide(p, p.tileWidth, layer), TruncatedSide(p, p.tileHeight, layer))
  }

  /** One axis of `tileExtent`. */
  function TruncatedSide(p: PyPyramid, tile: int, layer: int): (side: int)
    requires Valid(p) && tile > 0
    ensures side >= 0
    ensures side as real <= AxisExtent(p, tile, layer) < side as real + 1.0
    ensures layer == p.layerCount - 1 ==> side == tile
  {
    var e := AxisExtent(p, tile, layer);
    assert layer == p.layerCount - 1 ==> e == tile as real;
    Trunc(e)
  }

  /** `tileGridSize`: columns and rows, each the image side over the extent
      rounded up; an extent truncated to 0 divides by zero. */
  function TileGridSize(p: PyPyramid, layer: int): (grid: Result<(int, int), string>)
    requires Valid(p)
    ensures grid.Failure? <==> TileExtent(p, layer).0 == 0 || TileExtent(p, layer).1 == 0
    ensures grid.Failure? ==> grid.error == ZeroDivision
    ensures grid.Success? ==>
              var e := TileExtent(p, layer);
              && p.imageWidth as real <= (grid.value.0 as real) * (e.0 as real)
              && ((grid.value.0 - 1) as real) * (e.0 as real) < p.imageWidth as real
              && p.imageHeight as real <= (grid.value.1 as real) * (e.1 as real)
              && ((grid.value.1 - 1) as real) * (e.1 as real) < p.imageHeight as real
  {
    var extent := TileExtent(p, layer);
    if extent.0 == 0 || extent.1 == 0 then Failure(ZeroDivision)
    else
      Success((GridAxis(p.imageWidth, extent.0), GridAxis(p.imageHeight, extent.1)))
  }

  /** One axis of `tileGridSize`: `ceil(float(image) / extent)`, the fewest
      whole extents that reach the image side. */
  function GridAxis(image: int, extent: int): (count: int)
    requires extent > 0
    ensures image as real <= (count as real) * (extent as real)
    ensures ((count - 1) as real) * (extent as real) < image as real
  {
    var count := Ceil(image as real / extent as real);
    CeilOfQuotient(image as real, extent as real, count);
    count
  }

  /** The untruncated side of a tile's source area along one axis. */
  function AxisExtent(p: PyPyramid, tile: int, layer: int): (e: real)
    requires Valid(p) && tile > 0
    ensures e > 0.0
    ensures layer == p.layerCount - 1 ==> e == tile as real
  {
    var scale := Power(p.multiplier, LayerIndex(p, layer));
    PositiveProduct(tile as real, scale);
    tile as real * scale
  }

  /** `tileColumn`: the column holding `x`, by the untruncated extent. */
  function TileColumn(p: PyPyramid, x: real, layer: int): (column: int)
    requires Valid(p)
    ensures (column as real) * AxisExtent(p, p.tileWidth, layer) <= x
    ensures x < ((column + 1) as real) * AxisExtent(p, p.tileWidth, layer)
  {
    var extent := AxisExtent(p, p.tileWidth, layer);
    FloorOfQuotient(x, extent, Floor(x / extent));
    Floor(x / extent)
  }

  /** `tileRow`: the row holding `y`, by the untruncated extent. */
  function TileRow(p: PyPyramid, y: real, layer: int): (row: int)
    requires Valid(p)
    ensures (row as real) * AxisExtent(p, p.tileHeight, layer) <= y
    ensures y < ((row + 1) as real) * AxisExtent(p, p.tileHeight, layer)
  {
    var extent := AxisExtent(p, p.tileHeight, layer);
    FloorOfQuotient(y, extent, Floor(y / extent));
    Floor(y / extent)
  }

  /** Columns and rows never decrease as the coordinate grows. */
  lemma TileColumnRowMonotone(p: PyPyramid, a: real, b: real, layer: int)
    requires Valid(p) && a <= b
    ensures TileColumn(p, a, layer) <= TileColumn(p, b, layer)
    ensures TileRow(p, a, layer) <= TileRow(p, b, layer)
  {
    ColumnMonotone(p, a, b, layer);
    RowMonotone(p, a, b, layer);
  }

  lemma ColumnMonotone(p: PyPyramid, a: real, b: real, layer: int)
    requires Valid(p) && a <= b
    ensures TileColumn(p, a, layer) <= TileColumn(p, b, layer)
  {
    var column1, column2 := TileColumn(p, a, layer), TileColumn(p, b, layer);
    Pyramids.CellIndexMonotone(a, b, AxisExtent(p, p.tileWidth, layer), column1, column2);
  }

  lemma RowMonotone(p: PyPyramid, a: real, b: real, layer: int)
    requires Valid(p) && a <= b
    ensures TileRow(p, a, layer) <= TileRow(p, b, layer)
  {
    var row1, row2 := TileRow(p, a, layer), TileRow(p, b, layer);
    Pyramids.CellIndexMonotone(a, b, AxisExtent(p, p.tileHeight, layer), row1, row2);
  }
}
