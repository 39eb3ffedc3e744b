/** The tiled image of js/tiled_image.js: one `Layer` per pyramid layer,
    each holding a rows × columns grid of tiles made on first use and the
    list of tiles it currently shows; the `TiledImage` draws the layers up
    to the one the viewport's scale selects and hides the rest. The DOM
    effects of a tile (its image element made, drawn at a position, hidden)
    are appended to the layer's event log. */
module TiledImages {
  import opened Wrappers
  import opened Numerics
  import opened Geometry
  import opened Pyramids
  import opened NumberTexts
  import P = Polygons
  import O = Observers
  import V = Viewports

  // *** Padding

  /** `pad`'s result: `text` left-filled with '0' to at least `width`
      characters; text already that long is returned as it is. */
  function PadText(text: string, width: int): (padded: string)
    ensures |padded| == MaxInt(width, |text|)
    ensures padded[|padded| - |text|..] == text
    ensures forall i :: 0 <= i < |padded| - |text| ==> padded[i] == '0'
    decreases width - |text|
  {
    if |text| >= width then text else PadText("0" + text, width)
  }

  /** `pad(number, width)`: prepends '0' while the text is shorter than
      `width`. */
  method Pad(number: int, width: int) returns (text: string)
    ensures text == PadText(NumberText(number), width)
  {
    text := "" + NumberText(number);
    assert text == NumberText(number);
    while |text| < width
      invariant PadText(text, width) == PadText(NumberText(number), width)
      decreases width - |text|
    {
      text := "0" + text;
    }
    assert PadText(text, width) == text;
  }

  /** Leading zeros do not change a number's value. */
  lemma {:induction false} LeadingZero(s: string)
    ensures ParseDecimal("0" + s) == ParseDecimal(s)
    decreases |s|
  {
    if s != [] {
      var z := "0" + s;
      assert z[..|z| - 1] == "0" + s[..|s| - 1];
      LeadingZero(s[..|s| - 1]);
    } else {
      assert ("0" + s)[..0] == [];
    }
  }

  /** Padding keeps the value of a decimal text. */
  lemma {:induction false} PadKeepsValue(text: string, width: int)
    ensures ParseDecimal(PadText(text, width)) == ParseDecimal(text)
    decreases width - |text|
  {
    if |text| < width {
      PadKeepsValue("0" + text, width);
      LeadingZero(text);
    }
  }

  /** A number below 10000 padded to four digits. */
  lemma PadFour(n: int)
    requires 0 <= n < 10000
    ensures |PadText(NumberText(n), 4)| == 4
    ensures ParseDecimal(PadText(NumberText(n), 4)) == n
  {
    DecimalWidth(n, 4);
    PadKeepsValue(Decimal(n), 4);
    DecimalRoundTrip(n);
  }

  // *** Tiles

  /** A tile: its layer, column and row. Its `tile_url` is `TileUrl` of
      these and the image URL; its image element is DOM state and is not
      kept here. */
  datatype Tile = Tile(layer: int, column: int, row: int)

  /** The tile URL `makeTile` builds: row before column, each number
      padded to four digits. */
  function TileUrl(imageUrl: string, layer: int, column: int, row: int): (url: string)
    ensures |url| >= |imageUrl| + 28
    ensures url[..|imageUrl| + 6] == imageUrl + "/layer"
    ensures url[|url| - 4..] == ".jpg"
  {
    UrlEnds(imageUrl, PadText(NumberText(layer), 4), PadText(NumberText(row), 4), PadText(NumberText(column), 4));
    imageUrl + "/layer" + PadText(NumberText(layer), 4)
      + "/tile" + PadText(NumberText(row), 4) + "n" + PadText(NumberText(column), 4) + ".jpg"
  }

  /** A URL built from fields at least four characters wide starts with
      the image URL and "/layer" and ends in ".jpg". */
  lemma UrlEnds(imageUrl: string, layerText: string, rowText: string, columnText: string)
    requires |layerText| >= 4 && |rowText| >= 4 && |columnText| >= 4
    ensures var url := imageUrl + "/layer" + layerText + "/tile" + rowText + "n" + columnText + ".jpg";
            && |url| >= |imageUrl| + 28
            && url[..|imageUrl| + 6] == imageUrl + "/layer"
            && url[|url| - 4..] == ".jpg"
  {
    var url := imageUrl + "/layer" + layerText + "/tile" + rowText + "n" + columnText + ".jpg";
    assert url[..|imageUrl| + 6] == imageUrl + "/layer";
    assert url[|url| - 4..] == ".jpg";
  }

  /** `makeTile`: the tile and its URL. */
  function MakeTile(imageUrl: string, layer: int, column: int, row: int): (made: (Tile, string))
    ensures made.0.layer == layer && made.0.column == column && made.0.row == row
    ensures made.1 == TileUrl(imageUrl, layer, column, row)
  {
    (Tile(layer, column, row), TileUrl(imageUrl, layer, column, row))
  }

  /** For numbers below 10000 the URL has fixed fields, and reading them
      gives back the layer, row and column. */
  lemma TileUrlFields(imageUrl: string, layer: int, column: int, row: int)
    requires 0 <= layer < 10000 && 0 <= column < 10000 && 0 <= row < 10000
    ensures var url := TileUrl(imageUrl, layer, column, row);
            var b := |imageUrl|;
            && |url| == b + 28
            && url[..b] == imageUrl
            && url[b..b + 6] == "/layer"
            && ParseDecimal(url[b + 6..b + 10]) == layer
            && url[b + 10..b + 15] == "/tile"
            && ParseDecimal(url[b + 15..b + 19]) == row
            && url[b + 19..b + 20] == "n"
            && ParseDecimal(url[b + 20..b + 24]) == column
            && url[b + 24..] == ".jpg"
  {
    PadFour(layer);
    PadFour(row);
    PadFour(column);
    UrlLayout(imageUrl, PadText(NumberText(layer), 4), PadText(NumberText(row), 4), PadText(NumberText(column), 4));
  }

  /** Where each part of a tile URL sits, for four-character numbers. */
  lemma UrlLayout(imageUrl: string, layerText: string, rowText: string, columnText: string)
    requires |layerText| == 4 && |rowText| == 4 && |columnText| == 4
    ensures var url := imageUrl + "/layer" + layerText + "/tile" + rowText + "n" + columnText + ".jpg";
            var b := |imageUrl|;
            && |url| == b + 28
            && url[..b] == imageUrl
            && url[b..b + 6] == "/layer"
            && url[b + 6..b + 10] == layerText
            && url[b + 10..b + 15] == "/tile"
            && url[b + 15..b + 19] == rowText
            && url[b + 19..b + 20] == "n"
            && url[b + 20..b + 24] == columnText
            && url[b + 24..] == ".jpg"
  {
  }

  /** Two tiles of one image with numbers below 10000 have the same URL
      only when they are the same tile. */
  lemma TileUrlInjective(imageUrl: string, layer1: int, column1: int, row1: int,
                         layer2: int, column2: int, row2: int)
    requires 0 <= layer1 < 10000 && 0 <= column1 < 10000 && 0 <= row1 < 10000
    requires 0 <= layer2 < 10000 && 0 <= column2 < 10000 && 0 <= row2 < 10000
    requires TileUrl(imageUrl, layer1, column1, row1) == TileUrl(imageUrl, layer2, column2, row2)
    ensures layer1 == layer2 && column1 == column2 && row1 == row2
  {
    TileUrlFields(imageUrl, layer1, column1, row1);
    TileUrlFields(imageUrl, layer2, column2, row2);
  }

  // *** The tile grid

  /** A layer's `tiles`: rows of columns, each slot empty (`null`) or
      holding the tile made for it. */
  type Grid = seq<seq<Option<Tile>>>

  ghost predicate GridShape(tiles: Grid, rows: int, columns: int)
  {
    |tiles| == rows && forall r :: 0 <= r < |tiles| ==> |tiles[r]| == columns
  }

  predicate InGrid(tiles: Grid, column: int, row: int)
  {
    0 <= row < |tiles| && 0 <= column < |tiles[row]|
  }

  /** Every stored tile is the one `makeTile` makes for its slot. */
  ghost predicate Coherent(tiles: Grid, layer: int)
  {
    forall r, c :: 0 <= r < |tiles| && 0 <= c < |tiles[r]| && tiles[r][c].Some? ==>
      tiles[r][c].value == Tile(layer, c, r)
  }

  /** The rows × columns grid with every slot empty. */
  function BlankGrid(rows: nat, columns: nat): (g: Grid)
    ensures GridShape(g, rows, columns)
    ensures forall r, c :: 0 <= r < |g| && 0 <= c < |g[r]| ==> g[r][c].None?
  {
    seq(rows, _ => seq(columns, _ => None))
  }

  /** A grid of that shape with every slot empty is the blank grid. */
  lemma OnlyBlankGrid(tiles: Grid, rows: nat, columns: nat)
    requires GridShape(tiles, rows, columns)
    requires forall r, c :: 0 <= r < |tiles| && 0 <= c < |tiles[r]| ==> tiles[r][c].None?
    ensures tiles == BlankGrid(rows, columns)
  {
    var blank := BlankGrid(rows, columns);
    forall r | 0 <= r < rows
      ensures tiles[r] == blank[r]
    {
      assert forall c :: 0 <= c < columns ==> tiles[r][c] == blank[r][c];
    }
  }

  /** `initializeTiles`: a rows × columns grid with every slot empty. */
  method EmptyGrid(rows: nat, columns: nat) returns (tiles: Grid)
    ensures tiles == BlankGrid(rows, columns)
  {
    tiles := [];
    var row := 0;
    while row < rows
      invariant row <= rows && GridShape(tiles, row, columns)
      invariant forall r, c :: 0 <= r < |tiles| && 0 <= c < |tiles[r]| ==> tiles[r][c].None?
    {
      var rowTiles: seq<Option<Tile>> := [];
      var col := 0;
      while col < columns
        invariant col <= columns && |rowTiles| == col
        invariant forall c :: 0 <= c < |rowTiles| ==> rowTiles[c].None?
      {
        rowTiles := rowTiles + [None];
        col := col + 1;
      }
      tiles := tiles + [rowTiles];
      row := row + 1;
    }
    OnlyBlankGrid(tiles, rows, columns);
  }

  /** The grid once `drawTile` has visited `cell` = (column, row): the
      slot holds its tile, made now if it was empty. */
  function FillCell(tiles: Grid, layer: int, cell: (int, int)): Grid
  {
    if InGrid(tiles, cell.0, cell.1)
    then tiles[cell.1 := tiles[cell.1][cell.0 := Some(Tile(layer, cell.0, cell.1))]]
    else tiles
  }

  /** The grid once `drawTile` has visited each of `cells` in turn. */
  function FillCells(tiles: Grid, layer: int, cells: seq<(int, int)>): Grid
    decreases |cells|
  {
    if cells == [] then tiles
    else FillCell(FillCells(tiles, layer, cells[..|cells| - 1]), layer, cells[|cells| - 1])
  }

  /** After a run of visits, every visited slot holds its tile and every
      other slot is as it was; the grid keeps its shape. */
  lemma {:induction false} FillCellsAt(tiles: Grid, layer: int, cells: seq<(int, int)>,
                                       column: int, row: int)
    requires InGrid(tiles, column, row)
    ensures var filled := FillCells(tiles, layer, cells);
            && |filled| == |tiles| && |filled[row]| == |tiles[row]|
            && filled[row][column] ==
                 if (column, row) in cells then Some(Tile(layer, column, row)) else tiles[row][column]
    decreases |cells|
  {
    if cells != [] {
      var prefix := cells[..|cells| - 1];
      var last := cells[|cells| - 1];
      FillCellsAt(tiles, layer, prefix, column, row);
      var before := FillCells(tiles, layer, prefix);
      FillCellShape(before, layer, last, row);
      assert cells == prefix + [last];
      assert (column, row) in cells <==> (column, row) in prefix || last == (column, row);
      var filled := FillCell(before, layer, last);
      if last == (column, row) {
        assert filled[row][column] == Some(Tile(layer, column, row));
      } else {
        assert filled[row][column] == before[row][column];
      }
    }
  }

  /** One visit leaves the number of rows and each row's length alone. */
  lemma FillCellShape(tiles: Grid, layer: int, cell: (int, int), row: int)
    requires 0 <= row < |tiles|
    ensures |FillCell(tiles, layer, cell)| == |tiles|
    ensures |FillCell(tiles, layer, cell)[row]| == |tiles[row]|
  {
  }

  /** A visit keeps the grid's shape and every stored tile the right one. */
  lemma FillCellKeepsValid(tiles: Grid, layer: int, cell: (int, int), rows: int, columns: int)
    requires GridShape(tiles, rows, columns) && Coherent(tiles, layer)
    ensures GridShape(FillCell(tiles, layer, cell), rows, columns)
    ensures Coherent(FillCell(tiles, layer, cell), layer)
    ensures InGrid(tiles, cell.0, cell.1) && tiles[cell.1][cell.0].Some? ==>
              FillCell(tiles, layer, cell) == tiles
  {
    if InGrid(tiles, cell.0, cell.1) && tiles[cell.1][cell.0].Some? {
      assert tiles[cell.1][cell.0 := tiles[cell.1][cell.0]] == tiles[cell.1];
    }
  }

  /** Visiting a slot that already holds its tile changes nothing. */
  lemma FilledCellStays(tiles: Grid, layer: int, cell: (int, int))
    requires InGrid(tiles, cell.0, cell.1) && tiles[cell.1][cell.0] == Some(Tile(layer, cell.0, cell.1))
    ensures !EmptySlot(tiles, cell) && FillCell(tiles, layer, cell) == tiles
  {
    assert tiles[cell.1][cell.0 := tiles[cell.1][cell.0]] == tiles[cell.1];
  }

  // *** Drawing

  /** JavaScript's `Math.round`: the nearest integer, halves upward. */
  function JsRound(x: real): (n: int)
    ensures n as real - 0.5 <= x < n as real + 0.5
  {
    Floor(x + 0.5)
  }

  /** What a tile of a layer is drawn with: the origin tile, the tile side
      on screen and where the origin tile's corner falls. */
  datatype Placement = Placement(origin: Point, size: real, offset: Point)

  /** What `drawTile` records for one tile: its image element made when the
      slot was empty, then the tile drawn at its rounded position. */
  datatype TileEvent =
    | Generated(tile: Tile)
    | Drawn(tile: Tile, x: int, y: int, size: real)
    | Hidden(tile: Tile)

  /** Where `drawTile` puts the tile of `cell`: its offset from the origin
      tile in tile sides, plus the origin tile's offset, rounded. */
  function TilePosition(cell: (int, int), at: Placement): (p: (int, int))
    ensures var x := (cell.0 as real - at.origin.x) * at.size + at.offset.x;
            p.0 as real - 0.5 <= x < p.0 as real + 0.5
    ensures var y := (cell.1 as real - at.origin.y) * at.size + at.offset.y;
            p.1 as real - 0.5 <= y < p.1 as real + 0.5
  {
    (JsRound((cell.0 as real - at.origin.x) * at.size + at.offset.x),
     JsRound((cell.1 as real - at.origin.y) * at.size + at.offset.y))
  }

  predicate EmptySlot(tiles: Grid, cell: (int, int))
  {
    InGrid(tiles, cell.0, cell.1) && tiles[cell.1][cell.0].None?
  }

  /** The events of one `drawTile` on `tiles`. */
  function CellEvents(tiles: Grid, layer: int, cell: (int, int), at: Placement): (e: seq<TileEvent>)
    ensures 1 <= |e| && e[|e| - 1].Drawn?
    ensures forall i :: 0 <= i < |e| ==> e[i].tile == Tile(layer, cell.0, cell.1)
    ensures (exists i :: 0 <= i < |e| && e[i].Generated?) <==> EmptySlot(tiles, cell)
  {
    var t := Tile(layer, cell.0, cell.1);
    var position := TilePosition(cell, at);
    var e := (if EmptySlot(tiles, cell) then [Generated(t)] else []) + [Drawn(t, position.0, position.1, at.size)];
    assert EmptySlot(tiles, cell) ==> e[0].Generated?;
    e
  }

  /** The events of `drawTile` on each of `cells` in turn. */
  function DrawEvents(tiles: Grid, layer: int, cells: seq<(int, int)>, at: Placement): (e: seq<TileEvent>)
    ensures |cells| <= |e| <= 2 * |cells|
    ensures forall i :: 0 <= i < |e| ==> e[i].tile.layer == layer
    decreases |cells|
  {
    if cells == [] then []
    else
      var prefix := cells[..|cells| - 1];
      DrawEvents(tiles, layer, prefix, at)
        + CellEvents(FillCells(tiles, layer, prefix), layer, cells[|cells| - 1], at)
  }

  /** One more visit extends the grid, the events and the shown tiles by
      that visit's own. */
  lemma DrawStep(tiles: Grid, layer: int, cells: seq<(int, int)>, i: int, at: Placement)
    requires 0 <= i < |cells|
    ensures FillCells(tiles, layer, cells[..i + 1]) == FillCell(FillCells(tiles, layer, cells[..i]), layer, cells[i])
    ensures DrawEvents(tiles, layer, cells[..i + 1], at)
            == DrawEvents(tiles, layer, cells[..i], at) + CellEvents(FillCells(tiles, layer, cells[..i]), layer, cells[i], at)
    ensures ShownTiles(layer, cells[..i + 1]) == ShownTiles(layer, cells[..i]) + [Tile(layer, cells[i].0, cells[i].1)]
  {
    assert cells[..i + 1][..i] == cells[..i];
  }

  lemma AppendAssociates<T>(a: seq<T>, b: seq<T>, c: seq<T>)
    ensures a + b + c == a + (b + c)
  {
  }

  /** The tiles `drawTile` appends to `shown` for `cells`. */
  function ShownTiles(layer: int, cells: seq<(int, int)>): (tiles: seq<Tile>)
    ensures |tiles| == |cells|
    ensures forall i :: 0 <= i < |cells| ==> tiles[i] == Tile(layer, cells[i].0, cells[i].1)
  {
    seq(|cells|, i requires 0 <= i < |cells| => Tile(layer, cells[i].0, cells[i].1))
  }

  /** What `hide` records: each shown tile hidden, in order. */
  function HideEvents(shown: seq<Tile>): (events: seq<TileEvent>)
    ensures |events| == |shown|
    ensures forall i :: 0 <= i < |shown| ==> events[i] == Hidden(shown[i])
  {
    seq(|shown|, i requires 0 <= i < |shown| => Hidden(shown[i]))
  }

  /** Over distinct visits, a tile's image element is made exactly when
      its slot is visited and was empty before the run. */
  lemma {:induction false} GeneratedOnlyForEmptySlots(tiles: Grid, layer: int,
                                                      cells: seq<(int, int)>, at: Placement,
                                                      column: int, row: int)
    requires InGrid(tiles, column, row)
    requires forall i, j :: 0 <= i < j < |cells| ==> cells[i] != cells[j]
    ensures Generated(Tile(layer, column, row)) in DrawEvents(tiles, layer, cells, at)
            <==> (column, row) in cells && tiles[row][column].None?
    decreases |cells|
  {
    if cells != [] {
      var prefix := cells[..|cells| - 1];
      var last := cells[|cells| - 1];
      assert cells == prefix + [last];
      GeneratedOnlyForEmptySlots(tiles, layer, prefix, at, column, row);
      FillCellsAt(tiles, layer, prefix, column, row);
      var filled := FillCells(tiles, layer, prefix);
      GeneratedInCell(filled, layer, last, at, column, row);
      assert last == (column, row) ==> (column, row) !in prefix;
      assert (column, row) in cells <==> (column, row) in prefix || last == (column, row);
    }
  }

  /** One `drawTile` makes the image element of the tile it visits, and
      only when its slot is empty. */
  lemma GeneratedInCell(tiles: Grid, layer: int, cell: (int, int), at: Placement,
                        column: int, row: int)
    ensures Generated(Tile(layer, column, row)) in CellEvents(tiles, layer, cell, at)
            <==> cell == (column, row) && EmptySlot(tiles, cell)
  {
    var t := Tile(layer, cell.0, cell.1);
    var position := TilePosition(cell, at);
    var made: seq<TileEvent> := if EmptySlot(tiles, cell) then [Generated(t)] else [];
    assert CellEvents(tiles, layer, cell, at) == made + [Drawn(t, position.0, position.1, at.size)];
    if cell != (column, row) {
      assert Tile(layer, column, row) != t;
    }
  }

  /** Drawing the same cells again makes no new image element: every
      visited slot already holds its tile. */
  lemma RedrawMakesNothing(tiles: Grid, layer: int, cells: seq<(int, int)>, at: Placement)
    ensures forall e :: e in DrawEvents(FillCells(tiles, layer, cells), layer, cells, at) ==>
              !e.Generated?
  {
    var filled := FillCells(tiles, layer, cells);
    forall i | 0 <= i < |cells| && InGrid(filled, cells[i].0, cells[i].1)
      ensures filled[cells[i].1][cells[i].0].Some?
    {
      if InGrid(tiles, cells[i].0, cells[i].1) {
        FillCellsAt(tiles, layer, cells, cells[i].0, cells[i].1);
      } else {
        FillCellsKeepsOutside(tiles, layer, cells, cells[i].0, cells[i].1);
      }
    }
    NoEmptySlotNoGenerated(filled, layer, cells, cells, at);
  }

  /** Slots outside the grid stay outside it. */
  lemma {:induction false} FillCellsKeepsOutside(tiles: Grid, layer: int, cells: seq<(int, int)>,
                                                 column: int, row: int)
    requires !InGrid(tiles, column, row)
    ensures !InGrid(FillCells(tiles, layer, cells), column, row)
    decreases |cells|
  {
    if cells != [] {
      var prefix := cells[..|cells| - 1];
      FillCellsKeepsOutside(tiles, layer, prefix, column, row);
      var filled := FillCells(tiles, layer, prefix);
      if 0 <= row < |filled| {
        FillCellShape(filled, layer, cells[|cells| - 1], row);
      }
    }
  }

  /** When every slot of `all` that lies in the grid is filled, drawing any
      prefix-closed run `cells` of `all` makes no image element. */
  lemma {:induction false} NoEmptySlotNoGenerated(tiles: Grid, layer: int,
                                                  cells: seq<(int, int)>, all: seq<(int, int)>, at: Placement)
    requires forall c :: c in cells ==> c in all
    requires forall i :: 0 <= i < |all| && InGrid(tiles, all[i].0, all[i].1) ==> tiles[all[i].1][all[i].0].Some?
    ensures forall e :: e in DrawEvents(tiles, layer, cells, at) ==> !e.Generated?
    decreases |cells|
  {
    if cells != [] {
      var prefix := cells[..|cells| - 1];
      var last := cells[|cells| - 1];
      assert forall c :: c in prefix ==> c in cells;
      NoEmptySlotNoGenerated(tiles, layer, prefix, all, at);
      var filled := FillCells(tiles, layer, prefix);
      assert last in all;
      if InGrid(tiles, last.0, last.1) {
        FillCellsAt(tiles, layer, prefix, last.0, last.1);
      } else {
        FillCellsKeepsOutside(tiles, layer, prefix, last.0, last.1);
      }
      assert !EmptySlot(filled, last);
      CellEventsMakeOnlyForEmpty(filled, layer, last, at);
      assert DrawEvents(tiles, layer, cells, at)
             == DrawEvents(tiles, layer, prefix, at) + CellEvents(filled, layer, last, at);
    }
  }

  /** A `drawTile` on a filled slot makes no image element. */
  lemma CellEventsMakeOnlyForEmpty(tiles: Grid, layer: int, cell: (int, int), at: Placement)
    ensures forall e :: e in CellEvents(tiles, layer, cell, at) && e.Generated? ==> EmptySlot(tiles, cell)
  {
    var t := Tile(layer, cell.0, cell.1);
    var position := TilePosition(cell, at);
    var made: seq<TileEvent> := if EmptySlot(tiles, cell) then [Generated(t)] else [];
    assert CellEvents(tiles, layer, cell, at) == made + [Drawn(t, position.0, position.1, at.size)];
  }

  // *** Placement

  /** `computeOffset`: where the origin tile's corner falls in the view,
      relative to the visible rectangle's corner. */
  function ComputeOffset(origin: Point, visible: Rectangle, scaledTileSize: real, desiredScale: real): Point
  {
    Point(origin.x * scaledTileSize - visible.left * desiredScale,
          origin.y * scaledTileSize - visible.top * desiredScale)
  }

  /** The origin cancels out of a tile's position: the tile of `cell` goes
      where its own corner falls, relative to the visible rectangle. */
  lemma PositionIgnoresOrigin(cell: (int, int), origin: Point, visible: Rectangle, size: real, desiredScale: real)
    ensures var at := Placement(origin, size, ComputeOffset(origin, visible, size, desiredScale));
            TilePosition(cell, at).0 == JsRound((cell.0 as real) * size - visible.left * desiredScale)
    ensures var at := Placement(origin, size, ComputeOffset(origin, visible, size, desiredScale));
            TilePosition(cell, at).1 == JsRound((cell.1 as real) * size - visible.top * desiredScale)
  {
    var at := Placement(origin, size, ComputeOffset(origin, visible, size, desiredScale));
    assert ((cell.0 as real) - at.origin.x) * at.size + at.offset.x
           == (cell.0 as real) * size - visible.left * desiredScale;
    assert ((cell.1 as real) - at.origin.y) * at.size + at.offset.y
           == (cell.1 as real) * size - visible.top * desiredScale;
  }

  /** `scaled_tile_size`: a tile's side on screen at the desired scale. */
  function ScaledTileSize(desiredScale: real, layerScale: real): real
    requires layerScale != 0.0
  {
    TileSize * (desiredScale / layerScale)
  }

  /** A layer's tile covers `UnflooredExtent` image pixels, so on screen at
      `desiredScale` its side is that extent times the scale. */
  lemma ScaledTileSizeIsExtent(p: Pyramid, layer: int, desiredScale: real)
    requires ValidMath(p.math)
    ensures ScaledTileSize(desiredScale, ScaleForLayer(p, layer)) == UnflooredExtent(p, layer) * desiredScale
  {
    var factor := Power(p.math.sqrt2, LayerIndex(p, layer));
    PowerAgainstOne(p.math.sqrt2, LayerIndex(p, layer));
    assert ScaleForLayer(p, layer) == 1.0 / factor;
    assert UnflooredExtent(p, layer) == TileSize * factor;
    DivideByReciprocal(desiredScale, factor);
  }

  lemma DivideByReciprocal(d: real, f: real)
    requires f > 0.0
    ensures d / (1.0 / f) == d * f
  {
    var q := 1.0 / f;
    QuotientTimes(1.0, f, q);
    assert (d * f) * q == d * (f * q);
    QuotientOfMultiple(d * f, q);
  }

  /** A grid that covers a side of positive length has at least one cell. */
  lemma GridAtLeastOne(count: real, side: real, extent: real)
    requires GridCovers(count, side, extent) && side > 0.0 && extent > 0.0
    ensures count >= 1.0 && count.Floor >= 1
  {
    if count < 1.0 {
      assert count <= 0.0;
      ScaleOrder(count, 0.0, extent);
    }
  }

  /** The cells `forTiles` enumerates for a layer. */
  function Visits(p: Pyramid, visible: Rectangle, layer: int): seq<(int, int)>
    requires ValidMath(p.math) && TileExtent(p, layer) > 0
  {
    var span := ForTilesSpan(p, visible, layer);
    RowMajor(span.top, span.bottom, span.left, span.right)
  }

  /** Every enumerated cell lies in the clamped span, and no cell comes
      twice. */
  lemma VisitsInSpan(p: Pyramid, visible: Rectangle, layer: int)
    requires ValidMath(p.math) && TileExtent(p, layer) > 0
    ensures var span := ForTilesSpan(p, visible, layer);
            var cells := Visits(p, visible, layer);
            && (forall i :: 0 <= i < |cells| ==>
                  span.left <= cells[i].0 <= span.right && span.top <= cells[i].1 <= span.bottom)
            && (forall i, j :: 0 <= i < j < |cells| ==> cells[i] != cells[j])
  {
    var span := ForTilesSpan(p, visible, layer);
    var cells := Visits(p, visible, layer);
    forall i | 0 <= i < |cells|
      ensures span.left <= cells[i].0 <= span.right && span.top <= cells[i].1 <= span.bottom
      ensures multiset(cells)[cells[i]] <= 1
    {
      RowMajorOnce(span.top, span.bottom, span.left, span.right, cells[i]);
    }
    forall i, j | 0 <= i < j < |cells|
      ensures cells[i] != cells[j]
    {
      if cells[i] == cells[j] {
        TwiceCounted(cells, i, j);
      }
    }
  }

  /** An element at two indices is counted at least twice. */
  lemma TwiceCounted<T>(s: seq<T>, i: int, j: int)
    requires 0 <= i < j < |s| && s[i] == s[j]
    ensures multiset(s)[s[i]] >= 2
  {
    assert s == s[..i] + [s[i]] + s[i + 1..j] + [s[j]] + s[j + 1..];
  }

  // *** Layer

  /** `makeLayer`: one layer of the pyramid, with its tile grid, the
      tiles it currently shows and the log of what it did to their
      elements. */
  class Layer {
    const imageUrl: string
    const layerNumber: int
    const pyramid: Pyramid
    /** What `initialize` fixes: the grid size and the layer's scale. */
    const columns: int
    const rows: int
    const scale: real

    var tiles: Grid
    var shown: seq<Tile>
    var events: seq<TileEvent>

    /** The fixed part: a layer of a pyramid of a non-empty image, up to a
        layer whose tiles are at least a pixel wide. */
    ghost predicate Settled()
    {
      && ValidMath(pyramid.math) && pyramid.width > 0.0 && pyramid.height > 0.0
      && 0 <= layerNumber && TileExtent(pyramid, layerNumber) > 0
      && columns == TileGridSize(pyramid, layerNumber).value.width.Floor
      && rows == TileGridSize(pyramid, layerNumber).value.height.Floor
      && columns >= 1 && rows >= 1
      && scale == ScaleForLayer(pyramid, layerNumber)
    }

    ghost predicate Valid()
      reads this
    {
      Settled() && GridShape(tiles, rows, columns) && Coherent(tiles, layerNumber)
    }

    /** `makeLayer` with `initialize`: the grid size and scale from the
        pyramid and an empty grid. */
    constructor(imageUrl: string, layerNumber: int, pyramid: Pyramid)
      requires ValidMath(pyramid.math) && pyramid.width > 0.0 && pyramid.height > 0.0
      requires 0 <= layerNumber && TileExtent(pyramid, layerNumber) > 0
      ensures Valid()
      ensures this.imageUrl == imageUrl && this.layerNumber == layerNumber && this.pyramid == pyramid
      ensures shown == [] && events == []
      ensures rows >= 0 && columns >= 0 && tiles == BlankGrid(rows, columns)
    {
      var grid := TileGridSize(pyramid, layerNumber).value;
      var extent := TileExtent(pyramid, layerNumber) as real;
      GridAtLeastOne(grid.width, pyramid.width, extent);
      GridAtLeastOne(grid.height, pyramid.height, extent);
      this.imageUrl := imageUrl;
      this.layerNumber := layerNumber;
      this.pyramid := pyramid;
      columns := grid.width.Floor;
      rows := grid.height.Floor;
      scale := ScaleForLayer(pyramid, layerNumber);
      new;
      tiles := EmptyGrid(rows, columns);
      shown := [];
      events := [];
    }

    /** `computeOrigin`: the grid cell under the visible rectangle's
        corner, clamped into the grid; it is the first cell `forTiles`
        visits. */
    function ComputeOrigin(visible: Rectangle): (origin: Point)
      requires Settled()
      ensures var span := ForTilesSpan(pyramid, visible, layerNumber);
              origin == Point(span.left as real, span.top as real)
      ensures 0.0 <= origin.x <= (columns - 1) as real && 0.0 <= origin.y <= (rows - 1) as real
    {
      var left := TileColumn(pyramid, visible.left, layerNumber);
      var top := TileRow(pyramid, visible.top, layerNumber);
      Point(MaxInt(0, MinInt(left, columns - 1)) as real, MaxInt(0, MinInt(top, rows - 1)) as real)
    }

    /** Every cell `forTiles` visits is a cell of the grid. */
    lemma CellsInGrid(visible: Rectangle)
      requires Settled()
      ensures forall cell :: cell in Visits(pyramid, visible, layerNumber) ==>
                0 <= cell.0 < columns && 0 <= cell.1 < rows
    {
      var grid := TileGridSize(pyramid, layerNumber).value;
      assert grid.width == columns as real && grid.height == rows as real;
      VisitsInSpan(pyramid, visible, layerNumber);
    }

    /** The placement `draw` computes for a visible rectangle and scale. */
    function PlacementFor(visible: Rectangle, desiredScale: real): Placement
      requires Settled()
    {
      var origin := ComputeOrigin(visible);
      var size := ScaledTileSize(desiredScale, scale);
      Placement(origin, size, ComputeOffset(origin, visible, size, desiredScale))
    }

    /** `drawTile`: the slot's tile, made and stored when the slot is
        empty, drawn and appended to `shown`. */
    method DrawTile(column: int, row: int, at: Placement)
      requires Valid() && 0 <= row < rows && 0 <= column < columns
      modifies this
      ensures Valid()
      ensures tiles == FillCell(old(tiles), layerNumber, (column, row))
      ensures shown == old(shown) + [Tile(layerNumber, column, row)]
      ensures events == old(events) + CellEvents(old(tiles), layerNumber, (column, row), at)
    {
      FillCellKeepsValid(tiles, layerNumber, (column, row), rows, columns);
      var tile := CachedTile(column, row);
      var position := TilePosition((column, row), at);
      events := events + [Drawn(tile, position.0, position.1, at.size)];
      shown := shown + [tile];
    }

    /** The first half of `drawTile`: the slot's tile, made and stored
        when the slot is empty. */
    method CachedTile(column: int, row: int) returns (tile: Tile)
      requires InGrid(tiles, column, row)
      requires tiles[row][column].Some? ==> tiles[row][column].value == Tile(layerNumber, column, row)
      modifies this
      ensures tile == Tile(layerNumber, column, row) && shown == old(shown)
      ensures tiles == FillCell(old(tiles), layerNumber, (column, row))
      ensures events == old(events) + (if EmptySlot(old(tiles), (column, row)) then [Generated(tile)] else [])
    {
      var slot := tiles[row][column];
      if slot.None? {
        tile := NewTile(column, row);
        tiles := tiles[row := tiles[row][column := Some(tile)]];
        events := events + [Generated(tile)];
      } else {
        tile := slot.value;
        FilledCellStays(tiles, layerNumber, (column, row));
      }
    }

    /** `makeTile` for a slot of this layer; its URL is the element's
        business and is not kept. */
    method NewTile(column: int, row: int) returns (tile: Tile)
      ensures tile == Tile(layerNumber, column, row)
    {
      var made := MakeTile(imageUrl, layerNumber, column, row);
      tile := made.0;
    }

    /** `hide`: every shown tile hidden, in order, then nothing shown. */
    method Hide()
      requires Valid()
      modifies this
      ensures Valid()
      ensures tiles == old(tiles) && shown == []
      ensures events == old(events) + HideEvents(old(shown))
    {
      var index := 0;
      while index < |shown|
        invariant 0 <= index <= |shown| && shown == old(shown) && tiles == old(tiles)
        invariant events == old(events) + HideEvents(shown[..index])
      {
        assert HideEvents(shown[..index + 1]) == HideEvents(shown[..index]) + [Hidden(shown[index])];
        events := events + [Hidden(shown[index])];
        index := index + 1;
      }
      assert shown[..index] == shown;
      shown := [];
    }

    /** The state `draw` leaves, given the state before it. */
    ghost predicate DrawnFrom(tiles0: Grid, shown0: seq<Tile>, events0: seq<TileEvent>,
                              visible: Rectangle, desiredScale: real)
      reads this
      requires Settled()
    {
      var cells := Visits(pyramid, visible, layerNumber);
      && tiles == FillCells(tiles0, layerNumber, cells)
      && shown == ShownTiles(layerNumber, cells)
      && events == events0 + HideEvents(shown0)
                   + DrawEvents(tiles0, layerNumber, cells, PlacementFor(visible, desiredScale))
    }

    /** The state `hide` leaves, given the state before it. */
    ghost predicate HiddenFrom(tiles0: Grid, shown0: seq<Tile>, events0: seq<TileEvent>)
      reads this
    {
      tiles == tiles0 && shown == [] && events == events0 + HideEvents(shown0)
    }

    /** The state the tiled image's `draw` leaves in this layer: drawn or
        hidden. */
    ghost predicate RedrawnFrom(draws: bool, tiles0: Grid, shown0: seq<Tile>, events0: seq<TileEvent>,
                                visible: Rectangle, desiredScale: real)
      reads this
      requires Settled()
    {
      if draws then DrawnFrom(tiles0, shown0, events0, visible, desiredScale)
      else HiddenFrom(tiles0, shown0, events0)
    }

    /** After the tiled image's `draw`, with the visible rectangle's edges
        in order, a layer shows tiles exactly when it was drawn. */
    lemma ShowsTilesIffDrawn(draws: bool, tiles0: Grid, shown0: seq<Tile>, events0: seq<TileEvent>,
                             visible: Rectangle, desiredScale: real)
      requires Settled() && RedrawnFrom(draws, tiles0, shown0, events0, visible, desiredScale)
      requires visible.left <= visible.right && visible.top <= visible.bottom
      ensures |shown| > 0 <==> draws
    {
      ForTilesNonEmpty(pyramid, visible, layerNumber);
    }

    /** The `forTiles` callback of `draw`, over a run of cells of the
        grid: each one drawn in turn. */
    method DrawCells(cells: seq<(int, int)>, at: Placement)
      requires Valid()
      requires forall i :: 0 <= i < |cells| ==> 0 <= cells[i].0 < columns && 0 <= cells[i].1 < rows
      modifies this
      ensures Valid()
      ensures tiles == FillCells(old(tiles), layerNumber, cells)
      ensures shown == old(shown) + ShownTiles(layerNumber, cells)
      ensures events == old(events) + DrawEvents(old(tiles), layerNumber, cells, at)
    {
      ghost var tiles0, shown0, events0 := tiles, shown, events;
      for i := 0 to |cells|
        invariant Valid()
        invariant tiles == FillCells(tiles0, layerNumber, cells[..i])
        invariant shown == shown0 + ShownTiles(layerNumber, cells[..i])
        invariant events == events0 + DrawEvents(tiles0, layerNumber, cells[..i], at)
      {
        DrawStep(tiles0, layerNumber, cells, i, at);
        DrawTile(cells[i].0, cells[i].1, at);
        AppendAssociates(shown0, ShownTiles(layerNumber, cells[..i]), [Tile(layerNumber, cells[i].0, cells[i].1)]);
        AppendAssociates(events0, DrawEvents(tiles0, layerNumber, cells[..i], at),
                         CellEvents(FillCells(tiles0, layerNumber, cells[..i]), layerNumber, cells[i], at));
      }
      assert cells[..|cells|] == cells;
    }

    /** `draw`: hide what is shown, then draw each cell `forTiles` visits
        for the visible rectangle, rows outer and columns inner. */
    method Draw(visible: Rectangle, desiredScale: real)
      requires Valid()
      modifies this
      ensures Valid()
      ensures var cells := Visits(pyramid, visible, layerNumber);
              && tiles == FillCells(old(tiles), layerNumber, cells)
              && shown == ShownTiles(layerNumber, cells)
              && events == old(events) + HideEvents(old(shown))
                 + DrawEvents(old(tiles), layerNumber, cells, PlacementFor(visible, desiredScale))
    {
      var origin := ComputeOrigin(visible);
      var scaledTileSize := TileSize * (desiredScale / scale);
      var offset := ComputeOffset(origin, visible, scaledTileSize, desiredScale);
      var at := Placement(origin, scaledTileSize, offset);
      Hide();
      var cells := ForTiles(pyramid, visible, layerNumber);
      CellsInGrid(visible);
      DrawCells(cells, at);
    }
  }

  // *** Tiled image

  /** Whether `draw` draws layer `index` at scale `desiredScale`: the
      layers up to the one `layerForScale` picks. A scale for which that
      is not a number draws none of them. */
  function DrawsLayer(p: Pyramid, desiredScale: real, index: int): (draws: bool)
    requires ValidMath(p.math)
    ensures draws <==> desiredScale >= 0.0 && index <= LayerForScale(p, desiredScale).value
  {
    var target := LayerForScale(p, desiredScale);
    target.Some? && index <= target.value
  }

  /** Zooming in never stops a layer being drawn, and at full scale or
      beyond every layer of the pyramid is drawn. */
  lemma DrawsLayerZoomIn(p: Pyramid, s1: real, s2: real, index: int)
    requires ValidMath(p.math) && 0.0 <= s1 <= s2
    ensures DrawsLayer(p, s1, index) ==> DrawsLayer(p, s2, index)
    ensures s2 >= 1.0 && index <= p.layerCount - 1 ==> DrawsLayer(p, s2, index)
  {
    LayerForScaleMonotone(p, s1, s2);
  }

  /** `viewport.getView().bounds()`: the smallest rectangle holding the
      corners of the view, in scene coordinates. */
  function ViewBounds(viewport: V.Viewport): (r: Rectangle)
    reads viewport
    requires viewport.Valid()
    ensures WellFormed(r)
    ensures forall i :: 0 <= i < |viewport.viewPolygon.points| ==> InClosed(r, viewport.viewPolygon.points[i])
  {
    assert |viewport.viewPolygon.points| == |DimensionsPolygon(viewport.viewSize).points| == 4;
    P.BoundsOf(viewport.viewPolygon.points)
  }

  /** The viewport's listener map after the tiled image's `initialize`:
      the image appended to the "changed" listeners, and to the "zoomed"
      listeners with its `changed` method named. */
  function Registered(listenerMap: map<string, seq<O.Listener>>, self: nat): map<string, seq<O.Listener>>
  {
    var withChanged := listenerMap["changed" := O.ListenersFor(listenerMap, "changed") + [O.Relay(self, "changed")]];
    withChanged["zoomed" := O.ListenersFor(withChanged, "zoomed") + [O.Relay(self, "changed")]]
  }

  /** Once the tiled image is registered, a "changed" or a "zoomed"
      broadcast makes the calls it made before and then calls the image's
      `changed` with the same arguments; other selectors are untouched. */
  lemma {:induction false} RegisteredRelaysToChanged<A>(listenerMap: map<string, seq<O.Listener>>, self: nat,
                                                        selector: string, arguments: seq<A>)
    ensures selector == "changed" || selector == "zoomed" ==>
              O.Deliveries(O.ListenersFor(Registered(listenerMap, self), selector), arguments)
              == O.Deliveries(O.ListenersFor(listenerMap, selector), arguments)
                 + [O.MethodCalled(self, "changed", arguments)]
    ensures selector != "changed" && selector != "zoomed" ==>
              O.ListenersFor(Registered(listenerMap, self), selector) == O.ListenersFor(listenerMap, selector)
  {
    if selector == "changed" || selector == "zoomed" {
      var before := O.ListenersFor(listenerMap, selector);
      var after := O.ListenersFor(Registered(listenerMap, self), selector);
      assert after == before + [O.Relay(self, "changed")];
      var calls := O.Deliveries(after, arguments);
      var expected := O.Deliveries(before, arguments) + [O.MethodCalled(self, "changed", arguments)];
      assert |calls| == |expected|;
      forall i | 0 <= i < |calls|
        ensures calls[i] == expected[i]
      {
        if i < |before| {
          assert after[i] == before[i];
        }
      }
    }
  }

  /** `makeTiledImage`: an image drawn as a stack of layers, the coarse
      ones first, each over the one before. */
  class TiledImage {
    const imageUrl: string
    const pyramid: Pyramid
    /** The viewport the image is drawn through. */
    const viewport: V.Viewport
    /** The image size `generate` copies from the pyramid. */
    var width: real
    var height: real
    var layers: seq<Layer>

    /** The fixed part: a pyramid of a non-empty image. */
    ghost predicate Settled()
    {
      ValidMath(pyramid.math) && pyramid.width > 0.0 && pyramid.height > 0.0
    }

    /** After `generate`: one layer per pyramid layer, each a distinct
        object, numbered by its position and tiled from this image. */
    ghost predicate Valid()
      reads this, layers
    {
      && Settled()
      && |layers| == MaxInt(pyramid.layerCount, 0)
      && (forall i :: 0 <= i < |layers| ==>
            && layers[i].Valid() && layers[i].layerNumber == i
            && layers[i].pyramid == pyramid && layers[i].imageUrl == imageUrl)
      && (forall i, j :: 0 <= i < j < |layers| ==> layers[i] != layers[j])
    }

    /** `makeTiledImage` with `initialize`: no layers until `generate`,
        and the image registered with the viewport's broadcaster, `self`
        being the identity it is known by there. */
    constructor(imageUrl: string, pyramid: Pyramid, viewport: V.Viewport,
                self: nat, viewportEvents: O.Broadcaster<nat>)
      requires ValidMath(pyramid.math) && pyramid.width > 0.0 && pyramid.height > 0.0
      modifies viewportEvents
      ensures Settled() && this.imageUrl == imageUrl && this.pyramid == pyramid && this.viewport == viewport
      ensures layers == []
      ensures viewportEvents.listenerMap == Registered(old(viewportEvents.listenerMap), self)
      ensures viewportEvents.invocations == old(viewportEvents.invocations)
    {
      this.imageUrl := imageUrl;
      this.pyramid := pyramid;
      this.viewport := viewport;
      layers := [];
      new;
      viewportEvents.AddListener("changed", O.ObjectReceiver(self), None);
      viewportEvents.AddListener("zoomed", O.ObjectReceiver(self), Some("changed"));
    }

    /** `createLayers`: a fresh, empty layer for each layer of the
        pyramid, numbered from the coarsest. */
    method CreateLayers()
      requires Settled()
      modifies this
      ensures Valid()
      ensures width == old(width) && height == old(height)
      ensures forall i :: 0 <= i < |layers| ==>
                && fresh(layers[i]) && layers[i].shown == [] && layers[i].events == []
                && layers[i].tiles == BlankGrid(layers[i].rows, layers[i].columns)
    {
      var created: seq<Layer> := [];
      var count := pyramid.layerCount;
      for number := 0 to MaxInt(count, 0)
        invariant |created| == number && width == old(width) && height == old(height)
        invariant forall i :: 0 <= i < number ==>
                    && fresh(created[i]) && created[i].Valid() && created[i].layerNumber == i
                    && created[i].pyramid == pyramid && created[i].imageUrl == imageUrl
                    && created[i].shown == [] && created[i].events == []
                    && created[i].tiles == BlankGrid(created[i].rows, created[i].columns)
        invariant forall i, j :: 0 <= i < j < number ==> created[i] != created[j]
      {
        var layer := new Layer(imageUrl, number, pyramid);
        created := created + [layer];
      }
      layers := created;
    }

    /** `draw`: with the view's bounds and the scale read from the
        viewport, the layers up to the one for the scale drawn in order,
        the finer ones hidden. */
    method Draw()
      requires Valid() && viewport.Valid()
      modifies layers
      ensures Valid()
      ensures forall i :: 0 <= i < |layers| ==>
                layers[i].RedrawnFrom(DrawsLayer(pyramid, viewport.scale, i), old(layers[i].tiles),
                                      old(layers[i].shown), old(layers[i].events), ViewBounds(viewport), viewport.scale)
    {
      var visible, desiredScale := ViewBounds(viewport), viewport.scale;
      DrawLayers(visible, desiredScale);
      assert ViewBounds(viewport) == visible;
    }

    /** The loop of `draw`, for the view bounds and scale it read. */
    method DrawLayers(visible: Rectangle, desiredScale: real)
      requires Valid()
      modifies layers
      ensures Valid()
      ensures forall i :: 0 <= i < |layers| ==>
                layers[i].RedrawnFrom(DrawsLayer(pyramid, desiredScale, i), old(layers[i].tiles),
                                      old(layers[i].shown), old(layers[i].events), visible, desiredScale)
    {
      var target := LayerForScale(pyramid, desiredScale);
      var count := pyramid.layerCount;
      for index := 0 to MaxInt(count, 0)
        invariant Valid()
        invariant forall i :: 0 <= i < index ==>
                    layers[i].RedrawnFrom(DrawsLayer(pyramid, desiredScale, i), old(layers[i].tiles),
                                          old(layers[i].shown), old(layers[i].events), visible, desiredScale)
        invariant forall i :: index <= i < |layers| ==> unchanged(layers[i])
      {
        Redraw(index, target.Some? && index <= target.value, visible, desiredScale);
      }
    }

    /** One pass of the loop in `draw`: layer `index` drawn when `draws`,
        hidden otherwise. */
    method Redraw(index: int, draws: bool, visible: Rectangle, desiredScale: real)
      requires Valid() && 0 <= index < |layers|
      modifies layers[index]
      ensures Valid()
      ensures layers[index].RedrawnFrom(draws, old(layers[index].tiles), old(layers[index].shown),
                                        old(layers[index].events), visible, desiredScale)
      ensures forall i :: 0 <= i < |layers| && i != index ==> unchanged(layers[i])
    {
      var layer := layers[index];
      if draws {
        layer.Draw(visible, desiredScale);
      } else {
        layer.Hide();
      }
    }

    /** `changed`: what the viewport's `changed` and `zoomed` broadcasts
        call, a redraw. Before `generate` there are no layers, and for a
        pyramid that has some, `draw` fails on the first missing layer with
        a `TypeError`, changing nothing. */
    method Changed() returns (r: Result<(), string>)
      requires Settled() && viewport.Valid() && (Valid() || layers == [])
      modifies layers
      ensures r.Failure? <==> layers == [] && pyramid.layerCount > 0
      ensures r.Failure? ==> r.error == "TypeError"
      ensures r.Success? ==> Valid()
      ensures r.Success? ==>
                forall i :: 0 <= i < |layers| ==>
                  layers[i].RedrawnFrom(DrawsLayer(pyramid, viewport.scale, i), old(layers[i].tiles),
                                        old(layers[i].shown), old(layers[i].events), ViewBounds(viewport), viewport.scale)
    {
      if |layers| == 0 && pyramid.layerCount > 0 {
        return Failure("TypeError");
      }
      Draw();
      r := Success(());
    }

    /** `generate`: the image size copied from the pyramid, the layers
        created and the first view drawn. */
    method Generate()
      requires Settled() && viewport.Valid()
      modifies this
      ensures Valid()
      ensures width == pyramid.width && height == pyramid.height
      ensures forall i :: 0 <= i < |layers| ==> fresh(layers[i])
      ensures forall i :: 0 <= i < |layers| ==>
                layers[i].RedrawnFrom(DrawsLayer(pyramid, viewport.scale, i),
                                      BlankGrid(layers[i].rows, layers[i].columns), [], [],
                                      ViewBounds(viewport), viewport.scale)
      ensures forall i :: 0 <= i < |layers| ==>
                var cells := Visits(pyramid, ViewBounds(viewport), i);
                layers[i].shown == (if DrawsLayer(pyramid, viewport.scale, i) then ShownTiles(i, cells) else [])
    {
      width := pyramid.width;
      height := pyramid.height;
      CreateLayers();
      Draw();
    }
  }
}
