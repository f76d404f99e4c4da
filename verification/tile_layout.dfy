/** The tiles of a video composition: n instances on the smallest square grid that holds them,
    cut to the rows needed, the first rows giving their last instance two cells. */
module TileLayout {

  /** A tile takes `span` cells from the cell `start` on, cells being counted row by row. */
  datatype Tile = Tile(start: nat, span: nat)

  /** A rectangle of pixels. */
  datatype Viewport = Viewport(x: int, y: int, width: int, height: int)

  // ----- the grid

  /** The ceiling of the square root. */
  function GridFrom(n: nat, g: nat): (r: nat)
    requires g == 0 || (g - 1) * (g - 1) < n
    ensures r * r >= n && (r == 0 || (r - 1) * (r - 1) < n)
    decreases n - g
  {
    if g * g >= n then g
    else
      SquareAbove(n, g);
      GridFrom(n, g + 1)
  }

  lemma SquareAbove(n: nat, g: nat)
    requires g * g < n
    ensures g < n
  {
    if g > 0 { assert g <= g * g; }
  }

  function GridSize(n: nat): (g: nat)
    ensures g * g >= n && (g == 0 || (g - 1) * (g - 1) < n)
  {
    GridFrom(n, 0)
  }

  /** The ceiling of n over the grid size; with no instance both are 0. */
  function NumberVertically(n: nat): nat {
    var g := GridSize(n);
    if g == 0 then 0 else (n + g - 1) / g
  }

  /** Cells to spare, and fewer of them than rows: so each row has to take at most one. */
  lemma ExtraBelowRows(n: nat)
    requires n >= 1
    ensures var g, v := GridSize(n), NumberVertically(n);
            1 <= v <= g && 0 <= Cells(g, v) - n < v
  {
    var g, v := GridSize(n), NumberVertically(n);
    Ceiling(n, g);
    hide GridSize, NumberVertically;
    RowsAreEnough(n, g, v);
  }

  lemma RowsAreEnough(n: nat, g: nat, v: nat)
    requires 1 <= n <= g * g && (g - 1) * (g - 1) < n && v >= 1 && g >= 1 && g * (v - 1) < n <= g * v
    ensures v <= g && g * v - n < v
  {
    if v > g { MulMono(g, g, v - 1); }
    if v < g { MulMono(g - 1, v, g - 1); }
    assert (g - 1) * v == g * v - v && g * (v - 1) == g * v - g;
  }

  lemma MulMono(a: nat, b: nat, c: nat)
    requires b <= c
    ensures a * b <= a * c
  {
  }

  lemma Ceiling(n: nat, g: nat)
    requires g >= 1 && n >= 1
    ensures var v := (n + g - 1) / g; v >= 1 && g * (v - 1) < n <= g * v
  {
    var v := (n + g - 1) / g;
    assert n + g - 1 == g * v + (n + g - 1) % g;
    assert g * (v - 1) == g * v - g;
    assert v == 0 ==> g * v == 0;
  }

  // ----- tiles end to end

  function End(tiles: seq<Tile>): nat {
    if tiles == [] then 0 else tiles[|tiles| - 1].start + tiles[|tiles| - 1].span
  }

  /** Each tile starts where the one before ends. */
  predicate EndToEnd(tiles: seq<Tile>) {
    forall i :: 0 <= i < |tiles| ==> tiles[i].span >= 1 && tiles[i].start == End(tiles[..i])
  }

  predicate Covers(t: Tile, cell: nat) { t.start <= cell < t.start + t.span }

  /** Tiles end to end partition the cells: each is covered by exactly one tile. */
  lemma {:induction false} EndToEndPartitions(tiles: seq<Tile>, cell: nat) returns (i: nat)
    requires EndToEnd(tiles) && cell < End(tiles)
    ensures i < |tiles| && Covers(tiles[i], cell)
    ensures forall j :: 0 <= j < |tiles| && Covers(tiles[j], cell) ==> j == i
  {
    hide EndToEnd, End;
    InitEndToEnd(tiles, cell);
    var init, last := tiles[..|tiles| - 1], |tiles| - 1;
    if cell >= tiles[last].start {
      i := last;
      forall j | 0 <= j < last ensures !Covers(tiles[j], cell) { EndsGrow(tiles, j, last); }
    } else {
      i := EndToEndPartitions(init, cell);
    }
  }

  lemma InitEndToEnd(tiles: seq<Tile>, cell: nat)
    requires EndToEnd(tiles) && cell < End(tiles)
    ensures tiles != []
    ensures var init, last := tiles[..|tiles| - 1], tiles[|tiles| - 1];
            EndToEnd(init) && End(init) == last.start && End(tiles) == last.start + last.span
  {
    var init := tiles[..|tiles| - 1];
    assert forall k :: 0 <= k < |init| ==> init[..k] == tiles[..k];
  }

  lemma {:induction false} EndsGrow(tiles: seq<Tile>, j: nat, k: nat)
    requires EndToEnd(tiles) && j < k < |tiles|
    ensures tiles[j].start + tiles[j].span <= tiles[k].start
    decreases k
  {
    assert tiles[k].start == End(tiles[..k]);
    if j < k - 1 { EndsGrow(tiles, j, k - 1); }
  }

  // ----- cells and pixels

  function Row(cell: nat, g: nat): nat
    requires g > 0
  {
    cell / g
  }

  function Column(cell: nat, g: nat): (c: nat)
    requires g > 0
    ensures c < g
  {
    cell % g
  }

  /** A tile stays within its row. */
  predicate InRow(t: Tile, g: nat)
    requires g > 0
  {
    Column(t.start, g) + t.span <= g
  }

  /** A tile within its row covers the cell at a row and column just when they are its own. */
  lemma CoversByRow(t: Tile, g: nat, row: nat, col: nat)
    requires g > 0 && InRow(t, g) && t.span >= 1 && col < g
    ensures Covers(t, row * g + col) <==>
              Row(t.start, g) == row && Column(t.start, g) <= col < Column(t.start, g) + t.span
  {
    var r, c := Row(t.start, g), Column(t.start, g);
    assert t.start == r * g + c;
    if r < row {
      assert (r + 1) * g <= row * g by { MulMono(g, r + 1, row); }
      assert (r + 1) * g == r * g + g;
    } else if r > row {
      assert (row + 1) * g <= r * g by { MulMono(g, row + 1, r); }
      assert (row + 1) * g == row * g + g;
    }
  }

  /** A coordinate lies on the first `parts` parts of a length. */
  predicate OnGrid(parts: nat, part: nat, x: nat) { x < parts * part }

  function Times(parts: nat, part: nat): nat { parts * part }

  function ToPixels(t: Tile, g: nat, cellWidth: nat, cellHeight: nat): Viewport
    requires g > 0
  {
    Viewport(Times(Column(t.start, g), cellWidth), Times(Row(t.start, g), cellHeight), Times(t.span, cellWidth),
        cellHeight)
  }

  predicate Contains(p: Viewport, x: int, y: int) {
    p.x <= x < p.x + p.width && p.y <= y < p.y + p.height
  }

  lemma Between(a: nat, b: nat, cell: nat, x: nat)
    requires cell > 0
    ensures a * cell <= x < b * cell <==> a <= x / cell < b
  {
    var q := x / cell;
    assert x == q * cell + x % cell;
    assert (q + 1) * cell == q * cell + cell;
    if a <= q { MulMono(cell, a, q); } else { MulMono(cell, q + 1, a); }
    if q < b { MulMono(cell, q + 1, b); } else { MulMono(cell, b, q); }
  }

  /** The cell of a pixel. */
  function CellOf(g: nat, cellWidth: nat, cellHeight: nat, x: nat, y: nat): nat
    requires cellWidth > 0 && cellHeight > 0
  {
    y / cellHeight * g + x / cellWidth
  }

  /** A pixel is in a block of cells just when its own cell is. */
  lemma PixelInBlock(row: nat, col: nat, span: nat, cellWidth: nat, cellHeight: nat, x: nat, y: nat)
    requires cellWidth > 0 && cellHeight > 0
    ensures Contains(Viewport(Times(col, cellWidth), Times(row, cellHeight), Times(span, cellWidth), cellHeight), x, y)
            <==> row == y / cellHeight && col <= x / cellWidth < col + span
  {
    Between(col, col + span, cellWidth, x);
    Between(row, row + 1, cellHeight, y);
    assert (col + span) * cellWidth == col * cellWidth + span * cellWidth;
    assert (row + 1) * cellHeight == row * cellHeight + cellHeight;
  }

  /** A pixel is in a tile's viewport just when its cell is in the tile. */
  lemma PixelInTile(t: Tile, g: nat, cellWidth: nat, cellHeight: nat, x: nat, y: nat)
    requires g > 0 && InRow(t, g) && t.span >= 1 && cellWidth > 0 && cellHeight > 0 && OnGrid(g, cellWidth, x)
    ensures Contains(ToPixels(t, g, cellWidth, cellHeight), x, y) <==> Covers(t, CellOf(g, cellWidth, cellHeight, x, y))
  {
    Between(0, g, cellWidth, x);
    CoversByRow(t, g, y / cellHeight, x / cellWidth);
    hide Contains, Covers, InRow, Times, OnGrid;
    PixelInBlock(Row(t.start, g), Column(t.start, g), t.span, cellWidth, cellHeight, x, y);
  }

  // ----- the layout

  /** The cells of the tile that starts at a cell, when `extra` cells are to spare. */
  function SpanAt(g: nat, extra: int, start: nat): nat
    requires g > 0
  {
    if Row(start, g) < extra && Column(start, g) == g - 2 then 2 else 1
  }

  /** A layout of n instances on a grid of v rows of g cells: end to end, filling the grid, each
      tile in its row, and two cells exactly for the last tile of the first rows, as many as
      there are cells to spare. */
  predicate LaidOut(tiles: seq<Tile>, n: nat, g: nat, v: nat) {
    && |tiles| == n && EndToEnd(tiles) && End(tiles) == Cells(g, v)
    && (g > 0 ==> Fitting(tiles, g, Cells(g, v) - n))
  }

  predicate Fitting(tiles: seq<Tile>, g: nat, extra: int)
    requires g > 0
  {
    forall i :: 0 <= i < |tiles| ==> InRow(tiles[i], g) && tiles[i].span == SpanAt(g, extra, tiles[i].start)
  }

  /** The viewports of the tiles. */
  predicate Drawn(viewports: seq<Viewport>, tiles: seq<Tile>, g: nat, cellWidth: nat, cellHeight: nat)
    requires g > 0
  {
    && |viewports| == |tiles|
    && forall i :: 0 <= i < |tiles| ==> viewports[i] == ToPixels(tiles[i], g, cellWidth, cellHeight)
  }

  function Cells(g: nat, v: nat): nat { g * v }

  /** The pixels of one of so many equal parts of a length. */
  function PartOf(length: nat, parts: nat): nat
    requires parts > 0
  {
    length / parts
  }

  /** The layout is an exact partition: every pixel of the grid is in exactly one viewport. */
  lemma PixelsPartitioned(tiles: seq<Tile>, n: nat, g: nat, v: nat, cellWidth: nat, cellHeight: nat, x: nat, y: nat)
    returns (i: nat)
    requires LaidOut(tiles, n, g, v) && OnGrid(g, cellWidth, x) && OnGrid(v, cellHeight, y)
    ensures g > 0 && i < n && Contains(ToPixels(tiles[i], g, cellWidth, cellHeight), x, y)
    ensures forall j :: 0 <= j < n && Contains(ToPixels(tiles[j], g, cellWidth, cellHeight), x, y) ==> j == i
  {
    Positive(g, cellWidth, x);
    Positive(v, cellHeight, y);
    hide EndToEnd, End;
    CellOfPixel(g, v, cellWidth, cellHeight, x, y);
    hide InRow, SpanAt, ToPixels, Contains, Covers, Cells, CellOf, OnGrid;
    var cell := CellOf(g, cellWidth, cellHeight, x, y);
    i := EndToEndPartitions(tiles, cell);
    forall j | 0 <= j < n
      ensures Contains(ToPixels(tiles[j], g, cellWidth, cellHeight), x, y) <==> Covers(tiles[j], cell)
    {
      SpanPositive(tiles, j);
      PixelInTile(tiles[j], g, cellWidth, cellHeight, x, y);
    }
  }

  lemma SpanPositive(tiles: seq<Tile>, j: nat)
    requires EndToEnd(tiles) && j < |tiles|
    ensures tiles[j].span >= 1
  {
  }

  lemma CellOfPixel(g: nat, v: nat, cellWidth: nat, cellHeight: nat, x: nat, y: nat)
    requires cellWidth > 0 && cellHeight > 0 && OnGrid(g, cellWidth, x) && OnGrid(v, cellHeight, y)
    ensures CellOf(g, cellWidth, cellHeight, x, y) < Cells(g, v)
  {
    Between(0, g, cellWidth, x);
    Between(0, v, cellHeight, y);
    var row := y / cellHeight;
    MulMono(g, row + 1, v);
    assert g * (row + 1) == row * g + g;
  }

  lemma Positive(parts: nat, part: nat, x: nat)
    requires OnGrid(parts, part, x)
    ensures parts > 0 && part > 0
  {
    assert parts == 0 || part == 0 ==> parts * part == 0;
  }

  /** Every viewport lies in the picture. */
  lemma InPicture(tiles: seq<Tile>, n: nat, g: nat, v: nat, width: nat, height: nat, i: nat)
    requires LaidOut(tiles, n, g, v) && i < n && g > 0 && v > 0
    ensures var p := ToPixels(tiles[i], g, PartOf(width, g), PartOf(height, v));
            0 <= p.x && p.x + p.width <= width && 0 <= p.y && p.y + p.height <= height
  {
    StartBelowEnd(tiles, i);
    assert InRow(tiles[i], g);
    hide EndToEnd, End, SpanAt, ToPixels, InRow, PartOf;
    TileInPicture(tiles[i], g, v, width, height);
  }

  lemma StartBelowEnd(tiles: seq<Tile>, i: nat)
    requires EndToEnd(tiles) && i < |tiles|
    ensures tiles[i].start < End(tiles)
  {
    if i < |tiles| - 1 { EndsGrow(tiles, i, |tiles| - 1); }
  }

  lemma TileInPicture(t: Tile, g: nat, v: nat, width: nat, height: nat)
    requires g > 0 && v > 0 && InRow(t, g) && t.start < g * v
    ensures var p := ToPixels(t, g, PartOf(width, g), PartOf(height, v));
            0 <= p.x && p.x + p.width <= width && 0 <= p.y && p.y + p.height <= height
  {
    hide Row, Column, PartOf, Times;
    RowBelow(t.start, g, v);
    WholeCells(width, g);
    WholeCells(height, v);
    PartsFit(Column(t.start, g), t.span, g, PartOf(width, g), width);
    PartsFit(Row(t.start, g), 1, v, PartOf(height, v), height);
    OneTimes(PartOf(height, v));
  }

  lemma RowBelow(cell: nat, g: nat, v: nat)
    requires g > 0 && cell < g * v
    ensures Row(cell, g) < v
  {
    Between(0, v, g, cell);
  }

  /** Some parts of a length lie within it. */
  lemma PartsFit(first: nat, span: nat, parts: nat, part: nat, length: nat)
    requires first + span <= parts && part * parts <= length
    ensures 0 <= Times(first, part) && Times(first, part) + Times(span, part) <= length
  {
    MulMono(part, first + span, parts);
    assert (first + span) * part == first * part + span * part;
  }

  /** The parts leave over fewer pixels than there are parts. */
  lemma WholeCells(width: nat, g: nat)
    requires g > 0
    ensures PartOf(width, g) * g <= width < PartOf(width, g) * g + g
  {
  }

  // ----- the loop

  /** The state of the loop before a tile is drawn: the cells occupied, the cells to spare that
      are left, and how the two fit. */
  predicate Midway(g: nat, spare: int, index: nat, gridsOccupied: nat, extra: int)
    requires g > 0
  {
    var row := Row(gridsOccupied, g);
    && gridsOccupied == index + (spare - extra)
    && extra == (if row < spare then spare - row else 0)
    && (row < spare ==> Column(gridsOccupied, g) <= g - 2)
  }

  lemma NextCell(g: nat, p: nat, k: nat)
    requires g > 0 && Column(p, g) + k <= g
    ensures if Column(p, g) + k < g then Row(p + k, g) == Row(p, g) && Column(p + k, g) == Column(p, g) + k
            else Row(p + k, g) == Row(p, g) + 1 && Column(p + k, g) == 0
  {
    var r, c := p / g, p % g;
    assert p == r * g + c;
    if c + k < g {
      DivUnique(g, p + k, r, c + k);
    } else {
      assert p + k == (r + 1) * g + 0;
      DivUnique(g, p + k, r + 1, 0);
    }
  }

  lemma DivUnique(g: nat, p: nat, q: nat, m: nat)
    requires m < g && p == q * g + m
    ensures p / g == q && p % g == m
  {
    var q', m' := p / g, p % g;
    assert p == q' * g + m';
    assert (q' + 1) * g == q' * g + g && (q + 1) * g == q * g + g;
    StepsApart(g, q', q);
    StepsApart(g, q, q');
  }

  lemma StepsApart(g: nat, a: nat, b: nat)
    ensures a < b ==> (a + 1) * g <= b * g
  {
    if a < b { MulMono(g, a + 1, b); }
  }

  lemma OneTimes(part: nat)
    ensures Times(1, part) == part
  {
  }

  /** One turn of the loop keeps the fit. */
  lemma TurnFits(g: nat, spare: int, index: nat, gridsOccupied: nat, extra: int)
    requires g > 0 && Midway(g, spare, index, gridsOccupied, extra) && (g == 1 ==> spare == 0) && spare >= 0
    ensures var wide := extra > 0 && Column(gridsOccupied, g) == g - 2;
            var t := Tile(gridsOccupied, if wide then 2 else 1);
            && InRow(t, g) && t.span == SpanAt(g, spare, gridsOccupied)
            && Midway(g, spare, index + 1, gridsOccupied + t.span, if wide then extra - 1 else extra)
  {
    var wide := extra > 0 && Column(gridsOccupied, g) == g - 2;
    NextCell(g, gridsOccupied, if wide then 2 else 1);
    hide Row, Column;
  }

  lemma TwoRowsFit(g: nat, p: nat, v: nat)
    requires g > 0
    ensures Row(p, g) + 1 < v ==> p - Column(p, g) + 2 * g <= Cells(g, v)
  {
    var row := p / g;
    assert p == row * g + p % g;
    assert (row + 1 + 1) * g == row * g + 2 * g;
    StepsApart(g, row + 1, v);
  }

  /** After the last instance nothing is left to spare and the grid is full. */
  lemma LoopEndsFull(n: nat, g: nat, v: nat, gridsOccupied: nat, extra: int)
    requires n >= 1 && g >= 1 && 0 <= Cells(g, v) - n < v <= g
    requires Midway(g, Cells(g, v) - n, n, gridsOccupied, extra)
    ensures extra == 0 && gridsOccupied == Cells(g, v)
  {
    TwoRowsFit(g, gridsOccupied, v);
    hide Row, Column, Cells;
  }

  lemma TileAppended(tiles: seq<Tile>, t: Tile, g: nat, extra: int)
    requires g > 0 && EndToEnd(tiles) && Fitting(tiles, g, extra)
    requires t.start == End(tiles) && t.span >= 1 && InRow(t, g) && t.span == SpanAt(g, extra, t.start)
    ensures EndToEnd(tiles + [t]) && Fitting(tiles + [t], g, extra) && End(tiles + [t]) == t.start + t.span
  {
    forall i | 0 <= i < |tiles + [t]| ensures (tiles + [t])[..i] == if i < |tiles| then tiles[..i] else tiles {
    }
  }

  lemma ViewportAppended(viewports: seq<Viewport>, tiles: seq<Tile>, t: Tile, g: nat, cellWidth: nat, cellHeight: nat)
    requires g > 0 && Drawn(viewports, tiles, g, cellWidth, cellHeight)
    ensures Drawn(viewports + [ToPixels(t, g, cellWidth, cellHeight)], tiles + [t], g, cellWidth, cellHeight)
  {
    hide ToPixels;
  }

  /** One turn of the loop: the tile it lays and the viewport it draws. */
  lemma TurnDone(viewports: seq<Viewport>, tiles: seq<Tile>, g: nat, spare: int, extra: int, cellWidth: nat,
                 cellHeight: nat)
    requires g > 0 && spare >= 0 && (g == 1 ==> spare == 0)
    requires EndToEnd(tiles) && Midway(g, spare, |tiles|, End(tiles), extra) && Fitting(tiles, g, spare)
    requires Drawn(viewports, tiles, g, cellWidth, cellHeight)
    ensures var p := End(tiles);
            var wide := extra > 0 && Column(p, g) == g - 2;
            var t := Tile(p, if wide then 2 else 1);
            var tiles' := tiles + [t];
            && EndToEnd(tiles') && End(tiles') == p + t.span && Fitting(tiles', g, spare)
            && Midway(g, spare, |tiles'|, End(tiles'), if wide then extra - 1 else extra)
            && Drawn(viewports + [Viewport(Times(Column(p, g), cellWidth), Times(Row(p, g), cellHeight),
                                           if wide then Times(2, cellWidth) else cellWidth, cellHeight)],
                     tiles', g, cellWidth, cellHeight)
  {
    hide Midway, Times, End, Row, Column, InRow, SpanAt, EndToEnd, Fitting, Drawn;
    var p := End(tiles);
    var t := Tile(p, if extra > 0 && Column(p, g) == g - 2 then 2 else 1);
    TurnFits(g, spare, |tiles|, p, extra);
    TileAppended(tiles, t, g, spare);
    ViewportAppended(viewports, tiles, t, g, cellWidth, cellHeight);
    OneTimes(cellWidth);
  }

  /** The loop, once the grid is known. */
  method DrawTiles(instances: nat, gridSize: nat, numberVertically: nat, cellWidth: nat, cellHeight: nat)
    returns (viewports: seq<Viewport>, ghost tiles: seq<Tile>)
    requires instances >= 1 && 1 <= numberVertically <= gridSize
    requires 0 <= Cells(gridSize, numberVertically) - instances < numberVertically
    ensures LaidOut(tiles, instances, gridSize, numberVertically)
    ensures Drawn(viewports, tiles, gridSize, cellWidth, cellHeight)
  {
    hide Cells, Midway, Times, End, Row, Column, ToPixels, EndToEnd, Fitting, Drawn, InRow, SpanAt;
    viewports, tiles := [], [];
    var extra := Cells(gridSize, numberVertically) - instances;
    ghost var spare := extra;
    var gridsOccupied := 0;
    NothingDrawn(gridSize, spare);
    for index := 0 to instances
      invariant EndToEnd(tiles) && End(tiles) == gridsOccupied && |tiles| == index
      invariant Midway(gridSize, spare, index, gridsOccupied, extra) && Fitting(tiles, gridSize, spare)
      invariant Drawn(viewports, tiles, gridSize, cellWidth, cellHeight)
    {
      TurnDone(viewports, tiles, gridSize, spare, extra, cellWidth, cellHeight);
      var hOffset := Times(Row(gridsOccupied, gridSize), cellHeight);
      var wOffset := Times(Column(gridsOccupied, gridSize), cellWidth);
      ghost var start := gridsOccupied;
      if extra > 0 && Column(gridsOccupied, gridSize) == gridSize - 2 {
        viewports := viewports + [Viewport(wOffset, hOffset, Times(2, cellWidth), cellHeight)];
        extra := extra - 1;
        gridsOccupied := gridsOccupied + 2;
      } else {
        viewports := viewports + [Viewport(wOffset, hOffset, cellWidth, cellHeight)];
        gridsOccupied := gridsOccupied + 1;
      }
      tiles := tiles + [Tile(start, gridsOccupied - start)];
    }
    LoopEndsFull(instances, gridSize, numberVertically, gridsOccupied, extra);
  }

  /** The viewports drawn for `instances` sources; `tiles` are the cells each takes. With no
      source the loop is not entered. */
  method DrawFrame(instances: nat, width: nat, height: nat) returns (viewports: seq<Viewport>, ghost tiles: seq<Tile>)
    ensures LaidOut(tiles, instances, GridSize(instances), NumberVertically(instances))
    ensures instances == 0 ==> viewports == []
    ensures instances > 0 ==>
              var g, v := GridSize(instances), NumberVertically(instances);
              g > 0 && v > 0 && Drawn(viewports, tiles, g, PartOf(width, g), PartOf(height, v))
  {
    viewports, tiles := [], [];
    var gridSize := GridSize(instances);
    var numberVertically := NumberVertically(instances);
    if instances > 0 {
      ExtraBelowRows(instances);
      hide GridSize, NumberVertically, LaidOut, Drawn, Cells, PartOf;
      viewports, tiles := DrawTiles(instances, gridSize, numberVertically, PartOf(width, gridSize),
          PartOf(height, numberVertically));
    }
  }

  lemma NothingDrawn(g: nat, spare: int)
    requires g > 0
    ensures EndToEnd([]) && End([]) == 0 && Fitting([], g, spare)
    ensures forall cellWidth, cellHeight :: Drawn([], [], g, cellWidth, cellHeight)
    ensures spare >= 0 && (g == 1 ==> spare == 0) ==> Midway(g, spare, 0, 0, spare)
  {
    assert 0 / g == 0 && 0 % g == 0;
  }
}
