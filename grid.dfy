// gva.util.Grid: a fixed-size cell grid laid out inside a container rectangle.
//
// Numbers are exact reals (the source uses doubles). A NaN argument to a setter is
// modelled by the NumberArg.NaN constructor and stored as 1.0, as the source does.

module Grid {

  /** A setter argument: a number, or something `isNaN` reports as not a number. */
  datatype NumberArg = Num(value: real) | NaN

  /** The stored value of a setter argument: the number itself, or 1 when it is not a number. */
  function Stored(a: NumberArg): real {
    match a
    case Num(v) => v
    case NaN => 1.0
  }

  datatype Point = Point(x: real, y: real)

  datatype GridBounds = GridBounds(x: real, y: real, width: real, height: real)

  datatype CellBounds = CellBounds(width: real, height: real, spacingX: real, spacingY: real)

  /** The distance from one cell's left (top) edge to the next one's. */
  function StepX(c: CellBounds): real { c.width + c.spacingX }
  function StepY(c: CellBounds): real { c.height + c.spacingY }

  /** The source divides by the steps; a zero step gives an infinite count and a loop that never ends. */
  predicate StepsNonZero(c: CellBounds) {
    StepX(c) != 0.0 && StepY(c) != 0.0
  }

  /** The number of cells along one axis: the extent less the spacing, over the step, rounded down. */
  function Count(extent: real, spacing: real, step: real): int
    requires step != 0.0
  {
    ((extent - spacing) / step).Floor
  }

  /** The space left over on one axis once `Count` cells are placed. */
  function Space(extent: real, spacing: real, step: real): real
    requires step != 0.0
  {
    (extent - spacing) - (Count(extent, spacing, step) as real) * step
  }

  /** The offset of the first cell on one axis. */
  function Start(centre: bool, extent: real, spacing: real, step: real): real
    requires step != 0.0
  {
    if centre then spacing + Space(extent, spacing, step) * 0.5 else 0.0
  }

  /** The position of the `i`-th cell on one axis. */
  function Offset(start: real, i: int, step: real): real {
    start + (i as real) * step
  }

  /** The first `n` cells of one row, left to right. */
  function RowCoords(startX: real, y: real, stepX: real, n: int): (r: seq<Point>)
    ensures |r| == if n < 0 then 0 else n
  {
    if n <= 0 then [] else RowCoords(startX, y, stepX, n - 1) + [Point(Offset(startX, n - 1, stepX), y)]
  }

  /** The first `rows` rows of `cols` cells each, row after row. */
  function Coords(startX: real, startY: real, stepX: real, stepY: real, rows: int, cols: int): seq<Point>
  {
    if rows <= 0 then []
    else Coords(startX, startY, stepX, stepY, rows - 1, cols)
         + RowCoords(startX, Offset(startY, rows - 1, stepY), stepX, cols)
  }

  /** What `refresh` computes from the bounds and the centring flags. */
  datatype Layout = Layout(rows: int, cols: int, cells: int, coords: seq<Point>)

  function LayoutOf(g: GridBounds, c: CellBounds, centreX: bool, centreY: bool): Layout
    requires StepsNonZero(c)
  {
    var cols := Count(g.width, c.spacingX, StepX(c));
    var rows := Count(g.height, c.spacingY, StepY(c));
    var startX := Start(centreX, g.width, c.spacingX, StepX(c));
    var startY := Start(centreY, g.height, c.spacingY, StepY(c));
    Layout(rows, cols, rows * cols, Coords(startX, startY, StepX(c), StepY(c), rows, cols))
  }

  class Grid {
    var rows: int
    var cols: int
    var cells: int
    var coords: seq<Point>
    var centerAlignX: bool
    var centerAlignY: bool
    var gridBounds: GridBounds
    var cellBounds: CellBounds

    /** The derived fields agree with the bounds, as after every `refresh`. */
    ghost predicate LaidOut()
      reads this
    {
      StepsNonZero(cellBounds)
      && Layout(rows, cols, cells, coords) == LayoutOf(gridBounds, cellBounds, centerAlignX, centerAlignY)
    }

    /** The source constructor does not call `refresh`; its zero defaults happen to be the layout of the default bounds. */
    constructor()
      ensures rows == 0 && cols == 0 && cells == 0 && coords == []
      ensures centerAlignX && centerAlignY
      ensures gridBounds == GridBounds(1.0, 1.0, 1.0, 1.0)
      ensures cellBounds == CellBounds(1.0, 1.0, 1.0, 1.0)
      ensures LaidOut()
    {
      rows := 0;
      cols := 0;
      cells := 0;
      coords := [];
      centerAlignX := true;
      centerAlignY := true;
      gridBounds := GridBounds(1.0, 1.0, 1.0, 1.0);
      cellBounds := CellBounds(1.0, 1.0, 1.0, 1.0);
    }

    method SetGridBounds(x: NumberArg, y: NumberArg, width: NumberArg, height: NumberArg)
      requires StepsNonZero(cellBounds)
      modifies this
      ensures gridBounds == GridBounds(Stored(x), Stored(y), Stored(width), Stored(height))
      ensures cellBounds == old(cellBounds)
      ensures centerAlignX == old(centerAlignX) && centerAlignY == old(centerAlignY)
      ensures LaidOut()
    {
      gridBounds := GridBounds(Stored(x), Stored(y), Stored(width), Stored(height));
      Refresh();
    }

    method SetCellBounds(width: NumberArg, height: NumberArg, spacingX: NumberArg, spacingY: NumberArg)
      requires StepsNonZero(CellBounds(Stored(width), Stored(height), Stored(spacingX), Stored(spacingY)))
      modifies this
      ensures cellBounds == CellBounds(Stored(width), Stored(height), Stored(spacingX), Stored(spacingY))
      ensures gridBounds == old(gridBounds)
      ensures centerAlignX == old(centerAlignX) && centerAlignY == old(centerAlignY)
      ensures LaidOut()
    {
      cellBounds := CellBounds(Stored(width), Stored(height), Stored(spacingX), Stored(spacingY));
      Refresh();
    }

    /** Recomputes rows, cols, cells and the row-major coordinates from the bounds. */
    method Refresh()
      requires StepsNonZero(cellBounds)
      modifies this
      ensures gridBounds == old(gridBounds) && cellBounds == old(cellBounds)
      ensures centerAlignX == old(centerAlignX) && centerAlignY == old(centerAlignY)
      ensures LaidOut()
    {
      var g, c := gridBounds, cellBounds;
      var stepX := c.width + c.spacingX;
      var stepY := c.height + c.spacingY;
      var newCols := ((g.width - c.spacingX) / stepX).Floor;
      var newRows := ((g.height - c.spacingY) / stepY).Floor;
      var spaceX := (g.width - c.spacingX) - (newCols as real) * stepX;
      var spaceY := (g.height - c.spacingY) - (newRows as real) * stepY;
      var startX := if centerAlignX then c.spacingX + spaceX * 0.5 else 0.0;
      var startY := if centerAlignY then c.spacingY + spaceY * 0.5 else 0.0;
      assert stepX == StepX(c);
      assert newCols == Count(g.width, c.spacingX, StepX(c));
      assert spaceX == Space(g.width, c.spacingX, StepX(c));
      assert startX == Start(centerAlignX, g.width, c.spacingX, StepX(c));
      assert startY == Start(centerAlignY, g.height, c.spacingY, StepY(c));

      var pushed := PushCoords(startX, startY, stepX, stepY, newRows, newCols);
      cols := newCols;
      rows := newRows;
      coords := pushed;
      cells := rows * cols;
    }
  }

  /** The nested row/column loops of `refresh`, pushing one coordinate per cell. */
  method PushCoords(startX: real, startY: real, stepX: real, stepY: real, rows: int, cols: int)
    returns (pushed: seq<Point>)
    ensures pushed == Coords(startX, startY, stepX, stepY, rows, cols)
  {
    pushed := [];
    var row := 0;
    while row < rows
      invariant 0 <= row <= if rows < 0 then 0 else rows
      invariant pushed == Coords(startX, startY, stepX, stepY, row, cols)
    {
      var y := Offset(startY, row, stepY);
      var col := 0;
      while col < cols
        invariant 0 <= col <= if cols < 0 then 0 else cols
        invariant pushed == Coords(startX, startY, stepX, stepY, row, cols) + RowCoords(startX, y, stepX, col)
      {
        var p := Point(Offset(startX, col, stepX), y);
        assert RowCoords(startX, y, stepX, col + 1) == RowCoords(startX, y, stepX, col) + [p];
        pushed := pushed + [p];
        col := col + 1;
      }
      assert RowCoords(startX, y, stepX, col) == RowCoords(startX, y, stepX, cols);
      assert Coords(startX, startY, stepX, stepY, row + 1, cols)
          == Coords(startX, startY, stepX, stepY, row, cols) + RowCoords(startX, y, stepX, cols);
      row := row + 1;
    }
  }

  // ---------------------------------------------------------------------------
  // Properties of the layout

  lemma MulLeft(a: real, b: real, k: real)
    requires a <= b && k > 0.0
    ensures a * k <= b * k
  {
  }

  lemma MulStrict(a: real, b: real, k: real)
    requires a < b && k > 0.0
    ensures a * k < b * k
  {
  }

  /** `x` over `step` rounded down is how many steps fit into `x`: one more does not. */
  lemma FloorDivBounds(x: real, step: real)
    requires step > 0.0
    ensures ((x / step).Floor as real) * step <= x < ((x / step).Floor as real) * step + step
  {
    var q := x / step;
    var f := q.Floor as real;
    assert q * step == x;
    MulLeft(f, q, step);
    MulStrict(q, f + 1.0, step);
    assert q * step < (f + 1.0) * step;
    assert (f + 1.0) * step == f * step + step;
    assert x < f * step + step;
  }

  /** The count is the largest number of cells that fit, and the leftover space is less than one step. */
  lemma CountMaximal(extent: real, spacing: real, step: real)
    requires step > 0.0
    ensures var n := Count(extent, spacing, step);
      spacing + (n as real) * step <= extent < spacing + (n as real) * step + step
    ensures 0.0 <= Space(extent, spacing, step) < step
  {
    FloorDivBounds(extent - spacing, step);
  }

  /** An extent of 0 with a positive gutter no wider than a step gives a count of -1, not 0. */
  lemma ZeroExtentCount(spacing: real, step: real)
    requires 0.0 < spacing <= step
    ensures Count(0.0, spacing, step) == -1
  {
    FloorDivBounds(0.0 - spacing, step);
    FloorIsMinusOne(Count(0.0, spacing, step), step, 0.0 - spacing);
  }

  lemma FloorIsMinusOne(f: int, step: real, x: real)
    requires step > 0.0 && -step <= x < 0.0
    requires (f as real) * step <= x < (f as real) * step + step
    ensures f == -1
  {
    if f >= 0 {
      MulLeft(0.0, f as real, step);
    } else if f <= -2 {
      MulLeft((f as real) + 1.0, -1.0, step);
    }
  }

  lemma {:induction false} RowCoordsAt(startX: real, y: real, stepX: real, n: int, c: int)
    requires 0 <= c < n
    ensures RowCoords(startX, y, stepX, n)[c] == Point(Offset(startX, c, stepX), y)
    decreases n
  {
    if c < n - 1 {
      RowCoordsAt(startX, y, stepX, n - 1, c);
    }
  }

  lemma {:induction false} CoordsLength(startX: real, startY: real, stepX: real, stepY: real, rows: int, cols: int)
    ensures |Coords(startX, startY, stepX, stepY, rows, cols)| == (if rows < 0 then 0 else rows) * (if cols < 0 then 0 else cols)
    decreases rows
  {
    if rows > 0 {
      CoordsLength(startX, startY, stepX, stepY, rows - 1, cols);
    }
  }

  /** Entry `row * cols + col` holds the cell at column `col` of row `row`. */
  lemma {:induction false} CoordsAt(startX: real, startY: real, stepX: real, stepY: real, rows: int, cols: int, r: int, c: int)
    requires 0 <= r < rows && 0 <= c < cols
    ensures r * cols + c < |Coords(startX, startY, stepX, stepY, rows, cols)|
    ensures Coords(startX, startY, stepX, stepY, rows, cols)[r * cols + c]
         == Point(Offset(startX, c, stepX), Offset(startY, r, stepY))
    decreases rows
  {
    var prefix := Coords(startX, startY, stepX, stepY, rows - 1, cols);
    var last := RowCoords(startX, Offset(startY, rows - 1, stepY), stepX, cols);
    CoordsLength(startX, startY, stepX, stepY, rows - 1, cols);
    CoordsLength(startX, startY, stepX, stepY, rows, cols);
    assert |prefix| == (rows - 1) * cols;
    if r < rows - 1 {
      CoordsAt(startX, startY, stepX, stepY, rows - 1, cols, r, c);
    } else {
      RowCoordsAt(startX, Offset(startY, rows - 1, stepY), stepX, cols, c);
      assert (prefix + last)[r * cols + c] == last[c];
    }
  }

  /** The layout's cells and coordinates: the count formulas, `cells == rows * cols`, and how many coordinates there are. */
  lemma LayoutCounts(g: GridBounds, c: CellBounds, centreX: bool, centreY: bool)
    requires StepsNonZero(c)
    ensures var l := LayoutOf(g, c, centreX, centreY);
      && l.cols == ((g.width - c.spacingX) / (c.width + c.spacingX)).Floor
      && l.rows == ((g.height - c.spacingY) / (c.height + c.spacingY)).Floor
      && l.cells == l.rows * l.cols
      && |l.coords| == (if l.rows < 0 then 0 else l.rows) * (if l.cols < 0 then 0 else l.cols)
      && (l.rows >= 0 && l.cols >= 0 ==> |l.coords| == l.cells)
  {
    var l := LayoutOf(g, c, centreX, centreY);
    CoordsLength(Start(centreX, g.width, c.spacingX, StepX(c)), Start(centreY, g.height, c.spacingY, StepY(c)),
                 StepX(c), StepY(c), l.rows, l.cols);
  }

  /** Each coordinate in row-major order; with centring off the grid starts at (0, 0). */
  lemma LayoutCoordsAt(g: GridBounds, c: CellBounds, centreX: bool, centreY: bool, r: int, k: int)
    requires StepsNonZero(c)
    requires 0 <= r < LayoutOf(g, c, centreX, centreY).rows && 0 <= k < LayoutOf(g, c, centreX, centreY).cols
    ensures var l := LayoutOf(g, c, centreX, centreY);
      var startX := Start(centreX, g.width, c.spacingX, StepX(c));
      var startY := Start(centreY, g.height, c.spacingY, StepY(c));
      && r * l.cols + k < |l.coords|
      && l.coords[r * l.cols + k] == Point(startX + (k as real) * StepX(c), startY + (r as real) * StepY(c))
      && (!centreX ==> l.coords[r * l.cols + k].x == (k as real) * StepX(c))
      && (!centreY ==> l.coords[r * l.cols + k].y == (r as real) * StepY(c))
  {
    var l := LayoutOf(g, c, centreX, centreY);
    CoordsAt(Start(centreX, g.width, c.spacingX, StepX(c)), Start(centreY, g.height, c.spacingY, StepY(c)),
             StepX(c), StepY(c), l.rows, l.cols, r, k);
  }

  /**
   * With centring on one axis and non-negative gutters, the margin before the first cell equals
   * the margin after the last one, and every cell lies inside the container.
   */
  lemma CentredMargins(extent: real, cellSize: real, spacing: real, k: int)
    requires spacing >= 0.0 && cellSize + spacing > 0.0
    requires 0 <= k < Count(extent, spacing, cellSize + spacing)
    ensures var step := cellSize + spacing;
      var n := Count(extent, spacing, step);
      var start := Start(true, extent, spacing, step);
      && extent - (start + (n as real) * step - spacing) == start
      && 0.0 <= start + (k as real) * step
      && start + (k as real) * step + cellSize <= extent
  {
    var step := cellSize + spacing;
    var n := Count(extent, spacing, step);
    var start := Start(true, extent, spacing, step);
    CountMaximal(extent, spacing, step);
    assert start == spacing + ((extent - spacing) - (n as real) * step) * 0.5;
    MulLeft(0.0, k as real, step);
    MulLeft((k as real) + 1.0, n as real, step);
    assert ((k as real) + 1.0) * step == (k as real) * step + step;
  }
}
