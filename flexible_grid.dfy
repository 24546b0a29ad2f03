// gva.component.FlexibleGrid: a Grid whose cells show one page of a list of items.
//
// The source class inherits from gva.util.Grid; here it holds its Grid in the `grid`
// field and calls the Grid's setters and refresh where the source calls the super class.
// The Grid's setters end with `this.refresh()`, which on a FlexibleGrid is the overriding
// refresh: each such setter call is modelled as the Grid's setter followed by this class's
// Refresh without transition.
// The DOM is reduced to what refresh decides for each item (shown at a coordinate, or
// hidden) and to the two "disabled" flags of the navigation buttons.

module FlexibleGrid {
  import opened JsRuntime
  import Grid

  /** JavaScript `Math.ceil` on an exact real. */
  function Ceil(x: real): int {
    -((-x).Floor)
  }

  /**
   * The page count, items over cells rounded up: zero cells give Infinity, or NaN for no
   * items. Where `cells` is the negative zero of 0 times a negative count, the source gets
   * -Infinity instead; the model does not tell the two apart, and the count is never read.
   */
  datatype PageCount = Pages(n: int) | Infinity | NotANumber

  function TotalPages(items: nat, cells: int): PageCount {
    if cells != 0 then Pages(Ceil((items as real) / (cells as real)))
    else if items > 0 then Infinity
    else NotANumber
  }

  /** With a positive page size, the page count is the least number of pages that hold every item. */
  lemma TotalPagesCover(items: nat, cells: int)
    requires cells > 0
    ensures TotalPages(items, cells).Pages?
    ensures var p := TotalPages(items, cells).n;
      (items as real) <= (p as real) * (cells as real) && ((p - 1) as real) * (cells as real) < (items as real)
  {
    var x := (items as real) / (cells as real);
    assert -x == (-(items as real)) / (cells as real);
    Grid.FloorDivBounds(-(items as real), cells as real);
  }

  /**
   * What an item is left as: shown at a grid coordinate, hidden, or visible at a place the
   * grid has not set (an item added since the last refresh, or one refresh showed but
   * could not position).
   */
  datatype ItemState = Shown(at: Grid.Point) | Hidden | Unpositioned

  function Max0(x: int): nat { if x < 0 then 0 else x }

  function MinInt(x: int, y: int): int { if x <= y then x else y }

  /**
   * The item indices in `[min, min + cells)` all have a coordinate: the j-th of them is
   * positioned at `coords[j]`, so there must be no more of them than coordinates.
   */
  predicate WindowFits(items: nat, min: int, cells: int, slots: nat) {
    var lo := Max0(min);
    var hi := MinInt(min + cells, items);
    hi <= lo || hi - lo <= slots
  }

  /** Item `i` is shown at the coordinate of its place in the window, if it is in the window and that coordinate exists. */
  function StateOf(i: int, min: int, cells: int, coords: seq<Grid.Point>): ItemState {
    if min <= i < min + cells && 0 <= i - Max0(min) < |coords| then Shown(coords[i - Max0(min)]) else Hidden
  }

  /** The state refresh gives each item: the items in the window are shown at successive coordinates. */
  function Placement(items: nat, min: int, cells: int, coords: seq<Grid.Point>): (r: seq<ItemState>)
    requires WindowFits(items, min, cells, |coords|)
    ensures |r| == items
    ensures forall i :: 0 <= i < items ==> (r[i].Shown? <==> min <= i < min + cells)
    ensures forall j :: 0 <= j < cells && 0 <= min && min + j < items ==> j < |coords| && r[min + j] == Shown(coords[j])
  {
    seq(items, i => StateOf(i, min, cells, coords))
  }

  /** The current page fits the coordinates of a layout. */
  predicate PageFits(items: nat, index: int, layout: Grid.Layout) {
    WindowFits(items, index, layout.cells, |layout.coords|)
  }

  /** Item `i`'s state before a refresh: its entry in the display, or unpositioned if it has none. */
  function Prior(display: seq<ItemState>, i: int): ItemState {
    if 0 <= i < |display| then display[i] else Unpositioned
  }

  /** Showing an item without moving it: a shown item stays where it is, any other becomes visible where the grid has not placed it. */
  function Reveal(s: ItemState): ItemState {
    if s.Shown? then s else Unpositioned
  }

  /**
   * The display a refresh leaves when it throws at item `k`, the first item of the page
   * without a coordinate. The items before `k` are placed as by a full refresh. Item `k` is
   * made visible without being moved, except under a transition, where the throw comes
   * before it is touched. The items after `k` keep their state.
   */
  function Interrupted(before: seq<ItemState>, items: nat, min: int, cells: int, coords: seq<Grid.Point>,
                       transition: bool): (r: seq<ItemState>)
    requires !WindowFits(items, min, cells, |coords|)
    ensures |r| == items
    ensures var k := Max0(min) + |coords|;
      && min <= k < min + cells && k < items
      && (forall i :: 0 <= i < k ==> (r[i].Shown? <==> min <= i) && (r[i].Shown? ==> r[i] == Shown(coords[i - Max0(min)])))
      && (transition ==> r[k] == Prior(before, k))
      && (!transition ==> r[k] != Hidden && (Prior(before, k).Shown? ==> r[k] == Prior(before, k)))
      && (forall i :: k < i < items ==> r[i] == Prior(before, i))
  {
    var k := Max0(min) + |coords|;
    seq(items, i => if i < k then StateOf(i, min, cells, coords)
                    else if i == k then (if transition then Prior(before, i) else Reveal(Prior(before, i)))
                    else Prior(before, i))
  }

  /** The new `_currentIndex` of nextPage: one page on, if that page starts before the last `cells` items. */
  function NextIndex(index: int, items: nat, cells: int): int {
    if index < items - cells then index + cells else index
  }

  /** The new `_currentIndex` of prevPage: one page back, clamped at 0, if not already at the start. */
  function PrevIndex(index: int, cells: int): int {
    if index > 0 then (if index - cells < 0 then 0 else index - cells) else index
  }

  class FlexibleGrid<T> {
    var grid: Grid.Grid
    var items: seq<T>
    var currentIndex: int
    var currentPage: int
    var totalPages: PageCount
    var display: seq<ItemState>
    var prevDisabled: bool
    var nextDisabled: bool

    constructor()
      ensures fresh(grid)
      ensures grid.rows == 0 && grid.cols == 0 && grid.cells == 0 && grid.coords == []
      ensures grid.cellBounds == Grid.CellBounds(1.0, 1.0, 1.0, 1.0) && grid.LaidOut()
      ensures items == [] && display == []
      ensures currentIndex == 0 && currentPage == 0 && totalPages == Pages(1)
      ensures !prevDisabled && !nextDisabled
    {
      grid := new Grid.Grid();
      items := [];
      currentIndex := 0;
      currentPage := 0;
      totalPages := Pages(1);
      display := [];
      prevDisabled := false;
      nextDisabled := false;
    }

    /** The state refresh leaves behind when it completes. */
    ghost predicate Refreshed()
      reads this, grid
    {
      && grid.LaidOut()
      && totalPages == TotalPages(|items|, grid.cells)
      && WindowFits(|items|, currentIndex, grid.cells, |grid.coords|)
      && display == Placement(|items|, currentIndex, grid.cells, grid.coords)
      && prevDisabled == (currentIndex < 1)
      && nextDisabled == (currentIndex + grid.cells > |items|)
    }

    /**
     * Sets the cell size, then sizes the grid to the context's bounds. Setting the cell size
     * already refreshes this grid, under the grid bounds it had; if that refresh throws, the
     * new bounds are never set. With no items, as when a grid is first set up, it cannot throw.
     */
    method Initialize(cellWidth: Grid.NumberArg, cellHeight: Grid.NumberArg,
                      cellSpacingX: Grid.NumberArg, cellSpacingY: Grid.NumberArg,
                      width: Grid.NumberArg, height: Grid.NumberArg) returns (ok: bool)
      requires Grid.StepsNonZero(Grid.CellBounds(Grid.Stored(cellWidth), Grid.Stored(cellHeight),
                                                 Grid.Stored(cellSpacingX), Grid.Stored(cellSpacingY)))
      modifies this, grid
      ensures grid == old(grid) && items == old(items) && currentIndex == old(currentIndex)
      ensures grid.cellBounds == Grid.CellBounds(Grid.Stored(cellWidth), Grid.Stored(cellHeight),
                                                 Grid.Stored(cellSpacingX), Grid.Stored(cellSpacingY))
      ensures var first := Grid.LayoutOf(old(grid.gridBounds), grid.cellBounds, old(grid.centerAlignX), old(grid.centerAlignY));
        grid.gridBounds == if PageFits(|items|, currentIndex, first)
                           then Grid.GridBounds(0.0, 0.0, Grid.Stored(width), Grid.Stored(height))
                           else old(grid.gridBounds)
      ensures items == [] ==> grid.gridBounds == Grid.GridBounds(0.0, 0.0, Grid.Stored(width), Grid.Stored(height))
      ensures ok == Refreshed()
    {
      grid.SetCellBounds(cellWidth, cellHeight, cellSpacingX, cellSpacingY);
      ok := Refresh(false);
      if ok {
        ok := Resize(width, height);
      }
    }

    /**
     * Takes the context's current size as the grid bounds, at the origin, and refreshes.
     * Setting the grid bounds refreshes this grid once already; the second refresh, reached
     * only when the first completes, finds the state the first left.
     */
    method Resize(width: Grid.NumberArg, height: Grid.NumberArg) returns (ok: bool)
      requires Grid.StepsNonZero(grid.cellBounds)
      modifies this, grid
      ensures grid == old(grid) && items == old(items) && currentIndex == old(currentIndex)
      ensures grid.cellBounds == old(grid.cellBounds)
      ensures grid.centerAlignX == old(grid.centerAlignX) && grid.centerAlignY == old(grid.centerAlignY)
      ensures grid.gridBounds == Grid.GridBounds(0.0, 0.0, Grid.Stored(width), Grid.Stored(height))
      ensures ok == Refreshed()
    {
      grid.SetGridBounds(Grid.Num(0.0), Grid.Num(0.0), width, height);
      ok := Refresh(false);
      if ok {
        ok := Refresh(false);
      }
    }

    /** Appends the item, visible where the context puts it, and refreshes without transition. */
    method AddItem(item: T) returns (ok: bool)
      requires Grid.StepsNonZero(grid.cellBounds)
      modifies this, grid
      ensures grid == old(grid) && grid.gridBounds == old(grid.gridBounds) && grid.cellBounds == old(grid.cellBounds)
      ensures items == old(items) + [item]
      ensures currentIndex == old(currentIndex)
      ensures ok == Refreshed()
    {
      items := items + [item];
      display := display + [Unpositioned];
      ok := Refresh(false);
    }

    method GetItems() returns (r: seq<T>)
      ensures r == items
    {
      r := items;
    }

    /**
     * Removes every item from the context and goes back to the first page; the removed items
     * take their display with them, and nothing is refreshed.
     */
    method Clear()
      modifies this
      ensures items == [] && display == [] && currentIndex == 0 && currentPage == 0
      ensures grid == old(grid) && totalPages == old(totalPages)
      ensures prevDisabled == old(prevDisabled) && nextDisabled == old(nextDisabled)
    {
      display := [];
      currentIndex := 0;
      currentPage := 0;
      items := [];
    }

    method PrevPage() returns (ok: bool)
      requires Grid.StepsNonZero(grid.cellBounds)
      modifies this, grid
      ensures grid == old(grid) && items == old(items)
      ensures grid.gridBounds == old(grid.gridBounds) && grid.cellBounds == old(grid.cellBounds)
      ensures currentIndex == PrevIndex(old(currentIndex), old(grid.cells))
      ensures old(currentIndex) > 0 ==> ok == Refreshed()
      ensures old(currentIndex) <= 0 ==> ok && unchanged(this, grid)
    {
      ok := true;
      if currentIndex > 0 {
        currentIndex := currentIndex - grid.cells;
        if currentIndex < 0 {
          currentIndex := 0;
        }
        ok := Refresh(true);
      }
    }

    method NextPage() returns (ok: bool)
      requires Grid.StepsNonZero(grid.cellBounds)
      modifies this, grid
      ensures grid == old(grid) && items == old(items)
      ensures grid.gridBounds == old(grid.gridBounds) && grid.cellBounds == old(grid.cellBounds)
      ensures currentIndex == NextIndex(old(currentIndex), |items|, old(grid.cells))
      ensures old(currentIndex) < |items| - old(grid.cells) ==> ok == Refreshed()
      ensures old(currentIndex) >= |items| - old(grid.cells) ==> ok && unchanged(this, grid)
    {
      ok := true;
      if currentIndex < |items| - grid.cells {
        currentIndex := currentIndex + grid.cells;
        ok := Refresh(true);
      }
    }

    /** A click on the previous-page button goes back; a click on the other one goes on. */
    method OnNavClick(onPrevButton: bool) returns (ok: bool)
      requires Grid.StepsNonZero(grid.cellBounds)
      modifies this, grid
      ensures grid == old(grid) && items == old(items)
      ensures grid.gridBounds == old(grid.gridBounds) && grid.cellBounds == old(grid.cellBounds)
      ensures currentIndex == if onPrevButton then PrevIndex(old(currentIndex), old(grid.cells))
                              else NextIndex(old(currentIndex), |items|, old(grid.cells))
      ensures onPrevButton ==>
        (old(currentIndex) > 0 ==> ok == Refreshed())
        && (old(currentIndex) <= 0 ==> ok && unchanged(this, grid))
      ensures !onPrevButton ==>
        (old(currentIndex) < |items| - old(grid.cells) ==> ok == Refreshed())
        && (old(currentIndex) >= |items| - old(grid.cells) ==> ok && unchanged(this, grid))
    {
      if onPrevButton {
        ok := PrevPage();
      } else {
        ok := NextPage();
      }
    }

    /**
     * Refreshes the Grid, then shows the items of the current page at successive
     * coordinates and hides the others; with `transition` they slide, and the display is
     * the one left when the slides end. `ok` is false where the source throws a TypeError:
     * an item of the page has no coordinate (`this.coords[j++]` is undefined), which
     * happens when both rows and cols are negative so that `cells` is positive while
     * `coords` is empty. The items before that one have been placed by then, that one has
     * been made visible unless it was to slide, and the buttons are left as they were.
     */
    method Refresh(transition: bool) returns (ok: bool)
      requires Grid.StepsNonZero(grid.cellBounds)
      modifies this, grid
      ensures grid == old(grid) && items == old(items) && currentIndex == old(currentIndex)
      ensures grid.gridBounds == old(grid.gridBounds) && grid.cellBounds == old(grid.cellBounds)
      ensures grid.centerAlignX == old(grid.centerAlignX) && grid.centerAlignY == old(grid.centerAlignY)
      ensures grid.LaidOut() && totalPages == TotalPages(|items|, grid.cells)
      ensures ok <==> WindowFits(|items|, currentIndex, grid.cells, |grid.coords|)
      ensures ok ==> Refreshed()
      ensures !ok ==> display == Interrupted(old(display), |items|, currentIndex, grid.cells, grid.coords, transition)
      ensures !ok ==> prevDisabled == old(prevDisabled) && nextDisabled == old(nextDisabled)
    {
      grid.Refresh();
      totalPages := TotalPages(|items|, grid.cells);
      var min := currentIndex;
      var max := min + grid.cells;
      var placed;
      ok, placed := PlaceItems(display, |items|, min, max, grid.coords, transition);
      display := placed;
      if !ok {
        return;
      }
      prevDisabled := min < 1;
      nextDisabled := max > |items|;
    }
  }

  /**
   * The loop of refresh over every item, with `j` counting the items of the page seen so far.
   * `ok` is false where the source reads a coordinate past the end of `coords`; `placed` is
   * then the display the loop leaves when it throws.
   */
  method PlaceItems(before: seq<ItemState>, n: nat, min: int, max: int, coords: seq<Grid.Point>, transition: bool)
    returns (ok: bool, placed: seq<ItemState>)
    ensures ok <==> WindowFits(n, min, max - min, |coords|)
    ensures ok ==> placed == Placement(n, min, max - min, coords)
    ensures !ok ==> placed == Interrupted(before, n, min, max - min, coords, transition)
  {
    placed := [];
    var i, j := 0, 0;
    while i < n
      invariant 0 <= i <= n && |placed| == i
      invariant j == (if i <= Max0(min) || max <= Max0(min) then 0 else MinInt(i, max) - Max0(min))
      invariant j <= |coords|
      invariant forall k :: 0 <= k < i ==> placed[k] == StateOf(k, min, max - min, coords)
    {
      if i >= min && i < max {
        if j >= |coords| {
          assert i == Max0(min) + |coords|;
          assert !WindowFits(n, min, max - min, |coords|);
          var stopped := if transition then Prior(before, i) else Reveal(Prior(before, i));
          InterruptedSplits(before, placed, n, min, max - min, coords, transition);
          placed := placed + [stopped] + seq(n - i - 1, m => Prior(before, i + 1 + m));
          return false, placed;
        }
        placed := placed + [Shown(coords[j])];
        j := j + 1;
      } else {
        placed := placed + [Hidden];
      }
      i := i + 1;
    }
    ok := true;
    assert forall k :: 0 <= k < n ==> placed[k] == Placement(n, min, max - min, coords)[k];
  }

  /** The display of an interrupted refresh: the items placed so far, the item that threw, and the untouched rest. */
  lemma InterruptedSplits(before: seq<ItemState>, done: seq<ItemState>, n: nat, min: int, cells: int,
                          coords: seq<Grid.Point>, transition: bool)
    requires !WindowFits(n, min, cells, |coords|)
    requires |done| == Max0(min) + |coords|
    requires forall k :: 0 <= k < |done| ==> done[k] == StateOf(k, min, cells, coords)
    ensures var i := |done|;
      i < n &&
      done + [if transition then Prior(before, i) else Reveal(Prior(before, i))]
           + seq(n - i - 1, m => Prior(before, i + 1 + m))
      == Interrupted(before, n, min, cells, coords, transition)
  {
    var i := |done|;
    var r := Interrupted(before, n, min, cells, coords, transition);
    var stopped := [if transition then Prior(before, i) else Reveal(Prior(before, i))];
    var rest := seq(n - i - 1, m => Prior(before, i + 1 + m));
    assert r[..i] == done;
    assert r[i..i + 1] == stopped;
    assert r[i + 1..] == rest;
    assert r == r[..i] + r[i..i + 1] + r[i + 1..];
  }

  /**
   * A refresh without transition that finds no coordinates at all, as on a collapsed grid,
   * throws at the current item: every item before it is hidden, it is visible, and the
   * items after it are as they were.
   */
  lemma InterruptedAtCurrent(before: seq<ItemState>, n: nat, min: int, cells: int)
    requires 0 <= min < n && cells > 0
    ensures !WindowFits(n, min, cells, 0)
    ensures var r := Interrupted(before, n, min, cells, [], false);
      && (forall i :: 0 <= i < min ==> r[i] == Hidden)
      && r[min] != Hidden
      && (forall i :: min < i < n ==> r[i] == Prior(before, i))
  {
  }

  // ---------------------------------------------------------------------------
  // Paging properties

  /** prevPage never leaves a negative index behind, from a non-negative one. */
  lemma PrevIndexNonNegative(index: int, cells: int)
    requires index >= 0
    ensures 0 <= PrevIndex(index, cells) && (index > 0 ==> PrevIndex(index, cells) < index || cells <= 0)
  {
  }

  /** nextPage moves by exactly one page, and only while a later page holds an item. */
  lemma NextIndexStep(index: int, items: nat, cells: int)
    ensures NextIndex(index, items, cells) != index ==> NextIndex(index, items, cells) == index + cells && index + cells < items
    ensures index + cells >= items ==> NextIndex(index, items, cells) == index
  {
  }

  /** A successful nextPage followed by prevPage restores the index, for non-negative page sizes. */
  lemma NextThenPrev(index: int, items: nat, cells: int)
    requires index >= 0 && cells >= 0
    requires index < items - cells
    ensures PrevIndex(NextIndex(index, items, cells), cells) == index
  {
  }

  /** With a negative page size (a collapsed grid), nextPage drives the index below 0. */
  lemma NextIndexNegativeCells()
    ensures NextIndex(0, 0, -1) == -1
  {
  }

  /**
   * The page window always has enough coordinates unless both rows and cols are negative:
   * with rows and cols non-negative there is one coordinate per cell, and with exactly
   * one of them negative `cells` is not positive and the window is empty.
   */
  lemma WindowFitsUnlessBothNegative(items: nat, min: int, rows: int, cols: int, slots: nat)
    requires min >= 0
    requires slots == Max0(rows) * Max0(cols)
    requires rows >= 0 || cols >= 0
    ensures WindowFits(items, min, rows * cols, slots)
  {
    if rows < 0 {
      assert rows * cols <= 0 by {
        if cols > 0 { assert rows * cols < 0; }
      }
    } else if cols < 0 {
      assert rows * cols <= 0 by {
        if rows > 0 { assert rows * cols < 0; }
      }
    }
  }

  /** With both rows and cols at -1 (a grid smaller than a gutter), one cell and no coordinates: any item on the page has no position. */
  lemma CollapsedGridHasNoRoom(items: nat, min: int)
    requires 0 <= min < items
    ensures !WindowFits(items, min, (-1) * (-1), Max0(-1) * Max0(-1))
  {
  }

  /** The next button stays enabled when the page ends exactly at the last item, though nextPage then does nothing. */
  lemma NextEnabledAtLastPage(index: int, items: nat, cells: int)
    requires index + cells == items
    ensures !(index + cells > items) && NextIndex(index, items, cells) == index
  {
  }
}
