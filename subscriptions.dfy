// gva.component.Subscriptions: the subscription carousel.
//
// The carousel keeps the list of subscribed show elements and the index of the one in the
// spotlight. refresh decides which shows are visible: as many stacked shows as fit left of
// the spotlight, then one full-width show and as many stacked shows as fit to its right,
// and it gives each visible show its `left` offset and centres the grid.
//
// Each show element is identified here by its show id (the `id` attribute of its article).
// The DOM is reduced to what refresh decides: the count shown in the menu, the spotlight
// index, each element's placement (hidden, or shown at a `left` offset) and the grid's
// `left` offset.

module Subscriptions {
  import opened JsRuntime

  const SPOTLIGHT_WIDTH: int := 414
  const CELL_WIDTH: int := 137
  const CELL_SPACING: int := 40
  const MIN_GRID_MARGIN: int := 125

  function Max(x: int, y: int): int { if x >= y then x else y }
  function Min(x: int, y: int): int { if x <= y then x else y }

  /**
   * How many stacked shows fit left of the spotlight: `Math.floor` of a division by the
   * positive spacing, which is Dafny's `/` on `int`.
   */
  function LeftMax(width: int): int {
    (width - SPOTLIGHT_WIDTH) / CELL_SPACING
  }

  /** The index of the leftmost visible show. */
  function ShowMin(current: int, width: int): int {
    Max(0, current - LeftMax(width))
  }

  /** The width left over once the spotlight and the stacked shows left of it are placed. */
  function SpaceRight(current: int, width: int): int {
    width - SPOTLIGHT_WIDTH - CELL_SPACING * (current - ShowMin(current, width))
  }

  /**
   * The index of the rightmost visible show: the spotlight, or, when a full-width show
   * fits right of it, that one and as many stacked shows as then fit, capped at the length.
   */
  function ShowMax(n: nat, current: int, width: int): int {
    var space := SpaceRight(current, width);
    if space > CELL_WIDTH + CELL_SPACING then
      Min(n, (space - (CELL_WIDTH + CELL_SPACING)) / CELL_SPACING + (current + 1))
    else current
  }

  /** What refresh leaves a show element as. */
  datatype Placement = Hidden | Shown(left: int)

  /** The offset the show after show `i` moves right by, when show `i` is visible. */
  function Advance(i: int, current: int): int {
    CELL_SPACING + if i == current then SPOTLIGHT_WIDTH else 0
  }

  /** `nextPosition` once the first `k` shows have been visited. */
  function Used(k: nat, current: int, lo: int, hi: int): int {
    if k == 0 then 0
    else Used(k - 1, current, lo, hi) + if lo <= k - 1 <= hi then Advance(k - 1, current) else 0
  }

  /** The placements of the first `k` shows. */
  function Placements(k: nat, current: int, lo: int, hi: int): (r: seq<Placement>)
    ensures |r| == k
  {
    if k == 0 then []
    else
      var p := if k - 1 < lo || k - 1 > hi then Hidden else Shown(Used(k - 1, current, lo, hi));
      Placements(k - 1, current, lo, hi) + [p]
  }

  /** What refresh computes for a non-empty list. */
  datatype Window = Window(spotlight: int, showMin: int, showMax: int, placements: seq<Placement>, gridLeft: real)

  /** The grid is shifted right by half the width its visible shows leave unused. */
  function GridLeft(used: int, width: int): real {
    var space := width - (used - CELL_SPACING + CELL_WIDTH);
    (MIN_GRID_MARGIN as real) + if space > 0 then (space as real) / 2.0 else 0.0
  }

  function WindowOf(n: nat, current: int, width: int): Window {
    var lo := ShowMin(current, width);
    var hi := ShowMax(n, current, width);
    Window(current, lo, hi, Placements(n, current, lo, hi), GridLeft(Used(n, current, lo, hi), width))
  }

  /** The window bounds, computed as refresh does, with `spaceRemaining` updated in place. */
  method Bounds(n: nat, current: int, width: int) returns (showMin: int, showMax: int)
    ensures showMin == ShowMin(current, width) && showMax == ShowMax(n, current, width)
  {
    var leftMax := (width - SPOTLIGHT_WIDTH) / CELL_SPACING;
    showMin := Max(0, current - leftMax);
    var spaceRemaining := width - SPOTLIGHT_WIDTH - CELL_SPACING * (current - showMin);
    showMax := current;
    if spaceRemaining > CELL_WIDTH + CELL_SPACING {
      showMax := showMax + 1;
      spaceRemaining := spaceRemaining - (CELL_WIDTH + CELL_SPACING);
      var rightMax := spaceRemaining / CELL_SPACING;
      showMax := Min(n, rightMax + showMax);
    }
  }

  /** The positioning loop of refresh: hides the shows outside `[lo, hi]` and places the others left to right. */
  method Place(n: nat, current: int, lo: int, hi: int) returns (placements: seq<Placement>, nextPosition: int)
    ensures placements == Placements(n, current, lo, hi)
    ensures nextPosition == Used(n, current, lo, hi)
  {
    placements := [];
    nextPosition := 0;
    var i := 0;
    while i < n
      invariant 0 <= i <= n
      invariant placements == Placements(i, current, lo, hi)
      invariant nextPosition == Used(i, current, lo, hi)
    {
      if i < lo || i > hi {
        placements := placements + [Hidden];
      } else {
        placements := placements + [Shown(nextPosition)];
        nextPosition := nextPosition + CELL_SPACING;
        nextPosition := nextPosition + if current == i then SPOTLIGHT_WIDTH else 0;
      }
      i := i + 1;
    }
  }

  /** A list of `n` shows whose spotlight index is in range (index 0 when the list is empty). */
  predicate IndexInRange(n: nat, current: int) {
    if n == 0 then current == 0 else 0 <= current < n
  }

  class Subscriptions {
    var shows: seq<string>
    var currentIndex: int
    /** The width of the grid area. */
    var gridMaxWidth: int
    /** The number displayed in the menu. */
    var count: nat
    /** What the last refresh of a non-empty list computed. */
    var window: Option<Window>

    ghost predicate Valid()
      reads this
    {
      IndexInRange(|shows|, currentIndex)
    }

    constructor ()
      ensures shows == [] && currentIndex == 0 && gridMaxWidth == 1
      ensures count == 0 && window == None
      ensures Valid()
    {
      shows := [];
      currentIndex := 0;
      gridMaxWidth := 1;
      count := 0;
      window := None;
    }

    /** Refreshes the count, and for a non-empty list the spotlight and the window. */
    method Refresh()
      requires Valid()
      modifies this
      ensures shows == old(shows) && currentIndex == old(currentIndex) && gridMaxWidth == old(gridMaxWidth)
      ensures count == |shows|
      ensures window == if |shows| < 1 then old(window) else Some(WindowOf(|shows|, currentIndex, gridMaxWidth))
      ensures Valid()
    {
      count := |shows|;
      if |shows| < 1 {
        return;
      }
      var lo, hi := Bounds(|shows|, currentIndex, gridMaxWidth);
      var placements, nextPosition := Place(|shows|, currentIndex, lo, hi);
      var spaceRemaining := gridMaxWidth - (nextPosition - CELL_SPACING + CELL_WIDTH);
      var gridPosition := MIN_GRID_MARGIN as real;
      gridPosition := gridPosition + if spaceRemaining > 0 then (spaceRemaining as real) / 2.0 else 0.0;
      window := Some(Window(currentIndex, lo, hi, placements, gridPosition));
    }

    /** Moves the spotlight one show left, unless it is on the first one. */
    method PrevShow()
      requires Valid()
      modifies this
      ensures shows == old(shows) && gridMaxWidth == old(gridMaxWidth)
      ensures currentIndex == if old(currentIndex) > 0 then old(currentIndex) - 1 else old(currentIndex)
      ensures old(currentIndex) > 0 ==> count == |shows| && window == Some(WindowOf(|shows|, currentIndex, gridMaxWidth))
      ensures old(currentIndex) <= 0 ==> count == old(count) && window == old(window)
      ensures Valid()
    {
      if currentIndex > 0 {
        currentIndex := currentIndex - 1;
        Refresh();
      }
    }

    /** Moves the spotlight one show right, unless it is on the last one. */
    method NextShow()
      requires Valid()
      modifies this
      ensures shows == old(shows) && gridMaxWidth == old(gridMaxWidth)
      ensures currentIndex == if old(currentIndex) + 1 < |shows| then old(currentIndex) + 1 else old(currentIndex)
      ensures old(currentIndex) + 1 < |shows| ==> count == |shows| && window == Some(WindowOf(|shows|, currentIndex, gridMaxWidth))
      ensures old(currentIndex) + 1 >= |shows| ==> count == old(count) && window == old(window)
      ensures Valid()
    {
      if currentIndex + 1 < |shows| {
        currentIndex := currentIndex + 1;
        Refresh();
      }
    }

    /** Appends the element of a show and refreshes; the spotlight index is kept. */
    method AddItem(showId: string)
      requires Valid()
      modifies this
      ensures shows == old(shows) + [showId]
      ensures currentIndex == old(currentIndex) && gridMaxWidth == old(gridMaxWidth)
      ensures count == |shows| && window == Some(WindowOf(|shows|, currentIndex, gridMaxWidth))
      ensures Valid()
    {
      shows := shows + [showId];
      Refresh();
    }

    /** Records the new width of the grid area (the wrap width less both margins) and refreshes. */
    method Resize(wrapWidth: int)
      requires Valid()
      modifies this
      ensures shows == old(shows) && currentIndex == old(currentIndex)
      ensures gridMaxWidth == wrapWidth - 2 * MIN_GRID_MARGIN
      ensures count == |shows|
      ensures window == if |shows| < 1 then old(window) else Some(WindowOf(|shows|, currentIndex, gridMaxWidth))
      ensures Valid()
    {
      gridMaxWidth := wrapWidth - 2 * MIN_GRID_MARGIN;
      Refresh();
    }

    /**
     * Removes the first element with the given show id, if there is one, pulls the
     * spotlight index back into range and refreshes.
     */
    method RemoveItem(showId: string)
      requires Valid()
      modifies this
      ensures shows == RemoveFirst(old(shows), showId)
      ensures currentIndex == if old(currentIndex) > |shows| - 1 then Max(0, |shows| - 1) else old(currentIndex)
      ensures gridMaxWidth == old(gridMaxWidth) && count == |shows|
      ensures window == if |shows| < 1 then old(window) else Some(WindowOf(|shows|, currentIndex, gridMaxWidth))
      ensures Valid()
    {
      shows := RemoveFirst(shows, showId);
      if currentIndex > |shows| - 1 {
        currentIndex := Max(0, |shows| - 1);
      }
      Refresh();
    }

    /**
     * A click on the show element at `index` brings it to the spotlight; a click on the
     * spotlight itself is ignored.
     */
    method OnItemClicked(index: int)
      requires Valid() && 0 <= index < |shows|
      modifies this
      ensures shows == old(shows) && gridMaxWidth == old(gridMaxWidth)
      ensures currentIndex == index
      ensures index != old(currentIndex) ==> count == |shows| && window == Some(WindowOf(|shows|, currentIndex, gridMaxWidth))
      ensures index == old(currentIndex) ==> count == old(count) && window == old(window)
      ensures Valid()
    {
      if index == currentIndex {
        return;
      }
      currentIndex := index;
      Refresh();
    }
  }

  // Properties of the window.

  /** The spotlight lies at or right of the leftmost visible show exactly when the area is at least as wide as the spotlight. */
  lemma ShowMinAtMostCurrent(current: int, width: int)
    requires current >= 0
    ensures ShowMin(current, width) >= 0
    ensures ShowMin(current, width) <= current <==> width >= SPOTLIGHT_WIDTH
  {
    if width < SPOTLIGHT_WIDTH {
      assert LeftMax(width) < 0;
    } else {
      assert LeftMax(width) >= 0;
    }
  }

  /** The spotlight and the stacked shows left of it fit in the grid area. */
  lemma LeftFits(current: int, width: int)
    requires current >= 0 && width >= SPOTLIGHT_WIDTH
    ensures SpaceRight(current, width) >= 0
    ensures current - ShowMin(current, width) == Min(current, LeftMax(width))
  {
    var d := width - SPOTLIGHT_WIDTH;
    assert CELL_SPACING * (d / CELL_SPACING) <= d;
  }

  /**
   * The rightmost visible show is the spotlight or right of it, and at most the length;
   * it is right of the spotlight exactly when a full-width show fits there.
   */
  lemma ShowMaxBounds(n: nat, current: int, width: int)
    requires 0 <= current < n
    ensures current <= ShowMax(n, current, width) <= n
    ensures ShowMax(n, current, width) > current <==> SpaceRight(current, width) > CELL_WIDTH + CELL_SPACING
  {
    var space := SpaceRight(current, width);
    if space > CELL_WIDTH + CELL_SPACING {
      assert (space - (CELL_WIDTH + CELL_SPACING)) / CELL_SPACING >= 0;
    }
  }

  /** `nextPosition` before a visible show: one spacing per visible show before it, and the spotlight's width once it is passed. */
  lemma {:induction false} UsedInWindow(k: nat, current: int, lo: int, hi: int)
    requires 0 <= lo <= k <= hi + 1
    ensures Used(k, current, lo, hi) == CELL_SPACING * (k - lo) + if lo <= current < k then SPOTLIGHT_WIDTH else 0
  {
    if k == lo {
      UsedBeforeWindow(k, current, lo, hi);
    } else {
      UsedInWindow(k - 1, current, lo, hi);
    }
  }

  lemma {:induction false} UsedBeforeWindow(k: nat, current: int, lo: int, hi: int)
    requires k <= lo
    ensures Used(k, current, lo, hi) == 0
  {
    if k > 0 {
      UsedBeforeWindow(k - 1, current, lo, hi);
    }
  }

  /** Nothing moves on past the window. */
  lemma {:induction false} UsedAfterWindow(k: nat, current: int, lo: int, hi: int)
    requires 0 <= lo <= hi + 1 <= k
    ensures Used(k, current, lo, hi) == Used(hi + 1, current, lo, hi)
  {
    if k > hi + 1 {
      UsedAfterWindow(k - 1, current, lo, hi);
    }
  }

  lemma {:induction false} PlacementsAt(k: nat, current: int, lo: int, hi: int, i: nat)
    requires i < k
    ensures Placements(k, current, lo, hi)[i] == Placements(i + 1, current, lo, hi)[i]
  {
    if i + 1 < k {
      PlacementsAt(k - 1, current, lo, hi, i);
    }
  }

  /**
   * Exactly the shows with index in `[showMin, showMax]` are visible; the leftmost is at
   * offset 0 and each next one is one spacing further right, plus the spotlight's width
   * after the spotlight.
   */
  lemma WindowPlacements(n: nat, current: int, width: int, i: nat)
    requires i < n
    ensures var w := WindowOf(n, current, width);
      w.placements[i].Shown? <==> w.showMin <= i <= w.showMax
    ensures var w := WindowOf(n, current, width);
      w.placements[i].Shown? ==>
        w.placements[i].left == CELL_SPACING * (i - w.showMin) + if w.showMin <= current < i then SPOTLIGHT_WIDTH else 0
    ensures var w := WindowOf(n, current, width);
      i + 1 < n && w.showMin <= i && i + 1 <= w.showMax ==>
        w.placements[i].Shown? && w.placements[i + 1].Shown?
        && w.placements[i + 1].left == w.placements[i].left + Advance(i, current)
  {
    var lo := ShowMin(current, width);
    var hi := ShowMax(n, current, width);
    PlacementsAt(n, current, lo, hi, i);
    if lo <= i <= hi {
      UsedInWindow(i, current, lo, hi);
    }
    if i + 1 < n && lo <= i && i + 1 <= hi {
      PlacementsAt(n, current, lo, hi, i + 1);
      UsedInWindow(i + 1, current, lo, hi);
    }
  }

  /** The spotlight show is visible exactly when the grid area is at least as wide as the spotlight. */
  lemma SpotlightVisible(n: nat, current: int, width: int)
    requires 0 <= current < n
    ensures WindowOf(n, current, width).placements[current].Shown? <==> width >= SPOTLIGHT_WIDTH
  {
    ShowMinAtMostCurrent(current, width);
    ShowMaxBounds(n, current, width);
    WindowPlacements(n, current, width, current);
  }

  /**
   * When a show fits right of the spotlight, the visible shows (the last one drawn at
   * full cell width) never reach past the grid area, so the grid is shifted right by
   * half the unused width.
   */
  lemma WindowFitsWidth(n: nat, current: int, width: int)
    requires 0 <= current < n && width >= SPOTLIGHT_WIDTH
    requires ShowMax(n, current, width) > current
    ensures var lo := ShowMin(current, width);
      var used := Used(n, current, lo, ShowMax(n, current, width));
      used - CELL_SPACING + CELL_WIDTH <= width
      && WindowOf(n, current, width).gridLeft == (MIN_GRID_MARGIN as real) + ((width - (used - CELL_SPACING + CELL_WIDTH)) as real) / 2.0
  {
    var lo := ShowMin(current, width);
    var hi := ShowMax(n, current, width);
    ShowMinAtMostCurrent(current, width);
    LeftFits(current, width);
    ShowMaxBounds(n, current, width);
    var last := Min(hi, n - 1);
    if hi == n {
      UsedSameWindow(n, current, lo, hi, n - 1);
      UsedInWindow(n, current, lo, n - 1);
    } else {
      UsedAfterWindow(n, current, lo, hi);
      UsedInWindow(hi + 1, current, lo, hi);
    }
    assert Used(n, current, lo, hi) == CELL_SPACING * (last + 1 - lo) + SPOTLIGHT_WIDTH;
    var space := SpaceRight(current, width);
    var r := (space - (CELL_WIDTH + CELL_SPACING)) / CELL_SPACING;
    assert CELL_SPACING * r <= space - (CELL_WIDTH + CELL_SPACING);
    assert last <= r + current + 1;
  }

  /** Cutting the window at its last existing show changes nothing up to that show. */
  lemma {:induction false} UsedSameWindow(k: nat, current: int, lo: int, hi: int, last: int)
    requires last <= hi && k <= last + 1
    ensures Used(k, current, lo, hi) == Used(k, current, lo, last)
  {
    if k > 0 {
      UsedSameWindow(k - 1, current, lo, hi, last);
    }
  }
}
