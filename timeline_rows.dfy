/**
 * Row virtualisation and per-bar rendering values: the window of rows drawn
 * for a scroll position, the bars in it, their horizontal percentages and
 * their selection, focus and search flags.
 */
module TimelineRows {
  import opened Wrappers
  import opened TraceTypes

  function IntMax(a: int, b: int): int { if a >= b then a else b }
  function IntMin(a: int, b: int): int { if a <= b then a else b }

  /** `max(0, floor(scrollTop / rowSize) - overscan)`. */
  function FirstVisible(scrollTop: real, overscan: int): int {
    IntMax(0, (scrollTop / ROW_SIZE as real).Floor - overscan)
  }

  /** `min(totalRows - 1, ceil((scrollTop + containerHeight) / rowSize) + overscan)`. */
  function LastVisible(scrollTop: real, containerHeight: real, totalRows: int, overscan: int): int {
    IntMin(totalRows - 1, Ceil((scrollTop + containerHeight) / ROW_SIZE as real) + overscan)
  }

  /** The bars whose row lies in [first, last], in their original order. */
  function VisibleBars(bars: seq<TimelineBar>, first: int, last: int): (r: seq<TimelineBar>)
    ensures |r| <= |bars|
  {
    if bars == [] then []
    else (if first <= bars[0].row <= last then [bars[0]] else []) + VisibleBars(bars[1..], first, last)
  }

  /** The visible bars are exactly the bars whose row is in [first, last]. */
  lemma {:induction false} VisibleBarsMembers(bars: seq<TimelineBar>, first: int, last: int)
    ensures forall b :: b in VisibleBars(bars, first, last) <==> b in bars && first <= b.row <= last
  {
    if bars != [] {
      VisibleBarsMembers(bars[1..], first, last);
      assert forall b :: b in bars <==> b == bars[0] || b in bars[1..];
    }
  }

  /** `getVisibleBars(scrollTop, containerHeight)` of the hook, and `visibleBars` of the row list: overscan 5. */
  function GetVisibleBars(bars: seq<TimelineBar>, totalRows: int, scrollTop: real, containerHeight: real): seq<TimelineBar> {
    VisibleBars(bars, FirstVisible(scrollTop, OVERSCAN), LastVisible(scrollTop, containerHeight, totalRows, OVERSCAN))
  }

  /** The height of the row list (and of the connector overlay): `totalRows * rowSize`. */
  function TotalHeight(totalRows: int): int {
    totalRows * ROW_SIZE
  }

  /** Every row of the layout, gap included, fits in the total height, and the last one ends exactly there. */
  lemma RowsFitTotalHeight(totalRows: int, row: int)
    requires 0 <= row < totalRows
    ensures row * ROW_SIZE + ROW_HEIGHT < TotalHeight(totalRows)
    ensures row == totalRows - 1 ==> row * ROW_SIZE + ROW_SIZE == TotalHeight(totalRows)
  {
  }

  lemma FloorLeIfLe(x: real, r: int)
    requires (r + 1) as real * ROW_SIZE as real > x
    ensures (x / ROW_SIZE as real).Floor <= r
  {
  }

  lemma CeilGeIfGe(x: real, r: int)
    requires r as real * ROW_SIZE as real <= x
    ensures r <= Ceil(x / ROW_SIZE as real)
  {
  }

  /**
   * Completeness of the window: a row that exists and overlaps the visible
   * band [scrollTop, scrollTop + containerHeight] is drawn, for any overscan
   * of at least 0.
   */
  lemma WindowCoversVisibleRows(scrollTop: real, containerHeight: real, totalRows: int, overscan: int, row: int)
    requires overscan >= 0
    requires 0 <= row < totalRows
    requires (row * ROW_SIZE + ROW_SIZE) as real > scrollTop
    requires (row * ROW_SIZE) as real <= scrollTop + containerHeight
    ensures FirstVisible(scrollTop, overscan) <= row <= LastVisible(scrollTop, containerHeight, totalRows, overscan)
  {
    FloorLeIfLe(scrollTop, row);
    CeilGeIfGe(scrollTop + containerHeight, row);
  }

  /** The window spans at most ceil((top + h)/rowSize) - floor(top/rowSize) + 2·overscan + 1 rows. */
  lemma WindowSize(scrollTop: real, containerHeight: real, totalRows: int, overscan: int)
    ensures LastVisible(scrollTop, containerHeight, totalRows, overscan) - FirstVisible(scrollTop, overscan) + 1 <=
            Ceil((scrollTop + containerHeight) / ROW_SIZE as real) - (scrollTop / ROW_SIZE as real).Floor + 2 * overscan + 1
  {
  }

  /** Bars numbered consecutively from `k`, as the layout numbers them (from 0). */
  predicate RowsFrom(bars: seq<TimelineBar>, k: int) {
    forall i :: 0 <= i < |bars| ==> bars[i].row == k + i
  }

  lemma {:induction false} VisibleAppend(a: seq<TimelineBar>, b: seq<TimelineBar>, first: int, last: int)
    ensures VisibleBars(a + b, first, last) == VisibleBars(a, first, last) + VisibleBars(b, first, last)
  {
    if a == [] {
      assert a + b == b;
    } else {
      assert (a + b)[1..] == a[1..] + b;
      VisibleAppend(a[1..], b, first, last);
    }
  }

  lemma {:induction false} VisibleNone(s: seq<TimelineBar>, first: int, last: int)
    requires forall i :: 0 <= i < |s| ==> !(first <= s[i].row <= last)
    ensures VisibleBars(s, first, last) == []
  {
    if s != [] {
      VisibleNone(s[1..], first, last);
    }
  }

  /**
   * On a layout (bar i on row i) the drawn bars are exactly the contiguous run of
   * bars from row `max(0, first)` through row `min(last, totalRows - 1)`, in order.
   */
  lemma VisibleBarsIsSlice(bars: seq<TimelineBar>, scrollTop: real, containerHeight: real)
    requires RowsFrom(bars, 0)
    ensures var first := FirstVisible(scrollTop, OVERSCAN);
            var last := LastVisible(scrollTop, containerHeight, |bars|, OVERSCAN);
            GetVisibleBars(bars, |bars|, scrollTop, containerHeight) ==
              if first <= last then bars[first..last + 1] else []
  {
    var first := FirstVisible(scrollTop, OVERSCAN);
    var last := LastVisible(scrollTop, containerHeight, |bars|, OVERSCAN);
    if first <= last {
      LayoutSlice(bars, first, last);
    } else {
      VisibleNone(bars, first, last);
    }
  }

  /** A run of bars numbered from `lo` on a layout: `bars[lo..hi]` holds rows `lo` to `hi - 1`. */
  lemma RowsOfSlice(bars: seq<TimelineBar>, lo: int, hi: int)
    requires RowsFrom(bars, 0) && 0 <= lo <= hi <= |bars|
    ensures RowsFrom(bars[lo..hi], lo)
  {
  }

  lemma {:induction false} VisibleRun(s: seq<TimelineBar>, k: int, first: int, last: int)
    requires RowsFrom(s, k)
    ensures first <= k && k + |s| <= last + 1 ==> VisibleBars(s, first, last) == s
    ensures k + |s| <= first || last < k ==> VisibleBars(s, first, last) == []
  {
    if s != [] {
      assert RowsFrom(s[1..], k + 1) by {
        forall i | 0 <= i < |s[1..]| ensures s[1..][i].row == k + 1 + i {
          assert s[1..][i] == s[i + 1];
        }
      }
      VisibleRun(s[1..], k + 1, first, last);
    }
  }

  lemma LayoutSlice(bars: seq<TimelineBar>, first: int, last: int)
    requires RowsFrom(bars, 0) && 0 <= first <= last <= |bars| - 1
    ensures VisibleBars(bars, first, last) == bars[first..last + 1]
  {
    RowsOfSlice(bars, 0, first);
    RowsOfSlice(bars, first, last + 1);
    RowsOfSlice(bars, last + 1, |bars|);
    SliceSplits(bars, first, last + 1);
    VisibleOfThree(bars[0..first], bars[first..last + 1], bars[last + 1..|bars|], first, last);
  }

  /** Rows below, inside and above the window `[first, last]`: only the middle run is drawn. */
  lemma VisibleOfThree(below: seq<TimelineBar>, mid: seq<TimelineBar>, above: seq<TimelineBar>, first: int, last: int)
    requires RowsFrom(below, 0) && |below| == first
    requires RowsFrom(mid, first) && first + |mid| == last + 1
    requires RowsFrom(above, last + 1)
    ensures VisibleBars(below + (mid + above), first, last) == mid
  {
    VisibleRun(below, 0, first, last);
    VisibleRun(mid, first, first, last);
    VisibleRun(above, last + 1, first, last);
    VisibleAppend(mid, above, first, last);
    VisibleAppend(below, mid + above, first, last);
  }

  lemma SliceSplits<T>(s: seq<T>, i: int, j: int)
    requires 0 <= i <= j <= |s|
    ensures s == s[0..i] + (s[i..j] + s[j..|s|])
  {
  }

  // ---------------------------------------------------------------------
  // Per-bar values
  // ---------------------------------------------------------------------

  function VisibleDuration(vp: Viewport): real { vp.endMs - vp.startMs }

  /** `getBarLeftPercent` / the row's `leftPercent`. */
  function LeftPercent(bar: TimelineBar, vp: Viewport): real
    requires VisibleDuration(vp) != 0.0
  {
    (bar.startMs - vp.startMs) / VisibleDuration(vp) * 100.0
  }

  /** `getBarWidthPercent` / the row's `widthPercent`. */
  function WidthPercent(bar: TimelineBar, vp: Viewport): real
    requires VisibleDuration(vp) != 0.0
  {
    (bar.endMs - bar.startMs) / VisibleDuration(vp) * 100.0
  }

  /**
   * The percentages place the bar on the viewport's 0..100 scale: the left edge
   * at the start's position, the right edge (left + width) at the end's, and a
   * bar inside the viewport stays inside [0, 100] with a width of at least 0.
   */
  lemma PercentsPlaceBar(bar: TimelineBar, vp: Viewport)
    requires VisibleDuration(vp) > 0.0
    ensures LeftPercent(bar, vp) + WidthPercent(bar, vp) == (bar.endMs - vp.startMs) / VisibleDuration(vp) * 100.0
    ensures bar.endMs >= bar.startMs ==> WidthPercent(bar, vp) >= 0.0
    ensures vp.startMs <= bar.startMs <= bar.endMs <= vp.endMs ==>
              0.0 <= LeftPercent(bar, vp) && LeftPercent(bar, vp) + WidthPercent(bar, vp) <= 100.0
    ensures bar.startMs == vp.startMs && bar.endMs == vp.endMs ==>
              LeftPercent(bar, vp) == 0.0 && WidthPercent(bar, vp) == 100.0
  {
    var d := VisibleDuration(vp);
    assert (bar.startMs - vp.startMs) / d + (bar.endMs - bar.startMs) / d == (bar.endMs - vp.startMs) / d;
    if vp.startMs <= bar.startMs <= bar.endMs <= vp.endMs {
      assert (bar.endMs - vp.startMs) <= d;
      assert (bar.endMs - vp.startMs) / d <= 1.0;
    }
  }

  /** What one drawn row is given. */
  datatype RenderedBar = RenderedBar(
    bar: TimelineBar,
    leftPercent: real,
    widthPercent: real,
    isSelected: bool,
    isFocused: bool,
    isSearchMatch: bool,
    isSearchActive: bool)

  /** The values the row list passes to one bar. */
  function Render(bar: TimelineBar, vp: Viewport, selectedSpanId: Option<string>, focusedIndex: Option<int>,
                  searchMatches: set<string>, isSearchActive: bool): RenderedBar
    requires VisibleDuration(vp) != 0.0
  {
    RenderedBar(bar, LeftPercent(bar, vp), WidthPercent(bar, vp),
                selectedSpanId == Some(bar.span.spanId),
                focusedIndex.Some? && bar.row == focusedIndex.value,
                bar.span.spanId in searchMatches, isSearchActive)
  }

  /** The drawn rows: the visible bars, each rendered. */
  function RenderRows(bars: seq<TimelineBar>, totalRows: int, vp: Viewport, selectedSpanId: Option<string>,
                      focusedIndex: Option<int>, searchMatches: set<string>, isSearchActive: bool,
                      scrollTop: real, containerHeight: real): (r: seq<RenderedBar>)
    requires VisibleDuration(vp) != 0.0
    ensures |r| == |GetVisibleBars(bars, totalRows, scrollTop, containerHeight)|
  {
    var visible := GetVisibleBars(bars, totalRows, scrollTop, containerHeight);
    seq(|visible|, i requires 0 <= i < |visible| =>
      Render(visible[i], vp, selectedSpanId, focusedIndex, searchMatches, isSearchActive))
  }

  /** The rendered rows are the visible bars, flagged focused exactly at the focused row. */
  lemma RenderedFocus(bars: seq<TimelineBar>, totalRows: int, vp: Viewport, selectedSpanId: Option<string>,
                      focusedIndex: Option<int>, searchMatches: set<string>, isSearchActive: bool,
                      scrollTop: real, containerHeight: real)
    requires VisibleDuration(vp) != 0.0
    ensures var r := RenderRows(bars, totalRows, vp, selectedSpanId, focusedIndex, searchMatches, isSearchActive,
                                scrollTop, containerHeight);
            var visible := GetVisibleBars(bars, totalRows, scrollTop, containerHeight);
            forall i :: 0 <= i < |r| ==>
              r[i].bar == visible[i] &&
              (r[i].isFocused <==> focusedIndex.Some? && visible[i].row == focusedIndex.value)
  {
  }

  /**
   * On a layout, at most one drawn row is focused, it is the bar at the
   * focused row, and no row is focused without a focus.
   */
  lemma FocusedRowIsUnique(bars: seq<TimelineBar>, vp: Viewport, selectedSpanId: Option<string>,
                           focusedIndex: Option<int>, searchMatches: set<string>, isSearchActive: bool,
                           scrollTop: real, containerHeight: real)
    requires RowsFrom(bars, 0) && VisibleDuration(vp) != 0.0
    ensures var r := RenderRows(bars, |bars|, vp, selectedSpanId, focusedIndex, searchMatches, isSearchActive,
                                scrollTop, containerHeight);
            (forall i, j :: 0 <= i < |r| && 0 <= j < |r| && r[i].isFocused && r[j].isFocused ==> i == j) &&
            (focusedIndex.None? ==> forall i :: 0 <= i < |r| ==> !r[i].isFocused) &&
            (forall i :: 0 <= i < |r| && r[i].isFocused ==> 0 <= focusedIndex.value < |bars| && r[i].bar == bars[focusedIndex.value])
  {
    var first := FirstVisible(scrollTop, OVERSCAN);
    var last := LastVisible(scrollTop, containerHeight, |bars|, OVERSCAN);
    var r := RenderRows(bars, |bars|, vp, selectedSpanId, focusedIndex, searchMatches, isSearchActive,
                        scrollTop, containerHeight);
    VisibleBarsIsSlice(bars, scrollTop, containerHeight);
    RenderedFocus(bars, |bars|, vp, selectedSpanId, focusedIndex, searchMatches, isSearchActive, scrollTop, containerHeight);
    if first <= last {
      FocusOnSlice(r, bars, first, last + 1, focusedIndex);
    }
  }

  /** Rows drawn for the slice `bars[lo..hi]` of a layout are focused at most once, at the focused row. */
  lemma FocusOnSlice(r: seq<RenderedBar>, bars: seq<TimelineBar>, lo: int, hi: int, focusedIndex: Option<int>)
    requires RowsFrom(bars, 0) && 0 <= lo <= hi <= |bars| && |r| == hi - lo
    requires forall i :: 0 <= i < |r| ==>
               r[i].bar == bars[lo..hi][i] &&
               (r[i].isFocused <==> focusedIndex.Some? && bars[lo..hi][i].row == focusedIndex.value)
    ensures forall i, j :: 0 <= i < |r| && 0 <= j < |r| && r[i].isFocused && r[j].isFocused ==> i == j
    ensures forall i :: 0 <= i < |r| && r[i].isFocused ==> 0 <= focusedIndex.value < |bars| && r[i].bar == bars[focusedIndex.value]
  {
    assert forall i :: 0 <= i < |r| ==> bars[lo..hi][i] == bars[lo + i] && bars[lo + i].row == lo + i;
  }

  /** A drawn row is a search match iff its span id is among the matches. */
  lemma SearchFlagIsMembership(bars: seq<TimelineBar>, totalRows: int, vp: Viewport, selectedSpanId: Option<string>,
                               focusedIndex: Option<int>, searchMatches: set<string>, isSearchActive: bool,
                               scrollTop: real, containerHeight: real)
    requires VisibleDuration(vp) != 0.0
    ensures var r := RenderRows(bars, totalRows, vp, selectedSpanId, focusedIndex, searchMatches, isSearchActive,
                                scrollTop, containerHeight);
            forall i :: 0 <= i < |r| ==>
              r[i].bar in bars &&
              (r[i].isSearchMatch <==> r[i].bar.span.spanId in searchMatches) &&
              (r[i].isSelected <==> selectedSpanId == Some(r[i].bar.span.spanId))
  {
    var visible := GetVisibleBars(bars, totalRows, scrollTop, containerHeight);
    VisibleBarsMembers(bars, FirstVisible(scrollTop, OVERSCAN), LastVisible(scrollTop, containerHeight, totalRows, OVERSCAN));
    assert forall i :: 0 <= i < |visible| ==> visible[i] in visible;
  }
}
