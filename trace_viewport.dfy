/**
 * The viewport clamp and the timeline reducer: zoom, pan, zoom-to-span,
 * zoom-to-fit, focus movement, search text and collapse toggling.
 */
module TraceReducer {
  import opened Wrappers
  import opened TraceTypes
  import TraceLayout

  // ---------------------------------------------------------------------
  // clampViewport
  // ---------------------------------------------------------------------

  /** A window the clamp leaves alone: duration within [0.1%, 110%] of the trace, at most 5% past either end. */
  predicate Valid(vp: Viewport, traceStartMs: real, traceEndMs: real) {
    var d := traceEndMs - traceStartMs;
    d * 0.001 <= vp.endMs - vp.startMs <= d * 1.1 &&
    vp.startMs >= traceStartMs - d * 0.05 &&
    vp.endMs <= traceEndMs + d * 0.05
  }

  function Max(a: real, b: real): real { if a >= b then a else b }
  function Min(a: real, b: real): real { if a <= b then a else b }

  /** The window `clampViewport` returns. */
  function Clamp(vp: Viewport, traceStartMs: real, traceEndMs: real): Viewport {
    var traceDuration := traceEndMs - traceStartMs;
    var clamped := Max(traceDuration * 0.001, Min(vp.endMs - vp.startMs, traceDuration * 1.1));
    var padding := traceDuration * 0.05;
    var w1 := if vp.startMs < traceStartMs - padding
              then Viewport(traceStartMs - padding, traceStartMs - padding + clamped)
              else Viewport(vp.startMs, vp.startMs + clamped);
    if w1.endMs > traceEndMs + padding
    then Viewport(traceEndMs + padding - clamped, traceEndMs + padding)
    else w1
  }

  /** `clampViewport`, with its reassigned `startMs`/`endMs`. */
  method ClampViewport(vp: Viewport, traceStartMs: real, traceEndMs: real) returns (r: Viewport)
    ensures r == Clamp(vp, traceStartMs, traceEndMs)
    ensures traceEndMs >= traceStartMs ==> Valid(r, traceStartMs, traceEndMs)
  {
    var duration := vp.endMs - vp.startMs;
    var traceDuration := traceEndMs - traceStartMs;
    var minDuration := traceDuration * 0.001;
    var maxDuration := traceDuration * 1.1;
    var clampedDuration := Max(minDuration, Min(duration, maxDuration));
    var startMs := vp.startMs;
    var endMs := startMs + clampedDuration;
    var padding := traceDuration * 0.05;
    if startMs < traceStartMs - padding {
      startMs := traceStartMs - padding;
      endMs := startMs + clampedDuration;
    }
    if endMs > traceEndMs + padding {
      endMs := traceEndMs + padding;
      startMs := endMs - clampedDuration;
    }
    r := Viewport(startMs, endMs);
    ClampIsValid(vp, traceStartMs, traceEndMs);
  }

  /** For a non-negative trace duration the clamp always yields a valid window. */
  lemma ClampIsValid(vp: Viewport, traceStartMs: real, traceEndMs: real)
    ensures traceEndMs >= traceStartMs ==> Valid(Clamp(vp, traceStartMs, traceEndMs), traceStartMs, traceEndMs)
  {
  }

  /** The clamped duration is the requested one forced into [0.1%, 110%] of the trace. */
  lemma ClampDuration(vp: Viewport, traceStartMs: real, traceEndMs: real)
    requires traceEndMs >= traceStartMs
    ensures var d := traceEndMs - traceStartMs;
            var r := Clamp(vp, traceStartMs, traceEndMs);
            r.endMs - r.startMs == Max(d * 0.001, Min(vp.endMs - vp.startMs, d * 1.1))
  {
  }

  /** The clamp changes a window iff the window is not valid. */
  lemma ClampFixesExactlyValid(vp: Viewport, traceStartMs: real, traceEndMs: real)
    requires traceEndMs >= traceStartMs
    ensures Clamp(vp, traceStartMs, traceEndMs) == vp <==> Valid(vp, traceStartMs, traceEndMs)
  {
    ClampIsValid(vp, traceStartMs, traceEndMs);
  }

  /** Clamping twice is clamping once. */
  lemma ClampIdempotent(vp: Viewport, traceStartMs: real, traceEndMs: real)
    requires traceEndMs >= traceStartMs
    ensures Clamp(Clamp(vp, traceStartMs, traceEndMs), traceStartMs, traceEndMs) == Clamp(vp, traceStartMs, traceEndMs)
  {
    ClampIsValid(vp, traceStartMs, traceEndMs);
    ClampFixesExactlyValid(Clamp(vp, traceStartMs, traceEndMs), traceStartMs, traceEndMs);
  }

  // ---------------------------------------------------------------------
  // timelineReducer
  // ---------------------------------------------------------------------

  function Duration(vp: Viewport): real { vp.endMs - vp.startMs }

  /** The window ZOOM asks for before clamping: `factor` times narrower, keeping `centerMs` at the same fraction. */
  function ZoomedWindow(vp: Viewport, centerMs: real, factor: real): Viewport
    requires factor != 0.0 && Duration(vp) != 0.0
  {
    var newDuration := Duration(vp) / factor;
    var ratio := (centerMs - vp.startMs) / Duration(vp);
    var newStart := centerMs - ratio * newDuration;
    Viewport(newStart, newStart + newDuration)
  }

  /**
   * ZOOM divides by its factor and by the current duration; the model asks for
   * both to be non-zero (the source would produce an infinite or NaN window).
   */
  predicate CanReduce(s: TimelineState, a: TimelineAction) {
    a.Zoom? ==> a.factor != 0.0 && Duration(s.viewport) != 0.0
  }

  /** `timelineReducer(state, action)`. */
  function Reduce(s: TimelineState, a: TimelineAction): TimelineState
    requires CanReduce(s, a)
  {
    match a
    case Reset(next) => next
    case SetViewport(vp) => s.(viewport := vp)
    case Zoom(c, f, ts, te) => s.(viewport := Clamp(ZoomedWindow(s.viewport, c, f), ts, te))
    case Pan(dm, ts, te) =>
      s.(viewport := Clamp(Viewport(s.viewport.startMs + dm, s.viewport.endMs + dm), ts, te))
    case ZoomToSpan(st, en, ts, te) =>
      var padding := (en - st) * 0.1;
      s.(viewport := Clamp(Viewport(st - padding, en + padding), ts, te))
    case ZoomToFit(ts, te) =>
      var padding := (te - ts) * 0.02;
      s.(viewport := Viewport(ts - padding, te + padding))
    case SetFocusedIndex(i) => s.(focusedIndex := i)
    case FocusNext(maxIndex) =>
      s.(focusedIndex := Some(if s.focusedIndex.None? then 0
                              else if s.focusedIndex.value + 1 <= maxIndex then s.focusedIndex.value + 1
                              else maxIndex))
    case FocusPrev =>
      s.(focusedIndex := Some(if s.focusedIndex.None? then 0
                              else if 0 >= s.focusedIndex.value - 1 then 0
                              else s.focusedIndex.value - 1))
    case SetSearch(q) => s.(searchQuery := q)
    case ToggleCollapse(id) =>
      s.(expandedSpanIds := if id in s.expandedSpanIds then s.expandedSpanIds - {id} else s.expandedSpanIds + {id})
    case ExpandAll(ids) => s.(expandedSpanIds := set i | i in ids)
    case CollapseAll => s.(expandedSpanIds := {})
  }

  /** The trace window an action carries, if it carries one. */
  predicate CarriesBounds(a: TimelineAction) {
    a.Zoom? || a.Pan? || a.ZoomToSpan? || a.ZoomToFit?
  }

  /** Actions that touch only the viewport. */
  predicate IsViewportAction(a: TimelineAction) {
    a.SetViewport? || CarriesBounds(a)
  }

  // --- per-action properties ---

  /**
   * ZOOM: the requested duration is the old one divided by the factor, the
   * result is that request clamped, and when the clamp keeps it the zoom
   * centre sits at the same fraction of the window as before.
   */
  lemma ZoomKeepsFocalPoint(s: TimelineState, centerMs: real, factor: real, ts: real, te: real)
    requires factor != 0.0 && Duration(s.viewport) != 0.0
    ensures var w := ZoomedWindow(s.viewport, centerMs, factor);
            Duration(w) == Duration(s.viewport) / factor &&
            Reduce(s, Zoom(centerMs, factor, ts, te)).viewport == Clamp(w, ts, te) &&
            (te >= ts && Valid(w, ts, te) ==>
              var r := Reduce(s, Zoom(centerMs, factor, ts, te)).viewport;
              r == w &&
              (centerMs - r.startMs) / Duration(r) == (centerMs - s.viewport.startMs) / Duration(s.viewport))
  {
    var d := Duration(s.viewport);
    var nd := d / factor;
    var ratio := (centerMs - s.viewport.startMs) / d;
    var w := ZoomedWindow(s.viewport, centerMs, factor);
    assert d == nd * factor;
    assert Duration(w) == nd;
    assert centerMs - w.startMs == ratio * nd;
    assert (centerMs - w.startMs) / nd == ratio;
    if te >= ts && Valid(w, ts, te) {
      ClampFixesExactlyValid(w, ts, te);
    }
  }

  /** PAN: both bounds shift by `deltaMs`, then the clamp applies; duration is kept when no clamping is needed. */
  lemma PanShifts(s: TimelineState, deltaMs: real, ts: real, te: real)
    ensures var w := Viewport(s.viewport.startMs + deltaMs, s.viewport.endMs + deltaMs);
            Duration(w) == Duration(s.viewport) &&
            Reduce(s, Pan(deltaMs, ts, te)).viewport == Clamp(w, ts, te) &&
            (te >= ts && Valid(w, ts, te) ==> Reduce(s, Pan(deltaMs, ts, te)).viewport == w)
  {
    var w := Viewport(s.viewport.startMs + deltaMs, s.viewport.endMs + deltaMs);
    if te >= ts && Valid(w, ts, te) {
      ClampFixesExactlyValid(w, ts, te);
    }
  }

  /** ZOOM_TO_SPAN: the span padded by 10% of its length on each side, clamped; the span itself stays inside when unclamped. */
  lemma ZoomToSpanPads(s: TimelineState, st: real, en: real, ts: real, te: real)
    requires st <= en
    ensures var w := Viewport(st - (en - st) * 0.1, en + (en - st) * 0.1);
            Duration(w) == (en - st) * 1.2 &&
            w.startMs <= st && en <= w.endMs &&
            Reduce(s, ZoomToSpan(st, en, ts, te)).viewport == Clamp(w, ts, te)
  {
  }

  /** ZOOM_TO_FIT: exactly the trace with 2% padding, whatever the state, and that window is valid. */
  lemma ZoomToFitExact(s: TimelineState, ts: real, te: real)
    requires te >= ts
    ensures var r := Reduce(s, ZoomToFit(ts, te));
            r.viewport == Viewport(ts - (te - ts) * 0.02, te + (te - ts) * 0.02) &&
            Valid(r.viewport, ts, te) &&
            r == s.(viewport := r.viewport)
  {
  }

  /** SET_VIEWPORT stores its argument without clamping. */
  lemma SetViewportUnclamped(s: TimelineState, vp: Viewport)
    ensures Reduce(s, SetViewport(vp)) == s.(viewport := vp)
  {
  }

  /** So SET_VIEWPORT can leave the valid windows: a 100 ms trace can be shown as [0, 10000]. */
  lemma SetViewportCanLeaveValid(s: TimelineState)
    ensures !Valid(Reduce(s, SetViewport(Viewport(0.0, 10000.0))).viewport, 0.0, 100.0)
  {
  }

  /** FOCUS_NEXT: 0 from no focus, otherwise one step on, capped at `maxIndex`. */
  lemma FocusNextSteps(s: TimelineState, maxIndex: int)
    ensures var f := Reduce(s, FocusNext(maxIndex)).focusedIndex;
            f.Some? &&
            (s.focusedIndex.None? ==> f.value == 0) &&
            (s.focusedIndex.Some? ==> f.value <= maxIndex && f.value <= s.focusedIndex.value + 1 &&
                                      (f.value == maxIndex || f.value == s.focusedIndex.value + 1))
  {
  }

  /** FOCUS_NEXT from no focus gives 0 even when there is no row (`maxIndex` -1). */
  lemma FocusNextIgnoresEmpty(s: TimelineState)
    requires s.focusedIndex.None?
    ensures Reduce(s, FocusNext(-1)).focusedIndex == Some(0)
  {
  }

  /** FOCUS_PREV: 0 from no focus, otherwise one step back, never below 0. */
  lemma FocusPrevSteps(s: TimelineState)
    ensures var f := Reduce(s, FocusPrev).focusedIndex;
            f.Some? && f.value >= 0 &&
            (s.focusedIndex.None? ==> f.value == 0) &&
            (s.focusedIndex.Some? ==> f.value >= s.focusedIndex.value - 1 &&
                                      (f.value == 0 || f.value == s.focusedIndex.value - 1))
  {
  }

  /** With a focus in [0, maxIndex], both focus moves stay in [0, maxIndex]. */
  lemma FocusStaysInRange(s: TimelineState, maxIndex: int)
    requires s.focusedIndex.Some? && 0 <= s.focusedIndex.value <= maxIndex
    ensures var n := Reduce(s, FocusNext(maxIndex)).focusedIndex;
            var p := Reduce(s, FocusPrev).focusedIndex;
            n.Some? && 0 <= n.value <= maxIndex && p.Some? && 0 <= p.value <= maxIndex
  {
  }

  /** TOGGLE_COLLAPSE flips membership of exactly one id; toggling twice restores the set. */
  lemma ToggleTwiceRestores(s: TimelineState, id: string)
    ensures var t := Reduce(s, ToggleCollapse(id));
            (id in t.expandedSpanIds <==> id !in s.expandedSpanIds) &&
            (forall x :: x != id ==> (x in t.expandedSpanIds <==> x in s.expandedSpanIds)) &&
            Reduce(t, ToggleCollapse(id)) == s
  {
  }

  /** EXPAND_ALL expands exactly the listed ids and COLLAPSE_ALL none. */
  lemma ExpandCollapseAll(s: TimelineState, ids: seq<string>)
    ensures forall x :: x in Reduce(s, ExpandAll(ids)).expandedSpanIds <==> x in ids
    ensures Reduce(s, CollapseAll).expandedSpanIds == {}
  {
  }

  /** Each non-RESET action changes only its own field. */
  lemma ActionsChangeOnlyTheirField(s: TimelineState, a: TimelineAction)
    requires CanReduce(s, a) && !a.Reset?
    ensures var r := Reduce(s, a);
            (IsViewportAction(a) ==> r == s.(viewport := r.viewport)) &&
            (a.SetFocusedIndex? || a.FocusNext? || a.FocusPrev? ==> r == s.(focusedIndex := r.focusedIndex)) &&
            (a.SetSearch? ==> r == s.(searchQuery := a.query)) &&
            (a.ToggleCollapse? || a.ExpandAll? || a.CollapseAll? ==> r == s.(expandedSpanIds := r.expandedSpanIds))
  {
  }

  /** The action's trace bounds, when it carries them, are the given ones. */
  predicate BoundsAre(a: TimelineAction, ts: real, te: real) {
    CarriesBounds(a) ==> a.traceStartMs == ts && a.traceEndMs == te
  }

  /**
   * Invariant: for a trace of positive duration, when every viewport action
   * carries that trace's bounds and SET_VIEWPORT/RESET hand in valid windows
   * (as the component does, clamping first), the viewport stays valid.
   */
  lemma ReducePreservesValid(s: TimelineState, a: TimelineAction, ts: real, te: real)
    requires te > ts
    requires Valid(s.viewport, ts, te)
    requires BoundsAre(a, ts, te)
    requires a.SetViewport? ==> Valid(a.viewport, ts, te)
    requires a.Reset? ==> Valid(a.state.viewport, ts, te)
    requires a.Zoom? ==> a.factor != 0.0
    ensures CanReduce(s, a)
    ensures Valid(Reduce(s, a).viewport, ts, te)
  {
    match a
    case Zoom(c, f, _, _) => ZoomKeepsValid(s, c, f, ts, te);
    case Pan(dm, _, _) => PanKeepsValid(s, dm, ts, te);
    case ZoomToSpan(st, en, _, _) => ZoomToSpanKeepsValid(s, st, en, ts, te);
    case ZoomToFit(_, _) => FitIsValid(ts, te);
    case _ =>
  }

  lemma ZoomKeepsValid(s: TimelineState, c: real, f: real, ts: real, te: real)
    requires te > ts && Valid(s.viewport, ts, te) && f != 0.0
    ensures CanReduce(s, Zoom(c, f, ts, te))
    ensures Valid(Reduce(s, Zoom(c, f, ts, te)).viewport, ts, te)
  {
    ClampIsValid(ZoomedWindow(s.viewport, c, f), ts, te);
  }

  lemma PanKeepsValid(s: TimelineState, dm: real, ts: real, te: real)
    requires te > ts
    ensures Valid(Reduce(s, Pan(dm, ts, te)).viewport, ts, te)
  {
    ClampIsValid(Viewport(s.viewport.startMs + dm, s.viewport.endMs + dm), ts, te);
  }

  lemma ZoomToSpanKeepsValid(s: TimelineState, st: real, en: real, ts: real, te: real)
    requires te > ts
    ensures Valid(Reduce(s, ZoomToSpan(st, en, ts, te)).viewport, ts, te)
  {
    ClampIsValid(Viewport(st - (en - st) * 0.1, en + (en - st) * 0.1), ts, te);
  }

  /** The ZOOM_TO_FIT window, the trace plus 2% on each side, is valid. */
  lemma FitIsValid(ts: real, te: real)
    requires te > ts
    ensures Valid(Viewport(ts - (te - ts) * 0.02, te + (te - ts) * 0.02), ts, te)
  {
  }

  // ---------------------------------------------------------------------
  // The hook's initial and RESET state, and its derived values
  // ---------------------------------------------------------------------

  /** The state the hook starts from and RESETs to: trace plus 2%, no focus, no search, default expansion. */
  function InitialState(roots: seq<SpanNode>, traceStartMs: real, totalDurationMs: real,
                        maxDepth: TraceLayout.ExpandDepth): TimelineState
  {
    var traceEndMs := traceStartMs + totalDurationMs;
    TimelineState(Viewport(traceStartMs - totalDurationMs * 0.02, traceEndMs + totalDurationMs * 0.02),
                  None, "", TraceLayout.DefaultExpanded(roots, 0, maxDepth))
  }

  /** The initial window is the ZOOM_TO_FIT window and is valid; RESET to it forgets everything else. */
  lemma InitialIsZoomToFit(s: TimelineState, roots: seq<SpanNode>, traceStartMs: real, totalDurationMs: real,
                           maxDepth: TraceLayout.ExpandDepth)
    requires totalDurationMs >= 0.0
    ensures var i := InitialState(roots, traceStartMs, totalDurationMs, maxDepth);
            var te := traceStartMs + totalDurationMs;
            i.viewport == Reduce(s, ZoomToFit(traceStartMs, te)).viewport &&
            Valid(i.viewport, traceStartMs, te) &&
            Reduce(s, Reset(i)) == i &&
            i.focusedIndex.None? && i.searchQuery == ""
  {
  }
}
