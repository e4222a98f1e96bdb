/**
 * The timeline's data model: the span tree handed in by the data layer, the
 * derived row ("bar"), the viewport, the reducer state, its thirteen actions
 * and the fixed row metrics.
 */
module TraceTypes {
  import opened Wrappers

  const ROW_HEIGHT: int := 28
  const ROW_GAP: int := 1
  /** `ROW_HEIGHT + ROW_GAP`, the `rowSize` every view computes. */
  const ROW_SIZE: int := ROW_HEIGHT + ROW_GAP

  /** `Math.ceil` on reals. */
  function Ceil(x: real): (r: int)
    ensures r as real >= x && (r - 1) as real < x
  {
    -((-x).Floor)
  }
  const MINIMAP_HEIGHT: int := 36
  const TIME_AXIS_HEIGHT: int := 28
  const DEPTH_INDENT: int := 16
  const OVERSCAN: int := 5

  /** A span of the trace tree; `startMs` is the start time already in milliseconds. */
  datatype SpanNode = SpanNode(
    spanId: string,
    parentSpanId: string,
    spanName: string,
    serviceName: string,
    depth: int,
    startMs: real,
    durationMs: real,
    statusCode: string,
    children: seq<SpanNode>)

  /** One laid-out row of the timeline. */
  datatype TimelineBar = TimelineBar(
    span: SpanNode,
    row: int,
    startMs: real,
    endMs: real,
    depth: int,
    parentSpanId: string,
    isError: bool,
    isCollapsed: bool,
    childCount: int)

  datatype Viewport = Viewport(startMs: real, endMs: real)

  datatype TimelineState = TimelineState(
    viewport: Viewport,
    focusedIndex: Option<int>,
    searchQuery: string,
    expandedSpanIds: set<string>)

  datatype TimelineAction =
    | Reset(state: TimelineState)
    | SetViewport(viewport: Viewport)
    | Zoom(centerMs: real, factor: real, traceStartMs: real, traceEndMs: real)
    | Pan(deltaMs: real, traceStartMs: real, traceEndMs: real)
    | ZoomToSpan(startMs: real, endMs: real, traceStartMs: real, traceEndMs: real)
    | ZoomToFit(traceStartMs: real, traceEndMs: real)
    | SetFocusedIndex(index: Option<int>)
    | FocusNext(maxIndex: int)
    | FocusPrev
    | SetSearch(query: string)
    | ToggleCollapse(spanId: string)
    | ExpandAll(spanIds: seq<string>)
    | CollapseAll

  /** Every node of a tree, in pre-order (a node before its children, children in order). */
  function PreOrder(n: SpanNode): (r: seq<SpanNode>)
    decreases n, 1
    ensures |r| >= 1 && r[0] == n
  {
    [n] + PreOrderForest(n.children)
  }

  function PreOrderForest(ns: seq<SpanNode>): seq<SpanNode>
    decreases ns, 0
  {
    if ns == [] then [] else PreOrder(ns[0]) + PreOrderForest(ns[1..])
  }

  /** The spans the bars were made from, in row order. */
  function Spans(bars: seq<TimelineBar>): (r: seq<SpanNode>)
    ensures |r| == |bars|
    ensures forall i :: 0 <= i < |bars| ==> r[i] == bars[i].span
  {
    if bars == [] then [] else [bars[0].span] + Spans(bars[1..])
  }
}
