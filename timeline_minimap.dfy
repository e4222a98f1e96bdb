/**
 * The minimap: an overview entry for every span of the tree (collapse is
 * ignored), the highlighted viewport rectangle, and the pointer gestures that
 * pan, resize or jump the viewport.
 */
module TimelineMinimap {
  import opened Wrappers
  import opened TraceTypes

  /** Hues assigned to services by their position in the service list. */
  const SERVICE_HUES: seq<int> := [210, 160, 280, 340, 30, 100, 50, 190]

  /**
   * The fill of an entry: the error colour, or the service hue. A service
   * missing from the list has index -1, and `-1 % 8` is -1 in JavaScript,
   * whose lookup is `undefined`: `Hue(None)`.
   */
  datatype Fill = ErrorFill | Hue(hue: Option<int>)

  datatype MinimapSpan = MinimapSpan(spanId: string, depth: int, leftPercent: real, widthPercent: real, fill: Fill)

  /** `services.indexOf(name)`: the first index, or -1. */
  function IndexOf(services: seq<string>, name: string): (r: int)
    ensures -1 <= r < |services|
    ensures r >= 0 ==> services[r] == name && forall j :: 0 <= j < r ==> services[j] != name
    ensures r == -1 ==> name !in services
  {
    if services == [] then -1
    else if services[0] == name then 0
    else var k := IndexOf(services[1..], name); if k == -1 then -1 else k + 1
  }

  function ServiceFill(services: seq<string>, n: SpanNode): Fill {
    if n.statusCode == "Error" then ErrorFill
    else
      var idx := IndexOf(services, n.serviceName);
      if idx >= 0 then Hue(Some(SERVICE_HUES[idx % |SERVICE_HUES|])) else Hue(None)
  }

  function RealMax(a: real, b: real): real { if a >= b then a else b }
  function RealMin(a: real, b: real): real { if a <= b then a else b }

  /** The entry `visit` pushes for one node. */
  function MakeEntry(n: SpanNode, traceStartMs: real, totalDurationMs: real, services: seq<string>): MinimapSpan
    requires totalDurationMs != 0.0
  {
    var leftPercent := (n.startMs - traceStartMs) / totalDurationMs * 100.0;
    var widthPercent := n.durationMs / totalDurationMs * 100.0;
    MinimapSpan(n.spanId, n.depth, RealMax(0.0, leftPercent),
                RealMin(widthPercent, 100.0 - RealMax(0.0, leftPercent)), ServiceFill(services, n))
  }

  /** The entries for a sequence of nodes, one per node in the same order. */
  function EntriesOf(nodes: seq<SpanNode>, traceStartMs: real, totalDurationMs: real, services: seq<string>): (r: seq<MinimapSpan>)
    requires totalDurationMs != 0.0
    ensures |r| == |nodes|
  {
    if nodes == [] then []
    else [MakeEntry(nodes[0], traceStartMs, totalDurationMs, services)] + EntriesOf(nodes[1..], traceStartMs, totalDurationMs, services)
  }

  lemma {:induction false} EntriesOfAt(nodes: seq<SpanNode>, traceStartMs: real, totalDurationMs: real, services: seq<string>, i: int)
    requires totalDurationMs != 0.0 && 0 <= i < |nodes|
    ensures EntriesOf(nodes, traceStartMs, totalDurationMs, services)[i] == MakeEntry(nodes[i], traceStartMs, totalDurationMs, services)
  {
    if i > 0 {
      EntriesOfAt(nodes[1..], traceStartMs, totalDurationMs, services, i - 1);
    }
  }

  lemma {:induction false} EntriesOfAppend(a: seq<SpanNode>, b: seq<SpanNode>, traceStartMs: real, totalDurationMs: real, services: seq<string>)
    requires totalDurationMs != 0.0
    ensures EntriesOf(a + b, traceStartMs, totalDurationMs, services) ==
            EntriesOf(a, traceStartMs, totalDurationMs, services) + EntriesOf(b, traceStartMs, totalDurationMs, services)
  {
    if a == [] {
      assert a + b == b;
    } else {
      assert (a + b)[1..] == a[1..] + b;
      EntriesOfAppend(a[1..], b, traceStartMs, totalDurationMs, services);
    }
  }

  /** The running `maxDepth = Math.max(maxDepth, node.depth)` over the nodes in order. */
  function MaxDepthFrom(m: int, nodes: seq<SpanNode>): int
    decreases |nodes|
  {
    if nodes == [] then m else MaxDepthFrom(if m >= nodes[0].depth then m else nodes[0].depth, nodes[1..])
  }

  lemma {:induction false} MaxDepthFromAppend(m: int, a: seq<SpanNode>, b: seq<SpanNode>)
    ensures MaxDepthFrom(m, a + b) == MaxDepthFrom(MaxDepthFrom(m, a), b)
    decreases |a|
  {
    if a != [] {
      assert (a + b)[1..] == a[1..] + b;
      MaxDepthFromAppend(if m >= a[0].depth then m else a[0].depth, a[1..], b);
    } else {
      assert a + b == b;
    }
  }

  /** The running maximum is at least its start and every depth, and is its start or one of the depths. */
  lemma {:induction false} MaxDepthFromIsMax(m: int, nodes: seq<SpanNode>)
    ensures MaxDepthFrom(m, nodes) >= m
    ensures forall n :: n in nodes ==> n.depth <= MaxDepthFrom(m, nodes)
    ensures MaxDepthFrom(m, nodes) == m || exists n :: n in nodes && n.depth == MaxDepthFrom(m, nodes)
    decreases |nodes|
  {
    if nodes != [] {
      var m' := if m >= nodes[0].depth then m else nodes[0].depth;
      MaxDepthFromIsMax(m', nodes[1..]);
      assert forall n :: n in nodes ==> n == nodes[0] || n in nodes[1..];
      if MaxDepthFrom(m, nodes) != m && MaxDepthFrom(m', nodes[1..]) == m' {
        assert nodes[0].depth == MaxDepthFrom(m, nodes);
      }
    }
  }

  lemma {:induction false} PreOrderForestSnoc(a: seq<SpanNode>, x: SpanNode)
    ensures PreOrderForest(a + [x]) == PreOrderForest(a) + PreOrder(x)
  {
    if a == [] {
      assert a + [x] == [x];
    } else {
      assert (a + [x])[1..] == a[1..] + [x];
      PreOrderForestSnoc(a[1..], x);
    }
  }

  /** The mutable state of one `collectMinimapSpans` call: the `spans` array and `maxDepth`. */
  class MinimapCollector {
    const traceStartMs: real
    const totalDurationMs: real
    const services: seq<string>
    var spans: seq<MinimapSpan>
    var maxDepth: int

    constructor (traceStartMs: real, totalDurationMs: real, services: seq<string>)
      requires totalDurationMs != 0.0
      ensures this.traceStartMs == traceStartMs && this.totalDurationMs == totalDurationMs
      ensures this.services == services && spans == [] && maxDepth == 0
    {
      this.traceStartMs := traceStartMs;
      this.totalDurationMs := totalDurationMs;
      this.services := services;
      spans := [];
      maxDepth := 0;
    }

    /** `visit(node)`: push the node's entry, raise `maxDepth`, then visit every child. */
    method Visit(node: SpanNode)
      requires totalDurationMs != 0.0
      modifies this
      decreases node
      ensures spans == old(spans) + EntriesOf(PreOrder(node), traceStartMs, totalDurationMs, services)
      ensures maxDepth == MaxDepthFrom(old(maxDepth), PreOrder(node))
    {
      maxDepth := if maxDepth >= node.depth then maxDepth else node.depth;
      spans := spans + [MakeEntry(node, traceStartMs, totalDurationMs, services)];
      VisitChildren(node.children);
      assert PreOrder(node) == [node] + PreOrderForest(node.children);
      MaxDepthFromAppend(old(maxDepth), [node], PreOrderForest(node.children));
      EntriesOfAppend([node], PreOrderForest(node.children), traceStartMs, totalDurationMs, services);
    }

    /** The loop of `visit` over a node's children, in order. */
    method VisitChildren(children: seq<SpanNode>)
      requires totalDurationMs != 0.0
      modifies this
      decreases children
      ensures spans == old(spans) + EntriesOf(PreOrderForest(children), traceStartMs, totalDurationMs, services)
      ensures maxDepth == MaxDepthFrom(old(maxDepth), PreOrderForest(children))
    {
      ghost var spans0, depth0 := spans, maxDepth;
      for i := 0 to |children|
        invariant spans == spans0 + EntriesOf(PreOrderForest(children[..i]), traceStartMs, totalDurationMs, services)
        invariant maxDepth == MaxDepthFrom(depth0, PreOrderForest(children[..i]))
      {
        var child := children[i];
        assert children[..i + 1] == children[..i] + [child];
        PreOrderForestSnoc(children[..i], child);
        MaxDepthFromAppend(depth0, PreOrderForest(children[..i]), PreOrder(child));
        EntriesOfAppend(PreOrderForest(children[..i]), PreOrder(child), traceStartMs, totalDurationMs, services);
        Visit(child);
      }
      assert children[..|children|] == children;
    }
  }

  /** `collectMinimapSpans`: visit every root in order. */
  method CollectMinimapSpans(roots: seq<SpanNode>, traceStartMs: real, totalDurationMs: real, services: seq<string>)
    returns (spans: seq<MinimapSpan>, maxDepth: int)
    requires totalDurationMs != 0.0
    ensures spans == EntriesOf(PreOrderForest(roots), traceStartMs, totalDurationMs, services)
    ensures maxDepth == MaxDepthFrom(0, PreOrderForest(roots))
  {
    var c := new MinimapCollector(traceStartMs, totalDurationMs, services);
    for i := 0 to |roots|
      invariant c.traceStartMs == traceStartMs && c.totalDurationMs == totalDurationMs && c.services == services
      invariant c.spans == EntriesOf(PreOrderForest(roots[..i]), traceStartMs, totalDurationMs, services)
      invariant c.maxDepth == MaxDepthFrom(0, PreOrderForest(roots[..i]))
    {
      assert roots[..i + 1] == roots[..i] + [roots[i]];
      PreOrderForestSnoc(roots[..i], roots[i]);
      MaxDepthFromAppend(0, PreOrderForest(roots[..i]), PreOrder(roots[i]));
      EntriesOfAppend(PreOrderForest(roots[..i]), PreOrder(roots[i]), traceStartMs, totalDurationMs, services);
      c.Visit(roots[i]);
    }
    assert roots[..|roots|] == roots;
    spans, maxDepth := c.spans, c.maxDepth;
  }

  /**
   * One entry per node of the tree, in pre-order and whatever the collapse
   * state; `maxDepth` is the largest depth, or 0 for an empty tree (or when
   * every depth is negative).
   */
  lemma MinimapCoversTree(roots: seq<SpanNode>, traceStartMs: real, totalDurationMs: real, services: seq<string>)
    requires totalDurationMs != 0.0
    ensures var spans := EntriesOf(PreOrderForest(roots), traceStartMs, totalDurationMs, services);
            var nodes := PreOrderForest(roots);
            |spans| == |nodes| &&
            (forall i :: 0 <= i < |spans| ==> spans[i].spanId == nodes[i].spanId && spans[i].depth == nodes[i].depth)
    ensures var m := MaxDepthFrom(0, PreOrderForest(roots));
            m >= 0 && (forall n :: n in PreOrderForest(roots) ==> n.depth <= m) &&
            (m == 0 || exists n :: n in PreOrderForest(roots) && n.depth == m)
    ensures roots == [] ==> MaxDepthFrom(0, PreOrderForest(roots)) == 0
  {
    MaxDepthFromIsMax(0, PreOrderForest(roots));
    forall i | 0 <= i < |PreOrderForest(roots)| {
      EntriesOfAt(PreOrderForest(roots), traceStartMs, totalDurationMs, services, i);
    }
  }

  /** Every entry starts at or after 0% and ends at or before 100%. */
  lemma EntryWithinBounds(n: SpanNode, traceStartMs: real, totalDurationMs: real, services: seq<string>)
    requires totalDurationMs != 0.0
    ensures var e := MakeEntry(n, traceStartMs, totalDurationMs, services);
            e.leftPercent >= 0.0 && e.leftPercent + e.widthPercent <= 100.0
  {
  }

  /** A span of a service missing from the list gets the `undefined` hue. */
  lemma UnknownServiceHasNoHue(services: seq<string>, n: SpanNode)
    requires n.statusCode != "Error" && n.serviceName !in services
    ensures ServiceFill(services, n) == Hue(None)
  {
  }

  // ---------------------------------------------------------------------
  // Viewport rectangle and gestures
  // ---------------------------------------------------------------------

  /** `vpLeftPercent` and `vpWidthPercent`. */
  datatype Rect = Rect(leftPercent: real, widthPercent: real)

  function ViewportRect(vp: Viewport, traceStartMs: real, traceEndMs: real): Rect
    requires traceEndMs - traceStartMs != 0.0
  {
    var traceDuration := traceEndMs - traceStartMs;
    Rect((vp.startMs - traceStartMs) / traceDuration * 100.0, (vp.endMs - vp.startMs) / traceDuration * 100.0)
  }

  /** The rectangle maps the viewport onto the trace's 0..100 scale: right edge = end's position. */
  lemma ViewportRectPlacesWindow(vp: Viewport, traceStartMs: real, traceEndMs: real)
    requires traceEndMs - traceStartMs != 0.0
    ensures var r := ViewportRect(vp, traceStartMs, traceEndMs);
            var d := traceEndMs - traceStartMs;
            r.leftPercent + r.widthPercent == (vp.endMs - traceStartMs) / d * 100.0 &&
            (vp == Viewport(traceStartMs, traceEndMs) ==> r == Rect(0.0, 100.0))
  {
    var d := traceEndMs - traceStartMs;
    DivAdd(vp.startMs - traceStartMs, vp.endMs - vp.startMs, d);
    if vp == Viewport(traceStartMs, traceEndMs) {
      assert (vp.endMs - vp.startMs) / d == 1.0;
    }
  }

  lemma DivAdd(a: real, b: real, d: real)
    requires d != 0.0
    ensures a / d * 100.0 + b / d * 100.0 == (a + b) / d * 100.0
  {
    assert a / d + b / d == (a + b) / d;
  }

  const EDGE_THRESHOLD: real := 2.0

  datatype DragKind = PanDrag | ResizeLeft | ResizeRight

  datatype DragState = DragState(kind: DragKind, startX: real, startViewport: Viewport)

  /** How a press at `clickPercent` is read: a drag kind, or `None` for a jump. Left edge first, then right edge, then inside. */
  function Classify(clickPercent: real, r: Rect): Option<DragKind> {
    if r.leftPercent - EDGE_THRESHOLD <= clickPercent <= r.leftPercent + EDGE_THRESHOLD then Some(ResizeLeft)
    else if r.leftPercent + r.widthPercent - EDGE_THRESHOLD <= clickPercent <= r.leftPercent + r.widthPercent + EDGE_THRESHOLD
    then Some(ResizeRight)
    else if r.leftPercent <= clickPercent <= r.leftPercent + r.widthPercent then Some(PanDrag)
    else None
  }

  /**
   * The press zones: within 2% of the left edge resizes the left edge (even
   * where that overlaps the right edge's zone), within 2% of the right edge the
   * right one, elsewhere inside the rectangle pans, and only a press more than
   * 2% outside the rectangle jumps.
   */
  lemma ClassifyZones(clickPercent: real, r: Rect)
    requires r.widthPercent >= 0.0
    ensures var k := Classify(clickPercent, r);
            var right := r.leftPercent + r.widthPercent;
            (k == Some(ResizeLeft) <==> r.leftPercent - 2.0 <= clickPercent <= r.leftPercent + 2.0) &&
            (k == Some(ResizeRight) <==> !(r.leftPercent - 2.0 <= clickPercent <= r.leftPercent + 2.0) &&
                                         right - 2.0 <= clickPercent <= right + 2.0) &&
            (k.None? <==> clickPercent < r.leftPercent - 2.0 || clickPercent > right + 2.0) &&
            (r.leftPercent + 2.0 < clickPercent < right - 2.0 ==> k == Some(PanDrag))
  {
  }

  /** A press outside: the viewport keeps its duration and is centred on the pressed time. */
  function JumpViewport(clickPercent: real, vp: Viewport, traceStartMs: real, traceEndMs: real): Viewport {
    var traceDuration := traceEndMs - traceStartMs;
    var clickMs := traceStartMs + clickPercent / 100.0 * traceDuration;
    var vpDuration := vp.endMs - vp.startMs;
    Viewport(clickMs - vpDuration / 2.0, clickMs + vpDuration / 2.0)
  }

  lemma JumpCentresOnClick(clickPercent: real, vp: Viewport, traceStartMs: real, traceEndMs: real)
    ensures var j := JumpViewport(clickPercent, vp, traceStartMs, traceEndMs);
            j.endMs - j.startMs == vp.endMs - vp.startMs &&
            (j.startMs + j.endMs) / 2.0 == traceStartMs + clickPercent / 100.0 * (traceEndMs - traceStartMs)
  {
  }

  /**
   * On a 1000 ms trace with the viewport at [100, 200], a press at 75% jumps to
   * [700, 800]; the jump is not clamped here, the caller clamps it.
   */
  lemma JumpExample()
    ensures Classify(75.0, ViewportRect(Viewport(100.0, 200.0), 0.0, 1000.0)).None?
    ensures JumpViewport(75.0, Viewport(100.0, 200.0), 0.0, 1000.0) == Viewport(700.0, 800.0)
  {
  }

  /** The viewport a move with the pointer at `clientX` asks for, given the drag. */
  function DragTo(d: DragState, clientX: real, rectWidth: real, traceDuration: real): Viewport
    requires rectWidth != 0.0
  {
    var deltaPercent := (clientX - d.startX) / rectWidth * 100.0;
    var deltaMs := deltaPercent / 100.0 * traceDuration;
    var sv := d.startViewport;
    match d.kind
    case PanDrag => Viewport(sv.startMs + deltaMs, sv.endMs + deltaMs)
    case ResizeLeft => Viewport(RealMin(sv.startMs + deltaMs, sv.endMs - traceDuration * 0.01), sv.endMs)
    case ResizeRight => Viewport(sv.startMs, RealMax(sv.endMs + deltaMs, sv.startMs + traceDuration * 0.01))
  }

  /**
   * Drags are relative to the press: the pointer's travel, as a fraction of the
   * minimap width, times the trace duration. A pan keeps the duration; a
   * left resize keeps the end and leaves at least 1% of the trace; a right
   * resize keeps the start and leaves at least 1%.
   */
  lemma DragKeepsItsEdge(d: DragState, clientX: real, rectWidth: real, traceDuration: real)
    requires rectWidth != 0.0
    ensures var v := DragTo(d, clientX, rectWidth, traceDuration);
            var sv := d.startViewport;
            var deltaMs := (clientX - d.startX) / rectWidth * traceDuration;
            (d.kind == PanDrag ==> v.startMs == sv.startMs + deltaMs && v.endMs - v.startMs == sv.endMs - sv.startMs) &&
            (d.kind == ResizeLeft ==> v.endMs == sv.endMs && v.startMs <= sv.endMs - traceDuration * 0.01 &&
                                      v.startMs <= sv.startMs + deltaMs) &&
            (d.kind == ResizeRight ==> v.startMs == sv.startMs && v.endMs >= sv.startMs + traceDuration * 0.01 &&
                                       v.endMs >= sv.endMs + deltaMs)
  {
    var deltaPercent := (clientX - d.startX) / rectWidth * 100.0;
    assert deltaPercent / 100.0 * traceDuration == (clientX - d.startX) / rectWidth * traceDuration;
  }

  /** Without pointer travel a pan gives back the viewport it started from. */
  lemma PanWithoutTravel(d: DragState, rectWidth: real, traceDuration: real)
    requires rectWidth != 0.0 && d.kind == PanDrag
    ensures DragTo(d, d.startX, rectWidth, traceDuration) == d.startViewport
  {
  }

  /** The `dragRef` of the minimap: the gesture in progress, if any. */
  class MinimapDrag {
    var drag: Option<DragState>

    constructor ()
      ensures drag.None?
    {
      drag := None;
    }

    /**
     * `handleMouseDown`: start a drag of the classified kind, snapshotting the
     * viewport, or for a press outside report the jump (the drag is untouched).
     */
    method MouseDown(clientX: real, rectLeft: real, rectWidth: real, vp: Viewport, traceStartMs: real, traceEndMs: real)
      returns (change: Option<Viewport>)
      requires rectWidth != 0.0 && traceEndMs - traceStartMs != 0.0
      modifies this
      ensures var click := (clientX - rectLeft) / rectWidth * 100.0;
              var kind := Classify(click, ViewportRect(vp, traceStartMs, traceEndMs));
              (kind.Some? ==> drag == Some(DragState(kind.value, clientX, vp)) && change.None?) &&
              (kind.None? ==> drag == old(drag) && change == Some(JumpViewport(click, vp, traceStartMs, traceEndMs)))
    {
      var clickPercent := (clientX - rectLeft) / rectWidth * 100.0;
      var r := ViewportRect(vp, traceStartMs, traceEndMs);
      var vpLeftPercent, vpWidthPercent := r.leftPercent, r.widthPercent;
      change := None;
      if clickPercent >= vpLeftPercent - EDGE_THRESHOLD && clickPercent <= vpLeftPercent + EDGE_THRESHOLD {
        drag := Some(DragState(ResizeLeft, clientX, vp));
      } else if clickPercent >= vpLeftPercent + vpWidthPercent - EDGE_THRESHOLD &&
                clickPercent <= vpLeftPercent + vpWidthPercent + EDGE_THRESHOLD {
        drag := Some(DragState(ResizeRight, clientX, vp));
      } else if clickPercent >= vpLeftPercent && clickPercent <= vpLeftPercent + vpWidthPercent {
        drag := Some(DragState(PanDrag, clientX, vp));
      } else {
        change := Some(JumpViewport(clickPercent, vp, traceStartMs, traceEndMs));
      }
    }

    /** `handleMouseMove`: with no drag nothing happens; otherwise report the dragged viewport. */
    method MouseMove(clientX: real, rectWidth: real, traceDuration: real) returns (change: Option<Viewport>)
      requires rectWidth != 0.0
      ensures change == if drag.None? then None else Some(DragTo(drag.value, clientX, rectWidth, traceDuration))
    {
      if drag.None? {
        return None;
      }
      change := Some(DragTo(drag.value, clientX, rectWidth, traceDuration));
    }

    /** `handleMouseUp`: forget the drag. */
    method MouseUp()
      modifies this
      ensures drag.None?
    {
      drag := None;
    }
  }
}
