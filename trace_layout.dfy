/**
 * Tree layout: the default expanded set, descendant counting and the
 * pre-order flattening of the span tree into rows, honouring collapse.
 */
module TraceLayout {
  import opened Wrappers
  import opened TraceTypes

  // ---------------------------------------------------------------------
  // Default expanded set
  // ---------------------------------------------------------------------

  /** The hook's `defaultExpandDepth`: `Infinity` (the default) or a number. */
  datatype ExpandDepth = Unbounded | Limited(maxDepth: int)

  predicate Below(depth: int, maxDepth: ExpandDepth) {
    maxDepth.Unbounded? || depth < maxDepth.maxDepth
  }

  /** The ids `collectDefaultExpanded(nodes, depth, maxDepth)` collects. */
  function DefaultExpanded(nodes: seq<SpanNode>, depth: int, maxDepth: ExpandDepth): set<string>
    decreases nodes, 0
  {
    if nodes == [] then {}
    else NodeExpanded(nodes[0], depth, maxDepth) + DefaultExpanded(nodes[1..], depth, maxDepth)
  }

  function NodeExpanded(n: SpanNode, depth: int, maxDepth: ExpandDepth): set<string>
    decreases n, 1
  {
    if |n.children| > 0 && Below(depth, maxDepth) then
      {n.spanId} + DefaultExpanded(n.children, depth + 1, maxDepth)
    else {}
  }

  lemma {:induction false} DefaultExpandedAppend(a: seq<SpanNode>, b: seq<SpanNode>, depth: int, maxDepth: ExpandDepth)
    ensures DefaultExpanded(a + b, depth, maxDepth) == DefaultExpanded(a, depth, maxDepth) + DefaultExpanded(b, depth, maxDepth)
  {
    if a == [] {
      assert a + b == b;
    } else {
      assert (a + b)[1..] == a[1..] + b;
      DefaultExpandedAppend(a[1..], b, depth, maxDepth);
    }
  }

  /** `collectDefaultExpanded`: a loop over the nodes that recurses into expandable ones. */
  method CollectDefaultExpanded(nodes: seq<SpanNode>, depth: int, maxDepth: ExpandDepth) returns (ids: set<string>)
    decreases nodes
    ensures ids == DefaultExpanded(nodes, depth, maxDepth)
  {
    ids := {};
    for i := 0 to |nodes|
      invariant ids == DefaultExpanded(nodes[..i], depth, maxDepth)
    {
      var node := nodes[i];
      assert nodes[..i + 1] == nodes[..i] + [node];
      DefaultExpandedAppend(nodes[..i], [node], depth, maxDepth);
      assert DefaultExpanded([node], depth, maxDepth) == NodeExpanded(node, depth, maxDepth);
      if |node.children| > 0 && Below(depth, maxDepth) {
        ids := ids + {node.spanId};
        var childIds := CollectDefaultExpanded(node.children, depth + 1, maxDepth);
        ids := ids + childIds;
      }
    }
    assert nodes[..|nodes|] == nodes;
  }

  /** Every node with the recursion level at which the traversal meets it. */
  function Levelled(nodes: seq<SpanNode>, level: int): seq<(SpanNode, int)>
    decreases nodes, 0
  {
    if nodes == [] then [] else LevelledNode(nodes[0], level) + Levelled(nodes[1..], level)
  }

  function LevelledNode(n: SpanNode, level: int): seq<(SpanNode, int)>
    decreases n, 1
  {
    [(n, level)] + Levelled(n.children, level + 1)
  }

  /** The ids of the nodes that have children and are met below `maxDepth`. */
  function ExpandableIds(ps: seq<(SpanNode, int)>, maxDepth: ExpandDepth): set<string> {
    set p | p in ps && |p.0.children| > 0 && Below(p.1, maxDepth) :: p.0.spanId
  }

  lemma {:induction false} LevelsAtLeast(nodes: seq<SpanNode>, level: int)
    decreases nodes, 0
    ensures forall p :: p in Levelled(nodes, level) ==> p.1 >= level
  {
    if nodes != [] {
      LevelsAtLeastNode(nodes[0], level);
      LevelsAtLeast(nodes[1..], level);
    }
  }

  lemma {:induction false} LevelsAtLeastNode(n: SpanNode, level: int)
    decreases n, 1
    ensures forall p :: p in LevelledNode(n, level) ==> p.1 >= level
  {
    LevelsAtLeast(n.children, level + 1);
  }

  /**
   * `collectDefaultExpanded(nodes, depth, maxDepth)` is exactly the set of ids of
   * the nodes that have children and sit at a level below `maxDepth`.
   */
  lemma {:induction false} DefaultExpandedIsExpandable(nodes: seq<SpanNode>, level: int, maxDepth: ExpandDepth)
    decreases nodes, 0
    ensures DefaultExpanded(nodes, level, maxDepth) == ExpandableIds(Levelled(nodes, level), maxDepth)
  {
    if nodes != [] {
      NodeExpandedIsExpandable(nodes[0], level, maxDepth);
      DefaultExpandedIsExpandable(nodes[1..], level, maxDepth);
      var a, b := LevelledNode(nodes[0], level), Levelled(nodes[1..], level);
      assert Levelled(nodes, level) == a + b;
      assert ExpandableIds(a + b, maxDepth) == ExpandableIds(a, maxDepth) + ExpandableIds(b, maxDepth);
    }
  }

  lemma {:induction false} NodeExpandedIsExpandable(n: SpanNode, level: int, maxDepth: ExpandDepth)
    decreases n, 1
    ensures NodeExpanded(n, level, maxDepth) == ExpandableIds(LevelledNode(n, level), maxDepth)
  {
    var rest := Levelled(n.children, level + 1);
    assert LevelledNode(n, level) == [(n, level)] + rest;
    assert ExpandableIds([(n, level)] + rest, maxDepth) == ExpandableIds([(n, level)], maxDepth) + ExpandableIds(rest, maxDepth);
    if |n.children| > 0 && Below(level, maxDepth) {
      DefaultExpandedIsExpandable(n.children, level + 1, maxDepth);
    } else if |n.children| == 0 {
      assert rest == [];
    } else {
      LevelsAtLeast(n.children, level + 1);
      assert ExpandableIds(rest, maxDepth) == {};
    }
  }

  // ---------------------------------------------------------------------
  // Descendant count
  // ---------------------------------------------------------------------

  /** The value of `countDescendants(node)`: the sum over the children of 1 + their own count. */
  function Descendants(n: SpanNode): nat
    decreases n, 1
  {
    ForestCount(n.children)
  }

  function ForestCount(ns: seq<SpanNode>): nat
    decreases ns, 0
  {
    if ns == [] then 0 else 1 + Descendants(ns[0]) + ForestCount(ns[1..])
  }

  lemma {:induction false} ForestCountAppend(a: seq<SpanNode>, b: seq<SpanNode>)
    ensures ForestCount(a + b) == ForestCount(a) + ForestCount(b)
  {
    if a == [] {
      assert a + b == b;
    } else {
      assert (a + b)[1..] == a[1..] + b;
      ForestCountAppend(a[1..], b);
    }
  }

  /** `countDescendants`: a loop over the children, recursing into each. */
  method CountDescendants(node: SpanNode) returns (count: nat)
    decreases node
    ensures count == Descendants(node)
  {
    count := 0;
    for i := 0 to |node.children|
      invariant count == ForestCount(node.children[..i])
    {
      var child := node.children[i];
      var sub := CountDescendants(child);
      assert node.children[..i + 1] == node.children[..i] + [child];
      ForestCountAppend(node.children[..i], [child]);
      count := count + 1 + sub;
    }
    assert node.children[..|node.children|] == node.children;
  }

  /** The descendant count is the full transitive count: the subtree's size minus the node itself. */
  lemma {:induction false} DescendantsIsSubtreeSize(n: SpanNode)
    decreases n, 1
    ensures Descendants(n) == |PreOrder(n)| - 1
  {
    ForestCountIsSize(n.children);
  }

  lemma {:induction false} ForestCountIsSize(ns: seq<SpanNode>)
    decreases ns, 0
    ensures ForestCount(ns) == |PreOrderForest(ns)|
  {
    if ns != [] {
      DescendantsIsSubtreeSize(ns[0]);
      ForestCountIsSize(ns[1..]);
    }
  }

  // ---------------------------------------------------------------------
  // Layout
  // ---------------------------------------------------------------------

  predicate IsCollapsed(n: SpanNode, expanded: set<string>) {
    |n.children| > 0 && n.spanId !in expanded
  }

  /** The bar `visit` pushes for `n` at row `row`. */
  function MakeBar(n: SpanNode, expanded: set<string>, row: int): TimelineBar {
    var collapsed := IsCollapsed(n, expanded);
    TimelineBar(n, row, n.startMs, n.startMs + n.durationMs, n.depth, n.parentSpanId,
                n.statusCode == "Error", collapsed, if collapsed then Descendants(n) else 0)
  }

  /** The bars `visit(n)` pushes when it starts at row `row`. */
  function VisitBars(n: SpanNode, expanded: set<string>, row: int): seq<TimelineBar>
    decreases n, 1
  {
    [MakeBar(n, expanded, row)] +
    (if IsCollapsed(n, expanded) then [] else ForestBars(n.children, expanded, row + 1))
  }

  function ForestBars(ns: seq<SpanNode>, expanded: set<string>, row: int): seq<TimelineBar>
    decreases ns, 0
  {
    if ns == [] then []
    else
      var first := VisitBars(ns[0], expanded, row);
      first + ForestBars(ns[1..], expanded, row + |first|)
  }

  /** The bars `layoutSpans(rootSpans, expandedSpanIds)` returns. */
  function Layout(roots: seq<SpanNode>, expanded: set<string>): seq<TimelineBar> {
    ForestBars(roots, expanded, 0)
  }

  lemma {:induction false} ForestBarsSnoc(a: seq<SpanNode>, x: SpanNode, expanded: set<string>, row: int)
    ensures ForestBars(a + [x], expanded, row) ==
            ForestBars(a, expanded, row) + VisitBars(x, expanded, row + |ForestBars(a, expanded, row)|)
  {
    if a == [] {
      assert a + [x] == [x];
    } else {
      assert (a + [x])[1..] == a[1..] + [x];
      ForestBarsSnoc(a[1..], x, expanded, row + |VisitBars(a[0], expanded, row)|);
    }
  }

  /** The mutable state of one `layoutSpans` call: the `bars` array and `currentRow`. */
  class BarCollector {
    const expanded: set<string>
    var bars: seq<TimelineBar>
    var currentRow: int

    constructor (expanded: set<string>)
      ensures this.expanded == expanded && bars == [] && currentRow == 0
    {
      this.expanded := expanded;
      bars := [];
      currentRow := 0;
    }

    /** `visit(node)`: push the node's bar, bump the row, then visit the children unless collapsed. */
    method Visit(node: SpanNode)
      modifies this
      decreases node
      ensures bars == old(bars) + VisitBars(node, expanded, old(currentRow))
      ensures currentRow == old(currentRow) + |VisitBars(node, expanded, old(currentRow))|
    {
      var startMs := node.startMs;
      var endMs := startMs + node.durationMs;
      var hasChildren := |node.children| > 0;
      var isCollapsed := hasChildren && node.spanId !in expanded;
      var childCount := 0;
      if isCollapsed {
        childCount := CountDescendants(node);
      }
      bars := bars + [TimelineBar(node, currentRow, startMs, endMs, node.depth, node.parentSpanId,
                                  node.statusCode == "Error", isCollapsed, childCount)];
      currentRow := currentRow + 1;
      if !isCollapsed {
        VisitChildren(node.children);
      }
    }

    /** The loop of `visit` over a node's children, in order. */
    method VisitChildren(children: seq<SpanNode>)
      modifies this
      decreases children
      ensures bars == old(bars) + ForestBars(children, expanded, old(currentRow))
      ensures currentRow == old(currentRow) + |ForestBars(children, expanded, old(currentRow))|
    {
      ghost var bars0, row0 := bars, currentRow;
      for i := 0 to |children|
        invariant bars == bars0 + ForestBars(children[..i], expanded, row0)
        invariant currentRow == row0 + |ForestBars(children[..i], expanded, row0)|
      {
        ForestBarsSnoc(children[..i], children[i], expanded, row0);
        assert children[..i + 1] == children[..i] + [children[i]];
        Visit(children[i]);
      }
      assert children[..|children|] == children;
    }
  }

  /** `layoutSpans`: visit every root in order. */
  method LayoutSpans(roots: seq<SpanNode>, expanded: set<string>) returns (bars: seq<TimelineBar>, totalRows: int)
    ensures bars == Layout(roots, expanded)
    ensures totalRows == |bars|
  {
    var collector := new BarCollector(expanded);
    for i := 0 to |roots|
      invariant collector.expanded == expanded
      invariant collector.bars == ForestBars(roots[..i], expanded, 0)
      invariant collector.currentRow == |collector.bars|
    {
      ForestBarsSnoc(roots[..i], roots[i], expanded, 0);
      assert roots[..i + 1] == roots[..i] + [roots[i]];
      collector.Visit(roots[i]);
    }
    assert roots[..|roots|] == roots;
    bars := collector.bars;
    totalRows := collector.currentRow;
  }

  // ---------------------------------------------------------------------
  // Properties of the layout
  // ---------------------------------------------------------------------

  /** Rows are numbered consecutively from the start row. */
  lemma {:induction false} ForestRows(ns: seq<SpanNode>, expanded: set<string>, row: int)
    decreases ns, 0
    ensures forall i :: 0 <= i < |ForestBars(ns, expanded, row)| ==> ForestBars(ns, expanded, row)[i].row == row + i
  {
    if ns != [] {
      var first := VisitBars(ns[0], expanded, row);
      VisitRows(ns[0], expanded, row);
      ForestRows(ns[1..], expanded, row + |first|);
    }
  }

  lemma {:induction false} VisitRows(n: SpanNode, expanded: set<string>, row: int)
    decreases n, 1
    ensures forall i :: 0 <= i < |VisitBars(n, expanded, row)| ==> VisitBars(n, expanded, row)[i].row == row + i
  {
    if !IsCollapsed(n, expanded) {
      ForestRows(n.children, expanded, row + 1);
    }
  }

  /** Rows are assigned 0, 1, 2, ... so `bars[i].row == i`; `totalRows` is `|bars|`. */
  lemma LayoutRowsAreIndices(roots: seq<SpanNode>, expanded: set<string>)
    ensures forall i :: 0 <= i < |Layout(roots, expanded)| ==> Layout(roots, expanded)[i].row == i
    ensures roots == [] ==> Layout(roots, expanded) == []
  {
    ForestRows(roots, expanded, 0);
  }

  /** Every bar is the bar its own span makes at its row. */
  lemma {:induction false} ForestBarsAreMade(ns: seq<SpanNode>, expanded: set<string>, row: int)
    decreases ns, 0
    ensures forall b :: b in ForestBars(ns, expanded, row) ==> b == MakeBar(b.span, expanded, b.row)
  {
    if ns != [] {
      VisitBarsAreMade(ns[0], expanded, row);
      ForestBarsAreMade(ns[1..], expanded, row + |VisitBars(ns[0], expanded, row)|);
    }
  }

  lemma {:induction false} VisitBarsAreMade(n: SpanNode, expanded: set<string>, row: int)
    decreases n, 1
    ensures forall b :: b in VisitBars(n, expanded, row) ==> b == MakeBar(b.span, expanded, b.row)
  {
    if !IsCollapsed(n, expanded) {
      ForestBarsAreMade(n.children, expanded, row + 1);
    }
  }

  /**
   * A bar is collapsed iff its span has children and is not expanded; its
   * `childCount` is the full descendant count when collapsed and 0 otherwise;
   * the times, depth, parent id and error flag come from the span.
   */
  lemma LayoutBarFields(roots: seq<SpanNode>, expanded: set<string>, b: TimelineBar)
    requires b in Layout(roots, expanded)
    ensures b.isCollapsed <==> |b.span.children| > 0 && b.span.spanId !in expanded
    ensures b.childCount == if b.isCollapsed then |PreOrder(b.span)| - 1 else 0
    ensures b.startMs == b.span.startMs && b.endMs == b.span.startMs + b.span.durationMs
    ensures b.depth == b.span.depth && b.parentSpanId == b.span.parentSpanId
    ensures b.isError <==> b.span.statusCode == "Error"
  {
    ForestBarsAreMade(roots, expanded, 0);
    DescendantsIsSubtreeSize(b.span);
  }

  function SumChildCount(bars: seq<TimelineBar>): int {
    if bars == [] then 0 else bars[0].childCount + SumChildCount(bars[1..])
  }

  lemma {:induction false} SumChildCountAppend(a: seq<TimelineBar>, b: seq<TimelineBar>)
    ensures SumChildCount(a + b) == SumChildCount(a) + SumChildCount(b)
  {
    if a == [] {
      assert a + b == b;
    } else {
      assert (a + b)[1..] == a[1..] + b;
      SumChildCountAppend(a[1..], b);
    }
  }

  /**
   * Every node of the tree is either shown as a row or counted in exactly one
   * collapsed ancestor's "+N" badge: rows plus badge counts equal the tree size.
   */
  lemma {:induction false} ForestConservation(ns: seq<SpanNode>, expanded: set<string>, row: int)
    decreases ns, 0
    ensures |ForestBars(ns, expanded, row)| + SumChildCount(ForestBars(ns, expanded, row)) == |PreOrderForest(ns)|
  {
    if ns != [] {
      var first := VisitBars(ns[0], expanded, row);
      VisitConservation(ns[0], expanded, row);
      ForestConservation(ns[1..], expanded, row + |first|);
      SumChildCountAppend(first, ForestBars(ns[1..], expanded, row + |first|));
    }
  }

  lemma {:induction false} VisitConservation(n: SpanNode, expanded: set<string>, row: int)
    decreases n, 1
    ensures |VisitBars(n, expanded, row)| + SumChildCount(VisitBars(n, expanded, row)) == |PreOrder(n)|
  {
    var rest := if IsCollapsed(n, expanded) then [] else ForestBars(n.children, expanded, row + 1);
    SumChildCountAppend([MakeBar(n, expanded, row)], rest);
    if IsCollapsed(n, expanded) {
      DescendantsIsSubtreeSize(n);
    } else {
      ForestConservation(n.children, expanded, row + 1);
    }
  }

  lemma LayoutConservation(roots: seq<SpanNode>, expanded: set<string>)
    ensures |Layout(roots, expanded)| + SumChildCount(Layout(roots, expanded)) == |PreOrderForest(roots)|
  {
    ForestConservation(roots, expanded, 0);
  }

  /** Every node that has children is expanded. */
  predicate AllExpanded(ns: seq<SpanNode>, expanded: set<string>) {
    forall n :: n in PreOrderForest(ns) && |n.children| > 0 ==> n.spanId in expanded
  }

  lemma PreOrderForestHead(ns: seq<SpanNode>)
    requires ns != []
    ensures PreOrderForest(ns) == PreOrder(ns[0]) + PreOrderForest(ns[1..])
  {
  }

  /** With every parent expanded, the rows show the whole tree in pre-order. */
  lemma FullyExpandedShowsAll(ns: seq<SpanNode>, expanded: set<string>, row: int)
    requires AllExpanded(ns, expanded)
    ensures Spans(ForestBars(ns, expanded, row)) == PreOrderForest(ns)
  {
    AllExpandedForest(ns, expanded);
    ExpandedForestShowsAll(ns, expanded, row);
  }

  /** "Every parent is expanded", stated node by node down the tree. */
  predicate ExpandedForest(ns: seq<SpanNode>, expanded: set<string>)
    decreases ns, 0
  {
    ns == [] || (ExpandedNode(ns[0], expanded) && ExpandedForest(ns[1..], expanded))
  }

  predicate ExpandedNode(n: SpanNode, expanded: set<string>)
    decreases n, 1
  {
    (|n.children| > 0 ==> n.spanId in expanded) && ExpandedForest(n.children, expanded)
  }

  lemma {:induction false} AllExpandedForest(ns: seq<SpanNode>, expanded: set<string>)
    decreases ns, 0
    requires AllExpanded(ns, expanded)
    ensures ExpandedForest(ns, expanded)
  {
    if ns != [] {
      AllExpandedSplit(ns, expanded);
      AllExpandedNode(ns[0], expanded);
      AllExpandedForest(ns[1..], expanded);
    }
  }

  lemma {:induction false} AllExpandedNode(n: SpanNode, expanded: set<string>)
    decreases n, 1
    requires forall m :: m in PreOrder(n) && |m.children| > 0 ==> m.spanId in expanded
    ensures ExpandedNode(n, expanded)
  {
    assert n in PreOrder(n);
    assert forall m :: m in PreOrderForest(n.children) ==> m in PreOrder(n);
    AllExpandedForest(n.children, expanded);
  }

  lemma AllExpandedSplit(ns: seq<SpanNode>, expanded: set<string>)
    requires ns != [] && AllExpanded(ns, expanded)
    ensures AllExpanded(ns[1..], expanded)
    ensures forall m :: m in PreOrder(ns[0]) && |m.children| > 0 ==> m.spanId in expanded
  {
    PreOrderForestHead(ns);
  }

  lemma {:induction false} ExpandedForestShowsAll(ns: seq<SpanNode>, expanded: set<string>, row: int)
    decreases ns, 0
    requires ExpandedForest(ns, expanded)
    ensures Spans(ForestBars(ns, expanded, row)) == PreOrderForest(ns)
  {
    if ns != [] {
      var first := VisitBars(ns[0], expanded, row);
      ForestSpansHead(ns, expanded, row);
      ExpandedNodeShowsAll(ns[0], expanded, row);
      ExpandedForestShowsAll(ns[1..], expanded, row + |first|);
    }
  }

  lemma {:induction false} ExpandedNodeShowsAll(n: SpanNode, expanded: set<string>, row: int)
    decreases n, 1
    requires ExpandedNode(n, expanded)
    ensures Spans(VisitBars(n, expanded, row)) == PreOrder(n)
  {
    var rest := ForestBars(n.children, expanded, row + 1);
    ExpandedForestShowsAll(n.children, expanded, row + 1);
    SpansAppend([MakeBar(n, expanded, row)], rest);
  }

  lemma ForestSpansHead(ns: seq<SpanNode>, expanded: set<string>, row: int)
    requires ns != []
    ensures var first := VisitBars(ns[0], expanded, row);
            Spans(ForestBars(ns, expanded, row)) ==
              Spans(first) + Spans(ForestBars(ns[1..], expanded, row + |first|))
    ensures PreOrderForest(ns) == PreOrder(ns[0]) + PreOrderForest(ns[1..])
  {
    var first := VisitBars(ns[0], expanded, row);
    SpansAppend(first, ForestBars(ns[1..], expanded, row + |first|));
  }

  lemma SpansAppend(a: seq<TimelineBar>, b: seq<TimelineBar>)
    ensures Spans(a + b) == Spans(a) + Spans(b)
  {
  }

  /** With the default (unbounded) expand depth, every node becomes a row. */
  lemma DefaultExpansionShowsAll(roots: seq<SpanNode>)
    ensures Spans(Layout(roots, DefaultExpanded(roots, 0, Unbounded))) == PreOrderForest(roots)
  {
    var e := DefaultExpanded(roots, 0, Unbounded);
    DefaultExpandedIsExpandable(roots, 0, Unbounded);
    LevelledCoversForest(roots, 0);
    FullyExpandedShowsAll(roots, e, 0);
  }

  lemma {:induction false} LevelledCoversForest(ns: seq<SpanNode>, level: int)
    decreases ns, 0
    ensures forall n :: n in PreOrderForest(ns) ==> exists l :: (n, l) in Levelled(ns, level)
  {
    if ns != [] {
      LevelledCoversNode(ns[0], level);
      LevelledCoversForest(ns[1..], level);
    }
  }

  lemma {:induction false} LevelledCoversNode(n: SpanNode, level: int)
    decreases n, 1
    ensures forall m :: m in PreOrder(n) ==> exists l :: (m, l) in LevelledNode(n, level)
  {
    LevelledCoversForest(n.children, level + 1);
    assert (n, level) in LevelledNode(n, level);
  }
}

/**
 * Parents come first: in a well-formed tree with distinct ids, the layout puts
 * the bar of a span's parent on an earlier row than the span's own bar.
 */
module TraceLayoutOrder {
  import opened TraceTypes
  import opened TraceLayout

  /** Every child names its parent in `parentSpanId`, all the way down. */
  predicate WellParented(n: SpanNode)
    decreases n, 1
  {
    (forall c :: c in n.children ==> c.parentSpanId == n.spanId) && WellParentedForest(n.children)
  }

  predicate WellParentedForest(ns: seq<SpanNode>)
    decreases ns, 0
  {
    forall i :: 0 <= i < |ns| ==> WellParented(ns[i])
  }

  predicate DistinctNodeIds(ns: seq<SpanNode>) {
    forall i, j :: 0 <= i < j < |ns| ==> ns[i].spanId != ns[j].spanId
  }

  predicate DistinctBarIds(bars: seq<TimelineBar>) {
    forall i, j :: 0 <= i < j < |bars| ==> bars[i].span.spanId != bars[j].span.spanId
  }

  /** Each bar's parent id is in `out` or is the id of an earlier bar. */
  predicate ParentEarlier(bars: seq<TimelineBar>, out: set<string>) {
    forall i :: 0 <= i < |bars| ==> ParentAt(bars, i, out)
  }

  /** Bar `i`'s parent id is in `out` or is the id of a bar before it. */
  predicate ParentAt(bars: seq<TimelineBar>, i: int, out: set<string>)
    requires 0 <= i < |bars|
  {
    bars[i].parentSpanId in out || exists j :: 0 <= j < i && bars[j].span.spanId == bars[i].parentSpanId
  }

  lemma {:induction false} ForestBarsFromTree(ns: seq<SpanNode>, e: set<string>, row: int)
    decreases ns, 0
    ensures forall b :: b in ForestBars(ns, e, row) ==> b.span in PreOrderForest(ns)
  {
    if ns != [] {
      VisitBarsFromTree(ns[0], e, row);
      ForestBarsFromTree(ns[1..], e, row + |VisitBars(ns[0], e, row)|);
    }
  }

  lemma {:induction false} VisitBarsFromTree(n: SpanNode, e: set<string>, row: int)
    decreases n, 1
    ensures forall b :: b in VisitBars(n, e, row) ==> b.span in PreOrder(n)
  {
    if !IsCollapsed(n, e) {
      ForestBarsFromTree(n.children, e, row + 1);
    }
  }

  lemma ParentEarlierAppend(a: seq<TimelineBar>, b: seq<TimelineBar>, out: set<string>)
    requires ParentEarlier(a, out) && ParentEarlier(b, out)
    ensures ParentEarlier(a + b, out)
  {
    var s := a + b;
    forall i | 0 <= i < |s| ensures ParentAt(s, i, out) {
      if i < |a| {
        assert s[i] == a[i];
        if a[i].parentSpanId !in out {
          assert ParentAt(a, i, out);
          var j :| 0 <= j < i && a[j].span.spanId == a[i].parentSpanId;
          assert s[j] == a[j];
        }
      } else {
        assert s[i] == b[i - |a|];
        if b[i - |a|].parentSpanId !in out {
          assert ParentAt(b, i - |a|, out);
          var j :| 0 <= j < i - |a| && b[j].span.spanId == b[i - |a|].parentSpanId;
          assert s[j + |a|] == b[j];
        }
      }
    }
  }

  lemma {:induction false} VisitParentsFirst(n: SpanNode, e: set<string>, row: int)
    decreases n, 1
    requires WellParented(n)
    ensures ParentEarlier(VisitBars(n, e, row), {n.parentSpanId})
  {
    if !IsCollapsed(n, e) {
      var rest := ForestBars(n.children, e, row + 1);
      ForestParentsFirst(n.children, e, row + 1, {n.spanId});
      var s := VisitBars(n, e, row);
      assert s == [MakeBar(n, e, row)] + rest;
      forall i | 0 <= i < |s| ensures ParentAt(s, i, {n.parentSpanId}) {
        if i > 0 {
          assert s[i] == rest[i - 1];
          if rest[i - 1].parentSpanId == n.spanId {
            assert s[0].span.spanId == n.spanId;
          } else {
            assert ParentAt(rest, i - 1, {n.spanId});
            var j :| 0 <= j < i - 1 && rest[j].span.spanId == rest[i - 1].parentSpanId;
            assert s[j + 1] == rest[j];
          }
        }
      }
    }
  }

  lemma {:induction false} ForestParentsFirst(ns: seq<SpanNode>, e: set<string>, row: int, out: set<string>)
    decreases ns, 0
    requires WellParentedForest(ns)
    requires forall c :: c in ns ==> c.parentSpanId in out
    ensures ParentEarlier(ForestBars(ns, e, row), out)
  {
    if ns != [] {
      var first := VisitBars(ns[0], e, row);
      VisitParentsFirst(ns[0], e, row);
      ParentEarlierWiden(first, {ns[0].parentSpanId}, out);
      assert WellParentedForest(ns[1..]);
      ForestParentsFirst(ns[1..], e, row + |first|, out);
      ParentEarlierAppend(first, ForestBars(ns[1..], e, row + |first|), out);
    }
  }

  lemma ParentEarlierWiden(bars: seq<TimelineBar>, out: set<string>, out': set<string>)
    requires ParentEarlier(bars, out) && out <= out'
    ensures ParentEarlier(bars, out')
  {
    forall i | 0 <= i < |bars| ensures ParentAt(bars, i, out') {
      assert ParentAt(bars, i, out);
    }
  }

  lemma WellParentedTail(ns: seq<SpanNode>)
    requires WellParentedForest(ns) && ns != []
    ensures WellParented(ns[0]) && WellParentedForest(ns[1..])
  {
    assert forall i :: 0 <= i < |ns[1..]| ==> ns[1..][i] == ns[i + 1];
  }

  lemma DistinctNodeIdsSplit(a: seq<SpanNode>, b: seq<SpanNode>)
    requires DistinctNodeIds(a + b)
    ensures DistinctNodeIds(a) && DistinctNodeIds(b)
    ensures forall x, y :: x in a && y in b ==> x.spanId != y.spanId
  {
    forall x, y | x in a && y in b ensures x.spanId != y.spanId {
      var i :| 0 <= i < |a| && a[i] == x;
      var j :| 0 <= j < |b| && b[j] == y;
      assert (a + b)[i] == x && (a + b)[|a| + j] == y;
    }
    assert forall i :: 0 <= i < |b| ==> (a + b)[|a| + i] == b[i];
    assert forall i :: 0 <= i < |a| ==> (a + b)[i] == a[i];
  }

  lemma DistinctBarIdsJoin(a: seq<TimelineBar>, b: seq<TimelineBar>)
    requires DistinctBarIds(a) && DistinctBarIds(b)
    requires forall x, y :: x in a && y in b ==> x.span.spanId != y.span.spanId
    ensures DistinctBarIds(a + b)
  {
    var s := a + b;
    forall i, j | 0 <= i < j < |s| ensures s[i].span.spanId != s[j].span.spanId {
      if j < |a| {
        assert s[i] == a[i] && s[j] == a[j];
      } else if i >= |a| {
        assert s[i] == b[i - |a|] && s[j] == b[j - |a|];
      } else {
        assert s[i] == a[i] && s[j] == b[j - |a|];
        assert a[i] in a && b[j - |a|] in b;
      }
    }
  }

  lemma {:induction false} VisitDistinct(n: SpanNode, e: set<string>, row: int)
    decreases n, 1
    requires DistinctNodeIds(PreOrder(n))
    ensures DistinctBarIds(VisitBars(n, e, row))
  {
    if !IsCollapsed(n, e) {
      var rest := ForestBars(n.children, e, row + 1);
      DistinctNodeIdsSplit([n], PreOrderForest(n.children));
      ForestDistinct(n.children, e, row + 1);
      ForestBarsFromTree(n.children, e, row + 1);
      DistinctBarIdsJoin([MakeBar(n, e, row)], rest);
    }
  }

  lemma {:induction false} ForestDistinct(ns: seq<SpanNode>, e: set<string>, row: int)
    decreases ns, 0
    requires DistinctNodeIds(PreOrderForest(ns))
    ensures DistinctBarIds(ForestBars(ns, e, row))
  {
    if ns != [] {
      var first := VisitBars(ns[0], e, row);
      var rest := ForestBars(ns[1..], e, row + |first|);
      DistinctNodeIdsSplit(PreOrder(ns[0]), PreOrderForest(ns[1..]));
      VisitDistinct(ns[0], e, row);
      ForestDistinct(ns[1..], e, row + |first|);
      VisitBarsFromTree(ns[0], e, row);
      ForestBarsFromTree(ns[1..], e, row + |first|);
      DistinctBarIdsJoin(first, rest);
    }
  }

  /** The tree the data layer hands over: parents named by their children, distinct ids, roots without a parent in the tree. */
  predicate WellFormedForest(roots: seq<SpanNode>) {
    WellParentedForest(roots) &&
    DistinctNodeIds(PreOrderForest(roots)) &&
    forall r, m :: r in roots && m in PreOrderForest(roots) ==> r.parentSpanId != m.spanId
  }

  /**
   * In the layout of a well-formed tree the bars carry distinct ids, and a bar
   * whose parent id is the id of another bar comes after that bar.
   */
  lemma LayoutParentsFirst(roots: seq<SpanNode>, e: set<string>)
    requires WellFormedForest(roots)
    ensures DistinctBarIds(Layout(roots, e))
    ensures var bars := Layout(roots, e);
            forall i, j :: 0 <= i < |bars| && 0 <= j < |bars| && bars[j].span.spanId == bars[i].parentSpanId ==> j < i
  {
    var bars := Layout(roots, e);
    var out := set r | r in roots :: r.parentSpanId;
    ForestParentsFirst(roots, e, 0, out);
    ForestDistinct(roots, e, 0);
    ForestBarsFromTree(roots, e, 0);
    forall i, j | 0 <= i < |bars| && 0 <= j < |bars| && bars[j].span.spanId == bars[i].parentSpanId
      ensures j < i
    {
      assert bars[j] in bars;
      assert bars[i].parentSpanId !in out;
      assert ParentAt(bars, i, out);
      var k :| 0 <= k < i && bars[k].span.spanId == bars[i].parentSpanId;
      assert k == j;
    }
  }
}
