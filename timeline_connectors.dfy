/**
 * The connector overlay: for each drawn bar whose parent has a row, a vertical
 * line from the bottom of the parent's row down to the middle of the bar's row,
 * and a short horizontal line into the bar's indent.
 */
module TimelineConnectors {
  import opened TraceTypes
  import opened TimelineRows
  import TraceLayout
  import opened TraceLayoutOrder

  /** The connector overlay draws two rows beyond the window on each side, not `OVERSCAN`. */
  const CONNECTOR_OVERSCAN: int := 2

  /** One connector pair: the vertical line at `verticalX` from `parentY` to `childY`,
      then the horizontal line at `childY` from `verticalX` to `horizontalEndX`. */
  datatype Connector = Connector(spanId: string, verticalX: int, parentY: int, childY: int, horizontalEndX: int)

  /** `parentRowMap`: each span id mapped to its bar's row; a later bar with the same id overwrites. */
  function RowMap(bars: seq<TimelineBar>): map<string, int> {
    if bars == [] then map[]
    else RowMap(bars[..|bars| - 1])[bars[|bars| - 1].span.spanId := bars[|bars| - 1].row]
  }

  method BuildParentRowMap(bars: seq<TimelineBar>) returns (m: map<string, int>)
    ensures m == RowMap(bars)
  {
    m := map[];
    for i := 0 to |bars|
      invariant m == RowMap(bars[..i])
    {
      assert bars[..i + 1][..i] == bars[..i];
      m := m[bars[i].span.spanId := bars[i].row];
    }
    assert bars[..|bars|] == bars;
  }

  /** The ids that are keys of the map: exactly the ids of the bars. */
  lemma {:induction false} RowMapKeys(bars: seq<TimelineBar>)
    ensures forall id :: id in RowMap(bars) <==> exists i :: 0 <= i < |bars| && bars[i].span.spanId == id
  {
    if bars != [] {
      var last := |bars| - 1;
      var init := bars[..last];
      RowMapKeys(init);
      var m, m0 := RowMap(bars), RowMap(init);
      assert m == m0[bars[last].span.spanId := bars[last].row];
      forall id | id in m
        ensures exists i :: 0 <= i < |bars| && bars[i].span.spanId == id
      {
        if id != bars[last].span.spanId {
          var i :| 0 <= i < |init| && init[i].span.spanId == id;
          assert bars[i] == init[i];
        }
      }
      forall id | exists i :: 0 <= i < |bars| && bars[i].span.spanId == id
        ensures id in m
      {
        var i :| 0 <= i < |bars| && bars[i].span.spanId == id;
        if i < last { assert init[i] == bars[i]; }
      }
    }
  }

  /** The last bar carrying an id, found from the end. */
  predicate LastCarrier(bars: seq<TimelineBar>, id: string, i: int) {
    0 <= i < |bars| && bars[i].span.spanId == id && forall j :: i < j < |bars| ==> bars[j].span.spanId != id
  }

  /** Every key maps to the row of the last bar carrying it. */
  lemma {:induction false} RowMapValues(bars: seq<TimelineBar>)
    ensures forall id :: id in RowMap(bars) ==>
              exists i :: LastCarrier(bars, id, i) && RowMap(bars)[id] == bars[i].row
  {
    if bars != [] {
      var last := |bars| - 1;
      var init := bars[..last];
      RowMapValues(init);
      var m, m0 := RowMap(bars), RowMap(init);
      assert m == m0[bars[last].span.spanId := bars[last].row];
      forall id | id in m
        ensures exists i :: LastCarrier(bars, id, i) && m[id] == bars[i].row
      {
        if id == bars[last].span.spanId {
          assert LastCarrier(bars, id, last);
        } else {
          var i :| LastCarrier(init, id, i) && m0[id] == init[i].row;
          assert bars[i] == init[i];
          assert LastCarrier(bars, id, i);
        }
      }
    }
  }

  /**
   * The map has a key for exactly the ids of the bars, and each key maps to the
   * row of the last bar carrying it.
   */
  lemma RowMapLastWins(bars: seq<TimelineBar>)
    ensures forall id :: id in RowMap(bars) <==> exists i :: 0 <= i < |bars| && bars[i].span.spanId == id
    ensures forall id :: id in RowMap(bars) ==>
              exists i :: 0 <= i < |bars| && bars[i].span.spanId == id && RowMap(bars)[id] == bars[i].row &&
                          forall j :: i < j < |bars| ==> bars[j].span.spanId != id
  {
    RowMapKeys(bars);
    RowMapValues(bars);
  }

  /** With distinct ids, every bar's id maps to its own row. */
  lemma RowMapOfDistinct(bars: seq<TimelineBar>, i: int)
    requires DistinctBarIds(bars) && 0 <= i < |bars|
    ensures bars[i].span.spanId in RowMap(bars) && RowMap(bars)[bars[i].span.spanId] == bars[i].row
  {
    RowMapLastWins(bars);
    var id := bars[i].span.spanId;
    var k :| 0 <= k < |bars| && bars[k].span.spanId == id && RowMap(bars)[id] == bars[k].row &&
             forall j :: k < j < |bars| ==> bars[j].span.spanId != id;
    assert k == i;
  }

  /** The guards of the emission loop: the row is in the window, the parent id is set and has a row. */
  predicate Emits(b: TimelineBar, m: map<string, int>, first: int, last: int) {
    first <= b.row <= last && b.parentSpanId != "" && b.parentSpanId in m
  }

  /** The coordinates for a bar whose parent sits on `parentRow`. */
  function MakeConnector(b: TimelineBar, parentRow: int): Connector {
    var xIndent := b.depth * DEPTH_INDENT;
    Connector(b.span.spanId, xIndent - DEPTH_INDENT / 2, parentRow * ROW_SIZE + ROW_HEIGHT,
              b.row * ROW_SIZE + ROW_HEIGHT / 2, xIndent - 2)
  }

  /** The connectors the loop pushes, one per emitting bar, in bar order. */
  function ConnectorsOf(bars: seq<TimelineBar>, m: map<string, int>, first: int, last: int): (r: seq<Connector>)
    ensures |r| <= |bars|
  {
    if bars == [] then []
    else
      ConnectorsOf(bars[..|bars| - 1], m, first, last) +
      (var b := bars[|bars| - 1];
       if Emits(b, m, first, last) then [MakeConnector(b, m[b.parentSpanId])] else [])
  }

  function ConnectorFirst(scrollTop: real): int { FirstVisible(scrollTop, CONNECTOR_OVERSCAN) }

  function ConnectorLast(scrollTop: real, containerHeight: real, totalRows: int): int {
    LastVisible(scrollTop, containerHeight, totalRows, CONNECTOR_OVERSCAN)
  }

  /** The component's connector computation: build the row map, then scan the bars with `continue` guards. */
  method ComputeConnectors(bars: seq<TimelineBar>, totalRows: int, scrollTop: real, containerHeight: real)
    returns (lines: seq<Connector>)
    ensures lines == ConnectorsOf(bars, RowMap(bars), ConnectorFirst(scrollTop), ConnectorLast(scrollTop, containerHeight, totalRows))
  {
    var parentRowMap := BuildParentRowMap(bars);
    var firstVisible := ConnectorFirst(scrollTop);
    var lastVisible := ConnectorLast(scrollTop, containerHeight, totalRows);
    lines := [];
    for i := 0 to |bars|
      invariant lines == ConnectorsOf(bars[..i], parentRowMap, firstVisible, lastVisible)
    {
      var bar := bars[i];
      assert bars[..i + 1][..i] == bars[..i];
      if bar.row < firstVisible || bar.row > lastVisible { continue; }
      if bar.parentSpanId == "" { continue; }
      if bar.parentSpanId !in parentRowMap { continue; }
      var parentRow := parentRowMap[bar.parentSpanId];
      var parentY := parentRow * ROW_SIZE + ROW_HEIGHT;
      var childY := bar.row * ROW_SIZE + ROW_HEIGHT / 2;
      var xIndent := bar.depth * DEPTH_INDENT;
      var verticalX := xIndent - DEPTH_INDENT / 2;
      lines := lines + [Connector(bar.span.spanId, verticalX, parentY, childY, xIndent - 2)];
    }
    assert bars[..|bars|] == bars;
  }

  /**
   * A connector is drawn for exactly the bars passing the three guards, each
   * with the coordinates for its parent's row, and no bar gets two.
   */
  lemma {:induction false} ConnectorsExactlyEmitting(bars: seq<TimelineBar>, m: map<string, int>, first: int, last: int)
    ensures forall i :: 0 <= i < |bars| && Emits(bars[i], m, first, last) ==>
              MakeConnector(bars[i], m[bars[i].parentSpanId]) in ConnectorsOf(bars, m, first, last)
    ensures forall c :: c in ConnectorsOf(bars, m, first, last) ==>
              exists i :: 0 <= i < |bars| && Emits(bars[i], m, first, last) &&
                          c == MakeConnector(bars[i], m[bars[i].parentSpanId])
  {
    if bars != [] {
      var init := bars[..|bars| - 1];
      var n := |bars| - 1;
      ConnectorsExactlyEmitting(init, m, first, last);
      var r := ConnectorsOf(bars, m, first, last);
      var ri := ConnectorsOf(init, m, first, last);
      assert forall i :: 0 <= i < n ==> bars[i] == init[i];
      forall c | c in r
        ensures exists i :: 0 <= i < |bars| && Emits(bars[i], m, first, last) &&
                            c == MakeConnector(bars[i], m[bars[i].parentSpanId])
      {
        if c in ri {
          var i :| 0 <= i < |init| && Emits(init[i], m, first, last) && c == MakeConnector(init[i], m[init[i].parentSpanId]);
          assert bars[i] == init[i];
        } else {
          assert Emits(bars[n], m, first, last) && c == MakeConnector(bars[n], m[bars[n].parentSpanId]);
        }
      }
    }
  }

  /** With distinct span ids there is at most one connector per bar: connector ids are distinct. */
  lemma {:induction false} ConnectorIdsDistinct(bars: seq<TimelineBar>, m: map<string, int>, first: int, last: int)
    requires DistinctBarIds(bars)
    ensures forall i, j :: 0 <= i < j < |ConnectorsOf(bars, m, first, last)| ==>
              ConnectorsOf(bars, m, first, last)[i].spanId != ConnectorsOf(bars, m, first, last)[j].spanId
  {
    if bars != [] {
      var init := bars[..|bars| - 1];
      assert DistinctBarIds(init);
      ConnectorIdsDistinct(init, m, first, last);
      ConnectorsExactlyEmitting(init, m, first, last);
      var b := bars[|bars| - 1];
      forall c | c in ConnectorsOf(init, m, first, last) ensures c.spanId != b.span.spanId {
        var i :| 0 <= i < |init| && Emits(init[i], m, first, last) && c == MakeConnector(init[i], m[init[i].parentSpanId]);
        assert init[i] == bars[i];
      }
      var ri := ConnectorsOf(init, m, first, last);
      var r := ConnectorsOf(bars, m, first, last);
      assert r == ri + (if Emits(b, m, first, last) then [MakeConnector(b, m[b.parentSpanId])] else []);
      forall i, j | 0 <= i < j < |r| ensures r[i].spanId != r[j].spanId {
        if j >= |ri| {
          assert r[j].spanId == b.span.spanId;
          assert r[i] == ri[i] && ri[i] in ri;
        } else {
          assert r[i] == ri[i] && r[j] == ri[j];
        }
      }
    }
  }

  /**
   * Geometry: the horizontal line is 6 px long and ends 2 px short of the bar's
   * indent; the vertical line is half an indent to its left; whenever the
   * parent's row is above the child's, the line runs downwards.
   */
  lemma ConnectorGeometry(b: TimelineBar, parentRow: int)
    ensures var c := MakeConnector(b, parentRow);
            c.verticalX == b.depth * DEPTH_INDENT - 8 &&
            c.horizontalEndX == b.depth * DEPTH_INDENT - 2 &&
            c.horizontalEndX - c.verticalX == 6 &&
            c.parentY == parentRow * 29 + 28 && c.childY == b.row * 29 + 14 &&
            (parentRow < b.row <==> c.parentY < c.childY)
  {
  }

  /**
   * For the layout of a well-formed tree (children name their parent, ids are
   * distinct), every connector runs downwards: the parent's row is above.
   */
  lemma LayoutConnectorsRunDown(roots: seq<SpanNode>, e: set<string>, first: int, last: int)
    requires WellFormedForest(roots)
    ensures var bars := TraceLayout.Layout(roots, e);
            forall c :: c in ConnectorsOf(bars, RowMap(bars), first, last) ==> c.parentY < c.childY
  {
    LayoutParentsFirst(roots, e);
    TraceLayout.LayoutRowsAreIndices(roots, e);
    ConnectorsRunDown(TraceLayout.Layout(roots, e), first, last);
  }

  /** When rows are positions and a parent's bar always comes first, every connector runs downwards. */
  lemma ConnectorsRunDown(bars: seq<TimelineBar>, first: int, last: int)
    requires forall i :: 0 <= i < |bars| ==> bars[i].row == i
    requires forall i, j :: 0 <= i < |bars| && 0 <= j < |bars| && bars[j].span.spanId == bars[i].parentSpanId ==> j < i
    ensures forall c :: c in ConnectorsOf(bars, RowMap(bars), first, last) ==> c.parentY < c.childY
  {
    var m := RowMap(bars);
    ConnectorsExactlyEmitting(bars, m, first, last);
    RowMapValues(bars);
    forall c | c in ConnectorsOf(bars, m, first, last) ensures c.parentY < c.childY {
      var i :| 0 <= i < |bars| && Emits(bars[i], m, first, last) && c == MakeConnector(bars[i], m[bars[i].parentSpanId]);
      var p := bars[i].parentSpanId;
      var j :| LastCarrier(bars, p, j) && m[p] == bars[j].row;
      ConnectorGeometry(bars[i], m[p]);
    }
  }
}
