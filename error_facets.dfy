/**
 * `transformErrorsFacets`: the facet rows of the errors page (one row per
 * facet value, tagged with the facet it belongs to) are sorted into the
 * three facet lists, services, deployment environments and error types,
 * each keeping the rows' order. Rows of any other facet are dropped.
 */
module ErrorFacets {

  const SERVICE_FACET: string := "service"
  const DEPLOYMENT_ENV_FACET: string := "deploymentEnv"
  const ERROR_TYPE_FACET: string := "errorType"

  /** A row of the facets query; `count` is the value `Number(row.count)` reads. */
  datatype FacetRow = FacetRow(facetType: string, name: string, count: int)

  datatype FacetItem = FacetItem(name: string, count: int)

  datatype ErrorsFacets = ErrorsFacets(services: seq<FacetItem>, deploymentEnvs: seq<FacetItem>, errorTypes: seq<FacetItem>)

  /** The item a row becomes: its name and its count. */
  function ItemOf(row: FacetRow): (r: FacetItem)
    ensures r.name == row.name && r.count == row.count
  {
    FacetItem(row.name, row.count)
  }

  /** The items of the rows of one facet, in row order. */
  function ItemsOfType(rows: seq<FacetRow>, facet: string): (r: seq<FacetItem>)
    ensures |r| <= |rows|
  {
    if rows == [] then []
    else
      var last := rows[|rows| - 1];
      ItemsOfType(rows[..|rows| - 1], facet) + (if last.facetType == facet then [ItemOf(last)] else [])
  }

  predicate IsKnownFacet(facetType: string) {
    facetType == SERVICE_FACET || facetType == DEPLOYMENT_ENV_FACET || facetType == ERROR_TYPE_FACET
  }

  /** The number of rows the switch drops. */
  function DroppedCount(rows: seq<FacetRow>): nat {
    if rows == [] then 0
    else DroppedCount(rows[..|rows| - 1]) + (if IsKnownFacet(rows[|rows| - 1].facetType) then 0 else 1)
  }

  method TransformErrorsFacets(facetsData: seq<FacetRow>) returns (facets: ErrorsFacets)
    ensures facets.services == ItemsOfType(facetsData, SERVICE_FACET)
    ensures facets.deploymentEnvs == ItemsOfType(facetsData, DEPLOYMENT_ENV_FACET)
    ensures facets.errorTypes == ItemsOfType(facetsData, ERROR_TYPE_FACET)
  {
    var services: seq<FacetItem> := [];
    var deploymentEnvs: seq<FacetItem> := [];
    var errorTypes: seq<FacetItem> := [];
    for i := 0 to |facetsData|
      invariant services == ItemsOfType(facetsData[..i], SERVICE_FACET)
      invariant deploymentEnvs == ItemsOfType(facetsData[..i], DEPLOYMENT_ENV_FACET)
      invariant errorTypes == ItemsOfType(facetsData[..i], ERROR_TYPE_FACET)
    {
      var row := facetsData[i];
      assert facetsData[..i + 1][..i] == facetsData[..i];
      assert facetsData[..i + 1][i] == row;
      var item := FacetItem(row.name, row.count);
      if row.facetType == SERVICE_FACET {
        services := services + [item];
      } else if row.facetType == DEPLOYMENT_ENV_FACET {
        deploymentEnvs := deploymentEnvs + [item];
      } else if row.facetType == ERROR_TYPE_FACET {
        errorTypes := errorTypes + [item];
      }
    }
    assert facetsData[..|facetsData|] == facetsData;
    facets := ErrorsFacets(services, deploymentEnvs, errorTypes);
  }

  // ---------------------------------------------------------------------
  // Properties
  // ---------------------------------------------------------------------

  lemma FacetNamesDiffer()
    ensures SERVICE_FACET != DEPLOYMENT_ENV_FACET && SERVICE_FACET != ERROR_TYPE_FACET &&
            DEPLOYMENT_ENV_FACET != ERROR_TYPE_FACET
  {
    assert |SERVICE_FACET| == 7 && |DEPLOYMENT_ENV_FACET| == 13 && |ERROR_TYPE_FACET| == 9;
  }

  /**
   * Every row lands in exactly one list or is dropped: the three lists and
   * the dropped rows together account for all rows, so the lists hold at
   * most as many items as there are rows.
   */
  lemma {:induction false} EveryRowOnce(rows: seq<FacetRow>)
    ensures |ItemsOfType(rows, SERVICE_FACET)| + |ItemsOfType(rows, DEPLOYMENT_ENV_FACET)| +
            |ItemsOfType(rows, ERROR_TYPE_FACET)| + DroppedCount(rows) == |rows|
  {
    if rows != [] {
      EveryRowOnce(rows[..|rows| - 1]);
      FacetNamesDiffer();
    }
  }

  /** The lists concatenate: sorting two batches is sorting their concatenation. */
  lemma {:induction false} ItemsOfTypeAppend(a: seq<FacetRow>, b: seq<FacetRow>, facet: string)
    ensures ItemsOfType(a + b, facet) == ItemsOfType(a, facet) + ItemsOfType(b, facet)
    decreases |b|
  {
    if b != [] {
      var b' := b[..|b| - 1];
      assert (a + b)[..|a + b| - 1] == a + b';
      ItemsOfTypeAppend(a, b', facet);
    } else {
      assert a + b == a;
    }
  }

  /**
   * Order is kept: the items of a facet are the items of exactly its rows,
   * taken at increasing row positions.
   */
  lemma {:induction false} ItemsInRowOrder(rows: seq<FacetRow>, facet: string) returns (idx: seq<nat>)
    ensures |idx| == |ItemsOfType(rows, facet)|
    ensures forall k :: 0 <= k < |idx| ==> idx[k] < |rows| && rows[idx[k]].facetType == facet &&
                                              ItemsOfType(rows, facet)[k] == ItemOf(rows[idx[k]])
    ensures forall k, l :: 0 <= k < l < |idx| ==> idx[k] < idx[l]
    ensures forall i :: 0 <= i < |rows| && rows[i].facetType == facet ==> i in idx
  {
    if rows == [] {
      idx := [];
    } else {
      var n := |rows| - 1;
      var init := rows[..n];
      var prev := ItemsInRowOrder(init, facet);
      assert forall i :: 0 <= i < n ==> init[i] == rows[i];
      if rows[n].facetType == facet {
        idx := prev + [n];
      } else {
        idx := prev;
      }
    }
  }

  /** Every row's item is among the items of its own facet, a returned list when the facet is one of the three. */
  lemma RowIsListed(rows: seq<FacetRow>, i: int)
    requires 0 <= i < |rows|
    ensures ItemOf(rows[i]) in ItemsOfType(rows, rows[i].facetType)
  {
    var idx := ItemsInRowOrder(rows, rows[i].facetType);
    var k :| 0 <= k < |idx| && idx[k] == i;
    assert ItemsOfType(rows, rows[i].facetType)[k] == ItemOf(rows[i]);
  }

  /** A list holds only the items of rows of its own facet. */
  lemma {:induction false} OnlyOwnRows(rows: seq<FacetRow>, facet: string)
    ensures forall x :: x in ItemsOfType(rows, facet) ==>
              exists i :: 0 <= i < |rows| && rows[i].facetType == facet && x == ItemOf(rows[i])
  {
    var idx := ItemsInRowOrder(rows, facet);
    forall x | x in ItemsOfType(rows, facet)
      ensures exists i :: 0 <= i < |rows| && rows[i].facetType == facet && x == ItemOf(rows[i])
    {
      var k :| 0 <= k < |ItemsOfType(rows, facet)| && ItemsOfType(rows, facet)[k] == x;
      assert rows[idx[k]].facetType == facet && x == ItemOf(rows[idx[k]]);
    }
  }
}
