/**
 * The check applied to a widget the assistant proposes for a dashboard. A
 * proposal for the query-builder time-series endpoint must carry a list of
 * queries; a legacy flat configuration (one source, metric, filters,
 * group-by and bucket) is turned into a single query first. Every metrics
 * query must name its metric and give an allowed metric type. A proposal
 * that passes gets its params completed with defaults; one that fails is
 * blocked with a reason and handed back unchanged.
 *
 * The proposal is untyped JSON, so values are `JsValue`s. The query-builder
 * helpers the code calls are parameters: `queryBase(source)` is the fresh
 * draft for a source (`resetQueryForDataSource(createQueryDraft(0), source)`),
 * `metricTypes` is `QUERY_BUILDER_METRIC_TYPES`, and `formatWhere(params)` is
 * `formatFiltersAsWhereClause(params)`.
 */
module WidgetProposal {
  import opened Wrappers
  import opened JsText
  import opened FilterNumbers

  /** An untyped JavaScript value; an object is a map from property names. */
  datatype JsValue =
    | JUndefined
    | JNull
    | JBool(b: bool)
    | JNum(n: JsNumber)
    | JStr(s: string)
    | JArr(items: seq<JsValue>)
    | JObj(fields: map<string, JsValue>)

  type Record = map<string, JsValue>

  const QUERY_BUILDER_ENDPOINT: string := "custom_query_builder_timeseries"
  const MISSING_QUERIES_MESSAGE: string := "Chart config is missing queries[] for query builder."
  const METRICS_MESSAGE: string := "Metrics chart needs metric name and metric type."

  /** The comparison a valid proposal gets when it has none. */
  const DEFAULT_COMPARISON: JsValue := JObj(map["mode" := JStr("none"), "includePercentChange" := JBool(true)])

  datatype Proposal = Proposal(visualization: JsValue, dataSource: Record, display: JsValue)

  datatype NormalizeResult =
    | Valid(proposal: Proposal)
    | Blocked(reason: string, proposal: Proposal)

  /** `record[key]`: a missing property reads as `undefined`. */
  function Get(o: Record, key: string): JsValue {
    if key in o then o[key] else JUndefined
  }

  /** `asRecord`: plain objects only; `null`, arrays and primitives give nothing. */
  function AsRecord(v: JsValue): (r: Option<Record>)
    ensures r.Some? <==> v.JObj?
  {
    if v.JObj? then Some(v.fields) else None
  }

  /** `filters?.key` on the result of `asRecord`. */
  function Field(o: Option<Record>, key: string): JsValue {
    if o.Some? then Get(o.value, key) else JUndefined
  }

  /** `{ ...v }` for the values the drafts hold: an object's own fields, nothing for anything else. */
  function Spread(v: JsValue): Record {
    if v.JObj? then v.fields else map[]
  }

  predicate IsBlank(s: string) { Trim(s) == [] }

  predicate IsQueryBuilderDataSource(v: JsValue) {
    v == JStr("traces") || v == JStr("logs") || v == JStr("metrics")
  }

  /** `QUERY_BUILDER_METRIC_TYPES.includes(v)`: only strings of the list match. */
  predicate IsMetricType(v: JsValue, metricTypes: seq<string>) {
    v.JStr? && v.s in metricTypes
  }

  /** `toMetricType`: an allowed type is kept, anything else gives the fallback. */
  function ToMetricType(v: JsValue, fallback: JsValue, metricTypes: seq<string>): (r: JsValue)
    ensures r == v || r == fallback
    ensures IsMetricType(v, metricTypes) ==> r == v
    ensures !IsMetricType(v, metricTypes) ==> r == fallback
  {
    if IsMetricType(v, metricTypes) then v else fallback
  }

  /** `toQueryGroupByToken`: the legacy short names become attribute names. */
  function ToQueryGroupByToken(v: JsValue): (r: string)
    ensures !IsBlank(r)
  {
    TokensNonBlank();
    if !v.JStr? || IsBlank(v.s) then "service.name"
    else if v.s == "service" then "service.name"
    else if v.s == "span_name" then "span.name"
    else if v.s == "status_code" then "status.code"
    else if v.s == "http_method" then "http.method"
    else if v.s == "none" then "none"
    else v.s
  }

  lemma TokensNonBlank()
    ensures !IsBlank("service.name") && !IsBlank("span.name") && !IsBlank("status.code")
    ensures !IsBlank("http.method") && !IsBlank("none")
  {
    NonBlankIfFirstIsNot("service.name");
    NonBlankIfFirstIsNot("span.name");
    NonBlankIfFirstIsNot("status.code");
    NonBlankIfFirstIsNot("http.method");
    NonBlankIfFirstIsNot("none");
  }

  /** The keys `toLegacyQuery` writes are distinct. */
  lemma LegacyKeysDistinct()
    ensures "dataSource" != "aggregation" && "dataSource" != "stepInterval" && "dataSource" != "whereClause"
    ensures "dataSource" != "groupBy" && "dataSource" != "addOns" && "dataSource" != "metricName" && "dataSource" != "metricType"
    ensures "aggregation" != "stepInterval" && "aggregation" != "whereClause" && "aggregation" != "groupBy"
    ensures "aggregation" != "addOns" && "aggregation" != "metricName" && "aggregation" != "metricType"
    ensures "stepInterval" != "whereClause" && "stepInterval" != "groupBy" && "stepInterval" != "addOns"
    ensures "stepInterval" != "metricName" && "stepInterval" != "metricType"
    ensures "whereClause" != "groupBy" && "whereClause" != "addOns" && "whereClause" != "metricName" && "whereClause" != "metricType"
    ensures "groupBy" != "addOns" && "groupBy" != "metricName" && "groupBy" != "metricType"
    ensures "addOns" != "metricName" && "addOns" != "metricType" && "metricName" != "metricType"
  {
    assert "dataSource"[0] == 'd' && "aggregation"[0] == 'a' && "stepInterval"[0] == 's' && "whereClause"[0] == 'w';
    assert "groupBy"[0] == 'g' && "addOns"[1] == 'd' && "aggregation"[1] == 'g';
    assert "metricName"[0] == 'm' && "metricType"[0] == 'm' && "metricName"[6] == 'N' && "metricType"[6] == 'T';
  }

  /** `typeof b === "number" && Number.isFinite(b) && b > 0`; a decimal's sign is its mantissa's. */
  predicate IsPositiveFinite(v: JsValue) {
    v.JNum? && v.n.Finite? && v.n.value.mantissa > 0
  }

  /**
   * `toLegacyQuery`: a flat configuration with a known source becomes the
   * source's fresh draft with the configured fields written over it.
   */
  function ToLegacyQuery(params: Record, queryBase: string -> Record, metricTypes: seq<string>,
                         formatWhere: Record -> string): (r: Option<Record>)
    ensures r.Some? <==> IsQueryBuilderDataSource(Get(params, "source"))
  {
    var source := Get(params, "source");
    if !IsQueryBuilderDataSource(source) then None
    else
      var base := queryBase(source.s);
      var filters := AsRecord(Get(params, "filters"));
      var metric := Get(params, "metric");
      var aggregation := if metric.JStr? && !IsBlank(metric.s) then metric else Get(base, "aggregation");
      var groupBy := ToQueryGroupByToken(Get(params, "groupBy"));
      var named := Field(filters, "metricName");
      var metricName := if source == JStr("metrics") && named.JStr? then named else Get(base, "metricName");
      var metricType := ToMetricType(Field(filters, "metricType"), Get(base, "metricType"), metricTypes);
      var bucket := Get(params, "bucketSeconds");
      var stepInterval := if IsPositiveFinite(bucket) then JStr(NumberToString(bucket.n.value)) else Get(base, "stepInterval");
      Some(base + LegacyFields(source, aggregation, stepInterval, JStr(formatWhere(params)), JStr(groupBy),
                               JObj(Spread(Get(base, "addOns"))["groupBy" := JBool(groupBy != "none")]),
                               metricName, metricType))
  }

  /** The properties `toLegacyQuery` writes over the draft. */
  function LegacyFields(dataSource: JsValue, aggregation: JsValue, stepInterval: JsValue, whereClause: JsValue,
                        groupBy: JsValue, addOns: JsValue, metricName: JsValue, metricType: JsValue): (m: Record)
    ensures m.Keys == {"dataSource", "aggregation", "stepInterval", "whereClause", "groupBy", "addOns", "metricName", "metricType"}
    ensures "dataSource" in m && m["dataSource"] == dataSource
    ensures "aggregation" in m && m["aggregation"] == aggregation
    ensures "stepInterval" in m && m["stepInterval"] == stepInterval
    ensures "whereClause" in m && m["whereClause"] == whereClause
    ensures "groupBy" in m && m["groupBy"] == groupBy
    ensures "addOns" in m && m["addOns"] == addOns
    ensures "metricName" in m && m["metricName"] == metricName
    ensures "metricType" in m && m["metricType"] == metricType
  {
    LegacyKeysDistinct();
    map["dataSource" := dataSource, "aggregation" := aggregation, "stepInterval" := stepInterval,
        "whereClause" := whereClause, "groupBy" := groupBy, "addOns" := addOns,
        "metricName" := metricName, "metricType" := metricType]
  }

  /** What the validation demands of one query: a metrics query names its metric and has an allowed type. */
  predicate MetricsQueryOk(q: JsValue, metricTypes: seq<string>) {
    var r := AsRecord(q);
    r.None? || Get(r.value, "dataSource") != JStr("metrics") ||
    (Get(r.value, "metricName").JStr? && !IsBlank(Get(r.value, "metricName").s) &&
     IsMetricType(Get(r.value, "metricType"), metricTypes))
  }

  /** `validateMetricsQueries`: the scan stops at the first metrics query that fails. */
  function ValidateMetricsQueries(queries: seq<JsValue>, metricTypes: seq<string>): (r: Option<string>)
    ensures r.None? || r == Some(METRICS_MESSAGE)
  {
    if queries == [] then None
    else
      var q := AsRecord(queries[0]);
      if q.None? || Get(q.value, "dataSource") != JStr("metrics") then ValidateMetricsQueries(queries[1..], metricTypes)
      else
        var metricName := Get(q.value, "metricName");
        if !metricName.JStr? || IsBlank(metricName.s) then Some(METRICS_MESSAGE)
        else if !IsMetricType(Get(q.value, "metricType"), metricTypes) then Some(METRICS_MESSAGE)
        else ValidateMetricsQueries(queries[1..], metricTypes)
  }

  /** The queries to check: an array is taken as it is, otherwise the legacy query if there is one. */
  function NormalizedQueries(params: Record, queryBase: string -> Record, metricTypes: seq<string>,
                             formatWhere: Record -> string): Option<seq<JsValue>> {
    var queriesInput := Get(params, "queries");
    if queriesInput.JArr? then Some(queriesInput.items)
    else
      var legacy := ToLegacyQuery(params, queryBase, metricTypes, formatWhere);
      if legacy.Some? then Some([JObj(legacy.value)]) else None
  }

  /** The params of a proposal that passes: the queries, and defaults for formulas, comparison and debug. */
  function CompletedParams(params: Record, queries: seq<JsValue>): Record {
    var formulas := Get(params, "formulas");
    var comparison := Get(params, "comparison");
    params + CompletedFields(JArr(queries), if formulas.JArr? then formulas else JArr([]),
                             if comparison.JObj? then comparison else DEFAULT_COMPARISON,
                             JBool(Get(params, "debug") == JBool(true)))
  }

  /** The properties a passing proposal's params get. */
  function CompletedFields(queries: JsValue, formulas: JsValue, comparison: JsValue, debug: JsValue): (m: Record)
    ensures m.Keys == {"queries", "formulas", "comparison", "debug"}
    ensures "queries" in m && m["queries"] == queries
    ensures "formulas" in m && m["formulas"] == formulas
    ensures "comparison" in m && m["comparison"] == comparison
    ensures "debug" in m && m["debug"] == debug
  {
    assert |"queries"| == 7 && |"formulas"| == 8 && |"comparison"| == 10 && |"debug"| == 5;
    map["queries" := queries, "formulas" := formulas, "comparison" := comparison, "debug" := debug]
  }

  function ParamsOf(input: Proposal): Record {
    var p := AsRecord(Get(input.dataSource, "params"));
    if p.Some? then p.value else map[]
  }

  predicate TargetsQueryBuilder(input: Proposal) {
    Get(input.dataSource, "endpoint") == JStr(QUERY_BUILDER_ENDPOINT)
  }

  /** `normalizeAiWidgetProposal`. */
  function NormalizeAiWidgetProposal(input: Proposal, queryBase: string -> Record, metricTypes: seq<string>,
                                     formatWhere: Record -> string): (r: NormalizeResult)
    ensures r.Blocked? ==> r.proposal == input && (r.reason == MISSING_QUERIES_MESSAGE || r.reason == METRICS_MESSAGE)
    ensures r.Valid? ==> r.proposal.visualization == input.visualization && r.proposal.display == input.display
  {
    if !TargetsQueryBuilder(input) then Valid(input)
    else
      var params := ParamsOf(input);
      var normalized := NormalizedQueries(params, queryBase, metricTypes, formatWhere);
      if normalized.None? || |normalized.value| == 0 then Blocked(MISSING_QUERIES_MESSAGE, input)
      else
        var failure := ValidateMetricsQueries(normalized.value, metricTypes);
        if failure.Some? then Blocked(failure.value, input)
        else
          var ds := input.dataSource["params" := JObj(CompletedParams(params, normalized.value))];
          Valid(input.(dataSource := ds))
  }

  // ---------------------------------------------------------------------
  // Properties
  // ---------------------------------------------------------------------

  /** The scan finds nothing exactly when every query meets the metrics demand. */
  lemma {:induction false} ValidateIff(queries: seq<JsValue>, metricTypes: seq<string>)
    ensures ValidateMetricsQueries(queries, metricTypes).None? <==> forall i :: 0 <= i < |queries| ==> MetricsQueryOk(queries[i], metricTypes)
  {
    if queries != [] {
      ValidateIff(queries[1..], metricTypes);
      assert forall i :: 1 <= i < |queries| ==> queries[i] == queries[1..][i - 1];
    }
  }

  /** A proposal for any other endpoint is valid and untouched. */
  lemma OtherEndpointPassesThrough(input: Proposal, queryBase: string -> Record, metricTypes: seq<string>,
                                   formatWhere: Record -> string)
    requires !TargetsQueryBuilder(input)
    ensures NormalizeAiWidgetProposal(input, queryBase, metricTypes, formatWhere) == Valid(input)
  {
  }

  /** An array of queries is used as it is; otherwise a known legacy source gives exactly one query. */
  lemma QueriesSource(params: Record, queryBase: string -> Record, metricTypes: seq<string>, formatWhere: Record -> string)
    ensures Get(params, "queries").JArr? ==>
              NormalizedQueries(params, queryBase, metricTypes, formatWhere) == Some(Get(params, "queries").items)
    ensures !Get(params, "queries").JArr? ==>
              (NormalizedQueries(params, queryBase, metricTypes, formatWhere).Some? <==> IsQueryBuilderDataSource(Get(params, "source")))
    ensures !Get(params, "queries").JArr? && IsQueryBuilderDataSource(Get(params, "source")) ==>
              |NormalizedQueries(params, queryBase, metricTypes, formatWhere).value| == 1
  {
  }

  lemma MessagesDiffer()
    ensures MISSING_QUERIES_MESSAGE != METRICS_MESSAGE
  {
    assert |MISSING_QUERIES_MESSAGE| == 52 && |METRICS_MESSAGE| == 48;
  }

  /**
   * On the query-builder endpoint the proposal is blocked for missing queries
   * exactly when there is neither a non-empty array nor a legacy query.
   */
  lemma MissingQueriesBlocked(input: Proposal, queryBase: string -> Record, metricTypes: seq<string>,
                              formatWhere: Record -> string)
    requires TargetsQueryBuilder(input)
    ensures var n := NormalizedQueries(ParamsOf(input), queryBase, metricTypes, formatWhere);
            NormalizeAiWidgetProposal(input, queryBase, metricTypes, formatWhere) == Blocked(MISSING_QUERIES_MESSAGE, input)
            <==> n.None? || n.value == []
  {
    MessagesDiffer();
  }

  /**
   * With queries to check, the proposal is blocked for metrics exactly when
   * some query fails the metrics demand.
   */
  lemma MetricsBlocked(input: Proposal, queryBase: string -> Record, metricTypes: seq<string>,
                       formatWhere: Record -> string, queries: seq<JsValue>)
    requires TargetsQueryBuilder(input)
    requires NormalizedQueries(ParamsOf(input), queryBase, metricTypes, formatWhere) == Some(queries) && queries != []
    ensures NormalizeAiWidgetProposal(input, queryBase, metricTypes, formatWhere) == Blocked(METRICS_MESSAGE, input)
            <==> exists i :: 0 <= i < |queries| && !MetricsQueryOk(queries[i], metricTypes)
  {
    ValidateIff(queries, metricTypes);
  }

  /**
   * A proposal that passes keeps everything but its params; the params keep
   * every other property and get the queries, an array of formulas, an
   * object as comparison and a boolean debug that is true only for `true`.
   */
  lemma ValidOutput(input: Proposal, queryBase: string -> Record, metricTypes: seq<string>,
                    formatWhere: Record -> string, queries: seq<JsValue>)
    requires TargetsQueryBuilder(input)
    requires NormalizedQueries(ParamsOf(input), queryBase, metricTypes, formatWhere) == Some(queries) && queries != []
    requires forall i :: 0 <= i < |queries| ==> MetricsQueryOk(queries[i], metricTypes)
    ensures var r := NormalizeAiWidgetProposal(input, queryBase, metricTypes, formatWhere);
            var params := ParamsOf(input);
            var out := CompletedParams(params, queries);
            r == Valid(input.(dataSource := input.dataSource["params" := JObj(out)])) &&
            out["queries"] == JArr(queries) &&
            out["formulas"].JArr? && out["comparison"].JObj? &&
            out["debug"] == JBool(Get(params, "debug") == JBool(true)) &&
            (Get(params, "formulas").JArr? ==> out["formulas"] == Get(params, "formulas")) &&
            (Get(params, "comparison").JObj? ==> out["comparison"] == Get(params, "comparison")) &&
            (forall k :: k in params && k != "queries" && k != "formulas" && k != "comparison" && k != "debug" ==>
                           k in out && out[k] == params[k])
  {
    AllValidPasses(input, queryBase, metricTypes, formatWhere, queries);
  }

  /** Non-empty normalized queries that all meet the metrics demand let the proposal through, completed. */
  lemma AllValidPasses(input: Proposal, queryBase: string -> Record, metricTypes: seq<string>,
                       formatWhere: Record -> string, queries: seq<JsValue>)
    requires TargetsQueryBuilder(input)
    requires NormalizedQueries(ParamsOf(input), queryBase, metricTypes, formatWhere) == Some(queries) && queries != []
    requires forall i :: 0 <= i < |queries| ==> MetricsQueryOk(queries[i], metricTypes)
    ensures NormalizeAiWidgetProposal(input, queryBase, metricTypes, formatWhere) ==
            Valid(input.(dataSource := input.dataSource["params" := JObj(CompletedParams(ParamsOf(input), queries))]))
  {
    ValidateIff(queries, metricTypes);
  }

  /** Anything that is not a non-blank string groups by service; other non-blank strings outside the table pass through. */
  lemma GroupByTokenFallback(v: JsValue)
    ensures !v.JStr? ==> ToQueryGroupByToken(v) == "service.name"
    ensures v.JStr? && IsBlank(v.s) ==> ToQueryGroupByToken(v) == "service.name"
    ensures v.JStr? && !IsBlank(v.s) && v.s !in ["service", "span_name", "status_code", "http_method"] ==>
              ToQueryGroupByToken(v) == v.s
  {
  }

  /** The group-by table: the short names map to attribute names and "none" stays. */
  lemma GroupByTokenTable()
    ensures ToQueryGroupByToken(JStr("service")) == "service.name"
    ensures ToQueryGroupByToken(JStr("span_name")) == "span.name"
    ensures ToQueryGroupByToken(JStr("status_code")) == "status.code"
    ensures ToQueryGroupByToken(JStr("http_method")) == "http.method"
    ensures ToQueryGroupByToken(JStr("none")) == "none"
  {
    GroupByTokenOf("service", "service.name");
    GroupByTokenOf("span_name", "span.name");
    GroupByTokenOf("status_code", "status.code");
    GroupByTokenOf("http_method", "http.method");
    GroupByTokenOf("none", "none");
  }

  /** One row of the table, checked on its own. */
  lemma GroupByTokenOf(t: string, r: string)
    requires (t, r) in [("service", "service.name"), ("span_name", "span.name"), ("status_code", "status.code"),
                        ("http_method", "http.method"), ("none", "none")]
    ensures ToQueryGroupByToken(JStr(t)) == r
  {
    NonBlankIfFirstIsNot(t);
    assert |"service"| == 7 && |"span_name"| == 9 && |"status_code"| == 11 && |"http_method"| == 11 && |"none"| == 4;
    assert "status_code"[0] != "http_method"[0];
  }

  lemma NonBlankIfFirstIsNot(s: string)
    requires s != [] && !IsWs(s[0])
    ensures !IsBlank(s)
  {
    TrimEmptyIff(s);
  }

  /**
   * The legacy query is the source's draft with the configured fields over
   * it. The source is written as the query's data source; the step is
   * `String(bucketSeconds)` for a positive finite number and the draft's
   * otherwise.
   */
  lemma LegacySourceAndStep(params: Record, queryBase: string -> Record, metricTypes: seq<string>,
                            formatWhere: Record -> string)
    requires IsQueryBuilderDataSource(Get(params, "source"))
    ensures var source := Get(params, "source");
            var q := ToLegacyQuery(params, queryBase, metricTypes, formatWhere).value;
            var bucket := Get(params, "bucketSeconds");
            Get(q, "dataSource") == source &&
            (IsPositiveFinite(bucket) ==> Get(q, "stepInterval") == JStr(NumberToString(bucket.n.value))) &&
            (!IsPositiveFinite(bucket) ==> Get(q, "stepInterval") == Get(queryBase(source.s), "stepInterval"))
  {
  }

  /**
   * The aggregation is the configured metric when it is a non-blank string;
   * the metric name comes from the filters only for the metrics source; the
   * type from the filters only when it is allowed.
   */
  lemma LegacyMetricFields(params: Record, queryBase: string -> Record, metricTypes: seq<string>,
                           formatWhere: Record -> string)
    requires IsQueryBuilderDataSource(Get(params, "source"))
    ensures var source := Get(params, "source");
            var base := queryBase(source.s);
            var q := ToLegacyQuery(params, queryBase, metricTypes, formatWhere).value;
            var filters := AsRecord(Get(params, "filters"));
            var metric := Get(params, "metric");
            (metric.JStr? && !IsBlank(metric.s) ==> Get(q, "aggregation") == metric) &&
            (!(metric.JStr? && !IsBlank(metric.s)) ==> Get(q, "aggregation") == Get(base, "aggregation")) &&
            (source != JStr("metrics") ==> Get(q, "metricName") == Get(base, "metricName")) &&
            (source == JStr("metrics") && Field(filters, "metricName").JStr? ==> Get(q, "metricName") == Field(filters, "metricName")) &&
            Get(q, "metricType") == ToMetricType(Field(filters, "metricType"), Get(base, "metricType"), metricTypes)
  {
  }

  /** The group-by token is written, and the group-by add-on is on unless the token is "none". */
  lemma LegacyGroupBy(params: Record, queryBase: string -> Record, metricTypes: seq<string>,
                      formatWhere: Record -> string)
    requires IsQueryBuilderDataSource(Get(params, "source"))
    ensures var base := queryBase(Get(params, "source").s);
            var q := ToLegacyQuery(params, queryBase, metricTypes, formatWhere).value;
            var groupBy := ToQueryGroupByToken(Get(params, "groupBy"));
            Get(q, "groupBy") == JStr(groupBy) &&
            Get(q, "addOns") == JObj(Spread(Get(base, "addOns"))["groupBy" := JBool(groupBy != "none")])
  {
  }

  /** Every other property of the draft is kept. */
  lemma LegacyKeepsDraft(params: Record, queryBase: string -> Record, metricTypes: seq<string>,
                         formatWhere: Record -> string, k: string)
    requires IsQueryBuilderDataSource(Get(params, "source"))
    requires k in queryBase(Get(params, "source").s)
    requires k !in ["dataSource", "aggregation", "stepInterval", "whereClause", "groupBy", "addOns", "metricName", "metricType"]
    ensures var q := ToLegacyQuery(params, queryBase, metricTypes, formatWhere).value;
            k in q && q[k] == queryBase(Get(params, "source").s)[k]
  {
  }

  /** `String(300)` is "300", the step the legacy example expects for a five-minute bucket. */
  lemma FiveMinuteStep()
    ensures NumberToString(Dec(300, 0)) == "300"
  {
    NatDigitsOf300();
  }

  lemma NatDigitsOf300()
    ensures NatDigits(300) == "300"
  {
    assert NatDigits(3) == "3";
    assert NatDigits(30) == "30";
  }

  /** A flat metrics configuration with a non-blank metric and metric name, an allowed type and a positive bucket. */
  predicate FlatMetricsConfig(params: Record, metricTypes: seq<string>, metric: string, name: string, typ: string, bucket: Decimal) {
    !Get(params, "queries").JArr? && Get(params, "source") == JStr("metrics") &&
    Get(params, "metric") == JStr(metric) && !IsBlank(metric) &&
    Get(params, "filters").JObj? &&
    Get(Get(params, "filters").fields, "metricName") == JStr(name) && !IsBlank(name) &&
    Get(Get(params, "filters").fields, "metricType") == JStr(typ) && typ in metricTypes &&
    Get(params, "bucketSeconds") == JNum(Finite(bucket)) && bucket.mantissa > 0
  }

  /** The query such a configuration becomes carries its values and meets the metrics demand. */
  lemma FlatMetricsQuery(params: Record, queryBase: string -> Record, metricTypes: seq<string>,
                         formatWhere: Record -> string, metric: string, name: string, typ: string, bucket: Decimal)
    requires FlatMetricsConfig(params, metricTypes, metric, name, typ, bucket)
    ensures var n := NormalizedQueries(params, queryBase, metricTypes, formatWhere);
            n.Some? && |n.value| == 1 && n.value[0].JObj? &&
            var q := n.value[0].fields;
            n.value[0] == JObj(ToLegacyQuery(params, queryBase, metricTypes, formatWhere).value) &&
            MetricsQueryOk(n.value[0], metricTypes) &&
            Get(q, "dataSource") == JStr("metrics") && Get(q, "aggregation") == JStr(metric) &&
            Get(q, "metricName") == JStr(name) && Get(q, "metricType") == JStr(typ) &&
            Get(q, "stepInterval") == JStr(NumberToString(bucket))
  {
    LegacySourceAndStep(params, queryBase, metricTypes, formatWhere);
    LegacyMetricFields(params, queryBase, metricTypes, formatWhere);
  }

  /**
   * The legacy example: a flat metrics configuration with a non-blank metric,
   * a non-blank metric name, an allowed type and a positive bucket passes,
   * with a single query holding those values.
   */
  lemma LegacyMetricsPasses(input: Proposal, queryBase: string -> Record, metricTypes: seq<string>,
                            formatWhere: Record -> string, metric: string, name: string, typ: string, bucket: Decimal)
    requires TargetsQueryBuilder(input)
    requires FlatMetricsConfig(ParamsOf(input), metricTypes, metric, name, typ, bucket)
    ensures var params := ParamsOf(input);
            var q := ToLegacyQuery(params, queryBase, metricTypes, formatWhere).value;
            NormalizeAiWidgetProposal(input, queryBase, metricTypes, formatWhere) ==
              Valid(input.(dataSource := input.dataSource["params" := JObj(CompletedParams(params, [JObj(q)]))])) &&
            Get(q, "dataSource") == JStr("metrics") && Get(q, "aggregation") == JStr(metric) &&
            Get(q, "metricName") == JStr(name) && Get(q, "metricType") == JStr(typ) &&
            Get(q, "stepInterval") == JStr(NumberToString(bucket))
  {
    var params := ParamsOf(input);
    FlatMetricsQuery(params, queryBase, metricTypes, formatWhere, metric, name, typ, bucket);
    var queries := NormalizedQueries(params, queryBase, metricTypes, formatWhere).value;
    AllValidPasses(input, queryBase, metricTypes, formatWhere, queries);
  }

  /** The blocking example: a metrics query whose metric name is empty blocks the proposal. */
  lemma EmptyMetricNameBlocks(input: Proposal, queryBase: string -> Record, metricTypes: seq<string>,
                              formatWhere: Record -> string, query: Record)
    requires TargetsQueryBuilder(input)
    requires Get(ParamsOf(input), "queries") == JArr([JObj(query)])
    requires Get(query, "dataSource") == JStr("metrics") && Get(query, "metricName") == JStr("")
    ensures NormalizeAiWidgetProposal(input, queryBase, metricTypes, formatWhere) == Blocked(METRICS_MESSAGE, input)
  {
    assert IsBlank("");
  }
}
