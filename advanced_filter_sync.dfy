/**
 * Synchronising the traces page's search parameters with its advanced
 * where-clause: parsing `key = value AND ...` into structured filters,
 * printing filters back as a where-clause, normalising a search so that the
 * where-clause and the structured fields agree, and comparing two searches.
 */
module AdvancedFilterSync {
  import opened Wrappers
  import opened JsText
  import opened FilterNumbers
  import opened AdvancedFilterText

  // ---------------------------------------------------------------------
  // Data
  // ---------------------------------------------------------------------

  /** The traces search parameters; every field is optional. */
  datatype TracesSearch = TracesSearch(
    services: Option<seq<string>>,
    spanNames: Option<seq<string>>,
    hasError: Option<bool>,
    minDurationMs: Option<JsNumber>,
    maxDurationMs: Option<JsNumber>,
    httpMethods: Option<seq<string>>,
    httpStatusCodes: Option<seq<string>>,
    deploymentEnvs: Option<seq<string>>,
    startTime: Option<string>,
    endTime: Option<string>,
    rootOnly: Option<bool>,
    whereClause: Option<string>,
    attributeKey: Option<string>,
    attributeValue: Option<string>)

  const EmptySearch: TracesSearch :=
    TracesSearch(None, None, None, None, None, None, None, None, None, None, None, None, None, None)

  /**
   * The filters a where-clause can express. `hasError` can only be `true` and
   * `rootOnly` only `false`, so each is a flag; a number is always finite.
   */
  datatype Filters = Filters(
    service: Option<string>,
    spanName: Option<string>,
    deploymentEnv: Option<string>,
    httpMethod: Option<string>,
    httpStatusCode: Option<string>,
    hasError: bool,
    rootOnlyFalse: bool,
    minDurationMs: Option<Decimal>,
    maxDurationMs: Option<Decimal>,
    attributeKey: Option<string>,
    attributeValue: Option<string>)

  const NoFilters: Filters := Filters(None, None, None, None, None, false, false, None, None, None, None)

  /** A JavaScript truthy string: present and not empty. */
  predicate Truthy(o: Option<string>) {
    o.Some? && o.value != []
  }

  /** `hasAnyFilter`: some field of the filters is set. */
  predicate HasAnyFilter(f: Filters) {
    f.service.Some? || f.spanName.Some? || f.deploymentEnv.Some? || f.httpMethod.Some? ||
    f.httpStatusCode.Some? || f.hasError || f.rootOnlyFalse || f.minDurationMs.Some? ||
    f.maxDurationMs.Some? || f.attributeKey.Some? || f.attributeValue.Some?
  }

  const TRUE_VALUES: set<string> := {"1", "true", "yes", "y"}
  const FALSE_VALUES: set<string> := {"0", "false", "no", "n"}

  // ---------------------------------------------------------------------
  // Small parsers
  // ---------------------------------------------------------------------

  /** `firstNonEmpty`: the first element, trimmed, when the list has one and it is not blank. */
  function FirstNonEmpty(values: Option<seq<string>>): (r: Option<string>)
    ensures r.Some? <==> values.Some? && |values.value| > 0 && !AllWs(values.value[0])
    ensures r.Some? ==> r.value == Trim(values.value[0]) && r.value != [] && IsTrimmed(r.value)
  {
    if values.None? || |values.value| == 0 then None
    else
      TrimEmptyIff(values.value[0]);
      TrimIsTrimmed(values.value[0]);
      var first := Trim(values.value[0]);
      if first == [] then None else Some(first)
  }

  /** `parseBoolean`: the trimmed, lower-cased text in one of the two word lists; `None` for anything else. */
  function ParseBoolean(value: string): (r: Option<bool>)
    ensures r == Some(true) <==> Lower(Trim(value)) in TRUE_VALUES
    ensures r == Some(false) <==> Lower(Trim(value)) in FALSE_VALUES
  {
    var normalized := Lower(Trim(value));
    if normalized in TRUE_VALUES then Some(true)
    else if normalized in FALSE_VALUES then Some(false)
    else None
  }

  /** The words the printer writes read back as the booleans they stand for. */
  lemma BooleanWords()
    ensures ParseBoolean("true") == Some(true) && ParseBoolean("false") == Some(false)
  {
    TrimmedIsFixed("true");
    TrimmedIsFixed("false");
    LowerOfLower("true");
    LowerOfLower("false");
  }

  // ---------------------------------------------------------------------
  // Parsing a where-clause
  // ---------------------------------------------------------------------

  /** The filters collected so far, and whether some clause could not be understood. */
  datatype ParseState = ParseState(filters: Filters, incomplete: bool)

  const Start: ParseState := ParseState(NoFilters, false)

  /** The dispatch on a clause's lower-cased key, for a value that is already trimmed. */
  function ApplyKeyValue(st: ParseState, rawKey: string, rawValue: string): ParseState {
    var f := st.filters;
    if rawKey == [] || rawValue == [] then st
    else if rawKey == "service" || rawKey == "service.name" then st.(filters := f.(service := Some(rawValue)))
    else if rawKey == "span" || rawKey == "span.name" then st.(filters := f.(spanName := Some(rawValue)))
    else if rawKey == "deployment.environment" || rawKey == "environment" || rawKey == "env" then
      st.(filters := f.(deploymentEnv := Some(rawValue)))
    else if rawKey == "http.method" then st.(filters := f.(httpMethod := Some(rawValue)))
    else if rawKey == "http.status_code" then st.(filters := f.(httpStatusCode := Some(rawValue)))
    else if rawKey == "has_error" then
      match ParseBoolean(rawValue)
      case None => st.(incomplete := true)
      case Some(b) => st.(filters := f.(hasError := b))
    else if rawKey == "root_only" || rawKey == "root.only" then
      match ParseBoolean(rawValue)
      case None => st.(incomplete := true)
      case Some(b) => st.(filters := f.(rootOnlyFalse := !b))
    else if rawKey == "min_duration_ms" then
      match ParseNumber(rawValue)
      case None => st.(incomplete := true)
      case Some(n) => st.(filters := f.(minDurationMs := Some(n)))
    else if rawKey == "max_duration_ms" then
      match ParseNumber(rawValue)
      case None => st.(incomplete := true)
      case Some(n) => st.(filters := f.(maxDurationMs := Some(n)))
    else if StartsWith(rawKey, "attr.") then
      var attributeKey := Trim(rawKey[5..]);
      if attributeKey == [] || Truthy(f.attributeKey) then st
      else st.(filters := f.(attributeKey := Some(attributeKey), attributeValue := Some(rawValue)))
    else st
  }

  /** One part of the where-clause: a part that does not match, or an unquoted token opening a quote, is incomplete. */
  function ApplyPart(st: ParseState, part: string): ParseState {
    match MatchClause(part)
    case NoMatch => st.(incomplete := true)
    case KeyValue(key, value, bare) =>
      if bare && |value| > 0 && (value[0] == '"' || value[0] == '\'') then st.(incomplete := true)
      else ApplyKeyValue(st, Lower(Trim(key)), Trim(value))
  }

  /** The parts applied in order. */
  function FoldParts(st: ParseState, parts: seq<string>): ParseState {
    if parts == [] then st else ApplyPart(FoldParts(st, parts[..|parts| - 1]), parts[|parts| - 1])
  }

  /** The parts of a non-blank where-clause: split on `AND`, trimmed, empty parts dropped. */
  function WhereParts(whereClause: string): (r: seq<string>)
    ensures forall i :: 0 <= i < |r| ==> r[i] != [] && IsTrimmed(r[i])
  {
    CleanParts(SplitAnd(Trim(whereClause)))
  }

  /** `parseWhereClause`: a missing or blank clause gives no filters and nothing incomplete. */
  function ParseWhereClause(whereClause: Option<string>): ParseState {
    if whereClause.None? || Trim(whereClause.value) == [] then Start
    else FoldParts(Start, WhereParts(whereClause.value))
  }

  /** The loop of `parseWhereClause`: each part is applied in turn. */
  method ParseWhereClauseLoop(whereClause: Option<string>) returns (filters: Filters, hasIncompleteClauses: bool)
    ensures ParseState(filters, hasIncompleteClauses) == ParseWhereClause(whereClause)
  {
    filters, hasIncompleteClauses := NoFilters, false;
    if whereClause.None? || Trim(whereClause.value) == [] {
      return;
    }
    var parts := WhereParts(whereClause.value);
    for i := 0 to |parts|
      invariant ParseState(filters, hasIncompleteClauses) == FoldParts(Start, parts[..i])
    {
      assert parts[..i + 1][..i] == parts[..i];
      filters, hasIncompleteClauses := ParsePart(filters, hasIncompleteClauses, parts[i]);
    }
    assert parts[..|parts|] == parts;
  }

  /** The body of the loop for one part, up to the key dispatch. */
  method ParsePart(filters: Filters, hasIncompleteClauses: bool, part: string)
    returns (filters': Filters, hasIncompleteClauses': bool)
    ensures ParseState(filters', hasIncompleteClauses') == ApplyPart(ParseState(filters, hasIncompleteClauses), part)
  {
    var m := MatchClause(part);
    if m.NoMatch? {
      return filters, true;
    }
    if m.bare && |m.value| > 0 && (m.value[0] == '"' || m.value[0] == '\'') {
      return filters, true;
    }
    var rawKey := Lower(Trim(m.key));
    var rawValue := Trim(m.value);
    filters', hasIncompleteClauses' := ParseKeyValue(filters, hasIncompleteClauses, rawKey, rawValue);
  }

  /** The key dispatch of the loop body, with an early exit where the source continues. */
  method ParseKeyValue(filters: Filters, hasIncompleteClauses: bool, rawKey: string, rawValue: string)
    returns (parsed: Filters, incomplete: bool)
    ensures ParseState(parsed, incomplete) == ApplyKeyValue(ParseState(filters, hasIncompleteClauses), rawKey, rawValue)
  {
    parsed, incomplete := filters, hasIncompleteClauses;
    if rawKey == [] || rawValue == [] {
      return;
    }
    if rawKey == "service" || rawKey == "service.name" {
      parsed := parsed.(service := Some(rawValue));
      return;
    }
    if rawKey == "span" || rawKey == "span.name" {
      parsed := parsed.(spanName := Some(rawValue));
      return;
    }
    if rawKey == "deployment.environment" || rawKey == "environment" || rawKey == "env" {
      parsed := parsed.(deploymentEnv := Some(rawValue));
      return;
    }
    if rawKey == "http.method" {
      parsed := parsed.(httpMethod := Some(rawValue));
      return;
    }
    if rawKey == "http.status_code" {
      parsed := parsed.(httpStatusCode := Some(rawValue));
      return;
    }
    if rawKey == "has_error" {
      var boolValue := ParseBoolean(rawValue);
      if boolValue.None? {
        incomplete := true;
      } else {
        parsed := parsed.(hasError := boolValue.value);
      }
      return;
    }
    if rawKey == "root_only" || rawKey == "root.only" {
      var boolValue := ParseBoolean(rawValue);
      if boolValue.None? {
        incomplete := true;
      } else {
        parsed := parsed.(rootOnlyFalse := !boolValue.value);
      }
      return;
    }
    if rawKey == "min_duration_ms" {
      var numeric := ParseNumber(rawValue);
      if numeric.None? {
        incomplete := true;
      } else {
        parsed := parsed.(minDurationMs := numeric);
      }
      return;
    }
    if rawKey == "max_duration_ms" {
      var numeric := ParseNumber(rawValue);
      if numeric.None? {
        incomplete := true;
      } else {
        parsed := parsed.(maxDurationMs := numeric);
      }
      return;
    }
    if StartsWith(rawKey, "attr.") {
      var attributeKey := Trim(rawKey[5..]);
      if attributeKey == [] || Truthy(parsed.attributeKey) {
        return;
      }
      parsed := parsed.(attributeKey := Some(attributeKey), attributeValue := Some(rawValue));
    }
  }

  // ---------------------------------------------------------------------
  // Printing filters as a where-clause
  // ---------------------------------------------------------------------

  /** One printed clause, `key = rhs`. */
  function Clause(key: string, rhs: string): string {
    key + " = " + rhs
  }

  /**
   * The clause for the `k`-th field in printing order, or none when that field
   * is not set; string values go through `quote`.
   */
  function ClauseAt(f: Filters, quote: string -> string, k: nat): seq<string> {
    if k == 0 then (if Truthy(f.service) then [Clause("service.name", quote(f.service.value))] else [])
    else if k == 1 then (if Truthy(f.spanName) then [Clause("span.name", quote(f.spanName.value))] else [])
    else if k == 2 then
      (if Truthy(f.deploymentEnv) then [Clause("deployment.environment", quote(f.deploymentEnv.value))] else [])
    else if k == 3 then (if Truthy(f.httpMethod) then [Clause("http.method", quote(f.httpMethod.value))] else [])
    else if k == 4 then
      (if Truthy(f.httpStatusCode) then [Clause("http.status_code", quote(f.httpStatusCode.value))] else [])
    else if k == 5 then (if f.hasError then [Clause("has_error", "true")] else [])
    else if k == 6 then (if f.rootOnlyFalse then [Clause("root_only", "false")] else [])
    else if k == 7 then
      (if f.minDurationMs.Some? then [Clause("min_duration_ms", NumberToString(f.minDurationMs.value))] else [])
    else if k == 8 then
      (if f.maxDurationMs.Some? then [Clause("max_duration_ms", NumberToString(f.maxDurationMs.value))] else [])
    else if k == 9 then
      (if Truthy(f.attributeKey) && Truthy(f.attributeValue)
       then [Clause("attr." + f.attributeKey.value, quote(f.attributeValue.value))] else [])
    else []
  }

  /** The number of fields `toWhereClause` looks at. */
  const FIELD_COUNT: nat := 10

  /** The clauses of the first `k` fields, in printing order. */
  function ClausesUpTo(f: Filters, quote: string -> string, k: nat): seq<string> {
    if k == 0 then [] else ClausesUpTo(f, quote, k - 1) + ClauseAt(f, quote, k - 1)
  }

  /** The clauses joined with ` AND `; no clause at all gives no where-clause. */
  function ToWhereClauseWith(f: Filters, quote: string -> string): Option<string> {
    JoinClauses(ClausesUpTo(f, quote, FIELD_COUNT))
  }

  /** `toWhereClause`, with the source's `quoteValue`. */
  function ToWhereClause(f: Filters): Option<string> {
    ToWhereClauseWith(f, QuoteValue)
  }

  /** `toWhereClause` as the source writes it: one push per set field, then the join. */
  method BuildWhereClause(f: Filters) returns (whereClause: Option<string>)
    ensures whereClause == ToWhereClause(f)
  {
    var clauses := PushValueClauses(f);
    clauses := PushFlagClauses(f, clauses);
    clauses := PushDurationClauses(f, clauses);
    if Truthy(f.attributeKey) && Truthy(f.attributeValue) {
      clauses := clauses + [Clause("attr." + f.attributeKey.value, QuoteValue(f.attributeValue.value))];
    }
    assert clauses == ClausesUpTo(f, QuoteValue, FIELD_COUNT);
    whereClause := JoinClauses(clauses);
  }

  /** The pushes of the two flags, `has_error` and `root_only`. */
  method PushFlagClauses(f: Filters, clauses0: seq<string>) returns (clauses: seq<string>)
    requires clauses0 == ClausesUpTo(f, QuoteValue, 5)
    ensures clauses == ClausesUpTo(f, QuoteValue, 7)
  {
    clauses := clauses0;
    if f.hasError {
      clauses := clauses + [Clause("has_error", "true")];
    }
    assert clauses == ClausesUpTo(f, QuoteValue, 6);
    if f.rootOnlyFalse {
      clauses := clauses + [Clause("root_only", "false")];
    }
  }

  /** The pushes of the two duration bounds, printed with `String`. */
  method PushDurationClauses(f: Filters, clauses0: seq<string>) returns (clauses: seq<string>)
    requires clauses0 == ClausesUpTo(f, QuoteValue, 7)
    ensures clauses == ClausesUpTo(f, QuoteValue, 9)
  {
    clauses := clauses0;
    if f.minDurationMs.Some? {
      clauses := clauses + [Clause("min_duration_ms", NumberToString(f.minDurationMs.value))];
    }
    assert clauses == ClausesUpTo(f, QuoteValue, 8);
    if f.maxDurationMs.Some? {
      clauses := clauses + [Clause("max_duration_ms", NumberToString(f.maxDurationMs.value))];
    }
  }

  /** The first five pushes of `toWhereClause`: the quoted string fields. */
  method PushValueClauses(f: Filters) returns (clauses: seq<string>)
    ensures clauses == ClausesUpTo(f, QuoteValue, 5)
  {
    clauses := [];
    if Truthy(f.service) {
      clauses := clauses + [Clause("service.name", QuoteValue(f.service.value))];
    }
    assert clauses == ClausesUpTo(f, QuoteValue, 1);
    if Truthy(f.spanName) {
      clauses := clauses + [Clause("span.name", QuoteValue(f.spanName.value))];
    }
    assert clauses == ClausesUpTo(f, QuoteValue, 2);
    if Truthy(f.deploymentEnv) {
      clauses := clauses + [Clause("deployment.environment", QuoteValue(f.deploymentEnv.value))];
    }
    assert clauses == ClausesUpTo(f, QuoteValue, 3);
    if Truthy(f.httpMethod) {
      clauses := clauses + [Clause("http.method", QuoteValue(f.httpMethod.value))];
    }
    assert clauses == ClausesUpTo(f, QuoteValue, 4);
    if Truthy(f.httpStatusCode) {
      clauses := clauses + [Clause("http.status_code", QuoteValue(f.httpStatusCode.value))];
    }
    assert clauses == ClausesUpTo(f, QuoteValue, 5);
  }

  /** The end of `toWhereClause`: no clauses give no where-clause, otherwise they are joined with ` AND `. */
  function JoinClauses(clauses: seq<string>): (r: Option<string>)
    ensures r.None? <==> |clauses| == 0
  {
    if |clauses| == 0 then None else Some(Join(clauses, " AND "))
  }

  /** There is no where-clause exactly when no field would print a clause. */
  lemma {:induction false} NoClausesIff(f: Filters, quote: string -> string)
    ensures ToWhereClauseWith(f, quote).None? <==>
              !Truthy(f.service) && !Truthy(f.spanName) && !Truthy(f.deploymentEnv) && !Truthy(f.httpMethod) &&
              !Truthy(f.httpStatusCode) && !f.hasError && !f.rootOnlyFalse && f.minDurationMs.None? &&
              f.maxDurationMs.None? && !(Truthy(f.attributeKey) && Truthy(f.attributeValue))
  {
    forall k | 0 <= k <= FIELD_COUNT ensures ClausesUpTo(f, quote, k) == [] <==> forall j :: 0 <= j < k ==> ClauseAt(f, quote, j) == [] {
      NoClausesUpTo(f, quote, k);
    }
    assert ClausesUpTo(f, quote, FIELD_COUNT) == [] <==> forall j :: 0 <= j < 10 ==> ClauseAt(f, quote, j) == [];
    assert (forall j :: 0 <= j < 10 ==> ClauseAt(f, quote, j) == []) <==>
      ClauseAt(f, quote, 0) == [] && ClauseAt(f, quote, 1) == [] && ClauseAt(f, quote, 2) == [] &&
      ClauseAt(f, quote, 3) == [] && ClauseAt(f, quote, 4) == [] && ClauseAt(f, quote, 5) == [] &&
      ClauseAt(f, quote, 6) == [] && ClauseAt(f, quote, 7) == [] && ClauseAt(f, quote, 8) == [] &&
      ClauseAt(f, quote, 9) == [];
  }

  lemma {:induction false} NoClausesUpTo(f: Filters, quote: string -> string, k: nat)
    ensures ClausesUpTo(f, quote, k) == [] <==> forall j :: 0 <= j < k ==> ClauseAt(f, quote, j) == []
  {
    if k > 0 {
      NoClausesUpTo(f, quote, k - 1);
    }
  }

  // ---------------------------------------------------------------------
  // Printing, then parsing, gives the filters back
  // ---------------------------------------------------------------------

  /** A key the printer writes and the parser reads unchanged: key characters, already lower case. */
  predicate LiteralKey(k: string) {
    |k| > 0 && AllKeyChars(k) && IsLowerAscii(k)
  }

  lemma KeyCharsAreNotWs(k: string)
    requires AllKeyChars(k)
    ensures NoWs(k) && IsTrimmed(k)
  {
  }

  /** A printed right-hand side that keeps its clause safe to join with ` AND `. */
  predicate SafeRhs(r: string) {
    |r| > 0 && !IsWs(r[0]) && LowerChar(r[0]) != 'a' &&
    !IsWs(r[|r| - 1]) && LowerChar(r[|r| - 1]) != 'd' && NoAndWord(r)
  }

  lemma ClauseIsSafe(key: string, r: string)
    requires LiteralKey(key) && SafeRhs(r)
    ensures SafeClause(Clause(key, r))
  {
    KeyCharsAreNotWs(key);
    var eq := " = ";
    assert NoAndWord(eq);
    var x, y := eq[|eq| - 1], r[0];
    assert !InAndWord(x, y);
    NoAndWordConcat(eq, r);
    NoAndWordAfterNoWs(key, eq + r);
    assert key + " = " + r == key + (eq + r);
  }

  /** The quoting function prints `v` as a safe right-hand side that the value pattern reads back as `v`. */
  predicate QuotesBack(quote: string -> string, v: string) {
    SafeRhs(quote(v)) && MatchValue("", quote(v)) == KeyValue("", v, false)
  }

  /** A clause whose right-hand side the value pattern reads as the quoted text `w` applies `w` to the key. */
  lemma QuotedClauseReads(st: ParseState, key: string, r: string, w: string)
    requires LiteralKey(key) && |r| > 0 && !IsWs(r[0]) && MatchValue("", r) == KeyValue("", w, false)
    requires w != [] && IsTrimmed(w)
    ensures ApplyPart(st, Clause(key, r)) == ApplyKeyValue(st, key, w)
  {
    MatchKeyed(key, r);
    assert MatchValue(key, r) == KeyValue(key, w, false);
    KeyCharsAreNotWs(key);
    TrimmedIsFixed(key);
    LowerOfLower(key);
    TrimmedIsFixed(w);
  }

  lemma QuotedClause(st: ParseState, key: string, v: string, quote: string -> string)
    requires LiteralKey(key) && v != [] && IsTrimmed(v) && QuotesBack(quote, v)
    ensures ApplyPart(st, Clause(key, quote(v))) == ApplyKeyValue(st, key, v)
  {
    QuotedClauseReads(st, key, quote(v), v);
  }

  lemma BareClause(st: ParseState, key: string, t: string)
    requires LiteralKey(key) && |t| > 0 && NoWs(t) && t[0] != '"' && t[0] != '\''
    ensures ApplyPart(st, Clause(key, t)) == ApplyKeyValue(st, key, t)
  {
    MatchKeyed(key, t);
    MatchBare(key, t);
    KeyCharsAreNotWs(key);
    TrimmedIsFixed(key);
    LowerOfLower(key);
    TrimmedIsFixed(t);
  }

  /** A string field the printer can carry: absent, or a non-empty trimmed value that quotes back. */
  predicate FieldOk(quote: string -> string, o: Option<string>) {
    o.Some? ==> o.value != [] && IsTrimmed(o.value) && QuotesBack(quote, o.value)
  }

  /** Filters that survive printing with `quote`: every value quotes back, the attribute key is a plain key paired with a value. */
  predicate PrintableWith(f: Filters, quote: string -> string) {
    FieldOk(quote, f.service) && FieldOk(quote, f.spanName) && FieldOk(quote, f.deploymentEnv) &&
    FieldOk(quote, f.httpMethod) && FieldOk(quote, f.httpStatusCode) &&
    (f.attributeKey.Some? <==> f.attributeValue.Some?) &&
    (f.attributeKey.Some? ==> LiteralKey(f.attributeKey.value)) && FieldOk(quote, f.attributeValue)
  }

  /** The filters with only the first `k` fields, in printing order, kept. */
  function Prefix(f: Filters, k: nat): Filters {
    Filters(
      if k > 0 then f.service else None,
      if k > 1 then f.spanName else None,
      if k > 2 then f.deploymentEnv else None,
      if k > 3 then f.httpMethod else None,
      if k > 4 then f.httpStatusCode else None,
      k > 5 && f.hasError,
      k > 6 && f.rootOnlyFalse,
      if k > 7 then f.minDurationMs else None,
      if k > 8 then f.maxDurationMs else None,
      if k > 9 then f.attributeKey else None,
      if k > 9 then f.attributeValue else None)
  }

  lemma FoldOne(st: ParseState, c: string)
    ensures FoldParts(st, [c]) == ApplyPart(st, c)
  {
    assert [c][..0] == [];
  }

  lemma {:induction false} FoldAppend(st: ParseState, a: seq<string>, b: seq<string>)
    ensures FoldParts(st, a + b) == FoldParts(FoldParts(st, a), b)
    decreases |b|
  {
    if b == [] {
      assert a + b == a;
    } else {
      var b' := b[..|b| - 1];
      assert (a + b)[..|a + b| - 1] == a + b';
      FoldAppend(st, a, b');
    }
  }

  lemma AttributeKeyIsLiteral(ak: string)
    requires LiteralKey(ak)
    ensures LiteralKey("attr." + ak) && StartsWith("attr." + ak, "attr.") && ("attr." + ak)[5..] == ak
  {
    var k := "attr." + ak;
    assert k[..5] == "attr.";
    assert k[5..] == ak;
    forall i | 0 <= i < |k| ensures IsKeyChar(k[i]) && !('A' <= k[i] <= 'Z') {
      if i >= 5 {
        assert k[i] == ak[i - 5];
      }
    }
  }

  /** The attribute clause is dispatched to the attribute branch, not to a named key. */
  lemma AttributeDispatch(st: ParseState, ak: string, v: string)
    requires LiteralKey(ak) && v != [] && !Truthy(st.filters.attributeKey)
    ensures ApplyKeyValue(st, "attr." + ak, v) ==
            st.(filters := st.filters.(attributeKey := Some(ak), attributeValue := Some(v)))
  {
    var k := "attr." + ak;
    AttributeKeyIsLiteral(ak);
    KeyCharsAreNotWs(ak);
    TrimmedIsFixed(ak);
    DispatchAttr(st, k, v);
  }

  /** A key starting with `attr.` is none of the named keys. */
  lemma DispatchAttr(st: ParseState, k: string, v: string)
    requires v != [] && StartsWith(k, "attr.")
    ensures ApplyKeyValue(st, k, v) ==
            (var ak := Trim(k[5..]);
             if ak == [] || Truthy(st.filters.attributeKey) then st
             else st.(filters := st.filters.(attributeKey := Some(ak), attributeValue := Some(v))))
  {
    assert k[0] == k[..5][0] == 'a';
    NotNamedKey(k);
  }

  /** A key whose first letter is `a` is none of the named keys. */
  lemma NotNamedKey(k: string)
    requires k != [] && k[0] == 'a'
    ensures k != "service" && k != "service.name" && k != "span" && k != "span.name"
    ensures k != "deployment.environment" && k != "environment" && k != "env"
    ensures k != "http.method" && k != "http.status_code" && k != "has_error"
    ensures k != "root_only" && k != "root.only" && k != "min_duration_ms" && k != "max_duration_ms"
  {
    assert "service"[0] == 's' && "service.name"[0] == 's' && "span"[0] == 's' && "span.name"[0] == 's';
    assert "deployment.environment"[0] == 'd' && "environment"[0] == 'e' && "env"[0] == 'e';
    assert "http.method"[0] == 'h' && "http.status_code"[0] == 'h' && "has_error"[0] == 'h';
    assert "root_only"[0] == 'r' && "root.only"[0] == 'r';
    assert "min_duration_ms"[0] == 'm' && "max_duration_ms"[0] == 'm';
  }

  /** The keys the printer writes are literal keys. */
  lemma NameKeysAreLiteral()
    ensures LiteralKey("service.name") && LiteralKey("span.name") && LiteralKey("deployment.environment")
  {
    ServiceNameIsLiteral();
    SpanNameIsLiteral();
    DeploymentEnvironmentIsLiteral();
  }

  lemma ServiceNameIsLiteral()
    ensures LiteralKey("service.name")
  {
  }

  lemma SpanNameIsLiteral()
    ensures LiteralKey("span.name")
  {
  }

  lemma DeploymentEnvironmentIsLiteral()
    ensures LiteralKey("deployment.environment")
  {
  }

  lemma HttpKeysAreLiteral()
    ensures LiteralKey("http.method") && LiteralKey("http.status_code")
  {
  }

  lemma FlagKeysAreLiteral()
    ensures LiteralKey("has_error") && LiteralKey("root_only")
  {
  }

  lemma NumberKeysAreLiteral()
    ensures LiteralKey("min_duration_ms") && LiteralKey("max_duration_ms")
  {
  }

  lemma {:induction false} ClauseStep(f: Filters, quote: string -> string, k: nat)
    requires PrintableWith(f, quote) && k < FIELD_COUNT
    ensures FoldParts(ParseState(Prefix(f, k), false), ClauseAt(f, quote, k)) == ParseState(Prefix(f, k + 1), false)
  {
    var st := ParseState(Prefix(f, k), false);
    var cs := ClauseAt(f, quote, k);
    if cs == [] {
      assert Prefix(f, k) == Prefix(f, k + 1);
    } else {
      FoldOne(st, cs[0]);
      if k == 0 {
        ValueClauseStep0(f, quote);
      } else if k == 1 {
        ValueClauseStep1(f, quote);
      } else if k == 2 {
        ValueClauseStep2(f, quote);
      } else if k == 3 {
        ValueClauseStep3(f, quote);
      } else if k == 4 {
        ValueClauseStep4(f, quote);
      } else if k == 5 {
        FlagClauseStep5(f);
      } else if k == 6 {
        FlagClauseStep6(f);
      } else if k == 7 {
        NumberClauseStep7(f);
      } else if k == 8 {
        NumberClauseStep8(f);
      } else {
        AttributeClauseStep(f, quote);
      }
    }
  }

  lemma ValueClauseStep0(f: Filters, quote: string -> string)
    requires PrintableWith(f, quote) && Truthy(f.service)
    ensures ApplyPart(ParseState(Prefix(f, 0), false), Clause("service.name", quote(f.service.value))) == ParseState(Prefix(f, 1), false)
  {
    var st := ParseState(Prefix(f, 0), false);
    NameKeysAreLiteral();
    QuotedClause(st, "service.name", f.service.value, quote);
    assert ApplyKeyValue(st, "service.name", f.service.value) == ParseState(Prefix(f, 1), false);
  }

  lemma ValueClauseStep1(f: Filters, quote: string -> string)
    requires PrintableWith(f, quote) && Truthy(f.spanName)
    ensures ApplyPart(ParseState(Prefix(f, 1), false), Clause("span.name", quote(f.spanName.value))) == ParseState(Prefix(f, 2), false)
  {
    var st := ParseState(Prefix(f, 1), false);
    NameKeysAreLiteral();
    QuotedClause(st, "span.name", f.spanName.value, quote);
    assert ApplyKeyValue(st, "span.name", f.spanName.value) == ParseState(Prefix(f, 2), false);
  }

  lemma ValueClauseStep2(f: Filters, quote: string -> string)
    requires PrintableWith(f, quote) && Truthy(f.deploymentEnv)
    ensures ApplyPart(ParseState(Prefix(f, 2), false), Clause("deployment.environment", quote(f.deploymentEnv.value))) == ParseState(Prefix(f, 3), false)
  {
    var st := ParseState(Prefix(f, 2), false);
    NameKeysAreLiteral();
    QuotedClause(st, "deployment.environment", f.deploymentEnv.value, quote);
    DispatchDeploymentEnv(st, f.deploymentEnv.value);
    assert st.filters.(deploymentEnv := f.deploymentEnv) == Prefix(f, 3);
  }

  lemma DispatchDeploymentEnv(st: ParseState, v: string)
    requires v != []
    ensures ApplyKeyValue(st, "deployment.environment", v) == st.(filters := st.filters.(deploymentEnv := Some(v)))
  {
  }

  lemma ValueClauseStep3(f: Filters, quote: string -> string)
    requires PrintableWith(f, quote) && Truthy(f.httpMethod)
    ensures ApplyPart(ParseState(Prefix(f, 3), false), Clause("http.method", quote(f.httpMethod.value))) == ParseState(Prefix(f, 4), false)
  {
    var st := ParseState(Prefix(f, 3), false);
    HttpKeysAreLiteral();
    QuotedClause(st, "http.method", f.httpMethod.value, quote);
    DispatchHttpMethod(st, f.httpMethod.value);
    assert st.filters.(httpMethod := f.httpMethod) == Prefix(f, 4);
  }

  lemma DispatchHttpMethod(st: ParseState, v: string)
    requires v != []
    ensures ApplyKeyValue(st, "http.method", v) == st.(filters := st.filters.(httpMethod := Some(v)))
  {
    assert "http.method"[0] == 'h';
  }

  lemma ValueClauseStep4(f: Filters, quote: string -> string)
    requires PrintableWith(f, quote) && Truthy(f.httpStatusCode)
    ensures ApplyPart(ParseState(Prefix(f, 4), false), Clause("http.status_code", quote(f.httpStatusCode.value))) == ParseState(Prefix(f, 5), false)
  {
    var st := ParseState(Prefix(f, 4), false);
    HttpKeysAreLiteral();
    QuotedClause(st, "http.status_code", f.httpStatusCode.value, quote);
    DispatchStatusCode(st, f.httpStatusCode.value);
  }

  lemma DispatchStatusCode(st: ParseState, v: string)
    requires v != []
    ensures ApplyKeyValue(st, "http.status_code", v) == st.(filters := st.filters.(httpStatusCode := Some(v)))
  {
  }

  lemma DispatchHasError(st: ParseState, t: string)
    requires t != [] && ParseBoolean(t) == Some(true)
    ensures ApplyKeyValue(st, "has_error", t) == st.(filters := st.filters.(hasError := true))
  {
  }

  lemma DispatchRootOnly(st: ParseState, t: string)
    requires t != [] && ParseBoolean(t) == Some(false)
    ensures ApplyKeyValue(st, "root_only", t) == st.(filters := st.filters.(rootOnlyFalse := true))
  {
  }

  lemma DispatchNumbers(st: ParseState, t: string, n: Decimal)
    requires t != [] && ParseNumber(t) == Some(n)
    ensures ApplyKeyValue(st, "min_duration_ms", t) == st.(filters := st.filters.(minDurationMs := Some(n)))
    ensures ApplyKeyValue(st, "max_duration_ms", t) == st.(filters := st.filters.(maxDurationMs := Some(n)))
  {
  }

  lemma FlagClauseStep5(f: Filters)
    requires f.hasError
    ensures ApplyPart(ParseState(Prefix(f, 5), false), Clause("has_error", "true")) == ParseState(Prefix(f, 6), false)
  {
    var st := ParseState(Prefix(f, 5), false);
    FlagKeysAreLiteral();
    BooleanWords();
    BareClause(st, "has_error", "true");
    DispatchHasError(st, "true");
  }

  lemma FlagClauseStep6(f: Filters)
    requires f.rootOnlyFalse
    ensures ApplyPart(ParseState(Prefix(f, 6), false), Clause("root_only", "false")) == ParseState(Prefix(f, 7), false)
  {
    var st := ParseState(Prefix(f, 6), false);
    FlagKeysAreLiteral();
    BooleanWords();
    BareClause(st, "root_only", "false");
    DispatchRootOnly(st, "false");
  }

  lemma NumberClauseStep7(f: Filters)
    requires f.minDurationMs.Some?
    ensures ApplyPart(ParseState(Prefix(f, 7), false), Clause("min_duration_ms", NumberToString(f.minDurationMs.value))) ==
            ParseState(Prefix(f, 8), false)
  {
    var st := ParseState(Prefix(f, 7), false);
    var n := f.minDurationMs.value;
    NumberTextIsTrimmed(n);
    NumberRoundTrip(n);
    NumberKeysAreLiteral();
    BareClause(st, "min_duration_ms", NumberToString(n));
    DispatchNumbers(st, NumberToString(n), n);
  }

  lemma NumberClauseStep8(f: Filters)
    requires f.maxDurationMs.Some?
    ensures ApplyPart(ParseState(Prefix(f, 8), false), Clause("max_duration_ms", NumberToString(f.maxDurationMs.value))) ==
            ParseState(Prefix(f, 9), false)
  {
    var st := ParseState(Prefix(f, 8), false);
    var n := f.maxDurationMs.value;
    NumberTextIsTrimmed(n);
    NumberRoundTrip(n);
    NumberKeysAreLiteral();
    BareClause(st, "max_duration_ms", NumberToString(n));
    DispatchNumbers(st, NumberToString(n), n);
  }

  lemma AttributeClauseStep(f: Filters, quote: string -> string)
    requires PrintableWith(f, quote) && Truthy(f.attributeKey) && Truthy(f.attributeValue)
    ensures ApplyPart(ParseState(Prefix(f, 9), false), Clause("attr." + f.attributeKey.value, quote(f.attributeValue.value))) ==
            ParseState(Prefix(f, 10), false)
  {
    var st := ParseState(Prefix(f, 9), false);
    var ak, av := f.attributeKey.value, f.attributeValue.value;
    AttributeKeyIsLiteral(ak);
    QuotedClause(st, "attr." + ak, av, quote);
    AttributeDispatch(st, ak, av);
  }

  lemma {:induction false} FoldClauses(f: Filters, quote: string -> string, k: nat)
    requires PrintableWith(f, quote) && k <= FIELD_COUNT
    ensures FoldParts(Start, ClausesUpTo(f, quote, k)) == ParseState(Prefix(f, k), false)
  {
    if k == 0 {
      assert Prefix(f, 0) == NoFilters;
    } else {
      FoldClauses(f, quote, k - 1);
      FoldAppend(Start, ClausesUpTo(f, quote, k - 1), ClauseAt(f, quote, k - 1));
      ClauseStep(f, quote, k - 1);
    }
  }

  lemma BooleanRhs()
    ensures SafeRhs("true") && SafeRhs("false")
  {
  }

  lemma NumberRhs(n: Decimal)
    ensures SafeRhs(NumberToString(n))
  {
    var t := NumberToString(n);
    NumberTextIsTrimmed(n);
    NumberTextEndsInDigit(n);
    NumberTextChars(n);
    NoWsNoAndWord(t);
  }

  lemma ClauseAtSafe(f: Filters, quote: string -> string, k: nat)
    requires PrintableWith(f, quote)
    ensures forall c :: c in ClauseAt(f, quote, k) ==> SafeClause(c)
  {
    NameKeysAreLiteral();
    HttpKeysAreLiteral();
    FlagKeysAreLiteral();
    NumberKeysAreLiteral();
    if k == 0 && Truthy(f.service) {
      ClauseIsSafe("service.name", quote(f.service.value));
    } else if k == 1 && Truthy(f.spanName) {
      ClauseIsSafe("span.name", quote(f.spanName.value));
    } else if k == 2 && Truthy(f.deploymentEnv) {
      ClauseIsSafe("deployment.environment", quote(f.deploymentEnv.value));
    } else if k == 3 && Truthy(f.httpMethod) {
      ClauseIsSafe("http.method", quote(f.httpMethod.value));
    } else if k == 4 && Truthy(f.httpStatusCode) {
      ClauseIsSafe("http.status_code", quote(f.httpStatusCode.value));
    } else if k == 5 || k == 6 {
      BooleanRhs();
      ClauseIsSafe("has_error", "true");
      ClauseIsSafe("root_only", "false");
    } else if k == 7 && f.minDurationMs.Some? {
      NumberRhs(f.minDurationMs.value);
      ClauseIsSafe("min_duration_ms", NumberToString(f.minDurationMs.value));
    } else if k == 8 && f.maxDurationMs.Some? {
      NumberRhs(f.maxDurationMs.value);
      ClauseIsSafe("max_duration_ms", NumberToString(f.maxDurationMs.value));
    } else if k == 9 && Truthy(f.attributeKey) && Truthy(f.attributeValue) {
      AttributeKeyIsLiteral(f.attributeKey.value);
      ClauseIsSafe("attr." + f.attributeKey.value, quote(f.attributeValue.value));
    }
  }

  lemma {:induction false} ClausesUpToSafe(f: Filters, quote: string -> string, k: nat)
    requires PrintableWith(f, quote)
    ensures forall i :: 0 <= i < |ClausesUpTo(f, quote, k)| ==> SafeClause(ClausesUpTo(f, quote, k)[i])
  {
    if k > 0 {
      ClausesUpToSafe(f, quote, k - 1);
      ClauseAtSafe(f, quote, k - 1);
      var a, b := ClausesUpTo(f, quote, k - 1), ClauseAt(f, quote, k - 1);
      forall i | 0 <= i < |a + b| ensures SafeClause((a + b)[i]) {
        if i >= |a| {
          assert (a + b)[i] == b[i - |a|] && b[i - |a|] in b;
        }
      }
    }
  }

  /** A non-empty list of safe clauses, joined, is a non-blank where-clause whose parts are those clauses. */
  lemma PartsOfJoin(cs: seq<string>)
    requires |cs| > 0 && forall i :: 0 <= i < |cs| ==> SafeClause(cs[i])
    ensures Trim(Join(cs, " AND ")) != [] && WhereParts(Join(cs, " AND ")) == cs
  {
    var w := Join(cs, " AND ");
    JoinIsTrimmed(cs);
    SplitJoin(cs);
    assert SplitAnd(Trim(w)) == cs;
    assert forall i :: 0 <= i < |cs| ==> |cs[i]| > 0 && IsTrimmed(cs[i]);
    CleanPartsOfClean(cs);
  }

  lemma JoinIsTrimmed(cs: seq<string>)
    requires |cs| > 0 && forall i :: 0 <= i < |cs| ==> SafeClause(cs[i])
    ensures Join(cs, " AND ") != [] && Trim(Join(cs, " AND ")) == Join(cs, " AND ")
  {
    var w := Join(cs, " AND ");
    JoinFirst(cs);
    JoinLast(cs);
    assert SafeClause(cs[0]) && SafeClause(cs[|cs| - 1]);
    assert IsTrimmed(w);
    TrimmedIsFixed(w);
  }

  /**
   * Printing filters with a quoting function that every value reads back
   * through, then parsing the result, gives the same filters and nothing
   * incomplete.
   */
  lemma RoundTripWith(f: Filters, quote: string -> string)
    requires PrintableWith(f, quote)
    ensures ParseWhereClause(ToWhereClauseWith(f, quote)) == ParseState(f, false)
  {
    var cs := ClausesUpTo(f, quote, FIELD_COUNT);
    FoldClauses(f, quote, FIELD_COUNT);
    assert Prefix(f, FIELD_COUNT) == f;
    if cs == [] {
      NoClausesIff(f, quote);
      assert f == NoFilters;
    } else {
      ClausesUpToSafe(f, quote, FIELD_COUNT);
      PartsOfJoin(cs);
    }
  }

  // ---------------------------------------------------------------------
  // The source's quoting
  // ---------------------------------------------------------------------

  /** A value `quoteValue` prints as is: non-empty, trimmed, no quote or backslash, no ` AND ` inside. */
  predicate PlainValue(v: string) {
    v != [] && IsTrimmed(v) && '"' !in v && '\\' !in v && NoAndWord(v)
  }

  predicate PlainField(o: Option<string>) {
    o.Some? ==> PlainValue(o.value)
  }

  /** Filters whose values are all plain and whose attribute key is a plain key paired with a value. */
  predicate PlainFilters(f: Filters) {
    PlainField(f.service) && PlainField(f.spanName) && PlainField(f.deploymentEnv) &&
    PlainField(f.httpMethod) && PlainField(f.httpStatusCode) &&
    (f.attributeKey.Some? <==> f.attributeValue.Some?) &&
    (f.attributeKey.Some? ==> LiteralKey(f.attributeKey.value)) && PlainField(f.attributeValue)
  }

  /** A value in quotes is a safe right-hand side. */
  lemma QuotedRhs(q: string, x: string)
    requires (q == "\"" || q == "'") && NoAndWord(x)
    ensures SafeRhs(q + x + q)
  {
    assert NoAndWord(q);
    if |x| > 0 {
      var a, b := q[0], x[0];
      assert !InAndWord(a, b);
    }
    NoAndWordConcat(q, x);
    var qx := q + x;
    var c, d := qx[|qx| - 1], q[0];
    assert !InAndWord(c, d);
    NoAndWordConcat(qx, q);
  }

  lemma PlainQuotesBack(v: string)
    requires PlainValue(v)
    ensures QuotesBack(QuoteValue, v)
  {
    QuotePlain(v);
    MatchQuoted("", v);
    QuotedRhs("\"", v);
  }

  lemma PlainFieldOk(o: Option<string>)
    requires PlainField(o)
    ensures FieldOk(QuoteValue, o)
  {
    if o.Some? {
      PlainQuotesBack(o.value);
    }
  }

  /**
   * `parseWhereClause(toWhereClause(filters))` gives back the filters, with
   * nothing incomplete, whenever the values are plain.
   */
  lemma RoundTrip(f: Filters)
    requires PlainFilters(f)
    ensures ParseWhereClause(ToWhereClause(f)) == ParseState(f, false)
  {
    PlainFieldOk(f.service);
    PlainFieldOk(f.spanName);
    PlainFieldOk(f.deploymentEnv);
    PlainFieldOk(f.httpMethod);
    PlainFieldOk(f.httpStatusCode);
    PlainFieldOk(f.attributeValue);
    RoundTripWith(f, QuoteValue);
  }

  /**
   * As written, `quoteValue` doubles every backslash but the clause pattern
   * takes the quoted text literally, so a value with a backslash reads back
   * with each backslash doubled.
   */
  lemma BackslashIsDoubled(v: string)
    requires v != [] && NoWs(v) && '"' !in v
    ensures var escaped := ReplaceAll(v, '\\', "\\\\");
            ParseWhereClause(ToWhereClause(NoFilters.(service := Some(v)))) ==
            ParseState(NoFilters.(service := Some(escaped)), false)
    ensures '\\' in v ==> ReplaceAll(v, '\\', "\\\\") != v
  {
    var escaped := ReplaceAll(v, '\\', "\\\\");
    EscapedPlain(v);
    var r := QuoteValue(v);
    QuotedRhs("\"", escaped);
    MatchQuoted("", escaped);
    var f := NoFilters.(service := Some(v));
    var c := Clause("service.name", r);
    OnlyServiceClause(f, QuoteValue, FIELD_COUNT);
    NameKeysAreLiteral();
    ClauseIsSafe("service.name", r);
    PartsOfJoin([c]);
    FoldOne(Start, c);
    TrimmedIsFixed(escaped);
    QuotedClauseReads(Start, "service.name", r, escaped);
  }

  /** With no double quote in `v`, `quoteValue` only doubles the backslashes, which adds no white space and no quote. */
  lemma EscapedPlain(v: string)
    requires v != [] && NoWs(v) && '"' !in v
    ensures var escaped := ReplaceAll(v, '\\', "\\\\");
            QuoteValue(v) == "\"" + escaped + "\"" && escaped != [] && NoWs(escaped) && NoAndWord(escaped) &&
            IsTrimmed(escaped) && '"' !in escaped && ('\\' in v ==> escaped != v)
  {
    var escaped := ReplaceAll(v, '\\', "\\\\");
    ReplaceAllChars(v, '\\', "\\\\");
    ReplaceAllGrows(v, '\\', "\\\\");
    assert '"' !in escaped;
    forall i | 0 <= i < |escaped| ensures !IsWs(escaped[i]) {
      assert escaped[i] in escaped;
    }
    NoWsNoAndWord(escaped);
  }

  /** Filters with only the service set print one clause. */
  lemma {:induction false} OnlyServiceClause(f: Filters, quote: string -> string, k: nat)
    requires Truthy(f.service) && f == NoFilters.(service := f.service)
    ensures ClausesUpTo(f, quote, k) == if k == 0 then [] else [Clause("service.name", quote(f.service.value))]
  {
    if k > 1 {
      OnlyServiceClause(f, quote, k - 1);
    }
  }

  // ---------------------------------------------------------------------
  // A quoting that reads back
  // ---------------------------------------------------------------------

  /**
   * The clause pattern has no escapes, so a value prints faithfully in double
   * quotes when it has no double quote, and in single quotes otherwise.
   */
  function SafeQuoteValue(v: string): string {
    if '"' !in v then "\"" + v + "\"" else "'" + v + "'"
  }

  /** A value that `SafeQuoteValue` can carry: it does not hold both kinds of quote. */
  predicate QuotableValue(v: string) {
    v != [] && IsTrimmed(v) && NoAndWord(v) && !('"' in v && '\'' in v)
  }

  predicate QuotableField(o: Option<string>) {
    o.Some? ==> QuotableValue(o.value)
  }

  predicate QuotableFilters(f: Filters) {
    QuotableField(f.service) && QuotableField(f.spanName) && QuotableField(f.deploymentEnv) &&
    QuotableField(f.httpMethod) && QuotableField(f.httpStatusCode) &&
    (f.attributeKey.Some? <==> f.attributeValue.Some?) &&
    (f.attributeKey.Some? ==> LiteralKey(f.attributeKey.value)) && QuotableField(f.attributeValue)
  }

  /** `toWhereClause` with the quoting that reads back. */
  function CorrectedToWhereClause(f: Filters): Option<string> {
    ToWhereClauseWith(f, SafeQuoteValue)
  }

  lemma SafeQuotesBack(v: string)
    requires QuotableValue(v)
    ensures QuotesBack(SafeQuoteValue, v)
  {
    if '"' !in v {
      QuotedRhs("\"", v);
      MatchQuoted("", v);
    } else {
      QuotedRhs("'", v);
      MatchSingleQuoted("", v);
    }
  }

  lemma QuotableFieldOk(o: Option<string>)
    requires QuotableField(o)
    ensures FieldOk(SafeQuoteValue, o)
  {
    if o.Some? {
      SafeQuotesBack(o.value);
    }
  }

  /**
   * With the corrected quoting, every value without both kinds of quote,
   * backslashes included, reads back unchanged.
   */
  lemma CorrectedRoundTrip(f: Filters)
    requires QuotableFilters(f)
    ensures ParseWhereClause(CorrectedToWhereClause(f)) == ParseState(f, false)
  {
    QuotableFieldOk(f.service);
    QuotableFieldOk(f.spanName);
    QuotableFieldOk(f.deploymentEnv);
    QuotableFieldOk(f.httpMethod);
    QuotableFieldOk(f.httpStatusCode);
    QuotableFieldOk(f.attributeValue);
    RoundTripWith(f, SafeQuoteValue);
  }

  // ---------------------------------------------------------------------
  // Normalising search parameters
  // ---------------------------------------------------------------------

  /** `normalizeNumber`: a finite number is kept, anything else dropped. */
  function FiniteValue(n: Option<JsNumber>): (r: Option<Decimal>)
    ensures r.Some? <==> n.Some? && n.value.Finite?
    ensures r.Some? ==> n.value == Finite(r.value)
  {
    if n.Some? && n.value.Finite? then Some(n.value.value) else None
  }

  function TrimField(o: Option<string>): Option<string> {
    if o.Some? then Some(Trim(o.value)) else None
  }

  /** `normalizeLegacyFilters`: the filters carried by the structured search fields. */
  function NormalizeLegacyFilters(search: TracesSearch): Filters {
    var attributeKey := TrimField(search.attributeKey);
    var attributeValue := TrimField(search.attributeValue);
    var paired := Truthy(attributeKey) && Truthy(attributeValue);
    Filters(
      FirstNonEmpty(search.services),
      FirstNonEmpty(search.spanNames),
      FirstNonEmpty(search.deploymentEnvs),
      FirstNonEmpty(search.httpMethods),
      FirstNonEmpty(search.httpStatusCodes),
      search.hasError == Some(true),
      search.rootOnly == Some(false),
      FiniteValue(search.minDurationMs),
      FiniteValue(search.maxDurationMs),
      if paired then attributeKey else None,
      if paired then attributeValue else None)
  }

  /** A set string filter as a one-element list. */
  function Single(o: Option<string>): Option<seq<string>> {
    if Truthy(o) then Some([o.value]) else None
  }

  function AsNumber(d: Option<Decimal>): Option<JsNumber> {
    if d.Some? then Some(Finite(d.value)) else None
  }

  /** `normalizeWithFilters`: the start and end times of the search, every other field from the filters. */
  function NormalizeWithFilters(search: TracesSearch, f: Filters): TracesSearch {
    EmptySearch.(
      startTime := search.startTime,
      endTime := search.endTime,
      services := Single(f.service),
      spanNames := Single(f.spanName),
      hasError := if f.hasError then Some(true) else None,
      minDurationMs := AsNumber(f.minDurationMs),
      maxDurationMs := AsNumber(f.maxDurationMs),
      httpMethods := Single(f.httpMethod),
      httpStatusCodes := Single(f.httpStatusCode),
      deploymentEnvs := Single(f.deploymentEnv),
      rootOnly := if f.rootOnlyFalse then Some(false) else None,
      whereClause := ToWhereClause(f),
      attributeKey := f.attributeKey,
      attributeValue := f.attributeValue)
  }

  predicate NonBlank(o: Option<string>) {
    o.Some? && Trim(o.value) != []
  }

  /**
   * `normalizeTracesSearchParams`: a non-blank where-clause decides the
   * filters; if it yields none but is incomplete, only the times and the
   * trimmed text are kept; without a where-clause the structured fields decide.
   */
  function Normalize(search: TracesSearch): TracesSearch {
    if NonBlank(search.whereClause) then
      var normalizedWhereClause := Trim(search.whereClause.value);
      var parsed := ParseWhereClause(Some(normalizedWhereClause));
      if HasAnyFilter(parsed.filters) then NormalizeWithFilters(search, parsed.filters)
      else if parsed.incomplete then
        EmptySearch.(startTime := search.startTime, endTime := search.endTime, whereClause := Some(normalizedWhereClause))
      else NormalizeWithFilters(search, NoFilters)
    else NormalizeWithFilters(search, NormalizeLegacyFilters(search))
  }

  /** What `JSON.stringify` writes for a number field: absent, `null` for a non-finite number, or the number. */
  function JsonNumber(n: Option<JsNumber>): Option<Option<Decimal>> {
    if n.None? then None else Some(FiniteValue(n))
  }

  /**
   * `areTracesSearchParamsEqual`: the fields in sorted order compared as
   * `JSON.stringify` writes them; strings and lists are written faithfully,
   * non-finite numbers all as `null`.
   */
  predicate AreEqual(left: TracesSearch, right: TracesSearch) {
    left.attributeKey == right.attributeKey &&
    left.attributeValue == right.attributeValue &&
    left.deploymentEnvs == right.deploymentEnvs &&
    left.endTime == right.endTime &&
    left.hasError == right.hasError &&
    left.httpMethods == right.httpMethods &&
    left.httpStatusCodes == right.httpStatusCodes &&
    JsonNumber(left.maxDurationMs) == JsonNumber(right.maxDurationMs) &&
    JsonNumber(left.minDurationMs) == JsonNumber(right.minDurationMs) &&
    left.rootOnly == right.rootOnly &&
    left.services == right.services &&
    left.spanNames == right.spanNames &&
    left.startTime == right.startTime &&
    left.whereClause == right.whereClause
  }

  predicate FiniteNumbers(s: TracesSearch) {
    (s.minDurationMs.Some? ==> s.minDurationMs.value.Finite?) &&
    (s.maxDurationMs.Some? ==> s.maxDurationMs.value.Finite?)
  }

  /** With finite numbers the comparison is equality of all fourteen fields. */
  lemma AreEqualIsEquality(left: TracesSearch, right: TracesSearch)
    requires FiniteNumbers(left) && FiniteNumbers(right)
    ensures AreEqual(left, right) <==> left == right
  {
    if AreEqual(left, right) {
      assert left.minDurationMs == right.minDurationMs by {
        if left.minDurationMs.Some? {
          assert Some(FiniteValue(left.minDurationMs)) == Some(FiniteValue(right.minDurationMs));
        }
      }
      assert left.maxDurationMs == right.maxDurationMs by {
        if left.maxDurationMs.Some? {
          assert Some(FiniteValue(left.maxDurationMs)) == Some(FiniteValue(right.maxDurationMs));
        }
      }
    }
  }

  /** `JSON.stringify` writes NaN and the infinities alike, so searches differing only there compare equal. */
  lemma NonFiniteNumbersCompareEqual(s: TracesSearch)
    ensures AreEqual(s.(minDurationMs := Some(NaN)), s.(minDurationMs := Some(Infinity)))
    ensures AreEqual(s.(maxDurationMs := Some(NegInfinity)), s.(maxDurationMs := Some(NaN)))
    ensures !AreEqual(s.(minDurationMs := Some(NaN)), s.(minDurationMs := None))
  {
  }

  // ---------------------------------------------------------------------
  // Properties of normalisation
  // ---------------------------------------------------------------------

  /** Trimming the where-clause first changes nothing about how it parses. */
  lemma ParseOfTrimmed(w: string)
    ensures ParseWhereClause(Some(Trim(w))) == ParseWhereClause(Some(w))
  {
    TrimIsTrimmed(w);
    TrimmedIsFixed(Trim(w));
  }

  /** A non-blank where-clause decides the result: the structured filter fields are then ignored. */
  lemma WhereClauseTakesPrecedence(s: TracesSearch, t: TracesSearch)
    requires NonBlank(s.whereClause) && s.whereClause == t.whereClause
    requires s.startTime == t.startTime && s.endTime == t.endTime
    ensures Normalize(s) == Normalize(t)
  {
  }

  /**
   * A where-clause that yields no filter but has an incomplete clause is kept,
   * trimmed, with only the times beside it.
   */
  lemma IncompleteWhereClauseKept(s: TracesSearch)
    requires NonBlank(s.whereClause)
    requires !HasAnyFilter(ParseWhereClause(s.whereClause).filters) && ParseWhereClause(s.whereClause).incomplete
    ensures Normalize(s) == EmptySearch.(startTime := s.startTime, endTime := s.endTime, whereClause := Some(Trim(s.whereClause.value)))
  {
    ParseOfTrimmed(s.whereClause.value);
  }

  /**
   * A where-clause whose clauses are all understood but all dropped
   * normalises to the times alone: no where-clause, no filter.
   */
  lemma DroppedClausesLeaveNothing(s: TracesSearch)
    requires NonBlank(s.whereClause)
    requires !HasAnyFilter(ParseWhereClause(s.whereClause).filters) && !ParseWhereClause(s.whereClause).incomplete
    ensures Normalize(s) == EmptySearch.(startTime := s.startTime, endTime := s.endTime)
  {
    ParseOfTrimmed(s.whereClause.value);
    NoClausesIff(NoFilters, QuoteValue);
  }

  /** An unterminated double-quoted value is an incomplete clause, and sets nothing. */
  lemma UnterminatedQuoteIsIncomplete(st: ParseState, key: string, v: string)
    requires LiteralKey(key) && v != [] && NoWs(v) && '"' !in v
    ensures ApplyPart(st, Clause(key, "\"" + v)) == st.(incomplete := true)
  {
    var r := "\"" + v;
    assert r[|r| - 1] == v[|v| - 1];
    MatchKeyed(key, r);
  }

  /** A where-clause made of one unterminated quoted clause parses to no filter and an incomplete mark. */
  lemma UnterminatedQuoteClause(key: string, v: string)
    requires LiteralKey(key) && v != [] && NoWs(v) && '"' !in v
    ensures NonBlank(Some(Clause(key, "\"" + v)))
    ensures ParseWhereClause(Some(Clause(key, "\"" + v))) == ParseState(NoFilters, true)
  {
    var r := "\"" + v;
    var c := Clause(key, r);
    KeyCharsAreNotWs(key);
    assert NoWs(r);
    NoWsNoAndWord(r);
    var eq := " = ";
    assert NoAndWord(eq);
    var x, y := eq[|eq| - 1], r[0];
    assert !InAndWord(x, y);
    NoAndWordConcat(eq, r);
    NoAndWordAfterNoWs(key, eq + r);
    assert c == key + (eq + r);
    assert IsTrimmed(c);
    TrimmedIsFixed(c);
    SplitWithoutSeparator(c);
    CleanPartsOfClean([c]);
    FoldOne(Start, c);
    UnterminatedQuoteIsIncomplete(Start, key, v);
  }

  /** A search whose where-clause is one unterminated quoted clause keeps that text and drops every structured filter. */
  lemma UnterminatedQuoteKept(s: TracesSearch, key: string, v: string)
    requires LiteralKey(key) && v != [] && NoWs(v) && '"' !in v
    requires s.whereClause == Some(Clause(key, "\"" + v))
    ensures Normalize(s) == EmptySearch.(startTime := s.startTime, endTime := s.endTime, whereClause := s.whereClause)
  {
    UnterminatedQuoteClause(key, v);
    IncompleteWhereClauseKept(s);
    TrimmedIsFixed(s.whereClause.value);
  }

  /** The keys the dispatch knows. */
  const KNOWN_KEYS: set<string> := {
    "service", "service.name", "span", "span.name", "deployment.environment", "environment", "env",
    "http.method", "http.status_code", "has_error", "root_only", "root.only", "min_duration_ms", "max_duration_ms"
  }

  /** An unsupported key is dropped without marking the clause incomplete. */
  lemma UnknownKeyIsDropped(st: ParseState, rawKey: string, rawValue: string)
    requires rawKey !in KNOWN_KEYS && !StartsWith(rawKey, "attr.")
    ensures ApplyKeyValue(st, rawKey, rawValue) == st
  {
  }

  /** `has_error = false` clears the error filter and is not incomplete. */
  lemma FalseHasErrorIsDropped(st: ParseState, t: string)
    requires t != [] && ParseBoolean(t) == Some(false)
    ensures ApplyKeyValue(st, "has_error", t) == st.(filters := st.filters.(hasError := false))
  {
  }

  /** `root_only = true` clears the root-only filter and is not incomplete. */
  lemma TrueRootOnlyIsDropped(st: ParseState, t: string)
    requires t != [] && ParseBoolean(t) == Some(true)
    ensures ApplyKeyValue(st, "root_only", t) == st.(filters := st.filters.(rootOnlyFalse := false))
    ensures ApplyKeyValue(st, "root.only", t) == st.(filters := st.filters.(rootOnlyFalse := false))
  {
  }

  /** A flag or number clause whose value does not parse marks the clause incomplete and sets nothing. */
  lemma UnparsedValueIsIncomplete(st: ParseState, rawKey: string, t: string)
    requires t != [] && rawKey in {"has_error", "root_only", "root.only", "min_duration_ms", "max_duration_ms"}
    requires rawKey in {"has_error", "root_only", "root.only"} ==> ParseBoolean(t).None?
    requires rawKey in {"min_duration_ms", "max_duration_ms"} ==> ParseNumber(t).None?
    ensures ApplyKeyValue(st, rawKey, t) == st.(incomplete := true)
  {
    if rawKey in {"has_error", "root_only", "root.only"} {
      UnparsedBooleanIsIncomplete(st, rawKey, t);
    } else {
      UnparsedNumberIsIncomplete(st, rawKey, t);
    }
  }

  lemma UnparsedBooleanIsIncomplete(st: ParseState, rawKey: string, t: string)
    requires t != [] && rawKey in {"has_error", "root_only", "root.only"} && ParseBoolean(t).None?
    ensures ApplyKeyValue(st, rawKey, t) == st.(incomplete := true)
  {
  }

  lemma UnparsedNumberIsIncomplete(st: ParseState, rawKey: string, t: string)
    requires t != [] && rawKey in {"min_duration_ms", "max_duration_ms"} && ParseNumber(t).None?
    ensures ApplyKeyValue(st, rawKey, t) == st.(incomplete := true)
  {
  }

  /** Once an attribute key is set, later `attr.` clauses are ignored: the first one wins. */
  lemma FirstAttributeWins(st: ParseState, rawKey: string, rawValue: string)
    requires Truthy(st.filters.attributeKey) && StartsWith(rawKey, "attr.")
    ensures ApplyKeyValue(st, rawKey, rawValue) == st
  {
    assert rawKey[0] == 'a';
  }

  /** A string field as the parser and the legacy reader leave it: absent, or non-empty and trimmed. */
  predicate CleanField(o: Option<string>) {
    o.Some? ==> o.value != [] && IsTrimmed(o.value)
  }

  /** Every value non-empty and trimmed; the attribute key and value set together. */
  predicate CleanFilters(f: Filters) {
    CleanField(f.service) && CleanField(f.spanName) && CleanField(f.deploymentEnv) &&
    CleanField(f.httpMethod) && CleanField(f.httpStatusCode) &&
    (f.attributeKey.Some? <==> f.attributeValue.Some?) &&
    CleanField(f.attributeKey) && CleanField(f.attributeValue)
  }

  /** The parser's attribute key is lower case, because the whole key is lower-cased first. */
  predicate LowerAttributeKey(f: Filters) {
    f.attributeKey.Some? ==> IsLowerAscii(f.attributeKey.value)
  }

  lemma TrimKeepsLower(s: string)
    requires IsLowerAscii(s)
    ensures IsLowerAscii(Trim(s))
  {
    var i, j := TrimIsSlice(s);
    assert forall k :: 0 <= k < |Trim(s)| ==> Trim(s)[k] == s[i + k];
  }

  /** The dispatch changes at most one field, or only the incomplete mark. */
  lemma ApplyKeyValueCases(st: ParseState, rawKey: string, rawValue: string)
    ensures var r := ApplyKeyValue(st, rawKey, rawValue);
            var f := st.filters;
            r == st || r == st.(incomplete := true) ||
            (rawValue != [] &&
             (r == st.(filters := f.(service := Some(rawValue))) ||
              r == st.(filters := f.(spanName := Some(rawValue))) ||
              r == st.(filters := f.(deploymentEnv := Some(rawValue))) ||
              r == st.(filters := f.(httpMethod := Some(rawValue))) ||
              r == st.(filters := f.(httpStatusCode := Some(rawValue))))) ||
            r == st.(filters := f.(hasError := r.filters.hasError)) ||
            r == st.(filters := f.(rootOnlyFalse := r.filters.rootOnlyFalse)) ||
            r == st.(filters := f.(minDurationMs := r.filters.minDurationMs)) ||
            r == st.(filters := f.(maxDurationMs := r.filters.maxDurationMs)) ||
            (rawValue != [] && |rawKey| >= 5 && Trim(rawKey[5..]) != [] && !Truthy(f.attributeKey) &&
             r == st.(filters := f.(attributeKey := Some(Trim(rawKey[5..])), attributeValue := Some(rawValue))))
  {
    var r := ApplyKeyValue(st, rawKey, rawValue);
    var f := st.filters;
    if rawKey == [] || rawValue == [] {
      assert r == st;
    } else if rawKey == "service" || rawKey == "service.name" {
      assert r == st.(filters := f.(service := Some(rawValue)));
    } else if rawKey == "span" || rawKey == "span.name" {
      assert r == st.(filters := f.(spanName := Some(rawValue)));
    } else if rawKey == "deployment.environment" || rawKey == "environment" || rawKey == "env" {
      assert r == st.(filters := f.(deploymentEnv := Some(rawValue)));
    } else if rawKey == "http.method" {
      assert r == st.(filters := f.(httpMethod := Some(rawValue)));
    } else if rawKey == "http.status_code" {
      assert r == st.(filters := f.(httpStatusCode := Some(rawValue)));
    } else if rawKey == "has_error" {
      assert r == st.(incomplete := true) || r == st.(filters := f.(hasError := r.filters.hasError));
    } else if rawKey == "root_only" || rawKey == "root.only" {
      assert r == st.(incomplete := true) || r == st.(filters := f.(rootOnlyFalse := r.filters.rootOnlyFalse));
    } else if rawKey == "min_duration_ms" {
      assert r == st.(incomplete := true) || r == st.(filters := f.(minDurationMs := r.filters.minDurationMs));
    } else if rawKey == "max_duration_ms" {
      assert r == st.(incomplete := true) || r == st.(filters := f.(maxDurationMs := r.filters.maxDurationMs));
    } else if StartsWith(rawKey, "attr.") {
      assert |rawKey| >= 5;
    } else {
      assert r == st;
    }
  }

  lemma ApplyKeyValueKeepsClean(st: ParseState, rawKey: string, rawValue: string)
    requires CleanFilters(st.filters) && LowerAttributeKey(st.filters)
    requires IsTrimmed(rawValue) && IsLowerAscii(rawKey)
    ensures var r := ApplyKeyValue(st, rawKey, rawValue);
            CleanFilters(r.filters) && LowerAttributeKey(r.filters) && (st.incomplete ==> r.incomplete)
  {
    ApplyKeyValueCases(st, rawKey, rawValue);
    if |rawKey| >= 5 {
      var rest := rawKey[5..];
      assert forall k :: 0 <= k < |rest| ==> rest[k] == rawKey[k + 5];
      TrimKeepsLower(rest);
      TrimIsTrimmed(rest);
    }
  }

  /** One part keeps the filters clean, and an incomplete mark is never cleared. */
  lemma ApplyPartKeepsClean(st: ParseState, part: string)
    requires CleanFilters(st.filters) && LowerAttributeKey(st.filters)
    ensures var r := ApplyPart(st, part);
            CleanFilters(r.filters) && LowerAttributeKey(r.filters) && (st.incomplete ==> r.incomplete)
  {
    match MatchClause(part)
    case NoMatch =>
    case KeyValue(key, value, bare) =>
      TrimIsTrimmed(value);
      LowerIsLowerAscii(Trim(key));
      ApplyKeyValueKeepsClean(st, Lower(Trim(key)), Trim(value));
  }

  lemma {:induction false} FoldPartsKeepsClean(st: ParseState, parts: seq<string>)
    requires CleanFilters(st.filters) && LowerAttributeKey(st.filters)
    ensures var r := FoldParts(st, parts);
            CleanFilters(r.filters) && LowerAttributeKey(r.filters) && (st.incomplete ==> r.incomplete)
  {
    if parts != [] {
      FoldPartsKeepsClean(st, parts[..|parts| - 1]);
      ApplyPartKeepsClean(FoldParts(st, parts[..|parts| - 1]), parts[|parts| - 1]);
    }
  }

  /**
   * The parsed filters hold non-empty trimmed values, a lower-case attribute
   * key, and the attribute key and value only as a pair.
   */
  lemma ParsedFiltersAreClean(whereClause: Option<string>)
    ensures CleanFilters(ParseWhereClause(whereClause).filters) && LowerAttributeKey(ParseWhereClause(whereClause).filters)
  {
    if whereClause.Some? && Trim(whereClause.value) != [] {
      FoldPartsKeepsClean(Start, WhereParts(whereClause.value));
    }
  }

  /** The legacy filters hold non-empty trimmed values, and the attribute key and value only as a pair. */
  lemma LegacyFiltersAreClean(search: TracesSearch)
    ensures CleanFilters(NormalizeLegacyFilters(search))
  {
    if search.attributeKey.Some? {
      TrimIsTrimmed(search.attributeKey.value);
    }
    if search.attributeValue.Some? {
      TrimIsTrimmed(search.attributeValue.value);
    }
  }

  lemma ServiceKeyIsLiteral()
    ensures LiteralKey("service")
  {
  }

  /**
   * A legacy search for one service and a where-clause `service = "v"` with
   * the same times normalise to the same search, so they compare equal.
   */
  lemma LegacyAndWhereAgree(v: string, startTime: Option<string>, endTime: Option<string>)
    requires PlainValue(v)
    ensures var legacy := EmptySearch.(services := Some([v]), startTime := startTime, endTime := endTime);
            var where := EmptySearch.(whereClause := Some(Clause("service", QuoteValue(v))), startTime := startTime, endTime := endTime);
            Normalize(legacy) == Normalize(where) && AreEqual(legacy.(whereClause := None), legacy) &&
            AreEqual(Normalize(legacy), Normalize(where))
  {
    var r := QuoteValue(v);
    var c := Clause("service", r);
    var f := NoFilters.(service := Some(v));
    TrimmedIsFixed(v);
    PlainQuotesBack(v);
    ServiceKeyIsLiteral();
    ClauseIsSafe("service", r);
    PartsOfJoin([c]);
    assert Join([c], " AND ") == c;
    FoldOne(Start, c);
    QuotedClause(Start, "service", v, QuoteValue);
    assert ParseWhereClause(Some(c)) == ParseState(f, false);
    ParseOfTrimmed(c);
  }

  /** Normalising the output of normalising filters `f` changes nothing, when `f` prints plainly. */
  lemma WithFiltersIsStable(search: TracesSearch, f: Filters)
    requires PlainFilters(f)
    ensures Normalize(NormalizeWithFilters(search, f)) == NormalizeWithFilters(search, f)
  {
    var n := NormalizeWithFilters(search, f);
    NoClausesIff(f, QuoteValue);
    RoundTrip(f);
    match ToWhereClause(f)
    case Some(w) =>
      assert HasAnyFilter(f);
      assert f != NoFilters;
      assert Trim(w) != [];
      ParseOfTrimmed(w);
    case None =>
      assert f == NoFilters;
      assert NormalizeLegacyFilters(n) == NoFilters;
  }

  /**
   * Normalisation is idempotent whenever the filters it settles on print
   * plainly (the values carry no quote, backslash or ` AND `).
   */
  lemma NormalizeIdempotent(search: TracesSearch)
    requires NonBlank(search.whereClause) ==> PlainFilters(ParseWhereClause(search.whereClause).filters)
    requires !NonBlank(search.whereClause) ==> PlainFilters(NormalizeLegacyFilters(search))
    ensures Normalize(Normalize(search)) == Normalize(search)
  {
    if NonBlank(search.whereClause) {
      var w := Trim(search.whereClause.value);
      ParseOfTrimmed(search.whereClause.value);
      var parsed := ParseWhereClause(Some(w));
      if HasAnyFilter(parsed.filters) {
        WithFiltersIsStable(search, parsed.filters);
      } else if parsed.incomplete {
        TrimIsTrimmed(search.whereClause.value);
        TrimmedIsFixed(w);
      } else {
        WithFiltersIsStable(search, NoFilters);
      }
    } else {
      WithFiltersIsStable(search, NormalizeLegacyFilters(search));
    }
  }

  /**
   * As written, normalisation is not idempotent for a service name with a
   * backslash: the second pass reads back the doubled backslashes.
   */
  lemma BackslashBreaksIdempotence(v: string)
    requires v != [] && NoWs(v) && '"' !in v && '\\' in v
    ensures var n := Normalize(EmptySearch.(services := Some([v])));
            n.services == Some([v]) && Normalize(n).services == Some([ReplaceAll(v, '\\', "\\\\")]) &&
            Normalize(n) != n
  {
    var f := NoFilters.(service := Some(v));
    var s := EmptySearch.(services := Some([v]));
    TrimmedIsFixed(v);
    assert NormalizeLegacyFilters(s) == f;
    var n := Normalize(s);
    assert n == NormalizeWithFilters(s, f);
    BackslashIsDoubled(v);
    var escaped := ReplaceAll(v, '\\', "\\\\");
    NoClausesIff(f, QuoteValue);
    var w := ToWhereClause(f).value;
    assert ParseWhereClause(Some(w)) == ParseState(NoFilters.(service := Some(escaped)), false);
    assert Trim(w) != [];
    ParseOfTrimmed(w);
    assert [escaped] != [v];
  }
}
