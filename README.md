# Maple web core, modelled in Dafny

This project models the core client logic of Maple, an observability product
(traces, logs, metrics and errors over a Tinybird store), and proves
properties of that model. Each core source file has its own module:

- **Trace timeline engine** (`use-trace-timeline.ts` and the timeline
  components). It covers:
  - span-tree layout into rows, with the default expansion and descendant
    counts (`TraceLayout`, `TraceLayoutOrder`);
  - the timeline reducer and viewport clamping (`TraceReducer`);
  - time-axis ticks (`TraceTicks`) and span search (`TraceSearch`);
  - row virtualisation and bar flags (`TimelineRows`);
  - parent–child connector lines (`TimelineConnectors`);
  - the minimap: its spans and its mouse drag (`TimelineMinimap`).

  The span tree and bar types are in `TraceTypes`.
- **Advanced filter sync** (`advanced-filter-sync.ts`). It covers:
  - parsing a `WHERE`-style clause into filters and printing filters back
    (`AdvancedFilterSync`, `AdvancedFilterText`);
  - normalising the traces search parameters and comparing them;
  - the JavaScript `Number(...)` and `String(...)` behaviour on decimal
    numbers the clause text relies on (`FilterNumbers`).
- **Chat tabs** (`ChatTabs`) and the **quick-start checklist** (`QuickStart`).
- **Usage:** billing usage aggregation and formatting (`BillingUsage`), and
  the usage sync aggregation of the API (`SyncUsage`).
- **Timestamps and time zones:** timestamp normalisation (`TimezoneFormat`)
  and the time-zone preference (`TimezonePreference`).
- **Redirect URL parsing** (`RedirectUtils`).
- **AI widget proposals:** normalising a proposal for the query-builder
  endpoint (`WidgetProposal`).
- **Error facets:** the facet transform of the errors page (`ErrorFacets`).

`JsText` holds the JavaScript string operations the modules share:
`trim`, `\s`, ASCII `toLowerCase`, `includes`, `indexOf`, `startsWith` and
`join`. `Wrappers` holds `Option`.

Code that updates state step by step is modelled as methods with loop
invariants or as classes, and each is proved against a specification
function:
- the recursive visitors with their accumulators (`BarCollector`,
  `MinimapCollector`);
- the loops that collect ids, ticks, matches, connectors, facets and
  usage totals;
- the minimap's drag reference (`MinimapDrag`).

The pure transformations are functions, related to their specifications by
lemmas. Calls into the environment become parameters of the model. These
are `Intl` time-zone acceptance, `JSON.parse` of a stored string,
percent-decoding, the query-builder draft factory and its constants,
`Date.now()` and `crypto.randomUUID()`.

## Model

| member | source | states |
|---|---|---|
| JsText.TrimIsSlice | apps/web/src/lib/traces/advanced-filter-sync.ts:42 | `trim` returns a middle slice of its input; everything cut from either end is white space |
| JsText.TrimIsTrimmed | apps/web/src/lib/traces/advanced-filter-sync.ts:42 | the result of `trim` has no white space at either end |
| JsText.TrimEmptyIff | apps/web/src/lib/traces/advanced-filter-sync.ts:100 | a trimmed string is empty exactly when the input is all white space |
| JsText.Lower | apps/web/src/lib/traces/advanced-filter-sync.ts:63 | `toLowerCase` keeps the length and maps each character by itself |
| JsText.LowerIsLowerAscii | apps/web/src/lib/traces/advanced-filter-sync.ts:132 | a lowered string holds no upper-case ASCII letter |
| JsText.IndexOf | apps/web/src/lib/redirect-utils.ts:9 | `indexOf` gives -1 exactly when the character is absent, and otherwise its first position |
| AdvancedFilterText.SplitJoin | apps/web/src/lib/traces/advanced-filter-sync.ts:107-111 | splitting the `" AND "`-joined clauses on `\s+AND\s+` gives the clauses back |
| AdvancedFilterText.CleanParts | apps/web/src/lib/traces/advanced-filter-sync.ts:110-111 | after `map(trim).filter(Boolean)` every part is non-empty and trimmed |
| AdvancedFilterText.MatchKeyed | apps/web/src/lib/traces/advanced-filter-sync.ts:35 | `key = rhs` with a key of `[a-zA-Z0-9_.-]+` matches the clause pattern with that key |
| AdvancedFilterText.MatchQuoted | apps/web/src/lib/traces/advanced-filter-sync.ts:35 | a double-quoted value without `"` is read as that value |
| AdvancedFilterText.MatchSingleQuoted | apps/web/src/lib/traces/advanced-filter-sync.ts:35 | a single-quoted value without `'` is read as that value |
| AdvancedFilterText.MatchBare | apps/web/src/lib/traces/advanced-filter-sync.ts:123-127 | a bare token without white space is read as an unquoted token (the bare alternative of the clause pattern, line 35) |
| AdvancedFilterText.QuotePlain | apps/web/src/lib/traces/advanced-filter-sync.ts:88-90 | `quoteValue` only adds the quotes to a value with no `\` and no `"` |
| AdvancedFilterText.ReplaceAllGrows | apps/web/src/lib/traces/advanced-filter-sync.ts:89 | escaping never shortens a value, and lengthens every value that holds the escaped character |
| AdvancedFilterSync.FirstNonEmpty | apps/web/src/lib/traces/advanced-filter-sync.ts:37-44 | a value exists exactly when the first element exists and is not blank; it is that element trimmed |
| AdvancedFilterSync.ParseBoolean | apps/web/src/lib/traces/advanced-filter-sync.ts:62-73 | true exactly for the trimmed, lowered words `1 true yes y`; false exactly for `0 false no n` (the word lists of lines 32-33) |
| AdvancedFilterSync.BooleanWords | apps/web/src/lib/traces/advanced-filter-sync.ts:247-253 | the words `toWhereClause` prints for the flags parse back to the flags |
| AdvancedFilterSync.WhereParts | apps/web/src/lib/traces/advanced-filter-sync.ts:107-111 | every clause the splitter returns is non-empty and trimmed |
| AdvancedFilterSync.ParseWhereClauseLoop | apps/web/src/lib/traces/advanced-filter-sync.ts:96-222 | the clause loop computes the filters and the incomplete flag of the parse specification |
| AdvancedFilterSync.ParsePart | apps/web/src/lib/traces/advanced-filter-sync.ts:116-136 | one clause: no match, or a quote opening an unquoted token, marks it incomplete; otherwise its key and value are applied |
| AdvancedFilterSync.ParseKeyValue | apps/web/src/lib/traces/advanced-filter-sync.ts:132-215 | the key dispatch updates exactly the field its key names |
| AdvancedFilterSync.BuildWhereClause | apps/web/src/lib/traces/advanced-filter-sync.ts:224-274 | the clause builder computes the printing specification |
| AdvancedFilterSync.PushValueClauses | apps/web/src/lib/traces/advanced-filter-sync.ts:225-245 | the five quoted-value clauses come out in field order |
| AdvancedFilterSync.PushFlagClauses | apps/web/src/lib/traces/advanced-filter-sync.ts:247-253 | the `has_error` and `root_only` clauses follow the quoted ones, each only when its flag is set |
| AdvancedFilterSync.PushDurationClauses | apps/web/src/lib/traces/advanced-filter-sync.ts:255-261 | the duration bounds follow the flags, each only when present |
| AdvancedFilterSync.JoinClauses | apps/web/src/lib/traces/advanced-filter-sync.ts:269-273 | the result is undefined exactly when there is no clause |
| AdvancedFilterSync.NoClausesIff | apps/web/src/lib/traces/advanced-filter-sync.ts:224-274 | `toWhereClause` is undefined exactly when no filter is set (an attribute needs both key and value) |
| AdvancedFilterSync.RoundTrip | apps/web/src/lib/traces/advanced-filter-sync.ts:96-274 | parsing the printed clause gives the filters back, with nothing incomplete, when every text value is non-empty, trimmed, free of `\` and `"` and of an `AND` word, and the attribute key is a clause key |
| AdvancedFilterSync.RoundTripWith | apps/web/src/lib/traces/advanced-filter-sync.ts:96-274 | the same round trip for any quoting function that the clause parser reads back |
| AdvancedFilterSync.BackslashIsDoubled | apps/web/src/lib/traces/advanced-filter-sync.ts:88-90 | a service value printed and parsed back comes out with every backslash doubled, so a value with a backslash changes, as the parser of lines 123-133 reads it |
| AdvancedFilterSync.CorrectedRoundTrip | apps/web/src/lib/traces/advanced-filter-sync.ts:88-90 | with a quoting that only adds quotes (single ones when the value holds `"`), every trimmed non-empty value without both kinds of quote and without an `AND` word survives the round trip, backslashes included through the printer and parser of lines 96-274 |
| AdvancedFilterSync.FiniteValue | apps/web/src/lib/traces/advanced-filter-sync.ts:54-60 | `normalizeNumber` keeps a value exactly when it is a finite number |
| AdvancedFilterSync.AreEqualIsEquality | apps/web/src/lib/traces/advanced-filter-sync.ts:351-375 | for finite durations, comparing the sorted JSON texts is equality of the parameters |
| AdvancedFilterSync.NonFiniteNumbersCompareEqual | apps/web/src/lib/traces/advanced-filter-sync.ts:351-375 | NaN and ±Infinity print as `null` and compare equal to each other, but not to an absent duration |
| AdvancedFilterSync.ParseOfTrimmed | apps/web/src/lib/traces/advanced-filter-sync.ts:100-109 | parsing ignores white space around the whole clause |
| AdvancedFilterSync.WhereClauseTakesPrecedence | apps/web/src/lib/traces/advanced-filter-sync.ts:328-335 | with a non-blank where clause, only the clause and the time range decide the result; the legacy fields are ignored |
| AdvancedFilterSync.IncompleteWhereClauseKept | apps/web/src/lib/traces/advanced-filter-sync.ts:337-343 | a clause that yields no filter but is incomplete is kept trimmed, with the time range and nothing else |
| AdvancedFilterSync.DroppedClausesLeaveNothing | apps/web/src/lib/traces/advanced-filter-sync.ts:345 | a clause that yields nothing, complete, normalises to the time range alone |
| AdvancedFilterSync.UnterminatedQuoteIsIncomplete | apps/web/src/lib/traces/advanced-filter-sync.ts:123-130 | a value that opens a quote and does not close it marks the clause incomplete and sets nothing |
| AdvancedFilterSync.UnterminatedQuoteClause | apps/web/src/lib/traces/advanced-filter-sync.ts:96-130 | a where clause of one unterminated quoted value parses to no filters, incomplete |
| AdvancedFilterSync.UnterminatedQuoteKept | apps/web/src/lib/traces/advanced-filter-sync.ts:328-343 | such a where clause survives normalisation as typed |
| AdvancedFilterSync.UnknownKeyIsDropped | apps/web/src/lib/traces/advanced-filter-sync.ts:138-215 | a key that names no field and does not start with `attr.` changes nothing |
| AdvancedFilterSync.FalseHasErrorIsDropped | apps/web/src/lib/traces/advanced-filter-sync.ts:167-175 | `has_error = false` clears the error flag instead of setting it |
| AdvancedFilterSync.TrueRootOnlyIsDropped | apps/web/src/lib/traces/advanced-filter-sync.ts:177-185 | `root_only = true` (or `root.only`) clears the root-only filter |
| AdvancedFilterSync.UnparsedValueIsIncomplete | apps/web/src/lib/traces/advanced-filter-sync.ts:167-205 | a flag or duration value that does not parse marks the clause incomplete and sets nothing |
| AdvancedFilterSync.FirstAttributeWins | apps/web/src/lib/traces/advanced-filter-sync.ts:207-215 | once an attribute filter is set, later `attr.` clauses change nothing |
| AdvancedFilterSync.ApplyKeyValueCases | apps/web/src/lib/traces/advanced-filter-sync.ts:132-215 | one clause changes at most one filter field (both attribute fields together), or only the incomplete flag |
| AdvancedFilterSync.ParsedFiltersAreClean | apps/web/src/lib/traces/advanced-filter-sync.ts:96-222 | every parsed text value is trimmed and non-empty, and the attribute key is lower case |
| AdvancedFilterSync.LegacyFiltersAreClean | apps/web/src/lib/traces/advanced-filter-sync.ts:276-302 | the legacy fields normalise to trimmed non-empty values, with the attribute key and value both set or both absent |
| AdvancedFilterSync.LegacyAndWhereAgree | apps/web/src/lib/traces/advanced-filter-sync.ts:276-348 | `services: [v]` and `service = "v"` normalise to the same parameters |
| AdvancedFilterSync.WithFiltersIsStable | apps/web/src/lib/traces/advanced-filter-sync.ts:304-349 | normalising the output of `normalizeWithFilters` once more changes nothing, for plain filters |
| AdvancedFilterSync.NormalizeIdempotent | apps/web/src/lib/traces/advanced-filter-sync.ts:328-349 | `normalizeTracesSearchParams` is idempotent whenever the filters it derives are plain |
| AdvancedFilterSync.BackslashBreaksIdempotence | apps/web/src/lib/traces/advanced-filter-sync.ts:328-349 | a legacy service with a backslash changes on a second normalisation (the quoting of lines 88-90) |
| FilterNumbers.NumberRoundTrip | apps/web/src/lib/traces/advanced-filter-sync.ts:75-86 | `Number(String(d))` is `d` for every finite decimal, as printed at lines 255-261 |
| FilterNumbers.NumberTextIsTrimmed | apps/web/src/lib/traces/advanced-filter-sync.ts:255-261 | a printed duration is non-empty, has no white space and starts with no quote, so it is read as a bare token |
| FilterNumbers.WordIsNotANumber | apps/web/src/lib/traces/advanced-filter-sync.ts:75-86 | example: a word is not a number, so `min_duration_ms = nope` is incomplete |
| FilterNumbers.CanonicalIsUnique | apps/web/src/lib/traces/advanced-filter-sync.ts:255-261 | two canonical decimals of the same value are the same decimal |
| TraceLayout.CollectDefaultExpanded | apps/web/src/components/traces/use-trace-timeline.ts:13-23 | the recursive collection returns the default-expanded id set |
| TraceLayout.DefaultExpandedIsExpandable | apps/web/src/components/traces/use-trace-timeline.ts:13-23 | the default-expanded ids are the spans with children at depth below the limit |
| TraceLayout.CountDescendants | apps/web/src/components/traces/use-trace-timeline.ts:25-31 | the recursive count returns the descendant count |
| TraceLayout.DescendantsIsSubtreeSize | apps/web/src/components/traces/use-trace-timeline.ts:25-31 | a span's descendant count is its subtree size less one |
| TraceLayout.BarCollector.constructor | apps/web/src/components/traces/use-trace-timeline.ts:33-37 | a collector starts with no bars at row 0 |
| TraceLayout.BarCollector.VisitChildren | apps/web/src/components/traces/use-trace-timeline.ts:59-63 | visiting the children in turn appends the bars of the whole forest and advances the row counter by their number |
| TraceLayout.BarCollector.Visit | apps/web/src/components/traces/use-trace-timeline.ts:40-64 | `visit` appends the span's bars and advances the row counter by their number |
| TraceLayout.LayoutSpans | apps/web/src/components/traces/use-trace-timeline.ts:33-71 | the layout returns the bars of the specification, and `totalRows` is their number |
| TraceLayout.LayoutRowsAreIndices | apps/web/src/components/traces/use-trace-timeline.ts:33-71 | bar `i` sits in row `i`; no roots give no bars |
| TraceLayout.LayoutBarFields | apps/web/src/components/traces/use-trace-timeline.ts:37-66 | a bar is collapsed iff it has children and is not expanded; a collapsed bar counts its descendants; times, depth, parent and error flag come from the span |
| TraceLayout.LayoutConservation | apps/web/src/components/traces/use-trace-timeline.ts:33-71 | the bars plus the descendants hidden behind collapsed bars number the spans of the tree |
| TraceLayout.FullyExpandedShowsAll | apps/web/src/components/traces/use-trace-timeline.ts:33-71 | with every parent expanded, the bars list every span in pre-order |
| TraceLayout.DefaultExpansionShowsAll | apps/web/src/components/traces/use-trace-timeline.ts:13-23 | with the default unlimited depth, the initial layout shows every span in pre-order (the initial state of lines 302-305) |
| TraceLayoutOrder.LayoutParentsFirst | apps/web/src/components/traces/use-trace-timeline.ts:33-71 | in a well-formed tree the bar ids are distinct and a parent's bar comes before its children's |
| TraceReducer.ClampViewport | apps/web/src/components/traces/use-trace-timeline.ts:75-97 | the clamp follows the specification and returns a valid window over the padded trace |
| TraceReducer.ClampDuration | apps/web/src/components/traces/use-trace-timeline.ts:80-84 | the clamped duration lies between 0.1 % and 110 % of the trace |
| TraceReducer.ClampFixesExactlyValid | apps/web/src/components/traces/use-trace-timeline.ts:75-97 | a window is left unchanged exactly when it is already valid |
| TraceReducer.ClampIdempotent | apps/web/src/components/traces/use-trace-timeline.ts:75-97 | clamping twice is clamping once |
| TraceReducer.ZoomKeepsFocalPoint | apps/web/src/components/traces/use-trace-timeline.ts:107-121 | ZOOM divides the duration by the factor and keeps the centre at the same fraction of the window |
| TraceReducer.PanShifts | apps/web/src/components/traces/use-trace-timeline.ts:123-137 | PAN shifts both ends by the delta and keeps the duration, before clamping |
| TraceReducer.ZoomToSpanPads | apps/web/src/components/traces/use-trace-timeline.ts:138-151 | ZOOM_TO_SPAN pads the span by 10 % on each side, then clamps |
| TraceReducer.ZoomToFitExact | apps/web/src/components/traces/use-trace-timeline.ts:152-159 | ZOOM_TO_FIT shows the trace with 2 % padding, valid, and changes nothing else |
| TraceReducer.SetViewportUnclamped | apps/web/src/components/traces/use-trace-timeline.ts:104-105 | SET_VIEWPORT stores the viewport as given |
| TraceReducer.SetViewportCanLeaveValid | apps/web/src/components/traces/use-trace-timeline.ts:104-105 | so SET_VIEWPORT can leave the viewport outside the clamp bounds |
| TraceReducer.FocusNextSteps | apps/web/src/components/traces/use-trace-timeline.ts:164-170 | FOCUS_NEXT moves to 0 from no focus, else one step forward capped at `maxIndex` |
| TraceReducer.FocusNextIgnoresEmpty | apps/web/src/components/traces/use-trace-timeline.ts:164-170 | with no focus, FOCUS_NEXT gives index 0 even when there are no rows |
| TraceReducer.FocusPrevSteps | apps/web/src/components/traces/use-trace-timeline.ts:172-178 | FOCUS_PREV moves to 0 from no focus, else one step back, never below 0 |
| TraceReducer.FocusStaysInRange | apps/web/src/components/traces/use-trace-timeline.ts:161-178 | a focus within `[0, maxIndex]` stays within it after FOCUS_NEXT and FOCUS_PREV |
| TraceReducer.ToggleTwiceRestores | apps/web/src/components/traces/use-trace-timeline.ts:182-191 | TOGGLE_COLLAPSE flips one id only, and toggling twice restores the state |
| TraceReducer.ExpandCollapseAll | apps/web/src/components/traces/use-trace-timeline.ts:192-196 | EXPAND_ALL sets exactly the given ids; COLLAPSE_ALL empties the set |
| TraceReducer.ActionsChangeOnlyTheirField | apps/web/src/components/traces/use-trace-timeline.ts:99-200 | each action changes only its own part of the state |
| TraceReducer.ReducePreservesValid | apps/web/src/components/traces/use-trace-timeline.ts:99-200 | every action keeps a valid viewport valid, given valid stored viewports |
| TraceReducer.InitialIsZoomToFit | apps/web/src/components/traces/use-trace-timeline.ts:307-332 | the initial viewport is the ZOOM_TO_FIT window, valid, and RESET installs the initial state |
| TraceTicks.NiceIntervalsIncreasing | apps/web/src/components/traces/use-trace-timeline.ts:205-214 | the 24 nice intervals strictly increase and end at 60000 |
| TraceTicks.NiceIntervalIsSmallestCover | apps/web/src/components/traces/use-trace-timeline.ts:224-231 | the interval is the smallest nice interval at least the raw interval, else the last one |
| TraceTicks.PickInterval | apps/web/src/components/traces/use-trace-timeline.ts:225-231 | the search loop picks the interval of the specification |
| TraceTicks.TickInterval | apps/web/src/components/traces/use-trace-timeline.ts:221-231 | the interval is positive |
| TraceTicks.StepTicks | apps/web/src/components/traces/use-trace-timeline.ts:233-238 | the stepping loop produces the specified ticks |
| TraceTicks.ComputeTimeAxisTicks | apps/web/src/components/traces/use-trace-timeline.ts:216-241 | the method returns the ticks of the specification |
| TraceTicks.TicksAreMultiplesInWindow | apps/web/src/components/traces/use-trace-timeline.ts:233-238 | the ticks are consecutive multiples of the interval inside the window, strictly increasing |
| TraceTicks.TicksComplete | apps/web/src/components/traces/use-trace-timeline.ts:233-238 | every multiple of the interval inside the window is a tick |
| TraceTicks.TickCountBound | apps/web/src/components/traces/use-trace-timeline.ts:216-241 | there are at most `targetTickCount + 1` ticks when a nice interval covers the raw one |
| TraceSearch.ComputeSearchMatches | apps/web/src/components/traces/use-trace-timeline.ts:245-262 | the loop returns the matching-id specification |
| TraceSearch.SearchActiveIff | apps/web/src/components/traces/use-trace-timeline.ts:355 | the search is active exactly when the query holds a non-white-space character |
| TraceSearch.SearchMatchesCharacterised | apps/web/src/components/traces/use-trace-timeline.ts:245-262 | a blank query matches nothing; otherwise an id matches iff a bar of that id has the lowered query in its lowered name, service or id |
| TraceSearch.SearchIgnoresCase | apps/web/src/components/traces/use-trace-timeline.ts:250-256 | queries equal after lowering match the same spans |
| TraceSearch.SingleBarMatches | apps/web/src/components/traces/use-trace-timeline.ts:245-262 | a single bar matches exactly when the search is active and the bar matches |
| TraceSearch.LeadingSpaceIsSignificant | apps/web/src/components/traces/use-trace-timeline.ts:249-256 | example: the query is trimmed only for the blank test: `" db"` does not match a span named `db` |
| TimelineRows.VisibleBarsMembers | apps/web/src/components/traces/trace-timeline-rows.tsx:51-54 | the visible bars are exactly the bars whose row is in the window |
| TimelineRows.RowsFitTotalHeight | apps/web/src/components/traces/trace-timeline-rows.tsx:40-41 | every row fits in the total height, and the last one ends exactly there |
| TimelineRows.WindowCoversVisibleRows | apps/web/src/components/traces/trace-timeline-rows.tsx:45-49 | every row that overlaps the scrolled container lies in the window |
| TimelineRows.WindowSize | apps/web/src/components/traces/trace-timeline-rows.tsx:45-49 | the window holds at most the rows on screen plus twice the overscan |
| TimelineRows.VisibleBarsIsSlice | apps/web/src/components/traces/use-trace-timeline.ts:373-384 | over a layout, the visible bars are the contiguous slice of the window |
| TimelineRows.PercentsPlaceBar | apps/web/src/components/traces/use-trace-timeline.ts:358-370 | left plus width percent is the bar's end position; a bar inside the viewport lies within 0–100 %, and the full viewport is 0 % and 100 % |
| TimelineRows.RenderRows | apps/web/src/components/traces/trace-timeline-rows.tsx:107-120 | one rendered row per visible bar (the row props of lines 51-54) |
| TimelineRows.RenderedFocus | apps/web/src/components/traces/trace-timeline-rows.tsx:117-120 | a rendered row is focused exactly when its row is the focused index |
| TimelineRows.FocusedRowIsUnique | apps/web/src/components/traces/trace-timeline-rows.tsx:117-120 | over a layout at most one row is focused, none without a focus, and it shows the focused bar |
| TimelineRows.SearchFlagIsMembership | apps/web/src/components/traces/trace-timeline-rows.tsx:117-120 | a row is a search match iff its id is among the matches, and selected iff its id is the selected one |
| TimelineConnectors.BuildParentRowMap | apps/web/src/components/traces/trace-timeline-connectors.tsx:22-28 | the loop builds the id-to-row map of the specification |
| TimelineConnectors.RowMapLastWins | apps/web/src/components/traces/trace-timeline-connectors.tsx:22-28 | the map holds the ids of the bars, each with the row of the last bar of that id |
| TimelineConnectors.RowMapOfDistinct | apps/web/src/components/traces/trace-timeline-connectors.tsx:22-28 | with distinct ids, every bar's id maps to its own row |
| TimelineConnectors.ComputeConnectors | apps/web/src/components/traces/trace-timeline-connectors.tsx:31-79 | the loop returns the connectors of the specification for the window with overscan 2 |
| TimelineConnectors.ConnectorsExactlyEmitting | apps/web/src/components/traces/trace-timeline-connectors.tsx:39-79 | a connector is drawn exactly for each bar that passes the guards, and only for those |
| TimelineConnectors.ConnectorIdsDistinct | apps/web/src/components/traces/trace-timeline-connectors.tsx:39-79 | with distinct bar ids, the connector keys are distinct |
| TimelineConnectors.ConnectorGeometry | apps/web/src/components/traces/trace-timeline-connectors.tsx:47-55 | the vertical line is 8 px left of the indent, the elbow 6 px long, and it runs down iff the parent row is above |
| TimelineConnectors.LayoutConnectorsRunDown | apps/web/src/components/traces/trace-timeline-connectors.tsx:39-79 | over a well-formed layout every connector runs downward |
| TimelineMinimap.IndexOf | apps/web/src/components/traces/trace-timeline-minimap.tsx:41 | `services.indexOf` gives the first position of the name, or -1 |
| TimelineMinimap.MinimapCollector.constructor | apps/web/src/components/traces/trace-timeline-minimap.tsx:32-33 | a collector starts with no spans and depth 0 |
| TimelineMinimap.MinimapCollector.Visit | apps/web/src/components/traces/trace-timeline-minimap.tsx:35-55 | `visit` appends one entry per span of the subtree in pre-order and raises the maximum depth |
| TimelineMinimap.MinimapCollector.VisitChildren | apps/web/src/components/traces/trace-timeline-minimap.tsx:54 | visiting the children in order appends the entries of their pre-order forest and raises the maximum depth over it |
| TimelineMinimap.CollectMinimapSpans | apps/web/src/components/traces/trace-timeline-minimap.tsx:26-59 | the entries and maximum depth of the specification |
| TimelineMinimap.MinimapCoversTree | apps/web/src/components/traces/trace-timeline-minimap.tsx:26-59 | one entry per span, in pre-order, with its id and depth; `maxDepth` is the greatest depth, or 0 |
| TimelineMinimap.EntryWithinBounds | apps/web/src/components/traces/trace-timeline-minimap.tsx:47-48 | an entry's left is at least 0 and its right edge at most 100 % |
| TimelineMinimap.UnknownServiceHasNoHue | apps/web/src/components/traces/trace-timeline-minimap.tsx:41-51 | a non-error span of a service not in the list gets no hue |
| TimelineMinimap.ViewportRectPlacesWindow | apps/web/src/components/traces/trace-timeline-minimap.tsx:85-87 | the rectangle's right edge is the viewport end; the whole trace is 0 % and 100 % |
| TimelineMinimap.ClassifyZones | apps/web/src/components/traces/trace-timeline-minimap.tsx:96-124 | left-edge band first, then right-edge band, then pan; outside the bands the click jumps |
| TimelineMinimap.JumpCentresOnClick | apps/web/src/components/traces/trace-timeline-minimap.tsx:124-132 | a jump keeps the duration and puts the viewport's centre at the clicked time |
| TimelineMinimap.JumpExample | apps/web/src/components/traces/trace-timeline-minimap.tsx:124-132 | example: a click at 75 % of a 1 s trace moves a 100 ms window to 700–800 ms |
| TimelineMinimap.DragKeepsItsEdge | apps/web/src/components/traces/trace-timeline-minimap.tsx:140-167 | pan shifts the window; resize keeps the other edge and at least 1 % of the trace |
| TimelineMinimap.PanWithoutTravel | apps/web/src/components/traces/trace-timeline-minimap.tsx:148-153 | a pan with no mouse travel returns the starting viewport |
| TimelineMinimap.MinimapDrag.constructor | apps/web/src/components/traces/trace-timeline-minimap.tsx:71-75 | no drag in progress at first |
| TimelineMinimap.MinimapDrag.MouseDown | apps/web/src/components/traces/trace-timeline-minimap.tsx:89-133 | a click on the window starts a drag of its kind; a click outside jumps and keeps the drag state |
| TimelineMinimap.MinimapDrag.MouseMove | apps/web/src/components/traces/trace-timeline-minimap.tsx:140-167 | with a drag in progress a move reports the dragged viewport; without one, nothing |
| TimelineMinimap.MinimapDrag.MouseUp | apps/web/src/components/traces/trace-timeline-minimap.tsx:169-171 | mouse up ends the drag |
| ChatTabs.DefaultState | apps/web/src/hooks/use-chat-tabs.ts:27-30 | one "New Chat" tab with id `default`, active |
| ChatTabs.LoadState | apps/web/src/hooks/use-chat-tabs.ts:17-31 | stored tabs are used when non-empty with an active id; otherwise the default state |
| ChatTabs.LoadFallsBack | apps/web/src/hooks/use-chat-tabs.ts:17-31 | missing, empty or activeless storage gives the default state |
| ChatTabs.InitialState | apps/web/src/hooks/use-chat-tabs.ts:42-48 | the initial tab id becomes active exactly when it is given and names an existing tab |
| ChatTabs.FindIndex | apps/web/src/hooks/use-chat-tabs.ts:70 | `findIndex` gives -1 exactly when no tab has the id, else the first such tab |
| ChatTabs.WithoutMembers | apps/web/src/hooks/use-chat-tabs.ts:72 | the filter keeps exactly the tabs of other ids |
| ChatTabs.CreateTabAppends | apps/web/src/hooks/use-chat-tabs.ts:54-65 | a new "New Chat" tab is appended and becomes active |
| ChatTabs.CreateTabKeepsDistinct | apps/web/src/hooks/use-chat-tabs.ts:54-65 | a fresh id keeps the tab ids distinct |
| ChatTabs.CloseTabNoOp | apps/web/src/hooks/use-chat-tabs.ts:69-71 | closing the last tab or an unknown id changes nothing |
| ChatTabs.CloseTabKeepsValid | apps/web/src/hooks/use-chat-tabs.ts:67-80 | for any valid state, repeated ids included: the result keeps some tab with the active id naming one; it fails only when the active tab is closed and every tab has that id; when it acts the tabs are the filter's result and an active tab other than the closed one stays active |
| ChatTabs.CloseTabRemoves | apps/web/src/hooks/use-chat-tabs.ts:67-80 | with distinct ids: closing removes exactly the tab at its position; the active tab moves to the same position, or the last, only if it was the one closed; the ids stay distinct |
| ChatTabs.SetActiveTab | apps/web/src/hooks/use-chat-tabs.ts:82-84 | the tabs stay and the id becomes active; the same id returns the state itself |
| ChatTabs.SetActiveTabUnchecked | apps/web/src/hooks/use-chat-tabs.ts:82-84 | the id is not checked, so an unknown id can become active |
| ChatTabs.RenameTabOnlyTitles | apps/web/src/hooks/use-chat-tabs.ts:86-91 | renaming changes the titles of that id only and keeps ids, times, order and the active tab |
| QuickStart.ReadState | apps/web/src/hooks/use-quick-start.ts:26-36 | the stored fields override the defaults one by one; no storage gives the defaults |
| QuickStart.CompleteStepSets | apps/web/src/hooks/use-quick-start.ts:53-62 | completing marks that step only, and is idempotent |
| QuickStart.UncompleteStepRemoves | apps/web/src/hooks/use-quick-start.ts:64-71 | uncompleting removes that step's key only |
| QuickStart.StepKeysDistinct | apps/web/src/hooks/use-quick-start.ts:6-10 | helper fact: the three step ids are distinct keys |
| QuickStart.OtherKeysIgnored | apps/web/src/hooks/use-quick-start.ts:114-116 | keys that are not step ids do not count |
| QuickStart.CompletedCount | apps/web/src/hooks/use-quick-start.ts:114-116 | the count is the number of the three steps marked true |
| QuickStart.CountMoves | apps/web/src/hooks/use-quick-start.ts:53-71 | completing an open step adds one; uncompleting a done step takes one (the count of lines 114-116) |
| QuickStart.ProgressPercent | apps/web/src/hooks/use-quick-start.ts:117-118 | the progress is 0, 33, 67 or 100; 0 iff nothing is done, 100 iff everything is |
| QuickStart.IsCompleteIff | apps/web/src/hooks/use-quick-start.ts:120 | complete exactly when all three steps are done |
| QuickStart.ResetIsDefault | apps/web/src/hooks/use-quick-start.ts:103-107 | reset gives the default state: no steps, not dismissed, no framework |
| QuickStart.DismissOnlyFlag | apps/web/src/hooks/use-quick-start.ts:87-101 | dismiss and undismiss change only the flag |
| BillingUsage.AggregateIsSum | apps/web/src/lib/billing/usage.ts:11-20 | each total is the sum of that size over the services, divided by 1000; no services give zero |
| BillingUsage.AggregateAdditive | apps/web/src/lib/billing/usage.ts:11-20 | the usage of two lists together is the sum of their usages |
| BillingUsage.UsagePercentageCases | apps/web/src/lib/billing/usage.ts:22-26 | unlimited gives 0, a zero limit 100, otherwise used/limit·100, monotone in the use |
| BillingUsage.FormatUsageUnits | apps/web/src/lib/billing/usage.ts:28-33 | the unit is chosen by the thresholds 1, 1000 and 1000000 KB, and the amount is scaled to it |
| SyncUsage.AggregateUsage | apps/api/src/autumn/sync-usage.ts:14-34 | the loop returns the usage of the specification |
| SyncUsage.EmptyIsZero | apps/api/src/autumn/sync-usage.ts:14-34 | no rows give zero usage |
| SyncUsage.UsageIgnoresOrder | apps/api/src/autumn/sync-usage.ts:19-27 | the usage does not depend on the order of the rows |
| SyncUsage.UsageNonNegative | apps/api/src/autumn/sync-usage.ts:19-34 | rows of non-negative sizes give non-negative usage |
| TimezoneFormat.MatchTinybird | apps/web/src/lib/timezone-format.ts:5 | a match splits the text into date, separator, time and an optional digit fraction that rebuild it |
| TimezoneFormat.Milliseconds | apps/web/src/lib/timezone-format.ts:19 | the fraction is cut or zero-padded to exactly 3 digits |
| TimezoneFormat.OtherTextOnlyTrimmed | apps/web/src/lib/timezone-format.ts:7-13 | text that is not a Tinybird timestamp is only trimmed |
| TimezoneFormat.TinybirdTextRewritten | apps/web/src/lib/timezone-format.ts:14-20 | a Tinybird timestamp becomes `dateTtimeZ`, with 3 fraction digits when it has a fraction |
| TimezoneFormat.EndingInZNeverMatches | apps/web/src/lib/timezone-format.ts:5 | a text ending in `Z` never matches the pattern |
| TimezoneFormat.NormalizeIdempotent | apps/web/src/lib/timezone-format.ts:7-21 | normalising twice is normalising once |
| TimezoneFormat.FractionCutToMilliseconds | apps/web/src/lib/timezone-format.ts:19-20 | example: `… 12:00:00.123456` becomes `…T12:00:00.123Z` |
| TimezonePreference.GetBrowserTimeZone | apps/web/src/atoms/timezone-preference-atoms.ts:21-32 | the resolved zone when it is non-empty and valid, else `UTC` |
| TimezonePreference.BlankNeverValid | apps/web/src/atoms/timezone-preference-atoms.ts:10-11 | a blank zone is never valid |
| TimezonePreference.BrowserZoneUsable | apps/web/src/atoms/timezone-preference-atoms.ts:21-32 | the browser zone is `UTC` or a valid zone |
| TimezonePreference.ResolveCases | apps/web/src/atoms/timezone-preference-atoms.ts:34-44 | the system value and invalid zones resolve to the browser zone, a valid zone to itself |
| TimezonePreference.NormalizeStoredTimezoneValue | apps/web/src/atoms/timezone-preference-atoms.ts:46-68 | the stored value normalises to the system value or to a valid zone |
| TimezonePreference.MissingIsSystem | apps/web/src/atoms/timezone-preference-atoms.ts:49-51 | a missing, empty or system value is the system value |
| TimezonePreference.JsonDecodedFirst | apps/web/src/atoms/timezone-preference-atoms.ts:53-67 | a JSON string is decoded before it is checked |
| TimezonePreference.RawValueChecked | apps/web/src/atoms/timezone-preference-atoms.ts:53-67 | a value that is not a JSON string is checked as it is |
| TimezonePreference.RefusedZoneFallsBack | apps/web/src/atoms/timezone-preference-atoms.ts:34-67 | a zone the runtime refuses is stored as the system value and resolves to the browser zone |
| RedirectUtils.SplitJoin | apps/web/src/lib/redirect-utils.ts:16 | splitting on a character and joining with it gives the text back |
| RedirectUtils.SplitPiecesLackSeparator | apps/web/src/lib/redirect-utils.ts:16 | no piece of a split contains the separator |
| RedirectUtils.PlusToSpace | apps/web/src/lib/redirect-utils.ts:16 | `+` decodes to a space and every other character is kept |
| RedirectUtils.Pathname | apps/web/src/lib/redirect-utils.ts:9-14 | the path is the prefix before the first `?`, or the whole URL when there is none |
| RedirectUtils.Query | apps/web/src/lib/redirect-utils.ts:14-16 | path and query rebuild the URL; the query is empty iff there is no `?`, and starts with `?` otherwise |
| RedirectUtils.ParseRedirectUrl | apps/web/src/lib/redirect-utils.ts:5-21 | the loop returns the path and the search map of the specification |
| RedirectUtils.NoQueryMeansNoSearch | apps/web/src/lib/redirect-utils.ts:10-12 | without `?` the path is the URL and the search is empty |
| RedirectUtils.FillSearch | apps/web/src/lib/redirect-utils.ts:15-19 | the loop leaves the record the pairs spell out, each assignment overwriting an earlier one and an assignment to `__proto__` changing nothing |
| RedirectUtils.LastWins | apps/web/src/lib/redirect-utils.ts:17-19 | the map holds exactly the parameter names other than `__proto__`, each with its last value |
| RedirectUtils.SingleParameter | apps/web/src/lib/redirect-utils.ts:5-21 | example: `path?name=value` gives that path and the one decoded pair, or no key when the name is `__proto__` |
| RedirectUtils.ProtoParameterIgnored | apps/web/src/lib/redirect-utils.ts:17-19 | example: `path?__proto__=value` gives that path and an empty search, since the plain-object assignment goes to the prototype setter |
| WidgetProposal.AsRecord | apps/web/src/components/dashboard-builder/ai/normalize-widget-proposal.ts:26-29 | only a non-null non-array object is a record |
| WidgetProposal.ToMetricType | apps/web/src/components/dashboard-builder/ai/normalize-widget-proposal.ts:35-42 | a known metric type is kept, anything else becomes the fallback |
| WidgetProposal.GroupByTokenFallback | apps/web/src/components/dashboard-builder/ai/normalize-widget-proposal.ts:44-60 | a non-string or blank group-by is `service.name`; unknown strings pass |
| WidgetProposal.GroupByTokenTable | apps/web/src/components/dashboard-builder/ai/normalize-widget-proposal.ts:46-56 | the five known tokens map to their query-builder names |
| WidgetProposal.ToQueryGroupByToken | apps/web/src/components/dashboard-builder/ai/normalize-widget-proposal.ts:44-60 | the token is never blank |
| WidgetProposal.ToLegacyQuery | apps/web/src/components/dashboard-builder/ai/normalize-widget-proposal.ts:62-66 | a legacy query exists exactly for the sources traces, logs and metrics |
| WidgetProposal.LegacySourceAndStep | apps/web/src/components/dashboard-builder/ai/normalize-widget-proposal.ts:84-91 | the query takes the source; a positive finite bucket becomes the step interval text, else the draft's |
| WidgetProposal.LegacyMetricFields | apps/web/src/components/dashboard-builder/ai/normalize-widget-proposal.ts:69-80 | aggregation, metric name and metric type come from the params when usable, else from the draft |
| WidgetProposal.LegacyGroupBy | apps/web/src/components/dashboard-builder/ai/normalize-widget-proposal.ts:93-97 | the group-by token is set, and the add-on flag is on unless it is `none` (the token of line 74) |
| WidgetProposal.LegacyKeepsDraft | apps/web/src/components/dashboard-builder/ai/normalize-widget-proposal.ts:82-83 | every other field of the draft is kept |
| WidgetProposal.FiveMinuteStep | apps/web/src/components/dashboard-builder/ai/normalize-widget-proposal.ts:90 | example: a bucket of 300 prints as `"300"` |
| WidgetProposal.ValidateMetricsQueries | apps/web/src/components/dashboard-builder/ai/normalize-widget-proposal.ts:103-122 | the result is nothing or the metrics message |
| WidgetProposal.ValidateIff | apps/web/src/components/dashboard-builder/ai/normalize-widget-proposal.ts:103-122 | validation passes exactly when every metrics query has a non-blank name and a known type |
| WidgetProposal.NormalizeAiWidgetProposal | apps/web/src/components/dashboard-builder/ai/normalize-widget-proposal.ts:124-179 | a blocked result keeps the input with one of the two messages; a valid one keeps visualization and display |
| WidgetProposal.OtherEndpointPassesThrough | apps/web/src/components/dashboard-builder/ai/normalize-widget-proposal.ts:127-129 | any other endpoint is valid and unchanged |
| WidgetProposal.QueriesSource | apps/web/src/components/dashboard-builder/ai/normalize-widget-proposal.ts:131-138 | an array of queries is used as is; otherwise there is one legacy query exactly for a known source |
| WidgetProposal.MessagesDiffer | apps/web/src/components/dashboard-builder/ai/normalize-widget-proposal.ts:112 | helper fact: the two block messages differ (lines 112 and 143) |
| WidgetProposal.MissingQueriesBlocked | apps/web/src/components/dashboard-builder/ai/normalize-widget-proposal.ts:140-146 | blocked for missing queries exactly when there are none |
| WidgetProposal.MetricsBlocked | apps/web/src/components/dashboard-builder/ai/normalize-widget-proposal.ts:148-155 | with queries, blocked for metrics exactly when some metrics query is incomplete |
| WidgetProposal.ValidOutput | apps/web/src/components/dashboard-builder/ai/normalize-widget-proposal.ts:157-178 | a valid result's params hold the queries, an array of formulas, an object comparison and a boolean debug flag |
| WidgetProposal.LegacyMetricsPasses | apps/web/src/components/dashboard-builder/ai/normalize-widget-proposal.ts:124-179 | a complete legacy metrics chart becomes one metrics query and is valid (the legacy conversion of lines 62-101) |
| WidgetProposal.EmptyMetricNameBlocks | apps/web/src/components/dashboard-builder/ai/normalize-widget-proposal.ts:108-113 | a metrics query with an empty name is blocked with the metrics message |
| ErrorFacets.ItemOf | apps/web/src/api/tinybird/errors.ts:114 | an item is the row's name and count |
| ErrorFacets.TransformErrorsFacets | apps/web/src/api/tinybird/errors.ts:108-129 | the loop returns for each facet the items of its rows |
| ErrorFacets.FacetNamesDiffer | apps/web/src/api/tinybird/errors.ts:116-124 | helper fact: the three facet names differ |
| ErrorFacets.EveryRowOnce | apps/web/src/api/tinybird/errors.ts:113-126 | the three lists and the dropped rows together count every row once |
| ErrorFacets.ItemsOfTypeAppend | apps/web/src/api/tinybird/errors.ts:113-126 | sorting two batches is sorting their concatenation |
| ErrorFacets.ItemsInRowOrder | apps/web/src/api/tinybird/errors.ts:113-126 | each list holds the items of exactly its facet's rows, in row order |
| ErrorFacets.RowIsListed | apps/web/src/api/tinybird/errors.ts:113-126 | every row's item is in its facet's list |
| ErrorFacets.OnlyOwnRows | apps/web/src/api/tinybird/errors.ts:113-126 | a list holds only items of rows of its facet |

## Left out

- FilterNumbers.ParseNumber: the hexadecimal, binary, octal and exponent forms of `Number(...)` (`0x10`, `1e3`) are not modelled. The model reads an optional sign, digits and one decimal point, and refuses everything else. `Infinity` text is refused as the source refuses it, since it is not finite.
- `String(...)`: exponent notation for very large or very small numbers is not modelled. Double precision and its rounding are not modelled either. Numbers are exact decimals.
- `toFixed` in `formatUsage` is not modelled. `BillingUsage.FormatUsage` returns the unit and the exact scaled amount, not the rounded text.
- Time arithmetic uses exact reals, not doubles. This includes the float drift of `t += interval` in the tick loop, which the model computes as exact multiples.
- `new Date(...)` parsing of span start times and of the trace start is left out. Times are given in milliseconds.
- `toValidDate`, `resolveTimeZone`, `formatTimestampInTimezone` and `formatTimeInTimezone` are `Intl` and `Date` formatting.
- `Intl` time-zone acceptance, `JSON.parse` and percent-decoding become function parameters. `localStorage`, React state, effects and rendering are left out. So is the `autumn.track` network call of `syncOrgUsage`.
- TraceReducer.ZoomKeepsFocalPoint: requires a non-zero zoom factor and viewport duration. The source divides anyway and gets `Infinity` or `NaN`, which reals cannot express; the same holds for every division below.
- TraceReducer.ReducePreservesValid: requires a non-zero factor for ZOOM.
- TraceTicks.ComputeTimeAxisTicks: requires a positive tick target (the source's default is 6).
- TimelineRows.PercentsPlaceBar: requires a positive visible duration; `TimelineRows.RenderRows` requires a non-zero one.
- TimelineMinimap.CollectMinimapSpans: requires a non-zero trace duration, as do `MinimapCollector` and `EntryWithinBounds`.
- TimelineMinimap.ViewportRectPlacesWindow: requires a non-zero trace duration.
- TimelineMinimap.MinimapDrag.MouseDown: requires a non-zero minimap width and trace duration.
- TimelineMinimap.MinimapDrag.MouseMove: requires a non-zero minimap width, as does `DragKeepsItsEdge`.
- ChatTabs.CloseTab: it returns an `Option`. The result is `None` only when the active tab is closed and every tab has the closed id; the source would read `newTabs[-1].id` there and throw.
- ChatTabs.CloseTabRemoves: the positional shape (one tab removed at its index, the new active tab at that index) is stated only for distinct ids, which stored state does not guarantee; with repeated ids the filter removes every tab with the id, and ChatTabs.CloseTabKeepsValid states that general case.
- SyncUsage.AggregateUsage: `Number(row.x ?? 0)` is taken from an integer or an absent value. `bigint` precision loss is not modelled.
- WidgetProposal.ToLegacyQuery: the query-builder draft factory, the metric-type list and `formatFiltersAsWhereClause` are parameters. Object key order is not modelled, because records are maps. Spreading a non-object value gives `{}`; spreading an array or a string would give index keys in the source, and that is not modelled.
- White space is the fixed set of characters JavaScript's `trim` and `\s` use. Lowercasing covers ASCII letters only.
- RedirectUtils.FillSearch: the record is a map from names to values; of the names a plain object treats specially only `__proto__` is modelled (its assignment is dropped); other inherited names such as `constructor` become ordinary keys, as they do in the source.
- RedirectUtils.Search: `URLSearchParams` decoding is a parameter. Only `+` is modelled as a space.
- The `bgColor` strings of the minimap are left out. The model keeps the hue (or its absence) and the error flag.

## Findings

| source | as written | input that shows it | evidently intended | confidence | as-written member | corrected member |
|---|---|---|---|---|---|---|
| apps/web/src/lib/traces/advanced-filter-sync.ts:88-90 | `quoteValue` doubles every backslash, but the clause parser (lines 123-133) reads a quoted value verbatim and never unescapes | legacy `services: ["a\\b"]` normalises to `service.name = "a\\\\b"`, which parses back as `a\\\\b`, so each normalisation doubles the backslashes again | printing and parsing agree, so a value survives the round trip and normalisation is idempotent | not executed | AdvancedFilterSync.BackslashIsDoubled | AdvancedFilterSync.CorrectedRoundTrip |
