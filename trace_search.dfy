/** Span search: the ids of the bars whose name, service or id contains the query, ignoring ASCII case. */
module TraceSearch {
  import opened JsText
  import opened TraceTypes

  /** The bar's span name, service name or span id, lowercased, contains `q`. */
  predicate BarMatches(b: TimelineBar, q: string) {
    Includes(Lower(b.span.spanName), q) ||
    Includes(Lower(b.span.serviceName), q) ||
    Includes(Lower(b.span.spanId), q)
  }

  /** `isSearchActive`: the trimmed query is non-empty. */
  predicate IsSearchActive(query: string) {
    |Trim(query)| > 0
  }

  /**
   * The set `computeSearchMatches(bars, query)` returns: nothing for a blank
   * query, otherwise the ids of the matching bars. The query is lowercased
   * but not trimmed.
   */
  function SearchMatches(bars: seq<TimelineBar>, query: string): set<string> {
    if !IsSearchActive(query) then {}
    else set b | b in bars && BarMatches(b, Lower(query)) :: b.span.spanId
  }

  /** `computeSearchMatches`: an early return for a blank query, then one pass over the bars. */
  method ComputeSearchMatches(bars: seq<TimelineBar>, query: string) returns (matches: set<string>)
    ensures matches == SearchMatches(bars, query)
  {
    if Trim(query) == [] {
      return {};
    }
    var q := Lower(query);
    matches := {};
    for i := 0 to |bars|
      invariant matches == set b | b in bars[..i] && BarMatches(b, q) :: b.span.spanId
    {
      var bar := bars[i];
      assert bars[..i + 1] == bars[..i] + [bar];
      if Includes(Lower(bar.span.spanName), q) ||
         Includes(Lower(bar.span.serviceName), q) ||
         Includes(Lower(bar.span.spanId), q)
      {
        matches := matches + {bar.span.spanId};
      }
    }
    assert bars[..|bars|] == bars;
  }

  /** The search is active iff the query holds a non-white-space character. */
  lemma SearchActiveIff(query: string)
    ensures IsSearchActive(query) <==> exists i :: 0 <= i < |query| && !IsWs(query[i])
  {
    TrimEmptyIff(query);
  }

  /**
   * A blank query matches nothing; otherwise an id is matched iff some bar
   * carrying it matches the lowercased query.
   */
  lemma SearchMatchesCharacterised(bars: seq<TimelineBar>, query: string, id: string)
    ensures AllWs(query) ==> SearchMatches(bars, query) == {}
    ensures !AllWs(query) ==>
              (id in SearchMatches(bars, query) <==>
               exists i :: 0 <= i < |bars| && bars[i].span.spanId == id && BarMatches(bars[i], Lower(query)))
  {
    TrimEmptyIff(query);
    if !AllWs(query) && id in SearchMatches(bars, query) {
      var b :| b in bars && BarMatches(b, Lower(query)) && b.span.spanId == id;
      var i :| 0 <= i < |bars| && bars[i] == b;
    }
  }

  lemma LowerKeepsWs(s: string)
    ensures AllWs(Lower(s)) <==> AllWs(s)
  {
    assert forall i :: 0 <= i < |s| ==> (IsWs(Lower(s)[i]) <==> IsWs(s[i]));
  }

  /** Matching ignores ASCII case: queries with the same lowercase form find the same ids. */
  lemma SearchIgnoresCase(bars: seq<TimelineBar>, q1: string, q2: string)
    requires Lower(q1) == Lower(q2)
    ensures SearchMatches(bars, q1) == SearchMatches(bars, q2)
  {
    LowerKeepsWs(q1);
    LowerKeepsWs(q2);
    TrimEmptyIff(q1);
    TrimEmptyIff(q2);
  }

  /** On one bar the search finds its id or nothing. */
  lemma SingleBarMatches(bar: TimelineBar, query: string)
    ensures SearchMatches([bar], query) ==
            if IsSearchActive(query) && BarMatches(bar, Lower(query)) then {bar.span.spanId} else {}
  {
  }

  /** The query is not trimmed before matching: " db" does not find a span named "db" of service "api". */
  lemma LeadingSpaceIsSignificant(bar: TimelineBar)
    requires bar.span.spanName == "db" && bar.span.serviceName == "api" && bar.span.spanId == "s1"
    ensures SearchMatches([bar], " db") == {}
    ensures SearchMatches([bar], "db") == {"s1"}
  {
    LowerExamples();
    ActiveExamples();
    NoMatchExample();
    assert BarMatches(bar, "db");
    assert !BarMatches(bar, " db");
    SingleBarMatches(bar, " db");
    SingleBarMatches(bar, "db");
  }

  lemma NoMatchExample()
    ensures Includes("db", "db")
    ensures !Includes("api", " db") && !Includes("db", " db") && !Includes("s1", " db")
  {
    assert OccursAt("db", "db", 0);
    assert !OccursAt("api", " db", 0) by { assert "api"[0..3][0] != " db"[0]; }
  }

  lemma LowerExamples()
    ensures Lower("db") == "db" && Lower(" db") == " db" && Lower("s1") == "s1" && Lower("api") == "api"
  {
    LowerOfLower("db");
    LowerOfLower(" db");
    LowerOfLower("s1");
    LowerOfLower("api");
  }

  lemma ActiveExamples()
    ensures IsSearchActive(" db") && IsSearchActive("db")
    ensures !AllWs(" db") && !AllWs("db")
  {
    SearchActiveIff(" db");
    SearchActiveIff("db");
    assert !IsWs(" db"[1]);
    assert !IsWs("db"[0]);
  }
}
