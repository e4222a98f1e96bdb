/**
 * The lexical side of the traces where-clause: splitting on `AND`, the clause
 * pattern `key = value`, and quoting of printed values.
 */
module AdvancedFilterText {
  import opened Wrappers
  import opened JsText

  /** The key characters of the clause pattern, `[a-zA-Z0-9_.-]`. */
  predicate IsKeyChar(c: char) {
    'a' <= c <= 'z' || 'A' <= c <= 'Z' || '0' <= c <= '9' || c == '_' || c == '.' || c == '-'
  }

  predicate AllKeyChars(s: string) {
    forall i :: 0 <= i < |s| ==> IsKeyChar(s[i])
  }

  /** The end of the run of white space starting at `i`. */
  function WsRunEnd(s: string, i: nat): (r: nat)
    requires i <= |s|
    ensures i <= r <= |s|
    ensures forall k :: i <= k < r ==> IsWs(s[k])
    ensures r == |s| || !IsWs(s[r])
    decreases |s| - i
  {
    if i < |s| && IsWs(s[i]) then WsRunEnd(s, i + 1) else i
  }

  /** The end of the run of key characters starting at `i`. */
  function KeyRunEnd(s: string, i: nat): (r: nat)
    requires i <= |s|
    ensures i <= r <= |s|
    ensures forall k :: i <= k < r ==> IsKeyChar(s[k])
    ensures r == |s| || !IsKeyChar(s[r])
    decreases |s| - i
  {
    if i < |s| && IsKeyChar(s[i]) then KeyRunEnd(s, i + 1) else i
  }

  // ---------------------------------------------------------------------
  // Splitting on /\s+AND\s+/i
  // ---------------------------------------------------------------------

  /** At `j`: the letters a, n, d in either case, then white space. */
  predicate AndWordAt(s: string, j: int) {
    0 <= j && j + 3 < |s| &&
    LowerChar(s[j]) == 'a' && LowerChar(s[j + 1]) == 'n' && LowerChar(s[j + 2]) == 'd' && IsWs(s[j + 3])
  }

  /**
   * The separator matched at `i`: white space (greedily), `AND` in any case,
   * white space (greedily); the result is where the match ends. White space
   * cannot be given back to `AND`, so greedy runs are the only match.
   */
  function SepEnd(s: string, i: nat): (r: Option<nat>)
    requires i <= |s|
    ensures r.Some? ==> i + 5 <= r.value <= |s|
  {
    if i < |s| && IsWs(s[i]) then
      var j := WsRunEnd(s, i);
      if AndWordAt(s, j) then Some(WsRunEnd(s, j + 3)) else None
    else None
  }

  /** The leftmost position at or after `k` where the separator matches, or `|s|`. */
  function FirstSep(s: string, k: nat): (r: nat)
    requires k <= |s|
    ensures k <= r <= |s|
    ensures r < |s| ==> SepEnd(s, r).Some?
    ensures forall i :: k <= i < r ==> SepEnd(s, i).None?
    decreases |s| - k
  {
    if k == |s| then |s|
    else if SepEnd(s, k).Some? then k
    else FirstSep(s, k + 1)
  }

  /** `s.split(/\s+AND\s+/i)`. */
  function SplitAnd(s: string): (r: seq<string>)
    ensures |r| >= 1
    decreases |s|
  {
    var i := FirstSep(s, 0);
    if i == |s| then [s] else [s[..i]] + SplitAnd(s[SepEnd(s, i).value..])
  }

  /** `.map((part) => part.trim()).filter(Boolean)`. */
  function CleanParts(ps: seq<string>): (r: seq<string>)
    ensures |r| <= |ps|
    ensures forall i :: 0 <= i < |r| ==> r[i] != [] && IsTrimmed(r[i])
  {
    if ps == [] then []
    else
      TrimIsTrimmed(ps[0]);
      var t := Trim(ps[0]);
      if t == [] then CleanParts(ps[1..]) else [t] + CleanParts(ps[1..])
  }

  /** No white space, then `and` in any case, then white space: the text has no `AND` separator in it. */
  predicate NoAndWord(s: string) {
    forall j :: 1 <= j < |s| && AndWordAt(s, j) ==> !IsWs(s[j - 1])
  }

  lemma NoAndWordNoSep(s: string)
    requires NoAndWord(s)
    ensures forall i :: 0 <= i <= |s| ==> SepEnd(s, i).None?
  {
    forall i | 0 <= i <= |s| ensures SepEnd(s, i).None? {
      if i < |s| && IsWs(s[i]) {
        var j := WsRunEnd(s, i);
        assert IsWs(s[j - 1]);
      }
    }
  }

  lemma {:induction false} FirstSepIsEnd(s: string, k: nat)
    requires k <= |s| && forall i :: 0 <= i <= |s| ==> SepEnd(s, i).None?
    ensures FirstSep(s, k) == |s|
    decreases |s| - k
  {
    if k < |s| {
      FirstSepIsEnd(s, k + 1);
    }
  }

  /** Text without a separator is one part. */
  lemma SplitWithoutSeparator(s: string)
    requires NoAndWord(s)
    ensures SplitAnd(s) == [s]
  {
    NoAndWordNoSep(s);
    FirstSepIsEnd(s, 0);
  }

  lemma NoWsNoAndWord(s: string)
    requires NoWs(s)
    ensures NoAndWord(s)
  {
  }

  /** Two neighbouring characters that can sit side by side inside white space, `and`, white space. */
  predicate InAndWord(x: char, y: char) {
    (IsWs(x) && LowerChar(y) == 'a') || (LowerChar(x) == 'a' && LowerChar(y) == 'n') ||
    (LowerChar(x) == 'n' && LowerChar(y) == 'd') || (LowerChar(x) == 'd' && IsWs(y))
  }

  lemma NoAndWordConcat(a: string, b: string)
    requires NoAndWord(a) && NoAndWord(b)
    requires |a| > 0 && |b| > 0 ==> !InAndWord(a[|a| - 1], b[0])
    ensures NoAndWord(a + b)
  {
    var s := a + b;
    forall j | 1 <= j < |s| && AndWordAt(s, j) ensures !IsWs(s[j - 1]) {
      if j + 3 < |a| {
        assert AndWordAt(a, j);
      } else if j - 1 >= |a| {
        assert AndWordAt(b, j - |a|);
        assert s[j - 1] == b[j - 1 - |a|];
      } else {
        var x, y := a[|a| - 1], b[0];
        assert s[|a|] == y && s[|a| - 1] == x;
        assert IsWs(s[j - 1]) ==> InAndWord(x, y);
      }
    }
  }

  /** A word without white space in front cannot start the separator. */
  lemma NoAndWordAfterNoWs(a: string, b: string)
    requires NoWs(a) && NoAndWord(b)
    ensures NoAndWord(a + b)
  {
    var s := a + b;
    forall j | 1 <= j < |s| && AndWordAt(s, j) ensures !IsWs(s[j - 1]) {
      if j - 1 < |a| {
        assert s[j - 1] == a[j - 1];
      } else {
        assert AndWordAt(b, j - |a|);
        assert s[j - 1] == b[j - 1 - |a|];
      }
    }
  }

  /** What a clause must satisfy to survive being joined with `" AND "` and split again. */
  predicate SafeClause(c: string) {
    |c| > 0 && !IsWs(c[0]) && !IsWs(c[|c| - 1]) && LowerChar(c[|c| - 1]) != 'd' && NoAndWord(c)
  }

  lemma {:induction false} WsRunEndPrefix(a: string, b: string, i: nat)
    requires i <= |a| && WsRunEnd(a, i) < |a|
    ensures WsRunEnd(a + b, i) == WsRunEnd(a, i)
    decreases |a| - i
  {
    if IsWs(a[i]) {
      WsRunEndPrefix(a, b, i + 1);
    }
  }

  lemma JoinFirst(cs: seq<string>)
    requires |cs| > 0 && |cs[0]| > 0
    ensures |Join(cs, " AND ")| > 0 && Join(cs, " AND ")[0] == cs[0][0]
  {
  }

  lemma {:induction false} JoinLast(cs: seq<string>)
    requires |cs| > 0 && |cs[|cs| - 1]| > 0
    ensures var s := Join(cs, " AND "); |s| > 0 && s[|s| - 1] == cs[|cs| - 1][|cs[|cs| - 1]| - 1]
  {
    if |cs| > 1 {
      JoinLast(cs[1..]);
    }
  }

  /** The clauses joined with `" AND "` split back into the same clauses. */
  lemma {:induction false} SplitJoin(cs: seq<string>)
    requires |cs| > 0 && forall i :: 0 <= i < |cs| ==> SafeClause(cs[i])
    ensures SplitAnd(Join(cs, " AND ")) == cs
  {
    if |cs| == 1 {
      SplitWithoutSeparator(cs[0]);
    } else {
      var c := cs[0];
      var rest := Join(cs[1..], " AND ");
      assert SafeClause(cs[1]);
      JoinFirst(cs[1..]);
      var s := c + " AND " + rest;
      assert Join(cs, " AND ") == s;
      SeparatorAfterClause(c, rest);
      SplitJoin(cs[1..]);
      assert s[..|c|] == c;
      assert s[|c| + 5..] == rest;
    }
  }

  /** In `c AND rest` the first separator is the one after `c`. */
  lemma SeparatorAfterClause(c: string, rest: string)
    requires SafeClause(c) && |rest| > 0 && !IsWs(rest[0])
    ensures var s := c + " AND " + rest;
            FirstSep(s, 0) == |c| && SepEnd(s, |c|) == Some(|c| + 5)
  {
    var s := c + " AND " + rest;
    forall i | 0 <= i < |c| ensures SepEnd(s, i).None? {
      NoSepInsideClause(c, rest, i);
    }
    assert s[|c|] == ' ' && s[|c| + 1] == 'A' && s[|c| + 2] == 'N' && s[|c| + 3] == 'D' && s[|c| + 4] == ' ';
    assert s[|c| + 5] == rest[0];
    assert WsRunEnd(s, |c| + 1) == |c| + 1;
    assert WsRunEnd(s, |c|) == |c| + 1;
    assert WsRunEnd(s, |c| + 5) == |c| + 5;
    assert WsRunEnd(s, |c| + 4) == |c| + 5;
    FirstSepAt(s, 0, |c|);
  }

  lemma {:induction false} FirstSepAt(s: string, k: nat, m: nat)
    requires k <= m < |s| && SepEnd(s, m).Some? && forall i :: k <= i < m ==> SepEnd(s, i).None?
    ensures FirstSep(s, k) == m
    decreases m - k
  {
    if k < m {
      FirstSepAt(s, k + 1, m);
    }
  }

  lemma NoSepInsideClause(c: string, rest: string, i: nat)
    requires SafeClause(c) && i < |c|
    ensures SepEnd(c + " AND " + rest, i).None?
  {
    var s := c + " AND " + rest;
    if IsWs(s[i]) {
      assert s[i] == c[i];
      var j := WsRunEnd(c, i);
      assert j < |c|;
      WsRunEndPrefix(c, " AND " + rest, i);
      assert s == c + (" AND " + rest);
      assert j >= i + 1 && IsWs(c[j - 1]);
      if j + 3 < |c| {
        assert AndWordAt(s, j) ==> AndWordAt(c, j);
      } else {
        assert s[|c|] == ' ' && s[|c| - 1] == c[|c| - 1];
      }
    }
  }

  lemma {:induction false} CleanPartsOfClean(cs: seq<string>)
    requires forall i :: 0 <= i < |cs| ==> |cs[i]| > 0 && IsTrimmed(cs[i])
    ensures CleanParts(cs) == cs
  {
    if cs != [] {
      TrimmedIsFixed(cs[0]);
      assert Trim(cs[0]) == cs[0];
      var tail := cs[1..];
      assert forall i :: 0 <= i < |tail| ==> tail[i] == cs[i + 1];
      CleanPartsOfClean(tail);
      assert CleanParts(cs) == [cs[0]] + CleanParts(cs[1..]);
      assert cs == [cs[0]] + cs[1..];
    }
  }

  // ---------------------------------------------------------------------
  // The clause pattern ^([a-zA-Z0-9_.-]+)\s*=\s*(?:"([^"]*)"|'([^']*)'|([^\s]+))$
  // ---------------------------------------------------------------------

  /** A match: the key, the captured value, and whether it came from the bare (unquoted) alternative. */
  datatype ClauseMatch = NoMatch | KeyValue(key: string, value: string, bare: bool)

  /** The value alternatives, tried in order: double-quoted, single-quoted, a bare token without white space. */
  function MatchValue(key: string, r: string): ClauseMatch {
    if |r| >= 2 && r[0] == '"' && r[|r| - 1] == '"' && '"' !in r[1..|r| - 1] then KeyValue(key, r[1..|r| - 1], false)
    else if |r| >= 2 && r[0] == '\'' && r[|r| - 1] == '\'' && '\'' !in r[1..|r| - 1] then KeyValue(key, r[1..|r| - 1], false)
    else if |r| >= 1 && NoWs(r) then KeyValue(key, r, true)
    else NoMatch
  }

  /**
   * `part.match(CLAUSE_RE)`. Key characters are never white space or `=`, so
   * the key is the whole leading run of key characters, and the white space
   * on both sides of `=` is taken greedily.
   */
  function MatchClause(part: string): ClauseMatch {
    var k := KeyRunEnd(part, 0);
    if k == 0 then NoMatch
    else
      var i := WsRunEnd(part, k);
      if i == |part| || part[i] != '=' then NoMatch
      else MatchValue(part[..k], part[WsRunEnd(part, i + 1)..])
  }

  /** `key = rhs` with a key of key characters matches with that key and the value alternatives on `rhs`. */
  lemma MatchKeyed(key: string, rhs: string)
    requires |key| > 0 && AllKeyChars(key) && |rhs| > 0 && !IsWs(rhs[0])
    ensures MatchClause(key + " = " + rhs) == MatchValue(key, rhs)
  {
    var s := key + " = " + rhs;
    KeyRunOf(s, key);
    assert s[|key|] == ' ' && s[|key| + 1] == '=' && s[|key| + 2] == ' ' && s[|key| + 3] == rhs[0];
    assert WsRunEnd(s, |key| + 1) == |key| + 1;
    assert WsRunEnd(s, |key|) == |key| + 1;
    assert WsRunEnd(s, |key| + 3) == |key| + 3;
    assert WsRunEnd(s, |key| + 2) == |key| + 3;
    assert s[..|key|] == key && s[|key| + 3..] == rhs;
  }

  lemma {:induction false} KeyRunFrom(s: string, key: string, i: nat)
    requires i <= |key| < |s| && s[..|key|] == key && AllKeyChars(key) && !IsKeyChar(s[|key|])
    ensures KeyRunEnd(s, i) == |key|
    decreases |key| - i
  {
    if i < |key| {
      assert s[i] == key[i];
      KeyRunFrom(s, key, i + 1);
    }
  }

  lemma KeyRunOf(s: string, key: string)
    requires |key| < |s| && s[..|key|] == key && AllKeyChars(key) && s[|key|] == ' '
    ensures KeyRunEnd(s, 0) == |key|
  {
    KeyRunFrom(s, key, 0);
  }

  lemma MatchQuoted(key: string, v: string)
    requires '"' !in v
    ensures MatchValue(key, "\"" + v + "\"") == KeyValue(key, v, false)
  {
    var r := "\"" + v + "\"";
    assert r[1..|r| - 1] == v;
  }

  lemma MatchSingleQuoted(key: string, v: string)
    requires '\'' !in v
    ensures MatchValue(key, "'" + v + "'") == KeyValue(key, v, false)
  {
    var r := "'" + v + "'";
    assert r[1..|r| - 1] == v;
  }

  lemma MatchBare(key: string, t: string)
    requires |t| > 0 && NoWs(t) && t[0] != '"' && t[0] != '\''
    ensures MatchValue(key, t) == KeyValue(key, t, true)
  {
  }

  // ---------------------------------------------------------------------
  // Quoting
  // ---------------------------------------------------------------------

  /** `s.replace(/c/g, rep)`. */
  function ReplaceAll(s: string, c: char, rep: string): (r: string)
    ensures c !in s ==> r == s
  {
    if s == [] then [] else (if s[0] == c then rep else [s[0]]) + ReplaceAll(s[1..], c, rep)
  }

  /** `quoteValue`: backslashes doubled first, then double quotes escaped, all inside double quotes. */
  function QuoteValue(v: string): string {
    "\"" + ReplaceAll(ReplaceAll(v, '\\', "\\\\"), '"', "\\\"") + "\""
  }

  /** A value with neither a backslash nor a double quote is printed as is, inside double quotes. */
  lemma QuotePlain(v: string)
    requires '\\' !in v && '"' !in v
    ensures QuoteValue(v) == "\"" + v + "\""
  {
  }

  /** Every character of the result comes from the input or from the replacement. */
  lemma {:induction false} ReplaceAllChars(s: string, c: char, rep: string)
    ensures forall x :: x in ReplaceAll(s, c, rep) ==> x in s || x in rep
  {
    if s != [] {
      ReplaceAllChars(s[1..], c, rep);
      forall x | x in ReplaceAll(s, c, rep) ensures x in s || x in rep {
        var head := if s[0] == c then rep else [s[0]];
        assert ReplaceAll(s, c, rep) == head + ReplaceAll(s[1..], c, rep);
        if x in head {
          assert x in rep || x == s[0];
        } else {
          assert x in ReplaceAll(s[1..], c, rep);
        }
      }
    }
  }

  /** A replacement of two or more characters makes the text longer wherever `c` occurs. */
  lemma {:induction false} ReplaceAllGrows(s: string, c: char, rep: string)
    requires |rep| >= 2
    ensures |ReplaceAll(s, c, rep)| >= |s|
    ensures c in s ==> |ReplaceAll(s, c, rep)| > |s|
  {
    if s != [] {
      ReplaceAllGrows(s[1..], c, rep);
      if s[0] != c {
        assert c in s ==> c in s[1..];
      }
    }
  }
}
