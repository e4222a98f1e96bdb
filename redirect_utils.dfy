/**
 * `parseRedirectUrl`: a redirect target such as `/traces?status=error&page=2`
 * is split at its first `?` into a pathname and a search record holding the
 * query's parameters. The query is read as `URLSearchParams` reads it (the
 * `application/x-www-form-urlencoded` rules): a leading `?` is dropped, the
 * text is cut at every `&`, empty pieces are skipped, each piece is cut at
 * its first `=` (no `=` gives an empty value) and `+` stands for a space.
 * Percent-decoding is the parameter `percentDecode`.
 */
module RedirectUtils {
  import opened JsText

  /** `s.split(c)`: the pieces between the occurrences of `c`; always at least one. */
  function Split(s: string, c: char): (r: seq<string>)
    ensures |r| >= 1
    decreases |s|
  {
    var i := IndexOf(s, c);
    if i < 0 then [s] else [s[..i]] + Split(s[i + 1..], c)
  }

  /** No piece holds the separator. */
  lemma {:induction false} SplitPiecesLackSeparator(s: string, c: char)
    ensures forall p :: p in Split(s, c) ==> c !in p
    decreases |s|
  {
    var i := IndexOf(s, c);
    if i >= 0 {
      SplitPiecesLackSeparator(s[i + 1..], c);
    }
  }

  /** Cutting at the first separator. */
  lemma SplitAt(s: string, c: char)
    requires IndexOf(s, c) >= 0
    ensures Split(s, c) == [s[..IndexOf(s, c)]] + Split(s[IndexOf(s, c) + 1..], c)
  {
  }

  /** Splitting and joining again with the same separator gives the text back. */
  lemma {:induction false} SplitJoin(s: string, c: char)
    ensures Join(Split(s, c), [c]) == s
    decreases |s|
  {
    var i := IndexOf(s, c);
    if i >= 0 {
      var head, rest := s[..i], s[i + 1..];
      SplitAt(s, c);
      JoinCons(head, Split(rest, c), [c]);
      SplitJoin(rest, c);
      CutAt(s, i);
    }
  }

  /** A text is the part before position `i`, the character there and the part after. */
  lemma CutAt(s: string, i: int)
    requires 0 <= i < |s|
    ensures s[..i] + [s[i]] + s[i + 1..] == s
  {
    assert s == s[..i + 1] + s[i + 1..];
    assert s[..i + 1] == s[..i] + [s[i]];
  }

  lemma JoinCons(a: string, r: seq<string>, sep: string)
    requires |r| >= 1
    ensures Join([a] + r, sep) == a + sep + Join(r, sep)
  {
    assert ([a] + r)[1..] == r;
  }

  /** The `+` of a form-encoded query stands for a space. */
  function PlusToSpace(s: string): (r: string)
    ensures |r| == |s|
    ensures forall i :: 0 <= i < |s| ==> r[i] == (if s[i] == '+' then ' ' else s[i])
  {
    if s == [] then [] else [if s[0] == '+' then ' ' else s[0]] + PlusToSpace(s[1..])
  }

  /** One `name=value` piece: cut at the first `=`; without one the value is empty. */
  function ParsePiece(piece: string, percentDecode: string -> string): (string, string) {
    var e := IndexOf(piece, '=');
    var name := if e < 0 then piece else piece[..e];
    var value := if e < 0 then "" else piece[e + 1..];
    (percentDecode(PlusToSpace(name)), percentDecode(PlusToSpace(value)))
  }

  /** The pairs of the pieces, in order, skipping the empty ones. */
  function PairsOf(pieces: seq<string>, percentDecode: string -> string): (r: seq<(string, string)>)
    ensures |r| <= |pieces|
  {
    if pieces == [] then []
    else (if pieces[0] == "" then [] else [ParsePiece(pieces[0], percentDecode)]) + PairsOf(pieces[1..], percentDecode)
  }

  /** `new URLSearchParams(query)`, iterated: its name-value pairs in order. */
  function QueryPairs(query: string, percentDecode: string -> string): seq<(string, string)> {
    var body := if |query| > 0 && query[0] == '?' then query[1..] else query;
    PairsOf(Split(body, '&'), percentDecode)
  }

  /** The one name a plain object does not take as an own key. */
  const PROTO_KEY: string := "__proto__"

  /**
   * `record[key] = value` on a plain object `{}`: the name `__proto__` goes
   * to the prototype setter, which ignores a string, so the record is left
   * as it was; any other name overwrites or adds that key.
   */
  function SetProperty(record: map<string, string>, key: string, value: string): map<string, string> {
    if key == PROTO_KEY then record else record[key := value]
  }

  /** The record filled pair by pair: each assignment overwrites an earlier one. */
  function SearchOf(pairs: seq<(string, string)>): map<string, string> {
    if pairs == [] then map[]
    else SetProperty(SearchOf(pairs[..|pairs| - 1]), pairs[|pairs| - 1].0, pairs[|pairs| - 1].1)
  }

  /** The pathname: the text before the first `?`, or the whole URL. */
  function Pathname(url: string): (r: string)
    ensures '?' !in r
    ensures |r| <= |url| && url[..|r|] == r
    ensures r == url <==> '?' !in url
    ensures r != url ==> url[|r|] == '?'
  {
    var q := IndexOf(url, '?');
    if q == -1 then url else url[..q]
  }

  /** The query text handed to `URLSearchParams`: from the first `?` on. */
  function Query(url: string): (r: string)
    ensures Pathname(url) + r == url
    ensures r == [] <==> '?' !in url
    ensures r != [] ==> r[0] == '?'
  {
    var q := IndexOf(url, '?');
    if q == -1 then "" else url[q..]
  }

  function Search(url: string, percentDecode: string -> string): map<string, string> {
    if '?' in url then SearchOf(QueryPairs(Query(url), percentDecode)) else map[]
  }

  method ParseRedirectUrl(url: string, percentDecode: string -> string) returns (pathname: string, search: map<string, string>)
    ensures pathname == Pathname(url) && search == Search(url, percentDecode)
  {
    var qIndex := IndexOf(url, '?');
    if qIndex == -1 {
      return url, map[];
    }
    pathname := url[..qIndex];
    var params := QueryPairs(url[qIndex..], percentDecode);
    search := FillSearch(params);
  }

  /** The loop that copies the parameters into the search record, in order. */
  method FillSearch(params: seq<(string, string)>) returns (search: map<string, string>)
    ensures search == SearchOf(params)
  {
    search := map[];
    for i := 0 to |params|
      invariant search == SearchOf(params[..i])
    {
      assert params[..i + 1][..i] == params[..i];
      search := SetProperty(search, params[i].0, params[i].1);
    }
    assert params[..|params|] == params;
  }

  // ---------------------------------------------------------------------
  // Properties
  // ---------------------------------------------------------------------

  /** A URL without `?` is all pathname, with an empty search. */
  lemma NoQueryMeansNoSearch(url: string, percentDecode: string -> string)
    requires '?' !in url
    ensures Pathname(url) == url && Search(url, percentDecode) == map[]
  {
  }

  /** The keys of the record: exactly the names of the pairs, except `__proto__`. */
  lemma {:induction false} SearchKeys(pairs: seq<(string, string)>)
    ensures forall k :: k in SearchOf(pairs) <==> k != PROTO_KEY && exists i :: 0 <= i < |pairs| && pairs[i].0 == k
  {
    if pairs != [] {
      var last := |pairs| - 1;
      var init := pairs[..last];
      SearchKeys(init);
      var m, m0 := SearchOf(pairs), SearchOf(init);
      assert m == SetProperty(m0, pairs[last].0, pairs[last].1);
      forall k | k in m
        ensures k != PROTO_KEY && exists i :: 0 <= i < |pairs| && pairs[i].0 == k
      {
        if k != pairs[last].0 || pairs[last].0 == PROTO_KEY {
          var i :| 0 <= i < |init| && init[i].0 == k;
          assert pairs[i] == init[i];
        }
      }
      forall k | k != PROTO_KEY && exists i :: 0 <= i < |pairs| && pairs[i].0 == k
        ensures k in m
      {
        var i :| 0 <= i < |pairs| && pairs[i].0 == k;
        if i < last { assert init[i] == pairs[i]; }
      }
    }
  }

  /** The last pair with a given name. */
  predicate LastWithName(pairs: seq<(string, string)>, k: string, i: int) {
    0 <= i < |pairs| && pairs[i].0 == k && forall j :: i < j < |pairs| ==> pairs[j].0 != k
  }

  /** Every key holds the value of the last pair with that name. */
  lemma {:induction false} SearchValues(pairs: seq<(string, string)>)
    ensures forall k :: k in SearchOf(pairs) ==>
              exists i :: LastWithName(pairs, k, i) && SearchOf(pairs)[k] == pairs[i].1
  {
    if pairs != [] {
      var last := |pairs| - 1;
      var init := pairs[..last];
      SearchValues(init);
      SearchKeys(init);
      var m, m0 := SearchOf(pairs), SearchOf(init);
      assert m == SetProperty(m0, pairs[last].0, pairs[last].1);
      forall k | k in m
        ensures exists i :: LastWithName(pairs, k, i) && m[k] == pairs[i].1
      {
        if k == pairs[last].0 && k != PROTO_KEY {
          assert LastWithName(pairs, k, last);
        } else {
          var i :| LastWithName(init, k, i) && m0[k] == init[i].1;
          assert pairs[i] == init[i];
          assert LastWithName(pairs, k, i);
        }
      }
    }
  }

  /**
   * The record has a key for exactly the names of the pairs other than
   * `__proto__`, and each key holds the value of the last pair with that name.
   */
  lemma LastWins(pairs: seq<(string, string)>)
    ensures forall k :: k in SearchOf(pairs) <==> k != PROTO_KEY && exists i :: 0 <= i < |pairs| && pairs[i].0 == k
    ensures forall k :: k in SearchOf(pairs) ==>
              exists i :: 0 <= i < |pairs| && pairs[i].0 == k && SearchOf(pairs)[k] == pairs[i].1 &&
                          forall j :: i < j < |pairs| ==> pairs[j].0 != k
  {
    SearchKeys(pairs);
    SearchValues(pairs);
  }

  /** `IndexOf` past a prefix that does not hold the character. */
  lemma {:induction false} IndexOfAfter(p: string, c: char, rest: string)
    requires c !in p
    ensures IndexOf(p + [c] + rest, c) == |p|
  {
    if p != [] {
      IndexOfAfter(p[1..], c, rest);
      assert (p + [c] + rest)[1..] == p[1..] + [c] + rest;
    }
  }

  /** A text without the separator is a single piece. */
  lemma SplitWithout(s: string, c: char)
    requires c !in s
    ensures Split(s, c) == [s]
  {
  }

  /** The query of `path?rest`, when the path holds no `?`. */
  lemma QueryAfterPath(path: string, rest: string)
    requires '?' !in path
    ensures Pathname(path + "?" + rest) == path && Query(path + "?" + rest) == "?" + rest
  {
    assert path + "?" + rest == path + ['?'] + rest;
    IndexOfAfter(path, '?', rest);
  }

  /** The piece `name=value` read as one pair. */
  lemma PieceOfPair(name: string, value: string, percentDecode: string -> string)
    requires '=' !in name && '+' !in name && '+' !in value
    ensures ParsePiece(name + "=" + value, percentDecode) == (percentDecode(name), percentDecode(value))
  {
    var piece := name + "=" + value;
    assert piece == name + ['='] + value;
    IndexOfAfter(name, '=', value);
    assert piece[..|name|] == name && piece[|name| + 1..] == value;
    assert PlusToSpace(name) == name;
    assert PlusToSpace(value) == value;
  }

  /** `name=value` without `&` is one piece and so one pair. */
  lemma PairsOfSingle(name: string, value: string, percentDecode: string -> string)
    requires '&' !in name && '=' !in name && '+' !in name && '&' !in value && '+' !in value
    ensures QueryPairs("?" + (name + "=" + value), percentDecode) == [(percentDecode(name), percentDecode(value))]
  {
    var piece := name + "=" + value;
    assert ("?" + piece)[1..] == piece;
    assert '&' !in piece by {
      assert forall i :: 0 <= i < |piece| ==> piece[i] == (if i < |name| then name[i] else if i == |name| then '=' else value[i - |name| - 1]);
    }
    SplitWithout(piece, '&');
    assert piece != [];
    PieceOfPair(name, value, percentDecode);
    assert PairsOf([piece], percentDecode) == [ParsePiece(piece, percentDecode)] + PairsOf([], percentDecode);
  }

  /**
   * A single parameter: `path?name=value`, with no `?` in the path and no
   * `&`, `=` or `+` in the name and no `&` or `+` in the value, gives the
   * pathname `path` and the one entry name to value (each percent-decoded).
   */
  lemma SingleParameter(path: string, name: string, value: string, percentDecode: string -> string)
    requires '?' !in path && '&' !in name && '=' !in name && '+' !in name && '&' !in value && '+' !in value
    ensures var url := path + "?" + (name + "=" + value);
            Pathname(url) == path &&
            Search(url, percentDecode) ==
              if percentDecode(name) == PROTO_KEY then map[] else map[percentDecode(name) := percentDecode(value)]
  {
    var url := path + "?" + (name + "=" + value);
    QueryAfterPath(path, name + "=" + value);
    PairsOfSingle(name, value, percentDecode);
    assert '?' in url by { assert url[|path|] == '?'; }
    SearchOfOne(percentDecode(name), percentDecode(value));
  }

  lemma SearchOfOne(k: string, v: string)
    ensures SearchOf([(k, v)]) == if k == PROTO_KEY then map[] else map[k := v]
  {
    assert [(k, v)][..0] == [];
  }

  /** `path?__proto__=value` keeps its path but gives an empty search: the assignment does not create the key. */
  lemma ProtoParameterIgnored(path: string, value: string, percentDecode: string -> string)
    requires '?' !in path && '&' !in value && '+' !in value && percentDecode(PROTO_KEY) == PROTO_KEY
    ensures Pathname(path + "?" + (PROTO_KEY + "=" + value)) == path
    ensures Search(path + "?" + (PROTO_KEY + "=" + value), percentDecode) == map[]
  {
    ProtoKeyChars();
    SingleParameter(path, PROTO_KEY, value, percentDecode);
  }

  lemma ProtoKeyChars()
    ensures '&' !in PROTO_KEY && '=' !in PROTO_KEY && '+' !in PROTO_KEY
  {
    assert forall i :: 0 <= i < |PROTO_KEY| ==> PROTO_KEY[i] == '_' || 'a' <= PROTO_KEY[i] <= 'z';
  }
}
