/** net/url.cpp: taking a URL apart and printing it. */
module Urls {
  import opened Text
  import opened UrlCode
  import opened Wrappers

  type Query = map<Text, Text>

  datatype Url = Url(scheme: Text, authority: Text, path: Text, query: Query, fragment: Text)

  datatype ParseError = NoSchemeSeparator | BadSchemeSeparator

  // ---- Query parameters ---------------------------------------------------------------

  /** url.cpp:38-51. */
  function NormalizeValue(value: Text): Text {
    var l := ToLower(value);
    if Reads(l, "true") || Reads(l, "yes") then "1" else if Reads(l, "false") || Reads(l, "no") then "0" else l
  }

  predicate Reads(s: Text, word: Text)
    decreases |s|
  {
    if s == [] || word == [] then |s| == |word| else s[0] == word[0] && Reads(s[1..], word[1..])
  }

  lemma {:induction false} ReadsIsEqual(s: Text, word: Text)
    ensures Reads(s, word) <==> s == word
    decreases |s|
  {
    if s != [] && word != [] {
      ReadsIsEqual(s[1..], word[1..]);
      assert s == [s[0]] + s[1..] && word == [word[0]] + word[1..];
    }
  }

  function KeyOf(item: Text): Text {
    var e := FindFirst(item, '=', 0);
    UrlDecoded(ToLower(if e == NPOS then item else item[..e]))
  }

  /** A parameter without value counts as a boolean that is set. */
  function ValueOf(item: Text): Text {
    var e := FindFirst(item, '=', 0);
    if e == NPOS then "1" else UrlDecoded(NormalizeValue(item[e + 1..]))
  }

  function Store(params: Query, key: Text, value: Text): Query {
    params[key := value]
  }

  function AddParameter(params: Query, item: Text): Query {
    Store(params, KeyOf(item), ValueOf(item))
  }

  /** The parameters of a query; there always is one. */
  function ParametersIn(query: Text): (items: seq<Text>)
    ensures items != []
    decreases |query|
  {
    var e := FindFirst(query, '&', 0);
    if e == NPOS then [query] else [query[..e]] + ParametersIn(query[e + 1..])
  }

  /** One by one, the last one of a name wins. */
  function AddAll(params: Query, items: seq<Text>): Query
    decreases |items|
  {
    if items == [] then params else AddAll(AddParameter(params, items[0]), items[1..])
  }

  function QueryOf(params: Query, query: Text): Query {
    AddAll(params, ParametersIn(query))
  }

  /** url.cpp:53-88. */
  method SplitQuery(params: Query, query: Text) returns (r: Query)
    ensures r == QueryOf(params, query)
  {
    r := params;
    var keepGoing := true;
    var start := 0;
    ghost var all := AddAll(params, ParametersFrom(query, 0));
    while keepGoing
      invariant start <= |query| + 1 && (keepGoing ==> start <= |query|)
      invariant all == if keepGoing then AddAll(r, ParametersFrom(query, start)) else r
      decreases keepGoing, |query| - start
    {
      r, start, keepGoing := AddNext(r, query, start);
    }
    AllInPlace(params, query);
  }

  /** url.cpp:58-87, one round of the loop. */
  method AddNext(params: Query, query: Text, start: nat) returns (r: Query, next: nat, keepGoing: bool)
    requires start <= |query|
    ensures start < next <= |query| + 1 && (keepGoing ==> next <= |query|)
    ensures AddAll(params, ParametersFrom(query, start)) == if keepGoing then AddAll(r, ParametersFrom(query, next)) else r
  {
    keepGoing := true;
    var end := FindFirst(query, '&', start);
    if end == NPOS {
      end := |query|;
      keepGoing := false;
    }
    var key, value := SplitParameter(query, start, end);
    r := Store(params, key, value);
    next := end + 1;
    AddedFrom(params, query, start, end, r);
  }

  /** The same by positions. */
  ghost function ParametersFrom(query: Text, start: nat): (items: seq<Text>)
    requires start <= |query|
    ensures items != []
    decreases |query| - start
  {
    var end := FindFirst(query, '&', start);
    if end == NPOS then [query[start..|query|]] else [query[start..end]] + ParametersFrom(query, end + 1)
  }

  lemma LastIn(query: Text)
    requires FindFirst(query, '&', 0) == NPOS
    ensures ParametersIn(query) == [query]
  {
  }

  lemma MoreIn(query: Text, end: nat, item: Text, rest: Text)
    requires FindFirst(query, '&', 0) == end && query[..end] == item && query[end + 1..] == rest
    ensures ParametersIn(query) == [item] + ParametersIn(rest)
  {
  }

  lemma FromLast(query: Text, start: nat)
    requires start <= |query| && FindFirst(query, '&', start) == NPOS
    ensures ParametersFrom(query, start) == [query[start..|query|]]
  {
  }

  lemma FromMore(query: Text, start: nat, end: nat)
    requires start <= end < |query| && FindFirst(query, '&', start) == end
    ensures ParametersFrom(query, start) == [query[start..end]] + ParametersFrom(query, end + 1)
  {
  }

  lemma LastInPlace(query: Text, start: nat)
    requires start <= |query| && FindFirst(query, '&', start) == NPOS
    ensures ParametersFrom(query, start) == ParametersIn(query[start..])
  {
    FindShift(query, '&', start);
    FromLast(query, start);
    assert query[start..|query|] == query[start..];
    LastIn(query[start..]);
  }

  lemma NextInPlace(query: Text, start: nat, end: nat)
    requires start <= end < |query| && FindFirst(query, '&', start) == end
    requires ParametersFrom(query, end + 1) == ParametersIn(query[end + 1..])
    ensures ParametersFrom(query, start) == ParametersIn(query[start..])
  {
    FindShift(query, '&', start);
    FromMore(query, start, end);
    Slices(query, start, end);
    MoreIn(query[start..], end - start, query[start..end], query[end + 1..]);
  }

  lemma {:induction false} ParametersInPlace(query: Text, start: nat)
    requires start <= |query|
    ensures ParametersFrom(query, start) == ParametersIn(query[start..])
    decreases |query| - start
  {
    var end := FindFirst(query, '&', start);
    if end == NPOS {
      LastInPlace(query, start);
    } else {
      ParametersInPlace(query, end + 1);
      NextInPlace(query, start, end);
    }
  }

  lemma AllInPlace(params: Query, query: Text)
    ensures AddAll(params, ParametersFrom(query, 0)) == QueryOf(params, query)
  {
    ParametersInPlace(query, 0);
    assert query[0..] == query;
  }

  lemma NextAdded(params: Query, items: seq<Text>)
    requires items != []
    ensures AddAll(params, items) == AddAll(Store(params, KeyOf(items[0]), ValueOf(items[0])), items[1..])
  {
  }

  lemma AddedFrom(params: Query, query: Text, start: nat, end: nat, r: Query)
    requires start <= end <= |query|
    requires FindFirst(query, '&', start) == if end == |query| then NPOS else end
    requires r == Store(params, KeyOf(query[start..end]), ValueOf(query[start..end]))
    ensures AddAll(params, ParametersFrom(query, start)) ==
      if end == |query| then r else AddAll(r, ParametersFrom(query, end + 1))
  {
    var item := query[start..end];
    if end == |query| {
      FromLast(query, start);
      FirstAdded(params, item, [], r);
    } else {
      FromMore(query, start, end);
      FirstAdded(params, item, ParametersFrom(query, end + 1), r);
    }
  }

  lemma FirstAdded(params: Query, item: Text, items: seq<Text>, r: Query)
    requires r == Store(params, KeyOf(item), ValueOf(item))
    ensures AddAll(params, [item] + items) == AddAll(r, items)
    ensures [item] + [] == [item]
  {
    assert ([item] + items)[1..] == items;
  }

  lemma LastParameter(params: Query, query: Text)
    requires FindFirst(query, '&', 0) == NPOS
    ensures QueryOf(params, query) == AddParameter(params, query)
  {
    LastIn(query);
    OneAdded(params, query);
  }

  lemma OneAdded(params: Query, item: Text)
    ensures AddAll(params, [item]) == AddParameter(params, item)
  {
    NextAdded(params, [item]);
  }

  lemma MoreParameters(params: Query, query: Text, end: nat, item: Text, rest: Text)
    requires FindFirst(query, '&', 0) == end && query[..end] == item && query[end + 1..] == rest
    ensures QueryOf(params, query) == QueryOf(AddParameter(params, item), rest)
  {
    MoreIn(query, end, item, rest);
    NextAdded(params, [item] + ParametersIn(rest));
  }

  lemma Slices(s: Text, start: nat, end: nat)
    requires start <= end <= |s|
    ensures s[start..][..end - start] == s[start..end]
    ensures end < |s| ==> s[start..][end - start + 1..] == s[end + 1..]
    ensures end == |s| ==> s[start..] == s[start..end]
  {
  }

  /** url.cpp:66-86. The search for '=' does not stop at the end of the parameter. */
  method SplitParameter(query: Text, start: nat, end: nat) returns (key: Text, value: Text)
    requires start <= end <= |query|
    ensures key == KeyOf(query[start..end]) && value == ValueOf(query[start..end])
  {
    var equal := FindFirst(query, '=', start);
    if equal == NPOS {
      equal := |query|;
    }
    OwnParts(query, start, end, equal);
    if equal >= end {
      key := UrlDecode(ToLower(query[start..end]));
      value := "1";
    } else {
      key := UrlDecode(ToLower(query[start..equal]));
      value := UrlDecode(NormalizeValue(query[equal + 1..end]));
    }
  }

  lemma OwnParts(query: Text, start: nat, end: nat, equal: nat)
    requires start <= end <= |query|
    requires equal == if FindFirst(query, '=', start) == NPOS then |query| else FindFirst(query, '=', start)
    ensures equal >= end ==> KeyOf(query[start..end]) == UrlDecoded(ToLower(query[start..end])) && ValueOf(query[start..end]) == "1"
    ensures equal < end ==>
      && KeyOf(query[start..end]) == UrlDecoded(ToLower(query[start..equal]))
      && ValueOf(query[start..end]) == UrlDecoded(NormalizeValue(query[equal + 1..end]))
  {
    OwnEqual(query, start, end);
    if equal >= end {
      NoValue(query[start..end]);
    } else {
      KeyAndValue(query[start..end], equal - start, query[start..equal], query[equal + 1..end]);
    }
  }

  lemma NoValue(item: Text)
    requires FindFirst(item, '=', 0) == NPOS
    ensures KeyOf(item) == UrlDecoded(ToLower(item)) && ValueOf(item) == "1"
  {
  }

  lemma KeyAndValue(item: Text, e: nat, key: Text, value: Text)
    requires FindFirst(item, '=', 0) == e && item[..e] == key && item[e + 1..] == value
    ensures KeyOf(item) == UrlDecoded(ToLower(key)) && ValueOf(item) == UrlDecoded(NormalizeValue(value))
  {
  }

  lemma OwnEqual(query: Text, start: nat, end: nat)
    requires start <= end <= |query|
    ensures var item, e := query[start..end], FindFirst(query, '=', start);
      if e == NPOS || e >= end then FindFirst(item, '=', 0) == NPOS
      else
        && FindFirst(item, '=', 0) == e - start
        && item[..e - start] == query[start..e]
        && item[e - start + 1..] == query[e + 1..end]
  {
    var rest, item := query[start..], query[start..end];
    assert rest == item + query[end..];
    FindShift(query, '=', start);
    FindAppend(item, query[end..], '=');
  }

  // ---- Parsing ------------------------------------------------------------------------

  /** The still encoded pieces of what follows the scheme. */
  datatype Pieces = Pieces(authority: Text, path: Text, query: Option<Text>, fragment: Text)

  /** Where the path ends. */
  function Stop(s: Text, question: int, hash: int): int {
    if question != NPOS then question else if hash != NPOS then hash else |s|
  }

  /** The authority begins at start and ends at the first '/' wherever it is, and only
      without one where the path ends. */
  function Cut(s: Text, start: nat, question: int, hash: int, slash: int): Pieces
    requires start <= |s|
    requires Position(question, s, start) && Position(hash, s, start) && Position(slash, s, start)
  {
    var stop := Stop(s, question, hash);
    var end := if slash != NPOS then slash else stop;
    Pieces(
      Substr(s, start, end),
      Substr(s, end, stop),
      if question == NPOS then None
      else Some(Substr(s, question + 1, if hash != NPOS then hash else |s|)),
      if hash == NPOS then [] else s[hash + 1..])
  }

  function Split(s: Text, start: nat): Pieces
    requires start <= |s|
  {
    Cut(s, start, FindFirst(s, '?', start), FindFirst(s, '#', start), FindFirst(s, '/', start))
  }

  function Parsed(s: Text): Result<Url, ParseError> {
    var c := FindFirst(s, ':', 0);
    if c == NPOS then Err(NoSchemeSeparator)
    else if c + 3 > |s| || s[c + 1] != '/' || s[c + 2] != '/' then Err(BadSchemeSeparator)
    else Ok(Assembled(ToLower(s[..c]), Split(s, c + 3)))
  }

  function Assembled(scheme: Text, p: Pieces): Url {
    Url(
      scheme,
      UrlDecoded(p.authority),
      UrlDecoded(p.path),
      if p.query.None? then map[] else QueryOf(map[], p.query.value),
      p.fragment)
  }

  /** url.cpp:101-202. */
  method Parse(s: Text) returns (r: Result<Url, ParseError>)
    ensures r == Parsed(s)
  {
    var end := FindFirst(s, ':', 0);
    if end == NPOS {
      return Err(NoSchemeSeparator);
    }
    if end + 3 > |s| {
      return Err(BadSchemeSeparator);
    }
    if !(s[end + 1] == '/' && s[end + 2] == '/') {
      return Err(BadSchemeSeparator);
    }
    var scheme := ToLower(s[..end]);
    var p := ParsePieces(s, end + 3);
    var authority := UrlDecode(p.authority);
    var path := UrlDecode(p.path);
    var query: Query := map[];
    if p.query.Some? {
      query := SplitQuery(query, p.query.value);
    }
    return Ok(Url(scheme, authority, path, query, p.fragment));
  }

  /** url.cpp:141-199, all but the decoding. */
  method ParsePieces(s: Text, first: nat) returns (p: Pieces)
    requires first <= |s|
    ensures p == Split(s, first)
  {
    var start, end := first, 0;
    var queryStart := FindFirst(s, '?', start);
    var fragmentStart := FindFirst(s, '#', start);
    end := FindFirst(s, '/', start);
    if end == NPOS {
      if queryStart != NPOS {
        end := queryStart;
      } else if fragmentStart != NPOS {
        end := fragmentStart;
      } else {
        end := |s|;
      }
    }
    var authority := Substr(s, start, end);

    start := end;
    if queryStart != NPOS {
      end := queryStart;
    } else if fragmentStart != NPOS {
      end := fragmentStart;
    } else {
      end := |s|;
    }
    var path := Substr(s, start, end);

    var query := None;
    if queryStart != NPOS {
      start := queryStart + 1;
      end := fragmentStart;
      if end == NPOS {
        end := |s|;
      }
      query := Some(Substr(s, start, end));
    }

    var fragment := [];
    if fragmentStart != NPOS {
      fragment := s[fragmentStart + 1..];
    }
    return Pieces(authority, path, query, fragment);
  }

  /** Only what begins at start matters for the pieces. */
  lemma SplitShift(s: Text, start: nat)
    requires start <= |s|
    ensures Split(s, start) == Split(s[start..], 0)
  {
    FindShift(s, '?', start);
    FindShift(s, '#', start);
    FindShift(s, '/', start);
    CutShift(s, start, FindFirst(s, '?', start), FindFirst(s, '#', start), FindFirst(s, '/', start));
  }

  lemma CutShift(s: Text, start: nat, question: int, hash: int, slash: int)
    requires start <= |s|
    requires Position(question, s, start) && Position(hash, s, start) && Position(slash, s, start)
    ensures Cut(s, start, question, hash, slash) ==
      Cut(s[start..], 0, Back(question, start), Back(hash, start), Back(slash, start))
  {
    PathShift(s, start, question, hash, slash);
    QueryShift(s, start, question, hash, slash);
    FragmentShift(s, start, question, hash, slash);
  }

  lemma PathShift(s: Text, start: nat, question: int, hash: int, slash: int)
    requires start <= |s|
    requires Position(question, s, start) && Position(hash, s, start) && Position(slash, s, start)
    ensures var p, q := Cut(s, start, question, hash, slash),
        Cut(s[start..], 0, Back(question, start), Back(hash, start), Back(slash, start));
      p.authority == q.authority && p.path == q.path
  {
    var stop := Stop(s, question, hash);
    var end := if slash != NPOS then slash else stop;
    SubstrShift(s, start, start, end);
    SubstrShift(s, start, end, stop);
  }

  lemma QueryShift(s: Text, start: nat, question: int, hash: int, slash: int)
    requires start <= |s|
    requires Position(question, s, start) && Position(hash, s, start) && Position(slash, s, start)
    ensures Cut(s, start, question, hash, slash).query ==
      Cut(s[start..], 0, Back(question, start), Back(hash, start), Back(slash, start)).query
  {
    if question != NPOS { SubstrShift(s, start, question + 1, if hash != NPOS then hash else |s|); }
  }

  lemma FragmentShift(s: Text, start: nat, question: int, hash: int, slash: int)
    requires start <= |s|
    requires Position(question, s, start) && Position(hash, s, start) && Position(slash, s, start)
    ensures Cut(s, start, question, hash, slash).fragment ==
      Cut(s[start..], 0, Back(question, start), Back(hash, start), Back(slash, start)).fragment
  {
    if hash != NPOS { SubstrShift(s, start, hash + 1, |s|); }
  }

  // ---- Printing -----------------------------------------------------------------------

  /** The order in which the map hands out its keys. */
  ghost predicate Lists(order: seq<Text>, query: Query) {
    && (forall k :: k in order <==> k in query)
    && forall i, j :: 0 <= i < j < |order| ==> order[i] != order[j]
  }

  function Item(key: Text, value: Text): Text {
    UrlEncoded(key) + "=" + UrlEncoded(value)
  }

  function Items(query: Query, order: seq<Text>): Text
    requires order != [] && forall k :: k in order ==> k in query
  {
    var item := Item(order[0], query[order[0]]);
    if |order| == 1 then item else item + "&" + Items(query, order[1..])
  }

  function QueryPart(query: Query, order: seq<Text>): Text
    requires forall k :: k in order ==> k in query
  {
    if order == [] then [] else "?" + Items(query, order)
  }

  function FragmentPart(fragment: Text): Text {
    if fragment == [] then [] else "#" + fragment
  }

  /** What follows the path. */
  function Tail(u: Url, order: seq<Text>): Text
    requires forall k :: k in order ==> k in u.query
  {
    QueryPart(u.query, order) + FragmentPart(u.fragment)
  }

  function Printed(u: Url, order: seq<Text>): Text
    requires forall k :: k in order ==> k in u.query
  {
    u.scheme + "://" + (UrlEncoded(u.authority) + (UrlEncoded(u.path) + Tail(u, order)))
  }

  /** url.cpp:229-250. */
  method Str(u: Url, order: seq<Text>) returns (ret: Text)
    requires Lists(order, u.query)
    ensures ret == Printed(u, order)
  {
    var authority := UrlEncode(u.authority);
    var path := UrlEncode(u.path);
    ret := u.scheme + "://";
    ret := ret + authority;
    ret := ret + path;
    ret := AppendQuery(ret, u.query, order);
    ret := AppendFragment(ret, u.fragment);
    Regrouped(u.scheme + "://", authority, path, QueryPart(u.query, order), FragmentPart(u.fragment));
  }

  /** url.cpp:244-246. */
  method AppendFragment(start: Text, fragment: Text) returns (ret: Text)
    ensures ret == start + FragmentPart(fragment)
  {
    ret := start;
    if |fragment| != 0 {
      Regroup(start, "#", fragment);
      ret := ret + "#" + fragment;
    }
  }

  /** url.cpp:235-242. */
  method AppendQuery(start: Text, query: Query, order: seq<Text>) returns (ret: Text)
    requires forall k :: k in order ==> k in query
    ensures ret == start + QueryPart(query, order)
  {
    ret := start;
    if |order| != 0 {
      ret := ret + "?";
      ret := AppendItems(ret, query, order);
      ShedLast(start, Items(query, order));
      ret := ret[..|ret| - 1];
    }
  }

  lemma ShedLast(head: Text, items: Text)
    ensures var r := (head + "?") + (items + "&"); r[..|r| - 1] == head + ("?" + items)
  {
  }

  lemma Regrouped(a: Text, b: Text, c: Text, d: Text, e: Text)
    ensures a + b + c + d + e == a + (b + (c + (d + e)))
  {
  }

  method AppendItems(start: Text, query: Query, order: seq<Text>) returns (ret: Text)
    requires order != [] && forall k :: k in order ==> k in query
    ensures ret == start + (Items(query, order) + "&")
  {
    ret := start;
    for i := 0 to |order|
      invariant start + Closed(query, order) == ret + Closed(query, order[i..])
    {
      var key := UrlEncode(order[i]);
      var value := UrlEncode(query[order[i]]);
      var item := key + "=" + value;
      NextItem(query, order, i);
      Regroup(ret, item + "&", Closed(query, order[i + 1..]));
      Regroup(ret, item, "&");
      ret := ret + item + "&";
    }
    ClosedItems(query, order);
  }

  /** The items with an '&' after each. */
  ghost function Closed(query: Query, order: seq<Text>): Text
    requires forall k :: k in order ==> k in query
  {
    if order == [] then [] else (Item(order[0], query[order[0]]) + "&") + Closed(query, order[1..])
  }

  lemma NextItem(query: Query, order: seq<Text>, i: nat)
    requires i < |order| && forall k :: k in order ==> k in query
    ensures Closed(query, order[i..]) == (Item(order[i], query[order[i]]) + "&") + Closed(query, order[i + 1..])
  {
    assert order[i..][1..] == order[i + 1..];
  }

  lemma {:induction false} ClosedItems(query: Query, order: seq<Text>)
    requires order != [] && forall k :: k in order ==> k in query
    ensures Closed(query, order) == Items(query, order) + "&"
  {
    var item := Item(order[0], query[order[0]]);
    if |order| == 1 {
      assert Closed(query, order[1..]) == [];
    } else {
      ClosedItems(query, order[1..]);
      Regroup(item + "&", Items(query, order[1..]), "&");
    }
  }
}
