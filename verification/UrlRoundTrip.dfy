/** Which URLs parsing brings back from their printed form (net/url.cpp). */
module UrlRoundTrip {
  import opened Text
  import opened UrlCode
  import opened Urls
  import opened Wrappers

  predicate AllFaithful(s: Text, lower: bool) {
    forall c :: c in s ==> Faithful(c, lower)
  }

  predicate GoodValue(v: Text) {
    AllFaithful(v, true) && v != "true" && v != "yes" && v != "false" && v != "no"
  }

  /** Every character can be brought back where it stands. */
  ghost predicate Faithfully(u: Url) {
    && AllFaithful(u.authority, false)
    && AllFaithful(u.path, false)
    && forall k :: k in u.query ==> AllFaithful(k, true) && GoodValue(u.query[k])
  }

  /** No character is taken for a separator. */
  ghost predicate Separable(u: Url) {
    && '/' !in u.authority
    && (u.path == [] || u.path[0] == '/')
    && (u.query == map[] ==> '?' !in u.fragment)
    && (u.path == [] ==> '/' !in u.fragment && forall k :: k in u.query ==> '/' !in k && '/' !in u.query[k])
  }

  ghost predicate RoundTrips(u: Url) {
    && (forall c :: c in u.scheme ==> c != ':' && !IsUpper(c))
    && Separable(u)
    && Faithfully(u)
  }

  // ---- Query parameters ---------------------------------------------------------------

  /** Only the word itself has a word's encoding that comes back as the word. */
  lemma WordExactly(v: Text, word: Text)
    requires forall c :: c in word ==> IsLower(c)
    ensures ToLower(UrlEncoded(v)) == word ==> AllFaithful(v, true) ==> v == word
    ensures v == word ==> ToLower(UrlEncoded(v)) == word
    ensures ToLower(UrlEncoded(v)) == word ==> ToLower(v) == word
  {
    KeptOnly(v, word);
    LowerFixed(v);
    LowerFixed(word);
  }

  /** A value comes back from its printed form exactly when it is good. */
  lemma ValueExactly(v: Text)
    ensures UrlDecoded(NormalizeValue(UrlEncoded(v))) == v <==> GoodValue(v)
  {
    WordExactly(v, "true");
    WordExactly(v, "yes");
    WordExactly(v, "false");
    WordExactly(v, "no");
    NormalizedWords(UrlEncoded(v));
    UrlRoundTripExactly(v, true);
    DigitsDecode();
  }

  lemma NormalizedWords(s: Text)
    ensures NormalizeValue(s) == if ToLower(s) == "true" || ToLower(s) == "yes" then "1"
      else if ToLower(s) == "false" || ToLower(s) == "no" then "0" else ToLower(s)
  {
    ReadsIsEqual(ToLower(s), "true");
    ReadsIsEqual(ToLower(s), "yes");
    ReadsIsEqual(ToLower(s), "false");
    ReadsIsEqual(ToLower(s), "no");
  }

  lemma DigitsDecode()
    ensures UrlDecoded("1") == "1" && UrlDecoded("0") == "0" && ToLower("1") == "1" && ToLower("0") == "0"
  {
    assert "1"[1..] == [] && "0"[1..] == [];
  }

  function KeyBack(k: Text): Text {
    ReadBackAll(k, true)
  }

  function ValueBack(v: Text): Text {
    UrlDecoded(NormalizeValue(UrlEncoded(v)))
  }

  lemma ItemChars(k: Text, v: Text)
    ensures forall c :: c in Item(k, v) ==> Kept(c) || c == '%' || c == '='
    ensures '/' in Item(k, v) <==> '/' in k || '/' in v
    ensures FindFirst(Item(k, v), '=', 0) == |UrlEncoded(k)|
  {
    EncodedChars(k);
    EncodedChars(v);
    assert '=' !in UrlEncoded(k);
    FindAppend(UrlEncoded(k) + "=", UrlEncoded(v), '=');
    FindAppend(UrlEncoded(k), "=", '=');
    assert '=' in UrlEncoded(k) + "=" by { assert (UrlEncoded(k) + "=")[|UrlEncoded(k)|] == '='; }
  }

  /** A printed parameter is read as its key and value read back. */
  lemma ItemRead(k: Text, v: Text)
    ensures KeyOf(Item(k, v)) == KeyBack(k) && ValueOf(Item(k, v)) == ValueBack(v)
  {
    ItemChars(k, v);
    var item, e := Item(k, v), |UrlEncoded(k)|;
    assert item[..e] == UrlEncoded(k) && item[e + 1..] == UrlEncoded(v);
    DecodeEncodedThen(k, true, []);
    assert WrittenAll(k, true) + [] == WrittenAll(k, true);
    assert KeyBack(k) + [] == KeyBack(k);
  }

  ghost function Fold(params: Query, query: Query, order: seq<Text>): Query
    requires forall k :: k in order ==> k in query
    decreases |order|
  {
    if order == [] then params
    else Fold(Store(params, KeyBack(order[0]), ValueBack(query[order[0]])), query, order[1..])
  }

  lemma {:induction false} ItemsRead(params: Query, query: Query, order: seq<Text>)
    requires order != [] && forall k :: k in order ==> k in query
    ensures QueryOf(params, Items(query, order)) == Fold(params, query, order)
    decreases |order|
  {
    var k, v := order[0], query[order[0]];
    if |order| == 1 {
      LastRead(params, k, v);
    } else {
      NextRead(params, k, v, Items(query, order[1..]));
      ItemsRead(Store(params, KeyBack(k), ValueBack(v)), query, order[1..]);
    }
  }

  lemma LastRead(params: Query, k: Text, v: Text)
    ensures QueryOf(params, Item(k, v)) == Store(params, KeyBack(k), ValueBack(v))
  {
    ItemChars(k, v);
    ItemRead(k, v);
    ItemAlone(params, Item(k, v));
  }

  lemma NextRead(params: Query, k: Text, v: Text, rest: Text)
    ensures QueryOf(params, Item(k, v) + "&" + rest) == QueryOf(Store(params, KeyBack(k), ValueBack(v)), rest)
  {
    ItemChars(k, v);
    ItemRead(k, v);
    ItemThenRest(params, Item(k, v), rest);
  }

  lemma ItemAlone(params: Query, item: Text)
    requires '&' !in item
    ensures QueryOf(params, item) == AddParameter(params, item)
  {
    LastParameter(params, item);
  }

  lemma ItemThenRest(params: Query, item: Text, rest: Text)
    requires '&' !in item
    ensures QueryOf(params, item + "&" + rest) == QueryOf(AddParameter(params, item), rest)
  {
    ItemEnds(item, rest);
    MoreParameters(params, item + "&" + rest, |item|, item, rest);
  }

  lemma ItemEnds(item: Text, rest: Text)
    requires '&' !in item
    ensures var s := item + "&" + rest;
      FindFirst(s, '&', 0) == |item| && s[..|item|] == item && s[|item| + 1..] == rest
  {
    var s := item + "&" + rest;
    assert s[|item|] == '&';
    assert forall i :: 0 <= i < |item| ==> s[i] == item[i] && item[i] in item;
  }

  /** With every key its own reading, the result holds exactly the values read. */
  lemma {:induction false} FoldFixed(params: Query, query: Query, order: seq<Text>)
    requires forall k :: k in order ==> k in query && KeyBack(k) == k
    ensures forall k :: k in Fold(params, query, order) <==> k in params || k in order
    ensures forall k :: k in order ==> Fold(params, query, order)[k] == ValueBack(query[k])
    ensures forall k :: k in params && k !in order ==> Fold(params, query, order)[k] == params[k]
    decreases |order|
  {
    if order != [] {
      assert order == [order[0]] + order[1..];
      FoldFixed(Store(params, KeyBack(order[0]), ValueBack(query[order[0]])), query, order[1..]);
    }
  }

  lemma {:induction false} FoldKeys(params: Query, query: Query, order: seq<Text>, key: Text)
    requires forall k :: k in order ==> k in query
    requires key in Fold(params, query, order)
    ensures key in params || exists k :: k in order && KeyBack(k) == key
    decreases |order|
  {
    if order != [] {
      assert order == [order[0]] + order[1..];
      FoldKeys(Store(params, KeyBack(order[0]), ValueBack(query[order[0]])), query, order[1..], key);
    }
  }

  /** The parameters come back exactly when each key and each value does by itself. Keys
      cannot stand in for each other, because reading back twice changes nothing more. */
  lemma QueryExactly(query: Query, order: seq<Text>)
    requires Lists(order, query) && order != []
    ensures QueryOf(map[], Items(query, order)) == query <==>
      forall k :: k in query ==> AllFaithful(k, true) && GoodValue(query[k])
  {
    ItemsRead(map[], query, order);
    var r := Fold(map[], query, order);
    if r == query {
      forall k | k in query ensures KeyBack(k) == k {
        FoldKeys(map[], query, order, k);
        var j :| j in order && KeyBack(j) == k;
        ReadBackAllTwice(j);
      }
    }
    if forall k :: k in query ==> KeyBack(k) == k {
      FoldFixed(map[], query, order);
    }
    forall k | k in query ensures KeyBack(k) == k <==> AllFaithful(k, true) {
      KeyExactly(k);
    }
    forall k | k in query ensures ValueBack(query[k]) == query[k] <==> GoodValue(query[k]) {
      ValueExactly(query[k]);
    }
  }

  lemma KeyExactly(k: Text)
    ensures KeyBack(k) == k <==> AllFaithful(k, true)
  {
    DecodeEncodedThen(k, true, []);
    assert WrittenAll(k, true) + [] == WrittenAll(k, true);
    assert KeyBack(k) + [] == KeyBack(k);
    UrlRoundTripExactly(k, true);
  }

  // ---- Where the pieces end -------------------------------------------------------------

  lemma {:induction false} ItemsChars(query: Query, order: seq<Text>)
    requires order != [] && forall k :: k in order ==> k in query
    ensures '?' !in Items(query, order) && '#' !in Items(query, order)
    ensures '/' in Items(query, order) <==> SomeSlash(query, order)
    decreases |order|
  {
    var k := order[0];
    ItemChars(k, query[k]);
    if |order| == 1 {
      LastItem(query, order);
    } else {
      ItemsChars(query, order[1..]);
      MoreItems(query, order);
    }
  }

  lemma LastItem(query: Query, order: seq<Text>)
    requires |order| == 1 && order[0] in query
    ensures Items(query, order) == Item(order[0], query[order[0]])
    ensures SomeSlash(query, order) <==> '/' in order[0] || '/' in query[order[0]]
  {
    assert order[1..] == [];
  }

  lemma MoreItems(query: Query, order: seq<Text>)
    requires |order| > 1 && forall k :: k in order ==> k in query
    ensures forall c :: c in Items(query, order) <==>
              c in Item(order[0], query[order[0]]) || c == '&' || c in Items(query, order[1..])
    ensures SomeSlash(query, order) <==>
      '/' in order[0] || '/' in query[order[0]] || SomeSlash(query, order[1..])
  {
    CharsOf(Item(order[0], query[order[0]]), Items(query, order[1..]));
  }

  lemma CharsOf(item: Text, rest: Text)
    ensures forall c :: c in item + "&" + rest <==> c in item || c == '&' || c in rest
  {
  }

  predicate SomeSlash(query: Query, order: seq<Text>)
    requires forall k :: k in order ==> k in query
    decreases |order|
  {
    order != [] && ('/' in order[0] || '/' in query[order[0]] || SomeSlash(query, order[1..]))
  }

  lemma {:induction false} SomeSlashMeans(query: Query, order: seq<Text>)
    requires forall k :: k in order ==> k in query
    ensures SomeSlash(query, order) <==> exists k :: k in order && ('/' in k || '/' in query[k])
    decreases |order|
  {
    if order != [] {
      assert order == [order[0]] + order[1..];
      SomeSlashMeans(query, order[1..]);
    }
  }

  lemma TailFinds(u: Url, order: seq<Text>)
    requires forall k :: k in order ==> k in u.query
    ensures Tail(u, order) != [] ==> Tail(u, order)[0] == '?' || Tail(u, order)[0] == '#'
    ensures order != [] ==> FindFirst(Tail(u, order), '?', 0) == 0
    ensures order == [] ==> (FindFirst(Tail(u, order), '?', 0) == NPOS <==> '?' !in u.fragment)
    ensures FindFirst(Tail(u, order), '#', 0) ==
      if u.fragment == [] then NPOS else if order == [] then 0 else 1 + |Items(u.query, order)|
    ensures '/' in Tail(u, order) <==>
      '/' in u.fragment || SomeSlash(u.query, order)
  {
    var q := if order == [] then [] else "?" + Items(u.query, order);
    var f := if u.fragment == [] then [] else "#" + u.fragment;
    assert Tail(u, order) == q + f;
    if order != [] { ItemsChars(u.query, order); }
    assert '#' !in q;
    FindAppend(q, f, '#');
    if order == [] {
      assert q + f == f;
      if u.fragment != [] { FragmentFind(u.fragment); }
    } else {
      assert (q + f)[0] == '?';
    }
  }

  lemma FragmentFind(fragment: Text)
    ensures FindFirst("#" + fragment, '?', 0) == NPOS <==> '?' !in fragment
    ensures FindFirst("#" + fragment, '#', 0) == 0
  {
    FindAppend("#", fragment, '?');
  }

  /** What is printed after the scheme. */
  function Rest(u: Url, order: seq<Text>): Text
    requires forall k :: k in order ==> k in u.query
  {
    UrlEncoded(u.authority) + (UrlEncoded(u.path) + Tail(u, order))
  }

  /** The structure of what is printed after the scheme can be seen again. */
  ghost predicate Structured(u: Url, order: seq<Text>)
    requires forall k :: k in order ==> k in u.query
  {
    && '/' !in u.authority
    && (u.path == [] || u.path[0] == '/')
    && (order == [] ==> '?' !in u.fragment)
    && (u.path == [] ==> '/' !in Tail(u, order))
  }

  /** Authority and path show no '?' and no '#'. */
  lemma MarkFinds(u: Url, order: seq<Text>, c: Char)
    requires forall k :: k in order ==> k in u.query
    requires c == '?' || c == '#'
    ensures var t := FindFirst(Tail(u, order), c, 0);
      FindFirst(Rest(u, order), c, 0) ==
      if t == NPOS then NPOS else |UrlEncoded(u.authority)| + |UrlEncoded(u.path)| + t
  {
    EncodedChars(u.authority);
    EncodedChars(u.path);
    FindAppend(UrlEncoded(u.path), Tail(u, order), c);
    FindAppend(UrlEncoded(u.authority), UrlEncoded(u.path) + Tail(u, order), c);
  }

  /** Without a '?' in the fragment alone, the path ends where it should. */
  lemma StopFinds(u: Url, order: seq<Text>)
    requires forall k :: k in order ==> k in u.query
    requires order == [] ==> '?' !in u.fragment
    ensures var s := Rest(u, order);
      Stop(s, FindFirst(s, '?', 0), FindFirst(s, '#', 0)) == |UrlEncoded(u.authority)| + |UrlEncoded(u.path)|
  {
    MarkFinds(u, order, '?');
    MarkFinds(u, order, '#');
    TailFinds(u, order);
  }

  lemma QueryMarks(u: Url, order: seq<Text>)
    requires forall k :: k in order ==> k in u.query
    requires order != []
    ensures var s, n := Rest(u, order), |UrlEncoded(u.authority)| + |UrlEncoded(u.path)|;
      && FindFirst(s, '?', 0) == n
      && FindFirst(s, '#', 0) == (if u.fragment == [] then NPOS else n + 1 + |Items(u.query, order)|)
  {
    MarkFinds(u, order, '?');
    MarkFinds(u, order, '#');
    TailFinds(u, order);
  }

  /** The query and the fragment are read as printed, whatever stands before them. */
  lemma QueryPieces(u: Url, order: seq<Text>)
    requires forall k :: k in order ==> k in u.query
    requires order != []
    ensures var p := Split(Rest(u, order), 0); p.query == Some(Items(u.query, order)) && p.fragment == u.fragment
  {
    QueryMarks(u, order);
    var s := Rest(u, order);
    QuerySplit(s, UrlEncoded(u.authority), UrlEncoded(u.path), Items(u.query, order), u.fragment);
  }

  lemma FragmentMarks(u: Url)
    requires '?' !in u.fragment
    ensures var s, n := Rest(u, []), |UrlEncoded(u.authority)| + |UrlEncoded(u.path)|;
      FindFirst(s, '?', 0) == NPOS && FindFirst(s, '#', 0) == (if u.fragment == [] then NPOS else n)
  {
    MarkFinds(u, [], '?');
    MarkFinds(u, [], '#');
    TailFinds(u, []);
  }

  lemma FragmentPieces(u: Url)
    requires '?' !in u.fragment
    ensures var p := Split(Rest(u, []), 0); p.query == None && p.fragment == u.fragment
  {
    FragmentMarks(u);
    var s := Rest(u, []);
    FragmentSplit(s, UrlEncoded(u.authority), UrlEncoded(u.path), u.fragment);
  }

  lemma MistakenQuery(u: Url)
    requires '?' in u.fragment
    ensures Split(Rest(u, []), 0).query.Some?
  {
    MarkFinds(u, [], '?');
    TailFinds(u, []);
  }

  lemma QuerySplit(s: Text, a: Text, p: Text, items: Text, fragment: Text)
    requires s == a + (p + ("?" + items + (if fragment == [] then [] else "#" + fragment)))
    requires FindFirst(s, '?', 0) == |a| + |p|
    requires FindFirst(s, '#', 0) == if fragment == [] then NPOS else |a| + |p| + 1 + |items|
    ensures Split(s, 0).query == Some(items) && Split(s, 0).fragment == fragment
  {
    var tail := if fragment == [] then [] else "#" + fragment;
    Regroup(a, p, "?" + items + tail);
    Regroup(a + p, "?" + items, tail);
    Regroup(a + p, "?", items);
    ThreePieces(a + p + "?", items, tail);
    if fragment != [] { assert tail[1..] == fragment; }
  }

  lemma ThreePieces(front: Text, middle: Text, back: Text)
    ensures var s := front + middle + back;
      && s[|front|..|front| + |middle|] == middle
      && s[|front| + |middle|..] == back
      && (back != [] ==> s[|front| + |middle| + 1..] == back[1..])
  {
  }

  lemma FragmentSplit(s: Text, a: Text, p: Text, fragment: Text)
    requires s == a + (p + ([] + (if fragment == [] then [] else "#" + fragment)))
    requires FindFirst(s, '?', 0) == NPOS
    requires FindFirst(s, '#', 0) == if fragment == [] then NPOS else |a| + |p|
    ensures Split(s, 0).query == None && Split(s, 0).fragment == fragment
  {
    var n := |a| + |p|;
    if fragment != [] { assert s[n + 1..] == fragment; }
  }

  lemma SplitStructured(u: Url, order: seq<Text>)
    requires forall k :: k in order ==> k in u.query
    requires Structured(u, order)
    ensures var p := Split(Rest(u, order), 0);
      p.authority == UrlEncoded(u.authority) && p.path == UrlEncoded(u.path)
  {
    StopFinds(u, order);
    SlashFind(u, order);
    EncodedChars(u.path);
    PathSplit(Rest(u, order), UrlEncoded(u.authority), UrlEncoded(u.path), Tail(u, order));
  }

  lemma PathSplit(s: Text, a: Text, p: Text, t: Text)
    requires s == a + (p + t)
    requires FindFirst(s, '/', 0) == if p == [] then NPOS else |a|
    requires Stop(s, FindFirst(s, '?', 0), FindFirst(s, '#', 0)) == |a| + |p|
    ensures Split(s, 0).authority == a && Split(s, 0).path == p
  {
    assert s[0..|a|] == a && s[|a|..|a| + |p|] == p;
  }

  lemma SlashFind(u: Url, order: seq<Text>)
    requires forall k :: k in order ==> k in u.query
    requires Structured(u, order)
    ensures FindFirst(Rest(u, order), '/', 0) == if u.path == [] then NPOS else |UrlEncoded(u.authority)|
  {
    var a, p, t := UrlEncoded(u.authority), UrlEncoded(u.path), Tail(u, order);
    EncodedChars(u.authority);
    EncodedChars(u.path);
    FindAppend(a, p + t, '/');
    if u.path != [] {
      assert (p + t)[0] == '/';
    } else {
      assert p + t == t;
    }
  }

  lemma DecodedNotEmpty(s: Text)
    ensures |UrlDecoded(s)| == 0 ==> s == []
  {
  }

  /** If the authority and the path read have the right lengths, the structure is there. */
  lemma StructureNeeded(u: Url, order: seq<Text>)
    requires forall k :: k in order ==> k in u.query
    requires order == [] ==> '?' !in u.fragment
    requires var p := Split(Rest(u, order), 0);
      |UrlDecoded(p.authority)| == |u.authority| && |UrlDecoded(p.path)| == |u.path|
    ensures Structured(u, order)
  {
    var a, p, t, s := UrlEncoded(u.authority), UrlEncoded(u.path), Tail(u, order), Rest(u, order);
    EncodedChars(u.authority);
    EncodedChars(u.path);
    StopFinds(u, order);
    TailFinds(u, order);
    var k := FindFirst(s, '/', 0);
    FindAppend(a, p + t, '/');
    FindAppend(p, t, '/');
    if '/' in u.authority {
      AuthorityTooShort(u, order);
      assert false;
    } else if k == NPOS {
      assert Split(s, 0).path == [];
    } else if k > |a| {
      AuthorityTooLong(u, order, k);
      assert false;
    }
  }

  lemma AuthorityTooShort(u: Url, order: seq<Text>)
    requires forall k :: k in order ==> k in u.query
    requires '/' in u.authority
    ensures |UrlDecoded(Split(Rest(u, order), 0).authority)| < |u.authority|
  {
    SlashCutsShort(u.authority, UrlEncoded(u.path) + Tail(u, order));
  }

  lemma SlashCutsShort(authority: Text, rest: Text)
    requires '/' in authority
    ensures |UrlDecoded(Split(UrlEncoded(authority) + rest, 0).authority)| < |authority|
  {
    var j := FindFirst(authority, '/', 0);
    var front, back := authority[..j], authority[j..];
    assert authority == front + back;
    EncodedAppend(front, back);
    EncodedChars(front);
    EncodedChars(back);
    Regroup(UrlEncoded(front), UrlEncoded(back), rest);
    FrontPiece(UrlEncoded(front), UrlEncoded(back) + rest);
    DecodedLength(front);
  }

  lemma FrontPiece(front: Text, rest: Text)
    requires '/' !in front && rest != [] && rest[0] == '/'
    ensures Split(front + rest, 0).authority == front
  {
    FindAppend(front, rest, '/');
    assert (front + rest)[0..|front|] == front;
  }

  lemma DecodedLength(s: Text)
    ensures |UrlDecoded(UrlEncoded(s))| == |s|
  {
    DecodeEncodedThen(s, false, []);
    assert WrittenAll(s, false) + [] == UrlEncoded(s);
  }

  lemma AuthorityTooLong(u: Url, order: seq<Text>, k: nat)
    requires forall k :: k in order ==> k in u.query
    requires k == FindFirst(Rest(u, order), '/', 0) && k > |UrlEncoded(u.authority)|
    ensures |UrlDecoded(Split(Rest(u, order), 0).authority)| > |u.authority|
  {
    var a, rest := UrlEncoded(u.authority), UrlEncoded(u.path) + Tail(u, order);
    var more := rest[..k - |a|];
    assert (a + rest)[0..k] == a + more;
    DecodeEncodedThen(u.authority, false, more);
    DecodedNotEmpty(more);
  }

  // ---- The whole ------------------------------------------------------------------------

  /** The part after the scheme comes back exactly when structure and contents do. */
  lemma RestExactly(u: Url, order: seq<Text>, scheme: Text)
    requires Lists(order, u.query)
    ensures Assembled(scheme, Split(Rest(u, order), 0)) == u <==>
      && scheme == u.scheme
      && Structured(u, order)
      && Faithfully(u)
  {
    var p := Split(Rest(u, order), 0);
    var r := Assembled(scheme, p);
    if order == [] && '?' in u.fragment {
      MistakenQuery(u);
      ReadsSomething(map[], p.query.value);
    } else {
      if r == u { StructureNeeded(u, order); }
      if Structured(u, order) { ContentsExactly(u, order, scheme); }
    }
  }

  lemma ContentsExactly(u: Url, order: seq<Text>, scheme: Text)
    requires Lists(order, u.query) && Structured(u, order)
    ensures Assembled(scheme, Split(Rest(u, order), 0)) == u <==> scheme == u.scheme && Faithfully(u)
  {
    SplitStructured(u, order);
    if order == [] { FragmentPieces(u); } else { QueryPieces(u, order); }
    DecodedExactly(u, order, scheme, Split(Rest(u, order), 0));
  }

  lemma DecodedExactly(u: Url, order: seq<Text>, scheme: Text, p: Pieces)
    requires Lists(order, u.query)
    requires p.authority == UrlEncoded(u.authority) && p.path == UrlEncoded(u.path) && p.fragment == u.fragment
    requires p.query == if order == [] then None else Some(Items(u.query, order))
    ensures Assembled(scheme, p) == u <==> scheme == u.scheme && Faithfully(u)
  {
    UrlRoundTripExactly(u.authority, false);
    UrlRoundTripExactly(u.path, false);
    if order == [] { NoneListed(u.query, order); } else { QueryExactly(u.query, order); }
  }

  lemma {:induction false} ReadsSomething(params: Query, query: Text)
    ensures QueryOf(params, query) != map[]
    decreases |query|
  {
    var e := FindFirst(query, '&', 0);
    if e == NPOS {
      LastParameter(params, query);
      AddsSomething(params, query);
    } else {
      var item, rest := query[..e], query[e + 1..];
      MoreParameters(params, query, e, item, rest);
      ReadsSomething(AddParameter(params, item), rest);
    }
  }

  lemma AddsSomething(params: Query, item: Text)
    ensures AddParameter(params, item) != map[]
  {
    assert KeyOf(item) in AddParameter(params, item);
  }

  lemma PrintedRead(u: Url, order: seq<Text>)
    requires forall k :: k in order ==> k in u.query
    ensures if ':' !in u.scheme then Parsed(Printed(u, order)) == Ok(Assembled(ToLower(u.scheme), Split(Rest(u, order), 0)))
      else Parsed(Printed(u, order)).Ok? ==> |Parsed(Printed(u, order)).value.scheme| < |u.scheme|
  {
    Regroup(u.scheme, "://", Rest(u, order));
    SchemeRead(u.scheme, Rest(u, order));
  }

  lemma StructuredMeans(u: Url, order: seq<Text>)
    requires Lists(order, u.query)
    ensures Structured(u, order) <==> Separable(u)
  {
    TailFinds(u, order);
    SomeSlashMeans(u.query, order);
    NoneListed(u.query, order);
  }

  lemma PrintedExactly(u: Url, order: seq<Text>)
    requires Lists(order, u.query)
    ensures Parsed(Printed(u, order)) == Ok(u) <==>
      ':' !in u.scheme && ToLower(u.scheme) == u.scheme && Structured(u, order) && Faithfully(u)
  {
    PrintedRead(u, order);
    RestExactly(u, order, ToLower(u.scheme));
  }

  lemma NoneListed(query: Query, order: seq<Text>)
    requires Lists(order, query)
    ensures order == [] <==> query == map[]
  {
    if order != [] { assert order[0] in query; }
  }

  /** Parsing a printed URL gives back the URL exactly when it meets the conditions
      above, in whatever order its parameters are printed. */
  lemma ParsePrintedExactly(u: Url, order: seq<Text>)
    requires Lists(order, u.query)
    ensures Parsed(Printed(u, order)) == Ok(u) <==> RoundTrips(u)
  {
    LowerFixed(u.scheme);
    StructuredMeans(u, order);
    PrintedExactly(u, order);
  }

  lemma SchemeRead(scheme: Text, rest: Text)
    ensures var s := scheme + ("://" + rest);
      if ':' !in scheme then Parsed(s) == Ok(Assembled(ToLower(scheme), Split(rest, 0)))
      else Parsed(s).Ok? ==> |Parsed(s).value.scheme| < |scheme|
  {
    var s, n := scheme + ("://" + rest), |scheme|;
    FindAppend(scheme, "://" + rest, ':');
    if ':' !in scheme {
      assert ("://" + rest)[0] == ':';
      assert s[n + 1] == '/' && s[n + 2] == '/';
      assert s[..n] == scheme && s[n + 3..] == rest;
      SplitShift(s, n + 3);
    }
  }
}
