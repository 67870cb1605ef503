/** What urldecode() and url::parse() make of any text, whoever wrote it. */
module UrlReading {
  import opened HexCode
  import opened Text
  import opened UrlCode
  import opened Urls
  import opened UrlRoundTrip
  import opened Wrappers

  // ---- Percent-encoding -----------------------------------------------------------------

  /** Which characters stay as they are: the unreserved ones of RFC 3986 but for '~', and
      '/'. */
  lemma KeptExactly(c: Char)
    ensures UrlEncoded([c]) == [c] <==>
      'A' <= c <= 'Z' || 'a' <= c <= 'z' || '0' <= c <= '9' || c in {'-', '_', '.', '/'}
  {
    assert UrlEncoded([c]) == EncodeChar(c) + [];
    assert |EncodeChar(c)| == 1 <==> Kept(c);
  }

  /** Decoding leaves everything alone but what begins with '%'; so '+' is no space. */
  lemma {:induction false} PlainDecoded(s: Text, t: Text)
    requires '%' !in s
    ensures UrlDecoded(s + t) == s + UrlDecoded(t)
  {
    if s == [] {
      assert s + t == t;
    } else {
      assert s == [s[0]] + s[1..];
      assert (s + t)[1..] == s[1..] + t;
      PlainDecoded(s[1..], t);
    }
  }

  lemma NothingDecoded(s: Text)
    requires '%' !in s
    ensures UrlDecoded(s) == s
  {
    PlainDecoded(s, []);
    assert s + [] == s;
  }

  /** After a '%' two digits of either case stand for a byte; anything else that stands
      there is taken for two characters all the same and read as a question mark. */
  lemma PercentDecoded(a: Char, b: Char, t: Text)
    ensures UrlDecoded(['%', a, b] + t) ==
      [if DecodeHalf(a) >= 0 && DecodeHalf(b) >= 0 then (16 * DecodeHalf(a) + DecodeHalf(b)) as char else '?'] + UrlDecoded(t)
  {
    var s := ['%', a, b] + t;
    assert s[3..] == t;
  }

  /** A '%' too close to the end swallows the rest. */
  lemma CutShort(t: Text)
    requires |t| < 2
    ensures UrlDecoded(['%'] + t) == ['?']
  {
  }

  lemma EncodedTilde()
    ensures UrlEncoded(['~']) == ['%', '7', 'E']
  {
    assert UrlEncoded(['~']) == EncodeChar('~') + [];
  }

  // ---- The scheme -----------------------------------------------------------------------

  /** The first ':' stands at k, and two slashes behind it. */
  predicate SchemeEnds(s: Text, k: nat) {
    k + 3 <= |s| && ':' !in s[..k] && s[k..k + 3] == "://"
  }

  lemma SchemeFound(s: Text, k: nat)
    requires SchemeEnds(s, k)
    ensures FindFirst(s, ':', 0) == k && s[k + 1] == '/' && s[k + 2] == '/'
  {
    var front, mark := s[..k], s[k..k + 3];
    assert mark[0] == ':' && mark[1] == '/' && mark[2] == '/';
    assert s == front + s[k..];
    FindAppend(front, s[k..], ':');
    assert s[k..][0] == ':';
  }

  lemma SchemeMarked(s: Text, k: int)
    requires k == FindFirst(s, ':', 0) && k != NPOS && k + 3 <= |s| && s[k + 1] == '/' && s[k + 2] == '/'
    ensures SchemeEnds(s, k)
  {
  }

  /** Parsing succeeds exactly on text whose first ':' begins "://"; it fails in one way
      without any ':', and in another otherwise. */
  lemma ParsesExactly(s: Text)
    ensures Parsed(s).Ok? <==> exists k: nat :: SchemeEnds(s, k)
    ensures Parsed(s) == Err(NoSchemeSeparator) <==> ':' !in s
    ensures forall k: nat :: SchemeEnds(s, k) && Parsed(s).Ok? ==> Parsed(s).value.scheme == ToLower(s[..k])
  {
    var c := FindFirst(s, ':', 0);
    forall k: nat | SchemeEnds(s, k) ensures k == c && s[k + 1] == '/' && s[k + 2] == '/' {
      SchemeFound(s, k);
    }
    if c != NPOS && c + 3 <= |s| && s[c + 1] == '/' && s[c + 2] == '/' { SchemeMarked(s, c); }
  }

  // ---- The pieces -----------------------------------------------------------------------

  /** The generic form of a URL, still encoded: authority, path, query and fragment. */
  predicate Generic(a: Text, p: Text, q: Option<Text>, f: Option<Text>) {
    && '/' !in a && '?' !in a && '#' !in a
    && (p == [] || p[0] == '/') && '?' !in p && '#' !in p
    && (q.Some? ==> '#' !in q.value)
    && (p == [] ==> (q.Some? ==> '/' !in q.value) && (f.Some? ==> '/' !in f.value))
    && (q.None? && f.Some? ==> '?' !in f.value)
  }

  function Behind(q: Option<Text>, f: Option<Text>): Text {
    (if q.Some? then "?" + q.value else []) + (if f.Some? then "#" + f.value else [])
  }

  /** Text in that form is read as it is written: the scheme in lower case, authority and
      path decoded, the query parameter by parameter, and the fragment as it is. */
  lemma GenericParsed(scheme: Text, a: Text, p: Text, q: Option<Text>, f: Option<Text>)
    requires ':' !in scheme && Generic(a, p, q, f)
    ensures Parsed(scheme + ("://" + (a + (p + Behind(q, f))))) ==
      Ok(Url(ToLower(scheme), UrlDecoded(a), UrlDecoded(p),
             if q.Some? then QueryOf(map[], q.value) else map[],
             if f.Some? then f.value else []))
  {
    var s := a + (p + Behind(q, f));
    SchemeRead(scheme, s);
    GenericSplit(a, p, q, f);
  }

  lemma GenericSplit(a: Text, p: Text, q: Option<Text>, f: Option<Text>)
    requires Generic(a, p, q, f)
    ensures Split(a + (p + Behind(q, f)), 0) == Pieces(a, p, q, if f.Some? then f.value else [])
  {
    var s := a + (p + Behind(q, f));
    GenericMarks(a, p, q, f);
    PathSplit(s, a, p, Behind(q, f));
    Regroup(a, p, Behind(q, f));
    BehindSplit(a + p, q, f, s);
  }

  lemma GenericMarks(a: Text, p: Text, q: Option<Text>, f: Option<Text>)
    requires Generic(a, p, q, f)
    ensures var s, n := a + (p + Behind(q, f)), |a| + |p|;
      && FindFirst(s, '/', 0) == (if p == [] then NPOS else |a|)
      && FindFirst(s, '?', 0) == (if q.Some? then n else NPOS)
      && FindFirst(s, '#', 0) == (if f.None? then NPOS else if q.Some? then n + 1 + |q.value| else n)
  {
    var b := Behind(q, f);
    Marks(a, p, b, '/');
    Marks(a, p, b, '?');
    Marks(a, p, b, '#');
    var x, y := if q.Some? then "?" + q.value else [], if f.Some? then "#" + f.value else [];
    FindAppend(x, y, '/');
    FindAppend(x, y, '?');
    FindAppend(x, y, '#');
    BehindMarks(q, f);
  }

  lemma BehindMarks(q: Option<Text>, f: Option<Text>)
    requires (q.Some? ==> '#' !in q.value) && (q.None? && f.Some? ==> '?' !in f.value)
    ensures FindFirst(Behind(q, f), '?', 0) == if q.Some? then 0 else NPOS
    ensures FindFirst(Behind(q, f), '#', 0) == if f.None? then NPOS else if q.Some? then 1 + |q.value| else 0
    ensures '/' in Behind(q, f) <==> (q.Some? && '/' in q.value) || (f.Some? && '/' in f.value)
  {
    var b := Behind(q, f);
    if q.Some? {
      assert b[0] == '?';
      if f.Some? { assert b[1 + |q.value|] == '#'; }
      assert forall i :: 0 < i <= |q.value| ==> b[i] == q.value[i - 1];
    } else if f.Some? {
      assert b[0] == '#';
      assert forall i :: 0 < i < |b| ==> b[i] == f.value[i - 1];
    }
  }

  lemma Marks(a: Text, p: Text, b: Text, c: Char)
    requires c !in a && (c == '/' ==> p == [] || p[0] == '/') && (c != '/' ==> c !in p)
    ensures FindFirst(a + (p + b), c, 0) ==
      if c == '/' && p != [] then |a|
      else if FindFirst(b, c, 0) == NPOS then NPOS else |a| + |p| + FindFirst(b, c, 0)
  {
    FindAppend(a, p + b, c);
    FindAppend(p, b, c);
    if c == '/' && p != [] { assert FindFirst(p, c, 0) == 0; }
  }

  lemma BehindSplit(front: Text, q: Option<Text>, f: Option<Text>, s: Text)
    requires s == front + Behind(q, f)
    requires FindFirst(s, '?', 0) == if q.Some? then |front| else NPOS
    requires FindFirst(s, '#', 0) ==
      if f.None? then NPOS else if q.Some? then |front| + 1 + |q.value| else |front|
    ensures Split(s, 0).query == q && Split(s, 0).fragment == if f.Some? then f.value else []
  {
    var tail := Marked(f);
    if q.Some? {
      WithQuery(front, q.value, tail, s);
    } else {
      assert [] + tail == tail;
      WithoutQuery(front, tail, s);
    }
  }

  function Marked(f: Option<Text>): (tail: Text)
    ensures f.Some? ==> tail != [] && tail[1..] == f.value
    ensures f.None? ==> tail == []
  {
    if f.Some? then "#" + f.value else []
  }

  lemma WithQuery(front: Text, q: Text, tail: Text, s: Text)
    requires s == front + ("?" + q + tail) && FindFirst(s, '?', 0) == |front|
    requires FindFirst(s, '#', 0) == if tail == [] then NPOS else |front| + 1 + |q|
    ensures Split(s, 0).query == Some(q)
    ensures Split(s, 0).fragment == if tail == [] then [] else tail[1..]
  {
    QueryCut(front, q, tail, s);
    QueryBehind(s, |front|, |front| + 1 + |q|, tail != []);
  }

  lemma WithoutQuery(front: Text, tail: Text, s: Text)
    requires s == front + tail && FindFirst(s, '?', 0) == NPOS
    requires FindFirst(s, '#', 0) == if tail == [] then NPOS else |front|
    ensures Split(s, 0).query == None
    ensures Split(s, 0).fragment == if tail == [] then [] else tail[1..]
  {
    FragmentCut(front, tail, s);
  }

  lemma QueryBehind(s: Text, n: nat, m: nat, marked: bool)
    requires n < m <= |s| && FindFirst(s, '?', 0) == n && FindFirst(s, '#', 0) == if marked then m else NPOS
    requires marked <==> m < |s|
    ensures Split(s, 0).query == Some(s[n + 1..m])
    ensures Split(s, 0).fragment == if marked then s[m + 1..] else []
  {
    QueryOfCut(s, n, if marked then m else NPOS, FindFirst(s, '/', 0));
  }

  lemma QueryOfCut(s: Text, question: nat, hash: int, slash: int)
    requires question < |s| && Position(hash, s, 0) && Position(slash, s, 0) && (hash != NPOS ==> question < hash)
    ensures var pieces, stop := Cut(s, 0, question, hash, slash), if hash != NPOS then hash else |s|;
      && pieces.query == Some(s[question + 1..stop])
      && pieces.fragment == if hash == NPOS then [] else s[hash + 1..]
  {
  }

  lemma QueryCut(front: Text, q: Text, tail: Text, s: Text)
    requires s == front + ("?" + q + tail)
    ensures |s| == |front| + 1 + |q| + |tail|
    ensures s[|front| + 1..|front| + 1 + |q|] == q
    ensures tail != [] ==> s[|front| + 1 + |q| + 1..] == tail[1..]
  {
    Regroup(front, "?" + q, tail);
    Regroup(front, "?", q);
    ThreePieces(front + "?", q, tail);
  }

  lemma FragmentCut(front: Text, tail: Text, s: Text)
    requires s == front + tail
    ensures tail != [] ==> s[|front| + 1..] == tail[1..]
  {
  }

  /** A slash that comes only behind a question mark still ends the authority, and the path
      goes on to the end of the text. */
  lemma SlashInQuery(a: Text, q: Text, r: Text)
    requires '/' !in a && '?' !in a && '#' !in a && '/' !in q && '#' !in q
    ensures var pieces := Split(a + ("?" + (q + ("/" + r))), 0);
      pieces.authority == a + ("?" + q) && pieces.path == "/" + r
  {
    var s, front := a + ("?" + (q + ("/" + r))), a + ("?" + q);
    var tail := "/" + r;
    assert s == front + tail by {
      Regroup(a, "?" + q, tail);
      Regroup("?", q, tail);
    }
    FirstIs(front, tail, '/');
    FirstIs(a, "?" + (q + tail), '?');
    assert '?' !in a && FindFirst(s, '?', 0) == |a|;
    FrontCut(s, |a|, FindFirst(s, '#', 0), |front|);
    assert s[..|front|] == front && s[|front|..] == tail;
  }

  lemma FirstIs(front: Text, tail: Text, c: Char)
    requires c !in front && tail != [] && tail[0] == c
    ensures FindFirst(front + tail, c, 0) == |front|
  {
    FindAppend(front, tail, c);
    assert FindFirst(tail, c, 0) == 0;
  }

  lemma FrontCut(s: Text, question: nat, hash: int, slash: nat)
    requires question < slash < |s| && Position(hash, s, 0)
    ensures Cut(s, 0, question, hash, slash).authority == s[..slash]
    ensures Cut(s, 0, question, hash, slash).path == s[slash..]
  {
  }

  /** A question mark in the fragment still begins a query, which goes on to the end of the
      text and is part of the fragment as well. */
  lemma QuestionInFragment(front: Text, f: Text, q: Text)
    requires '#' !in front && '?' !in front && '?' !in f
    ensures var pieces := Split(front + ("#" + (f + ("?" + q))), 0);
      pieces.query == Some(q) && pieces.fragment == f + ("?" + q)
  {
    var s, n := front + ("#" + (f + ("?" + q))), |front|;
    HashThenQuestion(front, f, "?" + q, s);
    LateQuestion(s, n + 1 + |f|, n, FindFirst(s, '/', 0));
  }

  lemma HashThenQuestion(front: Text, f: Text, tail: Text, s: Text)
    requires '#' !in front && '?' !in front && '?' !in f && tail != [] && tail[0] == '?'
    requires s == front + ("#" + (f + tail))
    ensures FindFirst(s, '#', 0) == |front| && FindFirst(s, '?', 0) == |front| + 1 + |f|
    ensures |s| == |front| + 1 + |f| + |tail|
    ensures s[|front| + 1..] == f + tail && s[|front| + 1 + |f| + 1..] == tail[1..]
  {
    FirstIs(front, "#" + (f + tail), '#');
    Regroup(front, "#" + f, tail);
    Regroup("#", f, tail);
    FirstIs(front + ("#" + f), tail, '?');
  }

  lemma LateQuestion(s: Text, question: nat, hash: nat, slash: int)
    requires hash < question < |s| && Position(slash, s, 0)
    ensures Cut(s, 0, question, hash, slash).query == Some(s[question + 1..])
    ensures Cut(s, 0, question, hash, slash).fragment == s[hash + 1..]
  {
  }

  // ---- Parameters -----------------------------------------------------------------------

  /** A parameter without '=' is a flag that is set ... */
  lemma FlagRead(params: Query, key: Text)
    requires '&' !in key && '=' !in key
    ensures QueryOf(params, key) == params[UrlDecoded(ToLower(key)) := "1"]
  {
    LastParameter(params, key);
  }

  /** ... and one with '=' is split at the first. */
  lemma PairRead(params: Query, key: Text, value: Text)
    requires '&' !in key && '=' !in key && '&' !in value
    ensures QueryOf(params, key + ("=" + value)) == params[UrlDecoded(ToLower(key)) := UrlDecoded(NormalizeValue(value))]
  {
    var item := key + ("=" + value);
    LastParameter(params, item);
    PairParts(key, value, item);
  }

  lemma PairParts(key: Text, value: Text, item: Text)
    requires '=' !in key && item == key + ("=" + value)
    ensures FindFirst(item, '=', 0) == |key| && item[..|key|] == key && item[|key| + 1..] == value
  {
    FindAppend(key, "=" + value, '=');
    assert ("=" + value)[0] == '=';
  }

  lemma TakenOut(a: Text, e: nat, item: Text, rest: Text, b: Text)
    requires e < |a| && a[e] == '&' && item == a[..e] && rest == a[e + 1..]
    ensures a + "&" + b == item + "&" + (rest + "&" + b)
  {
    assert a == item + "&" + rest;
  }

  /** Parameters are read from left to right, later ones over earlier ones. */
  lemma {:induction false} ParametersInTurn(params: Query, a: Text, b: Text)
    ensures QueryOf(params, a + "&" + b) == QueryOf(QueryOf(params, a), b)
    decreases |a|
  {
    var e := FindFirst(a, '&', 0);
    Regroup(a, "&", b);
    if e == NPOS {
      LastParameter(params, a);
      ItemThenRest(params, a, b);
    } else {
      var item, rest := a[..e], a[e + 1..];
      assert '&' !in item;
      MoreParameters(params, a, e, item, rest);
      TakenOut(a, e, item, rest, b);
      ItemThenRest(params, item, rest + "&" + b);
      ParametersInTurn(AddParameter(params, item), rest, b);
    }
  }

  /** What becomes of a value. */
  lemma NormalizedExactly(value: Text)
    ensures NormalizeValue(value) == "1" <==> ToLower(value) in {"true", "yes", "1"}
    ensures NormalizeValue(value) == "0" <==> ToLower(value) in {"false", "no", "0"}
    ensures ToLower(value) !in {"true", "yes", "false", "no"} ==> NormalizeValue(value) == ToLower(value)
  {
    var l := ToLower(value);
    ReadsIsEqual(l, "true");
    ReadsIsEqual(l, "yes");
    ReadsIsEqual(l, "false");
    ReadsIsEqual(l, "no");
    assert "1" != "0";
  }
}
