/** Which POSIX paths survive conversion to Windows form and back, for every string: a path
    with a backslash never does. The proof counts slashes and backslashes. */
module PathTheorem {
  import opened Path
  import opened PathRoundTrip
  import opened Text
  import opened Wrappers

  function Count(s: string, c: char): nat {
    if s == [] then 0 else (if s[0] == c then 1 else 0) + Count(s[1..], c)
  }

  lemma {:induction false} CountAppend(s: string, t: string, c: char)
    ensures Count(s + t, c) == Count(s, c) + Count(t, c)
  {
    if s == [] {
      assert s + t == t;
    } else {
      assert (s + t)[1..] == s[1..] + t;
      CountAppend(s[1..], t, c);
    }
  }

  lemma {:induction false} CountNone(s: string, c: char)
    ensures Count(s, c) == 0 <==> c !in s
  {
    if s != [] {
      assert s == [s[0]] + s[1..];
      CountNone(s[1..], c);
    }
  }

  function One(b: bool): nat {
    if b then 1 else 0
  }

  function Doubled(s: string): string {
    Replaced(s, '\\', ['\\', '\\'])
  }

  // ---- Separators in Windows form -------------------------------------------------------

  /** Reading s with a backslash waiting or not: how many single backslashes are met, and
      whether one waits at the end. Two in a row are a pair. */
  function Singles(s: string, waiting: bool): (nat, bool) {
    if s == [] then (0, waiting)
    else if s[0] == '\\' then Singles(s[1..], !waiting)
    else var (n, w) := Singles(s[1..], false); (n + One(waiting), w)
  }

  lemma {:induction false} SinglesAppend(s: string, t: string, waiting: bool)
    ensures var (n1, w1) := Singles(s, waiting);
      var (n2, w2) := Singles(t, w1);
      Singles(s + t, waiting) == (n1 + n2, w2)
  {
    if s == [] {
      assert s + t == t;
    } else {
      assert (s + t)[1..] == s[1..] + t;
      SinglesAppend(s[1..], t, if s[0] == '\\' then !waiting else false);
    }
  }

  /** Doubled backslashes make no new singles. */
  lemma {:induction false} SinglesDoubled(s: string, waiting: bool)
    ensures var (n, w) := Singles(Doubled(s), waiting); n + One(w) <= One(waiting)
  {
    if s != [] {
      if s[0] == '\\' {
        assert Doubled(s)[1..][1..] == Doubled(s[1..]);
        SinglesDoubled(s[1..], waiting);
      } else {
        assert Doubled(s)[1..] == Doubled(s[1..]);
        SinglesDoubled(s[1..], false);
      }
    }
  }

  function Woven(tokens: seq<string>): string {
    Joined(QuotedAll(tokens), '\\')
  }

  lemma WovenNext(tokens: seq<string>)
    requires tokens != []
    ensures Woven(tokens) ==
      if |tokens| == 1 then Doubled(tokens[0]) else Doubled(tokens[0]) + (['\\'] + Woven(tokens[1..]))
  {
    assert QuotedAll(tokens)[1..] == QuotedAll(tokens[1..]);
  }

  /** Singles come from the joints only ... */
  lemma {:induction false} SinglesWoven(tokens: seq<string>, waiting: bool)
    requires tokens != []
    ensures var (n, w) := Singles(Woven(tokens), waiting); n + One(w) <= One(waiting) + |tokens| - 1
  {
    WovenNext(tokens);
    SinglesDoubled(tokens[0], waiting);
    if |tokens| > 1 {
      var joint := ['\\'] + Woven(tokens[1..]);
      var w1 := Singles(Doubled(tokens[0]), waiting).1;
      SinglesAppend(Doubled(tokens[0]), joint, waiting);
      assert joint[1..] == Woven(tokens[1..]);
      SinglesWoven(tokens[1..], !w1);
    }
  }

  /** ... and a last joint that closes a pair costs two. */
  lemma {:induction false} SinglesWovenEnd(tokens: seq<string>, waiting: bool)
    requires |tokens| >= 2 && tokens[|tokens| - 1] == []
    ensures var (n, w) := Singles(Woven(tokens), waiting); !w ==> n + 2 <= One(waiting) + |tokens| - 1
  {
    WovenNext(tokens);
    WovenNext(tokens[1..]);
    SinglesDoubled(tokens[0], waiting);
    var joint := ['\\'] + Woven(tokens[1..]);
    var w1 := Singles(Doubled(tokens[0]), waiting).1;
    SinglesAppend(Doubled(tokens[0]), joint, waiting);
    assert joint[1..] == Woven(tokens[1..]);
    if |tokens| > 2 { SinglesWovenEnd(tokens[1..], !w1); }
  }

  // ---- What the way back makes of it ----------------------------------------------------

  /** From i on: single backslashes become '/', pairs stay, but for the last two characters;
      and a separator at the very end is dropped. */
  function ReadBack(w: string, i: nat): string
    requires i <= |w|
    decreases |w| - i
  {
    if i == |w| then []
    else if w[i] != '\\' then [w[i]] + ReadBack(w, i + 1)
    else if Quoted(w, i) then ['\\', '\\'] + ReadBack(w, i + 2)
    else if i + 1 == |w| then []
    else ['/'] + ReadBack(w, i + 1)
  }

  lemma {:induction false} BackCopies(w: string, start: nat, pos: nat)
    requires start <= pos <= |w| && forall i :: start <= i < pos ==> w[i] != '\\'
    ensures ReadBack(w, start) == w[start..pos] + ReadBack(w, pos)
    decreases pos - start
  {
    if start < pos {
      BackCopies(w, start + 1, pos);
      Regroup([w[start]], w[start + 1..pos], ReadBack(w, pos));
      assert [w[start]] + w[start + 1..pos] == w[start..pos];
    } else {
      assert w[start..pos] == [];
    }
  }

  lemma Copied(w: string, sub: nat, start: nat, pos: nat)
    requires sub <= start <= pos <= |w| && forall i :: start <= i < pos ==> w[i] != '\\'
    ensures w[sub..start] + ReadBack(w, start) == w[sub..pos] + ReadBack(w, pos)
  {
    BackCopies(w, start, pos);
    Regroup(w[sub..start], w[start..pos], ReadBack(w, pos));
    assert w[sub..start] + w[start..pos] == w[sub..pos];
  }

  lemma PairCopied(w: string, sub: nat, pos: nat)
    requires sub <= pos < |w| && w[pos] == '\\' && Quoted(w, pos)
    ensures w[sub..pos] + ReadBack(w, pos) == w[sub..pos + 2] + ReadBack(w, pos + 2)
  {
    Regroup(w[sub..pos], ['\\', '\\'], ReadBack(w, pos + 2));
    assert w[sub..pos] + ['\\', '\\'] == w[sub..pos + 2];
  }

  lemma SeparatorRead(w: string, sub: nat, pos: nat, rest: seq<string>)
    requires sub <= pos && pos + 1 < |w| && w[pos] == '\\' && !Quoted(w, pos) && rest != []
    requires Joined(rest, '/') == w[pos + 1..pos + 1] + ReadBack(w, pos + 1)
    ensures Joined([w[sub..pos]] + rest, '/') == w[sub..pos] + ReadBack(w, pos)
  {
    var t, tail := w[sub..pos], ReadBack(w, pos + 1);
    assert w[pos + 1..pos + 1] + tail == tail;
    assert ReadBack(w, pos) == ['/'] + tail;
    JoinedApart(t, rest, tail);
  }

  lemma JoinedApart(t: string, rest: seq<string>, tail: string)
    requires rest != [] && Joined(rest, '/') == tail
    ensures Joined([t] + rest, '/') == t + (['/'] + tail)
  {
    JoinedNext(t, rest, '/');
    Regroup(t, ['/'], tail);
  }

  lemma LastToken(w: string, start: nat, sub: nat)
    requires sub <= start <= |w|
    requires var pos := FindFirst(w, '\\', start); pos == NPOS || (pos + 1 == |w| && !Quoted(w, pos))
    ensures Tokens(w, '\\', start, sub, true) != []
    ensures Joined(Tokens(w, '\\', start, sub, true), '/') == w[sub..start] + ReadBack(w, start)
  {
    var pos := FindFirst(w, '\\', start);
    var end := if pos == NPOS then |w| else pos;
    Copied(w, sub, start, end);
    assert ReadBack(w, end) == [];
    assert w[sub..|w|] == w[sub..];
    if pos != NPOS {
      assert Tokens(w, '\\', pos + 1, pos + 1, false) == [];
      assert Tokens(w, '\\', start, sub, true) == [w[sub..pos]] + [];
    }
    assert Tokens(w, '\\', start, sub, true) == [w[sub..end]];
  }

  /** The tokens from start on, of which the first began at sub, joined with '/'. */
  predicate ComesBack(w: string, start: nat, sub: nat)
    requires sub <= start <= |w|
  {
    var tokens := Tokens(w, '\\', start, sub, true);
    tokens != [] && Joined(tokens, '/') == w[sub..start] + ReadBack(w, start)
  }

  lemma PairStays(w: string, start: nat, pos: nat, sub: nat)
    requires sub <= start && pos == FindFirst(w, '\\', start) && pos < |w| && Quoted(w, pos)
    requires ComesBack(w, pos + 2, sub)
    ensures ComesBack(w, start, sub)
  {
    Copied(w, sub, start, pos);
    PairCopied(w, sub, pos);
  }

  lemma TokenEnds(w: string, start: nat, pos: nat, sub: nat)
    requires sub <= start && pos == FindFirst(w, '\\', start) && pos + 1 < |w| && !Quoted(w, pos)
    requires ComesBack(w, pos + 1, pos + 1)
    ensures ComesBack(w, start, sub)
  {
    Copied(w, sub, start, pos);
    var rest := Tokens(w, '\\', pos + 1, pos + 1, true);
    assert Tokens(w, '\\', start, sub, true) == [w[sub..pos]] + rest;
    SeparatorRead(w, sub, pos, rest);
  }

  lemma {:induction false} TokensBack(w: string, start: nat, sub: nat)
    requires sub <= start <= |w|
    ensures ComesBack(w, start, sub)
    decreases |w| - start
  {
    var pos := FindFirst(w, '\\', start);
    if pos == NPOS || (pos + 1 == |w| && !Quoted(w, pos)) {
      LastToken(w, start, sub);
    } else if Quoted(w, pos) {
      TokensBack(w, pos + 2, sub);
      PairStays(w, start, pos, sub);
    } else {
      TokensBack(w, pos + 1, pos + 1);
      TokenEnds(w, start, pos, sub);
    }
  }

  /** The last two characters are a pair, which is taken apart. */
  predicate EndsPaired(w: string) {
    w != [] && w[|w| - 1] == '\\' && !Singles(w, false).1
  }

  /** How many slashes and backslashes come back. */
  predicate BackCounted(w: string, back: string) {
    var (n, waiting) := Singles(w, false);
    && Count(back, '/') == n + One(EndsPaired(w))
    && Count(back, '\\') + n + One(waiting) + 2 * One(EndsPaired(w)) == Count(w, '\\')
    && (EndsPaired(w) ==> back != [] && back[|back| - 1] == '/')
  }

  lemma CopyCounted(c: char, w: string, back: string)
    requires c != '/' && c != '\\' && BackCounted(w, back)
    ensures BackCounted([c] + w, [c] + back)
  {
    assert ([c] + w)[1..] == w && ([c] + back)[1..] == back;
  }

  lemma PairCounted(w: string, back: string)
    requires w != [] && BackCounted(w, back)
    ensures BackCounted(['\\', '\\'] + w, ['\\', '\\'] + back)
  {
    var pw := ['\\', '\\'] + w;
    assert pw[1..] == ['\\'] + w && pw[1..][1..] == w;
    var pb := ['\\', '\\'] + back;
    assert pb[1..] == ['\\'] + back && pb[1..][1..] == back;
  }

  lemma SeparatorCounted(w: string, back: string)
    requires w != [] && w[0] != '\\' && BackCounted(w, back)
    ensures BackCounted(['\\'] + w, ['/'] + back)
  {
    assert (['\\'] + w)[1..] == w && (['/'] + back)[1..] == back;
  }

  lemma LastCounted()
    ensures BackCounted(['\\'], []) && BackCounted(['\\', '\\'], ['/'])
  {
    assert ['\\', '\\'][1..] == ['\\'];
  }

  lemma {:induction false} BackCounts(w: string, i: nat)
    requires i <= |w| && '/' !in w
    ensures BackCounted(w[i..], ReadBack(w, i))
    decreases |w| - i
  {
    if i == |w| {
    } else if w[i] != '\\' {
      BackCounts(w, i + 1);
      CopyCounted(w[i], w[i + 1..], ReadBack(w, i + 1));
      assert w[i..] == [w[i]] + w[i + 1..];
    } else if Quoted(w, i) {
      BackCounts(w, i + 2);
      PairCounted(w[i + 2..], ReadBack(w, i + 2));
      assert w[i..] == ['\\', '\\'] + w[i + 2..];
    } else if i + 2 < |w| || (i + 2 == |w| && w[i + 1] != '\\') {
      BackCounts(w, i + 1);
      SeparatorCounted(w[i + 1..], ReadBack(w, i + 1));
      assert w[i..] == ['\\'] + w[i + 1..];
    } else {
      LastCounted();
      assert w[i..] == if i + 1 == |w| then ['\\'] else ['\\', '\\'];
    }
  }

  // ---- The tokens of a POSIX path -------------------------------------------------------

  function Backslashes(tokens: seq<string>): nat {
    if tokens == [] then 0 else Count(tokens[0], '\\') + Backslashes(tokens[1..])
  }

  predicate EndsInBackslash(s: string) {
    s != [] && s[|s| - 1] == '\\'
  }

  lemma CountField(p: string, start: nat, pos: nat, c: char)
    requires c == '/' || c == '\\'
    requires start <= pos < |p| && p[pos] == '/' && forall i :: start <= i < pos ==> p[i] != '/'
    ensures Count(p[start..], c) == Count(p[start..pos], c) + One(c == '/') + Count(p[pos + 1..], c)
    ensures Count(p[start..pos], '/') == 0
  {
    assert p[start..] == p[start..pos] + (['/'] + p[pos + 1..]);
    CountAppend(p[start..pos], ['/'] + p[pos + 1..], c);
    assert (['/'] + p[pos + 1..])[1..] == p[pos + 1..];
    CountNone(p[start..pos], '/');
  }

  /** Of fields with that many slashes and backslashes, how many are not among the tokens. */
  function Dropped(tokens: seq<string>, slashes: nat, ends: bool): int {
    slashes + 1 - One(ends) - |tokens|
  }

  /** A field is dropped only with a backslash in it; and if none is, the last token before
      a '/' at the end does not end in one. */
  predicate Kept(tokens: seq<string>, slashes: nat, backslashes: nat, ends: bool) {
    && Dropped(tokens, slashes, ends) >= 0
    && Backslashes(tokens) <= backslashes
    && (Dropped(tokens, slashes, ends) == 0 ==> Backslashes(tokens) == backslashes)
    && (Dropped(tokens, slashes, ends) == 0 && ends && tokens != [] ==> !EndsInBackslash(tokens[|tokens| - 1]))
    && forall t :: t in tokens ==> '/' !in t
  }

  lemma KeptDropped(field: string, rest: seq<string>, slashes: nat, backslashes: nat, ends: bool)
    requires Kept(rest, slashes, backslashes, ends) && EndsInBackslash(field)
    ensures Kept(rest, slashes + 1, backslashes + Count(field, '\\'), ends)
  {
    CountNone(field, '\\');
  }

  lemma KeptAdded(field: string, rest: seq<string>, slashes: nat, backslashes: nat, ends: bool)
    requires Kept(rest, slashes, backslashes, ends) && '/' !in field && !EndsInBackslash(field)
    ensures Kept([field] + rest, slashes + 1, backslashes + Count(field, '\\'), ends)
  {
    var tokens := [field] + rest;
    assert tokens[1..] == rest;
    assert tokens[|tokens| - 1] == if rest == [] then field else rest[|rest| - 1];
  }

  lemma KeptNext(field: string, rest: seq<string>, slashes: nat, backslashes: nat, ends: bool)
    requires Kept(rest, slashes, backslashes, ends) && '/' !in field
    ensures var all := backslashes + Count(field, '\\');
      Kept(if EndsInBackslash(field) then rest else [field] + rest, slashes + 1, all, ends)
  {
    if EndsInBackslash(field) { KeptDropped(field, rest, slashes, backslashes, ends); }
    else { KeptAdded(field, rest, slashes, backslashes, ends); }
  }

  /** The fields from start on are well kept by these tokens. */
  predicate KeptFrom(tokens: seq<string>, p: string, start: nat)
    requires start <= |p| && p != []
  {
    Kept(tokens, Count(p[start..], '/'), Count(p[start..], '\\'), p[|p| - 1] == '/')
  }

  lemma FieldBefore(p: string, start: nat, pos: nat, rest: seq<string>)
    requires start <= pos < |p| && 0 < pos && p[pos] == '/' && forall i :: start <= i < pos ==> p[i] != '/'
    requires KeptFrom(rest, p, pos + 1) && (start < pos || p[pos - 1] == '/')
    ensures KeptFrom(if p[pos - 1] != '\\' then [p[start..pos]] + rest else rest, p, start)
  {
    CountField(p, start, pos, '/');
    CountField(p, start, pos, '\\');
    CountNone(p[start..pos], '/');
    assert EndsInBackslash(p[start..pos]) <==> p[pos - 1] == '\\';
    KeptNext(p[start..pos], rest, Count(p[pos + 1..], '/'), Count(p[pos + 1..], '\\'), p[|p| - 1] == '/');
  }

  lemma LastField(p: string, start: nat)
    requires start < |p| && forall i :: start <= i < |p| ==> p[i] != '/'
    ensures KeptFrom([p[start..]], p, start)
  {
    CountNone(p[start..], '/');
    assert Backslashes([p[start..]][1..]) == 0;
  }

  /** One turn of the loop for '/'. */
  lemma TokensAtSlash(p: string, start: nat, pos: int)
    requires start < |p| && pos == FindFirst(p, '/', start) && (start == 0 ==> p[0] != '/')
    ensures Tokens(p, '/', start, start, true) ==
      if pos == NPOS then [p[start..]]
      else
        var rest := Tokens(p, '/', pos + 1, pos + 1, pos + 1 < |p|);
        if p[pos - 1] != '\\' then [p[start..pos]] + rest else rest
  {
  }

  lemma FirstAtSlash(p: string, start: nat, pos: nat, field: string, rest: seq<string>, tokens: seq<string>)
    requires start <= pos < |p| && pos == FindFirst(p, '/', start) && (start == 0 ==> p[0] != '/')
    requires field == p[start..pos] && rest == Tokens(p, '/', pos + 1, pos + 1, pos + 1 < |p|)
    requires tokens == if p[pos - 1] != '\\' then [field] + rest else rest
    ensures Tokens(p, '/', start, start, true) == tokens
  {
    TokensAtSlash(p, start, pos);
  }

  lemma {:induction false} FieldCounts(p: string, start: nat)
    requires start < |p| && (if start == 0 then p[0] != '/' else p[start - 1] == '/')
    ensures KeptFrom(Tokens(p, '/', start, start, true), p, start)
    decreases |p| - start
  {
    var pos := FindFirst(p, '/', start);
    if pos == NPOS {
      TokensAtSlash(p, start, NPOS);
      LastField(p, start);
    } else if pos + 1 < |p| {
      FieldCounts(p, pos + 1);
      FirstField(p, start, pos, Tokens(p, '/', pos + 1, pos + 1, true));
    } else {
      FirstField(p, start, pos, []);
    }
  }

  lemma FirstField(p: string, start: nat, pos: nat, rest: seq<string>)
    requires start <= pos < |p| && pos == FindFirst(p, '/', start) && (if start == 0 then p[0] != '/' else p[start - 1] == '/')
    requires rest == Tokens(p, '/', pos + 1, pos + 1, pos + 1 < |p|) && KeptFrom(rest, p, pos + 1)
    ensures KeptFrom(Tokens(p, '/', start, start, true), p, start)
  {
    var field := p[start..pos];
    var tokens := if p[pos - 1] != '\\' then [field] + rest else rest;
    FieldBefore(p, start, pos, rest);
    FirstAtSlash(p, start, pos, field, rest, tokens);
  }

  lemma {:induction false} DoubledCounts(s: string)
    ensures Count(Doubled(s), '\\') == 2 * Count(s, '\\')
    ensures '/' !in s ==> '/' !in Doubled(s)
    ensures s != [] ==> Doubled(s) != [] && Doubled(s)[|Doubled(s)| - 1] == s[|s| - 1]
  {
    if s != [] {
      DoubledCounts(s[1..]);
      if s[0] == '\\' {
        CountAppend(['\\', '\\'], Doubled(s[1..]), '\\');
        assert Count(['\\', '\\'], '\\') == 2;
      }
    }
  }

  lemma CountsAround(a: string, c: char, b: string)
    ensures forall x :: Count(a + ([c] + b), x) == Count(a, x) + One(c == x) + Count(b, x)
  {
    forall x ensures Count(a + ([c] + b), x) == Count(a, x) + One(c == x) + Count(b, x) {
      CountAppend(a, [c] + b, x);
      assert ([c] + b)[1..] == b;
    }
  }

  lemma {:induction false} WovenCounts(tokens: seq<string>)
    requires tokens != [] && forall t :: t in tokens ==> '/' !in t
    ensures Count(Woven(tokens), '\\') == 2 * Backslashes(tokens) + |tokens| - 1
    ensures '/' !in Woven(tokens)
  {
    WovenNext(tokens);
    DoubledCounts(tokens[0]);
    assert tokens[0] in tokens;
    if |tokens| > 1 {
      WovenCounts(tokens[1..]);
      CountsAround(Doubled(tokens[0]), '\\', Woven(tokens[1..]));
    } else {
      assert Backslashes(tokens[1..]) == 0;
    }
  }

  lemma {:induction false} WovenEnds(tokens: seq<string>)
    requires tokens != [] && tokens[|tokens| - 1] != []
    ensures var last, w := tokens[|tokens| - 1], Woven(tokens);
      w != [] && w[|w| - 1] == last[|last| - 1]
  {
    WovenNext(tokens);
    DoubledCounts(tokens[0]);
    if |tokens| > 1 { WovenEnds(tokens[1..]); }
  }

  // ---- There and back -------------------------------------------------------------------

  /** The first token of a path in Windows form is taken for a drive. */
  predicate Converted(w: string) {
    var tokens := AllTokens(w, '\\');
    tokens != [] && |tokens[0]| == 2 && tokens[0][1] == ':'
  }

  lemma DriveCounts(t: string, d: string, rest: string)
    requires |t| == 2 && IsLetter(t[0]) && t[1] == ':' && |d| == 2 && d[0] == '/' && IsLower(d[1])
    ensures Count(d + rest, '/') == Count(t + rest, '/') + 1
    ensures Count(d + rest, '\\') == Count(t + rest, '\\')
  {
    CountAppend(t, rest, '/');
    CountAppend(t, rest, '\\');
    CountAppend(d, rest, '/');
    CountAppend(d, rest, '\\');
  }

  lemma BackBegins(w: string)
    ensures ReadBack(w, 0) != [] && IsLetter(ReadBack(w, 0)[0]) ==> w[0] != '\\'
  {
  }

  lemma PosixCounts(w: string)
    requires '/' !in w && ToPosix(w).Ok?
    ensures var q := ToPosix(w).value;
      var (n, waiting) := Singles(w, false);
      && Count(q, '/') == n + One(EndsPaired(w)) + One(Converted(w))
      && Count(q, '\\') + n + One(waiting) + 2 * One(EndsPaired(w)) == Count(w, '\\')
      && (Converted(w) ==> q != [] && q[0] == '/' && w != [] && w[0] != '\\')
      && (EndsPaired(w) ==> q != [] && q[|q| - 1] == '/')
  {
    BackCounts(w, 0);
    assert w[0..] == w;
    if Converted(w) {
      var t, d, rest := ConvertedParts(w);
      DriveCounts(t, d, rest);
    } else {
      TokensBack(w, 0, 0);
      assert Joined(AllTokens(w, '\\'), '/') == ReadBack(w, 0);
    }
  }

  /** A drive and its conversion are followed by the same. */
  lemma ConvertedParts(w: string) returns (t: string, d: string, rest: string)
    requires Converted(w) && ToPosix(w).Ok?
    ensures |t| == 2 && IsLetter(t[0]) && t[1] == ':' && d == ['/', LowerChar(t[0])]
    ensures ReadBack(w, 0) == t + rest && ToPosix(w).value == d + rest
    ensures w != [] && w[0] != '\\'
  {
    TokensBack(w, 0, 0);
    var tokens, b := AllTokens(w, '\\'), ReadBack(w, 0);
    assert Joined(tokens, '/') == b;
    t, d, rest := tokens[0], ['/', LowerChar(tokens[0][0])], b[2..];
    JoinedFirst(d, tokens, '/');
    JoinedFirst(t, tokens, '/');
    assert [t] + tokens[1..] == tokens;
    assert b == t + rest && b[0] == t[0];
    BackBegins(w);
  }

  predicate Rooted(p: string) {
    Leading(p, '/') && !HasDrive(true, AllTokens(p, '/'))
  }

  /** The tokens as they are written in Windows form. */
  function Written(p: string): seq<string> {
    ToDrive(Leading(p, '/'), AllTokens(p, '/'))
  }

  lemma WrittenCounts(p: string)
    requires AllTokens(p, '/') != [] && forall t :: t in AllTokens(p, '/') ==> '/' !in t
    ensures |Written(p)| == |AllTokens(p, '/')| && Backslashes(Written(p)) == Backslashes(AllTokens(p, '/'))
    ensures forall t :: t in Written(p) ==> '/' !in t
    ensures EndsInBackslash(Written(p)[|Written(p)| - 1]) <==> EndsInBackslash(AllTokens(p, '/')[|AllTokens(p, '/')| - 1])
  {
    var tokens := AllTokens(p, '/');
    if HasDrive(Leading(p, '/'), tokens) {
      assert tokens == [tokens[0]] + tokens[1..];
      assert Written(p)[1..] == tokens[1..];
      CountNone(tokens[0], '\\');
      CountNone(Written(p)[0], '\\');
    }
  }

  /** With leading separator or without, singles come from the joints only. */
  lemma LedCounts(led: bool, dt: seq<string>, w: string)
    requires dt != [] && forall t :: t in dt ==> '/' !in t
    requires w == if led then ['\\'] + Woven(dt) else Woven(dt)
    ensures var joints := |dt| - 1 + One(led);
      var (n, waiting) := Singles(w, false);
      && '/' !in w
      && Count(w, '\\') == 2 * Backslashes(dt) + joints
      && n + One(waiting) <= joints
      && (EndsPaired(w) && !EndsInBackslash(dt[|dt| - 1]) ==> n + 2 <= joints)
  {
    WovenCounts(dt);
    SinglesWoven(dt, led);
    if led { assert w[1..] == Woven(dt); }
    WovenNext(dt);
    if dt[|dt| - 1] != [] { WovenEnds(dt); }
    else if |dt| > 1 { SinglesWovenEnd(dt, led); }
  }

  lemma Win32Counts(p: string)
    requires Written(p) != [] && forall t :: t in Written(p) ==> '/' !in t
    ensures var w, dt := ToWin32(p), Written(p);
      var joints := |dt| - 1 + One(Rooted(p));
      var (n, waiting) := Singles(w, false);
      && '/' !in w
      && Count(w, '\\') == 2 * Backslashes(dt) + joints
      && n + One(waiting) <= joints
      && (EndsPaired(w) && !EndsInBackslash(dt[|dt| - 1]) ==> n + 2 <= joints)
  {
    var w, dt := ToWin32(p), Written(p);
    if !Rooted(p) { assert [] + Woven(dt) == Woven(dt); }
    LedCounts(Rooted(p), dt, w);
  }

  /** Of a path of which no token is left, nothing comes back. */
  lemma NothingBack(p: string)
    requires AllTokens(p, '/') == []
    ensures ToPosix(ToWin32(p)) == Ok([])
  {
    var w := ToWin32(p);
    if Leading(p, '/') {
      assert w == ['\\'];
      assert FindFirst(w, '\\', 0) == 0;
      assert AllTokens(w, '\\') == [w[..0]] + Tokens(w, '\\', 1, 1, false);
      assert w[..0] == [];
    } else {
      assert w == [] && FindFirst(w, '\\', 0) == NPOS;
      assert AllTokens(w, '\\') == [w[0..]] && w[0..] == [];
    }
  }

  /** What the Windows form says of the path: how many separators it has, and how many of
      the path's backslashes are in it. */
  lemma ThereCounts(p: string) returns (joints: nat, kept: nat)
    requires p != [] && AllTokens(p, '/') != []
    ensures var w, drive := ToWin32(p), HasDrive(Leading(p, '/'), AllTokens(p, '/'));
      var ends := p[|p| - 1] == '/';
      var dropped := Count(p, '/') - One(drive) - One(ends) - joints;
      var (n, waiting) := Singles(w, false);
      && '/' !in w && (Rooted(p) ==> w != [] && w[0] == '\\')
      && Count(w, '\\') == 2 * kept + joints && n + One(waiting) <= joints
      && dropped >= 0 && (dropped == 0 ==> kept == Count(p, '\\'))
      && (dropped == 0 && ends && EndsPaired(w) ==> n + 2 <= joints)
  {
    var s := One(p[0] == '/');
    if s == 1 { LeadingTokens(p); }
    FieldCounts(p, s);
    LeadingCounts(p);
    WrittenCounts(p);
    Win32Counts(p);
    joints, kept := |AllTokens(p, '/')| - 1 + One(Rooted(p)), Backslashes(AllTokens(p, '/'));
  }

  /** A '/' after a backslash does not separate in POSIX form, a separating backslash
      next to a quoted one is misread in Windows form, and one cannot make up for the
      other. */
  lemma NeverBack(p: string)
    requires '\\' in p
    ensures ToPosix(ToWin32(p)) != Ok(p)
  {
    CountNone(p, '\\');
    if AllTokens(p, '/') == [] {
      NothingBack(p);
    } else if ToPosix(ToWin32(p)).Ok? {
      var joints, kept := ThereCounts(p);
      PosixCounts(ToWin32(p));
    }
  }

  lemma LeadingCounts(p: string)
    requires p != []
    ensures var s := One(p[0] == '/');
      Count(p, '/') == s + Count(p[s..], '/') && Count(p, '\\') == Count(p[s..], '\\')
  {
    if p[0] != '/' { assert p[0..] == p; }
  }

  /** Which paths come back, of all strings. */
  lemma RoundTripExactly(p: string)
    ensures ToPosix(ToWin32(p)) == Ok(p) <==> '\\' !in p && RoundTrips(p)
  {
    if '\\' in p { NeverBack(p); } else { PosixRoundTripExactly(p); }
  }

  // ---- What is lost, and what fails ---------------------------------------------------------

  /** The tokens behind some point of a string, seen from there. */
  lemma {:induction false} TokensShift(p: string, from_: nat, s: string, start: nat)
    requires from_ <= start < |p| && p[from_] != '/' && s == p[from_..]
    ensures Tokens(p, '/', start, start, true) == Tokens(s, '/', start - from_, start - from_, true)
    decreases |p| - start
  {
    var pos := FindFirst(p, '/', start);
    if pos == NPOS {
      LastShift(p, from_, s, start);
    } else if pos + 1 < |p| {
      TokensShift(p, from_, s, pos + 1);
      NextShift(p, from_, s, start, pos, Tokens(p, '/', pos + 1, pos + 1, true));
    } else {
      NextShift(p, from_, s, start, pos, []);
    }
  }

  lemma LastShift(p: string, from_: nat, s: string, start: nat)
    requires from_ <= start < |p| && p[from_] != '/' && s == p[from_..] && FindFirst(p, '/', start) == NPOS
    ensures Tokens(p, '/', start, start, true) == Tokens(s, '/', start - from_, start - from_, true)
  {
    FindShifted(p, from_, start);
    TokensAtSlash(p, start, NPOS);
    TokensAtSlash(s, start - from_, NPOS);
    assert p[start..] == s[start - from_..];
  }

  lemma NextShift(p: string, from_: nat, s: string, start: nat, pos: nat, rest: seq<string>)
    requires from_ <= start <= pos < |p| && p[from_] != '/' && s == p[from_..] && FindFirst(p, '/', start) == pos
    requires rest == Tokens(p, '/', pos + 1, pos + 1, pos + 1 < |p|)
    requires rest == Tokens(s, '/', pos + 1 - from_, pos + 1 - from_, pos + 1 < |p|)
    ensures Tokens(p, '/', start, start, true) == Tokens(s, '/', start - from_, start - from_, true)
  {
    var field := p[start..pos];
    FindShifted(p, from_, start);
    SliceShift(p, from_, s, start, pos);
    var tokens := if p[pos - 1] != '\\' then [field] + rest else rest;
    FirstAtSlash(p, start, pos, field, rest, tokens);
    FirstAtSlash(s, start - from_, pos - from_, field, rest, tokens);
  }

  lemma SliceShift(p: string, from_: nat, s: string, start: nat, pos: nat)
    requires from_ <= start <= pos < |p| && s == p[from_..]
    ensures p[start..pos] == s[start - from_..pos - from_]
    ensures pos > from_ ==> p[pos - 1] == s[pos - from_ - 1]
  {
  }

  lemma FindShifted(p: string, from_: nat, start: nat)
    requires from_ <= start <= |p|
    ensures FindFirst(p[from_..], '/', start - from_) ==
      if FindFirst(p, '/', start) == NPOS then NPOS else FindFirst(p, '/', start) - from_
  {
    var s, i, j := p[from_..], FindFirst(p, '/', start), FindFirst(p[from_..], '/', start - from_);
    assert forall k :: start <= k < |p| ==> p[k] == s[k - from_];
    if i != NPOS { assert s[i - from_] == '/'; }
    if j != NPOS { assert p[j + from_] == '/'; }
  }

  /** A relative path's first component is lost when it ends in a backslash. */
  lemma QuotedFieldLost(f: string, rest: string)
    requires '/' !in f && rest != [] && rest[0] != '/'
    ensures ToWin32(f + ['\\', '/'] + rest) == ToWin32(rest)
  {
    var p, n := f + ['\\', '/'] + rest, |f| + 1;
    assert p[n] == '/' && p[n - 1] == '\\' && forall i :: 0 <= i < n ==> p[i] != '/';
    assert FindFirst(p, '/', 0) == n;
    assert p[n + 1..] == rest;
    TokensShift(p, n + 1, rest, n + 1);
    assert p[0] != '/';
  }

  /** Conversion from Windows form fails exactly on what begins like a drive, but not with
      a letter. */
  lemma DriveFails(w: string)
    ensures ToPosix(w) == Err(BadDriveLetter) <==>
      && |w| >= 2 && w[0] != '\\' && w[1] == ':' && !IsLetter(w[0])
      && (|w| == 2 || (w[2] == '\\' && !Quoted(w, 2)))
  {
    var pos := FindFirst(w, '\\', 0);
    if pos != NPOS && Quoted(w, pos) {
      BeginsFirstToken(w, pos + 2, 0);
    } else {
      assert w[0..] == w;
    }
  }

  lemma {:induction false} BeginsFirstToken(w: string, start: nat, sub: nat)
    requires sub <= start <= |w|
    ensures var tokens := Tokens(w, '\\', start, sub, true);
      tokens != [] && start - sub <= |tokens[0]| && forall i :: sub <= i < start ==> tokens[0][i - sub] == w[i]
    decreases |w| - start
  {
    var pos := FindFirst(w, '\\', start);
    if pos != NPOS && Quoted(w, pos) { BeginsFirstToken(w, pos + 2, sub); }
  }
}
