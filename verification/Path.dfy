/** fs/path.cpp: converting paths between POSIX and Windows form. */
module Path {
  import opened Text
  import opened Wrappers

  datatype PathError = BadDriveLetter

  // ---- Splitting and joining ------------------------------------------------------------

  /** A backslash followed by another one is quoted, but for the last two characters. */
  predicate Quoted(s: string, pos: nat) {
    pos + 2 < |s| && s[pos + 1] == '\\'
  }

  /** The tokens found from position start on, of which the first began at sub. A '/' after
      a backslash, like one at the very beginning, does not end a token, but the next token
      begins after it all the same. */
  function Tokens(s: string, delim: char, start: nat, sub: nat, going: bool): seq<string>
    requires sub <= start <= |s|
    decreases |s| - start, going
  {
    var pos := FindFirst(s, delim, start);
    if !going then []
    else if pos == NPOS then [s[sub..]]
    else if delim == '\\' && Quoted(s, pos) then Tokens(s, delim, pos + 2, sub, true)
    else if delim == '\\' || (pos > 0 && s[pos - 1] != '\\') then
      [s[sub..pos]] + Tokens(s, delim, pos + 1, pos + 1, pos + 1 < |s|)
    else
      Tokens(s, delim, pos + 1, pos + 1, pos + 1 < |s|)
  }

  function AllTokens(s: string, delim: char): seq<string> {
    Tokens(s, delim, 0, 0, true)
  }

  predicate Leading(s: string, delim: char) {
    s != [] && s[0] == delim
  }

  /** The tokens found up to some point with those found from there on. */
  ghost function Continued(s: string, delim: char, start: nat, sub: nat, tokens: seq<string>, going: bool): seq<string>
    requires sub <= start <= |s|
    decreases |s| - start, going
  {
    var pos := FindFirst(s, delim, start);
    if !going then tokens
    else if pos == NPOS then tokens + [s[sub..]]
    else
      var quoted := delim == '\\' && Quoted(s, pos);
      var next := if quoted then pos + 2 else pos + 1;
      var ends := if delim == '\\' then !quoted else pos > 0 && s[pos - 1] != '\\';
      Continued(s, delim, next, if quoted then sub else next, if ends then tokens + [s[sub..pos]] else tokens, next < |s|)
  }

  lemma {:induction false} ContinuedTokens(s: string, delim: char, start: nat, sub: nat, tokens: seq<string>, going: bool)
    requires sub <= start <= |s|
    ensures Continued(s, delim, start, sub, tokens, going) == tokens + Tokens(s, delim, start, sub, going)
    decreases |s| - start, going
  {
    var pos := FindFirst(s, delim, start);
    if going && pos != NPOS {
      if delim == '\\' && Quoted(s, pos) {
        ContinuedTokens(s, delim, pos + 2, sub, tokens, true);
      } else if delim == '\\' || (pos > 0 && s[pos - 1] != '\\') {
        ContinuedTokens(s, delim, pos + 1, pos + 1, tokens + [s[sub..pos]], pos + 1 < |s|);
        Regroup(tokens, [s[sub..pos]], Tokens(s, delim, pos + 1, pos + 1, pos + 1 < |s|));
      } else {
        ContinuedTokens(s, delim, pos + 1, pos + 1, tokens, pos + 1 < |s|);
      }
    }
  }

  /** path.cpp:31-83. */
  method Tokenize(s: string, delim: char) returns (leading: bool, tokens: seq<string>)
    ensures leading == Leading(s, delim) && tokens == AllTokens(s, delim)
  {
    ContinuedTokens(s, delim, 0, 0, [], true);
    ghost var all := AllTokens(s, delim);
    tokens := [];
    leading := false;
    var start, sub := 0, 0;
    var going := true;
    while going
      invariant 0 <= sub <= start <= |s|
      invariant leading == ((start > 0 || !going) && Leading(s, delim))
      invariant all == Continued(s, delim, start, sub, tokens, going)
      decreases going, |s| - start
    {
      var first;
      first, tokens, start, sub, going := NextToken(s, delim, start, sub, tokens);
      if first {
        leading := true;
      }
    }
  }

  /** path.cpp:40-80, one round of the loop. In strings of fewer than two characters the
      comparison with size() - 2 wraps around, and the character looked at next is the
      terminating null. */
  method NextToken(s: string, delim: char, start: nat, sub: nat, before: seq<string>)
    returns (first: bool, tokens: seq<string>, next: nat, nextSub: nat, going: bool)
    requires sub <= start <= |s|
    ensures nextSub <= next <= |s| && (going ==> start < next)
    ensures first == (FindFirst(s, delim, start) == 0)
    ensures FindFirst(s, delim, start) != NPOS ==> next > 0
    ensures FindFirst(s, delim, start) == NPOS ==> !going && next == start
    ensures Continued(s, delim, start, sub, before, true) == Continued(s, delim, next, nextSub, tokens, going)
  {
    tokens, next, nextSub := before, start, sub;
    var pos := FindFirst(s, delim, start);
    first := pos == 0;
    if pos == NPOS {
      return first, tokens + [s[sub..]], next, nextSub, false;
    }
    if delim == '\\' {
      if pos + 2 < |s| {
        if s[pos + 1] != '\\' {
          tokens := tokens + [s[sub..pos]];
          next := pos + 1;
          nextSub := next;
        } else {
          next := pos + 2;
        }
      } else {
        tokens := tokens + [s[sub..pos]];
        next := pos + 1;
        nextSub := next;
      }
    } else {
      if pos > 0 && s[pos - 1] != '\\' {
        tokens := tokens + [s[sub..pos]];
      }
      next := pos + 1;
      nextSub := next;
    }
    going := next < |s|;
  }

  function Joined(tokens: seq<string>, delim: char): string {
    if tokens == [] then []
    else if |tokens| == 1 then tokens[0]
    else tokens[0] + [delim] + Joined(tokens[1..], delim)
  }

  /** path.cpp:87-100. */
  method Join(tokens: seq<string>, delim: char) returns (r: string)
    ensures r == Joined(tokens, delim)
  {
    r := [];
    if tokens == [] {
      return;
    }
    for i := 0 to |tokens| - 1
      invariant Joined(tokens, delim) == r + Joined(tokens[i..], delim)
    {
      assert tokens[i..][1..] == tokens[i + 1..];
      r := r + tokens[i] + [delim];
    }
    return r + tokens[|tokens| - 1];
  }

  /** string/util.cpp:66-96 for a needle of one character. */
  function Replaced(s: string, needle: char, substitute: string): string {
    if s == [] then []
    else (if s[0] == needle then substitute else [s[0]]) + Replaced(s[1..], needle, substitute)
  }

  method Replace(haystack: string, needle: char, substitute: string) returns (r: string)
    ensures r == Replaced(haystack, needle, substitute)
  {
    r := [];
    var start := 0;
    var going := true;
    while going
      invariant 0 <= start <= |haystack|
      invariant going ==> Replaced(haystack, needle, substitute) == r + Replaced(haystack[start..], needle, substitute)
      invariant !going ==> Replaced(haystack, needle, substitute) == r
      decreases going, |haystack| - start
    {
      var pos := FindFirst(haystack, needle, start);
      if pos == NPOS {
        NothingReplaced(haystack[start..], needle, substitute);
        r := r + haystack[start..];
        break;
      }
      ReplacedUpTo(haystack, needle, substitute, start, pos);
      Appended(r, haystack[start..pos], substitute, Replaced(haystack[pos + 1..], needle, substitute));
      r := r + haystack[start..pos];
      r := r + substitute;
      start := pos + 1;
      going := start < |haystack|;
    }
  }

  lemma Appended(a: string, b: string, c: string, d: string)
    ensures a + (b + c + d) == a + b + c + d
  {
  }

  lemma {:induction false} NothingReplaced(s: string, needle: char, substitute: string)
    requires needle !in s
    ensures Replaced(s, needle, substitute) == s
  {
    if s != [] {
      assert s == [s[0]] + s[1..];
      NothingReplaced(s[1..], needle, substitute);
    }
  }

  lemma {:induction false} ReplacedUpTo(s: string, needle: char, substitute: string, start: nat, pos: nat)
    requires start <= pos < |s| && s[pos] == needle && forall i :: start <= i < pos ==> s[i] != needle
    ensures Replaced(s[start..], needle, substitute) ==
      s[start..pos] + substitute + Replaced(s[pos + 1..], needle, substitute)
    decreases pos - start
  {
    assert s[start..][1..] == s[start + 1..];
    if start < pos {
      ReplacedUpTo(s, needle, substitute, start + 1, pos);
      assert s[start..pos] == [s[start]] + s[start + 1..pos];
    } else {
      assert s[start..pos] == [];
    }
  }

  // ---- The conversions ------------------------------------------------------------------

  predicate IsLetter(c: char) {
    IsLower(c) || IsUpper(c)
  }

  /** path.cpp:113-130. */
  function FromDrive(tokens: seq<string>): Result<seq<string>, PathError> {
    if tokens != [] && |tokens[0]| == 2 && tokens[0][1] == ':' then
      if IsLetter(tokens[0][0]) then Ok([['/', LowerChar(tokens[0][0])]] + tokens[1..]) else Err(BadDriveLetter)
    else Ok(tokens)
  }

  function ToPosix(other: string): Result<string, PathError> {
    match FromDrive(AllTokens(other, '\\'))
    case Err(e) => Err(e)
    case Ok(tokens) => Ok(Joined(tokens, '/'))
  }

  /** path.cpp:106-135. */
  method ToPosixPath(other: string) returns (r: Result<string, PathError>)
    ensures r == ToPosix(other)
  {
    var _, tokens := Tokenize(other, '\\');
    if tokens != [] {
      var drive := tokens[0];
      if |drive| == 2 && drive[1] == ':' {
        var lower := LowerChar(drive[0]);
        if 'a' <= lower <= 'z' {
          tokens := [['/', lower]] + tokens[1..];
        } else {
          return Err(BadDriveLetter);
        }
      }
    }
    var joined := Join(tokens, '/');
    return Ok(joined);
  }

  predicate HasDrive(leading: bool, tokens: seq<string>) {
    leading && tokens != [] && |tokens[0]| == 1 && IsLetter(tokens[0][0])
  }

  function ToDrive(leading: bool, tokens: seq<string>): seq<string> {
    if HasDrive(leading, tokens) then [[UpperChar(tokens[0][0]), ':']] + tokens[1..] else tokens
  }

  function QuotedAll(tokens: seq<string>): seq<string> {
    seq(|tokens|, i requires 0 <= i < |tokens| => Replaced(tokens[i], '\\', ['\\', '\\']))
  }

  function ToWin32(other: string): string {
    var leading, tokens := Leading(other, '/'), AllTokens(other, '/');
    (if leading && !HasDrive(leading, tokens) then ['\\'] else []) +
    Joined(QuotedAll(ToDrive(leading, tokens)), '\\')
  }

  /** path.cpp:139-174. */
  method ToWin32Path(other: string) returns (r: string)
    ensures r == ToWin32(other)
  {
    var leading, tokens := Tokenize(other, '/');
    ghost var first := tokens;
    var haveDrive := false;
    if leading && tokens != [] {
      var drive := tokens[0];
      if |drive| == 1 {
        var upper := UpperChar(drive[0]);
        if 'A' <= upper <= 'Z' {
          tokens := [[upper, ':']] + tokens[1..];
          haveDrive := true;
        }
      }
    }
    ghost var plain := tokens;
    for i := 0 to |tokens|
      invariant |tokens| == |plain|
      invariant forall j :: 0 <= j < i ==> tokens[j] == Replaced(plain[j], '\\', ['\\', '\\'])
      invariant forall j :: i <= j < |plain| ==> tokens[j] == plain[j]
    {
      var tok := Replace(tokens[i], '\\', ['\\', '\\']);
      tokens := tokens[i := tok];
    }
    assert tokens == QuotedAll(ToDrive(leading, first));
    r := Join(tokens, '\\');
    if leading && !haveDrive {
      r := ['\\'] + r;
    }
  }
}
