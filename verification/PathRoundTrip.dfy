/** Which POSIX paths survive conversion to Windows form and back (fs/path.cpp). */
module PathRoundTrip {
  import opened Path
  import opened Text
  import opened Wrappers

  function Swapped(s: string, old_: char, new_: char): (r: string)
    ensures |r| == |s|
  {
    seq(|s|, i requires 0 <= i < |s| => if s[i] == old_ then new_ else s[i])
  }

  predicate TwoSlashesAt(p: string, i: nat) {
    i + 1 < |p| && p[i] == '/' && p[i + 1] == '/'
  }

  ghost predicate NoEmptyComponent(p: string) {
    && (p != [] ==> p[|p| - 1] != '/')
    && forall i: nat :: !TwoSlashesAt(p, i)
  }

  /** An absolute path whose first component is a single letter. */
  predicate Drive(p: string) {
    |p| >= 2 && p[0] == '/' && IsLetter(p[1]) && (|p| == 2 || p[2] == '/')
  }

  /** A relative path whose first component looks like a drive. */
  predicate DriveLike(p: string) {
    |p| >= 2 && p[0] != '/' && p[1] == ':' && (|p| == 2 || p[2] == '/')
  }

  ghost predicate RoundTrips(p: string) {
    NoEmptyComponent(p) && !(Drive(p) && IsUpper(p[1])) && !DriveLike(p)
  }

  // ---- Joining ------------------------------------------------------------------------

  lemma JoinedFirst(d: string, tokens: seq<string>, delim: char)
    requires tokens != []
    ensures |tokens[0]| <= |Joined(tokens, delim)|
    ensures Joined([d] + tokens[1..], delim) == d + Joined(tokens, delim)[|tokens[0]|..]
  {
    var t := [d] + tokens[1..];
    assert t[0] == d && t[1..] == tokens[1..];
    if |tokens| > 1 {
      assert Joined(tokens, delim)[|tokens[0]|..] == [delim] + Joined(tokens[1..], delim);
    }
  }

  lemma JoinedNext(t: string, rest: seq<string>, delim: char)
    requires rest != []
    ensures Joined([t] + rest, delim) == t + [delim] + Joined(rest, delim)
  {
    assert ([t] + rest)[1..] == rest;
  }

  // ---- To Windows form ------------------------------------------------------------------

  lemma {:induction false} CleanTokens(p: string, start: nat, going: bool)
    requires '\\' !in p && start <= |p|
    ensures forall t :: t in Tokens(p, '/', start, start, going) ==> '\\' !in t
    decreases |p| - start, going
  {
    var pos := FindFirst(p, '/', start);
    if going && pos != NPOS { CleanTokens(p, pos + 1, pos + 1 < |p|); }
  }

  lemma CleanQuoted(tokens: seq<string>)
    requires forall t :: t in tokens ==> '\\' !in t
    ensures QuotedAll(tokens) == tokens
  {
    forall i | 0 <= i < |tokens| ensures QuotedAll(tokens)[i] == tokens[i] {
      assert tokens[i] in tokens;
      NothingReplaced(tokens[i], '\\', ['\\', '\\']);
    }
  }

  /** Past the beginning, every '/' ends a token. */
  lemma {:induction false} SlashTokens(p: string, start: nat)
    requires '\\' !in p && start < |p| && p[|p| - 1] != '/' && (start == 0 ==> p[0] != '/')
    ensures var tokens := Tokens(p, '/', start, start, true);
      && tokens != []
      && Joined(tokens, '\\') == Swapped(p[start..], '/', '\\')
      && var e := FindFirst(p, '/', start); tokens[0] == p[start..if e == NPOS then |p| else e]
    decreases |p| - start
  {
    var pos := FindFirst(p, '/', start);
    if pos == NPOS {
      assert p[start..] == p[start..|p|];
      assert Swapped(p[start..], '/', '\\') == p[start..];
    } else {
      assert p[pos - 1] in p;
      SlashTokens(p, pos + 1);
      JoinedNext(p[start..pos], Tokens(p, '/', pos + 1, pos + 1, true), '\\');
      SwapSplit(p, start, pos);
    }
  }

  lemma SwapSplit(p: string, start: nat, pos: nat)
    requires start <= pos < |p| && p[pos] == '/' && forall i :: start <= i < pos ==> p[i] != '/'
    ensures Swapped(p[start..], '/', '\\') == p[start..pos] + ['\\'] + Swapped(p[pos + 1..], '/', '\\')
  {
  }

  lemma LeadingTokens(p: string)
    requires p != [] && p[0] == '/'
    ensures AllTokens(p, '/') == Tokens(p, '/', 1, 1, 1 < |p|)
  {
    assert FindFirst(p, '/', 0) == 0;
  }

  lemma DriveSwapped(p: string)
    requires '\\' !in p && Drive(p) && p[|p| - 1] != '/'
    ensures ToWin32(p) == [UpperChar(p[1]), ':'] + Swapped(p[2..], '/', '\\')
  {
    var tokens, d := AllTokens(p, '/'), [UpperChar(p[1]), ':'];
    CleanTokens(p, 0, true);
    LeadingTokens(p);
    SlashTokens(p, 1);
    assert FindFirst(p, '/', 1) == (if |p| == 2 then NPOS else 2);
    assert ToDrive(true, tokens) == [d] + tokens[1..];
    CleanQuoted([d] + tokens[1..]);
    JoinedFirst(d, tokens, '\\');
    assert Swapped(p[1..], '/', '\\')[1..] == Swapped(p[2..], '/', '\\');
  }

  lemma RootedSwapped(p: string)
    requires '\\' !in p && p != [] && p[0] == '/' && p[|p| - 1] != '/' && !Drive(p)
    ensures ToWin32(p) == Swapped(p, '/', '\\')
  {
    var tokens := AllTokens(p, '/');
    CleanTokens(p, 0, true);
    LeadingTokens(p);
    SlashTokens(p, 1);
    assert !HasDrive(true, tokens);
    CleanQuoted(tokens);
    assert ['\\'] + Swapped(p[1..], '/', '\\') == Swapped(p, '/', '\\');
  }

  /** Without empty components at the end, the conversion swaps the separators; only a
      drive is written in its own way. */
  lemma Win32IsSwapped(p: string)
    requires '\\' !in p && (p != [] ==> p[|p| - 1] != '/')
    ensures ToWin32(p) ==
      if Drive(p) then [UpperChar(p[1]), ':'] + Swapped(p[2..], '/', '\\') else Swapped(p, '/', '\\')
  {
    if Drive(p) {
      DriveSwapped(p);
    } else if Leading(p, '/') {
      RootedSwapped(p);
    } else {
      var tokens := AllTokens(p, '/');
      CleanTokens(p, 0, true);
      CleanQuoted(tokens);
      if p != [] { SlashTokens(p, 0); }
      assert p[0..] == p;
    }
  }

  // ---- And back -------------------------------------------------------------------------

  /** With no two backslashes in a row and none at the end, every one ends a token. */
  lemma {:induction false} BackslashTokens(w: string, start: nat)
    requires start < |w| && w[|w| - 1] != '\\'
    requires forall i :: start <= i < |w| - 1 ==> w[i] != '\\' || w[i + 1] != '\\'
    ensures var tokens := Tokens(w, '\\', start, start, true);
      && tokens != []
      && Joined(tokens, '/') == Swapped(w[start..], '\\', '/')
      && var e := FindFirst(w, '\\', start); tokens[0] == w[start..if e == NPOS then |w| else e]
    decreases |w| - start
  {
    var pos := FindFirst(w, '\\', start);
    if pos == NPOS {
      assert w[start..] == w[start..|w|];
      assert Swapped(w[start..], '\\', '/') == w[start..];
    } else {
      BackslashTokens(w, pos + 1);
      JoinedNext(w[start..pos], Tokens(w, '\\', pos + 1, pos + 1, true), '/');
      BackSplit(w, start, pos);
    }
  }

  lemma BackSplit(w: string, start: nat, pos: nat)
    requires start <= pos < |w| && w[pos] == '\\' && forall i :: start <= i < pos ==> w[i] != '\\'
    ensures Swapped(w[start..], '\\', '/') == w[start..pos] + ['/'] + Swapped(w[pos + 1..], '\\', '/')
  {
  }

  predicate WinDrive(w: string) {
    |w| >= 2 && w[0] != '\\' && w[1] == ':' && (|w| == 2 || w[2] == '\\')
  }

  lemma PosixIsSwapped(w: string)
    requires w != [] ==> w[|w| - 1] != '\\'
    requires forall i :: 0 <= i < |w| - 1 ==> w[i] != '\\' || w[i + 1] != '\\'
    ensures ToPosix(w) ==
      if !WinDrive(w) then Ok(Swapped(w, '\\', '/'))
      else if IsLetter(w[0]) then Ok(['/', LowerChar(w[0])] + Swapped(w[2..], '\\', '/'))
      else Err(BadDriveLetter)
  {
    var tokens := AllTokens(w, '\\');
    if w == [] {
      assert tokens == [[]];
    } else {
      BackslashTokens(w, 0);
      assert w[0..] == w;
      var e := FindFirst(w, '\\', 0);
      if WinDrive(w) {
        assert e == (if |w| == 2 then NPOS else 2);
        JoinedFirst(['/', LowerChar(w[0])], tokens, '/');
        assert Swapped(w, '\\', '/')[2..] == Swapped(w[2..], '\\', '/');
      } else {
        assert !(|tokens[0]| == 2 && tokens[0][1] == ':');
      }
    }
  }

  // ---- Empty components are lost ----------------------------------------------------------

  /** A quoted backslash stays in its token. */
  lemma {:induction false} PairKept(w: string, start: nat, sub: nat, i: nat)
    requires sub <= start <= i && i + 2 < |w| && w[i] == '\\' && w[i + 1] == '\\'
    ensures exists t :: t in Tokens(w, '\\', start, sub, true) && '\\' in t
    decreases |w| - start
  {
    var pos := FindFirst(w, '\\', start);
    if Quoted(w, pos) {
      FirstTokenHolds(w, pos + 2, sub, pos);
      assert Tokens(w, '\\', pos + 2, sub, true)[0] in Tokens(w, '\\', start, sub, true);
    } else {
      PairKept(w, pos + 1, pos + 1, i);
      var t :| t in Tokens(w, '\\', pos + 1, pos + 1, true) && '\\' in t;
      assert t in Tokens(w, '\\', start, sub, true);
    }
  }

  lemma {:induction false} FirstTokenHolds(w: string, start: nat, sub: nat, i: nat)
    requires sub <= i < start < |w| && w[i] == '\\'
    ensures Tokens(w, '\\', start, sub, true) != [] && '\\' in Tokens(w, '\\', start, sub, true)[0]
    decreases |w| - start
  {
    var pos := FindFirst(w, '\\', start);
    if pos == NPOS {
      assert w[sub..][i - sub] == '\\';
    } else if Quoted(w, pos) {
      FirstTokenHolds(w, pos + 2, sub, i);
    } else {
      assert w[sub..pos][i - sub] == '\\';
    }
  }

  lemma {:induction false} JoinedHolds(tokens: seq<string>, delim: char, t: string, c: char)
    requires t in tokens && c in t
    ensures c in Joined(tokens, delim)
  {
    if |tokens| > 1 && t != tokens[0] {
      assert tokens == [tokens[0]] + tokens[1..];
      JoinedHolds(tokens[1..], delim, t, c);
    }
  }

  /** Two backslashes in a row before the last character show up in the result. */
  lemma PairShows(w: string, i: nat)
    requires i + 2 < |w| && w[i] == '\\' && w[i + 1] == '\\'
    ensures ToPosix(w).Ok? ==> '\\' in ToPosix(w).value
  {
    PairKept(w, 0, 0, i);
    var tokens := AllTokens(w, '\\');
    var t :| t in tokens && '\\' in t;
    var after := FromDrive(tokens);
    if after.Ok? {
      assert tokens == [tokens[0]] + tokens[1..];
      if after.value != tokens {
        assert '\\' !in tokens[0];
        assert t in after.value;
      }
      JoinedHolds(after.value, '/', t, '\\');
    }
  }

  /** Nothing gets longer on the way back. */
  lemma {:induction false} BackNotLonger(w: string, start: nat, sub: nat)
    requires sub <= start <= |w|
    ensures |Joined(Tokens(w, '\\', start, sub, true), '/')| <= |w| - sub
    decreases |w| - start
  {
    var pos := FindFirst(w, '\\', start);
    if pos == NPOS {
    } else if Quoted(w, pos) {
      BackNotLonger(w, pos + 2, sub);
    } else {
      var rest := Tokens(w, '\\', pos + 1, pos + 1, pos + 1 < |w|);
      if pos + 1 < |w| { BackNotLonger(w, pos + 1, pos + 1); }
      if rest != [] { JoinedNext(w[sub..pos], rest, '/'); }
    }
  }

  lemma PosixNotLonger(w: string)
    ensures ToPosix(w).Ok? ==> |ToPosix(w).value| <= |w|
  {
    BackNotLonger(w, 0, 0);
    var tokens := AllTokens(w, '\\');
    if tokens != [] && |tokens[0]| == 2 { JoinedFirst(['/', LowerChar(tokens[0][0])], tokens, '/'); }
  }

  /** A '/' at the end is dropped. */
  lemma {:induction false} TrailingDropped(p: string, start: nat)
    requires '\\' !in p && start < |p| && p[|p| - 1] == '/' && (start == 0 ==> p[0] != '/')
    ensures var tokens := Tokens(p, '/', start, start, true);
      tokens != [] && |Joined(tokens, '\\')| <= |p| - 1 - start
    decreases |p| - start
  {
    var pos := FindFirst(p, '/', start);
    assert p[pos - 1] in p;
    if pos + 1 < |p| {
      TrailingDropped(p, pos + 1);
      JoinedNext(p[start..pos], Tokens(p, '/', pos + 1, pos + 1, true), '\\');
    }
  }

  lemma TrailingShortens(p: string)
    requires '\\' !in p && |p| > 1 && p[|p| - 1] == '/'
    ensures |ToWin32(p)| < |p|
  {
    var tokens := AllTokens(p, '/');
    CleanTokens(p, 0, true);
    if p[0] == '/' { LeadingTokens(p); }
    TrailingDropped(p, if p[0] == '/' then 1 else 0);
    var after := ToDrive(Leading(p, '/'), tokens);
    if HasDrive(Leading(p, '/'), tokens) { JoinedFirst([UpperChar(tokens[0][0]), ':'], tokens, '\\'); }
    assert forall t :: t in after ==> '\\' !in t;
    CleanQuoted(after);
  }

  // ---- The whole ------------------------------------------------------------------------

  lemma LosesTrailing(p: string)
    requires '\\' !in p && p != [] && p[|p| - 1] == '/'
    ensures ToPosix(ToWin32(p)) != Ok(p)
  {
    if |p| == 1 {
      LeadingTokens(p);
      assert ToWin32(p) == ['\\'];
      assert FindFirst(['\\'], '\\', 0) == 0;
      assert AllTokens(['\\'], '\\') == [[]];
    } else {
      TrailingShortens(p);
      PosixNotLonger(ToWin32(p));
    }
  }

  lemma EmptySwapped(p: string, i: nat)
    requires '\\' !in p && TwoSlashesAt(p, i) && p[|p| - 1] != '/'
    ensures var w := ToWin32(p); i + 2 < |w| && w[i] == '\\' && w[i + 1] == '\\'
  {
    Win32IsSwapped(p);
    assert i + 2 < |p|;
    if Drive(p) { assert i >= 2; }
  }

  lemma LosesEmpty(p: string, i: nat)
    requires '\\' !in p && TwoSlashesAt(p, i) && p[|p| - 1] != '/'
    ensures ToPosix(ToWin32(p)) != Ok(p)
  {
    EmptySwapped(p, i);
    PairShows(ToWin32(p), i);
  }

  lemma SwappedBack(p: string)
    requires '\\' !in p
    ensures Swapped(Swapped(p, '/', '\\'), '\\', '/') == p
  {
  }

  lemma KeepsComponents(p: string)
    requires '\\' !in p && NoEmptyComponent(p)
    ensures ToPosix(ToWin32(p)) == Ok(p) <==> !(Drive(p) && IsUpper(p[1])) && !DriveLike(p)
  {
    var w := ToWin32(p);
    Win32IsSwapped(p);
    forall i | 0 <= i < |w| - 1 ensures w[i] != '\\' || w[i + 1] != '\\' {
      assert !TwoSlashesAt(p, i);
    }
    PosixIsSwapped(w);
    if Drive(p) {
      DriveBack(p, w);
    } else {
      SwappedBack(p);
      assert DriveLike(p) <==> WinDrive(w);
    }
  }

  lemma DriveBack(p: string, w: string)
    requires '\\' !in p && Drive(p) && w == [UpperChar(p[1]), ':'] + Swapped(p[2..], '/', '\\')
    ensures WinDrive(w) && IsLetter(w[0])
    ensures ['/', LowerChar(w[0])] + Swapped(w[2..], '\\', '/') == p <==> !IsUpper(p[1])
  {
    assert w[2..] == Swapped(p[2..], '/', '\\');
    SwappedBack(p[2..]);
    assert p == ['/', p[1]] + p[2..];
    assert LowerChar(w[0]) == LowerChar(p[1]);
  }

  /** A path without backslashes comes back exactly when it has no empty components but
      the one before a leading '/', its drive letter is not upper case, and a relative
      path does not begin with what looks like a drive. */
  lemma PosixRoundTripExactly(p: string)
    requires '\\' !in p
    ensures ToPosix(ToWin32(p)) == Ok(p) <==> RoundTrips(p)
  {
    if p != [] && p[|p| - 1] == '/' {
      LosesTrailing(p);
    } else if i: nat :| TwoSlashesAt(p, i) {
      LosesEmpty(p, i);
    } else {
      KeepsComponents(p);
    }
  }
}
