/** C++ `char` strings: every character is one byte. Letter case is that of the "C" locale
    (string/util.cpp:30-61). */
module Text {
  type Char = c: char | c as int < 0x100 witness 'a'
  type Text = seq<Char>

  predicate IsUpper(c: char) {
    'A' <= c <= 'Z'
  }

  predicate IsLower(c: char) {
    'a' <= c <= 'z'
  }

  function LowerChar(c: char): (r: char)
    ensures c as int < 0x100 ==> r as int < 0x100
  {
    if IsUpper(c) then (c as int + 32) as char else c
  }

  function UpperChar(c: char): (r: char)
    ensures c as int < 0x100 ==> r as int < 0x100
  {
    if IsLower(c) then (c as int - 32) as char else c
  }

  function ToLower(s: Text): (r: Text)
    ensures |r| == |s| && forall i :: 0 <= i < |s| ==> r[i] == LowerChar(s[i])
  {
    seq(|s|, i requires 0 <= i < |s| => LowerChar(s[i]))
  }

  /** A string is its own lower case exactly when no letter in it is upper case. */
  lemma LowerFixed(s: Text)
    ensures ToLower(s) == s <==> forall c :: c in s ==> !IsUpper(c)
  {
    if ToLower(s) == s {
      forall c | c in s ensures !IsUpper(c) {
        var i :| 0 <= i < |s| && s[i] == c;
        assert ToLower(s)[i] == LowerChar(c);
      }
    }
  }

  // ---- Searching ----------------------------------------------------------------------

  const NPOS := -1

  predicate Position(p: int, s: string, start: nat) {
    p == NPOS || start <= p < |s|
  }

  /** std::string::find_first_of with one character. */
  function FindFirst(s: string, c: char, start: nat): (r: int)
    ensures Position(r, s, start)
    ensures r == NPOS ==> forall i :: start <= i < |s| ==> s[i] != c
    ensures r != NPOS ==> s[r] == c && forall i :: start <= i < r ==> s[i] != c
    decreases |s| - start
  {
    if start >= |s| then NPOS else if s[start] == c then start else FindFirst(s, c, start + 1)
  }

  /** Searching from some position is searching what begins there. */
  lemma FindShift(s: string, c: char, start: nat)
    requires start <= |s|
    ensures FindFirst(s[start..], c, 0) == Back(FindFirst(s, c, start), start)
  {
    var rest, p := s[start..], FindFirst(s[start..], c, 0);
    forall i | start <= i < (if p == NPOS then |s| else start + p) ensures s[i] != c {
      assert s[i] == rest[i - start];
    }
    if p != NPOS { assert s[start + p] == rest[p]; }
  }

  function Back(p: int, start: nat): int {
    if p == NPOS then NPOS else p - start
  }

  /** What comes first when a piece without c is followed by something. */
  lemma FindAppend(s: string, t: string, c: char)
    ensures c in s ==> FindFirst(s + t, c, 0) == FindFirst(s, c, 0)
    ensures c !in s ==>
      FindFirst(s + t, c, 0) == if FindFirst(t, c, 0) == NPOS then NPOS else |s| + FindFirst(t, c, 0)
  {
    var p, q, r := FindFirst(s, c, 0), FindFirst(t, c, 0), FindFirst(s + t, c, 0);
    if c in s {
      assert (s + t)[p] == c;
    } else {
      assert forall i :: |s| <= i < |s + t| ==> (s + t)[i] == t[i - |s|];
      if q != NPOS { assert (s + t)[|s| + q] == c; }
    }
  }

  /** s.substr(start, end - start): with end before start the length wraps around and the
      rest of the string is taken. */
  function Substr(s: Text, start: nat, end: nat): Text
    requires start <= |s|
  {
    if start <= end <= |s| then s[start..end] else s[start..]
  }

  lemma SubstrShift(s: Text, start: nat, i: nat, j: nat)
    requires start <= i <= |s| && start <= j <= |s|
    ensures Substr(s[start..], i - start, j - start) == Substr(s, i, j)
  {
    if i <= j { assert s[start..][i - start..j - start] == s[i..j]; }
    assert s[start..][i - start..] == s[i..];
  }
}
