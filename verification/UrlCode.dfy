/** string/urlencode.cpp: percent-encoding (section 2.1 of RFC 3986) and back. */
module UrlCode {
  import opened HexCode
  import opened Text
  import opened Wrappers

  predicate IsAlnum(c: Char) {
    IsLower(c) || IsUpper(c) || '0' <= c <= '9'
  }

  predicate Kept(c: Char) {
    IsAlnum(c) || c == '-' || c == '_' || c == '.' || c == '/'
  }

  function EncodeChar(c: Char): Text {
    if Kept(c) then [c] else ['%'] + Pair(c, true)
  }

  function UrlEncoded(s: Text): Text {
    if s == [] then [] else EncodeChar(s[0]) + UrlEncoded(s[1..])
  }

  function UrlDecoded(s: Text): Text {
    if s == [] then []
    else if s[0] != '%' then [s[0]] + UrlDecoded(s[1..])
    else if |s| < 3 then ['?']
    else [DecodeTriple(s[1], s[2])] + UrlDecoded(s[3..])
  }

  function DecodeTriple(a: Char, b: Char): Char {
    if DecodeHalf(a) < 0 || DecodeHalf(b) < 0 then '?' else Join(DecodeHalf(a), DecodeHalf(b))
  }

  /** urlencode.cpp:26-43. */
  method UrlEncode(input: Text) returns (ret: Text)
    ensures ret == UrlEncoded(input)
  {
    ret := [];
    for i := 0 to |input|
      invariant UrlEncoded(input) == ret + UrlEncoded(input[i..])
    {
      var ch := input[i];
      EncodeNext(input, i);
      Regroup(ret, EncodeChar(ch), UrlEncoded(input[i + 1..]));
      if Kept(ch) {
        ret := ret + [ch];
        continue;
      }
      var digits := HexEncodeText([ch], true);
      Regroup(ret, ['%'], digits);
      ret := ret + ['%'];
      ret := ret + digits;
    }
  }

  lemma EncodeNext(s: Text, i: nat)
    requires i < |s|
    ensures UrlEncoded(s[i..]) == EncodeChar(s[i]) + UrlEncoded(s[i + 1..])
    ensures Encoded([s[i]], true) == Pair(s[i], true)
  {
    assert s[i..][1..] == s[i + 1..];
    assert [s[i]][..0] == [];
    assert Encoded([], true) == [];
  }

  /** urlencode.cpp:47-75. Behind the last character stands the terminating null of
      c_str(), which is no digit. */
  method UrlDecode(input: Text) returns (ret: Text)
    ensures ret == UrlDecoded(input)
  {
    ret := [];
    var i := 0;
    while i < |input|
      invariant 0 <= i
      invariant UrlDecoded(input) == ret + UrlDecoded(From(input, i))
    {
      var ch := input[i];
      DecodeNext(input, i);
      if ch == '%' {
        var val := DecodePercent(NextTwo(input, i));
        Regroup(ret, [val], UrlDecoded(From(input, i + 3)));
        ret := ret + [val];
        i := i + 3;
        continue;
      }
      Regroup(ret, [ch], UrlDecoded(From(input, i + 1)));
      ret := ret + [ch];
      i := i + 1;
    }
  }

  /** urlencode.cpp:57-65. */
  method DecodePercent(next: Text) returns (c: Char)
    requires |next| == 2
    ensures c == DecodeTriple(next[0], next[1])
  {
    var val := new Char[1](_ => '\0');
    var used, _ := HexDecode(val, next, '\0');
    assert next[2..] == [];
    if used > 0 {
      return val[0];
    }
    return '?';
  }

  function NextTwo(s: Text, i: nat): (next: Text)
    requires i < |s|
    ensures |next| == 2
  {
    (s + ['\0', '\0'])[i + 1..i + 3]
  }

  function From(s: Text, i: nat): Text {
    if i <= |s| then s[i..] else []
  }

  lemma DecodeNext(s: Text, i: nat)
    requires i < |s|
    ensures UrlDecoded(From(s, i)) ==
      if s[i] != '%' then [s[i]] + UrlDecoded(From(s, i + 1))
      else [DecodeTriple(NextTwo(s, i)[0], NextTwo(s, i)[1])] + UrlDecoded(From(s, i + 3))
  {
    assert s[i..][1..] == s[i + 1..];
    if i + 3 <= |s| { assert s[i..][3..] == s[i + 3..]; }
  }

  // ---- What decoding makes of encoded text ----------------------------------------------

  /** Encoded text, as it is or in lower case as the query parser sees it. */
  function Written(c: Char, lower: bool): Text {
    if lower then ToLower(EncodeChar(c)) else EncodeChar(c)
  }

  function WrittenAll(s: Text, lower: bool): Text {
    if lower then ToLower(UrlEncoded(s)) else UrlEncoded(s)
  }

  function ReadBack(c: Char, lower: bool): Char {
    if Kept(c) then (if lower then LowerChar(c) else c) else Garble(c, true)
  }

  function ReadBackAll(s: Text, lower: bool): (r: Text)
    ensures |r| == |s| && forall i :: 0 <= i < |s| ==> r[i] == ReadBack(s[i], lower)
  {
    seq(|s|, i requires 0 <= i < |s| => ReadBack(s[i], lower))
  }

  lemma LowerHalf(c: Char)
    ensures DecodeHalf(LowerChar(c)) == DecodeHalf(c)
  {
  }

  lemma DecodeWritten(c: Char, lower: bool, t: Text)
    ensures UrlDecoded(Written(c, lower) + t) == [ReadBack(c, lower)] + UrlDecoded(t)
  {
    var w := Written(c, lower);
    if Kept(c) {
      assert (w + t)[1..] == t;
    } else {
      assert (w + t)[3..] == t;
      DigitRoundTrip(High(c), true);
      DigitRoundTrip(Low(c), true);
      LowerHalf(Digit(High(c), true));
      LowerHalf(Digit(Low(c), true));
    }
  }

  lemma {:induction false} DecodeEncodedThen(s: Text, lower: bool, t: Text)
    ensures UrlDecoded(WrittenAll(s, lower) + t) == ReadBackAll(s, lower) + UrlDecoded(t)
  {
    if s == [] {
      assert WrittenAll(s, lower) + t == t;
    } else {
      WrittenNext(s, lower);
      ReadBackNext(s, lower);
      Regroup(Written(s[0], lower), WrittenAll(s[1..], lower), t);
      DecodeWritten(s[0], lower, WrittenAll(s[1..], lower) + t);
      DecodeEncodedThen(s[1..], lower, t);
      Regroup([ReadBack(s[0], lower)], ReadBackAll(s[1..], lower), UrlDecoded(t));
    }
  }

  lemma WrittenNext(s: Text, lower: bool)
    requires s != []
    ensures WrittenAll(s, lower) == Written(s[0], lower) + WrittenAll(s[1..], lower)
  {
    var first, rest := EncodeChar(s[0]), UrlEncoded(s[1..]);
    assert UrlEncoded(s) == first + rest;
    LowerAppend(first, rest);
  }

  lemma ReadBackNext(s: Text, lower: bool)
    requires s != []
    ensures ReadBackAll(s, lower) == [ReadBack(s[0], lower)] + ReadBackAll(s[1..], lower)
  {
    var r := ReadBackAll(s, lower);
    assert forall i :: 0 <= i < |s| - 1 ==> s[1..][i] == s[i + 1];
    assert r[0] == ReadBack(s[0], lower);
    assert r[1..] == ReadBackAll(s[1..], lower);
  }

  lemma LowerAppend(a: Text, b: Text)
    ensures ToLower(a + b) == ToLower(a) + ToLower(b)
  {
  }

  /** A character that decoding brings back. */
  predicate Faithful(c: Char, lower: bool) {
    if Kept(c) then !(lower && IsUpper(c)) else !HasTwelve(c)
  }

  /** Decoding undoes encoding exactly when no character that has to be percent-encoded
      has a digit 12; and with the encoded text made lower case on the way, exactly when
      besides no letter is upper case. */
  lemma UrlRoundTripExactly(s: Text, lower: bool)
    ensures UrlDecoded(WrittenAll(s, lower)) == s <==> forall c :: c in s ==> Faithful(c, lower)
  {
    DecodeEncodedThen(s, lower, []);
    assert WrittenAll(s, lower) + [] == WrittenAll(s, lower);
    assert ReadBackAll(s, lower) + [] == ReadBackAll(s, lower);
    forall i | 0 <= i < |s| ensures ReadBack(s[i], lower) == s[i] <==> Faithful(s[i], lower) {
      GarbleExactly(s[i], true);
    }
    if UrlDecoded(WrittenAll(s, lower)) == s {
      forall c | c in s ensures Faithful(c, lower) {
        var i :| 0 <= i < |s| && s[i] == c;
        assert ReadBackAll(s, lower)[i] == ReadBack(s[i], lower);
      }
    }
  }

  /** Reading back once or twice is the same. */
  lemma ReadBackTwice(c: Char)
    ensures ReadBack(ReadBack(c, true), true) == ReadBack(c, true)
  {
    if !Kept(c) {
      DigitRoundTrip(High(c), true);
      DigitRoundTrip(Low(c), true);
      var d := Garble(c, true);
      JoinHalves(if High(c) == 12 then 13 else High(c), if Low(c) == 12 then 13 else Low(c));
      GarbleExactly(d, true);
      if Kept(d) { GarbleNotUpper(c); }
    }
  }

  lemma GarbleNotUpper(c: Char)
    requires !Kept(c)
    ensures !IsUpper(Garble(c, true))
  {
    DigitRoundTrip(High(c), true);
    DigitRoundTrip(Low(c), true);
    if High(c) != 12 && Low(c) == 12 {
      assert Garble(c, true) as int == c as int + 1;
    }
  }

  lemma ReadBackAllTwice(s: Text)
    ensures ReadBackAll(ReadBackAll(s, true), true) == ReadBackAll(s, true)
  {
    forall i | 0 <= i < |s| ensures ReadBack(ReadBack(s[i], true), true) == ReadBack(s[i], true) {
      ReadBackTwice(s[i]);
    }
  }

  // ---- Which characters encoded text has ------------------------------------------------

  lemma {:induction false} EncodedChars(s: Text)
    ensures forall c :: c in UrlEncoded(s) ==> Kept(c) || c == '%'
    ensures '/' in UrlEncoded(s) <==> '/' in s
    ensures UrlEncoded(s) == [] <==> s == []
    ensures s != [] ==> (UrlEncoded(s)[0] == '/' <==> s[0] == '/')
  {
    if s != [] {
      EncodedChars(s[1..]);
      assert s == [s[0]] + s[1..];
      EncodeCharChars(s[0]);
    }
  }

  lemma EncodeCharChars(c: Char)
    ensures forall d :: d in EncodeChar(c) ==> Kept(d) || d == '%'
    ensures '/' in EncodeChar(c) <==> c == '/'
    ensures EncodeChar(c)[0] == '/' <==> c == '/'
  {
    if !Kept(c) {
      DigitKept(High(c));
      DigitKept(Low(c));
    }
  }

  lemma DigitKept(value: int)
    requires 0 <= value < 16
    ensures IsAlnum(Digit(value, true))
  {
    if value < 4 { } else if value < 8 { } else if value < 12 { } else { }
  }

  lemma {:induction false} EncodedAppend(s: Text, t: Text)
    ensures UrlEncoded(s + t) == UrlEncoded(s) + UrlEncoded(t)
  {
    if s == [] {
      assert s + t == t;
    } else {
      assert (s + t)[1..] == s[1..] + t;
      EncodedAppend(s[1..], t);
    }
  }

  /** Text without anything to encode is its own encoding, also in lower case; and no
      other text has such an encoding. */
  lemma {:induction false} KeptOnly(s: Text, word: Text)
    requires '%' !in word
    ensures ToLower(UrlEncoded(s)) == word <==> (forall c :: c in s ==> Kept(c)) && ToLower(s) == word
  {
    if s == [] {
    } else if !Kept(s[0]) {
      assert UrlEncoded(s)[0] == '%' && ToLower(UrlEncoded(s))[0] == '%';
    } else {
      var c, rest := s[0], s[1..];
      assert s == [c] + rest;
      assert UrlEncoded(s) == [c] + UrlEncoded(rest);
      LowerFirst(c, rest, word);
      LowerFirst(c, UrlEncoded(rest), word);
      if word != [] { KeptOnly(rest, word[1..]); }
    }
  }

  lemma LowerFirst(c: Char, rest: Text, word: Text)
    ensures ToLower([c] + rest) == word <==> word != [] && LowerChar(c) == word[0] && ToLower(rest) == word[1..]
  {
    assert ToLower([c] + rest) == [LowerChar(c)] + ToLower(rest);
    if word != [] { assert word == [word[0]] + word[1..]; }
  }
}
