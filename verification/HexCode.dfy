/** string/hexencode.cpp: hexadecimal text (section 8 of RFC 4648) and back. */
module HexCode {
  import opened Text

  const LOWER_DIGITS := "0123456789abcdef"
  /** hexencode.cpp:38-43; note the second 'D'. */
  const UPPER_DIGITS := "0123456789ABDDEF"

  function Digit(value: int, uppercase: bool): Char
    requires 0 <= value < 16
  {
    if uppercase then UPPER_DIGITS[value] else LOWER_DIGITS[value]
  }

  /** hexencode.cpp:45-57. */
  function DecodeHalf(c: Char): (value: int)
    ensures -1 <= value < 16
  {
    if '0' <= c <= '9' then c as int - '0' as int
    else
      var l := LowerChar(c);
      if l < 'a' || l > 'f' then -1 else l as int - 'a' as int + 10
  }

  /** What decoding a written digit gives: itself, but for the upper-case 12. */
  lemma DigitRoundTrip(value: int, uppercase: bool)
    requires 0 <= value < 16
    ensures DecodeHalf(Digit(value, uppercase)) == if uppercase && value == 12 then 13 else value
  {
    if value < 4 { } else if value < 8 { } else if value < 12 { } else { }
  }

  /** Which characters are digits, and of which value. */
  lemma DecodeHalfExactly(c: Char, value: int)
    requires 0 <= value < 16
    ensures DecodeHalf(c) == value <==> c == "0123456789abcdef"[value] || c == "0123456789ABCDEF"[value]
    ensures DecodeHalf(c) == -1 <==> !('0' <= c <= '9' || 'a' <= c <= 'f' || 'A' <= c <= 'F')
  {
    if value < 4 { } else if value < 8 { } else if value < 12 { } else { }
  }

  /** Encoded text is made of digits, with the letters in the case asked for. */
  predicate WellCased(c: Char, uppercase: bool) {
    DecodeHalf(c) >= 0 && (if uppercase then !IsLower(c) else !IsUpper(c))
  }

  lemma DigitCased(value: int, uppercase: bool)
    requires 0 <= value < 16
    ensures WellCased(Digit(value, uppercase), uppercase)
  {
    if value < 4 { } else if value < 8 { } else if value < 12 { } else { }
  }

  lemma {:induction false} EncodedCased(s: Text, uppercase: bool)
    ensures |Encoded(s, uppercase)| == 2 * |s|
    ensures forall i :: 0 <= i < 2 * |s| ==> WellCased(Encoded(s, uppercase)[i], uppercase)
  {
    if s != [] {
      var n := |s| - 1;
      EncodedCased(s[..n], uppercase);
      DigitCased(High(s[n]), uppercase);
      DigitCased(Low(s[n]), uppercase);
    }
  }

  function High(c: Char): int {
    c as int / 16
  }

  function Low(c: Char): int {
    c as int % 16
  }

  function Join(high: int, low: int): Char
    requires 0 <= high < 16 && 0 <= low < 16
  {
    (16 * high + low) as char
  }

  lemma JoinHalves(high: int, low: int)
    requires 0 <= high < 16 && 0 <= low < 16
    ensures High(Join(high, low)) == high && Low(Join(high, low)) == low
  {
  }

  function Pair(c: Char, uppercase: bool): Text {
    [Digit(High(c), uppercase), Digit(Low(c), uppercase)]
  }

  function Encoded(s: Text, uppercase: bool): Text {
    if s == [] then [] else Encoded(s[..|s| - 1], uppercase) + Pair(s[|s| - 1], uppercase)
  }

  lemma {:induction false} EncodedLength(s: Text, uppercase: bool)
    ensures |Encoded(s, uppercase)| == 2 * |s|
  {
    if s != [] { EncodedLength(s[..|s| - 1], uppercase); }
  }

  /** hexencode.cpp:61-82. */
  method HexEncode(output: array<Char>, input: Text, uppercase: bool) returns (used: nat)
    modifies output
    ensures output.Length < 2 * |input| ==> used == 0 && output[..] == old(output[..])
    ensures output.Length >= 2 * |input| ==>
      used == 2 * |input| && output[..] == Encoded(input, uppercase) + old(output[used..])
  {
    if output.Length < 2 * |input| {
      return 0;
    }
    var cur, offset := 0, 0;
    while cur < |input|
      invariant 0 <= cur <= |input| && offset == 2 * cur
      invariant output[..offset] == Encoded(input[..cur], uppercase)
      invariant output[offset..] == old(output[offset..])
    {
      output[offset] := Digit(High(input[cur]), uppercase);
      output[offset + 1] := Digit(Low(input[cur]), uppercase);
      offset := offset + 2;
      assert input[..cur + 1][..cur] == input[..cur];
      cur := cur + 1;
    }
    assert input[..cur] == input;
    assert output[..] == output[..offset] + output[offset..];
    return offset;
  }

  /** hexencode.cpp:134-150: the same into a new string. */
  method HexEncodeText(input: Text, uppercase: bool) returns (r: Text)
    ensures r == Encoded(input, uppercase)
  {
    var buf := new Char[2 * |input|](_ => '\0');
    var used := HexEncode(buf, input, uppercase);
    EncodedLength(input, uppercase);
    if used > 0 {
      return buf[..used];
    }
    return [];
  }

  /** How many leading pairs of s are two digits. */
  function Pairs(s: Text): (n: nat)
    ensures 2 * n <= |s|
  {
    if |s| < 2 || DecodeHalf(s[0]) < 0 || DecodeHalf(s[1]) < 0 then 0 else 1 + Pairs(s[2..])
  }

  /** The characters these pairs spell. */
  function Decoded(s: Text): (r: Text)
    ensures |r| == Pairs(s)
  {
    if |s| < 2 || DecodeHalf(s[0]) < 0 || DecodeHalf(s[1]) < 0 then []
    else [Join(DecodeHalf(s[0]), DecodeHalf(s[1]))] + Decoded(s[2..])
  }

  /** The characters the source looks at: of an odd number, one more than it was given. */
  function LookedAt(input: Text, beyond: Char): Text {
    if |input| % 2 == 0 then input else input + [beyond]
  }

  /** Where the source writes behind a buffer of that size. */
  predicate Overruns(size: nat, input: Text, beyond: Char) {
    |input| % 2 == 1 && size == |input| / 2 && 2 * Pairs(input + [beyond]) == |input| + 1
  }

  predicate AllDigits(s: Text) {
    forall i :: 0 <= i < |s| ==> DecodeHalf(s[i]) >= 0
  }

  /** Everything is pairs of digits when there are evenly many characters and all are
      digits. */
  lemma {:induction false} PairsExactly(s: Text)
    ensures 2 * Pairs(s) == |s| <==> |s| % 2 == 0 && AllDigits(s)
  {
    if |s| >= 2 {
      PairsExactly(s[2..]);
      assert forall i :: 2 <= i < |s| ==> s[i] == s[2..][i - 2];
    }
  }

  /** That is so when the buffer is just half as long as an odd number of digits, rounded
      down, and another digit stands behind them, as in "a" with '0' behind it and no
      buffer at all. */
  lemma OverrunsExactly(size: nat, input: Text, beyond: Char)
    ensures Overruns(size, input, beyond) <==>
      |input| % 2 == 1 && size == |input| / 2 && AllDigits(input) && DecodeHalf(beyond) >= 0
    ensures Overruns(0, "a", '0')
  {
    var all := input + [beyond];
    PairsExactly(all);
    PairsExactly("a" + ['0']);
    assert all[|input|] == beyond && forall i :: 0 <= i < |input| ==> all[i] == input[i];
    assert AllDigits(all) <==> AllDigits(input) && DecodeHalf(beyond) >= 0;
  }

  /** hexencode.cpp:98-121. Given an odd number of characters it looks at one more,
      `beyond`, and it checks room for one pair less than it may write. Where the source
      would write behind the buffer, `overrun` is set instead. */
  method HexDecode(output: array<Char>, input: Text, beyond: Char) returns (used: nat, overrun: bool)
    modifies output
    ensures overrun <==> Overruns(output.Length, input, beyond)
    ensures overrun ==> used == output.Length && output[..] == Decoded(input + [beyond])[..used]
    ensures output.Length < |input| / 2 ==> used == 0 && output[..] == old(output[..])
    ensures output.Length >= |input| / 2 && !overrun ==>
      var text := LookedAt(input, beyond);
      && used == (if 2 * Pairs(text) == |text| then Pairs(text) else 0)
      && output[..] == Decoded(text) + old(output[Pairs(text)..])
  {
    if output.Length < |input| / 2 {
      return 0, false;
    }
    ghost var text := LookedAt(input, beyond);
    ghost var n, all, was := Pairs(text), Decoded(text), output[..];
    var cur, offset := 0, 0;
    while cur < |input|
      invariant 0 <= cur <= |text| && cur == 2 * offset && offset <= n && offset <= output.Length
      invariant forall i :: 0 <= i < offset ==> output[i] == all[i]
      invariant forall i :: offset <= i < output.Length ==> output[i] == was[i]
    {
      PairAt(text, offset);
      var v1 := DecodeHalf(input[cur]);
      if v1 < 0 {
        return 0, false;
      }
      var v2 := DecodeHalf(if cur + 1 < |input| then input[cur + 1] else beyond);
      if v2 < 0 {
        return 0, false;
      }
      if offset == output.Length {
        return offset, true;
      }
      output[offset] := Join(v1, v2);
      cur := cur + 2;
      offset := offset + 1;
    }
    return offset, false;
  }

  /** A null behind the input, as behind every std::string, keeps it from overrunning: what
      is looked at is not all digits then. */
  lemma {:induction false} NullStops(input: Text)
    requires |input| % 2 == 1
    ensures 2 * Pairs(input + ['\0']) < |input| + 1
  {
    if |input| > 1 {
      assert (input + ['\0'])[2..] == input[2..] + ['\0'];
      NullStops(input[2..]);
    }
  }

  /** hexencode.cpp:162-176: the same into a new vector. Text that is not all pairs of
      digits decodes to nothing. */
  method HexDecodeText(input: Text, beyond: Char) returns (r: Text, overrun: bool)
    ensures overrun <==> Overruns(|input| / 2, input, beyond)
    ensures !overrun ==> r == if 2 * Pairs(input) == |input| then Decoded(input) else []
    ensures beyond == '\0' ==> !overrun
  {
    var buf := new Char[|input| / 2](_ => '\0');
    var used;
    used, overrun := HexDecode(buf, input, beyond);
    if |input| % 2 == 1 { NullStops(input); }
    if used > 0 {
      return buf[..used], overrun;
    }
    return [], overrun;
  }

  /** The pair after some good ones is good as well, or there are no more good ones. */
  lemma {:induction false} PairAt(s: Text, i: nat)
    requires i <= Pairs(s) && 2 * i + 2 <= |s|
    ensures var h, l := DecodeHalf(s[2 * i]), DecodeHalf(s[2 * i + 1]);
      if h < 0 || l < 0 then i == Pairs(s) else i < Pairs(s) && Decoded(s)[i] == Join(h, l)
  {
    if i > 0 { PairAt(s[2..], i - 1); }
  }

  lemma {:induction false} DecodedAppend(s: Text, t: Text)
    requires 2 * Pairs(s) == |s|
    ensures Pairs(s + t) == Pairs(s) + Pairs(t)
    ensures Decoded(s + t) == Decoded(s) + Decoded(t)
  {
    if s == [] {
      assert s + t == t;
    } else {
      assert (s + t)[2..] == s[2..] + t;
      DecodedAppend(s[2..], t);
    }
  }

  /** What becomes of one character that is encoded and decoded. */
  function Garble(c: Char, uppercase: bool): Char {
    DigitRoundTrip(High(c), uppercase);
    DigitRoundTrip(Low(c), uppercase);
    Join(DecodeHalf(Digit(High(c), uppercase)), DecodeHalf(Digit(Low(c), uppercase)))
  }

  predicate HasTwelve(c: Char) {
    High(c) == 12 || Low(c) == 12
  }

  /** A character survives unless it was written in upper case and has a digit 12. */
  lemma GarbleExactly(c: Char, uppercase: bool)
    ensures Garble(c, uppercase) == c <==> !(uppercase && HasTwelve(c))
  {
    DigitRoundTrip(High(c), uppercase);
    DigitRoundTrip(Low(c), uppercase);
  }

  lemma DecodePair(c: Char, uppercase: bool)
    ensures Pairs(Pair(c, uppercase)) == 1 && Decoded(Pair(c, uppercase)) == [Garble(c, uppercase)]
  {
    DigitRoundTrip(High(c), uppercase);
    DigitRoundTrip(Low(c), uppercase);
    assert Pair(c, uppercase)[2..] == [];
  }

  lemma {:induction false} DecodeEncoded(s: Text, uppercase: bool)
    ensures 2 * Pairs(Encoded(s, uppercase)) == |Encoded(s, uppercase)| && |Decoded(Encoded(s, uppercase))| == |s|
    ensures forall i :: 0 <= i < |s| ==> Decoded(Encoded(s, uppercase))[i] == Garble(s[i], uppercase)
  {
    if s != [] {
      var n := |s| - 1;
      DecodeEncoded(s[..n], uppercase);
      DecodePair(s[n], uppercase);
      DecodedAppend(Encoded(s[..n], uppercase), Pair(s[n], uppercase));
    }
  }

  /** Decoding undoes lower-case encoding always, and upper-case encoding exactly when no
      byte has a digit 12. */
  lemma RoundTripExactly(s: Text, uppercase: bool)
    ensures Decoded(Encoded(s, uppercase)) == s <==> !uppercase || forall c :: c in s ==> !HasTwelve(c)
  {
    DecodeEncoded(s, uppercase);
    var r := Decoded(Encoded(s, uppercase));
    forall i | 0 <= i < |s| ensures r[i] == s[i] <==> !(uppercase && HasTwelve(s[i])) {
      GarbleExactly(s[i], uppercase);
    }
  }

  /** Encoding undoes decoding on lower-case digits, and otherwise gives the lower case. */
  lemma {:induction false} EncodeDecoded(s: Text)
    requires 2 * Pairs(s) == |s|
    ensures Encoded(Decoded(s), false) == ToLower(s)
  {
    if s != [] {
      EncodeDecoded(s[2..]);
      EncodedPrepend(Join(DecodeHalf(s[0]), DecodeHalf(s[1])), Decoded(s[2..]));
      LowerPair(s[0], s[1]);
      LowerFirst(s);
    }
  }

  lemma LowerFirst(s: Text)
    requires |s| >= 2
    ensures ToLower(s) == [LowerChar(s[0]), LowerChar(s[1])] + ToLower(s[2..])
  {
    var r := [LowerChar(s[0]), LowerChar(s[1])] + ToLower(s[2..]);
    forall i | 0 <= i < |s| ensures ToLower(s)[i] == r[i] {
      if i >= 2 { assert r[i] == LowerChar(s[2..][i - 2]); }
    }
  }

  lemma LowerPair(a: Char, b: Char)
    requires DecodeHalf(a) >= 0 && DecodeHalf(b) >= 0
    ensures Pair(Join(DecodeHalf(a), DecodeHalf(b)), false) == [LowerChar(a), LowerChar(b)]
  {
    JoinHalves(DecodeHalf(a), DecodeHalf(b));
    LowerDigit(a);
    LowerDigit(b);
  }

  lemma LowerDigit(c: Char)
    requires DecodeHalf(c) >= 0
    ensures Digit(DecodeHalf(c), false) == LowerChar(c)
  {
  }

  lemma {:induction false} EncodedPrepend(c: Char, s: Text)
    ensures Encoded([c] + s, false) == Pair(c, false) + Encoded(s, false)
  {
    if s != [] {
      EncodedPrepend(c, s[..|s| - 1]);
      assert ([c] + s)[..|s|] == [c] + s[..|s| - 1];
    } else {
      assert [c] + s == [c] && [c][..0] == [];
    }
  }
}
