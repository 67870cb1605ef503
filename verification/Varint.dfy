/** The variable-length integer code of serialization/varint.h: base 128, most significant
    group first, with an offset so that no value has two encodings. */
module Varint {
  import opened Integers
  import opened Wrappers

  const TWO_57: nat := 0x0200_0000_0000_0000
  const TWO_63: nat := 0x8000_0000_0000_0000

  /** varint.h:46-51, over exact fractions. */
  function Ceil(input: real): (c: int)
    ensures c as real - 1.0 < input <= c as real
  {
    var whole := input.Floor;
    if whole as real == input then whole else whole + 1
  }

  /** varint.h:58-60: eight bytes, seven bits to a group. */
  const VARINT_MAX_BUFSIZE: int := Ceil(64.0 / 7.0)

  // ---- What byte strings mean ---------------------------------------------------------

  /** All bytes but the last carry the continuation bit. */
  predicate Terminated(s: seq<uint8>) {
    |s| > 0 && s[|s| - 1] < 128 && forall i :: 0 <= i < |s| - 1 ==> s[i] >= 128
  }

  /** c & 127. */
  function Low7(c: uint8): (low: nat)
    ensures low < 128
  {
    if c < 128 then c else c - 128
  }

  /** The mathematical value of a byte string, with the offset of one at every group. */
  function Value(s: seq<uint8>): nat {
    if s == [] then 0
    else if |s| == 1 then Low7(s[0])
    else (Value(s[..|s| - 1]) + 1) * 128 + Low7(s[|s| - 1])
  }

  /** The encoding of v whose last byte carries `flag`. */
  function Code(v: nat, flag: uint8): (s: seq<uint8>)
    requires flag in {0, 128}
    ensures |s| > 0
  {
    (if v < 128 then [] else Code(v / 128 - 1, 128)) + [flag + v % 128]
  }

  function Encode(v: nat): seq<uint8> {
    Code(v, 0)
  }

  lemma {:induction false} CodeShape(v: nat, flag: uint8)
    requires flag in {0, 128}
    ensures var s := Code(v, flag);
      s[|s| - 1] == flag + v % 128 && forall i :: 0 <= i < |s| - 1 ==> s[i] >= 128
  {
    if v >= 128 { CodeShape(v / 128 - 1, 128); }
  }

  lemma {:induction false} CodeMeans(v: nat, flag: uint8)
    requires flag in {0, 128}
    ensures Value(Code(v, flag)) == v
  {
    if v >= 128 {
      var high, low := v / 128 - 1, v % 128;
      var s, prefix := Code(v, flag), Code(high, 128);
      assert s == prefix + [flag + low] && s[..|s| - 1] == prefix;
      CodeMeans(high, 128);
      assert Low7(flag + low) == low;
      calc {
        Value(s);
        (Value(prefix) + 1) * 128 + Low7(flag + low);
        (high + 1) * 128 + low;
        v;
      }
    }
  }

  lemma {:induction false} ValueCodes(s: seq<uint8>, flag: uint8)
    requires |s| > 0 && flag in {0, 128}
    requires forall i :: 0 <= i < |s| - 1 ==> s[i] >= 128
    requires s[|s| - 1] == flag + Low7(s[|s| - 1])
    ensures Code(Value(s), flag) == s
  {
    var prefix, last := s[..|s| - 1], s[|s| - 1];
    if |s| == 1 {
      CodeOfOne(s, flag);
    } else {
      Continues(s, |s| - 2);
      ValueCodes(prefix, 128);
      CodeOfMore(s, prefix, last, flag);
    }
  }

  lemma CodeOfMore(s: seq<uint8>, prefix: seq<uint8>, last: uint8, flag: uint8)
    requires |s| > 1 && flag in {0, 128} && prefix == s[..|s| - 1] && last == s[|s| - 1]
    requires last == flag + Low7(last) && Code(Value(prefix), 128) == prefix
    ensures Code(Value(s), flag) == s
  {
    CodeOfGroups(Value(prefix), Low7(last), flag);
    assert s == prefix + [last];
  }

  lemma CodeOfOne(s: seq<uint8>, flag: uint8)
    requires |s| == 1 && flag in {0, 128} && s[0] == flag + Low7(s[0])
    ensures Code(Value(s), flag) == s
  {
  }

  lemma Continues(s: seq<uint8>, i: nat)
    requires i < |s| && s[i] >= 128
    ensures s[i] == 128 + Low7(s[i])
  {
  }

  lemma CodeOfGroups(high: nat, low: nat, flag: uint8)
    requires low < 128 && flag in {0, 128}
    ensures Code((high + 1) * 128 + low, flag) == Code(high, 128) + [flag + low]
  {
    GroupSplit(high, low);
  }

  lemma GroupSplit(high: nat, low: nat)
    requires low < 128
    ensures var v := (high + 1) * 128 + low; v >= 128 && v / 128 - 1 == high && v % 128 == low
  {
  }

  /** The code is a bijection between the natural numbers and the terminated strings. */
  lemma EncodeBijective(v: nat, s: seq<uint8>)
    ensures Terminated(Encode(v)) && Value(Encode(v)) == v
    ensures Terminated(s) ==> Encode(Value(s)) == s
  {
    CodeShape(v, 0);
    CodeMeans(v, 0);
    if Terminated(s) { ValueCodes(s, 0); }
  }

  /** test/serialization/varint.cpp:33-56 and 95-105: the high groups come first. */
  lemma EncodingExample()
    ensures Encode(0x0102_0304) == [0x87, 0x87, 0x85, 0x04] && Value([0x87, 0x87, 0x85, 0x04]) == 0x0102_0304
    ensures Encode(127) == [127]
  {
    assert Code(7, 128) == [0x87];
    assert Code(1031, 128) == [0x87] + [0x87];
    assert Code(132101, 128) == [0x87, 0x87] + [0x85];
    assert Encode(0x0102_0304) == [0x87, 0x87, 0x85] + [0x04];
    EncodeBijective(0x0102_0304, []);
  }

  // ---- How long encodings are ---------------------------------------------------------

  function Pow128(n: nat): nat {
    if n == 0 then 1 else 128 * Pow128(n - 1)
  }

  /** The least value that takes n bytes. */
  function Least(n: nat): nat
    requires n > 0
  {
    if n == 1 then 0 else (Least(n - 1) + 1) * 128
  }

  lemma {:induction false} LeastClosedForm(n: nat)
    requires n > 0
    ensures 127 * Least(n) == Pow128(n) - 128
  {
    if n > 1 { LeastClosedForm(n - 1); }
  }

  lemma {:induction false} CodeLength(v: nat, flag: uint8)
    requires flag in {0, 128}
    ensures Least(|Code(v, flag)|) <= v < Least(|Code(v, flag)| + 1)
  {
    if v >= 128 { CodeLength(v / 128 - 1, 128); }
  }

  /** What serialized_size counts: groups of seven bits, without the offset. */
  function Groups(v: nat): (n: nat)
    ensures n > 0
  {
    if v < 128 then 1 else 1 + Groups(v / 128)
  }

  lemma {:induction false} GroupsRange(v: nat)
    ensures v < Pow128(Groups(v)) && (v > 0 ==> Pow128(Groups(v) - 1) <= v)
  {
    if v >= 128 { GroupsRange(v / 128); }
  }

  lemma {:induction false} LeastMonotone(m: nat, n: nat)
    requires 0 < m < n
    ensures Least(m) < Least(n)
    decreases n
  {
    if m < n - 1 { LeastMonotone(m, n - 1); }
  }

  lemma {:induction false} PowMonotone(m: nat, n: nat)
    requires m <= n
    ensures Pow128(m) <= Pow128(n)
    decreases n
  {
    if m < n { PowMonotone(m, n - 1); }
  }

  /** How the powers and the offset bounds interleave. */
  lemma Bounds(n: nat)
    requires n >= 2
    ensures Least(n - 1) <= Pow128(n - 1) <= Least(n) < Pow128(n)
  {
    LeastClosedForm(n - 1);
    LeastClosedForm(n);
    PowMonotone(1, n - 1);
    assert Pow128(1) == 128;
  }

  lemma LengthIs(v: nat, n: nat)
    requires n > 0 && Least(n) <= v < Least(n + 1)
    ensures |Encode(v)| == n
  {
    CodeLength(v, 0);
    var m := |Encode(v)|;
    if m < n { if m + 1 < n { LeastMonotone(m + 1, n); } }
    if n < m { if n + 1 < m { LeastMonotone(n + 1, m); } }
  }

  lemma GroupsIs(v: nat, n: nat)
    requires n >= 2 && Pow128(n - 1) <= v < Pow128(n)
    ensures Groups(v) == n
  {
    GroupsRange(v);
    var m := Groups(v);
    PowMonotone(0, n - 1);
    if m < n { PowMonotone(m, n - 1); }
    if n < m { PowMonotone(n, m - 1); }
  }

  /** serialized_size promises the number of bytes the writer writes, except on the values
      from 128^(n-1) up to the least n-byte value, for n from 3 to 9, where it promises one
      byte too many. */
  lemma SizeGap(v: nat)
    ensures |Encode(v)| <= Groups(v) <= |Encode(v)| + 1
    ensures Groups(v) != |Encode(v)| <==> exists n :: 3 <= n && Pow128(n - 1) <= v < Least(n)
  {
    CodeLength(v, 0);
    var n := |Encode(v)|;
    Bounds(n + 1);
    if v < Pow128(n) {
      if n >= 2 { Bounds(n); GroupsIs(v, n); }
    } else {
      GroupsIs(v, n + 1);
      assert Pow128(1) == 128 && Least(2) == 128;
    }
    forall m | 3 <= m && Pow128(m - 1) <= v < Least(m) ensures Groups(v) != |Encode(v)| {
      Bounds(m);
      LengthIs(v, m - 1);
      GroupsIs(v, m);
    }
  }

  /** None of these intervals is empty. */
  lemma GapsNotEmpty(n: nat)
    requires n >= 2
    ensures 127 * (Least(n) - Pow128(n - 1)) == Pow128(n - 1) - 128
    ensures Pow128(n - 1) < Least(n) <==> n >= 3
  {
    LeastClosedForm(n);
    assert Pow128(1) == 128 && Pow128(2) == 16384;
    if n >= 3 { PowMonotone(2, n - 1); }
  }

  /** The first of them. */
  lemma FirstGap(v: nat)
    ensures Groups(v) == 3 && |Encode(v)| == 2 <==> 16384 <= v < 16512
  {
    assert Pow128(1) == 128 && Pow128(2) == 16384 && Pow128(3) == 0x20_0000;
    assert Least(2) == 128 && Least(3) == 16512;
    GroupsRange(v);
    CodeLength(v, 0);
    if 16384 <= v < 16512 {
      GroupsIs(v, 3);
      LengthIs(v, 2);
    }
  }

  /** For the values a varint can hold the exceptions stop at nine bytes. */
  lemma SizeGapBounded(v: nat)
    requires v < TWO_63
    ensures Groups(v) <= 9
    ensures Groups(v) != |Encode(v)| ==> Groups(v) >= 3
  {
    if Groups(v) > 9 {
      GroupsRange(v);
      PowMonotone(9, Groups(v) - 1);
      Pow128At9();
    }
    SizeGap(v);
    CodeLength(v, 0);
    assert Least(2) == 128 && Pow128(1) == 128;
  }

  lemma Pow128At9()
    ensures Pow128(9) == TWO_63
  {
    assert Pow128(3) == 0x20_0000;
    assert Pow128(6) == 0x400_0000_0000;
  }

  // ---- Writing ------------------------------------------------------------------------

  /** v >> 7 on a signed value, k times over. */
  function Shifted(v: int, k: nat): int {
    if k == 0 then v else Shifted(v, k - 1) / 128
  }

  /** On a negative value the loop condition of serialized_size never becomes false. */
  lemma {:induction false} NegativeNeverEnds(v: int, k: nat)
    requires v < 0
    ensures Shifted(v, k) < 0
  {
    if k > 0 { NegativeNeverEnds(v, k - 1); }
  }

  /** varint.h:65-75. */
  method SerializedSize(value: nat) returns (result: nat)
    ensures result == Groups(value)
  {
    var input := value;
    result := 1;
    input := input / 128;
    while input != 0
      invariant Groups(value) == result + if input == 0 then 0 else Groups(input)
    {
      result := result + 1;
      input := input / 128;
    }
  }

  lemma NextGroup(value: nat, input: nat, tail: seq<uint8>)
    requires Encode(value) == Code(input, 128) + tail
    ensures Encode(value) == Front(input / 128) + ([128 + input % 128] + tail)
  {
  }

  /** The groups still to be written in front of the others. */
  function Front(input: nat): seq<uint8> {
    if input == 0 then [] else Code(input - 1, 128)
  }

  /** varint.h:92-121, writing at output + at. Nothing is written if the buffer is missing
      or too small; otherwise the encoding ends where the promised size ends, and bytes
      before it are left as they were. */
  method SerializeVarint(output: array?<uint8>, at: nat, outputLength: nat, value: nat) returns (written: nat)
    requires output != null ==> at + outputLength <= output.Length
    requires value < TWO_63
    modifies output
    ensures output == null || outputLength < Groups(value) ==>
              written == 0 && (output != null ==> output[..] == old(output[..]))
    ensures |Encode(value)| <= Groups(value)
    ensures output != null && outputLength >= Groups(value) ==>
              && written == Groups(value)
              && output[at + written - |Encode(value)|..at + written] == Encode(value)
              && forall i :: 0 <= i < at + written - |Encode(value)| || at + written <= i < output.Length ==>
                   output[i] == old(output[i])
  {
    SizeGap(value);
    if output == null || outputLength == 0 {
      return 0;
    }
    var required := SerializedSize(value);
    if outputLength < required {
      return 0;
    }
    var input: nat := value;
    var offset := required - 1;
    output[at + offset] := input % 128;
    input := input / 128;
    ghost var tail := [value % 128];
    while input != 0
      invariant 0 <= offset && offset + |tail| == required
      invariant Encode(value) == Front(input) + tail
      invariant forall i :: 0 <= i < |tail| ==> output[at + offset + i] == tail[i]
      invariant forall i :: 0 <= i < output.Length && !(at + offset <= i < at + required) ==> output[i] == old(output[i])
      decreases input
    {
      offset := offset - 1;
      if offset < 0 {
        // "Ran out of room" in the source.
        assert false;
      }
      NextGroup(value, input - 1, tail);
      input := input - 1;
      output[at + offset] := 128 + input % 128;
      tail := [128 + input % 128] + tail;
      input := input / 128;
    }
    assert output[at + offset..at + required] == tail;
    return required;
  }

  // ---- Reading ------------------------------------------------------------------------

  /** The reader takes the first n bytes: they form one encoding of a 64-bit value, and
      unless it is a single byte at least one more byte follows. */
  ghost predicate Accepts(s: seq<uint8>, n: int) {
    && 1 <= n <= |s|
    && Terminated(s[..n])
    && (n == 1 || n < |s|)
    && Value(s[..n]) < TWO_TO_THE_64
  }

  lemma {:induction false} ValueGrows(s: seq<uint8>, k: nat)
    requires 0 < k < |s|
    ensures Value(s) >= (Value(s[..k]) + 1) * 128
    decreases |s|
  {
    var init := s[..|s| - 1];
    if k < |init| {
      ValueGrows(init, k);
      assert init[..k] == s[..k];
    }
  }

  /** A prefix that asks for continuation and has grown past 57 bits is never accepted. */
  lemma TooBig(s: seq<uint8>, k: nat)
    requires 0 < k <= |s| && forall i :: 0 <= i < k ==> s[i] >= 128
    requires Value(s[..k]) + 1 >= TWO_57
    ensures forall n :: !Accepts(s, n)
  {
    forall n ensures !Accepts(s, n) {
      if k < n <= |s| {
        ValueGrows(s[..n], k);
        assert s[..n][..k] == s[..k];
      } else if 1 <= n <= k {
        assert s[..n][n - 1] == s[n - 1];
      }
    }
  }

  /** Neither is an input whose end is reached while continuation is asked for. */
  lemma RunsOut(s: seq<uint8>, k: nat)
    requires 0 < k <= |s| <= k + 1 && forall i :: 0 <= i < k ==> s[i] >= 128
    ensures forall n :: !Accepts(s, n)
  {
    forall n ensures !Accepts(s, n) {
      if 1 <= n <= k { assert s[..n][n - 1] == s[n - 1]; }
    }
  }

  /** The check for overflow. */
  lemma Overflows(n: nat)
    requires n < TWO_TO_THE_64
    ensures var v := (n + 1) % TWO_TO_THE_64; v == 0 || v / TWO_57 != 0 <==> n + 1 >= TWO_57
  {
  }

  lemma RoomToShift(n: nat, low: nat)
    requires n < TWO_57 && low < 128
    ensures (n % TWO_TO_THE_64 * 128) % TWO_TO_THE_64 + low == n * 128 + low < TWO_TO_THE_64
  {
    assert n % TWO_TO_THE_64 == n;
  }

  /** One more byte; the value before it takes no more than 57 bits. */
  lemma ValueNext(s: seq<uint8>, prefix: seq<uint8>, c: uint8)
    requires |s| > 1 && prefix == s[..|s| - 1] && c == s[|s| - 1] && Value(prefix) + 1 < TWO_57
    ensures Value(s) == ((Value(prefix) + 1) % TWO_TO_THE_64 * 128) % TWO_TO_THE_64 + Low7(c) < TWO_TO_THE_64
  {
    RoomToShift(Value(prefix) + 1, Low7(c));
  }

  /** varint.h:136-172. `beyond` stands for the byte behind the input: the source reads it
      exactly when a one-byte input asks for continuation, and it has no influence. */
  method DeserializeVarint(input: array?<uint8>, inputLength: nat, beyond: uint8)
    returns (read: nat, value: nat, readBeyond: bool)
    requires input != null ==> inputLength <= input.Length
    ensures input == null ==> read == 0
    ensures input != null ==> (read == 0 <==> forall n :: !Accepts(input[..inputLength], n))
    ensures input != null && read > 0 ==>
              Accepts(input[..inputLength], read) && value == Value(input[..read])
    ensures readBeyond <==> input != null && inputLength == 1 && input[0] >= 128
  {
    value := 0;
    readBeyond := false;
    if input == null || inputLength == 0 {
      return 0, 0, false;
    }
    ghost var s := input[..inputLength];
    var c := input[0];
    var pos := 1;
    var val := Low7(c);
    while c >= 128
      invariant 1 <= pos <= inputLength && (pos == 1 || pos < inputLength) && !readBeyond
      invariant c == s[pos - 1] && forall i :: 0 <= i < pos - 1 ==> s[i] >= 128
      invariant val == Value(s[..pos]) < TWO_TO_THE_64
      decreases inputLength - pos
    {
      ghost var prefix := s[..pos];
      Overflows(val);
      val := (val + 1) % TWO_TO_THE_64;
      if val == 0 || val / TWO_57 != 0 {
        TooBig(s, pos);
        return 0, 0, readBeyond;
      }
      if pos < inputLength {
        c := input[pos];
      } else {
        readBeyond := true;
        c := beyond;
      }
      pos := pos + 1;
      val := (val * 128) % TWO_TO_THE_64 + Low7(c);
      if pos >= inputLength {
        RunsOut(s, pos - 1);
        return 0, 0, readBeyond;
      }
      assert s[..pos][..pos - 1] == prefix && s[pos - 1] == c;
      ValueNext(s[..pos], prefix, c);
    }
    assert Accepts(s, pos);
    assert s[..pos] == input[..pos];
    return pos, val, readBeyond;
  }

  // ---- Round trips --------------------------------------------------------------------

  /** The reader has no choice. */
  lemma AcceptsUnique(s: seq<uint8>, m: nat, n: nat)
    requires Accepts(s, m) && Accepts(s, n)
    ensures m == n
  {
    OnlyPrefix(s, n, m);
  }

  lemma OnlyPrefix(s: seq<uint8>, n: nat, m: nat)
    requires 1 <= n <= |s| && 1 <= m <= |s| && Terminated(s[..n])
    ensures Terminated(s[..m]) ==> m == n
  {
    if m < n { assert s[..m][m - 1] == s[..n][m - 1] >= 128; }
    if n < m { assert s[..m][n - 1] == s[..n][n - 1] < 128; }
  }

  /** The result of reading one value: what DeserializeVarint returns. */
  ghost function Decode(s: seq<uint8>): (r: Option<(nat, nat)>)
    ensures r == None <==> forall n :: !Accepts(s, n)
    ensures r.Some? ==> Accepts(s, r.value.0) && r.value.1 == Value(s[..r.value.0])
  {
    if exists n :: Accepts(s, n) then
      var n :| Accepts(s, n);
      Some((n, Value(s[..n])))
    else None
  }

  lemma LeastAt11()
    ensures Least(10) < TWO_TO_THE_64 < Least(11)
  {
    assert Least(4) == 2113664;
    assert Least(7) == 4432676798592;
    assert Least(10) == 9295997013522923648;
  }

  /** Given one byte of slack, reading is a bijection between the encodings of the 64-bit
      values and those values; no encoding is longer than VARINT_MAX_BUFSIZE bytes, and some
      need all of them. */
  lemma DecodeBijective(v: nat, s: seq<uint8>, slack: uint8)
    ensures v < TWO_TO_THE_64 ==> Decode(Encode(v) + [slack]) == Some((|Encode(v)|, v)) && |Encode(v)| <= VARINT_MAX_BUFSIZE
    ensures v >= TWO_TO_THE_64 ==> Decode(Encode(v) + [slack]) == None
    ensures Decode(s).Some? ==> s[..Decode(s).value.0] == Encode(Decode(s).value.1)
    ensures |Encode(TWO_TO_THE_64 - 1)| == VARINT_MAX_BUFSIZE
  {
    var e := Encode(v) + [slack];
    var n := |Encode(v)|;
    EncodeBijective(v, []);
    LeastAt11();
    CodeLength(v, 0);
    LengthIs(TWO_TO_THE_64 - 1, 10);
    assert e[..n] == Encode(v);
    if v < TWO_TO_THE_64 {
      if n > 10 { if n > 11 { LeastMonotone(11, n); } }
      assert Accepts(e, n);
      AcceptsUnique(e, n, Decode(e).value.0);
    } else {
      forall m ensures !Accepts(e, m) {
        if 1 <= m <= |e| { OnlyPrefix(e, n, m); }
      }
    }
    if Decode(s).Some? {
      EncodeBijective(0, s[..Decode(s).value.0]);
    }
  }

  /** Without slack only one-byte encodings are read. */
  lemma NoSlack(v: nat)
    ensures v < TWO_TO_THE_64 ==> Decode(Encode(v)) == if v < 128 then Some((1, v)) else None
    ensures v >= TWO_TO_THE_64 ==> Decode(Encode(v)) == None
  {
    var e := Encode(v);
    EncodeBijective(v, []);
    CodeLength(v, 0);
    assert e[..|e|] == e;
    assert Least(2) == 128;
    forall m | Accepts(e, m) ensures m == |e| == 1 && v < TWO_TO_THE_64 {
      OnlyPrefix(e, |e|, m);
    }
    if v < 128 {
      LengthIs(v, 1);
      assert Accepts(e, 1);
    }
  }

  /** What the writer leaves in its promised bytes when `stale` was there before. */
  function Image(v: nat, stale: seq<uint8>): seq<uint8>
    requires |stale| == Groups(v) >= |Encode(v)|
  {
    stale[..Groups(v) - |Encode(v)|] + Encode(v)
  }

  /** Writing a value and reading it back returns it, and the promised size, exactly when
      the promise was right. */
  lemma RoundTripExactly(v: nat, stale: seq<uint8>, slack: uint8)
    requires v < TWO_63 && |stale| == Groups(v)
    ensures |Encode(v)| <= Groups(v)
    ensures Decode(Image(v, stale) + [slack]) == Some((Groups(v), v)) <==> Groups(v) == |Encode(v)|
  {
    SizeGap(v);
    EncodeBijective(v, []);
    var s := Image(v, stale) + [slack];
    if Groups(v) == |Encode(v)| {
      assert s == Encode(v) + [slack];
      DecodeBijective(v, [], slack);
    } else {
      DecodeBijective(v, s, slack);
      assert |s[..Groups(v)]| == Groups(v) != |Encode(v)|;
    }
  }

  /** Reading k values one after the other. */
  ghost function DecodeMany(s: seq<uint8>, k: nat): Option<seq<nat>> {
    if k == 0 then Some([]) else
    match Decode(s)
    case None => None
    case Some((n, v)) =>
      match DecodeMany(s[n..], k - 1)
      case None => None
      case Some(rest) => Some([v] + rest)
  }

  function EncodeMany(vs: seq<nat>): seq<uint8> {
    if vs == [] then [] else Encode(vs[0]) + EncodeMany(vs[1..])
  }

  lemma DecodeFirst(v: nat, rest: seq<uint8>)
    requires v < TWO_TO_THE_64 && |rest| > 0
    ensures Decode(Encode(v) + rest) == Some((|Encode(v)|, v))
  {
    var e := Encode(v) + rest;
    EncodeBijective(v, []);
    assert e[..|Encode(v)|] == Encode(v);
    assert Accepts(e, |Encode(v)|);
    AcceptsUnique(e, |Encode(v)|, Decode(e).value.0);
  }

  /** Values written back to back, whatever they are, come back in order as long as one
      more byte follows the last one. */
  lemma {:induction false} StreamRoundTrip(vs: seq<nat>, slack: uint8)
    requires forall i :: 0 <= i < |vs| ==> vs[i] < TWO_TO_THE_64
    ensures DecodeMany(EncodeMany(vs) + [slack], |vs|) == Some(vs)
  {
    if vs == [] {
    } else {
      var v, rest := vs[0], vs[1..];
      StreamRoundTrip(rest, slack);
      DecodeNext(Encode(v), v, EncodeMany(rest) + [slack], |rest|);
      Regroup(Encode(v), EncodeMany(rest), [slack]);
      assert [v] + rest == vs;
    }
  }

  lemma DecodeNext(code: seq<uint8>, v: nat, rest: seq<uint8>, k: nat)
    requires v < TWO_TO_THE_64 && |rest| > 0 && code == Encode(v)
    ensures DecodeMany(code + rest, k + 1) ==
      match DecodeMany(rest, k) case None => None case Some(vs) => Some([v] + vs)
  {
    DecodeFirst(v, rest);
    assert (code + rest)[|code|..] == rest;
  }

  /** Writing values one behind the other, as a caller of the library does, produces that
      stream as long as no size promise is wrong. */
  method SerializeMany(output: array<uint8>, values: seq<nat>) returns (total: nat)
    requires forall i :: 0 <= i < |values| ==> values[i] < TWO_63 && Groups(values[i]) == |Encode(values[i])|
    requires |EncodeMany(values)| <= output.Length
    modifies output
    ensures total == |EncodeMany(values)| && output[..total] == EncodeMany(values)
  {
    total := 0;
    assert values[..0] == [];
    for i := 0 to |values|
      invariant total == |EncodeMany(values[..i])| <= output.Length
      invariant output[..total] == EncodeMany(values[..i])
    {
      EncodeManyAppend(values[..i], values[i]);
      EncodeManyPrefix(values, i + 1);
      assert values[..i + 1] == values[..i] + [values[i]];
      var written := SerializeVarint(output, total, output.Length - total, values[i]);
      total := total + written;
    }
    assert values[..|values|] == values;
  }

  lemma {:induction false} EncodeManyAppend(vs: seq<nat>, v: nat)
    ensures EncodeMany(vs + [v]) == EncodeMany(vs) + Encode(v)
  {
    if vs == [] {
      assert EncodeMany([v]) == Encode(v) + EncodeMany([]);
    } else {
      assert (vs + [v])[1..] == vs[1..] + [v];
      EncodeManyAppend(vs[1..], v);
    }
  }

  lemma {:induction false} EncodeManyPrefix(vs: seq<nat>, k: nat)
    requires k <= |vs|
    ensures |EncodeMany(vs[..k])| <= |EncodeMany(vs)|
    decreases |vs| - k
  {
    if k < |vs| {
      EncodeManyPrefix(vs, k + 1);
      EncodeManyAppend(vs[..k], vs[k]);
      assert vs[..k + 1] == vs[..k] + [vs[k]];
    } else {
      assert vs[..k] == vs;
    }
  }
}
