/** The parts of net/socket_address.cpp the address allocator rests on: comparison and
    increment. An IPv4 address is its number in host byte order, an IPv6 address its
    sixteen bytes, most significant first. */
module SocketAddresses {
  import opened Integers

  type Bytes16 = s: seq<uint8> | |s| == 16 witness seq(16, _ => 0)

  datatype Address = V4(ip: uint32, port: uint16) | V6(bytes: Bytes16, port: uint16)

  // ---- Comparison ---------------------------------------------------------------------

  /** socket_address.cpp:661-707: families, ports and address bytes. */
  predicate IsEqualTo(a: Address, b: Address) {
    && a.V4? == b.V4?
    && a.port == b.port
    && if a.V4? then a.ip == b.ip else a.bytes == b.bytes
  }

  /** What socket_address.cpp:711-749 computes for internet addresses: IPv4 (family 2) comes
      before IPv6 (family 10); any smaller byte or else a smaller port makes an IPv6 address
      less, and a smaller number or else a smaller port an IPv4 address. */
  ghost predicate Less(a: Address, b: Address) {
    match (a, b)
    case (V4(x, p), V4(y, q)) => x < y || p < q
    case (V6(x, p), V6(y, q)) => SomeByteLess(x, y) || p < q
    case (V4(_, _), V6(_, _)) => true
    case (V6(_, _), V4(_, _)) => false
  }

  ghost predicate SomeByteLess(x: Bytes16, y: Bytes16) {
    exists i :: 0 <= i < 16 && x[i] < y[i]
  }

  method IsLessThan(a: Address, b: Address) returns (less: bool)
    ensures less == Less(a, b)
  {
    if a.V4? != b.V4? {
      return a.V4?;
    }
    if a.V4? {
      if a.ip < b.ip {
        return true;
      }
      return a.port < b.port;
    }
    for i := 0 to 16
      invariant forall j :: 0 <= j < i ==> a.bytes[j] >= b.bytes[j]
    {
      if a.bytes[i] < b.bytes[i] {
        return true;
      }
    }
    return a.port < b.port;
  }

  /** On IPv4 the comparison contradicts itself exactly when number and port disagree, so it
      orders addresses with one port only. */
  lemma V4Contradiction(a: Address, b: Address)
    requires a.V4? && b.V4?
    ensures Less(a, b) && Less(b, a) <==> (a.ip < b.ip && b.port < a.port) || (b.ip < a.ip && a.port < b.port)
    ensures a.port == b.port ==> (Less(a, b) <==> a.ip < b.ip)
    ensures a.port == b.port ==> (!Less(a, b) && !Less(b, a) <==> IsEqualTo(a, b))
  {
  }

  /** An address of another family or with a port comes after every IPv4 address without,
      so a search among those ends behind the last one and does not find it. */
  lemma ComesLast(a: Address, key: Address)
    requires a.V4? && a.port == 0 && (key.V6? || key.port > 0)
    ensures Less(a, key) && !IsEqualTo(a, key)
  {
  }

  ghost predicate Pointwise(x: Bytes16, y: Bytes16) {
    forall i :: 0 <= i < 16 ==> x[i] <= y[i]
  }

  /** On IPv6 addresses it contradicts itself exactly when neither address is at least as
      large in every byte and in the port. */
  lemma V6Contradiction(a: Address, b: Address)
    requires a.V6? && b.V6?
    ensures Less(a, b) && Less(b, a) <==>
      !(Pointwise(a.bytes, b.bytes) && a.port <= b.port) && !(Pointwise(b.bytes, a.bytes) && b.port <= a.port)
    ensures !Less(a, b) && !Less(b, a) <==> IsEqualTo(a, b)
  {
    if !Less(a, b) && !Less(b, a) { assert a.bytes == b.bytes; }
  }

  /** Between the families there is no contradiction: every IPv4 address is less than every
      IPv6 address. */
  lemma FamiliesApart(a: Address, b: Address)
    requires a.V4? && b.V6?
    ensures Less(a, b) && !Less(b, a) && !IsEqualTo(a, b)
  {
  }

  // ---- Increment ----------------------------------------------------------------------

  function Successor(a: Address): Address {
    match a
    case V4(ip, port) => V4((ip + 1) % 0x1_0000_0000, port)
    case V6(bytes, port) => V6(RaiseFrom(bytes, 15), port)
  }

  /** The last byte at or before i that is not 0xff goes up by one; no byte is reset. */
  function RaiseFrom(bytes: Bytes16, i: int): Bytes16
    requires -1 <= i < 16
    decreases i + 1
  {
    if i < 0 then bytes
    else if bytes[i] < 0xff then bytes[i := bytes[i] + 1]
    else RaiseFrom(bytes, i - 1)
  }

  class SocketAddress {
    var data: Address

    constructor (data: Address)
      ensures this.data == data
    {
      this.data := data;
    }

    /** socket_address.cpp:753-776. */
    method Increment()
      modifies this
      ensures data == Successor(old(data))
      ensures old(data).V4? ==> data == V4((old(data).ip + 1) % 0x1_0000_0000, old(data).port)
      ensures old(data).V6? ==> data.V6? && data.port == old(data).port
      ensures old(data).V6? ==>
        if Full(old(data).bytes) then data == old(data) else RaisedLast(old(data).bytes, data.bytes)
    {
      if data.V6? { RaiseLast(data.bytes, 15); }
      if data.V4? {
        data := V4((data.ip + 1) % 0x1_0000_0000, data.port);
        return;
      }
      var done := false;
      var i := 15;
      while i >= 0 && !done
        invariant -1 <= i <= 15 && data.V6?
        invariant !done ==> data == old(data) && Successor(data).bytes == RaiseFrom(data.bytes, i)
        invariant done ==> data == Successor(old(data))
      {
        if data.bytes[i] < 0xff {
          data := V6(data.bytes[i := data.bytes[i] + 1], data.port);
          done := true;
        }
        i := i - 1;
      }
    }
  }

  predicate Full(x: Bytes16) {
    forall i :: 0 <= i < 16 ==> x[i] == 0xff
  }

  /** One byte went up by one, the last that could. */
  ghost predicate RaisedLast(x: Bytes16, y: Bytes16) {
    exists j :: 0 <= j < 16 && RaisedAt(x, y, j)
  }

  predicate RaisedAt(x: Bytes16, y: Bytes16, j: nat)
    requires j < 16
  {
    x[j] < 0xff && y == x[j := x[j] + 1] && forall i :: j < i < 16 ==> x[i] == 0xff
  }

  lemma {:induction false} RaiseLast(x: Bytes16, i: int)
    requires -1 <= i < 16 && forall j :: i < j < 16 ==> x[j] == 0xff
    ensures if Full(x) then RaiseFrom(x, i) == x else RaisedLast(x, RaiseFrom(x, i))
    decreases i + 1
  {
    if i >= 0 {
      if x[i] < 0xff { assert RaisedAt(x, RaiseFrom(x, i), i); } else { RaiseLast(x, i - 1); }
    }
  }

  function Sum(s: seq<uint8>): nat {
    if s == [] then 0 else Sum(s[..|s| - 1]) + s[|s| - 1]
  }

  lemma {:induction false} SumUpdate(s: seq<uint8>, i: nat, v: uint8)
    requires i < |s|
    ensures Sum(s[i := v]) == Sum(s) - s[i] + v
  {
    var init := s[..|s| - 1];
    if i == |s| - 1 {
      assert s[i := v][..|s| - 1] == init;
    } else {
      assert s[i := v][..|s| - 1] == init[i := v];
      SumUpdate(init, i, v);
    }
  }

  /** A step raises exactly one byte by one, unless every byte is 0xff already. */
  lemma {:induction false} RaiseOne(x: Bytes16, i: int)
    requires -1 <= i < 16 && forall j :: i < j < 16 ==> x[j] == 0xff
    ensures Full(x) ==> RaiseFrom(x, i) == x
    ensures !Full(x) ==> exists j :: 0 <= j <= i && x[j] < 0xff && RaiseFrom(x, i) == x[j := x[j] + 1]
    ensures Sum(RaiseFrom(x, i)) == if Full(x) then Sum(x) else Sum(x) + 1
    decreases i + 1
  {
    if i >= 0 {
      if x[i] < 0xff { SumUpdate(x, i, x[i] + 1); } else { RaiseOne(x, i - 1); }
    }
  }

  function Chain(x: Bytes16, k: nat): Bytes16 {
    if k == 0 then x else RaiseFrom(Chain(x, k - 1), 15)
  }

  /** The address after k increments. */
  function Incremented(a: Address, k: nat): Address {
    if k == 0 then a else Successor(Incremented(a, k - 1))
  }

  /** Incrementing an address again and again walks along its chain, or counts. */
  lemma {:induction false} IncrementsChain(a: Address, k: nat)
    ensures a.V6? ==> Incremented(a, k) == V6(Chain(a.bytes, k), a.port)
    ensures a.V4? ==> Incremented(a, k) == V4((a.ip + k) % 0x1_0000_0000, a.port)
  {
    if k > 0 {
      IncrementsChain(a, k - 1);
      if a.V4? { OneMore(a.ip + (k - 1)); }
    }
  }

  lemma OneMore(n: nat)
    ensures (n % 0x1_0000_0000 + 1) % 0x1_0000_0000 == (n + 1) % 0x1_0000_0000
  {
  }

  lemma {:induction false} SumPointwise(s: seq<uint8>, t: seq<uint8>)
    requires |s| == |t| && forall i :: 0 <= i < |s| ==> s[i] <= t[i]
    ensures Sum(s) <= Sum(t)
    ensures Sum(s) == Sum(t) ==> s == t
  {
    if s != [] { SumPointwise(s[..|s| - 1], t[..|t| - 1]); }
  }

  lemma FullSum(x: Bytes16)
    ensures Sum(x) <= 4080 && (Full(x) <==> Sum(x) == 4080)
  {
    var top: Bytes16 := seq(16, _ => 0xff);
    SumOfFull(16);
    SumPointwise(x, top);
    assert Full(x) ==> x == top;
  }

  lemma {:induction false} SumOfFull(n: nat)
    ensures Sum(seq(n, _ => 0xff)) == 255 * n
  {
    if n > 0 {
      assert seq<uint8>(n, _ => 0xff)[..n - 1] == seq(n - 1, _ => 0xff);
      SumOfFull(n - 1);
    }
  }

  lemma {:induction false} ChainGrows(x: Bytes16, i: nat, j: nat)
    requires i <= j
    ensures Pointwise(Chain(x, i), Chain(x, j))
    decreases j
  {
    if i < j {
      ChainGrows(x, i, j - 1);
      RaiseOne(Chain(x, j - 1), 15);
    }
  }

  lemma {:induction false} ChainSum(x: Bytes16, k: nat)
    ensures Sum(Chain(x, k)) == if Sum(x) + k <= 4080 then Sum(x) + k else 4080
  {
    FullSum(x);
    if k > 0 {
      ChainSum(x, k - 1);
      FullSum(Chain(x, k - 1));
      RaiseOne(Chain(x, k - 1), 15);
    }
  }

  /** How many steps the increment really takes before it sticks at 16 times 0xff. */
  function StepsTaken(x: Bytes16, k: nat): int {
    if Sum(x) + k <= 4080 then k else 4080 - Sum(x)
  }

  /** On the addresses reached from one address by increments the comparison is the order
      of the number of steps taken, so a strict total order. */
  lemma ChainOrder(x: Bytes16, port: uint16, i: nat, j: nat)
    ensures Less(V6(Chain(x, i), port), V6(Chain(x, j), port)) <==> StepsTaken(x, i) < StepsTaken(x, j)
    ensures Chain(x, i) == Chain(x, j) <==> StepsTaken(x, i) == StepsTaken(x, j)
  {
    var a, b := Chain(x, i), Chain(x, j);
    FullSum(x);
    ChainSum(x, i);
    ChainSum(x, j);
    if i <= j {
      ChainGrows(x, i, j);
      SumPointwise(a, b);
      if a == b { assert !SomeByteLess(a, b); }
    } else {
      ChainGrows(x, j, i);
      SumPointwise(b, a);
      assert !SomeByteLess(a, b);
    }
  }

  function Number(s: seq<uint8>): nat {
    if s == [] then 0 else 256 * Number(s[..|s| - 1]) + s[|s| - 1]
  }

  /** The increment is "plus one" on the 128-bit number exactly when the last byte is not
      0xff. */
  lemma IncrementIsPlusOne(x: Bytes16)
    ensures Number(RaiseFrom(x, 15)) == Number(x) + 1 <==> x[15] < 0xff
  {
    var init := x[..15];
    if x[15] < 0xff {
      assert x[15 := x[15] + 1][..15] == init;
    } else {
      RaiseOne(x, 15);
      var y := RaiseFrom(x, 15);
      assert y[15] == 0xff;
      assert Number(y) == 256 * Number(y[..15]) + 0xff && Number(x) == 256 * Number(init) + 0xff;
    }
  }
}
