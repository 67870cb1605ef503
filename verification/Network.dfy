/** net/network.cpp: one network with the addresses reserved in it. Masks, membership and
    broadcast address for both families; reserving and releasing for IPv4. */
module Networks {
  import opened AddressPool
  import opened Bits
  import opened Integers
  import opened Prefix
  import opened SocketAddresses
  import opened Wrappers

  function Width(a: Address): nat {
    if a.V4? then 32 else 128
  }

  /** The address as one big-endian number. */
  function Value(a: Address): nat {
    if a.V4? then a.ip else Number(a.bytes)
  }

  /** Address and port together are told apart by family, value and port. */
  lemma ValueInjective(a: Address, b: Address)
    ensures IsEqualTo(a, b) <==> a.V4? == b.V4? && Value(a) == Value(b) && a.port == b.port
    ensures IsEqualTo(a, b) <==> a == b
  {
    if a.V6? && b.V6? && Value(a) == Value(b) {
      NumberInjective(a.bytes, b.bytes);
    }
  }

  class Network {
    const network: Address
    const maskSize: nat
    var reserved: seq<uint32>

    ghost predicate Valid()
      reads this
    {
      maskSize <= Width(network) && Ascending(reserved)
    }

    /** How many low bits the addresses of the network differ in. */
    function FreeBits(): nat
      requires maskSize <= Width(network)
    {
      Width(network) - maskSize
    }

    ghost function Lowest(): nat
      requires maskSize <= Width(network)
    {
      First(Value(network), FreeBits())
    }

    ghost function Highest(): nat
      requires maskSize <= Width(network)
    {
      Last(Value(network), FreeBits())
    }

    constructor (network: Address, maskSize: nat)
      requires maskSize <= Width(network)
      ensures this.network == network && this.maskSize == maskSize
      ensures Valid() && reserved == []
    {
      this.network := network;
      this.maskSize := maskSize;
      reserved := [];
    }

    // ---- Masks --------------------------------------------------------------------------

    /** network.cpp:475-505. */
    method MakeMasked(input: Address) returns (r: Address)
      requires maskSize <= Width(network)
      ensures r.V4? == input.V4? && r.port == 0
      ensures Value(r) == if input.V4? == network.V4? then First(Value(input), FreeBits()) else Value(input)
    {
      if input.V4? != network.V4? {
        return input.(port := 0);
      }
      if network.V4? {
        var mask := MakeMask32(maskSize);
        LoweredNumber(input.ip, FreeBits());
        return V4(And(input.ip, mask), 0);
      }
      var mask := new uint8[16];
      MakeMask128(mask, maskSize);
      var bytes := input.bytes;
      for i := 0 to 16
        invariant mask[..] == MaskBytes(maskSize) && |bytes| == 16
        invariant forall j :: 0 <= j < i ==> bytes[j] == AndByte(input.bytes[j], mask[j])
        invariant forall j :: i <= j < 16 ==> bytes[j] == input.bytes[j]
      {
        bytes := bytes[i := AndByte(bytes[i], mask[i])];
      }
      assert bytes == AndBytes(input.bytes, MaskBytes(maskSize));
      MaskedBytes(input.bytes, maskSize);
      return V6(bytes, 0);
    }

    method NetworkAddress() returns (r: Address)
      requires maskSize <= Width(network)
      ensures r.V4? == network.V4? && r.port == 0 && Value(r) == Lowest()
    {
      r := MakeMasked(network);
    }

    /** network.cpp:251-281. */
    method BroadcastAddress() returns (r: Address)
      requires maskSize <= Width(network)
      ensures r.V4? == network.V4? && r.port == 0xffff && Value(r) == Highest()
    {
      if network.V4? {
        var mask := MakeMask32(maskSize);
        RaisedNumber(network.ip, FreeBits());
        return V4(Or(network.ip, 0xffff_ffff - mask), 0xffff);
      }
      var mask := new uint8[16];
      MakeMask128(mask, maskSize);
      var bytes := network.bytes;
      for i := 0 to 16
        invariant mask[..] == MaskBytes(maskSize) && |bytes| == 16
        invariant forall j :: 0 <= j < i ==> bytes[j] == OrNotByte(network.bytes[j], mask[j])
        invariant forall j :: i <= j < 16 ==> bytes[j] == network.bytes[j]
      {
        bytes := bytes[i := OrNotByte(bytes[i], mask[i])];
      }
      assert bytes == OrNotBytes(network.bytes, MaskBytes(maskSize));
      RaisedBytes(network.bytes, maskSize);
      return V6(bytes, 0xffff);
    }

    /** network.cpp:218-224: an address is in the network exactly when it has the network's
        family and lies between network and broadcast address; its port does not matter. */
    method InNetwork(address: Address) returns (r: bool)
      requires maskSize <= Width(network)
      ensures r <==> address.V4? == network.V4? && Lowest() <= Value(address) <= Highest()
    {
      var lowest := NetworkAddress();
      var masked := MakeMasked(address);
      ValueInjective(lowest, masked);
      SameBlock(Value(address), Value(network), FreeBits());
      return IsEqualTo(lowest, masked);
    }

    // ---- The number of addresses --------------------------------------------------------

    /** network.cpp:125-140. The table of powers ends at 2^63; what lies behind it is the
        parameter `beyond`. */
    method GetMax(beyond: uint64) returns (r: Result<uint64, Failure>)
      requires maskSize <= Width(network)
      ensures r.Err? <==> network.V6? && maskSize > 64
      ensures r.Err? ==> r.error == DomainError
      ensures r.Ok? && network.V4? ==> r.value == Max(FreeBits())
      ensures r.Ok? && network.V6? && maskSize > 0 ==>
                r.value == (Pow2(64 - maskSize) - 2) % TWO_TO_THE_64
      ensures r.Ok? && network.V6? && maskSize == 0 ==> r.value == (beyond - 2) % TWO_TO_THE_64
    {
      var limit := 64;
      if network.V4? {
        limit := 32;
      }
      var exp := limit - maskSize;
      if exp < 0 {
        return Err(DomainError);
      }
      var power := if exp == 64 then beyond else Pow2(exp);
      return Ok((power - 2) % TWO_TO_THE_64);
    }

    // ---- Reserving and releasing, IPv4 --------------------------------------------------

    ghost function TheBlock(): (b: Block)
      requires network.V4? && maskSize <= 32
      ensures b.Valid() && b.first == Lowest() && b.Last() == Highest()
    {
      Pow2At32();
      BlockBounds(network.ip, FreeBits());
      Pow2Grows(FreeBits(), 32);
      OrBound(network.ip, Pow2(FreeBits()) - 1, 32);
      OrComplement(network.ip, FreeBits());
      Block(Lowest(), FreeBits())
    }

    /** network.cpp:286-329. The last line of the function is never reached. */
    method ReserveAddress() returns (r: Result<Address, Failure>)
      requires Valid() && network.V4?
      modifies this`reserved
      ensures Valid()
      ensures var (after, reply) := Perform(TheBlock(), old(reserved), ReserveNext);
        && reserved == after
        && r == match reply case Ok(x) => Ok(V4(x, 0)) case Err(e) => Err(e)
      ensures r.Ok? ==> r.value.V4? && r.value.port == 0
      ensures forall y :: y in reserved <==> y in old(reserved) || (r.Ok? && y == r.value.ip)
      ensures maskSize <= 30 ==> (r.Ok? <==> |old(reserved)| < Between(FreeBits()))
      ensures maskSize <= 30 && r.Ok? && Within(TheBlock(), old(reserved)) && Lowest() !in old(reserved) ==>
        LeastFree(r.value.ip, Lowest(), old(reserved))
    {
      ReserveNextEffect(TheBlock(), reserved);
      var max := GetMax(0);
      var amount := |reserved|;
      if max.value <= amount {
        return Err(OutOfRange);
      }

      var start := NetworkAddress();
      var alloc := new SocketAddress(start);
      alloc.Increment();
      if amount == 0 {
        reserved := Insert(reserved, alloc.data.ip);
        return Ok(alloc.data);
      }

      var gap := SkipReserved(alloc);
      if gap {
        reserved := Insert(reserved, alloc.data.ip);
        return Ok(alloc.data);
      }

      var broadcast := BroadcastAddress();
      var below := IsLessThan(alloc.data, broadcast);
      if below {
        reserved := Insert(reserved, alloc.data.ip);
        return Ok(alloc.data);
      }
      return Err(LogicError);
    }

    /** network.cpp:311-318: the address moves on as long as it is the next reserved one. */
    method SkipReserved(alloc: SocketAddress) returns (gap: bool)
      requires Valid() && alloc.data.V4? && alloc.data.port == 0
      modifies alloc
      ensures alloc.data == V4(Scan(reserved, old(alloc.data.ip)), 0)
    {
      ghost var first := alloc.data.ip;
      var i := 0;
      while i < |reserved|
        invariant 0 <= i <= |reserved|
        invariant alloc.data.V4? && alloc.data.port == 0
        invariant Scan(reserved, first) == Scan(reserved[i..], alloc.data.ip)
      {
        if !IsEqualTo(V4(reserved[i], 0), alloc.data) {
          return true;
        }
        assert reserved[i..][1..] == reserved[i + 1..];
        alloc.Increment();
        i := i + 1;
      }
      return false;
    }

    /** network.cpp:333-355, given the hash of the identifier. */
    method MappedAddress(hash: uint64) returns (r: Result<Address, Failure>)
      requires Valid() && network.V4?
      ensures r == match Mapped(TheBlock(), hash) case Ok(x) => Ok(V4(x, 0)) case Err(e) => Err(e)
      ensures maskSize <= 30 ==> r.Ok? && Lowest() < Value(r.value) < Highest()
      ensures maskSize <= 30 ==> Value(r.value) == Lowest() + 1 + hash % Between(FreeBits())
    {
      var max := GetMax(0);
      ghost var b := TheBlock();
      MappedExactly(b, hash);
      if maskSize <= 30 { MappedPlain(b, hash); }
      if max.value == 0 {
        return Err(DividesByZero);
      }
      var rest := hash % max.value;
      var start := NetworkAddress();
      var alloc := new SocketAddress(start);
      alloc.Increment();
      // The counter of the source's loop has 32 bits.
      if rest >= TWO_TO_THE_32 {
        return Err(NeverEnds);
      }
      ghost var base := b.first + 1;
      var i := 0;
      while i < rest
        invariant 0 <= i <= rest
        invariant fresh(alloc) && alloc.data == V4(Wrapped(base + i), 0)
      {
        WrappedNext(base + i);
        i := i + 1;
        alloc.Increment();
      }
      return Ok(alloc.data);
    }

    /** What std::set::find does with the ordering of socket_address: it looks for the first
        element that is not less than the key, and compares the other way around. Keys of
        another family or with a port come after all that is reserved, and are not found. */
    method Find(key: Address) returns (found: bool)
      requires Valid()
      ensures found <==> key.V4? && key.port == 0 && key.ip in reserved
    {
      var i, before := 0, true;
      while i < |reserved| && before
        invariant 0 <= i <= |reserved|
        invariant forall j :: 0 <= j < i ==> Less(V4(reserved[j], 0), key)
        invariant !before ==> i < |reserved| && !Less(V4(reserved[i], 0), key)
        decreases |reserved| - i, before
      {
        before := IsLessThan(V4(reserved[i], 0), key);
        if before {
          i := i + 1;
        }
      }
      if i < |reserved| {
        if key.V6? || key.port > 0 { ComesLast(V4(reserved[i], 0), key); }
        found := IsLessThan(key, V4(reserved[i], 0));
        return !found;
      }
      return false;
    }

    /** network.cpp:375-392. */
    method ReserveMapped(hash: uint64) returns (r: Result<Address, Failure>)
      requires Valid() && network.V4?
      modifies this`reserved
      ensures Valid()
      ensures var (after, reply) := Perform(TheBlock(), old(reserved), AddressPool.ReserveMapped(hash));
        && reserved == after
        && r == match reply case Ok(x) => Ok(V4(x, 0)) case Err(e) => Err(e)
      ensures r.Ok? ==> r.value.V4? && r.value.port == 0
      ensures forall y :: y in reserved <==> y in old(reserved) || (r.Ok? && y == r.value.ip)
      ensures maskSize <= 30 ==>
        var x := Lowest() + 1 + hash % Between(FreeBits());
        (r.Ok? <==> x !in old(reserved)) && (r.Ok? ==> Value(r.value) == x)
    {
      var alloc := MappedAddress(hash);
      if alloc.Err? {
        return alloc;
      }
      var found := Find(alloc.value);
      if !found {
        InsertKeepsOrder(reserved, alloc.value.ip);
        reserved := Insert(reserved, alloc.value.ip);
        return alloc;
      }
      return Err(OutOfRange);
    }

    /** network.cpp:411-425. */
    method ReserveGiven(address: Address) returns (ok: bool)
      requires Valid() && network.V4? && address.port == 0
      modifies this`reserved
      ensures Valid()
      ensures address.V6? ==> !ok && reserved == old(reserved)
      ensures address.V4? ==>
        var (after, reply) := Perform(TheBlock(), old(reserved), AddressPool.ReserveGiven(address.ip));
        reserved == after && ok == reply.Ok?
      ensures ok <==> address.V4? && Lowest() <= Value(address) <= Highest() && address.ip !in old(reserved)
      ensures forall y :: y in reserved <==> y in old(reserved) || (ok && y == address.ip)
    {
      var inside := InNetwork(address);
      if !inside {
        return false;
      }
      var found := Find(address);
      if found {
        return false;
      }
      InsertKeepsOrder(reserved, address.ip);
      reserved := Insert(reserved, address.ip);
      return true;
    }

    /** network.cpp:452-457. */
    method IsReserved(address: Address) returns (r: bool)
      requires Valid() && network.V4?
      ensures r <==> address.V4? && address.port == 0 && address.ip in reserved
    {
      r := Find(address);
    }

    /** network.cpp:461-471. */
    method ReleaseAddress(address: Address) returns (ok: bool)
      requires Valid() && network.V4?
      modifies this`reserved
      ensures Valid()
      ensures address.V6? || address.port != 0 ==> !ok && reserved == old(reserved)
      ensures address.V4? && address.port == 0 ==>
        var (after, reply) := Perform(TheBlock(), old(reserved), Release(address.ip));
        reserved == after && ok == reply.Ok?
      ensures ok <==> address.V4? && address.port == 0 && address.ip in old(reserved)
      ensures forall y :: y in reserved <==> y in old(reserved) && !(ok && y == address.ip)
    {
      var found := Find(address);
      if !found {
        return false;
      }
      RemoveKeepsOrder(reserved, address.ip);
      reserved := Remove(reserved, address.ip);
      return true;
    }
  }
}
