/** What reserving and releasing does to the set of reserved IPv4 addresses of one network
    (net/network.cpp), and what that means over whole runs. The set is written down in
    the order in which iterating over it yields the addresses. */
module AddressPool {
  import opened Bits
  import opened Integers
  import opened Wrappers

  /** The exceptions, `false`, and the two ends of mapped_address() that give no address:
      a division by zero and a loop without end. */
  datatype Failure = OutOfRange | DomainError | LogicError | Refused | DividesByZero | NeverEnds

  // ---- Ordered sets -------------------------------------------------------------------

  predicate Ascending(s: seq<uint32>) {
    forall i, j :: 0 <= i < j < |s| ==> s[i] < s[j]
  }

  lemma TailAbove(s: seq<uint32>)
    requires Ascending(s) && s != []
    ensures Ascending(s[1..]) && s[0] in s && forall y :: y in s <==> y == s[0] || y in s[1..]
    ensures forall y :: y in s[1..] ==> s[0] < y
  {
    assert s == [s[0]] + s[1..];
  }

  lemma Prepend(x: uint32, s: seq<uint32>)
    requires Ascending(s) && forall y :: y in s ==> x < y
    ensures Ascending([x] + s) && forall y :: y in [x] + s <==> y == x || y in s
  {
    forall i, j | 0 <= i < j < |s| + 1 ensures ([x] + s)[i] < ([x] + s)[j] {
      assert s[j - 1] in s;
    }
  }

  function Insert(s: seq<uint32>, x: uint32): seq<uint32> {
    if s == [] || x < s[0] then [x] + s
    else if x == s[0] then s
    else [s[0]] + Insert(s[1..], x)
  }

  function Remove(s: seq<uint32>, x: uint32): seq<uint32> {
    if s == [] then [] else if s[0] == x then s[1..] else [s[0]] + Remove(s[1..], x)
  }

  lemma {:induction false} InsertKeepsOrder(s: seq<uint32>, x: uint32)
    requires Ascending(s)
    ensures Ascending(Insert(s, x))
    ensures forall y :: y in Insert(s, x) <==> y in s || y == x
    ensures |Insert(s, x)| == if x in s then |s| else |s| + 1
  {
    if s == [] || x < s[0] {
      if s != [] { TailAbove(s); }
      Prepend(x, s);
    } else if x > s[0] {
      TailAbove(s);
      InsertKeepsOrder(s[1..], x);
      Prepend(s[0], Insert(s[1..], x));
    }
  }

  lemma {:induction false} RemoveKeepsOrder(s: seq<uint32>, x: uint32)
    requires Ascending(s)
    ensures Ascending(Remove(s, x))
    ensures forall y :: y in Remove(s, x) <==> y in s && y != x
    ensures |Remove(s, x)| == if x in s then |s| - 1 else |s|
  {
    if s != [] {
      TailAbove(s);
      RemoveKeepsOrder(s[1..], x);
      if s[0] != x { Prepend(s[0], Remove(s[1..], x)); }
    }
  }

  // ---- One operation ------------------------------------------------------------------

  /** The network's lowest address, and how many low bits its addresses may vary in. */
  datatype Block = Block(first: uint32, k: nat) {
    ghost predicate Valid() {
      k <= 32 && first + Pow2(k) <= TWO_TO_THE_32
    }

    function Last(): int {
      first + Pow2(k) - 1
    }
  }

  /** network.cpp:125-140 for IPv4: two less than the size of the network, modulo 2^64. */
  function Max(k: nat): (max: uint64)
    requires k <= 32
    ensures k >= 1 ==> max == Pow2(k) - 2
    ensures k == 0 ==> max == TWO_TO_THE_64 - 1
    ensures max == 0 <==> k == 1
  {
    Pow2Below(k);
    (Pow2(k) - 2) % TWO_TO_THE_64
  }

  lemma Pow2Below(k: nat)
    requires k <= 32
    ensures k < Pow2(k) <= TWO_TO_THE_32
    ensures 2 <= k ==> Pow2(k) >= 4
  {
    Pow2At32();
    Pow2Exceeds(k);
    Pow2Grows(k, 32);
    if 2 <= k { Pow2Grows(2, k); }
  }

  /** Where the walk over the reserved addresses ends. */
  function Scan(taken: seq<uint32>, alloc: uint32): uint32 {
    if taken == [] || taken[0] != alloc then alloc
    else Scan(taken[1..], (alloc + 1) % TWO_TO_THE_32)
  }

  datatype Op =
    | ReserveNext
    | ReserveMapped(hash: uint64)
    | ReserveGiven(address: uint32)
    | Release(address: uint32)

  /** network.cpp:333-355, given the hash of the identifier: the first address after the
      network address, moved on by what is left of the hash. */
  function Mapped(b: Block, hash: uint64): Result<uint32, Failure>
    requires b.Valid()
  {
    if Max(b.k) == 0 then Err(DividesByZero)
    else if hash % Max(b.k) >= TWO_TO_THE_32 then Err(NeverEnds)
    else Ok(Wrapped(b.first + 1 + hash % Max(b.k)))
  }

  /** What 32 bits hold of a number that is counted up. */
  function Wrapped(n: nat): uint32 {
    n % TWO_TO_THE_32
  }

  lemma WrappedNext(n: nat)
    ensures (Wrapped(n) + 1) % TWO_TO_THE_32 == Wrapped(n + 1)
  {
  }

  /** Mapping gives an address strictly inside the network for all networks of four or more
      addresses. For two it divides by zero; for one it gives some address, or does not
      end. */
  lemma MappedExactly(b: Block, hash: uint64)
    requires b.Valid()
    ensures 2 <= b.k ==> Mapped(b, hash).Ok? && b.first < Mapped(b, hash).value < b.Last()
    ensures Mapped(b, hash) == Err(DividesByZero) <==> b.k == 1
    ensures Mapped(b, hash) == Err(NeverEnds) <==> b.k == 0 && TWO_TO_THE_32 <= hash < TWO_TO_THE_64 - 1
  {
    Pow2Below(b.k);
    if 2 <= b.k {
      var rest := hash % Max(b.k);
      assert 0 <= rest < Max(b.k) && Max(b.k) == Pow2(b.k) - 2;
    } else if b.k == 0 {
      Remainder(hash);
    }
  }

  lemma Remainder(hash: uint64)
    ensures hash % (TWO_TO_THE_64 - 1) == if hash == TWO_TO_THE_64 - 1 then 0 else hash
  {
  }

  /** How many addresses there are between the ends of a network. */
  function Between(k: nat): (n: nat)
    requires 2 <= k
    ensures n == Pow2(k) - 2 && n >= 2
  {
    assert Pow2(2) == 4;
    Pow2Grows(2, k);
    Pow2(k) - 2
  }

  lemma MappedPlain(b: Block, hash: uint64)
    requires b.Valid() && 2 <= b.k
    ensures Mapped(b, hash) == Ok(b.first + 1 + hash % Between(b.k))
  {
    Pow2Below(b.k);
    var n := Between(b.k);
    assert Max(b.k) == n;
    RestBelow(hash, n, b.first + 1);
  }

  lemma RestBelow(hash: nat, n: nat, first: nat)
    requires 0 < n && first + n <= TWO_TO_THE_32
    ensures 0 <= hash % n < n && Wrapped(first + hash % n) == first + hash % n
  {
  }

  /** The mapped address is as far behind the first one as the hash leaves of the number of
      addresses between the ends; so two identifiers meet exactly when their hashes leave the
      same. */
  lemma MappedApart(b: Block, hash: uint64, other: uint64)
    requires b.Valid() && 2 <= b.k
    ensures Mapped(b, hash) == Mapped(b, other) <==> hash % Between(b.k) == other % Between(b.k)
    ensures hash % Between(b.k) == 0 ==> Mapped(b, hash) == Ok(b.first + 1)
  {
    MappedPlain(b, hash);
    MappedPlain(b, other);
  }

  /** And every address between the ends is some identifier's. */
  lemma EveryAddressMapped(b: Block, x: int) returns (hash: uint64)
    requires b.Valid() && 2 <= b.k && b.first < x < b.Last()
    ensures Mapped(b, hash) == Ok(x)
  {
    Pow2Below(b.k);
    hash := x - b.first - 1;
    assert hash < Between(b.k);
    Whole(hash, Between(b.k));
    MappedPlain(b, hash);
  }

  lemma Whole(x: nat, n: nat)
    requires x < n
    ensures x % n == x
  {
  }

  /** The loop does not end exactly when its counter stays below the hash for ever. */
  lemma NeverEndsExactly(b: Block, hash: uint64)
    requires b.Valid() && b.k != 1
    ensures Mapped(b, hash) == Err(NeverEnds) <==> forall n :: Wrapped(n) < hash % Max(b.k)
  {
    var rest := hash % Max(b.k);
    if rest < TWO_TO_THE_32 {
      assert Wrapped(rest) == rest;
    }
  }

  /** The reserved addresses afterwards, and the address reserved or released. */
  function Perform(b: Block, taken: seq<uint32>, op: Op): (seq<uint32>, Result<uint32, Failure>)
    requires b.Valid()
  {
    match op
    case ReserveNext =>
      if Max(b.k) <= |taken| then (taken, Err(OutOfRange))
      else var x := Scan(taken, (b.first + 1) % TWO_TO_THE_32); (Insert(taken, x), Ok(x))
    case ReserveMapped(hash) =>
      (match Mapped(b, hash)
       case Err(e) => (taken, Err(e))
       case Ok(x) => if x in taken then (taken, Err(OutOfRange)) else (Insert(taken, x), Ok(x)))
    case ReserveGiven(x) =>
      if !(b.first <= x <= b.Last()) || x in taken then (taken, Err(Refused)) else (Insert(taken, x), Ok(x))
    case Release(x) =>
      if x in taken then (Remove(taken, x), Ok(x)) else (taken, Err(Refused))
  }

  // ---- The least free address ---------------------------------------------------------

  ghost predicate LeastFree(x: int, low: int, taken: seq<uint32>) {
    x > low && x !in taken && forall y: uint32 :: low < y < x ==> y in taken
  }

  /** The walk finds the least address not reserved, and it looks at no more addresses than
      are reserved. */
  lemma {:induction false} ScanLeastFree(taken: seq<uint32>, alloc: uint32)
    requires Ascending(taken) && alloc + |taken| < TWO_TO_THE_32
    requires forall x :: x in taken ==> x >= alloc
    ensures LeastFree(Scan(taken, alloc), alloc - 1, taken)
    ensures Scan(taken, alloc) <= alloc + |taken|
  {
    if taken != [] {
      assert taken == [taken[0]] + taken[1..];
      if taken[0] == alloc {
        ScanLeastFree(taken[1..], alloc + 1);
      } else {
        assert taken[0] in taken;
      }
    }
  }

  /** What holds of the reserved addresses at all times. */
  ghost predicate Within(b: Block, taken: seq<uint32>) {
    Ascending(taken) && forall x :: x in taken ==> b.first <= x <= b.Last()
  }

  /** The count check leaves room: a new address is strictly inside the network. It is a
      free one unless both the network address and the one after it are reserved; and it
      is the least free one if the network address is not reserved. */
  lemma ReserveNextExactly(b: Block, taken: seq<uint32>)
    requires b.Valid() && 2 <= b.k && Within(b, taken)
    ensures var (after, reply) := Perform(b, taken, ReserveNext);
      && (reply.Err? <==> |taken| >= Max(b.k))
      && (reply.Ok? ==>
            && b.first < reply.value < b.Last()
            && (reply.value !in taken <==> !(b.first in taken && b.first + 1 in taken))
            && (b.first !in taken ==> LeastFree(reply.value, b.first, taken))
            && (b.first in taken ==> reply.value == b.first + 1))
  {
    if |taken| < Max(b.k) {
      Pow2Below(b.k);
      assert (b.first + 1) % TWO_TO_THE_32 == b.first + 1;
      if b.first in taken {
        TailAbove(taken);
      } else {
        ScanLeastFree(taken, b.first + 1);
      }
    }
  }

  /** The address i increments after a. */
  ghost function Ahead(a: uint32, i: nat): uint32
    decreases i
  {
    if i == 0 then a else Ahead(Wrapped(a + 1), i - 1)
  }

  lemma {:induction false} AheadWraps(a: uint32, i: nat)
    ensures Ahead(a, i) == Wrapped(a + i)
    decreases i
  {
    if i > 0 {
      AheadWraps(Wrapped(a + 1), i - 1);
      WrapFirst(a + 1, i - 1);
    }
  }

  lemma WrapFirst(a: nat, i: nat)
    ensures Wrapped(Wrapped(a) + i) == Wrapped(a + i)
  {
  }

  /** How far the walk goes. */
  lemma {:induction false} ScanSteps(taken: seq<uint32>, alloc: uint32) returns (n: nat)
    ensures n <= |taken| && Scan(taken, alloc) == Ahead(alloc, n)
    ensures forall i :: 0 <= i < n ==> taken[i] == Ahead(alloc, i)
    ensures n < |taken| ==> taken[n] != Ahead(alloc, n)
  {
    if taken == [] || taken[0] != alloc {
      n := 0;
    } else {
      var m := ScanSteps(taken[1..], Wrapped(alloc + 1));
      n := m + 1;
      forall i | 0 < i < n ensures taken[i] == Ahead(alloc, i) {
        assert taken[i] == taken[1..][i - 1];
      }
      if n < |taken| { assert taken[n] == taken[1..][m]; }
    }
  }

  /** Ascending numbers are at least as far apart as their positions. */
  lemma {:induction false} Spread(s: seq<uint32>, i: nat, j: nat)
    requires Ascending(s) && i <= j < |s|
    ensures s[i] + (j - i) <= s[j]
    decreases j
  {
    if i < j { Spread(s, i, j - 1); }
  }

  /** What reserving the next address does to the set, in networks of all sizes. */
  lemma ReserveNextEffect(b: Block, taken: seq<uint32>)
    requires b.Valid() && Ascending(taken)
    ensures var (after, reply) := Perform(b, taken, ReserveNext);
      && Ascending(after)
      && (forall y :: y in after <==> y in taken || (reply.Ok? && y == reply.value))
      && (2 <= b.k ==> (reply.Ok? <==> |taken| < Between(b.k)))
      && (2 <= b.k && Within(b, taken) && b.first !in taken && reply.Ok? ==> LeastFree(reply.value, b.first, taken))
  {
    InsertKeepsOrder(taken, Scan(taken, (b.first + 1) % TWO_TO_THE_32));
    if 2 <= b.k && Within(b, taken) { ReserveNextExactly(b, taken); }
  }

  /** Networks of two addresses never give one out. A network of one address gives out an
      address outside itself, as long as any other two are left. */
  lemma SmallNetworks(b: Block, taken: seq<uint32>)
    requires b.Valid() && b.k < 2
    ensures b.k == 1 ==> Perform(b, taken, ReserveNext).1 == Err(OutOfRange)
    ensures b.k == 0 && |taken| < TWO_TO_THE_32 - 1 ==>
      var reply := Perform(b, taken, ReserveNext).1;
      reply.Ok? && !(b.first <= reply.value <= b.Last())
  {
    if b.k == 0 && |taken| < TWO_TO_THE_32 - 1 {
      OneAddress(b, taken);
      ScanMisses(b.first, taken);
    } else if b.k == 1 {
      assert Max(b.k) == 0;
    }
  }

  lemma ScanMisses(first: uint32, taken: seq<uint32>)
    requires |taken| < TWO_TO_THE_32 - 1
    ensures Scan(taken, Wrapped(first + 1)) != first
  {
    var n := ScanSteps(taken, Wrapped(first + 1));
    AheadWraps(Wrapped(first + 1), n);
    if Scan(taken, Wrapped(first + 1)) == first { FullCircle(first, n); }
  }

  lemma OneAddress(b: Block, taken: seq<uint32>)
    requires b.Valid() && b.k == 0 && |taken| <= TWO_TO_THE_32
    ensures Perform(b, taken, ReserveNext).1 == Ok(Scan(taken, Wrapped(b.first + 1)))
    ensures b.Last() == b.first
  {
    assert Pow2(0) == 1;
  }

  /** It gives out its own only when every other address there is is reserved, and it is
      itself the lowest or the highest of all. */
  lemma OnlyAddressExactly(b: Block, taken: seq<uint32>)
    requires b.Valid() && b.k == 0 && Ascending(taken)
    ensures Perform(b, taken, ReserveNext).1.Ok?
    ensures Perform(b, taken, ReserveNext).1 == Ok(b.first) <==>
      && |taken| == TWO_TO_THE_32 - 1 && b.first !in taken
      && (b.first == 0 || b.first == TWO_TO_THE_32 - 1)
  {
    TooMany(taken, -1, TWO_TO_THE_32);
    OneAddress(b, taken);
    AroundExactly(b.first, taken);
  }

  /** When the walk goes all the way around to where it set out from. */
  lemma AroundExactly(first: uint32, taken: seq<uint32>)
    requires Ascending(taken) && |taken| <= TWO_TO_THE_32
    ensures Scan(taken, Wrapped(first + 1)) == first <==>
      |taken| == TWO_TO_THE_32 - 1 && first !in taken && (first == 0 || first == TWO_TO_THE_32 - 1)
  {
    var m := TWO_TO_THE_32 - 1;
    var n := ScanSteps(taken, Wrapped(first + 1));
    AheadWraps(Wrapped(first + 1), n);
    forall i | 0 <= i < n ensures taken[i] == Wrapped(Wrapped(first + 1) + i) {
      AheadWraps(Wrapped(first + 1), i);
    }
    if Scan(taken, Wrapped(first + 1)) == first {
      FullCircle(first, n);
      FirstLeftOut(first, taken);
    } else if |taken| == m && first !in taken && (first == 0 || first == m) {
      if n < m { AllButFirst(first, taken, n); }
    }
  }

  lemma FullCircle(first: uint32, n: nat)
    requires n <= TWO_TO_THE_32 && Wrapped(Wrapped(first + 1) + n) == first
    ensures n == TWO_TO_THE_32 - 1
  {
  }

  lemma FirstLeftOut(first: uint32, taken: seq<uint32>)
    requires Ascending(taken) && |taken| <= TWO_TO_THE_32
    requires var m := TWO_TO_THE_32 - 1;
      && m <= |taken|
      && (forall i :: 0 <= i < m ==> taken[i] == Wrapped(Wrapped(first + 1) + i))
      && (m < |taken| ==> taken[m] != first)
    ensures |taken| == TWO_TO_THE_32 - 1 && first !in taken && (first == 0 || first == TWO_TO_THE_32 - 1)
  {
    var m := TWO_TO_THE_32 - 1;
    Spread(taken, 0, m - 1);
    assert taken[0] == Wrapped(Wrapped(first + 1) + 0);
    forall i | 0 <= i < m ensures taken[i] != first {
      assert taken[i] == Wrapped(Wrapped(first + 1) + i);
    }
  }

  lemma AllButFirst(first: uint32, taken: seq<uint32>, n: nat)
    requires Ascending(taken) && |taken| == TWO_TO_THE_32 - 1 && first !in taken && n < |taken|
    requires first == 0 || first == TWO_TO_THE_32 - 1
    ensures taken[n] == Wrapped(Wrapped(first + 1) + n)
  {
    var m := |taken|;
    Spread(taken, 0, n);
    Spread(taken, n, m - 1);
    assert taken[0] in taken && taken[m - 1] in taken;
  }

  /** So with neither end of the network reserved, reserving fails exactly when nothing
      between the ends is left. */
  lemma FailsExactlyWhenFull(b: Block, taken: seq<uint32>)
    requires b.Valid() && 2 <= b.k && Within(b, taken)
    requires b.first !in taken && b.Last() !in taken
    ensures Perform(b, taken, ReserveNext).1.Err? <==> forall x: uint32 :: b.first < x < b.Last() ==> x in taken
  {
    ReserveNextExactly(b, taken);
    if |taken| >= Max(b.k) {
      forall x: uint32 | b.first < x < b.Last() ensures x in taken {
        Crowded(taken, b.first, b.Last(), x);
      }
    }
  }

  /** Pigeonhole: as many ascending numbers as fit between two bounds fill the gap. */
  lemma {:induction false} Crowded(s: seq<uint32>, low: int, high: int, x: uint32)
    requires Ascending(s) && |s| >= high - low - 1
    requires forall y :: y in s ==> low < y < high
    requires low < x < high
    ensures x in s
  {
    if s == [] {
      assert false;
    } else {
      TailAbove(s);
      if s[0] > low + 1 {
        TooMany(s, low + 1, high);
      } else if x != s[0] {
        Crowded(s[1..], low + 1, high, x);
      }
    }
  }

  lemma {:induction false} TooMany(s: seq<uint32>, low: int, high: int)
    requires Ascending(s) && (s == [] ==> low < high)
    requires forall y :: y in s ==> low < y < high
    ensures |s| < high - low
  {
    if s != [] {
      TailAbove(s);
      TooMany(s[1..], s[0], high);
    }
  }

  // ---- Runs ---------------------------------------------------------------------------

  /** The reserved addresses after some operations on a new network. */
  function After(b: Block, ops: seq<Op>): seq<uint32>
    requires b.Valid()
  {
    if ops == [] then [] else Perform(b, After(b, ops[..|ops| - 1]), ops[|ops| - 1]).0
  }

  function Reply(b: Block, ops: seq<Op>, i: nat): Result<uint32, Failure>
    requires b.Valid() && i < |ops|
  {
    Perform(b, After(b, ops[..i]), ops[i]).1
  }

  /** Everything reserved lies in the network; and the network address itself is reserved
      only by asking for it. */
  lemma {:induction false} RunStaysWithin(b: Block, ops: seq<Op>)
    requires b.Valid() && 2 <= b.k
    ensures Within(b, After(b, ops))
    ensures ReserveGiven(b.first) !in ops ==> b.first !in After(b, ops)
  {
    if ops != [] {
      var before, op := After(b, ops[..|ops| - 1]), ops[|ops| - 1];
      RunStaysWithin(b, ops[..|ops| - 1]);
      StepStaysWithin(b, before, op);
      assert op in ops && forall o :: o in ops[..|ops| - 1] ==> o in ops;
    }
  }

  lemma StepStaysWithin(b: Block, taken: seq<uint32>, op: Op)
    requires b.Valid() && 2 <= b.k && Within(b, taken)
    ensures Within(b, Perform(b, taken, op).0)
    ensures op != ReserveGiven(b.first) && b.first !in taken ==> b.first !in Perform(b, taken, op).0
  {
    ReserveNextExactly(b, taken);
    if op.ReserveMapped? { MappedExactly(b, op.hash); }
    var reply := Perform(b, taken, op).1;
    if reply.Ok? {
      if op.Release? { RemoveKeepsOrder(taken, reply.value); } else { InsertKeepsOrder(taken, reply.value); }
    }
  }

  /** Over every run that never reserves the network address by hand: reserving gives out
      the least unreserved address above the network address, strictly below the
      broadcast address, and fails exactly when the count has reached the limit. */
  lemma ReservesLeastFree(b: Block, ops: seq<Op>, i: nat)
    requires b.Valid() && 2 <= b.k && i < |ops|
    requires ReserveGiven(b.first) !in ops && ops[i] == ReserveNext
    ensures var taken := After(b, ops[..i]);
      match Reply(b, ops, i)
      case Ok(x) => |taken| < Max(b.k) && LeastFree(x, b.first, taken) && x < b.Last()
      case Err(e) => |taken| >= Max(b.k) && e == OutOfRange
  {
    RunStaysWithin(b, ops[..i]);
    ReserveNextExactly(b, After(b, ops[..i]));
  }

  /** What each operation answers and what it leaves reserved, from a state that runs can
      reach: success exactly when there is an address to reserve or to release, and then
      that address alone comes in or goes. */
  ghost predicate Answers(b: Block, taken: seq<uint32>, op: Op, after: seq<uint32>, reply: Result<uint32, Failure>)
    requires 2 <= b.k
  {
    && (match op
        case ReserveNext => reply.Ok? <==> |taken| < Pow2(b.k) - 2
        case ReserveMapped(hash) =>
          var x := b.first + 1 + hash % Between(b.k);
          (reply.Ok? <==> x !in taken) && (reply.Ok? ==> reply.value == x)
        case ReserveGiven(x) => (reply.Ok? <==> b.first <= x <= b.Last() && x !in taken) && (reply.Ok? ==> reply.value == x)
        case Release(x) => (reply.Ok? <==> x in taken) && (reply.Ok? ==> reply.value == x))
    && (forall y :: y in after <==>
          if reply.Ok? && y == reply.value then !op.Release? else y in taken)
  }

  lemma StepAnswers(b: Block, taken: seq<uint32>, op: Op)
    requires b.Valid() && 2 <= b.k && Within(b, taken)
    ensures var (after, reply) := Perform(b, taken, op); Answers(b, taken, op, after, reply)
  {
    ReserveNextExactly(b, taken);
    if op.ReserveMapped? { MappedPlain(b, op.hash); }
    var reply := Perform(b, taken, op).1;
    if reply.Ok? {
      InsertKeepsOrder(taken, reply.value);
      RemoveKeepsOrder(taken, reply.value);
    }
  }

  /** So does every operation of every run. */
  lemma RunAnswers(b: Block, ops: seq<Op>, i: nat)
    requires b.Valid() && 2 <= b.k && i < |ops|
    ensures Answers(b, After(b, ops[..i]), ops[i], After(b, ops[..i + 1]), Reply(b, ops, i))
  {
    RunStaysWithin(b, ops[..i]);
    StepAnswers(b, After(b, ops[..i]), ops[i]);
    assert ops[..i + 1][..i] == ops[..i];
  }

  predicate Grants(b: Block, ops: seq<Op>, i: nat, x: uint32)
    requires b.Valid() && i < |ops|
  {
    !ops[i].Release? && Reply(b, ops, i) == Ok(x)
  }

  predicate Frees(b: Block, ops: seq<Op>, i: nat, x: uint32)
    requires b.Valid() && i < |ops|
  {
    ops[i] == Release(x) && Reply(b, ops, i) == Ok(x)
  }

  /** What one step of a run does to one address. */
  lemma StepOfRun(b: Block, ops: seq<Op>, i: nat, x: uint32)
    requires b.Valid() && 2 <= b.k && i < |ops| && ReserveGiven(b.first) !in ops
    ensures Grants(b, ops, i, x) ==> x !in After(b, ops[..i])
    ensures Frees(b, ops, i, x) ==> x in After(b, ops[..i])
    ensures x in After(b, ops[..i + 1]) <==>
      Grants(b, ops, i, x) || (x in After(b, ops[..i]) && !Frees(b, ops, i, x))
    ensures |After(b, ops[..i + 1])| == |After(b, ops[..i])| +
      (if Reply(b, ops, i).Err? then 0 else if ops[i].Release? then -1 else 1)
  {
    var before := After(b, ops[..i]);
    assert ops[..i + 1][..i] == ops[..i];
    RunStaysWithin(b, ops[..i]);
    ReserveNextExactly(b, before);
    var reply := Reply(b, ops, i);
    if reply.Ok? {
      InsertKeepsOrder(before, reply.value);
      RemoveKeepsOrder(before, reply.value);
    }
  }

  lemma StillHeld(b: Block, ops: seq<Op>, i: nat, x: uint32)
    requires b.Valid() && 2 <= b.k && i < |ops| && ReserveGiven(b.first) !in ops
    requires x in After(b, ops[..i]) && !Frees(b, ops, i, x)
    ensures x in After(b, ops[..i + 1])
  {
    StepOfRun(b, ops, i, x);
  }

  /** An address stays reserved until it is released. */
  lemma {:induction false} HeldUntilFreed(b: Block, ops: seq<Op>, i: nat, j: nat, x: uint32)
    requires b.Valid() && 2 <= b.k && i <= j <= |ops| && ReserveGiven(b.first) !in ops
    requires x in After(b, ops[..i])
    requires forall l: nat :: i <= l < j ==> !Frees(b, ops, l, x)
    ensures x in After(b, ops[..j])
    decreases j
  {
    if i < j {
      HeldUntilFreed(b, ops, i, j - 1, x);
      StillHeld(b, ops, j - 1, x);
    }
  }

  /** No address is given out twice without having been released in between. */
  lemma NeverGrantedTwice(b: Block, ops: seq<Op>, i: nat, j: nat, x: uint32)
    requires b.Valid() && 2 <= b.k && i < j < |ops| && ReserveGiven(b.first) !in ops
    requires Grants(b, ops, i, x) && Grants(b, ops, j, x)
    ensures exists l: nat :: i < l < j && Frees(b, ops, l, x)
  {
    StepOfRun(b, ops, i, x);
    StepOfRun(b, ops, j, x);
    if forall l: nat :: i < l < j ==> !Frees(b, ops, l, x) {
      HeldUntilFreed(b, ops, i + 1, j, x);
    }
  }

  /** How many operations out of the first n changed the count up and down. */
  function Balance(b: Block, ops: seq<Op>, n: nat): int
    requires b.Valid() && n <= |ops|
  {
    if n == 0 then 0
    else Balance(b, ops, n - 1) +
         (if Reply(b, ops, n - 1).Err? then 0 else if ops[n - 1].Release? then -1 else 1)
  }

  /** What is reserved is what was given out less what was released. */
  lemma {:induction false} Conserved(b: Block, ops: seq<Op>, n: nat)
    requires b.Valid() && 2 <= b.k && n <= |ops| && ReserveGiven(b.first) !in ops
    ensures |After(b, ops[..n])| == Balance(b, ops, n)
  {
    if n > 0 {
      Conserved(b, ops, n - 1);
      StepOfRun(b, ops, n - 1, 0);
    }
  }

  /** After any run, an address that was reserved in whatever way and released again is
      given out again by the same operation. */
  lemma ReservedAgain(b: Block, ops: seq<Op>, op: Op, x: uint32)
    requires b.Valid() && 2 <= b.k && ReserveGiven(b.first) !in ops && op != ReserveGiven(b.first) && !op.Release?
    requires Perform(b, After(b, ops), op).1 == Ok(x)
    ensures var again := ops + [op, Release(x), op];
      && Reply(b, again, |ops|) == Ok(x) && Reply(b, again, |ops| + 1) == Ok(x)
      && Reply(b, again, |ops| + 2) == Ok(x)
  {
    var s0 := After(b, ops);
    var s1 := Perform(b, s0, op).0;
    var s2 := Perform(b, s1, Release(x)).0;
    RunStaysWithin(b, ops);
    StepStaysWithin(b, s0, op);
    StepStaysWithin(b, s1, Release(x));
    ReserveNextExactly(b, s0);
    StepAnswers(b, s0, op);
    StepAnswers(b, s1, Release(x));
    InsertKeepsOrder(s0, x);
    RemoveKeepsOrder(s1, x);
    SameMembers(s0, s2);
    var n, again := |ops|, ops + [op, Release(x), op];
    assert again[..n] == ops && again[..n + 1][..n] == ops && again[..n + 1] == ops + [op];
    assert again[..n + 2][..n + 1] == again[..n + 1];
  }

  /** A set has one order. */
  lemma {:induction false} SameMembers(s: seq<uint32>, t: seq<uint32>)
    requires Ascending(s) && Ascending(t) && forall y :: y in s <==> y in t
    ensures s == t
  {
    assert (s != [] ==> s[0] in s) && (t != [] ==> t[0] in t);
    if s != [] {
      TailAbove(s);
      TailAbove(t);
      SameMembers(s[1..], t[1..]);
      assert s == [s[0]] + s[1..] && t == [t[0]] + t[1..];
    }
  }

  /** With the network address reserved by hand, one address is given out twice in a row,
      from the first network with room for three on. */
  lemma GrantedTwice(b: Block)
    requires b.Valid() && 3 <= b.k
    ensures var ops := [ReserveGiven(b.first), ReserveNext, ReserveNext];
      Grants(b, ops, 1, b.first + 1) && Grants(b, ops, 2, b.first + 1)
  {
    var ops := [ReserveGiven(b.first), ReserveNext, ReserveNext];
    Pow2Below(b.k - 1);
    assert ops[..0] == [] && ops[..1][..0] == [] && ops[..2][..1] == ops[..1];
    assert After(b, ops[..1]) == [b.first];
    assert Insert([b.first], b.first + 1) == [b.first, b.first + 1];
    assert After(b, ops[..2]) == [b.first, b.first + 1];
  }
}
