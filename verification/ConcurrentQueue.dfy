/** The queue as one thread without contention runs it, statement by statement: every
    exchange finds its lock free. What `new` returns is passed in. */
module QueueObject {
  import opened Wrappers
  import opened AtomicQueue
  import opened QueueMachine
  import opened QueueInvariant

  /** The nodes of the list, the boxes of its values, and the values themselves. */
  datatype Listing<V> = Listing(chain: seq<Addr>, cells: seq<Box>, contents: seq<V>)

  class ConcurrentQueue<V> {
    var heap: map<Addr, Node>
    var boxes: map<Box, V>
    var first: Addr
    var last: Addr
    var producerLock: bool
    var consumerLock: bool
    ghost var list: Listing<V>

    ghost function Snapshot(): State<V>
      reads this
    {
      State(heap, boxes, first, last, producerLock, consumerLock, map[], false)
    }

    ghost function Contents(): seq<V>
      reads this
    {
      list.contents
    }

    /** The list is the one of the concurrent model, and nothing else is allocated. */
    ghost predicate Valid()
      reads this
    {
      && !producerLock && !consumerLock
      && Listed(Snapshot(), list)
    }

    constructor (sentinel: Addr)
      ensures Valid() && Contents() == []
    {
      heap, boxes := map[sentinel := Node(None, None)], map[];
      first, last := sentinel, sentinel;
      producerLock, consumerLock := false, false;
      list := Listing([sentinel], [], []);
    }

    method Push(value: V, box: Box, node: Addr)
      requires Valid() && box !in boxes && node !in heap
      modifies this
      ensures Valid() && Contents() == old(Contents()) + [value]
    {
      ghost var s := Snapshot();
      Tail(s, list);
      LinkLast(value, box, node);
      Appends(s, list, value, box, node, Snapshot());
      list := Listing(list.chain + [node], list.cells + [box], list.contents + [value]);
    }

    /** concurrent_queue.h:106-113, but for the list. */
    method LinkLast(value: V, box: Box, node: Addr)
      requires last in heap && node !in heap
      modifies this
      ensures Snapshot() == WithBack(old(Snapshot()), value, box, node).(producerLock := false)
      ensures list == old(list)
    {
      boxes := boxes[box := value];
      heap := heap[node := Node(Some(box), None)];
      producerLock := true;
      heap := heap[last := heap[last].(next := Some(node))];
      last := node;
      producerLock := false;
    }

    method Pop() returns (result: Option<V>)
      requires Valid()
      modifies this
      ensures Valid()
      ensures if old(Contents()) == [] then result == None && Contents() == []
              else result == Some(old(Contents())[0]) && Contents() == old(Contents())[1..]
    {
      ghost var s := Snapshot();
      Front(s, list);
      ghost var shorter := list;
      if list.contents != [] {
        shorter := Drops(s, list);
      }
      consumerLock := true;
      var next := heap[first].next;
      if next == None {
        consumerLock := false;
        assert Snapshot() == s;
        return None;
      }
      result := TakeFirst(next.value);
      assert Snapshot() == WithoutFront(s, next.value, s.heap[next.value].value.value);
      list := shorter;
    }

    /** concurrent_queue.h:140-149: the rest of pop(), with the lock held. */
    method TakeFirst(succ: Addr) returns (result: Option<V>)
      requires first in heap && succ in heap && succ != first && heap[succ].value.Some? && heap[succ].value.value in boxes
      requires consumerLock
      modifies this
      ensures result == Some(old(boxes[heap[succ].value.value]))
      ensures Snapshot() == WithoutFront(old(Snapshot()), succ, old(heap[succ].value.value)).(consumerLock := false)
      ensures list == old(list)
    {
      var head := first;
      var val := heap[succ].value;
      heap := heap[succ := heap[succ].(value := None)];
      first := succ;
      consumerLock := false;
      result := Some(boxes[val.value]);
      boxes := boxes - {val.value};
      heap := heap - {head};
    }

    method IsEmpty() returns (answer: bool)
      requires Valid()
      modifies this`consumerLock
      ensures Valid() && answer == (Contents() == [])
    {
      Front(Snapshot(), list);
      consumerLock := true;
      answer := heap[first].next == None;
      consumerLock := false;
    }

    method Size() returns (count: nat)
      requires Valid()
      modifies this`consumerLock
      ensures Valid() && count == |Contents()|
    {
      ghost var s := Snapshot();
      consumerLock := true;
      count := 0;
      LinkIn(s, list, 0);
      var cur := heap[first].next;
      while cur != None
        invariant count <= |list.contents| && |list.chain| == |list.contents| + 1
        invariant cur == if count < |list.contents| then Some(list.chain[count + 1]) else None
        decreases |list.contents| - count
      {
        LinkIn(s, list, count + 1);
        cur := heap[cur.value].next;
        count := count + 1;
      }
      consumerLock := false;
    }

    /** The destructor, run when no other thread uses the queue: it frees each node and
        each value once and leaves nothing allocated. */
    method Destroy()
      requires Valid()
      modifies this
      ensures heap == map[] && boxes == map[]
    {
      AllLeft(Snapshot(), list);
      consumerLock, producerLock := true, true;
      FreeAll(Snapshot(), list);
    }

    /** concurrent_queue.h:85-89: the loop of the destructor. */
    method FreeAll(ghost s: State<V>, ghost l: Listing<V>)
      requires Chained(s, l) && Left(s, l, 0, heap, boxes) && first == l.chain[0]
      modifies this
      ensures heap == map[] && boxes == map[]
    {
      ghost var i := 0;
      var cur := Some(first);
      while cur != None
        invariant Left(s, l, i, heap, boxes)
        invariant cur == if i < |l.chain| then Some(l.chain[i]) else None
        decreases |l.chain| - i
      {
        OneLess(s, l, i, heap, boxes);
        var tmp := cur.value;
        cur := heap[tmp].next;
        var val := heap[tmp].value;
        if val.Some? {
          assert val.value in boxes;
          boxes := boxes - {val.value};
        }
        heap := heap - {tmp};
        i := i + 1;
      }
      NothingLeft(s, l, heap, boxes);
    }
  }

  /** The list of a queue nobody is using: no lag, no hollow, no stray allocation. */
  ghost predicate Listed<V>(s: State<V>, l: Listing<V>) {
    && ChainOk(s, Quiet(l))
    && ContentOk(s, Quiet(l), Holding(l))
    && (forall n :: n in s.heap ==> n in l.chain)
    && (forall b :: b in s.boxes ==> b in l.cells)
  }

  function Quiet<V>(l: Listing<V>): Ghost {
    Ghost(l.chain, l.cells, None, false, None, false, map[], map[])
  }

  function Holding<V>(l: Listing<V>): Spec<V> {
    Spec(l.contents, [], [], map[])
  }

  lemma Tail<V>(s: State<V>, l: Listing<V>)
    requires Listed(s, l)
    ensures s.last in s.heap
  {
  }

  /** What pop and empty find behind the sentinel. */
  lemma Front<V>(s: State<V>, l: Listing<V>)
    requires Listed(s, l)
    ensures s.first in s.heap && (s.heap[s.first].next == None <==> l.contents == [])
    ensures l.contents != [] ==>
      var succ := s.heap[s.first].next.value;
      && succ in s.heap && s.heap[succ].value.Some? && succ != s.first
      && s.heap[succ].value.value in s.boxes && s.boxes[s.heap[succ].value.value] == l.contents[0]
  {
    LinkAt(s, Quiet(l), 0);
  }

  lemma LinkIn<V>(s: State<V>, l: Listing<V>, k: nat)
    requires Listed(s, l) && k < |l.chain|
    ensures |l.chain| == |l.contents| + 1 && |l.cells| == |l.contents|
    ensures l.chain[k] in s.heap && s.first == l.chain[0]
    ensures s.heap[l.chain[k]].next == if k < |l.contents| then Some(l.chain[k + 1]) else None
    ensures s.heap[l.chain[k]].value == if k == 0 then None else Some(l.cells[k - 1])
  {
    LinkAt(s, Quiet(l), k);
  }

  /** The memory after a value was linked in. */
  function WithBack<V>(s: State<V>, v: V, box: Box, node: Addr): State<V>
    requires s.last in s.heap
  {
    s.(heap := s.heap[node := Node(Some(box), None)][s.last := s.heap[s.last].(next := Some(node))],
       boxes := s.boxes[box := v], last := node)
  }

  lemma Appends<V>(s: State<V>, l: Listing<V>, v: V, box: Box, node: Addr, s': State<V>)
    requires Listed(s, l) && node !in s.heap && box !in s.boxes && s.last in s.heap
    requires s'.heap == s.heap[node := Node(Some(box), None)][s.last := s.heap[s.last].(next := Some(node))]
    requires s'.boxes == s.boxes[box := v] && s'.first == s.first && s'.last == node
    ensures Listed(s', Listing(l.chain + [node], l.cells + [box], l.contents + [v]))
  {
    var mid := s.(heap := s.heap[node := Node(Some(box), None)], boxes := s.boxes[box := v]);
    var l' := Listing(l.chain + [node], l.cells + [box], l.contents + [v]);
    assert node !in l.chain && box !in l.cells;
    ListSame(s, Quiet(l), Holding(l), mid, Quiet(l), Holding(l));
    ListAppended(mid, Quiet(l), Holding(l), v, box, node, s', Quiet(l').(lagging := true), Holding(l'));
  }

  /** The memory after the first value was taken out. */
  function WithoutFront<V>(s: State<V>, succ: Addr, val: Box): State<V>
    requires succ in s.heap
  {
    s.(heap := s.heap[succ := s.heap[succ].(value := None)] - {s.first}, boxes := s.boxes - {val}, first := succ)
  }

  function Dropped<V>(l: Listing<V>): Listing<V>
    requires |l.chain| > 0 && |l.cells| > 0 && |l.contents| > 0
  {
    Listing(l.chain[1..], l.cells[1..], l.contents[1..])
  }

  /** The head moves on; the old sentinel and the first value are still allocated. */
  lemma HeadMoves<V>(s: State<V>, l: Listing<V>, s': State<V>)
    requires Listed(s, l) && |l.chain| > 1 && |l.cells| > 0 && |l.contents| > 0 && l.chain[1] in s.heap
    requires s' == s.(heap := s.heap[l.chain[1] := s.heap[l.chain[1]].(value := None)], first := l.chain[1])
    ensures ChainOk(s', Quiet(Dropped(l))) && ContentOk(s', Quiet(Dropped(l)), Holding(Dropped(l)))
  {
    var mid := s'.(first := s.first);
    var g := Quiet(l).(hollow := true);
    assert ChainOk(mid, g);
    ListAdvanced(mid, g, Holding(l), s', Quiet(Dropped(l)), Holding(Dropped(l)));
  }

  lemma Drops<V>(s: State<V>, l: Listing<V>) returns (l': Listing<V>)
    requires Listed(s, l) && l.contents != []
    requires s.first in s.heap && s.heap[s.first].next.Some? && s.heap[s.first].next.value in s.heap
    requires s.heap[s.heap[s.first].next.value].value.Some?
    ensures l'.contents == l.contents[1..]
    ensures var succ := s.heap[s.first].next.value;
      Listed(WithoutFront(s, succ, s.heap[succ].value.value), l')
  {
    LinkIn(s, l, 0);
    LinkIn(s, l, 1);
    Distinct(s, l);
    var succ := l.chain[1];
    l' := Dropped(l);
    var mid := s.(heap := s.heap[succ := s.heap[succ].(value := None)], first := succ);
    HeadMoves(s, l, mid);
    OnlyTheRest(s, l);
    ListSame(mid, Quiet(l'), Holding(l'), WithoutFront(s, succ, l.cells[0]), Quiet(l'), Holding(l'));
  }

  lemma OnlyTheRest<V>(s: State<V>, l: Listing<V>)
    requires Listed(s, l) && |l.chain| > 1 && |l.cells| > 0 && l.chain[1] in s.heap
    ensures var s' := WithoutFront(s, l.chain[1], l.cells[0]);
      && (forall n :: n in s'.heap <==> n in l.chain[1..])
      && (forall b :: b in s'.boxes <==> b in l.cells[1..])
  {
    Distinct(s, l);
    TailMembers(l.chain);
    TailMembers(l.cells);
  }

  lemma Distinct<V>(s: State<V>, l: Listing<V>)
    requires Listed(s, l)
    ensures |l.chain| == |l.contents| + 1 && |l.cells| == |l.contents| && s.first == l.chain[0]
    ensures forall i, j :: 0 <= i < j < |l.chain| ==> l.chain[i] != l.chain[j]
    ensures forall i, j :: 0 <= i < j < |l.cells| ==> l.cells[i] != l.cells[j]
    ensures forall n :: n in s.heap <==> n in l.chain
    ensures forall b :: b in s.boxes <==> b in l.cells
  {
  }

  /** What the destructor has still to free when it has freed i nodes. */
  ghost predicate Left<V>(s: State<V>, l: Listing<V>, i: nat, heap: map<Addr, Node>, boxes: map<Box, V>) {
    && i <= |l.chain| == |l.cells| + 1
    && Holds(heap, l.chain[i..])
    && (forall n :: n in heap ==> n in s.heap && heap[n] == s.heap[n])
    && Holds(boxes, l.cells[if i == 0 then 0 else i - 1..])
  }

  ghost predicate Holds<T>(m: map<nat, T>, xs: seq<nat>) {
    forall x :: x in m.Keys <==> x in xs
  }

  ghost predicate Chained<V>(s: State<V>, l: Listing<V>) {
    && |l.chain| == |l.cells| + 1
    && (forall j, k :: 0 <= j < k < |l.chain| ==> l.chain[j] != l.chain[k])
    && (forall j, k :: 0 <= j < k < |l.cells| ==> l.cells[j] != l.cells[k])
    && (forall k {:trigger NodeAt(s, l, k)} :: 0 <= k < |l.chain| ==> NodeAt(s, l, k))
  }

  predicate NodeAt<V>(s: State<V>, l: Listing<V>, k: nat)
    requires k < |l.chain| == |l.cells| + 1
  {
    && l.chain[k] in s.heap
    && s.heap[l.chain[k]].next == (if k + 1 < |l.chain| then Some(l.chain[k + 1]) else None)
    && s.heap[l.chain[k]].value == (if k == 0 then None else Some(l.cells[k - 1]))
  }

  lemma AllLeft<V>(s: State<V>, l: Listing<V>)
    requires Listed(s, l)
    ensures Chained(s, l) && Left(s, l, 0, s.heap, s.boxes) && s.first == l.chain[0]
  {
    Distinct(s, l);
    forall k | 0 <= k < |l.chain| ensures NodeAt(s, l, k) {
      LinkIn(s, l, k);
    }
    assert l.chain[0..] == l.chain && l.cells[0..] == l.cells;
  }

  lemma OneLess<V>(s: State<V>, l: Listing<V>, i: nat, heap: map<Addr, Node>, boxes: map<Box, V>)
    requires Chained(s, l) && Left(s, l, i, heap, boxes) && i < |l.chain|
    ensures l.chain[i] in heap
    ensures heap[l.chain[i]].next == if i + 1 < |l.chain| then Some(l.chain[i + 1]) else None
    ensures heap[l.chain[i]].value == if i == 0 then None else Some(l.cells[i - 1])
    ensures i > 0 ==> l.cells[i - 1] in boxes
    ensures Left(s, l, i + 1, heap - {l.chain[i]}, if i == 0 then boxes else boxes - {l.cells[i - 1]})
  {
    assert NodeAt(s, l, i);
    PeelMap(l.chain, i, heap);
    if i > 0 { PeelMap(l.cells, i - 1, boxes); }
  }

  lemma NothingLeft<V>(s: State<V>, l: Listing<V>, heap: map<Addr, Node>, boxes: map<Box, V>)
    requires Left(s, l, |l.chain|, heap, boxes)
    ensures heap == map[] && boxes == map[]
  {
    assert l.chain[|l.chain|..] == [];
    assert l.cells[if |l.chain| == 0 then 0 else |l.chain| - 1..] == [];
  }

  lemma PeelMap<T>(xs: seq<nat>, i: nat, m: map<nat, T>)
    requires forall j, k :: 0 <= j < k < |xs| ==> xs[j] != xs[k]
    requires i < |xs| && Holds(m, xs[i..])
    ensures xs[i] in m && Holds(m - {xs[i]}, xs[i + 1..])
  {
    Peel(xs, i, m.Keys);
    assert (m - {xs[i]}).Keys == m.Keys - {xs[i]};
  }

  lemma Peel(xs: seq<nat>, i: nat, keys: set<nat>)
    requires forall j, k :: 0 <= j < k < |xs| ==> xs[j] != xs[k]
    requires i < |xs| && forall x :: x in keys <==> x in xs[i..]
    ensures xs[i] in keys && forall x :: x in keys - {xs[i]} <==> x in xs[i + 1..]
  {
    TailMembers(xs[i..]);
    assert xs[i..][0] == xs[i] && xs[i..][1..] == xs[i + 1..];
  }
}
