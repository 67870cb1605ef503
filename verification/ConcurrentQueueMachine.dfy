/** Small-step model of the two-lock queue in concurrent_queue.h.

    Any number of threads run `push`, `pop`, `empty` and `size`. Each step below is one
    atomic access of the source: one exchange, load, store, allocation or deallocation.
    Addresses may be handed out again after they were freed. Every use of an address
    that is not allocated, and every deallocation of one, sets `fault`. */
module QueueMachine {
  import opened Wrappers
  import opened AtomicQueue

  type Addr = nat  // address of a node
  type Box = nat   // address of a heap-allocated value

  datatype Node = Node(value: Option<Box>, next: Option<Addr>)

  /** Where a thread stands inside a call: its program counter with its locals. */
  datatype Pc<V> =
    | Idle
    | Called(call: Call<V>)
    // push(value)
    | PushBoxed(v: V, box: Box)
    | PushMade(v: V, box: Box, node: Addr)
    | PushLocked(v: V, box: Box, node: Addr)
    | PushRead(v: V, box: Box, node: Addr, last: Addr)
    | PushLinked(node: Addr)
    | PushMoved
    // pop(result), empty() and size(), holding the consumer lock
    | Locked(call: Call<V>)
    | PopFirst(first: Addr)
    | PopNext(first: Addr, succ: Addr)
    | PopTaken(first: Addr, succ: Addr, taken: Option<Box>)
    | PopCleared(first: Addr, succ: Addr, taken: Option<Box>)
    | PopMoved(first: Addr, taken: Option<Box>)
    | SizeWalk(cur: Addr, count: nat)
    | Answered(outcome: Outcome<V>)
    // the rest of pop(result), after the lock is released
    | PopUnlocked(first: Addr, taken: Option<Box>)
    | PopCopied(first: Addr, taken: Option<Box>, v: V)
    | PopDeleted(first: Addr, v: V)
    | Returning(outcome: Outcome<V>)

  datatype State<V> = State(
    heap: map<Addr, Node>,
    boxes: map<Box, V>,
    first: Addr,
    last: Addr,
    producerLock: bool,
    consumerLock: bool,
    threads: map<Tid, Pc<V>>,
    fault: bool)
  {
    function At(t: Tid, pc: Pc<V>): State<V> {
      this.(threads := threads[t := pc])
    }

    function Fault(): State<V> {
      this.(fault := true)
    }
  }

  /** What a thread does next: begin a call, or take the next step of its current one.
      `place` is the address an allocation returns, if the step allocates. */
  datatype Action<V> = Begin(call: Call<V>) | Tick(place: nat)

  datatype Step<V> = Step(t: Tid, action: Action<V>)

  predicate Enabled<V>(s: State<V>, step: Step<V>) {
    && !s.fault
    && step.t in s.threads
    && match s.threads[step.t]
       case Idle => step.action.Begin?
       case Called(Push(_)) => step.action.Tick? && step.action.place !in s.boxes
       case PushBoxed(_, _) => step.action.Tick? && step.action.place !in s.heap
       case _ => step.action.Tick?
  }

  /** concurrent_queue.h:72-76. */
  function Initial<V>(sentinel: Addr, tids: set<Tid>): State<V> {
    State(map[sentinel := Node(None, None)], map[], sentinel, sentinel, false, false,
          map t | t in tids :: Idle, false)
  }

  function Next<V>(s: State<V>, step: Step<V>): State<V>
    requires Enabled(s, step)
  {
    match step.action
    case Begin(call) => s.At(step.t, Called(call))
    case Tick(place) => TickOf(s, step.t, place)
  }

  function TickOf<V>(s: State<V>, t: Tid, place: nat): State<V>
    requires t in s.threads
  {
    var pc := s.threads[t];
    if pc.Called? then
      match pc.call
      case Push(v) => s.(boxes := s.boxes[place := v]).At(t, PushBoxed(v, place))
      case call => if s.consumerLock then s else s.(consumerLock := true).At(t, Locked(call))
    else if pc.Returning? then s.At(t, Idle)
    else if pc.PushBoxed? || pc.PushMade? || pc.PushLocked? || pc.PushRead? || pc.PushLinked? || pc.PushMoved?
    then PushTick(s, t, place)
    else PopTick(s, t)
  }

  /** concurrent_queue.h:106-113, one atomic access at a time. */
  function PushTick<V>(s: State<V>, t: Tid, place: nat): State<V>
    requires t in s.threads
  {
    match s.threads[t]
    case PushBoxed(v, box) =>
      s.(heap := s.heap[place := Node(Some(box), None)]).At(t, PushMade(v, box, place))
    case PushMade(v, box, node) =>
      if s.producerLock then s else s.(producerLock := true).At(t, PushLocked(v, box, node))
    case PushLocked(v, box, node) => s.At(t, PushRead(v, box, node, s.last))
    case PushRead(v, box, node, last) =>
      if last !in s.heap then s.Fault() else
      s.(heap := s.heap[last := s.heap[last].(next := Some(node))]).At(t, PushLinked(node))
    case PushLinked(node) => s.(last := node).At(t, PushMoved)
    case PushMoved => s.(producerLock := false).At(t, Returning(Pushed))
    case _ => s
  }

  /** concurrent_queue.h:132-149 for pop, 167-171 for empty and 180-186 for size. Deleting
      a node runs its destructor, which also deletes the value the node still points to
      (concurrent_queue.h:203-207). */
  function PopTick<V>(s: State<V>, t: Tid): State<V>
    requires t in s.threads
  {
    match s.threads[t]
    case Locked(Pop) => s.At(t, PopFirst(s.first))
    case Locked(Empty) =>
      if s.first !in s.heap then s.Fault() else
      s.At(t, Answered(Emptied(s.heap[s.first].next == None)))
    case Locked(Size) =>
      if s.first !in s.heap then s.Fault() else s.At(t, Walk(s.heap[s.first].next, 0))
    case PopFirst(first) =>
      if s.first !in s.heap then s.Fault() else
      s.At(t, match s.heap[s.first].next
              case None => Answered(Popped(None))
              case Some(succ) => PopNext(first, succ))
    case PopNext(first, succ) =>
      if succ !in s.heap then s.Fault() else s.At(t, PopTaken(first, succ, s.heap[succ].value))
    case PopTaken(first, succ, taken) =>
      if succ !in s.heap then s.Fault() else
      s.(heap := s.heap[succ := s.heap[succ].(value := None)]).At(t, PopCleared(first, succ, taken))
    case PopCleared(first, succ, taken) => s.(first := succ).At(t, PopMoved(first, taken))
    case PopMoved(first, taken) => s.(consumerLock := false).At(t, PopUnlocked(first, taken))
    case SizeWalk(cur, count) =>
      if cur !in s.heap then s.Fault() else s.At(t, Walk(s.heap[cur].next, count + 1))
    case Answered(outcome) => s.(consumerLock := false).At(t, Returning(outcome))
    case PopUnlocked(first, taken) =>
      if taken == None || taken.value !in s.boxes then s.Fault() else
      s.At(t, PopCopied(first, taken, s.boxes[taken.value]))
    case PopCopied(first, taken, v) =>
      if taken == None || taken.value !in s.boxes then s.Fault() else
      s.(boxes := s.boxes - {taken.value}).At(t, PopDeleted(first, v))
    case PopDeleted(first, v) =>
      if first !in s.heap then s.Fault() else
      DeleteNode(s, first).At(t, Returning(Popped(Some(v))))
    case _ => s
  }

  /** The loop of size() goes on to `cur`, or ends at a null link with `count` nodes seen. */
  function Walk<V>(cur: Option<Addr>, count: nat): Pc<V> {
    match cur
    case None => Answered(Sized(count))
    case Some(node) => SizeWalk(node, count)
  }

  function DeleteNode<V>(s: State<V>, node: Addr): State<V>
    requires node in s.heap
  {
    var s' := s.(heap := s.heap - {node});
    match s.heap[node].value
    case None => s'
    case Some(box) => if box in s.boxes then s'.(boxes := s.boxes - {box}) else s'.Fault()
  }

  /** A schedule is a sequence of steps, each enabled where it is taken. */
  predicate Feasible<V>(s: State<V>, schedule: seq<Step<V>>)
    decreases |schedule|
  {
    schedule == [] || (Enabled(s, schedule[0]) && Feasible(Next(s, schedule[0]), schedule[1..]))
  }

  function Run<V>(s: State<V>, schedule: seq<Step<V>>): State<V>
    requires Feasible(s, schedule)
    decreases |schedule|
  {
    if schedule == [] then s else Run(Next(s, schedule[0]), schedule[1..])
  }
}
