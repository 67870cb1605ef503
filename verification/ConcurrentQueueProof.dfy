/** The two-lock queue simulates the atomic queue: the relation between their states, and
    that every step of every thread keeps it. Each step touches one facet of the relation
    (locks, list, contents, ownership), and the lemmas follow these facets. */
module QueueInvariant {
  import opened Wrappers
  import opened QueueMachine
  import opened AtomicQueue

  /** Who answers for an allocation: the queue, or the one thread that made or took it. */
  datatype Owner = Linked | Held(t: Tid)

  /** Bookkeeping beside a state: the nodes from `first` to the end of the list, the boxes
      of the values in it, the lock holders, and an owner for every allocation. `lagging`
      holds while a producer has linked its node but not yet moved `last`; `hollow` while a
      consumer has emptied the first value's node but not yet moved `first`. */
  datatype Ghost = Ghost(
    chain: seq<Addr>,
    cells: seq<Box>,
    producer: Option<Tid>,
    lagging: bool,
    consumer: Option<Tid>,
    hollow: bool,
    nodeOwner: map<Addr, Owner>,
    boxOwner: map<Box, Owner>)

  predicate InProducerSection<V>(pc: Pc<V>) {
    pc.PushLocked? || pc.PushRead? || pc.PushLinked? || pc.PushMoved?
  }

  predicate InConsumerSection<V>(pc: Pc<V>) {
    || pc.Locked? || pc.PopFirst? || pc.PopNext? || pc.PopTaken? || pc.PopCleared? || pc.PopMoved?
    || pc.SizeWalk? || pc.Answered?
  }

  /** The node only this thread may touch. */
  function HeldNode<V>(pc: Pc<V>): Option<Addr> {
    match pc
    case PushMade(_, _, node) => Some(node)
    case PushLocked(_, _, node) => Some(node)
    case PushRead(_, _, node, _) => Some(node)
    case PopMoved(first, _) => Some(first)
    case PopUnlocked(first, _) => Some(first)
    case PopCopied(first, _, _) => Some(first)
    case PopDeleted(first, _) => Some(first)
    case _ => None
  }

  /** The boxed value only this thread may touch. */
  function HeldBox<V>(pc: Pc<V>): Option<Box> {
    match pc
    case PushBoxed(_, box) => Some(box)
    case PushMade(_, box, _) => Some(box)
    case PushLocked(_, box, _) => Some(box)
    case PushRead(_, box, _, _) => Some(box)
    case PopMoved(_, taken) => taken
    case PopUnlocked(_, taken) => taken
    case PopCopied(_, taken, _) => taken
    case _ => None
  }

  /** The bookkeeping knows which section thread t is in. */
  predicate RoleOk<V>(g: Ghost, t: Tid, pc: Pc<V>) {
    && (InProducerSection(pc) <==> g.producer == Some(t))
    && (InConsumerSection(pc) <==> g.consumer == Some(t))
    && (pc.PushLinked? <==> g.producer == Some(t) && g.lagging)
    && (pc.PopCleared? <==> g.consumer == Some(t) && g.hollow)
  }

  ghost predicate LocksOk<V>(s: State<V>, g: Ghost) {
    && s.producerLock == g.producer.Some?
    && s.consumerLock == g.consumer.Some?
    && (g.producer.Some? ==> g.producer.value in s.threads)
    && (g.consumer.Some? ==> g.consumer.value in s.threads)
    && (g.lagging ==> g.producer.Some?)
    && (g.hollow ==> g.consumer.Some?)
    && (forall t {:trigger RoleOk(g, t, s.threads[t])} :: t in s.threads ==> RoleOk(g, t, s.threads[t]))
  }

  ghost predicate ChainOk<V>(s: State<V>, g: Ghost) {
    && |g.chain| == |g.cells| + 1
    && (g.hollow ==> |g.cells| > 0)
    && s.first == g.chain[0]
    && (!g.lagging ==> s.last == g.chain[|g.cells|])
    && (forall i, j :: 0 <= i < j < |g.chain| ==> g.chain[i] != g.chain[j])
    && (forall i, j :: 0 <= i < j < |g.cells| ==> g.cells[i] != g.cells[j])
    && (forall i :: 0 <= i < |g.chain| ==> g.chain[i] in s.heap)
    && (forall i :: 0 <= i < |g.cells| ==> s.heap[g.chain[i]].next == Some(g.chain[i + 1]))
    && s.heap[g.chain[|g.cells|]].next == None
    && s.heap[g.chain[0]].value == None
    && (forall i :: 0 < i < |g.chain| ==>
          s.heap[g.chain[i]].value == if i == 1 && g.hollow then None else Some(g.cells[i - 1]))
  }

  ghost predicate ContentOk<V>(s: State<V>, g: Ghost, a: Spec<V>) {
    && |a.queue| == |g.cells|
    && (forall i :: 0 <= i < |g.cells| ==> g.cells[i] in s.boxes && s.boxes[g.cells[i]] == a.queue[i])
  }

  ghost predicate NodesOwned<V>(s: State<V>, g: Ghost) {
    && g.nodeOwner.Keys == s.heap.Keys
    && (forall n :: n in g.chain <==> n in g.nodeOwner && g.nodeOwner[n] == Linked)
    && (forall n, t :: n in g.nodeOwner && g.nodeOwner[n] == Held(t) ==>
          t in s.threads && HeldNode(s.threads[t]) == Some(n))
    && (forall t {:trigger HeldNode(s.threads[t])} :: t in s.threads && HeldNode(s.threads[t]).Some? ==>
          HeldNode(s.threads[t]).value in g.nodeOwner && g.nodeOwner[HeldNode(s.threads[t]).value] == Held(t))
  }

  ghost predicate BoxesOwned<V>(s: State<V>, g: Ghost) {
    && g.boxOwner.Keys == s.boxes.Keys
    && (forall b :: b in g.cells <==> b in g.boxOwner && g.boxOwner[b] == Linked)
    && (forall b, t :: b in g.boxOwner && g.boxOwner[b] == Held(t) ==>
          t in s.threads && HeldBox(s.threads[t]) == Some(b))
    && (forall t {:trigger HeldBox(s.threads[t])} :: t in s.threads && HeldBox(s.threads[t]).Some? ==>
          HeldBox(s.threads[t]).value in g.boxOwner && g.boxOwner[HeldBox(s.threads[t]).value] == Held(t))
  }

  /** The locals of a thread agree with the queue, and its phase in the atomic queue is
      the one its program counter stands for. */
  ghost predicate ThreadOk<V>(s: State<V>, g: Ghost, phase: Phase<V>, pc: Pc<V>)
    requires |g.chain| > 0
  {
    match pc
    case Idle => phase == Ready
    case Called(call) => phase == Pending(call)
    case PushBoxed(v, box) => phase == Pending(Push(v)) && box in s.boxes && s.boxes[box] == v
    case PushMade(v, box, node) => phase == Pending(Push(v)) && NewNode(s, v, box, node)
    case PushLocked(v, box, node) => phase == Pending(Push(v)) && NewNode(s, v, box, node)
    case PushRead(v, box, node, last) =>
      phase == Pending(Push(v)) && NewNode(s, v, box, node) && last == s.last
    case PushLinked(node) => phase == Finished(Pushed) && node == g.chain[|g.chain| - 1]
    case PushMoved => phase == Finished(Pushed)
    case Locked(call) => phase == Pending(call) && !call.Push?
    case PopFirst(first) => phase == Pending(Pop) && first == s.first
    case PopNext(first, succ) =>
      phase == Pending(Pop) && first == s.first && |g.chain| > 1 && succ == g.chain[1]
    case PopTaken(first, succ, taken) => phase == Pending(Pop) && Taking(s, g, first, succ, taken)
    case PopCleared(first, succ, taken) => phase == Pending(Pop) && Taking(s, g, first, succ, taken)
    case PopMoved(first, taken) => Taken(s, first, taken, phase)
    case SizeWalk(cur, count) =>
      phase == Pending(Size) && count + 1 < |g.chain| && cur == g.chain[count + 1]
    case Answered(outcome) => phase == Finished(outcome)
    case PopUnlocked(first, taken) => Taken(s, first, taken, phase)
    case PopCopied(first, taken, v) => Taken(s, first, taken, phase) && phase == Finished(Popped(Some(v)))
    case PopDeleted(first, v) =>
      phase == Finished(Popped(Some(v))) && first in s.heap && s.heap[first].value == None
    case Returning(outcome) => phase == Finished(outcome)
  }

  ghost predicate NewNode<V>(s: State<V>, v: V, box: Box, node: Addr) {
    && node in s.heap && s.heap[node] == Node(Some(box), None)
    && box in s.boxes && s.boxes[box] == v
  }

  ghost predicate Taking<V>(s: State<V>, g: Ghost, first: Addr, succ: Addr, taken: Option<Box>) {
    |g.chain| > 1 && |g.cells| > 0 && first == s.first && succ == g.chain[1] && taken == Some(g.cells[0])
  }

  ghost predicate Taken<V>(s: State<V>, first: Addr, taken: Option<Box>, phase: Phase<V>) {
    && first in s.heap && s.heap[first].value == None
    && taken.Some? && taken.value in s.boxes
    && phase == Finished(Popped(Some(s.boxes[taken.value])))
  }

  ghost predicate ThreadsOk<V>(s: State<V>, g: Ghost, a: Spec<V>)
    requires |g.chain| > 0
  {
    && a.phases.Keys == s.threads.Keys
    && (forall t {:trigger ThreadOk(s, g, a.phases[t], s.threads[t])} ::
          t in s.threads ==> ThreadOk(s, g, a.phases[t], s.threads[t]))
  }

  /** The simulation relation between the machine and the atomic queue. */
  ghost predicate Simulates<V>(s: State<V>, g: Ghost, a: Spec<V>) {
    && !s.fault
    && LocksOk(s, g)
    && ChainOk(s, g)
    && ContentOk(s, g, a)
    && NodesOwned(s, g)
    && BoxesOwned(s, g)
    && ThreadsOk(s, g, a)
  }

  /** The event a step shows to an observer. */
  function EventOf<V>(s: State<V>, step: Step<V>): Event<V>
    requires Enabled(s, step)
  {
    match step.action
    case Begin(call) => Invoke(call)
    case Tick(_) => if s.threads[step.t].Returning? then Return(s.threads[step.t].outcome) else Internal
  }

  /** The steps at which calls take effect: the link write of a push, the head move of a
      pop that finds a value, and for everything else the read of a link: empty() at its
      only read, a failing pop and size() where the link they read is null. */
  predicate Commits<V>(s: State<V>, step: Step<V>)
    requires Enabled(s, step)
  {
    && step.action.Tick?
    && match s.threads[step.t]
       case PushRead(_, _, _, _) => true
       case PopCleared(_, _, _) => true
       case Locked(Empty) => true
       case Locked(Size) => s.first in s.heap && s.heap[s.first].next == None
       case PopFirst(_) => s.first in s.heap && s.heap[s.first].next == None
       case SizeWalk(cur, _) => cur in s.heap && s.heap[cur].next == None
       case _ => false
  }

  function NextSpec<V>(s: State<V>, a: Spec<V>, step: Step<V>): Spec<V>
    requires Enabled(s, step)
    requires Commits(s, step) ==> step.t in a.phases && a.phases[step.t].Pending?
  {
    if Commits(s, step) then Commit(a, step.t) else
    match EventOf(s, step)
    case Internal => a
    case Invoke(call) => a.(phases := a.phases[step.t := Pending(call)])
    case Return(_) => a.(phases := a.phases[step.t := Phase.Ready])
  }

  function NextGhost<V>(s: State<V>, g: Ghost, step: Step<V>): Ghost
    requires Enabled(s, step)
    requires |g.chain| == |g.cells| + 1
    requires step.action.Tick? && s.threads[step.t].PopCleared? ==> |g.cells| > 0
  {
    var t := step.t;
    if !step.action.Tick? then g else
    var place := step.action.place;
    match s.threads[t]
    case Called(Push(_)) => g.(boxOwner := g.boxOwner[place := Held(t)])
    case Called(_) => if s.consumerLock then g else g.(consumer := Some(t))
    case PushBoxed(_, _) => g.(nodeOwner := g.nodeOwner[place := Held(t)])
    case PushMade(_, _, _) => if s.producerLock then g else g.(producer := Some(t))
    case PushRead(_, box, node, _) => Appended(g, node, box)
    case PushLinked(_) => g.(lagging := false)
    case PushMoved => g.(producer := None)
    case PopTaken(_, _, _) => g.(hollow := true)
    case PopCleared(first, _, _) => Advanced(g, t, first)
    case PopMoved(_, _) => g.(consumer := None)
    case Answered(_) => g.(consumer := None)
    case PopCopied(_, taken, _) => if taken.Some? then g.(boxOwner := g.boxOwner - {taken.value}) else g
    case PopDeleted(first, _) => g.(nodeOwner := g.nodeOwner - {first})
    case _ => g
  }

  /** A new node is linked behind the last one. */
  function Appended(g: Ghost, node: Addr, box: Box): Ghost {
    g.(chain := g.chain + [node], cells := g.cells + [box], lagging := true,
       nodeOwner := g.nodeOwner[node := Linked], boxOwner := g.boxOwner[box := Linked])
  }

  /** The head moves on; the old head and the first value now belong to thread t. */
  function Advanced(g: Ghost, t: Tid, first: Addr): Ghost
    requires |g.cells| > 0 && |g.chain| > 0
  {
    g.(chain := g.chain[1..], cells := g.cells[1..], hollow := false,
       nodeOwner := g.nodeOwner[first := Held(t)], boxOwner := g.boxOwner[g.cells[0] := Held(t)])
  }

  // ---- What a step relies on and what it leaves to the others -------------------------

  /** The bookkeeping without the threads' own knowledge. */
  ghost predicate Shared<V>(s: State<V>, g: Ghost, a: Spec<V>) {
    !s.fault && LocksOk(s, g) && ChainOk(s, g) && ContentOk(s, g, a) && NodesOwned(s, g) && BoxesOwned(s, g)
  }

  /** Thread t's knowledge survives a step of another thread that leaves its node and its
      box alone, keeps the tail if t is a producer in its section, and keeps the head and
      only appends to the list if t is a consumer in its section. */
  lemma Frame<V>(s: State<V>, g: Ghost, s': State<V>, g': Ghost, phase: Phase<V>, pc: Pc<V>)
    requires |g.chain| > 0 && |g'.chain| > 0
    requires ThreadOk(s, g, phase, pc)
    requires HeldNode(pc).Some? ==>
               var n := HeldNode(pc).value; n in s.heap && n in s'.heap && s.heap[n] == s'.heap[n]
    requires HeldBox(pc).Some? ==>
               var b := HeldBox(pc).value; b in s.boxes && b in s'.boxes && s.boxes[b] == s'.boxes[b]
    requires InProducerSection(pc) ==>
               s'.last == s.last && g.chain[|g.chain| - 1] == g'.chain[|g'.chain| - 1]
    requires InConsumerSection(pc) ==>
               s'.first == s.first && g.chain <= g'.chain && g.cells <= g'.cells
    ensures ThreadOk(s', g', phase, pc)
  {
  }

  /** What the other threads know survives thread t's step. */
  lemma OthersKeep<V>(s: State<V>, g: Ghost, a: Spec<V>, t: Tid, s': State<V>, g': Ghost)
    requires |g.chain| > 0 && |g'.chain| > 0
    requires LocksOk(s, g) && NodesOwned(s, g) && BoxesOwned(s, g) && ThreadsOk(s, g, a)
    requires forall n :: n in g.nodeOwner && g.nodeOwner[n].Held? && g.nodeOwner[n].t != t ==>
                           n in s'.heap && s'.heap[n] == s.heap[n]
    requires forall b :: b in g.boxOwner && g.boxOwner[b].Held? && g.boxOwner[b].t != t ==>
                           b in s'.boxes && s'.boxes[b] == s.boxes[b]
    requires g.producer == Some(t) || g.producer == None ||
             (s'.last == s.last && g.chain[|g.chain| - 1] == g'.chain[|g'.chain| - 1])
    requires g.consumer == Some(t) || g.consumer == None ||
             (s'.first == s.first && g.chain <= g'.chain && g.cells <= g'.cells)
    ensures forall u :: u in s.threads && u != t ==> ThreadOk(s', g', a.phases[u], s.threads[u])
  {
    forall u | u in s.threads && u != t ensures ThreadOk(s', g', a.phases[u], s.threads[u]) {
      assert RoleOk(g, u, s.threads[u]) && ThreadOk(s, g, a.phases[u], s.threads[u]);
      Frame(s, g, s', g', a.phases[u], s.threads[u]);
    }
  }

  /** A holder changes only between free and held by t. */
  predicate Handover(holder: Option<Tid>, holder': Option<Tid>, t: Tid) {
    holder' == holder || (holder in {None, Some(t)} && holder' in {None, Some(t)})
  }

  lemma LocksStep<V>(s: State<V>, g: Ghost, t: Tid, pc: Pc<V>, s': State<V>, g': Ghost)
    requires LocksOk(s, g) && t in s.threads && s'.threads == s.threads[t := pc]
    requires RoleOk(g', t, pc)
    requires Handover(g.producer, g'.producer, t) && Handover(g.consumer, g'.consumer, t)
    requires g'.lagging == g.lagging || g.producer == Some(t)
    requires g'.hollow == g.hollow || g.consumer == Some(t)
    requires s'.producerLock == g'.producer.Some? && s'.consumerLock == g'.consumer.Some?
    requires g'.lagging ==> g'.producer.Some?
    requires g'.hollow ==> g'.consumer.Some?
    ensures LocksOk(s', g')
  {
    forall u | u in s'.threads ensures RoleOk(g', u, s'.threads[u]) {
      if u != t { assert RoleOk(g, u, s.threads[u]); }
    }
  }

  /** Thread t's step changes the ownership of at most node n, on t's behalf. */
  ghost predicate NodePasses<V>(s: State<V>, g: Ghost, t: Tid, pc: Pc<V>, s': State<V>, g': Ghost, n: Addr) {
    && t in s.threads && s'.threads == s.threads[t := pc]
    && g'.nodeOwner.Keys == s'.heap.Keys
    && (forall m :: m != n ==> (m in g.nodeOwner <==> m in g'.nodeOwner) && (m in g.chain <==> m in g'.chain))
    && (forall m :: m != n && m in g.nodeOwner ==> g'.nodeOwner[m] == g.nodeOwner[m])
    && (n in g'.chain <==> n in g'.nodeOwner && g'.nodeOwner[n] == Linked)
    && (HeldNode(pc) == HeldNode(s.threads[t]) || HeldNode(s.threads[t]) in {None, Some(n)})
    && (HeldNode(pc) == HeldNode(s.threads[t]) || HeldNode(pc) in {None, Some(n)})
    && (n in g.nodeOwner ==> g.nodeOwner[n] == Linked || g.nodeOwner[n] == Held(t))
    && (if n in g'.nodeOwner && g'.nodeOwner[n].Held? then g'.nodeOwner[n].t == t && HeldNode(pc) == Some(n)
        else HeldNode(pc) != Some(n))
  }

  lemma NodeHolder<V>(s: State<V>, g: Ghost, t: Tid, pc: Pc<V>, s': State<V>, g': Ghost, n: Addr)
    requires NodesOwned(s, g) && NodePasses(s, g, t, pc, s', g', n)
    ensures forall m, u :: m in g'.nodeOwner && g'.nodeOwner[m] == Held(u) ==>
              u in s'.threads && HeldNode(s'.threads[u]) == Some(m)
  {
    forall m, u | m in g'.nodeOwner && g'.nodeOwner[m] == Held(u)
      ensures u in s'.threads && HeldNode(s'.threads[u]) == Some(m)
    {
      if m != n { assert g.nodeOwner[m] == Held(u); }
    }
  }

  lemma NodeOfHolder<V>(s: State<V>, g: Ghost, t: Tid, pc: Pc<V>, s': State<V>, g': Ghost, n: Addr)
    requires NodesOwned(s, g) && NodePasses(s, g, t, pc, s', g', n)
    ensures forall u {:trigger HeldNode(s'.threads[u])} :: u in s'.threads && HeldNode(s'.threads[u]).Some? ==>
              HeldNode(s'.threads[u]).value in g'.nodeOwner && g'.nodeOwner[HeldNode(s'.threads[u]).value] == Held(u)
  {
    forall u | u in s'.threads && HeldNode(s'.threads[u]).Some?
      ensures HeldNode(s'.threads[u]).value in g'.nodeOwner && g'.nodeOwner[HeldNode(s'.threads[u]).value] == Held(u)
    {
      var m := HeldNode(s'.threads[u]).value;
      if u != t || m != n {
        assert HeldNode(s.threads[u]) == Some(m) && g.nodeOwner[m] == Held(u);
      }
    }
  }

  lemma NodesStep<V>(s: State<V>, g: Ghost, t: Tid, pc: Pc<V>, s': State<V>, g': Ghost, n: Addr)
    requires NodesOwned(s, g) && NodePasses(s, g, t, pc, s', g', n)
    ensures NodesOwned(s', g')
  {
    NodeHolder(s, g, t, pc, s', g', n);
    NodeOfHolder(s, g, t, pc, s', g', n);
  }

  /** Thread t's step changes the ownership of at most the boxed value b, on t's behalf. */
  ghost predicate BoxPasses<V>(s: State<V>, g: Ghost, t: Tid, pc: Pc<V>, s': State<V>, g': Ghost, b: Box) {
    && t in s.threads && s'.threads == s.threads[t := pc]
    && g'.boxOwner.Keys == s'.boxes.Keys
    && (forall m :: m != b ==> (m in g.boxOwner <==> m in g'.boxOwner) && (m in g.cells <==> m in g'.cells))
    && (forall m :: m != b && m in g.boxOwner ==> g'.boxOwner[m] == g.boxOwner[m])
    && (b in g'.cells <==> b in g'.boxOwner && g'.boxOwner[b] == Linked)
    && (HeldBox(pc) == HeldBox(s.threads[t]) || HeldBox(s.threads[t]) in {None, Some(b)})
    && (HeldBox(pc) == HeldBox(s.threads[t]) || HeldBox(pc) in {None, Some(b)})
    && (b in g.boxOwner ==> g.boxOwner[b] == Linked || g.boxOwner[b] == Held(t))
    && (if b in g'.boxOwner && g'.boxOwner[b].Held? then g'.boxOwner[b].t == t && HeldBox(pc) == Some(b)
        else HeldBox(pc) != Some(b))
  }

  lemma BoxHolder<V>(s: State<V>, g: Ghost, t: Tid, pc: Pc<V>, s': State<V>, g': Ghost, b: Box)
    requires BoxesOwned(s, g) && BoxPasses(s, g, t, pc, s', g', b)
    ensures forall m, u :: m in g'.boxOwner && g'.boxOwner[m] == Held(u) ==>
              u in s'.threads && HeldBox(s'.threads[u]) == Some(m)
  {
    forall m, u | m in g'.boxOwner && g'.boxOwner[m] == Held(u)
      ensures u in s'.threads && HeldBox(s'.threads[u]) == Some(m)
    {
      if m != b { assert g.boxOwner[m] == Held(u); }
    }
  }

  lemma BoxOfHolder<V>(s: State<V>, g: Ghost, t: Tid, pc: Pc<V>, s': State<V>, g': Ghost, b: Box)
    requires BoxesOwned(s, g) && BoxPasses(s, g, t, pc, s', g', b)
    ensures forall u {:trigger HeldBox(s'.threads[u])} :: u in s'.threads && HeldBox(s'.threads[u]).Some? ==>
              HeldBox(s'.threads[u]).value in g'.boxOwner && g'.boxOwner[HeldBox(s'.threads[u]).value] == Held(u)
  {
    forall u | u in s'.threads && HeldBox(s'.threads[u]).Some?
      ensures HeldBox(s'.threads[u]).value in g'.boxOwner && g'.boxOwner[HeldBox(s'.threads[u]).value] == Held(u)
    {
      var m := HeldBox(s'.threads[u]).value;
      if u != t || m != b {
        assert HeldBox(s.threads[u]) == Some(m) && g.boxOwner[m] == Held(u);
      }
    }
  }

  lemma BoxesStep<V>(s: State<V>, g: Ghost, t: Tid, pc: Pc<V>, s': State<V>, g': Ghost, b: Box)
    requires BoxesOwned(s, g) && BoxPasses(s, g, t, pc, s', g', b)
    ensures BoxesOwned(s', g')
  {
    BoxHolder(s, g, t, pc, s', g', b);
    BoxOfHolder(s, g, t, pc, s', g', b);
  }

  lemma NodesSame<V>(s: State<V>, g: Ghost, t: Tid, pc: Pc<V>, s': State<V>, g': Ghost)
    requires NodesOwned(s, g) && t in s.threads && s'.threads == s.threads[t := pc]
    requires HeldNode(pc) == HeldNode(s.threads[t])
    requires s'.heap.Keys == s.heap.Keys && g'.nodeOwner == g.nodeOwner && g'.chain == g.chain
    ensures NodesOwned(s', g')
  {
  }

  lemma BoxesSame<V>(s: State<V>, g: Ghost, t: Tid, pc: Pc<V>, s': State<V>, g': Ghost)
    requires BoxesOwned(s, g) && t in s.threads && s'.threads == s.threads[t := pc]
    requires HeldBox(pc) == HeldBox(s.threads[t])
    requires s'.boxes.Keys == s.boxes.Keys && g'.boxOwner == g.boxOwner && g'.cells == g.cells
    ensures BoxesOwned(s', g')
  {
  }

  ghost predicate LockStep<V>(s: State<V>, g: Ghost, t: Tid, pc: Pc<V>, producer: Option<Tid>, consumer: Option<Tid>) {
    && t in s.threads
    && Handover(g.producer, producer, t) && Handover(g.consumer, consumer, t)
    && RoleOk(g.(producer := producer, consumer := consumer), t, pc)
    && (g.lagging ==> producer.Some?)
    && (g.hollow ==> consumer.Some?)
    && HeldNode(pc) == HeldNode(s.threads[t]) && HeldBox(pc) == HeldBox(s.threads[t])
  }

  lemma OnlyPcShared<V>(s: State<V>, g: Ghost, a: Spec<V>, t: Tid, pc: Pc<V>, s': State<V>, g': Ghost, a': Spec<V>)
    requires Shared(s, g, a) && LockStep(s, g, t, pc, g'.producer, g'.consumer)
    requires s' == s.(producerLock := g'.producer.Some?, consumerLock := g'.consumer.Some?).At(t, pc)
    requires g' == g.(producer := g'.producer, consumer := g'.consumer)
    requires a'.queue == a.queue
    ensures Shared(s', g', a')
  {
    LocksStep(s, g, t, pc, s', g');
    NodesSame(s, g, t, pc, s', g');
    BoxesSame(s, g, t, pc, s', g');
  }

  lemma OnlyPcThreads<V>(s: State<V>, g: Ghost, a: Spec<V>, t: Tid, pc: Pc<V>, s': State<V>, g': Ghost, a': Spec<V>)
    requires Shared(s, g, a) && ThreadsOk(s, g, a) && LockStep(s, g, t, pc, g'.producer, g'.consumer)
    requires s' == s.(producerLock := g'.producer.Some?, consumerLock := g'.consumer.Some?).At(t, pc)
    requires g' == g.(producer := g'.producer, consumer := g'.consumer)
    requires t in a'.phases && a'.phases == a.phases[t := a'.phases[t]] && ThreadOk(s, g, a'.phases[t], pc)
    ensures ThreadsOk(s', g', a')
  {
    OthersKeep(s, g, a, t, s', g');
    assert ThreadOk(s', g', a'.phases[t], pc) by { Frame(s, g, s', g', a'.phases[t], pc); }
  }

  // ---- The steps that change more than a program counter ------------------------------

  /** Putting a step together: the shared part, the others, and the thread itself. */
  lemma Together<V>(s: State<V>, g: Ghost, a: Spec<V>, t: Tid, pc: Pc<V>, s': State<V>, g': Ghost, a': Spec<V>)
    requires |g.chain| > 0 && a.phases.Keys == s.threads.Keys && t in s.threads
    requires Shared(s', g', a')
    requires s'.threads == s.threads[t := pc]
    requires t in a'.phases && a'.phases == a.phases[t := a'.phases[t]]
    requires forall u :: u in s.threads && u != t ==> ThreadOk(s', g', a.phases[u], s.threads[u])
    requires ThreadOk(s', g', a'.phases[t], pc)
    ensures Simulates(s', g', a')
  {
    forall u | u in s'.threads ensures ThreadOk(s', g', a'.phases[u], s'.threads[u]) {
      if u != t { assert a'.phases[u] == a.phases[u]; }
    }
  }

  lemma TailMembers(xs: seq<nat>)
    requires |xs| > 0 && forall i, j :: 0 <= i < j < |xs| ==> xs[i] != xs[j]
    ensures forall x :: x in xs[1..] <==> x in xs && x != xs[0]
  {
    forall x | x in xs && x != xs[0] ensures x in xs[1..] {
      var i :| 0 <= i < |xs| && xs[i] == x;
      assert xs[1..][i - 1] == x;
    }
  }

  /** A step that does not touch the list or the values in it. */
  lemma ListSame<V>(s: State<V>, g: Ghost, a: Spec<V>, s': State<V>, g': Ghost, a': Spec<V>)
    requires ChainOk(s, g) && ContentOk(s, g, a)
    requires g'.chain == g.chain && g'.cells == g.cells && g'.lagging == g.lagging && g'.hollow == g.hollow
    requires s'.first == s.first && s'.last == s.last && a'.queue == a.queue
    requires forall n :: n in g.chain ==> n in s'.heap && s'.heap[n] == s.heap[n]
    requires forall b :: b in g.cells ==> b in s'.boxes && s'.boxes[b] == s.boxes[b]
    ensures ChainOk(s', g') && ContentOk(s', g', a')
  {
  }

  lemma ContentAppended<V>(s: State<V>, g: Ghost, a: Spec<V>, v: V, box: Box, node: Addr, s': State<V>, g': Ghost, a': Spec<V>)
    requires ContentOk(s, g, a) && NewNode(s, v, box, node) && s'.boxes == s.boxes
    requires g'.cells == g.cells + [box] && a'.queue == a.queue + [v]
    ensures ContentOk(s', g', a')
  {
  }

  lemma LinksAppended<V>(s: State<V>, g: Ghost, v: V, box: Box, node: Addr, s': State<V>, g': Ghost)
    requires ChainOk(s, g) && !g.lagging && NewNode(s, v, box, node) && node !in g.chain
    requires s'.heap == s.heap[s.last := s.heap[s.last].(next := Some(node))]
    requires g'.chain == g.chain + [node] && g'.cells == g.cells + [box] && g'.hollow == g.hollow
    ensures forall i :: 0 <= i < |g'.chain| ==> g'.chain[i] in s'.heap
    ensures forall i :: 0 <= i < |g'.cells| ==> s'.heap[g'.chain[i]].next == Some(g'.chain[i + 1])
    ensures s'.heap[g'.chain[|g'.cells|]].next == None && s'.heap[g'.chain[0]].value == None
    ensures forall i :: 0 < i < |g'.chain| ==>
              s'.heap[g'.chain[i]].value == if i == 1 && g'.hollow then None else Some(g'.cells[i - 1])
  {
    var n := |g.cells|;
    assert forall i :: 0 <= i < n ==> g'.chain[i] == g.chain[i] && g.chain[i] != g.chain[n];
    assert forall i :: 0 <= i <= n ==> g.chain[i] in g.chain;
  }

  lemma ListAppended<V>(s: State<V>, g: Ghost, a: Spec<V>, v: V, box: Box, node: Addr, s': State<V>, g': Ghost, a': Spec<V>)
    requires ChainOk(s, g) && ContentOk(s, g, a) && !g.lagging
    requires NewNode(s, v, box, node) && node !in g.chain && box !in g.cells
    requires s'.heap == s.heap[s.last := s.heap[s.last].(next := Some(node))] && s'.boxes == s.boxes
    requires s'.first == s.first
    requires g'.chain == g.chain + [node] && g'.cells == g.cells + [box] && g'.lagging && g'.hollow == g.hollow
    requires a'.queue == a.queue + [v]
    ensures ChainOk(s', g') && ContentOk(s', g', a')
  {
    LinksAppended(s, g, v, box, node, s', g');
    ContentAppended(s, g, a, v, box, node, s', g', a');
  }

  lemma ListCleared<V>(s: State<V>, g: Ghost, a: Spec<V>, succ: Addr, s': State<V>, g': Ghost, a': Spec<V>)
    requires ChainOk(s, g) && ContentOk(s, g, a) && |g.cells| > 0 && succ == g.chain[1]
    requires s'.heap == s.heap[succ := s.heap[succ].(value := None)] && s'.boxes == s.boxes
    requires s'.first == s.first && s'.last == s.last && g' == g.(hollow := true) && a'.queue == a.queue
    ensures ChainOk(s', g') && ContentOk(s', g', a')
  {
  }

  lemma ListAdvanced<V>(s: State<V>, g: Ghost, a: Spec<V>, s': State<V>, g': Ghost, a': Spec<V>)
    requires ChainOk(s, g) && ContentOk(s, g, a) && g.hollow && |g.cells| > 0
    requires s'.heap == s.heap && s'.boxes == s.boxes && s'.last == s.last && s'.first == g.chain[1]
    requires g'.chain == g.chain[1..] && g'.cells == g.cells[1..] && g'.lagging == g.lagging && !g'.hollow
    requires |a.queue| > 0 && a'.queue == a.queue[1..]
    ensures ChainOk(s', g') && ContentOk(s', g', a')
  {
  }

  lemma AllocBoxOwned<V>(s: State<V>, g: Ghost, t: Tid, pc: Pc<V>, s': State<V>, g': Ghost, v: V, place: Box)
    requires LocksOk(s, g) && NodesOwned(s, g) && BoxesOwned(s, g) && |g.chain| > 0 && t in s.threads && RoleOk(g, t, s.threads[t])
    requires s.threads[t] == Called(Push(v)) && place !in s.boxes
    requires pc == PushBoxed(v, place)
    requires s' == s.(boxes := s.boxes[place := v]).At(t, pc)
    requires g' == g.(boxOwner := g.boxOwner[place := Held(t)])
    ensures LocksOk(s', g') && NodesOwned(s', g') && BoxesOwned(s', g')
  {
    LocksStep(s, g, t, pc, s', g');
    NodesSame(s, g, t, pc, s', g');
    BoxesStep(s, g, t, pc, s', g', place);
  }

  lemma AllocBox<V>(s: State<V>, g: Ghost, a: Spec<V>, t: Tid, pc: Pc<V>, s': State<V>, g': Ghost, a': Spec<V>, v: V, place: Box)
    requires Shared(s, g, a) && ThreadsOk(s, g, a)
    requires t in s.threads && RoleOk(g, t, s.threads[t]) && ThreadOk(s, g, a.phases[t], s.threads[t])
    requires s.threads[t] == Called(Push(v)) && place !in s.boxes
    requires pc == PushBoxed(v, place)
    requires s' == s.(boxes := s.boxes[place := v]).At(t, pc)
    requires g' == g.(boxOwner := g.boxOwner[place := Held(t)])
    requires a' == a
    requires t in a'.phases && a'.phases == a.phases[t := a'.phases[t]]
    ensures Simulates(s', g', a')
  {
    ListSame(s, g, a, s', g', a');
    AllocBoxOwned(s, g, t, pc, s', g', v, place);
    OthersKeep(s, g, a, t, s', g');
    Together(s, g, a, t, pc, s', g', a');
  }

  lemma AllocNodeOwned<V>(s: State<V>, g: Ghost, t: Tid, pc: Pc<V>, s': State<V>, g': Ghost, v: V, box: Box, place: Addr)
    requires LocksOk(s, g) && NodesOwned(s, g) && BoxesOwned(s, g) && |g.chain| > 0 && t in s.threads && RoleOk(g, t, s.threads[t])
    requires s.threads[t] == PushBoxed(v, box) && place !in s.heap
    requires pc == PushMade(v, box, place)
    requires s' == s.(heap := s.heap[place := Node(Some(box), None)]).At(t, pc)
    requires g' == g.(nodeOwner := g.nodeOwner[place := Held(t)])
    ensures LocksOk(s', g') && NodesOwned(s', g') && BoxesOwned(s', g')
  {
    LocksStep(s, g, t, pc, s', g');
    NodesStep(s, g, t, pc, s', g', place);
    BoxesSame(s, g, t, pc, s', g');
  }

  lemma AllocNode<V>(s: State<V>, g: Ghost, a: Spec<V>, t: Tid, pc: Pc<V>, s': State<V>, g': Ghost, a': Spec<V>, v: V, box: Box, place: Addr)
    requires Shared(s, g, a) && ThreadsOk(s, g, a)
    requires t in s.threads && RoleOk(g, t, s.threads[t]) && ThreadOk(s, g, a.phases[t], s.threads[t])
    requires s.threads[t] == PushBoxed(v, box) && place !in s.heap
    requires pc == PushMade(v, box, place)
    requires s' == s.(heap := s.heap[place := Node(Some(box), None)]).At(t, pc)
    requires g' == g.(nodeOwner := g.nodeOwner[place := Held(t)])
    requires a' == a
    requires t in a'.phases && a'.phases == a.phases[t := a'.phases[t]]
    ensures Simulates(s', g', a')
  {
    assert NewNode(s', v, box, place);
    ListSame(s, g, a, s', g', a');
    AllocNodeOwned(s, g, t, pc, s', g', v, box, place);
    OthersKeep(s, g, a, t, s', g');
    Together(s, g, a, t, pc, s', g', a');
  }

  ghost predicate LinksNode<V>(s: State<V>, g: Ghost, t: Tid, pc: Pc<V>, s': State<V>, g': Ghost, v: V, box: Box, node: Addr) {
    && t in s.threads && RoleOk(g, t, s.threads[t])
    && s.threads[t] == PushRead(v, box, node, s.last) && pc == PushLinked(node)
    && s.last in s.heap && s' == s.(heap := s.heap[s.last := s.heap[s.last].(next := Some(node))]).At(t, pc)
    && g' == Appended(g, node, box)
  }

  lemma LinkNodeNodes<V>(s: State<V>, g: Ghost, t: Tid, pc: Pc<V>, s': State<V>, g': Ghost, v: V, box: Box, node: Addr)
    requires NodesOwned(s, g) && LinksNode(s, g, t, pc, s', g', v, box, node)
    ensures NodesOwned(s', g')
  {
    assert HeldNode(s.threads[t]) == Some(node);
    NodesStep(s, g, t, pc, s', g', node);
  }

  lemma LinkNodeBoxes<V>(s: State<V>, g: Ghost, t: Tid, pc: Pc<V>, s': State<V>, g': Ghost, v: V, box: Box, node: Addr)
    requires BoxesOwned(s, g) && LinksNode(s, g, t, pc, s', g', v, box, node)
    ensures BoxesOwned(s', g')
  {
    assert HeldBox(s.threads[t]) == Some(box);
    BoxesStep(s, g, t, pc, s', g', box);
  }

  lemma LinkNodeOthers<V>(s: State<V>, g: Ghost, a: Spec<V>, t: Tid, pc: Pc<V>, s': State<V>, g': Ghost, v: V, box: Box, node: Addr)
    requires LocksOk(s, g) && NodesOwned(s, g) && BoxesOwned(s, g) && |g.chain| > 0 && ThreadsOk(s, g, a)
    requires LinksNode(s, g, t, pc, s', g', v, box, node) && s.last in g.chain
    ensures forall u :: u in s.threads && u != t ==> ThreadOk(s', g', a.phases[u], s.threads[u])
  {
    OthersKeep(s, g, a, t, s', g');
  }

  lemma LinkNode<V>(s: State<V>, g: Ghost, a: Spec<V>, t: Tid, pc: Pc<V>, s': State<V>, g': Ghost, a': Spec<V>, v: V, box: Box, node: Addr)
    requires Shared(s, g, a) && ThreadsOk(s, g, a)
    requires LinksNode(s, g, t, pc, s', g', v, box, node) && NewNode(s, v, box, node)
    requires a'.queue == a.queue + [v]
    requires t in a'.phases && a'.phases == a.phases[t := a'.phases[t]]
    requires a'.phases[t] == Finished(Pushed)
    ensures Simulates(s', g', a')
  {
    assert HeldNode(s.threads[t]) == Some(node) && HeldBox(s.threads[t]) == Some(box);
    ListAppended(s, g, a, v, box, node, s', g', a');
    LocksStep(s, g, t, pc, s', g');
    LinkNodeNodes(s, g, t, pc, s', g', v, box, node);
    LinkNodeBoxes(s, g, t, pc, s', g', v, box, node);
    LinkNodeOthers(s, g, a, t, pc, s', g', v, box, node);
    Together(s, g, a, t, pc, s', g', a');
  }

  lemma MoveLastOwned<V>(s: State<V>, g: Ghost, t: Tid, pc: Pc<V>, s': State<V>, g': Ghost, node: Addr)
    requires LocksOk(s, g) && NodesOwned(s, g) && BoxesOwned(s, g) && |g.chain| > 0 && t in s.threads && RoleOk(g, t, s.threads[t])
    requires s.threads[t] == PushLinked(node) && node == g.chain[|g.chain| - 1]
    requires pc == PushMoved
    requires s' == s.(last := node).At(t, pc)
    requires g' == g.(lagging := false)
    ensures LocksOk(s', g') && NodesOwned(s', g') && BoxesOwned(s', g')
  {
    LocksStep(s, g, t, pc, s', g');
    NodesSame(s, g, t, pc, s', g');
    BoxesSame(s, g, t, pc, s', g');
  }

  lemma MoveLast<V>(s: State<V>, g: Ghost, a: Spec<V>, t: Tid, pc: Pc<V>, s': State<V>, g': Ghost, a': Spec<V>, node: Addr)
    requires Shared(s, g, a) && ThreadsOk(s, g, a)
    requires t in s.threads && RoleOk(g, t, s.threads[t]) && ThreadOk(s, g, a.phases[t], s.threads[t])
    requires s.threads[t] == PushLinked(node) && node == g.chain[|g.chain| - 1]
    requires pc == PushMoved
    requires s' == s.(last := node).At(t, pc)
    requires g' == g.(lagging := false)
    requires a' == a
    requires t in a'.phases && a'.phases == a.phases[t := a'.phases[t]]
    ensures Simulates(s', g', a')
  {
    MoveLastOwned(s, g, t, pc, s', g', node);
    OthersKeep(s, g, a, t, s', g');
    Together(s, g, a, t, pc, s', g', a');
  }

  lemma ClearNodeOwned<V>(s: State<V>, g: Ghost, t: Tid, pc: Pc<V>, s': State<V>, g': Ghost, succ: Addr)
    requires LocksOk(s, g) && NodesOwned(s, g) && BoxesOwned(s, g) && |g.chain| > 0 && t in s.threads && RoleOk(g, t, s.threads[t])
    requires |g.cells| > 0 && s.threads[t] == PopTaken(s.first, succ, Some(g.cells[0])) && |g.chain| > 1 && succ == g.chain[1]
    requires pc == PopCleared(s.first, succ, Some(g.cells[0]))
    requires succ in s.heap && s' == s.(heap := s.heap[succ := s.heap[succ].(value := None)]).At(t, pc)
    requires g' == g.(hollow := true)
    ensures LocksOk(s', g') && NodesOwned(s', g') && BoxesOwned(s', g')
  {
    LocksStep(s, g, t, pc, s', g');
    NodesSame(s, g, t, pc, s', g');
    BoxesSame(s, g, t, pc, s', g');
  }

  lemma ClearNode<V>(s: State<V>, g: Ghost, a: Spec<V>, t: Tid, pc: Pc<V>, s': State<V>, g': Ghost, a': Spec<V>, succ: Addr)
    requires Shared(s, g, a) && ThreadsOk(s, g, a)
    requires t in s.threads && RoleOk(g, t, s.threads[t]) && ThreadOk(s, g, a.phases[t], s.threads[t])
    requires |g.cells| > 0 && s.threads[t] == PopTaken(s.first, succ, Some(g.cells[0])) && |g.chain| > 1 && succ == g.chain[1]
    requires pc == PopCleared(s.first, succ, Some(g.cells[0]))
    requires succ in s.heap && s' == s.(heap := s.heap[succ := s.heap[succ].(value := None)]).At(t, pc)
    requires g' == g.(hollow := true)
    requires a' == a
    requires t in a'.phases && a'.phases == a.phases[t := a'.phases[t]]
    ensures Simulates(s', g', a')
  {
    ListCleared(s, g, a, succ, s', g', a');
    ClearNodeOwned(s, g, t, pc, s', g', succ);
    OthersKeep(s, g, a, t, s', g');
    Together(s, g, a, t, pc, s', g', a');
  }

  ghost predicate MovesFirst<V>(s: State<V>, g: Ghost, t: Tid, pc: Pc<V>, s': State<V>, g': Ghost, succ: Addr) {
    && t in s.threads && RoleOk(g, t, s.threads[t])
    && |g.cells| > 0 && |g.chain| > 1 && s.first == g.chain[0] && succ == g.chain[1]
    && s.threads[t] == PopCleared(s.first, succ, Some(g.cells[0])) && pc == PopMoved(s.first, Some(g.cells[0]))
    && s' == s.(first := succ).At(t, pc)
    && g' == Advanced(g, t, s.first)
  }

  lemma MoveFirstNodes<V>(s: State<V>, g: Ghost, t: Tid, pc: Pc<V>, s': State<V>, g': Ghost, succ: Addr)
    requires NodesOwned(s, g) && MovesFirst(s, g, t, pc, s', g', succ)
    requires forall i, j :: 0 <= i < j < |g.chain| ==> g.chain[i] != g.chain[j]
    ensures NodesOwned(s', g')
  {
    TailMembers(g.chain);
    NodesStep(s, g, t, pc, s', g', s.first);
  }

  lemma MoveFirstBoxes<V>(s: State<V>, g: Ghost, t: Tid, pc: Pc<V>, s': State<V>, g': Ghost, succ: Addr)
    requires BoxesOwned(s, g) && MovesFirst(s, g, t, pc, s', g', succ)
    requires forall i, j :: 0 <= i < j < |g.cells| ==> g.cells[i] != g.cells[j]
    ensures BoxesOwned(s', g')
  {
    TailMembers(g.cells);
    BoxesStep(s, g, t, pc, s', g', g.cells[0]);
  }

  lemma MoveFirst<V>(s: State<V>, g: Ghost, a: Spec<V>, t: Tid, pc: Pc<V>, s': State<V>, g': Ghost, a': Spec<V>, succ: Addr)
    requires Shared(s, g, a) && ThreadsOk(s, g, a)
    requires MovesFirst(s, g, t, pc, s', g', succ)
    requires |a.queue| > 0 && a'.queue == a.queue[1..]
    requires t in a'.phases && a'.phases == a.phases[t := a'.phases[t]]
    requires |a.queue| > 0 && a'.phases[t] == Finished(Popped(Some(a.queue[0])))
    ensures Simulates(s', g', a')
  {
    ListAdvanced(s, g, a, s', g', a');
    LocksStep(s, g, t, pc, s', g');
    MoveFirstNodes(s, g, t, pc, s', g', succ);
    MoveFirstBoxes(s, g, t, pc, s', g', succ);
    OthersKeep(s, g, a, t, s', g');
    Together(s, g, a, t, pc, s', g', a');
  }

  lemma FreeBoxOwned<V>(s: State<V>, g: Ghost, t: Tid, pc: Pc<V>, s': State<V>, g': Ghost, first: Addr, box: Box, v: V)
    requires LocksOk(s, g) && NodesOwned(s, g) && BoxesOwned(s, g) && |g.chain| > 0 && t in s.threads && RoleOk(g, t, s.threads[t])
    requires s.threads[t] == PopCopied(first, Some(box), v)
    requires pc == PopDeleted(first, v)
    requires s' == s.(boxes := s.boxes - {box}).At(t, pc)
    requires g' == g.(boxOwner := g.boxOwner - {box})
    ensures LocksOk(s', g') && NodesOwned(s', g') && BoxesOwned(s', g')
  {
    assert HeldBox(s.threads[t]) == Some(box);
    LocksStep(s, g, t, pc, s', g');
    NodesSame(s, g, t, pc, s', g');
    BoxesStep(s, g, t, pc, s', g', box);
  }

  lemma FreeBox<V>(s: State<V>, g: Ghost, a: Spec<V>, t: Tid, pc: Pc<V>, s': State<V>, g': Ghost, a': Spec<V>, first: Addr, box: Box, v: V)
    requires Shared(s, g, a) && ThreadsOk(s, g, a)
    requires t in s.threads && RoleOk(g, t, s.threads[t]) && ThreadOk(s, g, a.phases[t], s.threads[t])
    requires s.threads[t] == PopCopied(first, Some(box), v)
    requires pc == PopDeleted(first, v)
    requires s' == s.(boxes := s.boxes - {box}).At(t, pc)
    requires g' == g.(boxOwner := g.boxOwner - {box})
    requires a' == a
    requires t in a'.phases && a'.phases == a.phases[t := a'.phases[t]]
    ensures Simulates(s', g', a')
  {
    assert HeldBox(s.threads[t]) == Some(box);
    ListSame(s, g, a, s', g', a');
    FreeBoxOwned(s, g, t, pc, s', g', first, box, v);
    OthersKeep(s, g, a, t, s', g');
    Together(s, g, a, t, pc, s', g', a');
  }

  lemma FreeNodeOwned<V>(s: State<V>, g: Ghost, t: Tid, pc: Pc<V>, s': State<V>, g': Ghost, first: Addr, v: V)
    requires LocksOk(s, g) && NodesOwned(s, g) && BoxesOwned(s, g) && |g.chain| > 0 && t in s.threads && RoleOk(g, t, s.threads[t])
    requires s.threads[t] == PopDeleted(first, v)
    requires pc == Returning(Popped(Some(v)))
    requires s' == s.(heap := s.heap - {first}).At(t, pc)
    requires g' == g.(nodeOwner := g.nodeOwner - {first})
    ensures LocksOk(s', g') && NodesOwned(s', g') && BoxesOwned(s', g')
  {
    assert HeldNode(s.threads[t]) == Some(first);
    LocksStep(s, g, t, pc, s', g');
    NodesStep(s, g, t, pc, s', g', first);
    BoxesSame(s, g, t, pc, s', g');
  }

  lemma FreeNode<V>(s: State<V>, g: Ghost, a: Spec<V>, t: Tid, pc: Pc<V>, s': State<V>, g': Ghost, a': Spec<V>, first: Addr, v: V)
    requires Shared(s, g, a) && ThreadsOk(s, g, a)
    requires t in s.threads && RoleOk(g, t, s.threads[t]) && ThreadOk(s, g, a.phases[t], s.threads[t])
    requires s.threads[t] == PopDeleted(first, v)
    requires pc == Returning(Popped(Some(v)))
    requires s' == s.(heap := s.heap - {first}).At(t, pc)
    requires g' == g.(nodeOwner := g.nodeOwner - {first})
    requires a' == a
    requires t in a'.phases && a'.phases == a.phases[t := a'.phases[t]]
    ensures Simulates(s', g', a')
  {
    assert HeldNode(s.threads[t]) == Some(first);
    ListSame(s, g, a, s', g', a');
    FreeNodeOwned(s, g, t, pc, s', g', first, v);
    OthersKeep(s, g, a, t, s', g');
    Together(s, g, a, t, pc, s', g', a');
  }

  lemma OnlyPc<V>(s: State<V>, g: Ghost, a: Spec<V>, t: Tid, pc: Pc<V>, s': State<V>, g': Ghost, a': Spec<V>)
    requires Shared(s, g, a) && ThreadsOk(s, g, a) && LockStep(s, g, t, pc, g'.producer, g'.consumer)
    requires s' == s.(producerLock := g'.producer.Some?, consumerLock := g'.consumer.Some?).At(t, pc)
    requires g' == g.(producer := g'.producer, consumer := g'.consumer)
    requires t in a'.phases && a'.phases == a.phases[t := a'.phases[t]] && a'.queue == a.queue
    requires ThreadOk(s, g, a'.phases[t], pc)
    ensures Simulates(s', g', a')
  {
    OnlyPcShared(s, g, a, t, pc, s', g', a');
    OnlyPcThreads(s, g, a, t, pc, s', g', a');
  }

  /** A step inside a section that only reads. */
  lemma OnlyReads<V>(s: State<V>, g: Ghost, a: Spec<V>, t: Tid, pc: Pc<V>)
    requires Shared(s, g, a) && ThreadsOk(s, g, a) && t in s.threads
    requires RoleOk(g, t, pc) && ThreadOk(s, g, a.phases[t], pc)
    requires HeldNode(pc) == HeldNode(s.threads[t]) && HeldBox(pc) == HeldBox(s.threads[t])
    ensures Simulates(s.At(t, pc), g, a)
  {
    assert a.phases == a.phases[t := a.phases[t]];
    assert s.At(t, pc) == s.(producerLock := g.producer.Some?, consumerLock := g.consumer.Some?).At(t, pc);
    OnlyPc(s, g, a, t, pc, s.At(t, pc), g, a);
  }

  /** A step that only changes the thread's phase in the atomic queue. */
  lemma OnlyPhase<V>(s: State<V>, g: Ghost, a: Spec<V>, t: Tid, pc: Pc<V>, phase: Phase<V>)
    requires Shared(s, g, a) && ThreadsOk(s, g, a) && t in s.threads
    requires RoleOk(g, t, pc) && ThreadOk(s, g, phase, pc)
    requires HeldNode(pc) == HeldNode(s.threads[t]) && HeldBox(pc) == HeldBox(s.threads[t])
    ensures Simulates(s.At(t, pc), g, a.(phases := a.phases[t := phase]))
  {
    assert s.At(t, pc) == s.(producerLock := g.producer.Some?, consumerLock := g.consumer.Some?).At(t, pc);
    OnlyPc(s, g, a, t, pc, s.At(t, pc), g, a.(phases := a.phases[t := phase]));
  }

  /** A consumer releases its lock. */
  lemma Releases<V>(s: State<V>, g: Ghost, a: Spec<V>, t: Tid, pc: Pc<V>)
    requires Shared(s, g, a) && ThreadsOk(s, g, a) && t in s.threads && g.consumer == Some(t) && !g.hollow
    requires RoleOk(g.(consumer := None), t, pc) && ThreadOk(s, g, a.phases[t], pc)
    requires HeldNode(pc) == HeldNode(s.threads[t]) && HeldBox(pc) == HeldBox(s.threads[t])
    ensures Simulates(s.(consumerLock := false).At(t, pc), g.(consumer := None), a)
  {
    var s' := s.(consumerLock := false).At(t, pc);
    assert a.phases == a.phases[t := a.phases[t]];
    assert s' == s.(producerLock := g.producer.Some?, consumerLock := false).At(t, pc);
    OnlyPc(s, g, a, t, pc, s', g.(consumer := None), a);
  }

  /** The link a reader finds in the node at position k. */
  lemma LinkAt<V>(s: State<V>, g: Ghost, k: nat)
    requires ChainOk(s, g) && k < |g.chain|
    ensures g.chain[k] in s.heap
    ensures s.heap[g.chain[k]].next == if k < |g.cells| then Some(g.chain[k + 1]) else None
  {
  }

  // ---- Every step is matched by the atomic queue --------------------------------------

  /** A call takes effect only while it is pending, and an observer of the step sees what
      the atomic queue would show. */
  lemma SpecMatched<V>(s: State<V>, g: Ghost, a: Spec<V>, step: Step<V>)
    requires Enabled(s, step) && |g.chain| > 0 && |g.chain| == |g.cells| + 1
    requires step.t in a.phases && ThreadOk(s, g, a.phases[step.t], s.threads[step.t])
    ensures Commits(s, step) ==> a.phases[step.t].Pending?
    ensures step.action.Tick? && s.threads[step.t].PopCleared? ==> |g.cells| > 0
    ensures SpecStep(a, step.t, EventOf(s, step), NextSpec(s, a, step))
  {
  }

  ghost predicate Before<V>(s: State<V>, g: Ghost, a: Spec<V>, step: Step<V>) {
    && Simulates(s, g, a) && Enabled(s, step)
    && RoleOk(g, step.t, s.threads[step.t]) && ThreadOk(s, g, a.phases[step.t], s.threads[step.t])
    && (Commits(s, step) ==> a.phases[step.t].Pending?)
    && (step.action.Tick? && s.threads[step.t].PopCleared? ==> |g.cells| > 0)
  }

  /** The bookkeeping still holds after the step. */
  ghost predicate Matched<V>(s: State<V>, g: Ghost, a: Spec<V>, step: Step<V>)
    requires Before(s, g, a, step)
  {
    Simulates(Next(s, step), NextGhost(s, g, step), NextSpec(s, a, step))
  }

  lemma BeginMatched<V>(s: State<V>, g: Ghost, a: Spec<V>, step: Step<V>)
    requires Before(s, g, a, step)
    requires !step.action.Tick?
    ensures Matched(s, g, a, step)
  {
    var call := step.action.call;
    OnlyPhase(s, g, a, step.t, Called(call), Pending(call));
  }

  lemma CallPushMatched<V>(s: State<V>, g: Ghost, a: Spec<V>, step: Step<V>)
    requires Before(s, g, a, step)
    requires step.action.Tick? && s.threads[step.t].Called? && s.threads[step.t].call.Push?
    ensures Matched(s, g, a, step)
  {
    var t, s', g', a' := step.t, Next(s, step), NextGhost(s, g, step), NextSpec(s, a, step);
    var pc := s'.threads[t];
    AllocBox(s, g, a, t, pc, s', g', a', s.threads[t].call.v, step.action.place);
  }

  lemma CallOtherMatched<V>(s: State<V>, g: Ghost, a: Spec<V>, step: Step<V>)
    requires Before(s, g, a, step)
    requires step.action.Tick? && s.threads[step.t].Called? && !s.threads[step.t].call.Push?
    ensures Matched(s, g, a, step)
  {
    var t, s', g', a' := step.t, Next(s, step), NextGhost(s, g, step), NextSpec(s, a, step);
    var pc := s'.threads[t];
    if !s.consumerLock { OnlyPc(s, g, a, t, pc, s', g', a'); }
  }

  lemma ReturningMatched<V>(s: State<V>, g: Ghost, a: Spec<V>, step: Step<V>)
    requires Before(s, g, a, step)
    requires step.action.Tick? && s.threads[step.t].Returning?
    ensures Matched(s, g, a, step)
  {
    OnlyPhase(s, g, a, step.t, Idle, Phase.Ready);
  }

  lemma PushBoxedMatched<V>(s: State<V>, g: Ghost, a: Spec<V>, step: Step<V>)
    requires Before(s, g, a, step)
    requires step.action.Tick? && s.threads[step.t].PushBoxed?
    ensures Matched(s, g, a, step)
  {
    var t, s', g', a' := step.t, Next(s, step), NextGhost(s, g, step), NextSpec(s, a, step);
    var pc := s'.threads[t];
    AllocNode(s, g, a, t, pc, s', g', a', s.threads[t].v, s.threads[t].box, step.action.place);
  }

  lemma PushMadeMatched<V>(s: State<V>, g: Ghost, a: Spec<V>, step: Step<V>)
    requires Before(s, g, a, step)
    requires step.action.Tick? && s.threads[step.t].PushMade?
    ensures Matched(s, g, a, step)
  {
    var t, s', g', a' := step.t, Next(s, step), NextGhost(s, g, step), NextSpec(s, a, step);
    var pc := s'.threads[t];
    if !s.producerLock { OnlyPc(s, g, a, t, pc, s', g', a'); }
  }

  lemma PushLockedMatched<V>(s: State<V>, g: Ghost, a: Spec<V>, step: Step<V>)
    requires Before(s, g, a, step)
    requires step.action.Tick? && s.threads[step.t].PushLocked?
    ensures Matched(s, g, a, step)
  {
    var t, s', g', a' := step.t, Next(s, step), NextGhost(s, g, step), NextSpec(s, a, step);
    var pc := s'.threads[t];
    OnlyReads(s, g, a, t, pc);
  }

  lemma PushReadMatched<V>(s: State<V>, g: Ghost, a: Spec<V>, step: Step<V>)
    requires Before(s, g, a, step)
    requires step.action.Tick? && s.threads[step.t].PushRead?
    ensures Matched(s, g, a, step)
  {
    var t, s', g', a' := step.t, Next(s, step), NextGhost(s, g, step), NextSpec(s, a, step);
    var pc := s'.threads[t];
    assert a' == Commit(a, t) && s.last in s.heap;
    LinkNode(s, g, a, t, pc, s', g', a', s.threads[t].v, s.threads[t].box, s.threads[t].node);
  }

  lemma PushLinkedMatched<V>(s: State<V>, g: Ghost, a: Spec<V>, step: Step<V>)
    requires Before(s, g, a, step)
    requires step.action.Tick? && s.threads[step.t].PushLinked?
    ensures Matched(s, g, a, step)
  {
    var t, s', g', a' := step.t, Next(s, step), NextGhost(s, g, step), NextSpec(s, a, step);
    var pc := s'.threads[t];
    MoveLast(s, g, a, t, pc, s', g', a', s.threads[t].node);
  }

  lemma PushMovedMatched<V>(s: State<V>, g: Ghost, a: Spec<V>, step: Step<V>)
    requires Before(s, g, a, step)
    requires step.action.Tick? && s.threads[step.t].PushMoved?
    ensures Matched(s, g, a, step)
  {
    var t, s', g', a' := step.t, Next(s, step), NextGhost(s, g, step), NextSpec(s, a, step);
    var pc := s'.threads[t];
    OnlyPc(s, g, a, t, pc, s', g', a');
  }

  lemma LockedPopMatched<V>(s: State<V>, g: Ghost, a: Spec<V>, step: Step<V>)
    requires Before(s, g, a, step)
    requires step.action.Tick? && s.threads[step.t] == Locked(Pop)
    ensures Matched(s, g, a, step)
  {
    var t, s', g', a' := step.t, Next(s, step), NextGhost(s, g, step), NextSpec(s, a, step);
    var pc := s'.threads[t];
    LinkAt(s, g, 0);
    assert pc == PopFirst(s.first) && a' == a;
    OnlyReads(s, g, a, t, pc);
  }

  lemma LockedEmptyMatched<V>(s: State<V>, g: Ghost, a: Spec<V>, step: Step<V>)
    requires Before(s, g, a, step)
    requires step.action.Tick? && s.threads[step.t] == Locked(Empty)
    ensures Matched(s, g, a, step)
  {
    LinkAt(s, g, 0);
    var outcome := Emptied(a.queue == []);
    assert NextSpec(s, a, step) == a.(phases := a.phases[step.t := Finished(outcome)]);
    OnlyPhase(s, g, a, step.t, Answered(outcome), Finished(outcome));
  }

  lemma LockedSizeNullMatched<V>(s: State<V>, g: Ghost, a: Spec<V>, step: Step<V>)
    requires Before(s, g, a, step)
    requires step.action.Tick? && s.threads[step.t] == Locked(Size) && |g.cells| == 0
    ensures Matched(s, g, a, step)
  {
    LinkAt(s, g, 0);
    assert NextSpec(s, a, step) == a.(phases := a.phases[step.t := Finished(Sized(0))]);
    OnlyPhase(s, g, a, step.t, Answered(Sized(0)), Finished(Sized(0)));
  }

  lemma LockedSizeOnMatched<V>(s: State<V>, g: Ghost, a: Spec<V>, step: Step<V>)
    requires Before(s, g, a, step)
    requires step.action.Tick? && s.threads[step.t] == Locked(Size) && |g.cells| > 0
    ensures Matched(s, g, a, step)
  {
    LinkAt(s, g, 0);
    OnlyReads(s, g, a, step.t, SizeWalk(g.chain[1], 0));
  }

  lemma PopFirstNullMatched<V>(s: State<V>, g: Ghost, a: Spec<V>, step: Step<V>)
    requires Before(s, g, a, step)
    requires step.action.Tick? && s.threads[step.t].PopFirst? && |g.cells| == 0
    ensures Matched(s, g, a, step)
  {
    LinkAt(s, g, 0);
    assert NextSpec(s, a, step) == a.(phases := a.phases[step.t := Finished(Popped(None))]);
    OnlyPhase(s, g, a, step.t, Answered(Popped(None)), Finished(Popped(None)));
  }

  lemma PopFirstOnMatched<V>(s: State<V>, g: Ghost, a: Spec<V>, step: Step<V>)
    requires Before(s, g, a, step)
    requires step.action.Tick? && s.threads[step.t].PopFirst? && |g.cells| > 0
    ensures Matched(s, g, a, step)
  {
    LinkAt(s, g, 0);
    OnlyReads(s, g, a, step.t, PopNext(s.first, g.chain[1]));
  }

  lemma PopNextMatched<V>(s: State<V>, g: Ghost, a: Spec<V>, step: Step<V>)
    requires Before(s, g, a, step)
    requires step.action.Tick? && s.threads[step.t].PopNext?
    ensures Matched(s, g, a, step)
  {
    var t, s', g', a' := step.t, Next(s, step), NextGhost(s, g, step), NextSpec(s, a, step);
    var pc := s'.threads[t];
    assert s.heap[g.chain[1]].value == Some(g.cells[0]);
    OnlyReads(s, g, a, t, pc);
  }

  lemma PopTakenMatched<V>(s: State<V>, g: Ghost, a: Spec<V>, step: Step<V>)
    requires Before(s, g, a, step)
    requires step.action.Tick? && s.threads[step.t].PopTaken?
    ensures Matched(s, g, a, step)
  {
    var t, s', g', a' := step.t, Next(s, step), NextGhost(s, g, step), NextSpec(s, a, step);
    var pc := s'.threads[t];
    ClearNode(s, g, a, t, pc, s', g', a', s.threads[t].succ);
  }

  lemma PopClearedMatched<V>(s: State<V>, g: Ghost, a: Spec<V>, step: Step<V>)
    requires Before(s, g, a, step)
    requires step.action.Tick? && s.threads[step.t].PopCleared?
    ensures Matched(s, g, a, step)
  {
    var t, s', g', a' := step.t, Next(s, step), NextGhost(s, g, step), NextSpec(s, a, step);
    var pc := s'.threads[t];
    assert a' == Commit(a, t) && |a.queue| > 0;
    MoveFirst(s, g, a, t, pc, s', g', a', s.threads[t].succ);
  }

  lemma PopMovedMatched<V>(s: State<V>, g: Ghost, a: Spec<V>, step: Step<V>)
    requires Before(s, g, a, step)
    requires step.action.Tick? && s.threads[step.t].PopMoved?
    ensures Matched(s, g, a, step)
  {
    var pc := s.threads[step.t];
    Releases(s, g, a, step.t, PopUnlocked(pc.first, pc.taken));
  }

  lemma SizeGoesOnMatched<V>(s: State<V>, g: Ghost, a: Spec<V>, step: Step<V>)
    requires Before(s, g, a, step)
    requires step.action.Tick? && s.threads[step.t].SizeWalk? && s.threads[step.t].count + 1 < |g.cells|
    ensures Matched(s, g, a, step)
  {
    var t, s', g', a' := step.t, Next(s, step), NextGhost(s, g, step), NextSpec(s, a, step);
    var pc, k := s'.threads[t], s.threads[t].count + 1;
    SizeGoesOn(s, g, a, step);
    OnlyReads(s, g, a, t, pc);
  }

  lemma SizeGoesOn<V>(s: State<V>, g: Ghost, a: Spec<V>, step: Step<V>)
    requires Before(s, g, a, step)
    requires step.action.Tick? && s.threads[step.t].SizeWalk? && s.threads[step.t].count + 1 < |g.cells|
    ensures var k := s.threads[step.t].count + 1;
      && k + 1 < |g.chain|
      && Next(s, step) == s.At(step.t, SizeWalk(g.chain[k + 1], k))
      && NextGhost(s, g, step) == g && NextSpec(s, a, step) == a
  {
    LinkAt(s, g, s.threads[step.t].count + 1);
  }

  lemma SizeEndsMatched<V>(s: State<V>, g: Ghost, a: Spec<V>, step: Step<V>)
    requires Before(s, g, a, step)
    requires step.action.Tick? && s.threads[step.t].SizeWalk? && s.threads[step.t].count + 1 == |g.cells|
    ensures Matched(s, g, a, step)
  {
    LinkAt(s, g, s.threads[step.t].count + 1);
    var outcome := Sized(|a.queue|);
    assert NextSpec(s, a, step) == a.(phases := a.phases[step.t := Finished(outcome)]);
    OnlyPhase(s, g, a, step.t, Answered(outcome), Finished(outcome));
  }

  lemma AnsweredMatched<V>(s: State<V>, g: Ghost, a: Spec<V>, step: Step<V>)
    requires Before(s, g, a, step)
    requires step.action.Tick? && s.threads[step.t].Answered?
    ensures Matched(s, g, a, step)
  {
    Releases(s, g, a, step.t, Returning(s.threads[step.t].outcome));
  }

  lemma PopUnlockedMatched<V>(s: State<V>, g: Ghost, a: Spec<V>, step: Step<V>)
    requires Before(s, g, a, step)
    requires step.action.Tick? && s.threads[step.t].PopUnlocked?
    ensures Matched(s, g, a, step)
  {
    var pc := s.threads[step.t];
    var v := s.boxes[pc.taken.value];
    assert a.phases[step.t] == Finished(Popped(Some(v)));
    CopiesValue(s, g, a, step);
    OnlyReads(s, g, a, step.t, PopCopied(pc.first, pc.taken, v));
  }

  lemma CopiesValue<V>(s: State<V>, g: Ghost, a: Spec<V>, step: Step<V>)
    requires Enabled(s, step) && step.action.Tick? && s.threads[step.t].PopUnlocked?
    requires step.t in a.phases && |g.chain| == |g.cells| + 1
    requires Taken(s, s.threads[step.t].first, s.threads[step.t].taken, a.phases[step.t])
    ensures var pc := s.threads[step.t];
      && Next(s, step) == s.At(step.t, PopCopied(pc.first, pc.taken, s.boxes[pc.taken.value]))
      && NextGhost(s, g, step) == g && NextSpec(s, a, step) == a
  {
  }

  lemma PopCopiedMatched<V>(s: State<V>, g: Ghost, a: Spec<V>, step: Step<V>)
    requires Before(s, g, a, step)
    requires step.action.Tick? && s.threads[step.t].PopCopied?
    ensures Matched(s, g, a, step)
  {
    var t, s', g', a' := step.t, Next(s, step), NextGhost(s, g, step), NextSpec(s, a, step);
    var pc := s'.threads[t];
    assert a' == a && g' == g.(boxOwner := g.boxOwner - {s.threads[t].taken.value});
    FreeBox(s, g, a, t, pc, s', g', a', s.threads[t].first, s.threads[t].taken.value, s.threads[t].v);
  }

  lemma PopDeletedMatched<V>(s: State<V>, g: Ghost, a: Spec<V>, step: Step<V>)
    requires Before(s, g, a, step)
    requires step.action.Tick? && s.threads[step.t].PopDeleted?
    ensures Matched(s, g, a, step)
  {
    var t, s', g', a' := step.t, Next(s, step), NextGhost(s, g, step), NextSpec(s, a, step);
    var pc := s'.threads[t];
    FreeNode(s, g, a, t, pc, s', g', a', s.threads[t].first, s.threads[t].v);
  }

  lemma ConsumerSectionMatched<V>(s: State<V>, g: Ghost, a: Spec<V>, step: Step<V>)
    requires Before(s, g, a, step) && step.action.Tick? && InConsumerSection(s.threads[step.t])
    ensures Matched(s, g, a, step)
  {
    match s.threads[step.t]
    case Locked(Pop) => LockedPopMatched(s, g, a, step);
    case Locked(Empty) => LockedEmptyMatched(s, g, a, step);
    case Locked(Size) =>
      if |g.cells| == 0 { LockedSizeNullMatched(s, g, a, step); } else { LockedSizeOnMatched(s, g, a, step); }
    case PopFirst(_) =>
      if |g.cells| == 0 { PopFirstNullMatched(s, g, a, step); } else { PopFirstOnMatched(s, g, a, step); }
    case PopNext(_, _) => PopNextMatched(s, g, a, step);
    case PopTaken(_, _, _) => PopTakenMatched(s, g, a, step);
    case PopCleared(_, _, _) => PopClearedMatched(s, g, a, step);
    case PopMoved(_, _) => PopMovedMatched(s, g, a, step);
    case SizeWalk(_, count) =>
      if count + 1 < |g.cells| { SizeGoesOnMatched(s, g, a, step); } else { SizeEndsMatched(s, g, a, step); }
    case Answered(_) => AnsweredMatched(s, g, a, step);
  }

  lemma ProducerSectionMatched<V>(s: State<V>, g: Ghost, a: Spec<V>, step: Step<V>)
    requires Before(s, g, a, step) && step.action.Tick? && InProducerSection(s.threads[step.t])
    ensures Matched(s, g, a, step)
  {
    match s.threads[step.t]
    case PushLocked(_, _, _) => PushLockedMatched(s, g, a, step);
    case PushRead(_, _, _, _) => PushReadMatched(s, g, a, step);
    case PushLinked(_) => PushLinkedMatched(s, g, a, step);
    case PushMoved => PushMovedMatched(s, g, a, step);
  }

  lemma OutsideMatched<V>(s: State<V>, g: Ghost, a: Spec<V>, step: Step<V>)
    requires Before(s, g, a, step) && step.action.Tick?
    requires var pc := s.threads[step.t]; !InProducerSection(pc) && !InConsumerSection(pc)
    ensures Matched(s, g, a, step)
  {
    match s.threads[step.t]
    case Called(Push(_)) => CallPushMatched(s, g, a, step);
    case Called(_) => CallOtherMatched(s, g, a, step);
    case PushBoxed(_, _) => PushBoxedMatched(s, g, a, step);
    case PushMade(_, _, _) => PushMadeMatched(s, g, a, step);
    case PopUnlocked(_, _) => PopUnlockedMatched(s, g, a, step);
    case PopCopied(_, _, _) => PopCopiedMatched(s, g, a, step);
    case PopDeleted(_, _) => PopDeletedMatched(s, g, a, step);
    case Returning(_) => ReturningMatched(s, g, a, step);
  }

  /** The simulation: whatever step any thread takes, the atomic queue can take a matching
      one with the same visible event, and no step faults. */
  lemma StepSimulates<V>(s: State<V>, g: Ghost, a: Spec<V>, step: Step<V>)
    requires Simulates(s, g, a) && Enabled(s, step)
    ensures Commits(s, step) ==> a.phases[step.t].Pending?
    ensures step.action.Tick? && s.threads[step.t].PopCleared? ==> |g.cells| > 0
    ensures SpecStep(a, step.t, EventOf(s, step), NextSpec(s, a, step))
    ensures Simulates(Next(s, step), NextGhost(s, g, step), NextSpec(s, a, step))
  {
    var pc := s.threads[step.t];
    assert RoleOk(g, step.t, pc) && ThreadOk(s, g, a.phases[step.t], pc);
    SpecMatched(s, g, a, step);
    if !step.action.Tick? { BeginMatched(s, g, a, step); return; }
    if InProducerSection(pc) { ProducerSectionMatched(s, g, a, step); }
    else if InConsumerSection(pc) { ConsumerSectionMatched(s, g, a, step); }
    else { OutsideMatched(s, g, a, step); }
  }
}
