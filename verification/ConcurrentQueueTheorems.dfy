/** What every run of the two-lock queue guarantees, for any number of threads, any
    interleaving and any choice of addresses by the allocator. */
module QueueTheorems {
  import opened Wrappers
  import opened AtomicQueue
  import opened QueueMachine
  import opened QueueInvariant

  /** Before the first call. */
  function Start<V>(tids: set<Tid>): Spec<V> {
    Spec([], [], [], map t | t in tids :: Ready)
  }

  function StartGhost(sentinel: Addr): Ghost {
    Ghost([sentinel], [], None, false, None, false, map[sentinel := Linked], map[])
  }

  lemma InitialSimulates<V>(sentinel: Addr, tids: set<Tid>)
    ensures Simulates(Initial<V>(sentinel, tids), StartGhost(sentinel), Start<V>(tids))
  {
    var s, g, a := Initial<V>(sentinel, tids), StartGhost(sentinel), Start<V>(tids);
    forall t | t in s.threads ensures ThreadOk(s, g, a.phases[t], s.threads[t]) && RoleOk(g, t, s.threads[t]) {
    }
  }

  /** What an observer of a whole run sees. */
  function Events<V>(s: State<V>, schedule: seq<Step<V>>): (events: seq<(Tid, Event<V>)>)
    requires Feasible(s, schedule)
    ensures |events| == |schedule|
    decreases |schedule|
  {
    if schedule == [] then [] else
    [(schedule[0].t, EventOf(s, schedule[0]))] + Events(Next(s, schedule[0]), schedule[1..])
  }

  /** The atomic queue can show these events, one after the other, and end in a'. */
  ghost predicate SpecRun<V(!new)>(a: Spec<V>, events: seq<(Tid, Event<V>)>, a': Spec<V>)
    decreases |events|
  {
    if events == [] then a' == a else
    exists b :: SpecStep(a, events[0].0, events[0].1, b) && SpecRun(b, events[1..], a')
  }

  /** The same, with every call taking effect exactly where QueueInvariant.Commits says, and
      nowhere else. */
  ghost predicate EffectsPinned<V>(s: State<V>, a: Spec<V>, schedule: seq<Step<V>>, a': Spec<V>)
    requires Feasible(s, schedule)
    decreases |schedule|
  {
    if schedule == [] then a' == a else
    var step := schedule[0];
    && (Commits(s, step) ==> step.t in a.phases && a.phases[step.t].Pending?)
    && SpecStep(a, step.t, EventOf(s, step), NextSpec(s, a, step))
    && EffectsPinned(Next(s, step), NextSpec(s, a, step), schedule[1..], a')
  }

  /** The value a step links into the queue, with its producer; at most one. */
  function LinkOf<V>(s: State<V>, step: Step<V>): seq<(Tid, V)>
    requires Enabled(s, step)
  {
    if step.action.Tick? && s.threads[step.t].PushRead? then [(step.t, s.threads[step.t].v)] else []
  }

  /** The value a step takes out of the queue by moving its head, with its consumer. */
  function MoveOf<V>(s: State<V>, step: Step<V>): seq<(Tid, V)>
    requires Enabled(s, step)
  {
    match s.threads[step.t]
    case PopCleared(_, _, Some(box)) => if box in s.boxes then [(step.t, s.boxes[box])] else []
    case _ => []
  }

  /** All link writes of a run, in order. */
  function Links<V>(s: State<V>, schedule: seq<Step<V>>): seq<(Tid, V)>
    requires Feasible(s, schedule)
    decreases |schedule|
  {
    if schedule == [] then [] else LinkOf(s, schedule[0]) + Links(Next(s, schedule[0]), schedule[1..])
  }

  /** All head moves of a run, in order. */
  function Moves<V>(s: State<V>, schedule: seq<Step<V>>): seq<(Tid, V)>
    requires Feasible(s, schedule)
    decreases |schedule|
  {
    if schedule == [] then [] else MoveOf(s, schedule[0]) + Moves(Next(s, schedule[0]), schedule[1..])
  }

  function Values<V>(log: seq<(Tid, V)>): seq<V> {
    seq(|log|, i requires 0 <= i < |log| => log[i].1)
  }

  /** Thread t's part of a log. */
  function Of<V>(t: Tid, log: seq<(Tid, V)>): seq<V> {
    if log == [] then [] else (if log[0].0 == t then [log[0].1] else []) + Of(t, log[1..])
  }

  lemma {:induction false} OfAppend<V>(t: Tid, x: seq<(Tid, V)>, y: seq<(Tid, V)>)
    ensures Of(t, x + y) == Of(t, x) + Of(t, y)
  {
    if x == [] {
      assert x + y == y;
    } else {
      assert (x + y)[0] == x[0] && (x + y)[1..] == x[1..] + y;
      OfAppend(t, x[1..], y);
      var head := if x[0].0 == t then [x[0].1] else [];
      assert (head + Of(t, x[1..])) + Of(t, y) == head + (Of(t, x[1..]) + Of(t, y));
    }
  }

  /** The values thread t got back from its successful pops. */
  function Returned<V>(t: Tid, events: seq<(Tid, Event<V>)>): seq<V> {
    if events == [] then [] else ReturnOf(t, events[0]) + Returned(t, events[1..])
  }

  function ReturnOf<V>(t: Tid, event: (Tid, Event<V>)): seq<V> {
    match event
    case (u, Return(Popped(Some(v)))) => if u == t then [v] else []
    case _ => []
  }

  /** The value thread t has taken from the queue but not yet returned. */
  function InHand<V>(a: Spec<V>, t: Tid): seq<V> {
    if t !in a.phases then [] else
    match a.phases[t]
    case Finished(Popped(Some(v))) => [v]
    case _ => []
  }

  /** One step's share of the two logs and of thread t's deliveries. */
  ghost predicate LogsFit<V>(s: State<V>, a: Spec<V>, step: Step<V>, t: Tid)
    requires Enabled(s, step) && (Commits(s, step) ==> step.t in a.phases && a.phases[step.t].Pending?)
  {
    && NextSpec(s, a, step).pushed == a.pushed + Values(LinkOf(s, step))
    && NextSpec(s, a, step).popped == a.popped + Values(MoveOf(s, step))
    && ReturnOf(t, (step.t, EventOf(s, step))) + InHand(NextSpec(s, a, step), t)
         == InHand(a, t) + Of(t, MoveOf(s, step))
  }

  lemma LinkLogs<V>(s: State<V>, a: Spec<V>, step: Step<V>, t: Tid)
    requires Enabled(s, step) && step.action.Tick? && s.threads[step.t].PushRead?
    requires step.t in a.phases && a.phases[step.t] == Pending(Push(s.threads[step.t].v))
    ensures LogsFit(s, a, step, t)
  {
  }

  lemma MoveLogs<V>(s: State<V>, a: Spec<V>, step: Step<V>, t: Tid)
    requires Enabled(s, step) && step.action.Tick? && s.threads[step.t].PopCleared?
    requires step.t in a.phases && a.phases[step.t] == Pending(Pop) && a.queue != []
    requires MoveOf(s, step) == [(step.t, a.queue[0])]
    ensures LogsFit(s, a, step, t)
  {
    assert MoveOf(s, step)[1..] == [];
  }

  /** All other calls take effect without changing the queue. */
  lemma OtherLogs<V>(s: State<V>, a: Spec<V>, step: Step<V>, t: Tid)
    requires Enabled(s, step) && step.t in a.phases
    requires !(step.action.Tick? && (s.threads[step.t].PushRead? || s.threads[step.t].PopCleared?))
    requires !s.threads[step.t].PopCleared?
    requires Commits(s, step) ==>
      || (a.phases[step.t] == Pending(Pop) && a.queue == [])
      || a.phases[step.t] == Pending(Empty) || a.phases[step.t] == Pending(Size)
    requires step.action.Begin? ==> a.phases[step.t] == Ready
    requires s.threads[step.t].Returning? ==> a.phases[step.t] == Finished(s.threads[step.t].outcome)
    ensures LogsFit(s, a, step, t)
  {
  }

  lemma StepLogs<V>(s: State<V>, g: Ghost, a: Spec<V>, step: Step<V>, t: Tid)
    requires Simulates(s, g, a) && Enabled(s, step)
    requires Commits(s, step) ==> a.phases[step.t].Pending?
    ensures LogsFit(s, a, step, t)
  {
    var pc := s.threads[step.t];
    assert ThreadOk(s, g, a.phases[step.t], pc);
    if pc.PushRead? {
      LinkLogs(s, a, step, t);
    } else if pc.PopCleared? {
      assert MoveOf(s, step) == [(step.t, a.queue[0])];
      MoveLogs(s, a, step, t);
    } else {
      if pc.PopFirst? { LinkAt(s, g, 0); }
      OtherLogs(s, a, step, t);
    }
  }

  /** One step of the machine and the matching step of the atomic queue. */
  lemma FollowStep<V>(s: State<V>, g: Ghost, a: Spec<V>, step: Step<V>, t: Tid) returns (g': Ghost, a': Spec<V>)
    requires Simulates(s, g, a) && Conserved(a) && Enabled(s, step)
    ensures Simulates(Next(s, step), g', a') && Conserved(a')
    ensures Commits(s, step) ==> step.t in a.phases && a.phases[step.t].Pending?
    ensures SpecStep(a, step.t, EventOf(s, step), a') && a' == NextSpec(s, a, step)
    ensures a'.pushed == a.pushed + Values(LinkOf(s, step))
    ensures a'.popped == a.popped + Values(MoveOf(s, step))
    ensures ReturnOf(t, (step.t, EventOf(s, step))) + InHand(a', t) == InHand(a, t) + Of(t, MoveOf(s, step))
  {
    StepSimulates(s, g, a, step);
    StepLogs(s, g, a, step, t);
    SpecStepConserves(a, step.t, EventOf(s, step), NextSpec(s, a, step));
    g', a' := NextGhost(s, g, step), NextSpec(s, a, step);
  }

  lemma LogAppend<V>(log: seq<V>, log1: seq<V>, log': seq<V>, x: seq<(Tid, V)>, y: seq<(Tid, V)>)
    requires log1 == log + Values(x) && log' == log1 + Values(y)
    ensures log' == log + Values(x + y)
  {
    assert Values(x + y) == Values(x) + Values(y);
    assert (log + Values(x)) + Values(y) == log + (Values(x) + Values(y));
  }

  /** What a run of the machine from s and a run of the atomic queue from a to a' share. */
  ghost predicate Agree<V(!new)>(s: State<V>, a: Spec<V>, schedule: seq<Step<V>>, a': Spec<V>, t: Tid)
    requires Feasible(s, schedule)
  {
    && SpecRun(a, Events(s, schedule), a')
    && EffectsPinned(s, a, schedule, a')
    && a'.pushed == a.pushed + Values(Links(s, schedule))
    && a'.popped == a.popped + Values(Moves(s, schedule))
    && Returned(t, Events(s, schedule)) + InHand(a', t) == InHand(a, t) + Of(t, Moves(s, schedule))
  }

  lemma AgreeStep<V(!new)>(s: State<V>, a: Spec<V>, schedule: seq<Step<V>>, a1: Spec<V>, a': Spec<V>, t: Tid)
    requires schedule != [] && Feasible(s, schedule)
    requires Commits(s, schedule[0]) ==> schedule[0].t in a.phases && a.phases[schedule[0].t].Pending?
    requires SpecStep(a, schedule[0].t, EventOf(s, schedule[0]), a1) && a1 == NextSpec(s, a, schedule[0])
    requires a1.pushed == a.pushed + Values(LinkOf(s, schedule[0]))
    requires a1.popped == a.popped + Values(MoveOf(s, schedule[0]))
    requires ReturnOf(t, (schedule[0].t, EventOf(s, schedule[0]))) + InHand(a1, t) == InHand(a, t) + Of(t, MoveOf(s, schedule[0]))
    requires Agree(Next(s, schedule[0]), a1, schedule[1..], a', t)
    ensures Agree(s, a, schedule, a', t)
  {
    var step, rest := schedule[0], schedule[1..];
    var s1 := Next(s, step);
    assert Events(s, schedule)[0] == (step.t, EventOf(s, step)) && Events(s, schedule)[1..] == Events(s1, rest);
    LogAppend(a.pushed, a1.pushed, a'.pushed, LinkOf(s, step), Links(s1, rest));
    LogAppend(a.popped, a1.popped, a'.popped, MoveOf(s, step), Moves(s1, rest));
    OfAppend(t, MoveOf(s, step), Moves(s1, rest));
    RegroupLogs(ReturnOf(t, (step.t, EventOf(s, step))), Returned(t, Events(s1, rest)), InHand(a', t),
            InHand(a1, t), InHand(a, t), Of(t, MoveOf(s, step)), Of(t, Moves(s1, rest)));
  }

  lemma RegroupLogs<V>(r: seq<V>, rest: seq<V>, end: seq<V>, mid: seq<V>, start: seq<V>, m: seq<V>, moves: seq<V>)
    requires r + mid == start + m && rest + end == mid + moves
    ensures (r + rest) + end == start + (m + moves)
  {
    assert (r + rest) + end == r + (rest + end);
    assert r + (mid + moves) == (r + mid) + moves;
  }

  /** Running the atomic queue alongside a whole schedule, watching thread t. */
  lemma {:induction false} Follow<V(!new)>(s: State<V>, g: Ghost, a: Spec<V>, schedule: seq<Step<V>>, t: Tid) returns (g': Ghost, a': Spec<V>)
    requires Simulates(s, g, a) && Conserved(a) && Feasible(s, schedule)
    ensures Simulates(Run(s, schedule), g', a') && Conserved(a')
    ensures Agree(s, a, schedule, a', t)
    decreases |schedule|
  {
    if schedule == [] {
      g', a' := g, a;
    } else {
      var g1, a1 := FollowStep(s, g, a, schedule[0], t);
      g', a' := Follow(Next(s, schedule[0]), g1, a1, schedule[1..], t);
      AgreeStep(s, a, schedule, a1, a', t);
    }
  }

  // ---- The theorems --------------------------------------------------------------------

  lemma {:induction false} DistinctSize(xs: seq<nat>, keys: set<nat>)
    requires forall i, j :: 0 <= i < j < |xs| ==> xs[i] != xs[j]
    requires forall x :: x in keys <==> x in xs
    ensures |keys| == |xs|
  {
    if xs == [] {
      assert keys == {};
    } else {
      TailMembers(xs);
      assert xs[0] in keys;
      DistinctSize(xs[1..], keys - {xs[0]});
    }
  }

  /** With no call under way the queue owns every node ... */
  lemma NodesLinked<V>(s: State<V>, g: Ghost)
    requires NodesOwned(s, g) && forall t :: t in s.threads ==> s.threads[t].Idle?
    ensures forall n :: n in s.heap <==> n in g.chain
  {
    forall n | n in g.nodeOwner ensures g.nodeOwner[n] == Linked {
      if g.nodeOwner[n].Held? { assert g.nodeOwner[n] == Held(g.nodeOwner[n].t); }
    }
  }

  /** ... and every box. */
  lemma BoxesLinked<V>(s: State<V>, g: Ghost)
    requires BoxesOwned(s, g) && forall t :: t in s.threads ==> s.threads[t].Idle?
    ensures forall b :: b in s.boxes <==> b in g.cells
  {
    forall b | b in g.boxOwner ensures g.boxOwner[b] == Linked {
      if g.boxOwner[b].Held? { assert g.boxOwner[b] == Held(g.boxOwner[b].t); }
    }
  }

  lemma Quiescent<V>(s: State<V>, g: Ghost, a: Spec<V>)
    requires ChainOk(s, g) && ContentOk(s, g, a) && NodesOwned(s, g) && BoxesOwned(s, g)
    requires forall t :: t in s.threads ==> s.threads[t].Idle?
    ensures |s.heap| == |a.queue| + 1 && |s.boxes| == |a.queue|
  {
    NodesLinked(s, g);
    BoxesLinked(s, g);
    DistinctSize(g.chain, s.heap.Keys);
    DistinctSize(g.cells, s.boxes.Keys);
  }

  /** What the machine's state says about its memory. */
  ghost predicate Sound<V>(s: State<V>) {
    && !s.fault
    && s.first in s.heap
    && (s.last !in s.heap ==> s.producerLock && exists t :: t in s.threads && s.threads[t].PushLinked?)
  }

  lemma SimulatesSound<V>(s: State<V>, g: Ghost, a: Spec<V>)
    requires Simulates(s, g, a)
    ensures Sound(s)
  {
    if s.last !in s.heap {
      assert g.lagging && RoleOk(g, g.producer.value, s.threads[g.producer.value]);
    }
  }

  /** Everything a run from the start guarantees, watched from thread t. */
  lemma FromStart<V(!new)>(sentinel: Addr, tids: set<Tid>, schedule: seq<Step<V>>, t: Tid) returns (a': Spec<V>)
    requires Feasible(Initial(sentinel, tids), schedule)
    ensures Agree(Initial(sentinel, tids), Start(tids), schedule, a', t) && Conserved(a')
    ensures var s := Run(Initial<V>(sentinel, tids), schedule);
      && Sound(s)
      && (t in s.threads && s.threads[t].Idle? ==> InHand(a', t) == [])
      && ((forall u :: u in s.threads ==> s.threads[u].Idle?) ==> |s.heap| == |a'.queue| + 1 && |s.boxes| == |a'.queue|)
  {
    InitialSimulates<V>(sentinel, tids);
    var g';
    g', a' := Follow(Initial(sentinel, tids), StartGhost(sentinel), Start(tids), schedule, t);
    var s := Run(Initial<V>(sentinel, tids), schedule);
    SimulatesSound(s, g', a');
    if t in s.threads && s.threads[t].Idle? { assert ThreadOk(s, g', a'.phases[t], s.threads[t]); }
    if forall u :: u in s.threads ==> s.threads[u].Idle? { Quiescent(s, g', a'); }
  }

  /** Linearizability: every run shows events the atomic queue can show, so each call takes
      effect in one instant between its invocation and its return, with the result it
      returns; and that instant is the step QueueInvariant.Commits names: the link write of
      a push, the head move of a pop that finds a value, the read of empty(), and for a
      failing pop and size() the read of the null link. */
  lemma Linearizable<V(!new)>(sentinel: Addr, tids: set<Tid>, schedule: seq<Step<V>>)
    requires Feasible(Initial(sentinel, tids), schedule)
    ensures exists a' ::
      && SpecRun(Start(tids), Events(Initial(sentinel, tids), schedule), a')
      && EffectsPinned(Initial(sentinel, tids), Start(tids), schedule, a')
  {
    var a' := FromStart(sentinel, tids, schedule, 0);
  }

  /** How many values the queue holds after a run. */
  function Inside<V>(sentinel: Addr, tids: set<Tid>, schedule: seq<Step<V>>): int
    requires Feasible(Initial(sentinel, tids), schedule)
  {
    |Links(Initial(sentinel, tids), schedule)| - |Moves(Initial(sentinel, tids), schedule)|
  }

  /** The answer a consumer settles for when it reads a link that is null or is not, given
      how many values the queue holds at this instant. */
  predicate ReadsRightly<V>(s: State<V>, step: Step<V>, inside: int)
    requires Enabled(s, step)
  {
    var t := step.t;
    step.action.Tick? ==>
      match s.threads[t]
      case Locked(Empty) => Next(s, step).threads[t] == Answered(Emptied(inside == 0))
      case Locked(Size) => s.first in s.heap &&
        (if s.heap[s.first].next == None then inside == 0 && Next(s, step).threads[t] == Answered(Sized(inside))
         else inside > 0)
      case PopFirst(_) => s.first in s.heap &&
        (if s.heap[s.first].next == None then inside == 0 && Next(s, step).threads[t] == Answered(Popped(None))
         else inside > 0)
      case SizeWalk(cur, count) => cur in s.heap &&
        (if s.heap[cur].next == None then inside > 0 && Next(s, step).threads[t] == Answered(Sized(inside))
         else inside > count + 1)
      case _ => true
  }

  lemma ReadsInState<V>(s: State<V>, g: Ghost, a: Spec<V>, step: Step<V>)
    requires Simulates(s, g, a) && Enabled(s, step)
    ensures ReadsRightly(s, step, |a.queue|)
  {
    var pc := s.threads[step.t];
    assert ThreadOk(s, g, a.phases[step.t], pc);
    LinkAt(s, g, 0);
    if pc.SizeWalk? { WalkReads(s, g, a, step); }
  }

  lemma WalkReads<V>(s: State<V>, g: Ghost, a: Spec<V>, step: Step<V>)
    requires Enabled(s, step) && s.threads[step.t].SizeWalk? && ChainOk(s, g) && |a.queue| == |g.cells|
    requires var pc := s.threads[step.t]; pc.count + 1 < |g.chain| && pc.cur == g.chain[pc.count + 1]
    ensures ReadsRightly(s, step, |a.queue|)
  {
    LinkAt(s, g, s.threads[step.t].count + 1);
  }

  /** In every run, at the instant size() reads the null link it settles for the exact
      number of values the queue holds, although producers may have appended since it
      began; pop finds no value exactly when there is none, and empty() answers whether
      there is one. */
  lemma AnswersExact<V(!new)>(sentinel: Addr, tids: set<Tid>, schedule: seq<Step<V>>, step: Step<V>)
    requires Feasible(Initial(sentinel, tids), schedule)
    requires Enabled(Run(Initial(sentinel, tids), schedule), step)
    ensures ReadsRightly(Run(Initial(sentinel, tids), schedule), step, Inside(sentinel, tids, schedule))
  {
    InitialSimulates<V>(sentinel, tids);
    var g', a' := Follow(Initial(sentinel, tids), StartGhost(sentinel), Start(tids), schedule, step.t);
    assert |a'.pushed| == |a'.popped| + |a'.queue|;
    ReadsInState(Run(Initial<V>(sentinel, tids), schedule), g', a', step);
  }

  /** First in, first out: in head-move order the values taken out are a prefix of the
      values linked in, in link order. */
  lemma FirstInFirstOut<V(!new)>(sentinel: Addr, tids: set<Tid>, schedule: seq<Step<V>>)
    requires Feasible(Initial(sentinel, tids), schedule)
    ensures Values(Moves(Initial(sentinel, tids), schedule)) <= Values(Links(Initial(sentinel, tids), schedule))
  {
    var a' := FromStart(sentinel, tids, schedule, 0);
    assert a'.pushed == Values(Links(Initial(sentinel, tids), schedule));
    assert a'.popped == Values(Moves(Initial(sentinel, tids), schedule));
  }

  /** Every head move delivers its value to the one thread that made it: what a thread's
      pops have returned is what it took, in that order, short of at most the last value,
      which it still has to return. */
  lemma DeliveredOnce<V(!new)>(sentinel: Addr, tids: set<Tid>, schedule: seq<Step<V>>, t: Tid)
    requires Feasible(Initial(sentinel, tids), schedule)
    ensures var s := Initial<V>(sentinel, tids);
      var returned, taken := Returned(t, Events(s, schedule)), Of(t, Moves(s, schedule));
      returned <= taken && |taken| <= |returned| + 1 &&
      (t in Run(s, schedule).threads && Run(s, schedule).threads[t].Idle? ==> returned == taken)
  {
    var a' := FromStart(sentinel, tids, schedule, t);
    var s := Initial<V>(sentinel, tids);
    assert InHand(Start<V>(tids), t) == [];
    assert Returned(t, Events(s, schedule)) + InHand(a', t) == Of(t, Moves(s, schedule));
  }

  /** Memory safety: no run ever touches or frees memory that is not allocated. `last` may
      name a freed node, but only while a producer that holds the lock stands between its
      link write and its write of `last`. */
  lemma MemorySafe<V(!new)>(sentinel: Addr, tids: set<Tid>, schedule: seq<Step<V>>)
    requires Feasible(Initial(sentinel, tids), schedule)
    ensures Sound(Run(Initial<V>(sentinel, tids), schedule))
  {
    var a' := FromStart(sentinel, tids, schedule, 0);
  }

  /** No leaks: once no call is under way, what is allocated is one node for each value in
      the queue plus the sentinel, and one box for each value. */
  lemma NoLeak<V(!new)>(sentinel: Addr, tids: set<Tid>, schedule: seq<Step<V>>)
    requires Feasible(Initial(sentinel, tids), schedule)
    requires var s := Run(Initial<V>(sentinel, tids), schedule); forall t :: t in s.threads ==> s.threads[t].Idle?
    ensures var s := Initial<V>(sentinel, tids);
      var inside := |Links(s, schedule)| - |Moves(s, schedule)|;
      |Run(s, schedule).heap| == inside + 1 && |Run(s, schedule).boxes| == inside
  {
    var a' := FromStart(sentinel, tids, schedule, 0);
    assert |a'.pushed| == |a'.popped| + |a'.queue|;
  }
}
