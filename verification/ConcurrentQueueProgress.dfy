/** Calls of the two-lock queue do return: a thread that nobody interferes with finishes its
    call in every state that runs can reach. */
module QueueProgress {
  import opened Wrappers
  import opened AtomicQueue
  import opened QueueMachine
  import opened QueueInvariant
  import opened QueueTheorems

  /** How many steps a call has still to take at most, in a list of n nodes. */
  function StepsLeft<V>(pc: Pc<V>, n: nat): nat {
    match pc
    case Idle => 0
    case Called(Push(_)) => 8
    case PushBoxed(_, _) => 7
    case PushMade(_, _, _) => 6
    case PushLocked(_, _, _) => 5
    case PushRead(_, _, _, _) => 4
    case PushLinked(_) => 3
    case PushMoved => 2
    case Called(Pop) => 11
    case Locked(Pop) => 10
    case Locked(Push(_)) => 0
    case PopFirst(_) => 9
    case PopNext(_, _) => 8
    case PopTaken(_, _, _) => 7
    case PopCleared(_, _, _) => 6
    case PopMoved(_, _) => 5
    case PopUnlocked(_, _) => 4
    case PopCopied(_, _, _) => 3
    case PopDeleted(_, _) => 2
    case Called(Empty) => 4
    case Locked(Empty) => 3
    case Called(Size) => n + 4
    case Locked(Size) => n + 3
    case SizeWalk(_, count) => if count < n then n - count + 2 else 2
    case Answered(_) => 2
    case Returning(_) => 1
  }

  /** All other threads are between calls. */
  ghost predicate Alone<V>(s: State<V>, t: Tid) {
    t in s.threads && forall u :: u in s.threads && u != t ==> s.threads[u].Idle?
  }

  /** The locks thread t may want are free. */
  predicate Free<V>(s: State<V>, t: Tid) {
    t in s.threads &&
    (!InProducerSection(s.threads[t]) ==> !s.producerLock) && (!InConsumerSection(s.threads[t]) ==> !s.consumerLock)
  }

  lemma LocksFree<V>(s: State<V>, g: Ghost, t: Tid)
    requires LocksOk(s, g) && Alone(s, t)
    ensures Free(s, t)
  {
    assert RoleOk(g, t, s.threads[t]);
    if g.producer.Some? { assert RoleOk(g, g.producer.value, s.threads[g.producer.value]); }
    if g.consumer.Some? { assert RoleOk(g, g.consumer.value, s.threads[g.consumer.value]); }
  }

  lemma NextStep<V>(s: State<V>, t: Tid) returns (step: Step<V>)
    requires !s.fault && t in s.threads && !s.threads[t].Idle?
    ensures Enabled(s, step) && step.t == t && step.action.Tick?
  {
    var place := Fresh(s.heap.Keys + s.boxes.Keys);
    step := Step(t, Tick(place));
  }

  lemma PushBeginSpares<V>(s: State<V>, t: Tid, place: nat, u: Tid)
    requires t in s.threads && u != t
    requires var pc := s.threads[t]; pc.PushBoxed? || pc.PushMade? || pc.PushLocked?
    ensures u in PushTick(s, t, place).threads <==> u in s.threads
    ensures u in s.threads ==> PushTick(s, t, place).threads[u] == s.threads[u]
  {
  }

  lemma PushEndSpares<V>(s: State<V>, t: Tid, place: nat, u: Tid)
    requires t in s.threads && u != t
    requires var pc := s.threads[t]; pc.PushRead? || pc.PushLinked? || pc.PushMoved?
    ensures u in PushTick(s, t, place).threads <==> u in s.threads
    ensures u in s.threads ==> PushTick(s, t, place).threads[u] == s.threads[u]
  {
  }

  lemma LockedSpares<V>(s: State<V>, t: Tid, u: Tid)
    requires t in s.threads && u != t
    requires s.threads[t].Locked?
    ensures u in PopTick(s, t).threads <==> u in s.threads
    ensures u in s.threads ==> PopTick(s, t).threads[u] == s.threads[u]
  {
  }

  lemma PopBeginSpares<V>(s: State<V>, t: Tid, u: Tid)
    requires t in s.threads && u != t
    requires var pc := s.threads[t]; pc.PopFirst? || pc.PopNext? || pc.PopTaken?
    ensures u in PopTick(s, t).threads <==> u in s.threads
    ensures u in s.threads ==> PopTick(s, t).threads[u] == s.threads[u]
  {
  }

  lemma PopMidSpares<V>(s: State<V>, t: Tid, u: Tid)
    requires t in s.threads && u != t
    requires var pc := s.threads[t]; pc.PopCleared? || pc.PopMoved? || pc.SizeWalk? || pc.Answered?
    ensures u in PopTick(s, t).threads <==> u in s.threads
    ensures u in s.threads ==> PopTick(s, t).threads[u] == s.threads[u]
  {
  }

  lemma PopEndSpares<V>(s: State<V>, t: Tid, u: Tid)
    requires t in s.threads && u != t
    requires var pc := s.threads[t]; pc.PopUnlocked? || pc.PopCopied? || pc.PopDeleted?
    ensures u in PopTick(s, t).threads <==> u in s.threads
    ensures u in s.threads ==> PopTick(s, t).threads[u] == s.threads[u]
  {
  }

  lemma Spares<V>(s: State<V>, step: Step<V>, u: Tid)
    requires Enabled(s, step) && u != step.t
    ensures u in Next(s, step).threads <==> u in s.threads
    ensures u in s.threads ==> Next(s, step).threads[u] == s.threads[u]
  {
    if step.action.Tick? {
      var t, place := step.t, step.action.place;
      var pc := s.threads[t];
      if pc.PushBoxed? || pc.PushMade? || pc.PushLocked? { PushBeginSpares(s, t, place, u); }
      else if pc.PushRead? || pc.PushLinked? || pc.PushMoved? { PushEndSpares(s, t, place, u); }
      else if pc.Locked? { LockedSpares(s, t, u); }
      else if pc.PopFirst? || pc.PopNext? || pc.PopTaken? { PopBeginSpares(s, t, u); }
      else if pc.PopCleared? || pc.PopMoved? || pc.SizeWalk? || pc.Answered? { PopMidSpares(s, t, u); }
      else if pc.PopUnlocked? || pc.PopCopied? || pc.PopDeleted? { PopEndSpares(s, t, u); }
    }
  }

  lemma OthersStay<V>(s: State<V>, step: Step<V>, s': State<V>)
    requires Enabled(s, step) && Alone(s, step.t) && s' == Next(s, step) && step.t in s'.threads
    ensures Alone(s', step.t)
  {
    forall u | u in s'.threads && u != step.t ensures s'.threads[u].Idle? {
      Spares(s, step, u);
    }
  }

  lemma PushEntersNearer<V>(s: State<V>, step: Step<V>, n: nat)
    requires Enabled(s, step) && step.action.Tick? && Free(s, step.t) && !Next(s, step).fault
    requires var pc := s.threads[step.t]; pc.PushBoxed? || pc.PushMade? || (pc.Called? && pc.call.Push?)
    ensures forall m :: StepsLeft(Next(s, step).threads[step.t], m) < StepsLeft(s.threads[step.t], n)
  {
  }

  lemma PushInsideNearer<V>(s: State<V>, step: Step<V>, n: nat)
    requires Enabled(s, step) && step.action.Tick? && Free(s, step.t) && !Next(s, step).fault
    requires InProducerSection(s.threads[step.t])
    ensures forall m :: StepsLeft(Next(s, step).threads[step.t], m) < StepsLeft(s.threads[step.t], n)
  {
  }

  lemma PopEntersNearer<V>(s: State<V>, step: Step<V>, n: nat)
    requires Enabled(s, step) && step.action.Tick? && Free(s, step.t) && !Next(s, step).fault
    requires var pc := s.threads[step.t]; pc in {Called(Pop), Locked(Pop)} || pc.PopFirst? || pc.PopNext?
    ensures forall m :: StepsLeft(Next(s, step).threads[step.t], m) < StepsLeft(s.threads[step.t], n)
  {
  }

  lemma PopInsideNearer<V>(s: State<V>, step: Step<V>, n: nat)
    requires Enabled(s, step) && step.action.Tick? && Free(s, step.t) && !Next(s, step).fault
    requires var pc := s.threads[step.t]; pc.PopTaken? || pc.PopCleared? || pc.PopMoved?
    ensures forall m :: StepsLeft(Next(s, step).threads[step.t], m) < StepsLeft(s.threads[step.t], n)
  {
  }

  lemma PopLeavesNearer<V>(s: State<V>, step: Step<V>, n: nat)
    requires Enabled(s, step) && step.action.Tick? && Free(s, step.t) && !Next(s, step).fault
    requires var pc := s.threads[step.t]; pc.PopUnlocked? || pc.PopCopied? || pc.PopDeleted?
    ensures forall m :: StepsLeft(Next(s, step).threads[step.t], m) < StepsLeft(s.threads[step.t], n)
  {
  }

  lemma ReadEntersNearer<V>(s: State<V>, step: Step<V>, n: nat)
    requires Enabled(s, step) && step.action.Tick? && Free(s, step.t) && !Next(s, step).fault
    requires var pc := s.threads[step.t]; pc in {Locked(Empty), Locked(Size), Called(Empty), Called(Size)}
    ensures StepsLeft(Next(s, step).threads[step.t], n) < StepsLeft(s.threads[step.t], n)
  {
  }

  lemma ReadGoesOnNearer<V>(s: State<V>, step: Step<V>, n: nat)
    requires Enabled(s, step) && step.action.Tick? && Free(s, step.t) && !Next(s, step).fault
    requires var pc := s.threads[step.t]; (pc.SizeWalk? && pc.count < n) || pc.Answered? || pc.Returning?
    ensures StepsLeft(Next(s, step).threads[step.t], n) < StepsLeft(s.threads[step.t], n)
  {
  }

  /** Steps that only read leave the list as long as it is. */
  lemma SameList<V>(s: State<V>, g: Ghost, step: Step<V>)
    requires Enabled(s, step) && step.action.Tick? && |g.chain| == |g.cells| + 1
    requires var pc := s.threads[step.t];
      pc in {Locked(Empty), Locked(Size), Called(Empty), Called(Size)} || pc.SizeWalk? || pc.Answered? || pc.Returning?
    ensures NextGhost(s, g, step).chain == g.chain
  {
  }

  lemma Nearer<V>(s: State<V>, g: Ghost, step: Step<V>)
    requires |g.chain| == |g.cells| + 1 && Enabled(s, step) && step.action.Tick?
    requires Free(s, step.t) && !Next(s, step).fault
    requires var pc := s.threads[step.t];
      && (pc.PopCleared? ==> |g.cells| > 0) && (pc.Locked? ==> !pc.call.Push?)
      && (pc.SizeWalk? ==> pc.count < |g.chain|)
    ensures StepsLeft(Next(s, step).threads[step.t], |NextGhost(s, g, step).chain|) < StepsLeft(s.threads[step.t], |g.chain|)
  {
    var pc, n := s.threads[step.t], |g.chain|;
    if pc.PushBoxed? || pc.PushMade? || (pc.Called? && pc.call.Push?) { PushEntersNearer(s, step, n); }
    else if InProducerSection(pc) { PushInsideNearer(s, step, n); }
    else if pc in {Called(Pop), Locked(Pop)} || pc.PopFirst? || pc.PopNext? { PopEntersNearer(s, step, n); }
    else if pc.PopTaken? || pc.PopCleared? || pc.PopMoved? { PopInsideNearer(s, step, n); }
    else if pc.PopUnlocked? || pc.PopCopied? || pc.PopDeleted? { PopLeavesNearer(s, step, n); }
    else {
      SameList(s, g, step);
      if pc.SizeWalk? || pc.Answered? || pc.Returning? { ReadGoesOnNearer(s, step, n); } else { ReadEntersNearer(s, step, n); }
    }
  }

  lemma LoneStep<V>(s: State<V>, g: Ghost, a: Spec<V>, t: Tid) returns (step: Step<V>, g': Ghost, a': Spec<V>)
    requires Simulates(s, g, a) && Alone(s, t) && !s.threads[t].Idle?
    ensures Enabled(s, step) && step.t == t && step.action.Tick?
    ensures Simulates(Next(s, step), g', a') && Alone(Next(s, step), t)
    ensures StepsLeft(Next(s, step).threads[t], |g'.chain|) < StepsLeft(s.threads[t], |g.chain|)
  {
    step := NextStep(s, t);
    StepSimulates(s, g, a, step);
    OthersStay(s, step, Next(s, step));
    LocksFree(s, g, t);
    g', a' := NextGhost(s, g, step), NextSpec(s, a, step);
    assert ThreadOk(s, g, a.phases[t], s.threads[t]);
    Nearer(s, g, step);
  }

  lemma {:induction false} Finishes<V>(s: State<V>, g: Ghost, a: Spec<V>, t: Tid) returns (more: seq<Step<V>>)
    requires Simulates(s, g, a) && Alone(s, t)
    ensures Feasible(s, more) && Alone(Run(s, more), t) && Run(s, more).threads[t].Idle?
    ensures forall i :: 0 <= i < |more| ==> more[i].t == t && more[i].action.Tick?
    ensures |more| <= StepsLeft(s.threads[t], |g.chain|)
    decreases StepsLeft(s.threads[t], |g.chain|)
  {
    if s.threads[t].Idle? {
      more := [];
    } else {
      var step, g', a' := LoneStep(s, g, a, t);
      var rest := Finishes(Next(s, step), g', a', t);
      more := [step] + rest;
      assert more[1..] == rest;
    }
  }

  lemma Reaches<V(!new)>(sentinel: Addr, tids: set<Tid>, schedule: seq<Step<V>>) returns (g: Ghost, a: Spec<V>)
    requires Feasible(Initial(sentinel, tids), schedule)
    ensures Simulates(Run(Initial<V>(sentinel, tids), schedule), g, a)
  {
    InitialSimulates<V>(sentinel, tids);
    g, a := Follow(Initial(sentinel, tids), StartGhost(sentinel), Start(tids), schedule, 0);
  }

  /** After any run, a thread inside a call can finish it by its own steps alone once the
      others are between calls: no lock stays taken, no loop goes round for ever. */
  lemma LoneCallReturns<V(!new)>(sentinel: Addr, tids: set<Tid>, schedule: seq<Step<V>>, t: Tid) returns (more: seq<Step<V>>)
    requires Feasible(Initial(sentinel, tids), schedule) && Alone(Run(Initial(sentinel, tids), schedule), t)
    ensures var s := Run(Initial<V>(sentinel, tids), schedule);
      Feasible(s, more) && Alone(Run(s, more), t) && Run(s, more).threads[t].Idle?
    ensures forall i :: 0 <= i < |more| ==> more[i].t == t && more[i].action.Tick?
  {
    var g, a := Reaches(sentinel, tids, schedule);
    more := Finishes(Run(Initial<V>(sentinel, tids), schedule), g, a, t);
  }
}
