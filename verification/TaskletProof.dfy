/** The invariant of the tasklet machine, and that every step keeps it. */
module TaskletInvariant {
  import opened Wrappers
  import opened TaskletMachine

  /** For each condition that is not shared, the context that owns it. */
  type Owners = map<Addr, Addr>

  /** Inside a call the local context is meaningful. */
  predicate InCall(pc: Pc) {
    !pc.Idle? && !pc.Dying? && !pc.Return?
  }

  predicate Holds(pc: Pc) {
    pc.Inside? || pc.StartSet? || pc.StartSpawned? || pc.Marked? || pc.Swapped? || pc.Exit?
  }

  /** The tasklet's context was swapped; the local context is the old one. */
  predicate HasOld(pc: Pc) {
    || pc.Swapped? || pc.Joining? || pc.Joined?
    || (pc.Notify? && (pc.call.Wait? || pc.call.Destroy?))
  }

  /** `running` was cleared and the notification is still to come. */
  predicate Clearing(pc: Pc) {
    (pc.Marked? || pc.Swapped? || pc.Notify?) && (pc.call.Stop? || pc.call.Destroy?)
  }

  predicate WellCalled(pc: Pc) {
    match pc
    case Enter(call) => !call.Wakeup?
    case Inside(call) => !call.Wakeup?
    case Marked(call) => call.Stop? || call.Wait? || call.Destroy?
    case Swapped(call) => call.Wait? || call.Destroy?
    case Exit(call, result) => !call.Wakeup? && (call.Stop? ==> !result)
    case Notify(call) => !call.Start?
    case Joining(call) => call.Wait? || call.Destroy?
    case Joined(call) => call.Wait? || call.Destroy?
    case Return(call, _) => !call.Destroy?
    case _ => true
  }

  predicate WorkerHolds(pc: WorkerPc) {
    pc.Locked? || pc.Checked? || pc.Awake? || pc.Leaving?
  }

  predicate HasLock(pc: WorkerPc) {
    WorkerHolds(pc) || pc.Waiting? || pc.Woken?
  }

  /** A tasklet's context is its own; the thread found joinable stays so until joined. */
  predicate ContextsOf(s: State, t: Tid, k: Tasklet) {
    && k.context in s.contexts && s.contexts[k.context].tasklet == t
    && (InCall(k.pc) ==>
          k.ctx in s.contexts && s.contexts[k.ctx].tasklet == t && (k.ctx != k.context <==> HasOld(k.pc)))
    && (HasOld(k.pc) || k.pc.Dying? ==> s.contexts[k.context].thread == None)
  }

  predicate LockOf(s: State, t: Tid, k: Tasklet)
    requires InCall(k.pc) ==> k.ctx in s.contexts
  {
    Holds(k.pc) ==>
      && k.lock == s.contexts[k.ctx].condition
      && k.lock in s.conditions && s.conditions[k.lock] == Some(Controller(t))
  }

  predicate StageOf(s: State, k: Tasklet)
    requires InCall(k.pc) ==> k.ctx in s.contexts
  {
    && WellCalled(k.pc)
    && (k.pc.Marked? || k.pc.Swapped? || k.pc.Joining? || (k.pc.Notify? && !k.pc.call.Wakeup?) ==>
          s.contexts[k.ctx].thread.Some?)
    && (Clearing(k.pc) || (k.pc.Joining? && k.pc.call.Destroy?) ==> !s.contexts[k.ctx].running)
    && (k.pc.StartSet? || k.pc.StartSpawned? || k.pc.Joined? || (k.pc.Exit? && k.pc.call.Destroy?) ==>
          s.contexts[k.ctx].thread == None)
    && (k.pc.StartSpawned? ==> k.pc.w in s.workers && s.workers[k.pc.w].ctx == k.ctx)
  }

  predicate TaskletOk(s: State, t: Tid, k: Tasklet) {
    ContextsOf(s, t, k) && LockOf(s, t, k) && StageOf(s, k)
  }

  predicate ContextOk(s: State, g: Owners, x: Addr, c: Context) {
    && c.tasklet in s.tasklets
    && (x == s.tasklets[c.tasklet].context || (HasOld(s.tasklets[c.tasklet].pc) && x == s.tasklets[c.tasklet].ctx))
    && (c.thread.Some? ==> c.thread.value in s.workers && s.workers[c.thread.value].ctx == x)
    && c.condition in s.conditions
    && (if c.owned then c.condition in g && g[c.condition] == x else c.condition in s.shared)
  }

  /** Every thread belongs to one context, which lives until the thread is joined. */
  predicate ThreadOf(s: State, w: Handle, v: Worker) {
    && v.ctx in s.contexts
    && var c := s.contexts[v.ctx];
      && c.tasklet in s.tasklets
      && (c.thread == Some(w) ||
          (c.thread == None && s.tasklets[c.tasklet].pc == StartSpawned(w) && s.tasklets[c.tasklet].ctx == v.ctx))
  }

  predicate WorkerLock(s: State, w: Handle, v: Worker)
    requires v.ctx in s.contexts
  {
    && (HasLock(v.pc) ==> v.pc.lock == s.contexts[v.ctx].condition)
    && (WorkerHolds(v.pc) ==> v.pc.lock in s.conditions && s.conditions[v.pc.lock] == Some(Task(w)))
  }

  /** No stop is lost: a thread goes to sleep only while `running` is set, and if it is
      cleared then, the controller that did it still has to notify. */
  predicate NoStopLost(s: State, w: Handle, v: Worker)
    requires v.ctx in s.contexts && s.contexts[v.ctx].tasklet in s.tasklets
  {
    var c := s.contexts[v.ctx];
    && (v.pc.Checked? ==> c.running)
    && (v.pc.Waiting? && !c.running ==>
          Clearing(s.tasklets[c.tasklet].pc) && s.tasklets[c.tasklet].ctx == v.ctx)
  }

  predicate WorkerOk(s: State, w: Handle, v: Worker) {
    ThreadOf(s, w, v) && WorkerLock(s, w, v) && NoStopLost(s, w, v)
  }

  predicate ConditionOk(s: State, g: Owners, c: Addr, holder: Option<Agent>) {
    && (c in g <==> c !in s.shared)
    && (c in g ==> g[c] in s.contexts && s.contexts[g[c]].owned && s.contexts[g[c]].condition == c)
    && match holder
       case Some(Controller(t)) => t in s.tasklets && Holds(s.tasklets[t].pc) && s.tasklets[t].lock == c
       case Some(Task(w)) => w in s.workers && WorkerHolds(s.workers[w].pc) && s.workers[w].pc.lock == c
       case Some(Outside) => c in s.shared
       case None => true
  }

  ghost predicate TaskletsOk(s: State) {
    forall t {:trigger TaskletOk(s, t, s.tasklets[t])} :: t in s.tasklets ==> TaskletOk(s, t, s.tasklets[t])
  }

  ghost predicate ContextsOk(s: State, g: Owners) {
    forall x {:trigger ContextOk(s, g, x, s.contexts[x])} :: x in s.contexts ==> ContextOk(s, g, x, s.contexts[x])
  }

  ghost predicate WorkersOk(s: State) {
    forall w {:trigger WorkerOk(s, w, s.workers[w])} :: w in s.workers ==> WorkerOk(s, w, s.workers[w])
  }

  ghost predicate ConditionsOk(s: State, g: Owners) {
    && s.conditions.Keys == s.shared + g.Keys
    && forall c {:trigger ConditionOk(s, g, c, s.conditions[c])} :: c in s.conditions ==> ConditionOk(s, g, c, s.conditions[c])
  }

  ghost predicate Inv(s: State, g: Owners) {
    !s.fault && TaskletsOk(s) && ContextsOk(s, g) && WorkersOk(s) && ConditionsOk(s, g)
  }

  /** The bookkeeping after a step. */
  ghost function NextOwners(s: State, g: Owners, step: Step): Owners
    requires Enabled(s, step)
  {
    match step.agent
    case Controller(t) =>
      (match step.action
       case Construct(x, c, owned) => if owned then g[c := x] else g
       case Begin(_) => g
       case Tick(n, m, _, _) =>
         var k := s.tasklets[t];
         match k.pc
         case Marked(call) =>
           if !call.Stop? && k.ctx in s.contexts && s.contexts[k.ctx].owned then g[m := n] else g
         case Joined(_) => Disowned(s, g, k.ctx)
         case Dying => Disowned(s, g, k.context)
         case _ => g)
    case _ => g
  }

  ghost function Disowned(s: State, g: Owners, x: Addr): Owners {
    if x in s.contexts && s.contexts[x].owned then g - {s.contexts[x].condition} else g
  }

  // ---- What a step leaves alone ---------------------------------------------------------

  /** The maps agree everywhere but at k. */
  ghost predicate SameBut<K(!new), V>(m: map<K, V>, m': map<K, V>, k: K) {
    forall j :: j != k ==> (j in m <==> j in m') && (j in m ==> m'[j] == m[j])
  }

  /** Whether the step changes condition c: creates it, destroys it, or passes on its mutex. */
  predicate Touches(s: State, s': State, c: Addr) {
    !(c in s.conditions && c in s'.conditions && s'.conditions[c] == s.conditions[c])
  }

  /** Only tasklet t, a context x of it, the thread w that works on x, and a condition c that
      is free or held by one of the two are changed. */
  ghost predicate Apart(s: State, g: Owners, s': State, g': Owners, t: Tid, x: Addr, c: Addr, w: Handle) {
    && s'.shared == s.shared
    && SameBut(s.tasklets, s'.tasklets, t) && SameBut(s.contexts, s'.contexts, x)
    && SameBut(s.conditions, s'.conditions, c) && SameBut(g, g', c) && SameBut(s.workers, s'.workers, w)
    && (x in s.contexts ==> s.contexts[x].tasklet == t)
    && (x in s'.contexts ==> s'.contexts[x].tasklet == t)
    && (s'.workers != s.workers ==>
          (w in s.workers ==> s.workers[w].ctx == x) && (w in s'.workers ==> s'.workers[w].ctx == x))
    && (Touches(s, s', c) && c in s.conditions && s.conditions[c].Some? ==>
          s.conditions[c].value == Controller(t) ||
          (s.conditions[c].value == Task(w) && w in s.workers && s.workers[w].ctx == x))
    && (!Touches(s, s', c) ==> g' == g)
    && (c in g ==> g[c] == x || (c in g' && g'[c] == g[c]))
    && (c in s'.conditions <==> c in s.shared || c in g')
  }

  predicate OwnContext(s: State, t: Tid, x: Addr) {
    t in s.tasklets &&
    (x == s.tasklets[t].context || (HasOld(s.tasklets[t].pc) && x == s.tasklets[t].ctx))
  }

  predicate WorksOn(s: State, w: Handle, x: Addr) {
    x in s.contexts &&
    (s.contexts[x].thread == Some(w) ||
     (s.contexts[x].tasklet in s.tasklets && s.tasklets[s.contexts[x].tasklet].pc == StartSpawned(w)))
  }

  /** What everything else relies on of tasklet t, context x and thread w. */
  ghost predicate Steady(s: State, s': State, t: Tid, x: Addr, c: Addr, w: Handle) {
    && (forall y :: y != x && OwnContext(s, t, y) ==> OwnContext(s', t, y))
    && (t in s.tasklets ==>
          var k := s.tasklets[t];
          && (k.pc.StartSpawned? ==> k.ctx == x)
          && (Clearing(k.pc) && k.ctx != x ==>
                t in s'.tasklets && Clearing(s'.tasklets[t].pc) && s'.tasklets[t].ctx == k.ctx)
          && (Holds(k.pc) && (k.lock != c || !Touches(s, s', c)) ==>
                t in s'.tasklets && Holds(s'.tasklets[t].pc) && s'.tasklets[t].lock == k.lock))
    && (x in s.contexts && s.contexts[x].owned ==>
          if x in s'.contexts then s'.contexts[x].owned && s'.contexts[x].condition == s.contexts[x].condition
          else s.contexts[x].condition == c && c !in s'.conditions)
    && (s'.workers != s.workers && w in s.workers && WorkerHolds(s.workers[w].pc) &&
          (s.workers[w].pc.lock != c || !Touches(s, s', c)) ==>
            w in s'.workers && WorkerHolds(s'.workers[w].pc) && s'.workers[w].pc.lock == s.workers[w].pc.lock)
  }

  lemma OtherTasklets(s: State, g: Owners, s': State, g': Owners, t: Tid, x: Addr, c: Addr, w: Handle)
    requires Inv(s, g) && Apart(s, g, s', g', t, x, c, w)
    ensures forall u :: u in s'.tasklets && u != t ==> TaskletOk(s', u, s'.tasklets[u])
  {
    forall u | u in s'.tasklets && u != t ensures TaskletOk(s', u, s'.tasklets[u]) {
      assert TaskletOk(s, u, s.tasklets[u]);
    }
  }

  lemma OtherContexts(s: State, g: Owners, s': State, g': Owners, t: Tid, x: Addr, c: Addr, w: Handle)
    requires Inv(s, g) && Apart(s, g, s', g', t, x, c, w) && Steady(s, s', t, x, c, w)
    ensures forall y :: y in s'.contexts && y != x ==> ContextOk(s', g', y, s'.contexts[y])
  {
    forall y | y in s'.contexts && y != x ensures ContextOk(s', g', y, s'.contexts[y]) {
      assert ContextOk(s, g, y, s.contexts[y]);
      assert OwnContext(s, s.contexts[y].tasklet, y);
      if c in s.conditions { assert ConditionOk(s, g, c, s.conditions[c]); }
    }
  }

  lemma OtherWorkers(s: State, g: Owners, s': State, g': Owners, t: Tid, x: Addr, c: Addr, w: Handle)
    requires Inv(s, g) && Apart(s, g, s', g', t, x, c, w) && Steady(s, s', t, x, c, w)
    ensures forall v :: v in s'.workers && s'.workers[v].ctx != x ==> WorkerOk(s', v, s'.workers[v])
  {
    forall v | v in s'.workers && s'.workers[v].ctx != x ensures WorkerOk(s', v, s'.workers[v]) {
      assert WorkerOk(s, v, s.workers[v]);
      var y := s.workers[v].ctx;
      assert ContextOk(s, g, y, s.contexts[y]) && OwnContext(s, s.contexts[y].tasklet, y);
    }
  }

  lemma OtherConditions(s: State, g: Owners, s': State, g': Owners, t: Tid, x: Addr, c: Addr, w: Handle)
    requires Inv(s, g) && Apart(s, g, s', g', t, x, c, w) && Steady(s, s', t, x, c, w)
    requires c in s'.conditions && Touches(s, s', c) ==> ConditionOk(s', g', c, s'.conditions[c])
    ensures ConditionsOk(s', g')
  {
    forall d | d in s'.conditions ensures ConditionOk(s', g', d, s'.conditions[d]) {
      if d in s.conditions { assert ConditionOk(s, g, d, s.conditions[d]); }
    }
  }

  /** So a step is right if it is for what it changes. */
  lemma Framed(s: State, g: Owners, s': State, g': Owners, t: Tid, x: Addr, c: Addr, w: Handle)
    requires Inv(s, g) && !s'.fault && Apart(s, g, s', g', t, x, c, w) && Steady(s, s', t, x, c, w)
    requires t in s'.tasklets ==> TaskletOk(s', t, s'.tasklets[t])
    requires x in s'.contexts ==> ContextOk(s', g', x, s'.contexts[x])
    requires forall v :: v in s'.workers && s'.workers[v].ctx == x && (v in s.workers ==> WorksOn(s, v, x)) ==>
                           WorkerOk(s', v, s'.workers[v])
    requires c in s'.conditions && Touches(s, s', c) ==> ConditionOk(s', g', c, s'.conditions[c])
    ensures Inv(s', g')
  {
    OtherTasklets(s, g, s', g', t, x, c, w);
    OtherContexts(s, g, s', g', t, x, c, w);
    OtherWorkers(s, g, s', g', t, x, c, w);
    OtherConditions(s, g, s', g', t, x, c, w);
    forall v | v in s'.workers && s'.workers[v].ctx == x ensures WorkerOk(s', v, s'.workers[v]) {
      if v in s.workers { assert WorkerOk(s, v, s.workers[v]); }
    }
  }

  /** What the invariant says of tasklet t and of context x with its thread and condition. */
  lemma Known(s: State, g: Owners, t: Tid, x: Addr)
    requires Inv(s, g) && t in s.tasklets
    ensures TaskletOk(s, t, s.tasklets[t])
    ensures x in s.contexts ==>
      var y := s.contexts[x];
      && ContextOk(s, g, x, y)
      && ConditionOk(s, g, y.condition, s.conditions[y.condition])
      && forall w :: w in s.workers && WorksOn(s, w, x) ==> WorkerOk(s, w, s.workers[w])
  {
    if x in s.contexts {
      assert ContextOk(s, g, x, s.contexts[x]);
      assert ConditionOk(s, g, s.contexts[x].condition, s.conditions[s.contexts[x].condition]);
      forall w | w in s.workers && WorksOn(s, w, x) ensures WorkerOk(s, w, s.workers[w]) {
      }
    }
  }

  // ---- Steps of started threads ---------------------------------------------------------

  lemma WorkerSleeps(s: State, g: Owners, w: Handle, action: Action)
    requires Inv(s, g) && w in s.workers && WorkerEnabled(s, w, action)
    requires s.workers[w].pc.Running? && action.Sleep?
    ensures Inv(WorkerTick(s, w, action), g)
  {
    var x := s.workers[w].ctx;
    assert WorkerOk(s, w, s.workers[w]);
    var t := s.contexts[x].tasklet;
    Known(s, g, t, x);
    Framed(s, g, WorkerTick(s, w, action), g, t, x, s.contexts[x].condition, w);
  }

  lemma WorkerFinishes(s: State, g: Owners, w: Handle, action: Action)
    requires Inv(s, g) && w in s.workers && WorkerEnabled(s, w, action)
    requires s.workers[w].pc.Running? && action.Finish?
    ensures Inv(WorkerTick(s, w, action), g)
  {
    var x := s.workers[w].ctx;
    assert WorkerOk(s, w, s.workers[w]);
    var t := s.contexts[x].tasklet;
    Known(s, g, t, x);
    Framed(s, g, WorkerTick(s, w, action), g, t, x, s.contexts[x].condition, w);
  }

  lemma WorkerChecks(s: State, g: Owners, w: Handle, action: Action)
    requires Inv(s, g) && w in s.workers && WorkerEnabled(s, w, action)
    requires s.workers[w].pc.Running? && action.Look?
    ensures WorkerTick(s, w, action) == s
  {
    assert WorkerOk(s, w, s.workers[w]);
  }

  lemma WorkerWakes(s: State, g: Owners, w: Handle, action: Action)
    requires Inv(s, g) && w in s.workers && WorkerEnabled(s, w, action)
    requires s.workers[w].pc.Waiting?
    ensures Inv(WorkerTick(s, w, action), g)
  {
    var x := s.workers[w].ctx;
    assert WorkerOk(s, w, s.workers[w]);
    var t := s.contexts[x].tasklet;
    Known(s, g, t, x);
    Framed(s, g, WorkerTick(s, w, action), g, t, x, s.contexts[x].condition, w);
  }

  lemma WorkerLooks(s: State, g: Owners, w: Handle, action: Action)
    requires Inv(s, g) && w in s.workers && WorkerEnabled(s, w, action)
    requires var pc := s.workers[w].pc; pc.Locked? || pc.Awake?
    ensures Inv(WorkerTick(s, w, action), g)
  {
    var x := s.workers[w].ctx;
    assert WorkerOk(s, w, s.workers[w]);
    var t := s.contexts[x].tasklet;
    Known(s, g, t, x);
    Framed(s, g, WorkerTick(s, w, action), g, t, x, s.contexts[x].condition, w);
  }

  lemma WorkerLocks(s: State, g: Owners, w: Handle, action: Action)
    requires Inv(s, g) && w in s.workers && WorkerEnabled(s, w, action)
    requires var pc := s.workers[w].pc; pc.Locking? || pc.Woken?
    ensures Inv(WorkerTick(s, w, action), g)
  {
    var x := s.workers[w].ctx;
    assert WorkerOk(s, w, s.workers[w]);
    var t := s.contexts[x].tasklet;
    Known(s, g, t, x);
    Framed(s, g, WorkerTick(s, w, action), g, t, x, s.contexts[x].condition, w);
  }

  lemma WorkerUnlocks(s: State, g: Owners, w: Handle, action: Action)
    requires Inv(s, g) && w in s.workers && WorkerEnabled(s, w, action)
    requires var pc := s.workers[w].pc; pc.Checked? || pc.Leaving?
    ensures Inv(WorkerTick(s, w, action), g)
  {
    var x := s.workers[w].ctx;
    assert WorkerOk(s, w, s.workers[w]);
    var t := s.contexts[x].tasklet;
    Known(s, g, t, x);
    Framed(s, g, WorkerTick(s, w, action), g, t, x, s.contexts[x].condition, w);
  }

  lemma WorkerKeeps(s: State, g: Owners, w: Handle, action: Action)
    requires Inv(s, g) && w in s.workers && WorkerEnabled(s, w, action)
    ensures Inv(WorkerTick(s, w, action), g)
  {
    var pc := s.workers[w].pc;
    if pc.Locked? || pc.Awake? { WorkerLooks(s, g, w, action); }
    else if pc.Locking? || pc.Woken? { WorkerLocks(s, g, w, action); }
    else if pc.Checked? || pc.Leaving? { WorkerUnlocks(s, g, w, action); }
    else if pc.Waiting? { WorkerWakes(s, g, w, action); }
    else if action.Look? { WorkerChecks(s, g, w, action); }
    else if action.Sleep? { WorkerSleeps(s, g, w, action); }
    else { WorkerFinishes(s, g, w, action); }
  }

  // ---- Steps of other threads -----------------------------------------------------------

  lemma OutsideKeeps(s: State, g: Owners, action: Action)
    requires Inv(s, g) && Enabled(s, Step(Outside, action))
    ensures Inv(Next(s, Step(Outside, action)), g)
  {
    var s' := Next(s, Step(Outside, action));
    forall u | u in s'.tasklets ensures TaskletOk(s', u, s'.tasklets[u]) {
      assert TaskletOk(s, u, s.tasklets[u]);
    }
    forall x | x in s'.contexts ensures ContextOk(s', g, x, s'.contexts[x]) {
      assert ContextOk(s, g, x, s.contexts[x]);
    }
    forall v | v in s'.workers ensures WorkerOk(s', v, s'.workers[v]) {
      assert WorkerOk(s, v, s.workers[v]);
    }
    forall c | c in s'.conditions ensures ConditionOk(s', g, c, s'.conditions[c]) {
      assert ConditionOk(s, g, c, s.conditions[c]);
    }
  }

  // ---- Steps of controlling threads -----------------------------------------------------

  lemma ConstructKeeps(s: State, g: Owners, t: Tid, n: Addr, m: Addr, owned: bool)
    requires Inv(s, g) && ControllerEnabled(s, t, Construct(n, m, owned))
    ensures Inv(ConstructStep(s, t, n, m, owned), if owned then g[m := n] else g)
  {
    Framed(s, g, ConstructStep(s, t, n, m, owned), if owned then g[m := n] else g, t, n, m, 0);
  }

  lemma BeginKeeps(s: State, g: Owners, t: Tid, call: Call)
    requires Inv(s, g) && !s.fault && ControllerEnabled(s, t, Begin(call))
    ensures Inv(Next(s, Step(Controller(t), Begin(call))), g)
  {
    var x := s.tasklets[t].context;
    Known(s, g, t, x);
    Framed(s, g, Next(s, Step(Controller(t), Begin(call))), g, t, x, 0, 0);
  }

  lemma EnterKeeps(s: State, g: Owners, t: Tid, n: Addr, m: Addr, h: Handle, woken: Option<Handle>)
    requires Inv(s, g) && ControllerEnabled(s, t, Tick(n, m, h, woken))
    requires s.tasklets[t].pc.Enter?
    ensures Inv(ControllerTick(s, t, n, m, h, woken), g)
  {
    var k := s.tasklets[t];
    Known(s, g, t, k.ctx);
    Framed(s, g, ControllerTick(s, t, n, m, h, woken), g, t, k.ctx, s.contexts[k.ctx].condition, 0);
  }

  lemma InsideStart(s: State, g: Owners, t: Tid, n: Addr, m: Addr, h: Handle, woken: Option<Handle>)
    requires Inv(s, g) && ControllerEnabled(s, t, Tick(n, m, h, woken))
    requires s.tasklets[t].pc.Inside? && s.tasklets[t].ctx in s.contexts
    requires s.tasklets[t].pc.call.Start?
    ensures Inv(ControllerTick(s, t, n, m, h, woken), g)
  {
    var k := s.tasklets[t];
    Known(s, g, t, k.ctx);
    Framed(s, g, ControllerTick(s, t, n, m, h, woken), g, t, k.ctx, k.lock, 0);
  }

  lemma InsideWait(s: State, g: Owners, t: Tid, n: Addr, m: Addr, h: Handle, woken: Option<Handle>)
    requires Inv(s, g) && ControllerEnabled(s, t, Tick(n, m, h, woken))
    requires s.tasklets[t].pc.Inside? && s.tasklets[t].ctx in s.contexts
    requires s.tasklets[t].pc.call.Wait?
    ensures Inv(ControllerTick(s, t, n, m, h, woken), g)
  {
    var k := s.tasklets[t];
    Known(s, g, t, k.ctx);
    Framed(s, g, ControllerTick(s, t, n, m, h, woken), g, t, k.ctx, k.lock, 0);
  }

  lemma InsideStop(s: State, g: Owners, t: Tid, n: Addr, m: Addr, h: Handle, woken: Option<Handle>)
    requires Inv(s, g) && ControllerEnabled(s, t, Tick(n, m, h, woken))
    requires s.tasklets[t].pc.Inside? && s.tasklets[t].ctx in s.contexts
    requires s.tasklets[t].pc.call.Stop?
    ensures Inv(ControllerTick(s, t, n, m, h, woken), g)
  {
    var k := s.tasklets[t];
    Known(s, g, t, k.ctx);
    Framed(s, g, ControllerTick(s, t, n, m, h, woken), g, t, k.ctx, k.lock, 0);
  }

  lemma InsideDestroy(s: State, g: Owners, t: Tid, n: Addr, m: Addr, h: Handle, woken: Option<Handle>)
    requires Inv(s, g) && ControllerEnabled(s, t, Tick(n, m, h, woken))
    requires s.tasklets[t].pc.Inside? && s.tasklets[t].ctx in s.contexts
    requires s.tasklets[t].pc.call.Destroy?
    ensures Inv(ControllerTick(s, t, n, m, h, woken), g)
  {
    var k := s.tasklets[t];
    Known(s, g, t, k.ctx);
    Framed(s, g, ControllerTick(s, t, n, m, h, woken), g, t, k.ctx, k.lock, 0);
  }

  lemma InsideKeeps(s: State, g: Owners, t: Tid, n: Addr, m: Addr, h: Handle, woken: Option<Handle>)
    requires Inv(s, g) && ControllerEnabled(s, t, Tick(n, m, h, woken))
    requires s.tasklets[t].pc.Inside?
    ensures Inv(ControllerTick(s, t, n, m, h, woken), g)
  {
    assert TaskletOk(s, t, s.tasklets[t]);
    match s.tasklets[t].pc.call
    case Start => InsideStart(s, g, t, n, m, h, woken);
    case Wait => InsideWait(s, g, t, n, m, h, woken);
    case Stop => InsideStop(s, g, t, n, m, h, woken);
    case Destroy => InsideDestroy(s, g, t, n, m, h, woken);
  }

  lemma SpawnKeeps(s: State, g: Owners, t: Tid, n: Addr, m: Addr, h: Handle, woken: Option<Handle>)
    requires Inv(s, g) && ControllerEnabled(s, t, Tick(n, m, h, woken))
    requires s.tasklets[t].pc.StartSet?
    ensures Inv(ControllerTick(s, t, n, m, h, woken), g)
  {
    var k := s.tasklets[t];
    Known(s, g, t, k.ctx);
    Framed(s, g, ControllerTick(s, t, n, m, h, woken), g, t, k.ctx, k.lock, h);
  }

  lemma StoreKeeps(s: State, g: Owners, t: Tid, n: Addr, m: Addr, h: Handle, woken: Option<Handle>)
    requires Inv(s, g) && ControllerEnabled(s, t, Tick(n, m, h, woken))
    requires s.tasklets[t].pc.StartSpawned?
    ensures Inv(ControllerTick(s, t, n, m, h, woken), g)
  {
    var k := s.tasklets[t];
    Known(s, g, t, k.ctx);
    Framed(s, g, ControllerTick(s, t, n, m, h, woken), g, t, k.ctx, k.lock, 0);
  }

  lemma SwapKeeps(s: State, g: Owners, t: Tid, n: Addr, m: Addr, h: Handle, woken: Option<Handle>)
    requires Inv(s, g) && ControllerEnabled(s, t, Tick(n, m, h, woken))
    requires s.tasklets[t].pc.Marked? && !s.tasklets[t].pc.call.Stop?
    ensures Inv(ControllerTick(s, t, n, m, h, woken), NextOwners(s, g, Step(Controller(t), Tick(n, m, h, woken))))
  {
    var k := s.tasklets[t];
    Known(s, g, t, k.ctx);
    var g' := NextOwners(s, g, Step(Controller(t), Tick(n, m, h, woken)));
    Framed(s, g, ControllerTick(s, t, n, m, h, woken), g', t, n, m, 0);
  }

  lemma UnlockStop(s: State, g: Owners, t: Tid, n: Addr, m: Addr, h: Handle, woken: Option<Handle>)
    requires Inv(s, g) && ControllerEnabled(s, t, Tick(n, m, h, woken))
    requires s.tasklets[t].pc.Marked? && s.tasklets[t].pc.call.Stop?
    ensures Inv(ControllerTick(s, t, n, m, h, woken), g)
  {
    var k := s.tasklets[t];
    Known(s, g, t, k.ctx);
    Framed(s, g, ControllerTick(s, t, n, m, h, woken), g, t, k.ctx, k.lock, 0);
  }

  lemma UnlockSwapped(s: State, g: Owners, t: Tid, n: Addr, m: Addr, h: Handle, woken: Option<Handle>)
    requires Inv(s, g) && ControllerEnabled(s, t, Tick(n, m, h, woken))
    requires s.tasklets[t].pc.Swapped?
    ensures Inv(ControllerTick(s, t, n, m, h, woken), g)
  {
    var k := s.tasklets[t];
    Known(s, g, t, k.ctx);
    Framed(s, g, ControllerTick(s, t, n, m, h, woken), g, t, k.ctx, k.lock, 0);
  }

  lemma UnlockExit(s: State, g: Owners, t: Tid, n: Addr, m: Addr, h: Handle, woken: Option<Handle>)
    requires Inv(s, g) && ControllerEnabled(s, t, Tick(n, m, h, woken))
    requires s.tasklets[t].pc.Exit?
    ensures Inv(ControllerTick(s, t, n, m, h, woken), g)
  {
    var k := s.tasklets[t];
    Known(s, g, t, k.ctx);
    Framed(s, g, ControllerTick(s, t, n, m, h, woken), g, t, k.ctx, k.lock, 0);
  }

  /** A notification of one does not miss the thread of the context it is for: no other
      thread waits on the same condition. */
  lemma NotifiedAll(s: State, g: Owners, t: Tid, v: Handle, woken: Option<Handle>)
    requires Inv(s, g) && t in s.tasklets && s.tasklets[t].pc.Notify?
    requires v in s.workers && s.workers[v].ctx == s.tasklets[t].ctx && s.workers[v].pc.Waiting?
    requires var x := s.tasklets[t].ctx;
      x in s.contexts && s.contexts[x].owned && WokenOne(s, s.contexts[x].condition, woken)
    ensures woken == Some(v)
  {
    var x := s.tasklets[t].ctx;
    var c := s.contexts[x].condition;
    assert WorkerOk(s, v, s.workers[v]) && ContextOk(s, g, x, s.contexts[x]);
    assert Waits(s, v, c);
    var w := woken.value;
    assert WorkerOk(s, w, s.workers[w]);
    assert ContextOk(s, g, s.workers[w].ctx, s.contexts[s.workers[w].ctx]);
    assert ConditionOk(s, g, c, s.conditions[c]);
  }

  lemma WokenWorkers(s: State, g: Owners, c: Addr, woken: Option<Handle>, one: bool)
    requires Inv(s, g) && (one && woken.Some? ==> Waits(s, woken.value, c))
    ensures WorkersOk(Notified(s, c, woken, one))
  {
    var s' := Notified(s, c, woken, one);
    forall v | v in s'.workers ensures WorkerOk(s', v, s'.workers[v]) {
      assert WorkerOk(s, v, s.workers[v]);
    }
  }

  /** Waking up threads does no harm. */
  lemma WakingKeeps(s: State, g: Owners, c: Addr, woken: Option<Handle>, one: bool)
    requires Inv(s, g) && (one && woken.Some? ==> Waits(s, woken.value, c))
    ensures Inv(Notified(s, c, woken, one), g)
  {
    var s' := Notified(s, c, woken, one);
    WokenWorkers(s, g, c, woken, one);
    forall u | u in s'.tasklets ensures TaskletOk(s', u, s'.tasklets[u]) {
      assert TaskletOk(s, u, s.tasklets[u]);
    }
    forall x | x in s'.contexts ensures ContextOk(s', g, x, s'.contexts[x]) {
      assert ContextOk(s, g, x, s.contexts[x]);
    }
    forall d | d in s'.conditions ensures ConditionOk(s', g, d, s'.conditions[d]) {
      assert ConditionOk(s, g, d, s.conditions[d]);
    }
  }

  /** After the notification the thread of the context does not wait. */
  lemma ThreadWoken(s: State, g: Owners, t: Tid, woken: Option<Handle>)
    requires Inv(s, g) && t in s.tasklets && s.tasklets[t].pc.Notify?
    requires var x := s.tasklets[t].ctx;
      x in s.contexts && (s.contexts[x].owned ==> WokenOne(s, s.contexts[x].condition, woken))
    ensures var x := s.tasklets[t].ctx;
      var s1 := Notified(s, s.contexts[x].condition, if s.contexts[x].owned then woken else None, s.contexts[x].owned);
      forall v :: v in s1.workers && s1.workers[v].ctx == x ==> !s1.workers[v].pc.Waiting?
  {
    var x := s.tasklets[t].ctx;
    forall v | v in s.workers && s.workers[v].ctx == x && s.workers[v].pc.Waiting?
      ensures Waits(s, v, s.contexts[x].condition) && (s.contexts[x].owned ==> woken == Some(v))
    {
      assert WorkerOk(s, v, s.workers[v]);
      if s.contexts[x].owned { NotifiedAll(s, g, t, v, woken); }
    }
  }

  lemma NotifyKeeps(s: State, g: Owners, t: Tid, n: Addr, m: Addr, h: Handle, woken: Option<Handle>)
    requires Inv(s, g) && ControllerEnabled(s, t, Tick(n, m, h, woken))
    requires s.tasklets[t].pc.Notify?
    ensures Inv(ControllerTick(s, t, n, m, h, woken), g)
  {
    var k := s.tasklets[t];
    Known(s, g, t, k.ctx);
    var y := s.contexts[k.ctx];
    var s1 := Notified(s, y.condition, if y.owned then woken else None, y.owned);
    WakingKeeps(s, g, y.condition, if y.owned then woken else None, y.owned);
    ThreadWoken(s, g, t, woken);
    AfterNotify(s1, g, t, if k.pc.call.Wait? || k.pc.call.Destroy? then Joining(k.pc.call) else Return(k.pc.call, true));
  }

  lemma AfterNotify(s: State, g: Owners, t: Tid, pc: Pc)
    requires Inv(s, g) && t in s.tasklets && s.tasklets[t].pc.Notify?
    requires forall v :: v in s.workers && s.workers[v].ctx == s.tasklets[t].ctx ==> !s.workers[v].pc.Waiting?
    requires var call := s.tasklets[t].pc.call;
      pc == if call.Wait? || call.Destroy? then Joining(call) else Return(call, true)
    ensures Inv(s.At(t, pc), g)
  {
    var k := s.tasklets[t];
    Known(s, g, t, k.ctx);
    Framed(s, g, s.At(t, pc), g, t, k.ctx, 0, 0);
  }

  lemma JoinKeeps(s: State, g: Owners, t: Tid, n: Addr, m: Addr, h: Handle, woken: Option<Handle>)
    requires Inv(s, g) && ControllerEnabled(s, t, Tick(n, m, h, woken))
    requires s.tasklets[t].pc.Joining?
    ensures Inv(ControllerTick(s, t, n, m, h, woken), g)
  {
    var k := s.tasklets[t];
    Known(s, g, t, k.ctx);
    Framed(s, g, ControllerTick(s, t, n, m, h, woken), g, t, k.ctx, 0, s.contexts[k.ctx].thread.value);
  }

  /** Once its thread is joined, nobody else uses a context or the condition it owns. */
  lemma NobodyUses(s: State, g: Owners, t: Tid, x: Addr)
    requires Inv(s, g) && t in s.tasklets && (s.tasklets[t].pc.Joined? || s.tasklets[t].pc.Dying?)
    requires x in s.contexts && s.contexts[x].tasklet == t && s.contexts[x].thread == None
    ensures forall w :: w in s.workers ==> s.workers[w].ctx != x
    ensures s.contexts[x].owned ==>
      var c := s.contexts[x].condition;
      && c in g && g[c] == x && c !in s.shared && c in s.conditions && s.conditions[c] == None
      && (forall y :: y in s.contexts && y != x ==> s.contexts[y].condition != c)
      && (forall w :: w in s.workers ==> !Waits(s, w, c))
  {
    assert ContextOk(s, g, x, s.contexts[x]);
    forall w | w in s.workers ensures s.workers[w].ctx != x {
      assert WorkerOk(s, w, s.workers[w]);
    }
    if s.contexts[x].owned {
      var c := s.contexts[x].condition;
      assert ConditionOk(s, g, c, s.conditions[c]);
      forall y | y in s.contexts && y != x ensures s.contexts[y].condition != c {
        assert ContextOk(s, g, y, s.contexts[y]);
      }
      forall w | w in s.workers ensures !Waits(s, w, c) && s.conditions[c] != Some(Task(w)) {
        assert WorkerOk(s, w, s.workers[w]);
      }
      forall u | u in s.tasklets ensures s.conditions[c] != Some(Controller(u)) {
        assert TaskletOk(s, u, s.tasklets[u]);
      }
    }
  }

  /** Destroying a context that nobody uses works. */
  lemma Deleted(s: State, g: Owners, t: Tid, x: Addr)
    requires Inv(s, g) && t in s.tasklets && (s.tasklets[t].pc.Joined? || s.tasklets[t].pc.Dying?)
    requires x in s.contexts && s.contexts[x].tasklet == t && s.contexts[x].thread == None
    ensures var y := s.contexts[x];
      DeleteContext(s, x) == s.(contexts := s.contexts - {x},
                                conditions := if y.owned then s.conditions - {y.condition} else s.conditions)
  {
    NobodyUses(s, g, t, x);
  }

  lemma DestroyOldKeeps(s: State, g: Owners, t: Tid, n: Addr, m: Addr, h: Handle, woken: Option<Handle>)
    requires Inv(s, g) && ControllerEnabled(s, t, Tick(n, m, h, woken))
    requires s.tasklets[t].pc.Joined?
    ensures Inv(ControllerTick(s, t, n, m, h, woken), NextOwners(s, g, Step(Controller(t), Tick(n, m, h, woken))))
  {
    var k := s.tasklets[t];
    Known(s, g, t, k.ctx);
    Deleted(s, g, t, k.ctx);
    DestroyedOld(s, g, t, k.ctx, if k.pc.call.Destroy? then Dying else Return(k.pc.call, true), DeleteContext(s, k.ctx));
  }

  lemma DestroyedOld(s: State, g: Owners, t: Tid, x: Addr, pc: Pc, s1: State)
    requires Inv(s, g) && t in s.tasklets && s.tasklets[t].pc.Joined? && s.tasklets[t].ctx == x && x in s.contexts
    requires var y := s.contexts[x];
      s1 == s.(contexts := s.contexts - {x}, conditions := if y.owned then s.conditions - {y.condition} else s.conditions)
    requires pc == if s.tasklets[t].pc.call.Destroy? then Dying else Return(s.tasklets[t].pc.call, true)
    ensures Inv(s1.At(t, pc), Disowned(s, g, x))
  {
    Known(s, g, t, x);
    NobodyUses(s, g, t, x);
    Framed(s, g, s1.At(t, pc), Disowned(s, g, x), t, x, s.contexts[x].condition, 0);
  }

  lemma DestroyKeeps(s: State, g: Owners, t: Tid, n: Addr, m: Addr, h: Handle, woken: Option<Handle>)
    requires Inv(s, g) && ControllerEnabled(s, t, Tick(n, m, h, woken))
    requires s.tasklets[t].pc.Dying?
    ensures Inv(ControllerTick(s, t, n, m, h, woken), NextOwners(s, g, Step(Controller(t), Tick(n, m, h, woken))))
  {
    var x := s.tasklets[t].context;
    Known(s, g, t, x);
    Deleted(s, g, t, x);
    NobodyUses(s, g, t, x);
    Framed(s, g, ControllerTick(s, t, n, m, h, woken), Disowned(s, g, x), t, x, s.contexts[x].condition, 0);
  }

  lemma ReturnKeeps(s: State, g: Owners, t: Tid, n: Addr, m: Addr, h: Handle, woken: Option<Handle>)
    requires Inv(s, g) && ControllerEnabled(s, t, Tick(n, m, h, woken))
    requires s.tasklets[t].pc.Return?
    ensures Inv(ControllerTick(s, t, n, m, h, woken), g)
  {
    var x := s.tasklets[t].context;
    Known(s, g, t, x);
    Framed(s, g, ControllerTick(s, t, n, m, h, woken), g, t, x, 0, 0);
  }

  // ---- Every step -------------------------------------------------------------------------

  lemma TickKeeps(s: State, g: Owners, t: Tid, n: Addr, m: Addr, h: Handle, woken: Option<Handle>)
    requires Inv(s, g) && ControllerEnabled(s, t, Tick(n, m, h, woken))
    ensures Inv(ControllerTick(s, t, n, m, h, woken), NextOwners(s, g, Step(Controller(t), Tick(n, m, h, woken))))
  {
    assert TaskletOk(s, t, s.tasklets[t]);
    match s.tasklets[t].pc
    case Enter(_) => EnterKeeps(s, g, t, n, m, h, woken);
    case Inside(_) => InsideKeeps(s, g, t, n, m, h, woken);
    case StartSet => SpawnKeeps(s, g, t, n, m, h, woken);
    case StartSpawned(_) => StoreKeeps(s, g, t, n, m, h, woken);
    case Marked(call) =>
      if call.Stop? { UnlockStop(s, g, t, n, m, h, woken); } else { SwapKeeps(s, g, t, n, m, h, woken); }
    case Swapped(_) => UnlockSwapped(s, g, t, n, m, h, woken);
    case Exit(_, _) => UnlockExit(s, g, t, n, m, h, woken);
    case Notify(_) => NotifyKeeps(s, g, t, n, m, h, woken);
    case Joining(_) => JoinKeeps(s, g, t, n, m, h, woken);
    case Joined(_) => DestroyOldKeeps(s, g, t, n, m, h, woken);
    case Dying => DestroyKeeps(s, g, t, n, m, h, woken);
    case Return(_, _) => ReturnKeeps(s, g, t, n, m, h, woken);
  }

  /** Every step of every agent keeps the invariant. */
  lemma StepKeeps(s: State, g: Owners, step: Step)
    requires Inv(s, g) && Enabled(s, step)
    ensures Inv(Next(s, step), NextOwners(s, g, step))
  {
    match step.agent
    case Controller(t) =>
      match step.action {
        case Construct(x, c, owned) => ConstructKeeps(s, g, t, x, c, owned);
        case Begin(call) => BeginKeeps(s, g, t, call);
        case Tick(n, m, h, woken) => TickKeeps(s, g, t, n, m, h, woken);
      }
    case Task(w) => WorkerKeeps(s, g, w, step.action);
    case Outside => OutsideKeeps(s, g, step.action);
  }

  lemma InitialKeeps(shared: set<Addr>)
    ensures Inv(Initial(shared), map[])
  {
  }
}
