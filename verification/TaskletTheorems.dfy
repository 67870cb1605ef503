/** What every run of any number of tasklets guarantees, with one controlling thread per
    tasklet, whatever the task functions do and whoever else uses the shared conditions. */
module TaskletTheorems {
  import opened Wrappers
  import opened TaskletMachine
  import opened TaskletInvariant

  lemma {:induction false} RunKeeps(s: State, g: Owners, schedule: seq<Step>) returns (g': Owners)
    requires Inv(s, g) && Feasible(s, schedule)
    ensures Inv(Run(s, schedule), g')
    decreases |schedule|
  {
    if schedule == [] {
      g' := g;
    } else {
      StepKeeps(s, g, schedule[0]);
      g' := RunKeeps(Next(s, schedule[0]), NextOwners(s, g, schedule[0]), schedule[1..]);
    }
  }

  lemma Reach(shared: set<Addr>, schedule: seq<Step>) returns (g: Owners)
    requires Feasible(Initial(shared), schedule)
    ensures Inv(Run(Initial(shared), schedule), g)
  {
    InitialKeeps(shared);
    g := RunKeeps(Initial(shared), map[], schedule);
  }

  /** The tasklet whose controller cleared `running` of a context and still has to notify. */
  predicate StillToNotify(s: State, t: Tid, x: Addr) {
    t in s.tasklets && Clearing(s.tasklets[t].pc) && s.tasklets[t].ctx == x
  }

  /** No stop is lost: whenever a thread waits although `running` is cleared, a controller
      is still between clearing it and notifying. */
  lemma NoStopIsLost(shared: set<Addr>, schedule: seq<Step>, w: Handle)
    requires Feasible(Initial(shared), schedule)
    requires var s := Run(Initial(shared), schedule); w in s.workers && s.workers[w].pc.Waiting?
    ensures var s := Run(Initial(shared), schedule);
      var x := s.workers[w].ctx;
      x in s.contexts && (s.contexts[x].running || exists t :: StillToNotify(s, t, x))
  {
    var g := Reach(shared, schedule);
    var s := Run(Initial(shared), schedule);
    assert WorkerOk(s, w, s.workers[w]);
    var x := s.workers[w].ctx;
    if !s.contexts[x].running { assert StillToNotify(s, s.contexts[x].tasklet, x); }
  }

  /** So joining a thread that was told to stop never waits for a sleeping one, and the
      destructor never does at all. */
  lemma JoinMeetsNoSleeper(shared: set<Addr>, schedule: seq<Step>, t: Tid)
    requires Feasible(Initial(shared), schedule)
    requires var s := Run(Initial(shared), schedule); t in s.tasklets && s.tasklets[t].pc.Joining?
    ensures var s := Run(Initial(shared), schedule);
      var x := s.tasklets[t].ctx;
      && x in s.contexts && s.contexts[x].thread.Some?
      && s.contexts[x].thread.value in s.workers
      && (!s.contexts[x].running || s.tasklets[t].pc.call.Destroy? ==> !s.workers[s.contexts[x].thread.value].pc.Waiting?)
  {
    var g := Reach(shared, schedule);
    var s := Run(Initial(shared), schedule);
    assert TaskletOk(s, t, s.tasklets[t]);
    var x := s.tasklets[t].ctx;
    assert ContextOk(s, g, x, s.contexts[x]);
    var w := s.contexts[x].thread.value;
    assert WorkerOk(s, w, s.workers[w]);
  }

  /** Whoever holds a mutex can go on. */
  lemma HolderMoves(s: State, g: Owners, c: Addr) returns (step: Step)
    requires Inv(s, g) && c in s.conditions && s.conditions[c].Some?
    ensures Enabled(s, step) && s.conditions[c] == Some(step.agent)
  {
    assert ConditionOk(s, g, c, s.conditions[c]);
    match s.conditions[c].value
    case Controller(t) =>
      var n := Fresh(s.contexts.Keys);
      var m := Fresh(s.conditions.Keys);
      var h := Fresh(s.workers.Keys);
      step := Step(Controller(t), Tick(n, m, h, None));
    case Task(w) => step := Step(Task(w), Tick(0, 0, 0, None));
    case Outside => step := Step(Outside, Release(c));
  }

  /** The agent that a joining controller depends on: itself, the thread it joins, or the
      holder of the mutex the thread is waiting for. */
  predicate Involved(s: State, t: Tid, a: Agent)
    requires t in s.tasklets
  {
    var x := s.tasklets[t].ctx;
    || a == Controller(t)
    || (x in s.contexts && s.contexts[x].thread.Some? && a == Task(s.contexts[x].thread.value))
    || (Live(s, x) && s.conditions[s.contexts[x].condition] == Some(a))
  }

  /** Nor is it ever stuck in any other way: with `running` cleared, as it always is in the
      destructor, one of the agents it depends on can always take a step. */
  lemma JoinNeverStuck(shared: set<Addr>, schedule: seq<Step>, t: Tid)
    requires Feasible(Initial(shared), schedule)
    requires var s := Run(Initial(shared), schedule);
      && t in s.tasklets && s.tasklets[t].pc.Joining?
      && (s.tasklets[t].ctx in s.contexts && !s.tasklets[t].pc.call.Destroy? ==>
            !s.contexts[s.tasklets[t].ctx].running)
    ensures var s := Run(Initial(shared), schedule);
      exists step :: Enabled(s, step) && Involved(s, t, step.agent)
  {
    var g := Reach(shared, schedule);
    var s := Run(Initial(shared), schedule);
    JoinMeetsNoSleeper(shared, schedule, t);
    var x := s.tasklets[t].ctx;
    var w := s.contexts[x].thread.value;
    assert TaskletOk(s, t, s.tasklets[t]) && ContextOk(s, g, x, s.contexts[x]) && WorkerOk(s, w, s.workers[w]);
    var c := s.contexts[x].condition;
    var step;
    if s.workers[w].pc.Done? {
      step := Step(Controller(t), Tick(0, 0, 0, None));
    } else if (s.workers[w].pc.Locking? || s.workers[w].pc.Woken?) && s.conditions[c].Some? {
      step := HolderMoves(s, g, c);
    } else {
      step := Step(Task(w), if s.workers[w].pc.Running? then Finish else Tick(0, 0, 0, None));
    }
    assert Enabled(s, step) && Involved(s, t, step.agent);
  }

  /** Memory safety: nothing is used after it was freed, nothing is freed twice, nothing is
      freed while a thread holds it, waits on it or has yet to be joined; and the shared
      conditions stay. */
  ghost predicate Sound(s: State) {
    && !s.fault
    && s.shared <= s.conditions.Keys
    && (forall t :: t in s.tasklets ==> s.tasklets[t].context in s.contexts)
    && (forall w :: w in s.workers ==> Live(s, s.workers[w].ctx))
  }

  lemma MemorySafe(shared: set<Addr>, schedule: seq<Step>)
    requires Feasible(Initial(shared), schedule)
    ensures Sound(Run(Initial(shared), schedule))
    ensures Run(Initial(shared), schedule).shared == shared
  {
    var g := Reach(shared, schedule);
    var s := Run(Initial(shared), schedule);
    SharedStays(Initial(shared), schedule);
    forall t | t in s.tasklets ensures s.tasklets[t].context in s.contexts {
      assert TaskletOk(s, t, s.tasklets[t]);
    }
    forall w | w in s.workers ensures Live(s, s.workers[w].ctx) {
      assert WorkerOk(s, w, s.workers[w]);
      assert ContextOk(s, g, s.workers[w].ctx, s.contexts[s.workers[w].ctx]);
    }
  }

  lemma {:induction false} SharedStays(s: State, schedule: seq<Step>)
    requires Feasible(s, schedule)
    ensures Run(s, schedule).shared == s.shared
    decreases |schedule|
  {
    if schedule != [] {
      assert Next(s, schedule[0]).shared == s.shared;
      SharedStays(Next(s, schedule[0]), schedule[1..]);
    }
  }

  /** No two threads use the same context. */
  lemma OneThreadPerContext(shared: set<Addr>, schedule: seq<Step>, v: Handle, w: Handle)
    requires Feasible(Initial(shared), schedule)
    requires var s := Run(Initial(shared), schedule);
      v in s.workers && w in s.workers && s.workers[v].ctx == s.workers[w].ctx
    ensures v == w
  {
    var g := Reach(shared, schedule);
    var s := Run(Initial(shared), schedule);
    assert WorkerOk(s, v, s.workers[v]) && WorkerOk(s, w, s.workers[w]);
  }

  /** No leaks: between calls a tasklet has one context and nothing else, and each context
      that owns its condition has one for itself. Without tasklets nothing is left. */
  lemma NoLeak(shared: set<Addr>, schedule: seq<Step>)
    requires Feasible(Initial(shared), schedule)
    requires var s := Run(Initial(shared), schedule); forall t :: t in s.tasklets ==> s.tasklets[t].pc.Idle?
    ensures var s := Run(Initial(shared), schedule);
      && (forall x :: x in s.contexts <==> exists t :: t in s.tasklets && s.tasklets[t].context == x)
      && (forall c :: c in s.conditions <==>
            c in shared || exists x :: x in s.contexts && s.contexts[x].owned && s.contexts[x].condition == c)
      && (forall w :: w in s.workers ==> exists x :: x in s.contexts && s.contexts[x].thread == Some(w))
      && (s.tasklets == map[] ==> s.contexts == map[] && s.workers == map[] && s.conditions.Keys == shared)
  {
    var g := Reach(shared, schedule);
    var s := Run(Initial(shared), schedule);
    SharedStays(Initial(shared), schedule);
    forall x | x in s.contexts ensures exists t :: t in s.tasklets && s.tasklets[t].context == x {
      assert ContextOk(s, g, x, s.contexts[x]);
    }
    forall t | t in s.tasklets ensures s.tasklets[t].context in s.contexts {
      assert TaskletOk(s, t, s.tasklets[t]);
    }
    forall c | c in s.conditions
      ensures c in shared || exists x :: x in s.contexts && s.contexts[x].owned && s.contexts[x].condition == c
    {
      assert ConditionOk(s, g, c, s.conditions[c]);
    }
    forall x | x in s.contexts ensures s.contexts[x].condition in s.conditions {
      assert ContextOk(s, g, x, s.contexts[x]);
    }
    forall w | w in s.workers ensures exists x :: x in s.contexts && s.contexts[x].thread == Some(w) {
      assert WorkerOk(s, w, s.workers[w]);
      assert s.contexts[s.workers[w].ctx].thread == Some(w);
    }
  }

  // ---- What the calls return ------------------------------------------------------------

  /** The calls of a tasklet that have returned since it was constructed, with results. */
  ghost function LogStep(s: State, step: Step, t: Tid, log: seq<(Call, bool)>): seq<(Call, bool)>
    requires Enabled(s, step)
  {
    if step.agent != Controller(t) then log
    else if step.action.Construct? then []
    else if s.tasklets[t].pc.Return? then log + [(s.tasklets[t].pc.call, s.tasklets[t].pc.result)]
    else log
  }

  ghost function Log(s: State, schedule: seq<Step>, t: Tid, log: seq<(Call, bool)>): seq<(Call, bool)>
    requires Feasible(s, schedule)
    decreases |schedule|
  {
    if schedule == [] then log
    else Log(Next(s, schedule[0]), schedule[1..], t, LogStep(s, schedule[0], t, log))
  }

  /** Whether a thread was started that has not been waited for. */
  predicate Started(log: seq<(Call, bool)>) {
    log != [] &&
    match log[|log| - 1].0
    case Start => true
    case Wait => false
    case _ => Started(log[..|log| - 1])
  }

  /** start() succeeds exactly when there is no such thread, stop() exactly when there is. */
  predicate AnswerOk(before: seq<(Call, bool)>, call: Call, result: bool) {
    && (call.Start? ==> result == !Started(before))
    && (call.Stop? ==> result == Started(before))
  }

  ghost predicate LogOk(log: seq<(Call, bool)>) {
    forall i {:trigger log[i]} :: 0 <= i < |log| ==> AnswerOk(log[..i], log[i].0, log[i].1)
  }

  /** What the state of a tasklet knows about its calls so far. */
  predicate LogFits(s: State, k: Tasklet, log: seq<(Call, bool)>)
    requires k.context in s.contexts
  {
    var joinable := s.contexts[k.context].thread.Some?;
    match k.pc
    case Idle => joinable == Started(log)
    case Enter(_) => joinable == Started(log)
    case Inside(_) => joinable == Started(log)
    case StartSet => !Started(log)
    case StartSpawned(_) => !Started(log)
    case Marked(call) => call.Stop? ==> joinable && Started(log)
    case Notify(call) =>
      (call.Stop? ==> joinable && Started(log)) && (call.Wakeup? ==> joinable == Started(log))
    case Exit(call, result) => ReturnFits(joinable, call, result, log)
    case Return(call, result) => ReturnFits(joinable, call, result, log)
    case _ => true
  }

  predicate ReturnFits(joinable: bool, call: Call, result: bool, log: seq<(Call, bool)>) {
    && AnswerOk(log, call, result)
    && (call.Start? ==> joinable)
    && (call.Stop? || call.Wakeup? ==> joinable == Started(log))
    && (call.Wait? ==> !joinable)
  }

  ghost predicate LogInv(s: State, t: Tid, log: seq<(Call, bool)>) {
    && LogOk(log)
    && (t in s.tasklets ==> s.tasklets[t].context in s.contexts && LogFits(s, s.tasklets[t], log))
  }

  lemma OthersKeepLog(s: State, g: Owners, step: Step, t: Tid, log: seq<(Call, bool)>)
    requires Inv(s, g) && Enabled(s, step) && LogInv(s, t, log) && step.agent != Controller(t)
    ensures LogInv(Next(s, step), t, log)
  {
    StepKeeps(s, g, step);
    var s' := Next(s, step);
    if t in s'.tasklets {
      assert TaskletOk(s', t, s'.tasklets[t]);
      ContextUntouched(s, g, step, t);
    }
  }

  lemma WorkerLeaves(s: State, w: Handle, action: Action)
    requires w in s.workers
    ensures WorkerTick(s, w, action).tasklets == s.tasklets && WorkerTick(s, w, action).contexts == s.contexts
  {
  }

  lemma ControllerLeaves(s: State, g: Owners, u: Tid, n: Addr, m: Addr, h: Handle, woken: Option<Handle>, x: Addr)
    requires Inv(s, g) && ControllerEnabled(s, u, Tick(n, m, h, woken))
    requires x in s.contexts && s.contexts[x].tasklet != u
    ensures var s' := ControllerTick(s, u, n, m, h, woken);
      x in s'.contexts ==> s'.contexts[x] == s.contexts[x]
  {
    assert TaskletOk(s, u, s.tasklets[u]);
  }

  /** Only a tasklet's own controller changes its context. */
  lemma ContextUntouched(s: State, g: Owners, step: Step, t: Tid)
    requires Inv(s, g) && Enabled(s, step) && step.agent != Controller(t)
    requires t in Next(s, step).tasklets && Next(s, step).tasklets[t].context in Next(s, step).contexts
    ensures t in s.tasklets && Next(s, step).tasklets[t] == s.tasklets[t]
    ensures s.tasklets[t].context in s.contexts
    ensures Next(s, step).contexts[s.tasklets[t].context] == s.contexts[s.tasklets[t].context]
  {
    TaskletUntouched(s, step, t);
    assert TaskletOk(s, t, s.tasklets[t]);
    match step.agent
    case Task(w) => WorkerLeaves(s, w, step.action);
    case Controller(u) =>
      if step.action.Tick? {
        var a := step.action;
        ControllerLeaves(s, g, u, a.context, a.condition, a.worker, a.woken, s.tasklets[t].context);
      }
    case Outside =>
  }

  lemma LeadInLeaves(s: State, u: Tid, n: Addr, m: Addr, h: Handle, woken: Option<Handle>, t: Tid)
    requires u in s.tasklets && t != u
    requires var pc := s.tasklets[u].pc; pc.Enter? || pc.Inside? || pc.StartSet? || pc.StartSpawned?
    ensures var s' := ControllerTick(s, u, n, m, h, woken);
      (t in s'.tasklets <==> t in s.tasklets) && (t in s.tasklets ==> s'.tasklets[t] == s.tasklets[t])
  {
  }

  lemma UnlockLeaves(s: State, u: Tid, n: Addr, m: Addr, h: Handle, woken: Option<Handle>, t: Tid)
    requires u in s.tasklets && t != u
    requires var pc := s.tasklets[u].pc; pc.Marked? || pc.Swapped? || pc.Exit? || pc.Notify?
    ensures var s' := ControllerTick(s, u, n, m, h, woken);
      (t in s'.tasklets <==> t in s.tasklets) && (t in s.tasklets ==> s'.tasklets[t] == s.tasklets[t])
  {
  }

  lemma JoinLeaves(s: State, u: Tid, n: Addr, m: Addr, h: Handle, woken: Option<Handle>, t: Tid)
    requires u in s.tasklets && t != u
    requires var pc := s.tasklets[u].pc; pc.Joining? || pc.Joined? || pc.Dying? || pc.Return?
    ensures var s' := ControllerTick(s, u, n, m, h, woken);
      (t in s'.tasklets <==> t in s.tasklets) && (t in s.tasklets ==> s'.tasklets[t] == s.tasklets[t])
  {
  }

  lemma TickLeaves(s: State, u: Tid, n: Addr, m: Addr, h: Handle, woken: Option<Handle>, t: Tid)
    requires u in s.tasklets && t != u
    ensures var s' := ControllerTick(s, u, n, m, h, woken);
      (t in s'.tasklets <==> t in s.tasklets) && (t in s.tasklets ==> s'.tasklets[t] == s.tasklets[t])
  {
    var pc := s.tasklets[u].pc;
    if pc.Enter? || pc.Inside? || pc.StartSet? || pc.StartSpawned? { LeadInLeaves(s, u, n, m, h, woken, t); }
    else if pc.Marked? || pc.Swapped? || pc.Exit? || pc.Notify? { UnlockLeaves(s, u, n, m, h, woken, t); }
    else if !pc.Idle? { JoinLeaves(s, u, n, m, h, woken, t); }
  }

  lemma TaskletUntouched(s: State, step: Step, t: Tid)
    requires Enabled(s, step) && step.agent != Controller(t)
    ensures t in Next(s, step).tasklets <==> t in s.tasklets
    ensures t in s.tasklets ==> Next(s, step).tasklets[t] == s.tasklets[t]
  {
    match step.agent
    case Task(w) => WorkerLeaves(s, w, step.action);
    case Controller(u) =>
      if step.action.Tick? {
        var a := step.action;
        TickLeaves(s, u, a.context, a.condition, a.worker, a.woken, t);
      }
    case Outside =>
  }

  lemma LogGrows(log: seq<(Call, bool)>, call: Call, result: bool)
    requires LogOk(log) && AnswerOk(log, call, result)
    ensures LogOk(log + [(call, result)])
    ensures Started(log + [(call, result)]) == (call.Start? || (!call.Wait? && Started(log)))
  {
    var log' := log + [(call, result)];
    forall i | 0 <= i < |log'| ensures AnswerOk(log'[..i], log'[i].0, log'[i].1) {
      if i < |log| { assert log'[..i] == log[..i] && log'[i] == log[i]; } else { assert log'[..i] == log; }
    }
    assert log'[..|log|] == log;
  }

  lemma OwnKeepsLog(s: State, g: Owners, step: Step, t: Tid, log: seq<(Call, bool)>)
    requires Inv(s, g) && Enabled(s, step) && LogInv(s, t, log) && step.agent == Controller(t)
    ensures LogInv(Next(s, step), t, LogStep(s, step, t, log))
  {
    if step.action.Tick? {
      var a := step.action;
      TickKeepsLog(s, g, t, a.context, a.condition, a.worker, a.woken, log);
    } else if step.action.Begin? {
      assert TaskletOk(s, t, s.tasklets[t]);
    }
  }

  lemma TickKeepsLog(s: State, g: Owners, t: Tid, n: Addr, m: Addr, h: Handle, woken: Option<Handle>, log: seq<(Call, bool)>)
    requires Inv(s, g) && ControllerEnabled(s, t, Tick(n, m, h, woken)) && LogInv(s, t, log)
    ensures LogInv(ControllerTick(s, t, n, m, h, woken), t, LogStep(s, Step(Controller(t), Tick(n, m, h, woken)), t, log))
  {
    var k := s.tasklets[t];
    assert TaskletOk(s, t, k);
    if k.pc.Return? { LogGrows(log, k.pc.call, k.pc.result); }
    else if k.pc.Inside? { InsideKeepsLog(s, g, t, n, m, h, woken, log); }
    else if k.pc.Enter? || k.pc.StartSet? || k.pc.StartSpawned? { LeadInKeepsLog(s, g, t, n, m, h, woken, log); }
    else if k.pc.Joining? || k.pc.Joined? || k.pc.Dying? { JoinKeepsLog(s, g, t, n, m, h, woken, log); }
    else { LeavingKeepsLog(s, g, t, n, m, h, woken, log); }
  }

  lemma InsideKeepsLog(s: State, g: Owners, t: Tid, n: Addr, m: Addr, h: Handle, woken: Option<Handle>, log: seq<(Call, bool)>)
    requires Inv(s, g) && ControllerEnabled(s, t, Tick(n, m, h, woken)) && LogInv(s, t, log)
    requires s.tasklets[t].pc.Inside?
    ensures LogInv(ControllerTick(s, t, n, m, h, woken), t, log)
  {
    assert TaskletOk(s, t, s.tasklets[t]);
  }

  lemma LeadInKeepsLog(s: State, g: Owners, t: Tid, n: Addr, m: Addr, h: Handle, woken: Option<Handle>, log: seq<(Call, bool)>)
    requires Inv(s, g) && ControllerEnabled(s, t, Tick(n, m, h, woken)) && LogInv(s, t, log)
    requires var pc := s.tasklets[t].pc; pc.Enter? || pc.StartSet? || pc.StartSpawned?
    ensures LogInv(ControllerTick(s, t, n, m, h, woken), t, log)
  {
    var k := s.tasklets[t];
    assert TaskletOk(s, t, k);
    if InCall(k.pc) { assert ContextOk(s, g, k.ctx, s.contexts[k.ctx]); }
  }

  lemma LeavingKeepsLog(s: State, g: Owners, t: Tid, n: Addr, m: Addr, h: Handle, woken: Option<Handle>, log: seq<(Call, bool)>)
    requires Inv(s, g) && ControllerEnabled(s, t, Tick(n, m, h, woken)) && LogInv(s, t, log)
    requires var pc := s.tasklets[t].pc; pc.Marked? || pc.Swapped? || pc.Exit? || pc.Notify?
    ensures LogInv(ControllerTick(s, t, n, m, h, woken), t, log)
  {
    var k := s.tasklets[t];
    assert TaskletOk(s, t, k);
    if InCall(k.pc) { assert ContextOk(s, g, k.ctx, s.contexts[k.ctx]); }
  }

  lemma JoinKeepsLog(s: State, g: Owners, t: Tid, n: Addr, m: Addr, h: Handle, woken: Option<Handle>, log: seq<(Call, bool)>)
    requires Inv(s, g) && ControllerEnabled(s, t, Tick(n, m, h, woken)) && LogInv(s, t, log)
    requires var pc := s.tasklets[t].pc; pc.Joining? || pc.Joined? || pc.Dying?
    ensures LogInv(ControllerTick(s, t, n, m, h, woken), t, log)
  {
    var k := s.tasklets[t];
    assert TaskletOk(s, t, k);
    if InCall(k.pc) { assert ContextOk(s, g, k.ctx, s.contexts[k.ctx]); }
  }

  lemma {:induction false} RunKeepsLog(s: State, g: Owners, schedule: seq<Step>, t: Tid, log: seq<(Call, bool)>)
    requires Inv(s, g) && Feasible(s, schedule) && LogInv(s, t, log)
    ensures LogInv(Run(s, schedule), t, Log(s, schedule, t, log))
    decreases |schedule|
  {
    if schedule != [] {
      var step := schedule[0];
      StepKeeps(s, g, step);
      if step.agent == Controller(t) { OwnKeepsLog(s, g, step, t, log); } else { OthersKeepLog(s, g, step, t, log); }
      RunKeepsLog(Next(s, step), NextOwners(s, g, step), schedule[1..], t, LogStep(s, step, t, log));
    }
  }

  /** In every run start() returns true exactly when no thread was started since the last
      wait() returned, and stop() exactly when one was. */
  lemma CallsAnswered(shared: set<Addr>, schedule: seq<Step>, t: Tid)
    requires Feasible(Initial(shared), schedule)
    ensures LogOk(Log(Initial(shared), schedule, t, []))
    ensures var s := Run(Initial(shared), schedule);
      t in s.tasklets && s.tasklets[t].pc.Idle? ==>
        s.tasklets[t].context in s.contexts &&
        s.contexts[s.tasklets[t].context].thread.Some? == Started(Log(Initial(shared), schedule, t, []))
  {
    InitialKeeps(shared);
    RunKeepsLog(Initial(shared), map[], schedule, t, []);
  }

  /** After wait() has returned the next start() succeeds. */
  lemma RestartsAfterWait(shared: set<Addr>, schedule: seq<Step>, t: Tid, i: nat, j: nat)
    requires Feasible(Initial(shared), schedule)
    requires var log := Log(Initial(shared), schedule, t, []);
      && i < j < |log| && log[i].0.Wait? && log[j].0.Start?
      && forall l :: i < l < j ==> !log[l].0.Start?
    ensures Log(Initial(shared), schedule, t, [])[j].1
  {
    CallsAnswered(shared, schedule, t);
    NotStarted(Log(Initial(shared), schedule, t, []), i, j);
  }

  lemma {:induction false} NotStarted(log: seq<(Call, bool)>, i: nat, j: nat)
    requires i < j <= |log| && log[i].0.Wait? && forall l :: i < l < j ==> !log[l].0.Start?
    ensures !Started(log[..j])
    decreases j
  {
    assert log[..j][..j - 1] == log[..j - 1];
    if i < j - 1 { NotStarted(log, i, j - 1); }
  }
}
