/** What the `running` flag of a context says in every run, what nanosleep() answers, and
    whom a notification wakes. */
module TaskletFlags {
  import opened Wrappers
  import opened TaskletMachine
  import opened TaskletInvariant
  import opened TaskletTheorems

  // ---- The flag -----------------------------------------------------------------------

  /** With the mutex taken, a call of x's controller looks whether there is a thread. */
  predicate LooksInside(s: State, step: Step, x: Addr, call: Call) {
    && step.agent.Controller? && step.action.Tick? && step.agent.t in s.tasklets
    && s.tasklets[step.agent.t].pc == Inside(call) && s.tasklets[step.agent.t].ctx == x
    && x in s.contexts
  }

  /** A start() that finds no thread. */
  predicate Starts(s: State, step: Step, x: Addr) {
    LooksInside(s, step, x, Start) && s.contexts[x].thread.None?
  }

  /** A stop() or a destructor that finds one. */
  predicate Tells(s: State, step: Step, x: Addr) {
    (LooksInside(s, step, x, Stop) || LooksInside(s, step, x, Destroy)) && s.contexts[x].thread.Some?
  }

  predicate ToldAfter(s: State, step: Step, x: Addr, told: bool) {
    if Starts(s, step, x) then false else told || Tells(s, step, x)
  }

  /** Whether the thread of x was told to stop since it was last started. */
  ghost predicate Told(s: State, schedule: seq<Step>, x: Addr, told: bool)
    requires Feasible(s, schedule)
    decreases |schedule|
  {
    if schedule == [] then told
    else Told(Next(s, schedule[0]), schedule[1..], x, ToldAfter(s, schedule[0], x, told))
  }

  /** A thread of x was started, or is about to be, and was not joined yet. */
  predicate Begun(s: State, x: Addr) {
    x in s.contexts &&
    var c := s.contexts[x];
    c.thread.Some? ||
    (c.tasklet in s.tasklets && s.tasklets[c.tasklet].ctx == x &&
     (s.tasklets[c.tasklet].pc.StartSet? || s.tasklets[c.tasklet].pc.StartSpawned?))
  }

  predicate FlagOk(s: State, x: Addr, told: bool) {
    Begun(s, x) ==> (s.contexts[x].running <==> !told)
  }

  lemma LeadInFlag(s: State, g: Owners, t: Tid, n: Addr, m: Addr, h: Handle, woken: Option<Handle>, x: Addr, told: bool)
    requires Inv(s, g) && ControllerEnabled(s, t, Tick(n, m, h, woken)) && FlagOk(s, x, told)
    requires var pc := s.tasklets[t].pc; pc.Enter? || pc.StartSet? || pc.StartSpawned?
    ensures FlagOk(ControllerTick(s, t, n, m, h, woken), x, told)
  {
    assert TaskletOk(s, t, s.tasklets[t]);
    if x in s.contexts { assert ContextOk(s, g, x, s.contexts[x]); }
  }

  lemma UnlockFlag(s: State, g: Owners, t: Tid, n: Addr, m: Addr, h: Handle, woken: Option<Handle>, x: Addr, told: bool)
    requires Inv(s, g) && ControllerEnabled(s, t, Tick(n, m, h, woken)) && FlagOk(s, x, told)
    requires var pc := s.tasklets[t].pc; pc.Marked? || pc.Swapped? || pc.Exit? || pc.Notify?
    ensures FlagOk(ControllerTick(s, t, n, m, h, woken), x, told)
  {
    assert TaskletOk(s, t, s.tasklets[t]);
    if x in s.contexts { assert ContextOk(s, g, x, s.contexts[x]); }
  }

  lemma JoinFlag(s: State, g: Owners, t: Tid, n: Addr, m: Addr, h: Handle, woken: Option<Handle>, x: Addr, told: bool)
    requires Inv(s, g) && ControllerEnabled(s, t, Tick(n, m, h, woken)) && FlagOk(s, x, told)
    requires var pc := s.tasklets[t].pc; pc.Joining? || pc.Joined? || pc.Dying? || pc.Return?
    ensures FlagOk(ControllerTick(s, t, n, m, h, woken), x, told)
  {
    assert TaskletOk(s, t, s.tasklets[t]);
    if x in s.contexts { assert ContextOk(s, g, x, s.contexts[x]); }
  }

  lemma InsideFlag(s: State, g: Owners, t: Tid, n: Addr, m: Addr, h: Handle, woken: Option<Handle>, x: Addr, told: bool)
    requires Inv(s, g) && ControllerEnabled(s, t, Tick(n, m, h, woken)) && FlagOk(s, x, told)
    requires s.tasklets[t].pc.Inside?
    ensures FlagOk(ControllerTick(s, t, n, m, h, woken), x, ToldAfter(s, Step(Controller(t), Tick(n, m, h, woken)), x, told))
  {
    assert TaskletOk(s, t, s.tasklets[t]);
    if x in s.contexts { assert ContextOk(s, g, x, s.contexts[x]); }
  }

  lemma StepFlag(s: State, g: Owners, step: Step, x: Addr, told: bool)
    requires Inv(s, g) && Enabled(s, step) && FlagOk(s, x, told)
    ensures FlagOk(Next(s, step), x, ToldAfter(s, step, x, told))
  {
    match step.agent
    case Task(w) => WorkerLeaves(s, w, step.action);
    case Outside =>
    case Controller(t) =>
      match step.action {
        case Construct(n, c, owned) =>
        case Begin(call) =>
        case Tick(n, m, h, woken) =>
          var pc := s.tasklets[t].pc;
          if pc.Inside? { InsideFlag(s, g, t, n, m, h, woken, x, told); }
          else if pc.Enter? || pc.StartSet? || pc.StartSpawned? { LeadInFlag(s, g, t, n, m, h, woken, x, told); }
          else if pc.Joining? || pc.Joined? || pc.Dying? || pc.Return? { JoinFlag(s, g, t, n, m, h, woken, x, told); }
          else { UnlockFlag(s, g, t, n, m, h, woken, x, told); }
      }
  }

  lemma {:induction false} RunFlag(s: State, g: Owners, schedule: seq<Step>, x: Addr, told: bool) returns (g': Owners)
    requires Inv(s, g) && Feasible(s, schedule) && FlagOk(s, x, told)
    ensures Inv(Run(s, schedule), g') && FlagOk(Run(s, schedule), x, Told(s, schedule, x, told))
    decreases |schedule|
  {
    if schedule == [] {
      g' := g;
    } else {
      StepKeeps(s, g, schedule[0]);
      StepFlag(s, g, schedule[0], x, told);
      g' := RunFlag(Next(s, schedule[0]), NextOwners(s, g, schedule[0]), schedule[1..], x, ToldAfter(s, schedule[0], x, told));
    }
  }

  /** In every run, as long as a thread is not joined, its flag is set exactly when no stop()
      and no destructor has told it to stop since it was started. */
  lemma RunningExactly(shared: set<Addr>, schedule: seq<Step>, x: Addr)
    requires Feasible(Initial(shared), schedule)
    requires var s := Run(Initial(shared), schedule); x in s.contexts && s.contexts[x].thread.Some?
    ensures Run(Initial(shared), schedule).contexts[x].running <==> !Told(Initial(shared), schedule, x, false)
  {
    InitialKeeps(shared);
    var g := RunFlag(Initial(shared), map[], schedule, x, false);
  }

  // ---- What nanosleep() answers ---------------------------------------------------------

  /** The result a thread returns from nanosleep() in this step. */
  function Answered(s: State, step: Step): Option<bool> {
    match step.agent
    case Task(w) =>
      if w in s.workers && step.action.Tick? && s.workers[w].pc.Leaving? then Some(s.workers[w].pc.result) else None
    case _ => None
  }

  /** The result was read under the mutex, which is still held. */
  predicate LeavingOk(s: State, w: Handle) {
    w in s.workers && s.workers[w].pc.Leaving? && s.workers[w].ctx in s.contexts ==>
      (s.workers[w].pc.result <==> s.contexts[s.workers[w].ctx].running)
  }

  lemma ControllerLeaving(s: State, g: Owners, t: Tid, n: Addr, m: Addr, h: Handle, woken: Option<Handle>, w: Handle)
    requires Inv(s, g) && ControllerEnabled(s, t, Tick(n, m, h, woken)) && LeavingOk(s, w)
    ensures LeavingOk(ControllerTick(s, t, n, m, h, woken), w)
  {
    assert TaskletOk(s, t, s.tasklets[t]);
    if w in s.workers { assert WorkerOk(s, w, s.workers[w]); }
  }

  lemma WorkerLeaving(s: State, g: Owners, v: Handle, action: Action, w: Handle)
    requires Inv(s, g) && v in s.workers && WorkerEnabled(s, v, action) && LeavingOk(s, w)
    ensures LeavingOk(WorkerTick(s, v, action), w)
  {
    assert WorkerOk(s, v, s.workers[v]);
  }

  lemma StepLeaving(s: State, g: Owners, step: Step, w: Handle)
    requires Inv(s, g) && Enabled(s, step) && LeavingOk(s, w)
    ensures LeavingOk(Next(s, step), w)
  {
    match step.agent
    case Task(v) => WorkerLeaving(s, g, v, step.action, w);
    case Outside =>
    case Controller(t) =>
      match step.action {
        case Construct(n, c, owned) => if w in s.workers { assert WorkerOk(s, w, s.workers[w]); }
        case Begin(call) =>
        case Tick(n, m, h, woken) => ControllerLeaving(s, g, t, n, m, h, woken, w);
      }
  }

  lemma {:induction false} RunLeaving(s: State, g: Owners, schedule: seq<Step>, w: Handle)
    requires Inv(s, g) && Feasible(s, schedule) && LeavingOk(s, w)
    ensures LeavingOk(Run(s, schedule), w)
    decreases |schedule|
  {
    if schedule != [] {
      StepKeeps(s, g, schedule[0]);
      StepLeaving(s, g, schedule[0], w);
      RunLeaving(Next(s, schedule[0]), NextOwners(s, g, schedule[0]), schedule[1..], w);
    }
  }

  /** In every run nanosleep() returns true exactly when the thread has not been told to stop
      since it was started. */
  lemma SleepAnswers(shared: set<Addr>, schedule: seq<Step>, step: Step)
    requires Feasible(Initial(shared), schedule) && Enabled(Run(Initial(shared), schedule), step)
    requires Answered(Run(Initial(shared), schedule), step).Some?
    ensures var s := Run(Initial(shared), schedule);
      && step.agent.w in s.workers
      && (Answered(s, step).value <==> !Told(Initial(shared), schedule, s.workers[step.agent.w].ctx, false))
  {
    var s, w := Run(Initial(shared), schedule), step.agent.w;
    var x := s.workers[w].ctx;
    InitialKeeps(shared);
    var g := RunFlag(Initial(shared), map[], schedule, x, false);
    RunLeaving(Initial(shared), map[], schedule, w);
    assert WorkerOk(s, w, s.workers[w]);
  }

  // ---- Whom a notification wakes --------------------------------------------------------

  /** The step with which a wakeup() returns, or a stop() that found a thread, or with which
      a wait() or a destructor begins to join. */
  ghost predicate Past(s: State, step: Step, t: Tid)
    requires Enabled(s, step)
  {
    && step.agent == Controller(t) && t in s.tasklets && t in Next(s, step).tasklets
    && var pc, pc' := s.tasklets[t].pc, Next(s, step).tasklets[t].pc;
      && pc' != pc
      && ((pc'.Return? && (pc'.call.Wakeup? || (pc'.call.Stop? && pc'.result))) || pc'.Joining?)
  }

  /** At that step whatever thread of the context was waiting is woken up, and with a shared
      condition everyone who waits on it. */
  lemma WokenUp(shared: set<Addr>, schedule: seq<Step>, step: Step, t: Tid, w: Handle)
    requires Feasible(Initial(shared), schedule) && Enabled(Run(Initial(shared), schedule), step)
    requires Past(Run(Initial(shared), schedule), step, t)
    requires var s := Run(Initial(shared), schedule); w in s.workers && s.workers[w].pc.Waiting?
    requires var s := Run(Initial(shared), schedule);
      var x := s.tasklets[t].ctx;
      s.workers[w].ctx == x || (x in s.contexts && !s.contexts[x].owned && Waits(s, w, s.contexts[x].condition))
    ensures var s' := Next(Run(Initial(shared), schedule), step); w in s'.workers && s'.workers[w].pc.Woken?
  {
    var s := Run(Initial(shared), schedule);
    var g := Reach(shared, schedule);
    assert step.action.Tick?;
    var k, a := s.tasklets[t], step.action;
    assert TaskletOk(s, t, k);
    assert WorkerOk(s, w, s.workers[w]);
    OnlyByNotifying(s, g, t, a.context, a.condition, a.worker, a.woken);
    assert ContextOk(s, g, k.ctx, s.contexts[k.ctx]);
    if s.contexts[k.ctx].owned { NotifiedAll(s, g, t, w, a.woken); }
  }

  lemma OnlyByNotifying(s: State, g: Owners, t: Tid, n: Addr, m: Addr, h: Handle, woken: Option<Handle>)
    requires Inv(s, g) && ControllerEnabled(s, t, Tick(n, m, h, woken))
    requires Enabled(s, Step(Controller(t), Tick(n, m, h, woken))) && Past(s, Step(Controller(t), Tick(n, m, h, woken)), t)
    ensures s.tasklets[t].pc.Notify?
  {
    assert TaskletOk(s, t, s.tasklets[t]);
  }

  /** And wakeup() works on the tasklet's present context. */
  lemma WakesPresent(shared: set<Addr>, schedule: seq<Step>, t: Tid)
    requires Feasible(Initial(shared), schedule)
    requires var s := Run(Initial(shared), schedule); t in s.tasklets && s.tasklets[t].pc == Notify(Wakeup)
    ensures var k := Run(Initial(shared), schedule).tasklets[t]; k.ctx == k.context
  {
    var g := Reach(shared, schedule);
    var s := Run(Initial(shared), schedule);
    assert TaskletOk(s, t, s.tasklets[t]);
  }

  lemma TickJoins(s: State, g: Owners, t: Tid, n: Addr, m: Addr, h: Handle, woken: Option<Handle>, w: Handle)
    requires Inv(s, g) && ControllerEnabled(s, t, Tick(n, m, h, woken)) && w in s.workers
    ensures w in ControllerTick(s, t, n, m, h, woken).workers || s.workers[w].pc.Done?
  {
    assert TaskletOk(s, t, s.tasklets[t]);
  }

  /** Threads go away only by being joined, and only when they are done. */
  lemma JoinedDone(shared: set<Addr>, schedule: seq<Step>, step: Step, w: Handle)
    requires Feasible(Initial(shared), schedule) && Enabled(Run(Initial(shared), schedule), step)
    requires w in Run(Initial(shared), schedule).workers && w !in Next(Run(Initial(shared), schedule), step).workers
    ensures Run(Initial(shared), schedule).workers[w].pc.Done?
  {
    var g := Reach(shared, schedule);
    var s := Run(Initial(shared), schedule);
    if step.agent.Controller? && step.action.Tick? {
      var a := step.action;
      TickJoins(s, g, step.agent.t, a.context, a.condition, a.worker, a.woken, w);
    } else if step.agent.Task? {
      WorkersStay(s, step.agent.w, step.action, w);
    }
  }

  lemma WorkersStay(s: State, v: Handle, action: Action, w: Handle)
    requires v in s.workers && w in s.workers
    ensures w in WorkerTick(s, v, action).workers
  {
  }

  // ---- A whole life ---------------------------------------------------------------------

  lemma {:induction false} OneMoreStep(s: State, schedule: seq<Step>, step: Step, t: Tid, log: seq<(Call, bool)>)
    requires Feasible(s, schedule) && Enabled(Run(s, schedule), step)
    ensures Feasible(s, schedule + [step]) && Run(s, schedule + [step]) == Next(Run(s, schedule), step)
    ensures Log(s, schedule + [step], t, log) == LogStep(Run(s, schedule), step, t, Log(s, schedule, t, log))
    decreases |schedule|
  {
    var longer := schedule + [step];
    if schedule == [] {
      assert longer[1..] == [];
    } else {
      assert longer[0] == schedule[0] && longer[1..] == schedule[1..] + [step];
      OneMoreStep(Next(s, schedule[0]), schedule[1..], step, t, LogStep(s, schedule[0], t, log));
    }
  }

  /** A run from nothing, with its end and the log of tasklet 0. */
  datatype Story = Story(schedule: seq<Step>, end: State, log: seq<(Call, bool)>)

  ghost predicate Happens(r: Story) {
    Feasible(Initial({}), r.schedule) && r.end == Run(Initial({}), r.schedule) && r.log == Log(Initial({}), r.schedule, 0, [])
  }

  lemma Then(r: Story, step: Step) returns (r': Story)
    requires Happens(r) && Enabled(r.end, step)
    ensures Happens(r') && r'.end == Next(r.end, step) && r'.log == LogStep(r.end, step, 0, r.log)
  {
    OneMoreStep(Initial({}), r.schedule, step, 0, []);
    r' := Story(r.schedule + [step], Next(r.end, step), LogStep(r.end, step, 0, r.log));
  }

  const OWN := Step(Controller(0), Tick(1, 1, 0, None))
  const TASK := Step(Task(0), Tick(0, 0, 0, None))

  /** Tasklet 0 with context and condition c, its thread at pc unless there is none. */
  predicate Stands(s: State, c: Addr, running: bool, thread: Option<WorkerPc>) {
    && !s.fault && s.shared == {} && s.tasklets.Keys == {0} && s.tasklets[0].pc.Idle? && s.tasklets[0].context == c
    && s.contexts == map[c := Context(0, running, c, true, if thread.Some? then Some(0) else None)]
    && s.conditions == map[c := None]
    && s.workers == (if thread.Some? then map[0 := Worker(c, thread.value)] else map[])
  }

  lemma Constructed() returns (r: Story)
    ensures Happens(r) && Stands(r.end, 0, false, None) && r.log == []
  {
    r := Story([], Initial({}), []);
    r := Then(r, Step(Controller(0), Construct(0, 0, true)));
  }

  lemma AboutToSpawn() returns (r: Story)
    ensures Happens(r) && r.log == [] && !r.end.fault && r.end.shared == {}
    ensures r.end.tasklets == map[0 := Tasklet(0, 0, 0, StartSet)] && r.end.workers == map[]
    ensures r.end.contexts == map[0 := Context(0, true, 0, true, None)] && r.end.conditions == map[0 := Some(Controller(0))]
  {
    r := Constructed();
    r := Then(r, Step(Controller(0), Begin(Start)));
    r := Then(r, OWN);
    r := Then(r, OWN);
  }

  /** start() returns. */
  lemma Started() returns (r: Story)
    ensures Happens(r) && Stands(r.end, 0, true, Some(Running)) && r.log == [(Start, true)]
  {
    r := AboutToSpawn();
    r := Then(r, OWN);
    r := Then(r, OWN);
    assert r.end.tasklets[0].pc == Exit(Start, true);
    r := Then(r, OWN);
    r := Then(r, OWN);
  }

  /** There are runs in which a thread waits. */
  lemma Asleep() returns (r: Story)
    ensures Happens(r) && Stands(r.end, 0, true, Some(Waiting(0))) && r.log == [(Start, true)]
  {
    r := Started();
    r := Then(r, Step(Task(0), Sleep));
    r := Then(r, TASK);
    assert r.end.workers[0].pc == Locked(0);
    r := Then(r, TASK);
    assert r.end.workers[0].pc == Checked(0);
    r := Then(r, TASK);
  }

  lemma BeforeWaking() returns (r: Story)
    ensures Happens(r) && r.log == [(Start, true)] && !r.end.fault && r.end.shared == {}
    ensures r.end.tasklets == map[0 := Tasklet(0, 0, 0, Notify(Stop))] && r.end.workers == map[0 := Worker(0, Waiting(0))]
    ensures r.end.contexts == map[0 := Context(0, false, 0, true, Some(0))] && r.end.conditions == map[0 := None]
  {
    r := Asleep();
    r := Then(r, Step(Controller(0), Begin(Stop)));
    r := Then(r, OWN);
    r := Then(r, OWN);
    assert r.end.tasklets[0].pc == Marked(Stop);
    r := Then(r, OWN);
  }

  /** stop() wakes it up. */
  lemma Stopped() returns (r: Story)
    ensures Happens(r) && Stands(r.end, 0, false, Some(Woken(0))) && r.log == [(Start, true), (Stop, true)]
  {
    r := BeforeWaking();
    assert Waits(r.end, 0, 0);
    r := Then(r, Step(Controller(0), Tick(1, 1, 0, Some(0))));
    r := Then(r, OWN);
  }

  /** The thread comes back and ends. */
  lemma Ended() returns (r: Story)
    ensures Happens(r) && Stands(r.end, 0, false, Some(Done)) && r.log == [(Start, true), (Stop, true)]
  {
    r := Stopped();
    r := Then(r, TASK);
    assert r.end.workers[0].pc == Awake(0);
    r := Then(r, TASK);
    assert r.end.workers[0].pc == Leaving(0, false);
    r := Then(r, TASK);
    r := Then(r, Step(Task(0), Finish));
  }

  lemma BeforeSwap() returns (r: Story)
    ensures Happens(r) && r.log == [(Start, true), (Stop, true)] && !r.end.fault && r.end.shared == {}
    ensures r.end.tasklets == map[0 := Tasklet(0, 0, 0, Marked(Wait))]
    ensures r.end.contexts == map[0 := Context(0, false, 0, true, Some(0))]
    ensures r.end.conditions == map[0 := Some(Controller(0))] && r.end.workers == map[0 := Worker(0, Done)]
  {
    r := Ended();
    r := Then(r, Step(Controller(0), Begin(Wait)));
    assert r.end.tasklets[0].pc == Enter(Wait);
    r := Then(r, OWN);
    r := Then(r, OWN);
  }

  lemma BeforeNotify() returns (r: Story)
    ensures Happens(r) && r.log == [(Start, true), (Stop, true)] && !r.end.fault && r.end.shared == {}
    ensures r.end.tasklets == map[0 := Tasklet(1, 0, 0, Notify(Wait))]
    ensures r.end.contexts == map[0 := Context(0, false, 0, true, Some(0)), 1 := Context(0, false, 1, true, None)]
    ensures r.end.conditions == map[0 := None, 1 := None] && r.end.workers == map[0 := Worker(0, Done)]
  {
    r := BeforeSwap();
    r := Then(r, OWN);
    assert r.end.tasklets[0].pc == Swapped(Wait);
    r := Then(r, OWN);
  }

  lemma BeforeJoin() returns (r: Story)
    ensures Happens(r) && r.log == [(Start, true), (Stop, true)] && !r.end.fault && r.end.shared == {}
    ensures r.end.tasklets == map[0 := Tasklet(1, 0, 0, Joining(Wait))]
    ensures r.end.contexts == map[0 := Context(0, false, 0, true, Some(0)), 1 := Context(0, false, 1, true, None)]
    ensures r.end.conditions == map[0 := None, 1 := None] && r.end.workers == map[0 := Worker(0, Done)]
  {
    r := BeforeNotify();
    r := Then(r, OWN);
  }

  lemma PastJoin() returns (r: Story)
    ensures Happens(r) && r.log == [(Start, true), (Stop, true)] && !r.end.fault && r.end.shared == {}
    ensures r.end.tasklets == map[0 := Tasklet(1, 0, 0, Joined(Wait))]
    ensures r.end.contexts == map[0 := Context(0, false, 0, true, None), 1 := Context(0, false, 1, true, None)]
    ensures r.end.conditions == map[0 := None, 1 := None] && r.end.workers == map[]
  {
    r := BeforeJoin();
    r := Then(r, OWN);
  }

  lemma PastDelete() returns (r: Story)
    ensures Happens(r) && r.log == [(Start, true), (Stop, true)] && !r.end.fault && r.end.shared == {}
    ensures r.end.tasklets == map[0 := Tasklet(1, 0, 0, Return(Wait, true))] && r.end.workers == map[]
    ensures r.end.contexts == map[1 := Context(0, false, 1, true, None)] && r.end.conditions == map[1 := None]
  {
    r := PastJoin();
    assert r.end.workers == map[];
    r := Then(r, OWN);
  }

  /** wait() returns. */
  lemma Waited() returns (r: Story)
    ensures Happens(r) && Stands(r.end, 1, false, None) && r.log == [(Start, true), (Stop, true), (Wait, true)]
  {
    r := PastDelete();
    r := Then(r, OWN);
  }

  lemma BeforeUnlock() returns (r: Story)
    ensures Happens(r) && r.log == [(Start, true), (Stop, true), (Wait, true)] && !r.end.fault && r.end.shared == {}
    ensures r.end.tasklets == map[0 := Tasklet(1, 1, 1, Exit(Destroy, true))] && r.end.workers == map[]
    ensures r.end.contexts == map[1 := Context(0, false, 1, true, None)]
    ensures r.end.conditions == map[1 := Some(Controller(0))]
  {
    r := Waited();
    r := Then(r, Step(Controller(0), Begin(Destroy)));
    assert r.end.tasklets[0].pc == Enter(Destroy);
    r := Then(r, OWN);
    assert r.end.tasklets[0].pc == Inside(Destroy);
    r := Then(r, OWN);
  }

  /** And the destructor leaves nothing behind. */
  lemma WholeLife() returns (r: Story)
    ensures Happens(r) && r.end == Initial({}) && r.log == [(Start, true), (Stop, true), (Wait, true)]
  {
    r := BeforeUnlock();
    r := Then(r, OWN);
    assert r.end.tasklets == map[0 := Tasklet(1, 1, 1, Dying)];
    assert r.end.workers == map[];
    r := Then(r, OWN);
  }
}
