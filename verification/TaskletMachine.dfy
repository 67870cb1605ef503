/** Small-step model of tasklets (concurrency/tasklet.cpp).

    Any number of tasklets, each with one controlling thread, and the threads they start.
    A step is one access of the source to shared memory, a mutex, a condition variable, a
    thread or the allocator. Addresses and thread handles may be handed out again. A waiting
    thread may wake up for no reason, which also stands for the end of a timed wait. Every
    use of memory that is not allocated, and whatever else the C++ runtime forbids, sets
    `fault`. */
module TaskletMachine {
  import opened Wrappers

  type Addr = nat    // address of a context or of a sleep condition
  type Tid = nat     // a tasklet with its controlling thread
  type Handle = nat  // a thread started by a tasklet

  /** Who can hold the mutex of a condition. Threads that have nothing to do with tasklets
      may use the conditions shared with them. */
  datatype Agent = Controller(t: Tid) | Task(w: Handle) | Outside

  /** tasklet.cpp:32-43 with tasklet.h:76-84. */
  datatype Context = Context(
    tasklet: Tid,
    running: bool,
    condition: Addr,
    owned: bool,
    thread: Option<Handle>)

  datatype Call = Start | Stop | Wait | Wakeup | Destroy

  /** Where a controlling thread stands. */
  datatype Pc =
    | Idle
    | Enter(call: Call)                  // before taking the mutex
    | Inside(call: Call)                 // before looking whether the thread is joinable
    | StartSet                           // `running` is set
    | StartSpawned(w: Handle)            // the thread runs, its handle is not stored yet
    | Marked(call: Call)                 // a joinable thread was found; told to stop if asked to
    | Swapped(call: Call)                // the tasklet has a new context
    | Exit(call: Call, result: bool)     // before releasing the mutex on the way out
    | Notify(call: Call)                 // after releasing the mutex, before the notification
    | Joining(call: Call)
    | Joined(call: Call)                 // before the old context is destroyed
    | Dying                              // before the tasklet's context is destroyed
    | Return(call: Call, result: bool)

  /** A tasklet's context, and its controlling thread with its locals: the context it works
      on and the mutex it has locked. */
  datatype Tasklet = Tasklet(context: Addr, ctx: Addr, lock: Addr, pc: Pc)

  /** Where a started thread stands; `lock` is the mutex of nanosleep's lock object. */
  datatype WorkerPc =
    | Running
    | Locking
    | Locked(lock: Addr)
    | Checked(lock: Addr)                // `running` was seen to be set
    | Waiting(lock: Addr)
    | Woken(lock: Addr)
    | Awake(lock: Addr)                  // has the mutex back
    | Leaving(lock: Addr, result: bool)
    | Done

  datatype Worker = Worker(ctx: Addr, pc: WorkerPc)

  /** Each condition is given by the holder of its mutex. */
  datatype State = State(
    contexts: map<Addr, Context>,
    conditions: map<Addr, Option<Agent>>,
    shared: set<Addr>,
    tasklets: map<Tid, Tasklet>,
    workers: map<Handle, Worker>,
    fault: bool)
  {
    function Fault(): State {
      this.(fault := true)
    }

    function At(t: Tid, pc: Pc): State
      requires t in tasklets
    {
      this.(tasklets := tasklets[t := tasklets[t].(pc := pc)])
    }

    function WorkerAt(w: Handle, pc: WorkerPc): State
      requires w in workers
    {
      this.(workers := workers[w := workers[w].(pc := pc)])
    }

    function Hold(c: Addr, holder: Option<Agent>): State {
      this.(conditions := conditions[c := holder])
    }
  }

  /** What an agent does next. An allocation returns `context` or `condition`, a new thread
      is `worker`, and a notification of one wakes up `woken`. */
  datatype Action =
    | Construct(context: Addr, condition: Addr, owned: bool)
    | Begin(call: Call)
    | Tick(context: Addr, condition: Addr, worker: Handle, woken: Option<Handle>)
    | Look
    | Sleep
    | Finish
    | Grab(condition: Addr)
    | Release(condition: Addr)

  datatype Step = Step(agent: Agent, action: Action)

  function Initial(shared: set<Addr>): State {
    State(map[], map c | c in shared :: None, shared, map[], map[], false)
  }

  predicate Waits(s: State, w: Handle, c: Addr) {
    w in s.workers && s.workers[w].pc == Waiting(c)
  }

  predicate Live(s: State, x: Addr) {
    x in s.contexts && s.contexts[x].condition in s.conditions
  }

  /** A mutex can only be taken when nobody holds it, a thread only be joined when it is
      done, and a notification of one finds a waiting thread if there is one. */
  ghost predicate Enabled(s: State, step: Step) {
    && !s.fault
    && match step.agent
       case Controller(t) => ControllerEnabled(s, t, step.action)
       case Task(w) => w in s.workers && WorkerEnabled(s, w, step.action)
       case Outside =>
         match step.action
         case Grab(c) => c in s.shared && c in s.conditions && s.conditions[c] == None
         case Release(c) => c in s.shared && c in s.conditions && s.conditions[c] == Some(Outside)
         case _ => false
  }

  ghost predicate ControllerEnabled(s: State, t: Tid, action: Action) {
    match action
    case Construct(x, c, owned) =>
      t !in s.tasklets && x !in s.contexts && (if owned then c !in s.conditions else c in s.shared)
    case Begin(_) => t in s.tasklets && s.tasklets[t].pc.Idle?
    case Tick(x, c, w, woken) =>
      t in s.tasklets && !s.tasklets[t].pc.Idle? &&
      var k := s.tasklets[t];
      (match k.pc
       case Enter(_) => Live(s, k.ctx) ==> s.conditions[s.contexts[k.ctx].condition] == None
       case StartSet => w !in s.workers
       case Marked(_) => x !in s.contexts && c !in s.conditions
       case Notify(_) => Live(s, k.ctx) && s.contexts[k.ctx].owned ==> WokenOne(s, s.contexts[k.ctx].condition, woken)
       case Joining(_) =>
         k.ctx in s.contexts && s.contexts[k.ctx].thread.Some? && s.contexts[k.ctx].thread.value in s.workers ==>
           s.workers[s.contexts[k.ctx].thread.value].pc.Done?
       case _ => true)
    case _ => false
  }

  ghost predicate WokenOne(s: State, c: Addr, woken: Option<Handle>) {
    match woken
    case Some(w) => Waits(s, w, c)
    case None => forall w :: w in s.workers ==> !Waits(s, w, c)
  }

  predicate WorkerEnabled(s: State, w: Handle, action: Action)
    requires w in s.workers
  {
    match s.workers[w].pc
    case Running => action.Look? || action.Sleep? || action.Finish?
    case Locking =>
      action.Tick? && (Live(s, s.workers[w].ctx) ==> s.conditions[s.contexts[s.workers[w].ctx].condition] == None)
    case Woken(c) => action.Tick? && (c in s.conditions ==> s.conditions[c] == None)
    case Done => false
    case _ => action.Tick?
  }

  ghost function Next(s: State, step: Step): State
    requires Enabled(s, step)
  {
    match step.agent
    case Controller(t) =>
      (match step.action
       case Construct(x, c, owned) => ConstructStep(s, t, x, c, owned)
       case Begin(call) =>
         // The context is read once; wakeup() takes no mutex.
         s.(tasklets := s.tasklets[t := s.tasklets[t].(
           ctx := s.tasklets[t].context,
           pc := if call.Wakeup? then Notify(call) else Enter(call))])
       case Tick(x, c, w, woken) => ControllerTick(s, t, x, c, w, woken))
    case Task(w) => WorkerTick(s, w, step.action)
    case Outside =>
      match step.action
      case Grab(c) => s.Hold(c, Some(Outside))
      case Release(c) => s.Hold(c, None)
  }

  /** tasklet.cpp:202-223: a condition of its own, or a shared one. */
  function ConstructStep(s: State, t: Tid, x: Addr, c: Addr, owned: bool): State {
    s.(contexts := s.contexts[x := Context(t, false, c, owned, None)],
       conditions := if owned then s.conditions[c := None] else s.conditions,
       tasklets := s.tasklets[t := Tasklet(x, x, c, Idle)])
  }

  function ControllerTick(s: State, t: Tid, x: Addr, c: Addr, w: Handle, woken: Option<Handle>): State
    requires t in s.tasklets
  {
    var k := s.tasklets[t];
    match k.pc
    case Idle => s
    case Enter(call) =>
      if !Live(s, k.ctx) then s.Fault() else
      var m := s.contexts[k.ctx].condition;
      s.Hold(m, Some(Controller(t))).(tasklets := s.tasklets[t := k.(lock := m, pc := Inside(call))])
    case Inside(call) =>
      if k.ctx !in s.contexts then s.Fault() else InsideTick(s, t, call)
    case StartSet => s.(workers := s.workers[w := Worker(k.ctx, Running)]).At(t, StartSpawned(w))
    case StartSpawned(v) =>
      // Assigning to a joinable std::thread terminates the program.
      if k.ctx !in s.contexts || s.contexts[k.ctx].thread.Some? then s.Fault() else
      s.(contexts := s.contexts[k.ctx := s.contexts[k.ctx].(thread := Some(v))]).At(t, Exit(Start, true))
    case Marked(call) =>
      if call.Stop? then Unlock(s, k.lock, Controller(t)).At(t, Notify(call))
      else if k.ctx !in s.contexts then s.Fault() else SwapTick(s, t, call, x, c)
    case Swapped(call) => Unlock(s, k.lock, Controller(t)).At(t, Notify(call))
    case Exit(call, result) =>
      Unlock(s, k.lock, Controller(t)).At(t, if call.Destroy? then Dying else Return(call, result))
    case Notify(call) =>
      if !Live(s, k.ctx) then s.Fault() else
      Notified(s, s.contexts[k.ctx].condition, if s.contexts[k.ctx].owned then woken else None, s.contexts[k.ctx].owned)
        .At(t, if call.Wait? || call.Destroy? then Joining(call) else Return(call, true))
    case Joining(call) =>
      if k.ctx !in s.contexts || s.contexts[k.ctx].thread.None? || s.contexts[k.ctx].thread.value !in s.workers
      then s.Fault()
      else
        s.(workers := s.workers - {s.contexts[k.ctx].thread.value},
           contexts := s.contexts[k.ctx := s.contexts[k.ctx].(thread := None)]).At(t, Joined(call))
    case Joined(call) =>
      DeleteContext(s, k.ctx).At(t, if call.Destroy? then Dying else Return(call, true))
    case Dying =>
      var s' := DeleteContext(s, k.context);
      s'.(tasklets := s'.tasklets - {t})
    case Return(_, _) => s.At(t, Idle)
  }

  /** tasklet.cpp:247-251, 269-273 and 105-113, under the mutex. */
  function InsideTick(s: State, t: Tid, call: Call): State
    requires t in s.tasklets && s.tasklets[t].ctx in s.contexts
  {
    var x := s.tasklets[t].ctx;
    var joinable := s.contexts[x].thread.Some?;
    match call
    case Start =>
      if joinable then s.At(t, Exit(Start, false))
      else s.(contexts := s.contexts[x := s.contexts[x].(running := true)]).At(t, StartSet)
    case Stop =>
      if !joinable then s.At(t, Exit(Stop, false))
      else s.(contexts := s.contexts[x := s.contexts[x].(running := false)]).At(t, Marked(Stop))
    case Wait => s.At(t, if joinable then Marked(Wait) else Exit(Wait, true))
    case Destroy =>
      if !joinable then s.At(t, Exit(Destroy, true))
      else s.(contexts := s.contexts[x := s.contexts[x].(running := false)]).At(t, Marked(Destroy))
    case Wakeup => s
  }

  /** tasklet.cpp:117-133: a clean context n, with a condition m of its own if the old one
      had that, becomes the tasklet's context. */
  function SwapTick(s: State, t: Tid, call: Call, n: Addr, m: Addr): State
    requires t in s.tasklets && s.tasklets[t].ctx in s.contexts
  {
    var old_ := s.contexts[s.tasklets[t].ctx];
    s.(contexts := s.contexts[n := Context(old_.tasklet, false, if old_.owned then m else old_.condition, old_.owned, None)],
       conditions := if old_.owned then s.conditions[m := None] else s.conditions,
       tasklets := s.tasklets[t := s.tasklets[t].(context := n, pc := Swapped(call))])
  }

  /** Releasing a mutex one does not hold is an error. */
  function Unlock(s: State, c: Addr, agent: Agent): (r: State)
    ensures r.tasklets == s.tasklets && r.workers == s.workers
  {
    if c !in s.conditions || s.conditions[c] != Some(agent) then s.Fault() else s.Hold(c, None)
  }

  /** tasklet.cpp:79-88: one waiting thread or all of them. */
  function Notified(s: State, c: Addr, woken: Option<Handle>, one: bool): (r: State)
    ensures r.tasklets == s.tasklets && r.contexts == s.contexts
  {
    s.(workers := map w | w in s.workers ::
      if (if one then woken == Some(w) else Waits(s, w, c)) then s.workers[w].(pc := Woken(c)) else s.workers[w])
  }

  /** tasklet.cpp:59-65. Destroying a joinable std::thread terminates the program; a mutex
      must not be destroyed while held, nor a condition variable while waited on. */
  function DeleteContext(s: State, x: Addr): (r: State)
    ensures r.tasklets == s.tasklets
  {
    if x !in s.contexts || s.contexts[x].thread.Some? then s.Fault()
    else if !s.contexts[x].owned then s.(contexts := s.contexts - {x})
    else
      var c := s.contexts[x].condition;
      if c !in s.conditions || s.conditions[c].Some? || exists w :: w in s.workers && Waits(s, w, c) then s.Fault()
      else s.(contexts := s.contexts - {x}, conditions := s.conditions - {c})
  }

  /** The task function may look at `running`, sleep (tasklet.cpp:174-192) or return. */
  function WorkerTick(s: State, w: Handle, action: Action): State
    requires w in s.workers
  {
    var x := s.workers[w].ctx;
    match s.workers[w].pc
    case Running =>
      if action.Look? then (if x in s.contexts then s else s.Fault())
      else s.WorkerAt(w, if action.Sleep? then Locking else Done)
    case Locking =>
      if !Live(s, x) then s.Fault() else
      s.Hold(s.contexts[x].condition, Some(Task(w))).WorkerAt(w, Locked(s.contexts[x].condition))
    case Locked(c) =>
      if x !in s.contexts then s.Fault() else
      s.WorkerAt(w, if s.contexts[x].running then Checked(c) else Leaving(c, false))
    case Checked(c) =>
      if !Live(s, x) then s.Fault() else Unlock(s, c, Task(w)).WorkerAt(w, Waiting(s.contexts[x].condition))
    case Waiting(c) => s.WorkerAt(w, Woken(c))
    case Woken(c) =>
      if c !in s.conditions then s.Fault() else s.Hold(c, Some(Task(w))).WorkerAt(w, Awake(c))
    case Awake(c) =>
      if x !in s.contexts then s.Fault() else s.WorkerAt(w, Leaving(c, s.contexts[x].running))
    case Leaving(c, _) => Unlock(s, c, Task(w)).WorkerAt(w, Running)
    case Done => s
  }

  ghost predicate Feasible(s: State, schedule: seq<Step>)
    decreases |schedule|
  {
    schedule == [] || (Enabled(s, schedule[0]) && Feasible(Next(s, schedule[0]), schedule[1..]))
  }

  ghost function Run(s: State, schedule: seq<Step>): State
    requires Feasible(s, schedule)
    decreases |schedule|
  {
    if schedule == [] then s else Run(Next(s, schedule[0]), schedule[1..])
  }
}
