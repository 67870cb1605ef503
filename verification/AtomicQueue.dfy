/** The atomic queue that the two-lock queue is compared with: each call takes effect in
    one indivisible step somewhere between its invocation and its return. */
module AtomicQueue {
  import opened Wrappers

  type Tid = nat

  datatype Outcome<V> = Pushed | Popped(result: Option<V>) | Emptied(answer: bool) | Sized(count: nat)

  datatype Call<V> = Push(v: V) | Pop | Empty | Size

  datatype Phase<V> = Ready | Pending(call: Call<V>) | Finished(outcome: Outcome<V>)

  /** `queue` is the content; `pushed` and `popped` log the values in the order in which
      pushes and successful pops took effect. */
  datatype Spec<V> = Spec(queue: seq<V>, pushed: seq<V>, popped: seq<V>, phases: map<Tid, Phase<V>>)

  /** What an observer of one step sees. */
  datatype Event<V> = Internal | Invoke(call: Call<V>) | Return(outcome: Outcome<V>)

  /** The sequential meaning of a call. */
  function Effect<V>(call: Call<V>, queue: seq<V>): (seq<V>, Outcome<V>) {
    match call
    case Push(v) => (queue + [v], Pushed)
    case Pop => if queue == [] then (queue, Popped(None)) else (queue[1..], Popped(Some(queue[0])))
    case Empty => (queue, Emptied(queue == []))
    case Size => (queue, Sized(|queue|))
  }

  /** Thread t's pending call takes effect. */
  function Commit<V>(a: Spec<V>, t: Tid): Spec<V>
    requires t in a.phases && a.phases[t].Pending?
  {
    var call := a.phases[t].call;
    var (queue', outcome) := Effect(call, a.queue);
    Spec(queue',
         if call.Push? then a.pushed + [call.v] else a.pushed,
         if outcome.Popped? && outcome.result.Some? then a.popped + [outcome.result.value] else a.popped,
         a.phases[t := Finished(outcome)])
  }

  ghost predicate SpecStep<V>(a: Spec<V>, t: Tid, e: Event<V>, a': Spec<V>) {
    && t in a.phases
    && match e
       case Invoke(call) => a.phases[t] == Ready && a' == a.(phases := a.phases[t := Pending(call)])
       case Return(outcome) => a.phases[t] == Finished(outcome) && a' == a.(phases := a.phases[t := Ready])
       case Internal => a' == a || (a.phases[t].Pending? && a' == Commit(a, t))
  }

  /** Nothing is lost, duplicated or reordered: what went in is what came out, in the
      same order, followed by what is still inside. */
  ghost predicate Conserved<V>(a: Spec<V>) {
    a.pushed == a.popped + a.queue
  }

  lemma SpecStepConserves<V>(a: Spec<V>, t: Tid, e: Event<V>, a': Spec<V>)
    requires Conserved(a) && SpecStep(a, t, e, a')
    ensures Conserved(a')
  {
    if e.Internal? && a' != a {
      match a.phases[t].call
      case Push(v) => assert a.popped + a.queue + [v] == a.popped + (a.queue + [v]);
      case Pop =>
        if a.queue != [] {
          assert a.popped + [a.queue[0]] + a.queue[1..] == a.popped + a.queue;
        }
      case _ =>
    }
  }
}
