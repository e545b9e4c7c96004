/**
 * The bounded queue as a protocol: any number of threads, each step one critical section, one
 * notification or one wake-up.
 */
module BoundedQueue {
  import opened Options

  datatype Kind = Log | FlushRequest | Terminate

  /** Messages carry an id, so that every call has its own message. */
  datatype Msg = Msg(id: nat, kind: Kind, level: nat)

  datatype Thread =
    | Idle
    | SleepingProducer(msg: Msg)   // waits on the condition "not full"
    | WokenProducer(msg: Msg)      // notified or woken spuriously, has not looked again yet
    | PushNotify                   // has pushed, its notification is still due
    | SleepingConsumer
    | WokenConsumer(timedOut: bool)
    | PopNotify                    // has popped, its notification is still due

  /** `accepted` and `delivered` record every push and every pop in order. */
  datatype Queue = Queue(max: nat, items: seq<Msg>, threads: seq<Thread>,
                         issued: set<Msg>, accepted: seq<Msg>, dropped: set<Msg>, delivered: seq<Msg>)

  datatype Step =
    | Enqueue(t: nat, msg: Msg)
    | EnqueueNowait(t: nat, msg: Msg)
    | ProducerLooks(t: nat)
    | NotifyConsumer(t: nat, target: Option<nat>)
    | Dequeue(t: nat)
    | ConsumerLooks(t: nat)
    | Timeout(t: nat)
    | NotifyProducer(t: nat, target: Option<nat>)
    | SpuriousWake(t: nat)

  function Start(max: nat, threads: nat): Queue {
    Queue(max, [], seq(threads, _ => Idle), {}, [], {}, [])
  }

  function Set(q: Queue, t: nat, thread: Thread): Queue
    requires t < |q.threads|
  {
    q.(threads := q.threads[t := thread])
  }

  /** The critical section of `enqueue`: push if there is room, sleep otherwise. */
  function PushOrSleep(q: Queue, t: nat, msg: Msg): Queue
    requires t < |q.threads|
  {
    if |q.items| < q.max then
      Set(q, t, PushNotify).(items := q.items + [msg], accepted := q.accepted + [msg])
    else Set(q, t, SleepingProducer(msg))
  }

  /** The critical section of `dequeue_for` after a look at the queue. */
  function PopOr(q: Queue, t: nat, otherwise: Thread): Queue
    requires t < |q.threads|
  {
    if |q.items| > 0 then
      Set(q, t, PopNotify).(items := q.items[1..], delivered := q.delivered + [q.items[0]])
    else Set(q, t, otherwise)
  }

  /** `notify_one` wakes some waiting thread if there is any. */
  predicate MayWake(q: Queue, target: Option<nat>, consumer: bool) {
    match target
    case Some(u) =>
      u < |q.threads| && (if consumer then q.threads[u].SleepingConsumer? else q.threads[u].SleepingProducer?)
    case None =>
      forall u :: 0 <= u < |q.threads| ==>
                    !(if consumer then q.threads[u].SleepingConsumer? else q.threads[u].SleepingProducer?)
  }

  function Woken(thread: Thread): Thread {
    match thread
    case SleepingProducer(msg) => WokenProducer(msg)
    case SleepingConsumer => WokenConsumer(false)
    case _ => thread
  }

  function Wake(q: Queue, target: Option<nat>): Queue
    requires target.Some? ==> target.value < |q.threads|
  {
    match target
    case Some(u) => Set(q, u, Woken(q.threads[u]))
    case None => q
  }

  predicate Enabled(q: Queue, step: Step) {
    && step.t < |q.threads|
    && var thread := q.threads[step.t];
       match step
       case Enqueue(_, msg) => thread.Idle? && msg !in q.issued
       case EnqueueNowait(_, msg) => thread.Idle? && msg !in q.issued
       case ProducerLooks(_) => thread.WokenProducer?
       case NotifyConsumer(_, target) => thread.PushNotify? && MayWake(q, target, true)
       case Dequeue(_) => thread.Idle?
       case ConsumerLooks(_) => thread.WokenConsumer?
       case Timeout(_) => thread.SleepingConsumer?
       case NotifyProducer(_, target) => thread.PopNotify? && MayWake(q, target, false)
       case SpuriousWake(_) => thread.SleepingProducer? || thread.SleepingConsumer?
  }

  function Next(q: Queue, step: Step): Queue
    requires Enabled(q, step)
  {
    var t := step.t;
    match step
    case Enqueue(_, msg) => PushOrSleep(q.(issued := q.issued + {msg}), t, msg)
    case EnqueueNowait(_, msg) =>
      var r := q.(issued := q.issued + {msg});
      if |q.items| == q.max then r.(dropped := q.dropped + {msg})
      else Set(r, t, PushNotify).(items := q.items + [msg], accepted := q.accepted + [msg])
    case ProducerLooks(_) => PushOrSleep(q, t, q.threads[t].msg)
    case NotifyConsumer(_, target) => Set(Wake(q, target), t, Idle)
    case Dequeue(_) => PopOr(q, t, SleepingConsumer)
    case ConsumerLooks(_) => PopOr(q, t, if q.threads[t].timedOut then Idle else SleepingConsumer)
    case Timeout(_) => Set(q, t, WokenConsumer(true))
    case NotifyProducer(_, target) => Set(Wake(q, target), t, Idle)
    case SpuriousWake(_) => Set(q, t, Woken(q.threads[t]))
  }

  function Execute(q: Queue, steps: seq<Step>): Option<Queue>
    decreases |steps|
  {
    if steps == [] then Some(q)
    else
      var before :- Execute(q, steps[..|steps| - 1]);
      var step := steps[|steps| - 1];
      if Enabled(before, step) then Some(Next(before, step)) else None
  }

  /** A state some run of some number of threads leads to. */
  ghost predicate Reachable(q: Queue) {
    exists n: nat, steps: seq<Step> :: Execute(Start(q.max, n), steps) == Some(q)
  }

  // ----- Counting threads -----

  datatype Role = ProducerAsleep | ProducerAwake | PopDue | ConsumerAsleep | ConsumerAwake | PushDue

  predicate Plays(thread: Thread, role: Role) {
    match role
    case ProducerAsleep => thread.SleepingProducer?
    case ProducerAwake => thread.WokenProducer?
    case PopDue => thread.PopNotify?
    case ConsumerAsleep => thread.SleepingConsumer?
    case ConsumerAwake => thread.WokenConsumer?
    case PushDue => thread.PushNotify?
  }

  function One(thread: Thread, role: Role): nat { if Plays(thread, role) then 1 else 0 }

  function Count(threads: seq<Thread>, role: Role): nat {
    if threads == [] then 0 else One(threads[0], role) + Count(threads[1..], role)
  }

  lemma {:induction false} CountSet(threads: seq<Thread>, t: nat, thread: Thread, role: Role)
    requires t < |threads|
    ensures Count(threads[t := thread], role) == Count(threads, role) - One(threads[t], role) + One(thread, role)
    decreases |threads|
  {
    var after := threads[t := thread];
    if t == 0 {
      assert after[1..] == threads[1..];
    } else {
      assert after[1..] == threads[1..][t - 1 := thread];
      CountSet(threads[1..], t - 1, thread, role);
    }
  }

  lemma {:induction false} CountNone(threads: seq<Thread>, role: Role)
    requires forall u :: 0 <= u < |threads| ==> !Plays(threads[u], role)
    ensures Count(threads, role) == 0
    decreases |threads|
  {
    if threads != [] {
      forall u | 0 <= u < |threads[1..]| ensures !Plays(threads[1..][u], role) {
        assert threads[1..][u] == threads[u + 1];
      }
      CountNone(threads[1..], role);
    }
  }

  lemma {:induction false} CountSome(threads: seq<Thread>, u: nat, role: Role)
    requires u < |threads| && Plays(threads[u], role)
    ensures Count(threads, role) > 0
    decreases |threads|
  {
    if u > 0 {
      assert threads[1..][u - 1] == threads[u];
      CountSome(threads[1..], u - 1, role);
    }
  }

  function Number(q: Queue, role: Role): nat { Count(q.threads, role) }

  // ----- What every step keeps -----

  /**
   * No lost wake-up. While a producer sleeps, enough of the missing items are on their way: items in
   * the queue, producers about to look, and pops whose notification is due make up the capacity.
   * While a consumer sleeps, every item has a consumer about to look or a notification that is due.
   */
  predicate NoLostWakeUp(q: Queue) {
    && (Number(q, ProducerAsleep) > 0 ==> |q.items| + Number(q, ProducerAwake) + Number(q, PopDue) >= q.max)
    && (Number(q, ConsumerAsleep) > 0 ==> |q.items| <= Number(q, ConsumerAwake) + Number(q, PushDue))
  }

  predicate Holds(thread: Thread, msg: Msg) {
    (thread.SleepingProducer? || thread.WokenProducer?) && thread.msg == msg
  }

  predicate Distinct(msgs: seq<Msg>) {
    forall i, j :: 0 <= i < j < |msgs| ==> msgs[i] != msgs[j]
  }

  /** Nothing is lost, doubled or reordered on the way through the queue. */
  ghost predicate Conserves(q: Queue) {
    && |q.items| <= q.max
    && q.accepted == q.delivered + q.items
    && Distinct(q.accepted)
    && (forall m :: m in q.accepted ==> m in q.issued)
    && q.dropped <= q.issued && (forall m :: m in q.dropped ==> m !in q.accepted)
    && (forall t :: 0 <= t < |q.threads| && (q.threads[t].SleepingProducer? || q.threads[t].WokenProducer?) ==>
                      q.threads[t].msg in q.issued && q.threads[t].msg !in q.accepted && q.threads[t].msg !in q.dropped)
    && (forall t, u :: 0 <= t < u < |q.threads| && (q.threads[t].SleepingProducer? || q.threads[t].WokenProducer?)
                       && (q.threads[u].SleepingProducer? || q.threads[u].WokenProducer?) ==>
                         q.threads[t].msg != q.threads[u].msg)
    && (forall m :: m in q.issued ==> m in q.accepted || m in q.dropped
                                      || exists t :: 0 <= t < |q.threads| && Holds(q.threads[t], m))
  }

  lemma CountsAfterSet(q: Queue, t: nat, thread: Thread)
    requires t < |q.threads|
    ensures forall role :: Number(Set(q, t, thread), role) == Number(q, role) - One(q.threads[t], role) + One(thread, role)
  {
    forall role ensures Number(Set(q, t, thread), role) == Number(q, role) - One(q.threads[t], role) + One(thread, role) {
      CountSet(q.threads, t, thread, role);
    }
  }

  lemma NotifyCounts(q: Queue, t: nat, target: Option<nat>, consumer: bool)
    requires t < |q.threads| && MayWake(q, target, consumer)
    requires if consumer then q.threads[t].PushNotify? else q.threads[t].PopNotify?
    ensures var r := Set(Wake(q, target), t, Idle);
            var asleep := if consumer then ConsumerAsleep else ProducerAsleep;
            var awake := if consumer then ConsumerAwake else ProducerAwake;
            var due := if consumer then PushDue else PopDue;
            && Number(r, due) == Number(q, due) - 1
            && (forall role :: role != due && role != asleep && role != awake ==> Number(r, role) == Number(q, role))
            && (if target.Some? then Number(r, asleep) == Number(q, asleep) - 1 && Number(r, awake) == Number(q, awake) + 1
                else Number(r, asleep) == 0 && Number(r, awake) == Number(q, awake))
  {
    hide Number;
    match target
    case Some(u) =>
      CountsAfterSet(q, u, Woken(q.threads[u]));
      CountsAfterSet(Wake(q, target), t, Idle);
    case None =>
      NobodyAsleep(q, consumer);
      CountsAfterSet(q, t, Idle);
  }

  lemma NobodyAsleep(q: Queue, consumer: bool)
    requires MayWake(q, None, consumer)
    ensures Number(q, if consumer then ConsumerAsleep else ProducerAsleep) == 0
  {
    CountNone(q.threads, if consumer then ConsumerAsleep else ProducerAsleep);
  }

  /** The four numbers the invariant speaks of, and the items, after a step. */
  predicate Balanced(asleepP: int, awakeP: int, popDue: int, asleepC: int, awakeC: int, pushDue: int, items: int, max: int) {
    (asleepP > 0 ==> items + awakeP + popDue >= max) && (asleepC > 0 ==> items <= awakeC + pushDue)
  }

  lemma BalancedIs(q: Queue)
    ensures NoLostWakeUp(q) <==>
            Balanced(Number(q, ProducerAsleep), Number(q, ProducerAwake), Number(q, PopDue), Number(q, ConsumerAsleep),
                     Number(q, ConsumerAwake), Number(q, PushDue), |q.items|, q.max)
  {
    hide Count;
  }

  /** A step that changes one thread and perhaps the items. */
  lemma OneThreadKeepsWakeUps(q: Queue, r: Queue, t: nat, thread: Thread)
    requires t < |q.threads| && r.threads == q.threads[t := thread] && r.max == q.max
    requires NoLostWakeUp(q)
    requires var oldThread := q.threads[t];
             || (thread.PushNotify? && |r.items| == |q.items| + 1 && (oldThread.Idle? || oldThread.WokenProducer?))
             || (thread.PopNotify? && |r.items| == |q.items| - 1 && (oldThread.Idle? || oldThread.WokenConsumer?))
             || (thread.SleepingProducer? && |r.items| == |q.items| >= q.max && (oldThread.Idle? || oldThread.WokenProducer?))
             || (thread.SleepingConsumer? && |r.items| == |q.items| == 0 && (oldThread.Idle? || oldThread.WokenConsumer?))
             || (thread.Idle? && |r.items| == |q.items| == 0 && oldThread.WokenConsumer?)
             || (thread.WokenProducer? && |r.items| == |q.items| && oldThread.SleepingProducer?)
             || (thread.WokenConsumer? && |r.items| == |q.items| && oldThread.SleepingConsumer?)
    ensures NoLostWakeUp(r)
  {
    hide Count, NoLostWakeUp;
    BalancedIs(q);
    BalancedIs(r);
    CountSet(q.threads, t, thread, ProducerAsleep);
    CountSet(q.threads, t, thread, ProducerAwake);
    CountSet(q.threads, t, thread, PopDue);
    CountSet(q.threads, t, thread, ConsumerAsleep);
    CountSet(q.threads, t, thread, ConsumerAwake);
    CountSet(q.threads, t, thread, PushDue);
  }

  /** Every step keeps the wake-up invariant. */
  lemma StepKeepsWakeUps(q: Queue, step: Step)
    requires Enabled(q, step) && |q.items| <= q.max && NoLostWakeUp(q)
    ensures NoLostWakeUp(Next(q, step))
  {
    hide Count;
    if step.NotifyConsumer? {
      NotifyCounts(q, step.t, step.target, true);
    } else if step.NotifyProducer? {
      NotifyCounts(q, step.t, step.target, false);
    } else {
      hide NoLostWakeUp;
      var r := Next(q, step);
      if step.EnqueueNowait? && |q.items| == q.max {
        BalancedIs(q);
        BalancedIs(r);
      } else {
        OneThreadKeepsWakeUps(q, r, step.t, r.threads[step.t]);
      }
    }
  }

  // ----- Conservation -----

  lemma IdsApart(q: Queue, t: nat, msg: Msg)
    requires Conserves(q) && t < |q.threads| && Holds(q.threads[t], msg)
    ensures msg in q.issued && msg !in q.accepted && msg !in q.dropped
    ensures forall u :: 0 <= u < |q.threads| && u != t ==> !Holds(q.threads[u], msg)
  {
  }

  /** A push of `msg`, which nobody else holds, by thread `t`. */
  lemma PushConserves(q: Queue, t: nat, msg: Msg, isFresh: bool)
    requires Conserves(q) && t < |q.threads| && |q.items| < q.max
    requires if isFresh then q.threads[t].Idle? && msg !in q.issued else Holds(q.threads[t], msg)
    ensures Conserves(Set(q, t, PushNotify).(items := q.items + [msg], accepted := q.accepted + [msg],
                                             issued := q.issued + {msg}))
  {
    var r := Set(q, t, PushNotify).(items := q.items + [msg], accepted := q.accepted + [msg], issued := q.issued + {msg});
    if !isFresh { IdsApart(q, t, msg); }
    assert q.delivered + (q.items + [msg]) == q.accepted + [msg];
    assert msg in r.accepted by { assert r.accepted[|q.accepted|] == msg; }
    forall m | m in r.issued
      ensures m in r.accepted || m in r.dropped || exists u :: 0 <= u < |r.threads| && Holds(r.threads[u], m)
    {
      if m != msg && m !in q.accepted && m !in q.dropped {
        var u :| 0 <= u < |q.threads| && Holds(q.threads[u], m);
        assert Holds(r.threads[u], m);
      }
    }
  }

  /** A message that is issued and kept by its thread, asleep. */
  lemma SleepConserves(q: Queue, t: nat, msg: Msg, thread: Thread, isFresh: bool)
    requires Conserves(q) && t < |q.threads| && Holds(thread, msg)
    requires if isFresh then q.threads[t].Idle? && msg !in q.issued else Holds(q.threads[t], msg)
    ensures Conserves(Set(q, t, thread).(issued := q.issued + {msg}))
  {
    var r := Set(q, t, thread).(issued := q.issued + {msg});
    if !isFresh { IdsApart(q, t, msg); }
    assert Holds(r.threads[t], msg);
    forall m | m in r.issued
      ensures m in r.accepted || m in r.dropped || exists u :: 0 <= u < |r.threads| && Holds(r.threads[u], m)
    {
      if m != msg && m !in q.accepted && m !in q.dropped {
        var u :| 0 <= u < |q.threads| && Holds(q.threads[u], m);
        assert Holds(r.threads[u], m);
      }
    }
  }

  predicate HoldsNothing(thread: Thread) {
    !thread.SleepingProducer? && !thread.WokenProducer?
  }

  /** A thread that holds no message changes to one that holds none. */
  lemma QuietConserves(q: Queue, t: nat, thread: Thread)
    requires Conserves(q) && t < |q.threads| && HoldsNothing(q.threads[t]) && HoldsNothing(thread)
    ensures Conserves(Set(q, t, thread))
  {
    var r := Set(q, t, thread);
    forall m | m in r.issued
      ensures m in r.accepted || m in r.dropped || exists u :: 0 <= u < |r.threads| && Holds(r.threads[u], m)
    {
      if m !in q.accepted && m !in q.dropped {
        var u :| 0 <= u < |q.threads| && Holds(q.threads[u], m);
        assert Holds(r.threads[u], m);
      }
    }
  }

  lemma PopConserves(q: Queue)
    requires Conserves(q) && |q.items| > 0
    ensures Conserves(q.(items := q.items[1..], delivered := q.delivered + [q.items[0]]))
  {
    assert q.delivered + q.items == q.delivered + [q.items[0]] + q.items[1..];
  }

  lemma DropConserves(q: Queue, msg: Msg)
    requires Conserves(q) && msg !in q.issued
    ensures Conserves(q.(issued := q.issued + {msg}, dropped := q.dropped + {msg}))
  {
  }

  lemma WakeConserves(q: Queue, target: Option<nat>, consumer: bool)
    requires Conserves(q) && MayWake(q, target, consumer)
    ensures Conserves(Wake(q, target))
  {
    hide Conserves;
    if target.Some? {
      var u := target.value;
      if consumer {
        QuietConserves(q, u, Woken(q.threads[u]));
      } else {
        WakeHolder(q, u);
      }
    }
  }

  lemma WakeHolder(q: Queue, u: nat)
    requires Conserves(q) && u < |q.threads| && q.threads[u].SleepingProducer?
    ensures Conserves(Set(q, u, Woken(q.threads[u])))
  {
    var msg := q.threads[u].msg;
    IdsApart(q, u, msg);
    SleepConserves(q, u, msg, Woken(q.threads[u]), false);
    assert q.issued + {msg} == q.issued;
  }

  /** Every step keeps the messages together. */
  lemma StepConserves(q: Queue, step: Step)
    requires Enabled(q, step) && Conserves(q)
    ensures Conserves(Next(q, step))
  {
    hide Conserves;
    var t := step.t;
    match step
    case Enqueue(_, msg) => EnterConserves(q, t, msg, true);
    case EnqueueNowait(_, msg) =>
      BoundedItems(q);
      if |q.items| == q.max { DropConserves(q, msg); } else { PushConserves(q, t, msg, true); }
    case ProducerLooks(_) =>
      EnterConserves(q, t, q.threads[t].msg, false);
    case NotifyConsumer(_, target) =>
      WakeConserves(q, target, true);
      QuietConserves(Wake(q, target), t, Idle);
    case Dequeue(_) => LookConserves(q, t, SleepingConsumer);
    case ConsumerLooks(_) => LookConserves(q, t, if q.threads[t].timedOut then Idle else SleepingConsumer);
    case Timeout(_) => QuietConserves(q, t, WokenConsumer(true));
    case NotifyProducer(_, target) =>
      WakeConserves(q, target, false);
      QuietConserves(Wake(q, target), t, Idle);
    case SpuriousWake(_) =>
      if q.threads[t].SleepingProducer? { WakeHolder(q, t); } else { QuietConserves(q, t, WokenConsumer(false)); }
  }

  lemma BoundedItems(q: Queue)
    requires Conserves(q)
    ensures |q.items| <= q.max
  {
  }

  lemma EnterConserves(q: Queue, t: nat, msg: Msg, isFresh: bool)
    requires Conserves(q) && t < |q.threads|
    requires if isFresh then q.threads[t].Idle? && msg !in q.issued else Holds(q.threads[t], msg)
    ensures Conserves(PushOrSleep(q.(issued := q.issued + {msg}), t, msg))
    ensures !isFresh ==> q.(issued := q.issued + {msg}) == q
  {
    if !isFresh {
      IdsApart(q, t, msg);
      assert q.issued + {msg} == q.issued;
    }
    hide Conserves;
    if |q.items| < q.max {
      PushConserves(q, t, msg, isFresh);
    } else {
      SleepConserves(q, t, msg, SleepingProducer(msg), isFresh);
    }
  }

  lemma LookConserves(q: Queue, t: nat, otherwise: Thread)
    requires Conserves(q) && t < |q.threads| && HoldsNothing(q.threads[t]) && HoldsNothing(otherwise)
    ensures Conserves(PopOr(q, t, otherwise))
  {
    hide Conserves;
    if |q.items| > 0 {
      QuietConserves(q, t, PopNotify);
      PopConserves(Set(q, t, PopNotify));
    } else {
      QuietConserves(q, t, otherwise);
    }
  }

  // ----- Every run -----

  lemma StartIsGood(max: nat, n: nat)
    ensures NoLostWakeUp(Start(max, n)) && Conserves(Start(max, n))
  {
    var q := Start(max, n);
    CountNone(q.threads, ProducerAsleep);
    CountNone(q.threads, ConsumerAsleep);
  }

  lemma {:induction false} RunKeeps(start: Queue, steps: seq<Step>)
    requires NoLostWakeUp(start) && Conserves(start)
    ensures Execute(start, steps).Some? ==>
              NoLostWakeUp(Execute(start, steps).value) && Conserves(Execute(start, steps).value)
    decreases |steps|
  {
    hide NoLostWakeUp, Conserves, Next, Enabled;
    if steps != [] {
      var before := Execute(start, steps[..|steps| - 1]);
      RunKeeps(start, steps[..|steps| - 1]);
      if before.Some? && Enabled(before.value, steps[|steps| - 1]) {
        BoundedItems(before.value);
        StepKeepsWakeUps(before.value, steps[|steps| - 1]);
        StepConserves(before.value, steps[|steps| - 1]);
      }
    }
  }

  lemma ReachableIsGood(q: Queue)
    requires Reachable(q)
    ensures NoLostWakeUp(q) && Conserves(q)
  {
    hide NoLostWakeUp, Conserves, Execute;
    var n: nat, steps: seq<Step> :| Execute(Start(q.max, n), steps) == Some(q);
    StartIsGood(q.max, n);
    RunKeeps(Start(q.max, n), steps);
  }

  /** Nobody is between a wake-up and its look, and no notification is due. */
  predicate NothingInFlight(q: Queue) {
    forall t :: 0 <= t < |q.threads| ==>
                  q.threads[t].Idle? || q.threads[t].SleepingProducer? || q.threads[t].SleepingConsumer?
  }

  /**
   * In every reachable state with nothing in flight, a sleeping producer means a full queue and a
   * sleeping consumer an empty one; so with room for one item both never sleep at once.
   */
  lemma SleepersAreRight(q: Queue)
    requires Reachable(q) && NothingInFlight(q)
    ensures (exists t :: 0 <= t < |q.threads| && q.threads[t].SleepingProducer?) ==> |q.items| == q.max
    ensures (exists t :: 0 <= t < |q.threads| && q.threads[t].SleepingConsumer?) ==> |q.items| == 0
  {
    hide Reachable;
    ReachableIsGood(q);
    CountNone(q.threads, ProducerAwake);
    CountNone(q.threads, PopDue);
    CountNone(q.threads, ConsumerAwake);
    CountNone(q.threads, PushDue);
    if t: nat :| t < |q.threads| && q.threads[t].SleepingProducer? { CountSome(q.threads, t, ProducerAsleep); }
    if t: nat :| t < |q.threads| && q.threads[t].SleepingConsumer? { CountSome(q.threads, t, ConsumerAsleep); }
  }

  /**
   * First in, first out, once each: what was popped is a prefix of what was pushed, the rest is in
   * the queue, and every message ever issued was pushed, dropped by a call that does not wait, or is
   * still held by a waiting call.
   */
  lemma NothingLost(q: Queue)
    requires Reachable(q)
    ensures q.accepted == q.delivered + q.items && Distinct(q.accepted) && |q.items| <= q.max
    ensures forall m :: m in q.issued ==>
              m in q.accepted || m in q.dropped || exists t :: 0 <= t < |q.threads| && Holds(q.threads[t], m)
  {
    hide Reachable;
    ReachableIsGood(q);
  }

  lemma AcceptedWasIssued(q: Queue)
    requires Reachable(q)
    ensures forall m :: m in q.accepted ==> m in q.issued
  {
    ReachableIsGood(q);
  }

  predicate NeverNowait(steps: seq<Step>) {
    forall i :: 0 <= i < |steps| ==> !steps[i].EnqueueNowait?
  }

  lemma {:induction false} BlockingNeverDrops(start: Queue, steps: seq<Step>)
    requires start.dropped == {} && NeverNowait(steps)
    ensures Execute(start, steps).Some? ==> Execute(start, steps).value.dropped == {}
    decreases |steps|
  {
    if steps != [] {
      BlockingNeverDrops(start, steps[..|steps| - 1]);
    }
  }

  // ----- Calls that do not wait -----

  /**
   * Only a call that does not wait drops, only its own message, and exactly when it finds the queue full. With room its
   * message is the last one accepted, as that of a waiting call is.
   */
  lemma DropsExactly(q: Queue, step: Step)
    requires Enabled(q, step) && Conserves(q)
    ensures var r := Next(q, step);
            && (forall m :: m in r.dropped <==>
                  m in q.dropped || (step.EnqueueNowait? && m == step.msg && |q.items| == q.max))
            && (step.EnqueueNowait? && |q.items| < q.max ==> r.accepted == q.accepted + [step.msg])
            && (step.Enqueue? && |q.items| < q.max ==> r.accepted == q.accepted + [step.msg])
  {
  }

  /** The calls of a run are the only source of its messages. */
  predicate Calls(step: Step) { step.Enqueue? || step.EnqueueNowait? }

  lemma IssuedGrows(q: Queue, step: Step)
    requires Enabled(q, step)
    ensures Next(q, step).issued == q.issued + (if Calls(step) then {step.msg} else {})
    ensures Calls(step) ==> step.msg !in q.issued
  {
  }

  /** The state before step `i` of a run. */
  function At(start: Queue, steps: seq<Step>, i: nat): Option<Queue>
    requires i <= |steps|
  {
    Execute(start, steps[..i])
  }

  /** `msg` was given to a call that did not wait, and that call found the queue full. */
  ghost predicate Refused(start: Queue, steps: seq<Step>, msg: Msg) {
    exists i :: 0 <= i < |steps| && RefusedAt(start, steps, i, msg)
  }

  ghost predicate RefusedAt(start: Queue, steps: seq<Step>, i: nat, msg: Msg)
    requires i < |steps|
  {
    && steps[i].EnqueueNowait? && steps[i].msg == msg
    && At(start, steps, i).Some? && |At(start, steps, i).value.items| == At(start, steps, i).value.max
  }

  /** Over every run: what was dropped is exactly what a call that does not wait was given while the queue was full. */
  lemma {:induction false} DroppedWhenFull(start: Queue, steps: seq<Step>)
    requires start.dropped == {} && NoLostWakeUp(start) && Conserves(start) && Execute(start, steps).Some?
    ensures forall m :: m in Execute(start, steps).value.dropped <==> Refused(start, steps, m)
    decreases |steps|
  {
    hide Conserves, NoLostWakeUp, Next, Enabled, RefusedAt;
    if steps != [] {
      var front, step := steps[..|steps| - 1], steps[|steps| - 1];
      var before := Execute(start, front).value;
      DroppedWhenFull(start, front);
      RunKeeps(start, front);
      DropsExactly(before, step);
      forall m ensures Refused(start, steps, m) <==>
                         Refused(start, front, m) || (step.EnqueueNowait? && m == step.msg && |before.items| == before.max) {
        RefusedNext(start, steps, m);
      }
    }
  }

  lemma RefusedNext(start: Queue, steps: seq<Step>, m: Msg)
    requires steps != [] && Execute(start, steps[..|steps| - 1]).Some?
    ensures var front, step := steps[..|steps| - 1], steps[|steps| - 1];
            var before := Execute(start, front).value;
            Refused(start, steps, m) <==>
              Refused(start, front, m) || (step.EnqueueNowait? && m == step.msg && |before.items| == before.max)
  {
    hide Execute;
    var n := |steps| - 1;
    var front, step := steps[..n], steps[n];
    forall i | 0 <= i < n ensures RefusedAt(start, steps, i, m) <==> RefusedAt(start, front, i, m) {
      assert front[..i] == steps[..i] && front[i] == steps[i];
    }
    if Refused(start, steps, m) {
      var i :| 0 <= i < |steps| && RefusedAt(start, steps, i, m);
      if i < n { assert RefusedAt(start, front, i, m); }
    }
    if Refused(start, front, m) {
      var i :| 0 <= i < |front| && RefusedAt(start, front, i, m);
      assert RefusedAt(start, steps, i, m);
    }
    if step.EnqueueNowait? && m == step.msg && |Execute(start, front).value.items| == Execute(start, front).value.max {
      assert RefusedAt(start, steps, n, m);
    }
  }

  /** A full queue has seen at least as many messages as it holds. */
  lemma FullMeansIssued(q: Queue)
    requires Conserves(q)
    ensures |q.items| <= |q.issued|
  {
    DistinctCount(q.accepted);
    var seen := set m | m in q.accepted;
    assert seen <= q.issued;
    SubsetCount(seen, q.issued);
  }

  lemma SubsetCount(a: set<Msg>, b: set<Msg>)
    requires a <= b
    ensures |a| <= |b|
  {
    assert b == a + (b - a);
  }

  lemma {:induction false} DistinctCount(msgs: seq<Msg>)
    requires Distinct(msgs)
    ensures |set m | m in msgs| == |msgs|
    decreases |msgs|
  {
    if msgs != [] {
      var front, last := msgs[..|msgs| - 1], msgs[|msgs| - 1];
      DistinctCount(front);
      assert msgs == front + [last];
      assert (set m | m in msgs) == (set m | m in front) + {last};
    }
  }

  lemma {:induction false} DropNeedsMore(start: Queue, steps: seq<Step>)
    requires start.dropped == {} && NoLostWakeUp(start) && Conserves(start) && Execute(start, steps).Some?
    ensures Execute(start, steps).value.max == start.max
    ensures Execute(start, steps).value.dropped != {} ==> |Execute(start, steps).value.issued| > start.max
    decreases |steps|
  {
    hide Conserves, NoLostWakeUp;
    if steps != [] {
      var front, step := steps[..|steps| - 1], steps[|steps| - 1];
      var before := Execute(start, front).value;
      DropNeedsMore(start, front);
      RunKeeps(start, front);
      FullMeansIssued(before);
      IssuedGrows(before, step);
      DropsExactly(before, step);
      SubsetCount(before.issued, Next(before, step).issued);
    }
  }

  /** As long as no more messages were issued than the queue has room for, nothing is dropped. */
  lemma RoomMeansNoDrop(q: Queue)
    requires Reachable(q) && |q.issued| <= q.max
    ensures q.dropped == {}
  {
    hide Execute, NoLostWakeUp, Conserves;
    var n: nat, steps: seq<Step> :| Execute(Start(q.max, n), steps) == Some(q);
    StartIsGood(q.max, n);
    DropNeedsMore(Start(q.max, n), steps);
  }

  // ----- Calls that wait -----

  /**
   * A waiting call comes back, its notification included, with its message pushed or with the oldest message popped. The
   * one exception is a consumer whose wait has timed out and who finds the queue empty.
   */
  lemma CallsComeBack(q: Queue, step: Step)
    requires Enabled(q, step) && Next(q, step).threads[step.t].Idle? && !step.NotifyConsumer? && !step.NotifyProducer?
    ensures (step.EnqueueNowait? && |q.items| == q.max)
         || (step.ConsumerLooks? && q.threads[step.t] == WokenConsumer(true) && q.items == [])
  {
  }

  /** Who goes to sleep: a producer that finds the queue full, and a consumer that finds it empty before its time is out. */
  lemma SleepsExactly(q: Queue, step: Step)
    requires Enabled(q, step) && |q.items| <= q.max
    ensures var next := Next(q, step).threads[step.t];
            && (next.SleepingProducer? <==> (step.Enqueue? || step.ProducerLooks?) && |q.items| == q.max)
            && (next.SleepingConsumer? <==>
                  (step.Dequeue? || (step.ConsumerLooks? && q.threads[step.t] == WokenConsumer(false))) && q.items == [])
  {
  }

  /** A step changes its own thread, and a notification also the sleeper it wakes. */
  lemma OthersStay(q: Queue, step: Step, u: nat)
    requires Enabled(q, step) && u < |q.threads| && u != step.t
    ensures var r := Next(q, step);
            && |r.threads| == |q.threads| && r.max == q.max
            && (r.threads[u] == q.threads[u]
                || (step.NotifyConsumer? && step.target == Some(u) && q.threads[u].SleepingConsumer?
                    && r.threads[u] == WokenConsumer(false))
                || (step.NotifyProducer? && step.target == Some(u) && q.threads[u].SleepingProducer?
                    && r.threads[u] == WokenProducer(q.threads[u].msg)))
  {
  }

  /** A consumer whose time is out comes back when it looks next, whatever the others have done in between. */
  lemma {:induction false} TimedOutComesBack(q: Queue, t: nat, others: seq<Step>)
    requires Enabled(q, Timeout(t)) && forall i :: 0 <= i < |others| ==> others[i].t != t
    requires Execute(Next(q, Timeout(t)), others).Some?
    ensures var r := Execute(Next(q, Timeout(t)), others).value;
            && Enabled(r, ConsumerLooks(t)) && r.threads[t] == WokenConsumer(true)
            && Next(r, ConsumerLooks(t)).threads[t] == if r.items == [] then Idle else PopNotify
    decreases |others|
  {
    if others != [] {
      var front, step := others[..|others| - 1], others[|others| - 1];
      assert forall i :: 0 <= i < |front| ==> front[i] == others[i];
      TimedOutComesBack(q, t, front);
      OthersStay(Execute(Next(q, Timeout(t)), front).value, step, t);
    }
  }

  /** Taking a message: a call that looks at a queue with messages pops the oldest, and no other step pops. */
  lemma PopsExactly(q: Queue, step: Step)
    requires Enabled(q, step)
    ensures var r := Next(q, step);
            r.delivered == if (step.Dequeue? || step.ConsumerLooks?) && q.items != [] then q.delivered + [q.items[0]]
                           else q.delivered
  {
  }

  /** Every thread that does not sleep can go on in every state, and one that sleeps can be woken. */
  lemma EveryThreadGoesOn(q: Queue, t: nat, msg: Msg)
    requires t < |q.threads|
    ensures exists step: Step :: step.t == t && Enabled(q, step)
    ensures q.threads[t].Idle? ==> Enabled(q, Dequeue(t))
    ensures q.threads[t].Idle? && msg !in q.issued ==> Enabled(q, Enqueue(t, msg)) && Enabled(q, EnqueueNowait(t, msg))
    ensures q.threads[t].SleepingConsumer? ==> Enabled(q, Timeout(t))
    ensures q.threads[t].PushNotify? ==> exists target :: Enabled(q, NotifyConsumer(t, target))
    ensures q.threads[t].PopNotify? ==> exists target :: Enabled(q, NotifyProducer(t, target))
  {
    match q.threads[t]
    case Idle => assert Enabled(q, Dequeue(t));
    case SleepingProducer(_) => assert Enabled(q, SpuriousWake(t));
    case WokenProducer(_) => assert Enabled(q, ProducerLooks(t));
    case PushNotify =>
      var target := Target(q, true);
      assert Enabled(q, NotifyConsumer(t, target));
    case SleepingConsumer => assert Enabled(q, Timeout(t));
    case WokenConsumer(_) => assert Enabled(q, ConsumerLooks(t));
    case PopNotify =>
      var target := Target(q, false);
      assert Enabled(q, NotifyProducer(t, target));
  }

  /** Somebody a notification wakes, or nobody when nobody sleeps. */
  lemma Target(q: Queue, consumer: bool) returns (target: Option<nat>)
    ensures MayWake(q, target, consumer)
    ensures target.Some? <==> exists u :: 0 <= u < |q.threads| &&
                                (if consumer then q.threads[u].SleepingConsumer? else q.threads[u].SleepingProducer?)
  {
    target := None;
    if u: nat :| u < |q.threads| && (if consumer then q.threads[u].SleepingConsumer? else q.threads[u].SleepingProducer?) {
      target := Some(u);
    }
  }
}
