/** The worker thread of the asynchronous logger, fed by the bounded queue. */
module AsyncLog {
  import opened Options
  import opened BoundedQueue

  /** A sink with the messages it was offered and the number of flushes it saw. */
  datatype Sink = Sink(level: nat, offered: seq<Msg>, flushes: nat) {
    predicate ShouldLog(msg: Msg) { msg.level >= level }
  }

  datatype Worker = Worker(sinks: seq<Sink>, lastFlush: int)

  function FlushAll(sinks: seq<Sink>): seq<Sink> {
    if sinks == [] then [] else [sinks[0].(flushes := sinks[0].flushes + 1)] + FlushAll(sinks[1..])
  }

  function OfferAll(sinks: seq<Sink>, msg: Msg): seq<Sink> {
    if sinks == [] then []
    else [if sinks[0].ShouldLog(msg) then sinks[0].(offered := sinks[0].offered + [msg]) else sinks[0]]
         + OfferAll(sinks[1..], msg)
  }

  /** `handle_flush_interval` at time `now`; an interval of zero switches it off. */
  function HandleFlushInterval(w: Worker, interval: nat, now: int): Worker {
    if interval != 0 && now - w.lastFlush >= interval then Worker(FlushAll(w.sinks), now) else w
  }

  /** One turn of the worker: the outcome of `dequeue_for` and the time; also whether it goes on. */
  datatype Turn = Turn(popped: Option<Msg>, now: int)

  function Process(w: Worker, interval: nat, turn: Turn): (Worker, bool) {
    match turn.popped
    case None => (HandleFlushInterval(w, interval, turn.now), true)
    case Some(msg) =>
      match msg.kind
      case FlushRequest => (Worker(FlushAll(w.sinks), turn.now), true)
      case Terminate => (Worker(FlushAll(w.sinks), turn.now), false)
      case Log => (HandleFlushInterval(w.(sinks := OfferAll(w.sinks, msg)), interval, turn.now), true)
  }

  /** The worker loop over the given turns; it ends early when it is told to terminate. */
  function Loop(w: Worker, interval: nat, turns: seq<Turn>): (Worker, bool)
    decreases |turns|
  {
    if turns == [] then (w, true)
    else
      var (next, active) := Process(w, interval, turns[0]);
      if active then Loop(next, interval, turns[1..]) else (next, false)
  }

  lemma FlushNext(sinks: seq<Sink>, i: nat)
    requires i < |sinks|
    ensures FlushAll(sinks[i..]) == [sinks[i].(flushes := sinks[i].flushes + 1)] + FlushAll(sinks[i + 1..])
  {
    assert sinks[i..][1..] == sinks[i + 1..];
  }

  lemma OfferNext(sinks: seq<Sink>, i: nat, msg: Msg)
    requires i < |sinks|
    ensures OfferAll(sinks[i..], msg) == OfferAll([sinks[i]], msg) + OfferAll(sinks[i + 1..], msg)
  {
    assert sinks[i..][1..] == sinks[i + 1..] && [sinks[i]][1..] == [];
  }

  lemma ReplaceAt(sinks: seq<Sink>, i: nat, sink: Sink, rest: seq<Sink>)
    requires i < |sinks|
    ensures sinks[i := sink][..i + 1] + rest == sinks[..i] + ([sink] + rest)
    ensures sinks[i := sink][i + 1..] == sinks[i + 1..]
  {
  }

  class AsyncLogHelper {
    const flushInterval: nat
    var sinks: seq<Sink>
    var lastFlush: int

    constructor (sinks: seq<Sink>, flushInterval: nat, now: int)
      ensures this.sinks == sinks && this.flushInterval == flushInterval && lastFlush == now
    {
      this.sinks, this.flushInterval, this.lastFlush := sinks, flushInterval, now;
    }

    method FlushSinks(now: int)
      modifies this
      ensures Worker(sinks, lastFlush) == Worker(FlushAll(old(sinks)), now)
    {
      var i := 0;
      while i < |sinks|
        invariant 0 <= i <= |sinks| == |old(sinks)| && sinks[i..] == old(sinks)[i..]
        invariant FlushAll(old(sinks)) == sinks[..i] + FlushAll(sinks[i..])
      {
        ghost var before := sinks;
        sinks := sinks[i := sinks[i].(flushes := sinks[i].flushes + 1)];
        FlushNext(before, i);
        ReplaceAt(before, i, sinks[i], FlushAll(sinks[i + 1..]));
        i := i + 1;
      }
      assert sinks[..i] + [] == sinks;
      lastFlush := now;
    }

    method HandleInterval(now: int)
      modifies this
      ensures Worker(sinks, lastFlush) == HandleFlushInterval(old(Worker(sinks, lastFlush)), flushInterval, now)
    {
      if flushInterval == 0 { return; }
      if now - lastFlush >= flushInterval { FlushSinks(now); }
    }

    method OfferToSinks(msg: Msg)
      modifies this`sinks
      ensures sinks == OfferAll(old(sinks), msg)
    {
      var i := 0;
      while i < |sinks|
        invariant 0 <= i <= |sinks| == |old(sinks)| && sinks[i..] == old(sinks)[i..]
        invariant OfferAll(old(sinks), msg) == sinks[..i] + OfferAll(sinks[i..], msg)
      {
        ghost var before := sinks;
        if sinks[i].ShouldLog(msg) {
          sinks := sinks[i := sinks[i].(offered := sinks[i].offered + [msg])];
        }
        OfferNext(before, i, msg);
        ReplaceAt(before, i, sinks[i], OfferAll(sinks[i + 1..], msg));
        i := i + 1;
      }
      assert sinks[..i] + [] == sinks;
    }

    method ProcessNextMsg(turn: Turn) returns (active: bool)
      modifies this
      ensures (Worker(sinks, lastFlush), active) == Process(old(Worker(sinks, lastFlush)), flushInterval, turn)
    {
      if turn.popped.None? {
        HandleInterval(turn.now);
        return true;
      }
      var msg := turn.popped.value;
      match msg.kind {
        case FlushRequest =>
          FlushSinks(turn.now);
          return true;
        case Terminate =>
          FlushSinks(turn.now);
          return false;
        case Log =>
          OfferToSinks(msg);
          HandleInterval(turn.now);
          return true;
      }
    }

    /** The worker loop, given how its calls of `dequeue_for` turn out. */
    method WorkerLoop(turns: seq<Turn>) returns (active: bool)
      modifies this
      ensures (Worker(sinks, lastFlush), active) == Loop(old(Worker(sinks, lastFlush)), flushInterval, turns)
    {
      active := true;
      var i := 0;
      ghost var goal := Loop(Worker(sinks, lastFlush), flushInterval, turns);
      assert turns[0..] == turns;
      while active && i < |turns|
        invariant 0 <= i <= |turns|
        invariant if active then goal == Loop(Worker(sinks, lastFlush), flushInterval, turns[i..])
                  else goal == (Worker(sinks, lastFlush), false)
      {
        active := ProcessNextMsg(turns[i]);
        assert turns[i..][1..] == turns[i + 1..];
        i := i + 1;
      }
    }
  }

  // ----- What the sinks get -----

  /** The log messages a sink of that level admits, up to the first terminate message. */
  function Admitted(level: nat, msgs: seq<Msg>): seq<Msg> {
    if msgs == [] || msgs[0].kind.Terminate? then []
    else (if msgs[0].kind.Log? && msgs[0].level >= level then [msgs[0]] else []) + Admitted(level, msgs[1..])
  }

  /** The messages the turns have popped. */
  function Popped(turns: seq<Turn>): seq<Msg> {
    if turns == [] then []
    else (if turns[0].popped.Some? then [turns[0].popped.value] else []) + Popped(turns[1..])
  }

  lemma {:induction false} FlushAllKeeps(sinks: seq<Sink>)
    ensures |FlushAll(sinks)| == |sinks|
    ensures forall i :: 0 <= i < |sinks| ==>
              FlushAll(sinks)[i].level == sinks[i].level && FlushAll(sinks)[i].offered == sinks[i].offered
    decreases |sinks|
  {
    if sinks != [] { FlushAllKeeps(sinks[1..]); }
  }

  lemma {:induction false} OfferAllAdds(sinks: seq<Sink>, msg: Msg)
    ensures |OfferAll(sinks, msg)| == |sinks|
    ensures forall i :: 0 <= i < |sinks| ==>
              OfferAll(sinks, msg)[i].level == sinks[i].level
              && OfferAll(sinks, msg)[i].offered == sinks[i].offered + (if msg.level >= sinks[i].level then [msg] else [])
    decreases |sinks|
  {
    if sinks != [] { OfferAllAdds(sinks[1..], msg); }
  }

  /** Whatever the clock and the timeouts do, each sink is offered what it admits of the popped messages. */
  lemma {:induction false} SinksGetAdmitted(w: Worker, interval: nat, turns: seq<Turn>)
    ensures var after := Loop(w, interval, turns).0.sinks;
            && |after| == |w.sinks|
            && forall i :: 0 <= i < |w.sinks| ==>
                 after[i].level == w.sinks[i].level
                 && after[i].offered == w.sinks[i].offered + Admitted(w.sinks[i].level, Popped(turns))
    ensures Loop(w, interval, turns).1 <==> forall m :: m in Popped(turns) ==> !m.kind.Terminate?
    decreases |turns|
  {
    hide Process;
    if turns == [] {
      assert forall x: seq<Msg> :: x + [] == x;
    } else {
      var (next, active) := Process(w, interval, turns[0]);
      TurnAdds(w, interval, turns[0]);
      if active {
        SinksGetAdmitted(next, interval, turns[1..]);
        AdmittedFirst(w, next, turns);
        hide Added, Admitted;
      } else {
        LastTurn(w, next, turns);
      }
    }
  }

  /** One turn adds to each sink what it admits, and goes on unless it popped the terminate message. */
  lemma TurnAdds(w: Worker, interval: nat, turn: Turn)
    ensures var (next, active) := Process(w, interval, turn);
            && (active <==> (turn.popped.Some? ==> !turn.popped.value.kind.Terminate?))
            && |next.sinks| == |w.sinks|
            && forall i :: 0 <= i < |w.sinks| ==>
                 next.sinks[i].level == w.sinks[i].level
                 && next.sinks[i].offered == w.sinks[i].offered + Added(w.sinks[i].level, turn)
  {
    FlushAllKeeps(w.sinks);
    if turn.popped.Some? {
      OfferAllAdds(w.sinks, turn.popped.value);
      FlushAllKeeps(OfferAll(w.sinks, turn.popped.value));
    }
    forall i | 0 <= i < |w.sinks| ensures w.sinks[i].offered + [] == w.sinks[i].offered {
    }
  }

  lemma LastTurn(w: Worker, next: Worker, turns: seq<Turn>)
    requires turns != [] && turns[0].popped.Some? && turns[0].popped.value.kind.Terminate? && |next.sinks| == |w.sinks|
    requires forall i :: 0 <= i < |w.sinks| ==>
               next.sinks[i].offered == w.sinks[i].offered + Added(w.sinks[i].level, turns[0])
    ensures forall i :: 0 <= i < |w.sinks| ==>
              next.sinks[i].offered == w.sinks[i].offered + Admitted(w.sinks[i].level, Popped(turns))
    ensures turns[0].popped.value in Popped(turns)
  {
    assert Popped(turns)[0] == turns[0].popped.value;
  }

  /** What one turn adds for a sink of that level. */
  function Added(level: nat, turn: Turn): seq<Msg> {
    if turn.popped.Some? && turn.popped.value.kind.Log? && turn.popped.value.level >= level then [turn.popped.value] else []
  }

  lemma AdmittedFirst(w: Worker, next: Worker, turns: seq<Turn>)
    requires turns != [] && |next.sinks| == |w.sinks|
    requires turns[0].popped.Some? ==> !turns[0].popped.value.kind.Terminate?
    requires forall i :: 0 <= i < |w.sinks| ==>
               next.sinks[i].level == w.sinks[i].level
               && next.sinks[i].offered == w.sinks[i].offered + Added(w.sinks[i].level, turns[0])
    ensures forall i :: 0 <= i < |w.sinks| ==>
              next.sinks[i].offered + Admitted(w.sinks[i].level, Popped(turns[1..]))
              == w.sinks[i].offered + Admitted(w.sinks[i].level, Popped(turns))
  {
    forall i | 0 <= i < |w.sinks|
      ensures next.sinks[i].offered + Admitted(w.sinks[i].level, Popped(turns[1..]))
              == w.sinks[i].offered + Admitted(w.sinks[i].level, Popped(turns))
    {
      AdmittedTurn(w.sinks[i].level, w.sinks[i].offered, turns);
    }
  }

  lemma AdmittedTurn(level: nat, offered: seq<Msg>, turns: seq<Turn>)
    requires turns != [] && (turns[0].popped.Some? ==> !turns[0].popped.value.kind.Terminate?)
    ensures offered + Added(level, turns[0]) + Admitted(level, Popped(turns[1..]))
            == offered + Admitted(level, Popped(turns))
  {
    var rest := Popped(turns[1..]);
    if turns[0].popped.Some? {
      AdmittedHead(level, turns[0].popped.value, rest);
    } else {
      assert Popped(turns) == rest;
    }
  }

  lemma AdmittedHead(level: nat, m: Msg, rest: seq<Msg>)
    requires !m.kind.Terminate?
    ensures Admitted(level, [m] + rest) ==
            (if m.kind.Log? && m.level >= level then [m] else []) + Admitted(level, rest)
  {
    assert ([m] + rest)[1..] == rest;
  }

  // ----- Shutdown -----

  predicate NoPush(steps: seq<Step>) {
    forall i :: 0 <= i < |steps| ==> !steps[i].Enqueue? && !steps[i].EnqueueNowait?
  }

  /**
   * The destructor's call in a run: when no producer is in a call and nothing has asked to terminate yet, thread `t`
   * enqueues the terminate message `last`, and nobody enqueues anything after that; `q` is any later state.
   */
  ghost predicate Destroyed(q: Queue, before: Queue, t: nat, last: Msg, after: seq<Step>) {
    && Reachable(before)
    && (forall u :: 0 <= u < |before.threads| ==> HoldsNothing(before.threads[u]))
    && (forall m :: m in before.issued ==> !m.kind.Terminate?) && last.kind.Terminate?
    && Enabled(before, Enqueue(t, last)) && NoPush(after)
    && Execute(Next(before, Enqueue(t, last)), after) == Some(q)
  }

  /** `last` is on its way into the queue, held by thread `t` alone, or is in. */
  predicate LastComes(q: Queue, accepted: seq<Msg>, t: nat, last: Msg) {
    || (q.accepted == accepted
        && forall u :: 0 <= u < |q.threads| && !HoldsNothing(q.threads[u]) ==> u == t && q.threads[u].msg == last)
    || (q.accepted == accepted + [last] && forall u :: 0 <= u < |q.threads| ==> HoldsNothing(q.threads[u]))
  }

  lemma StepLastComes(q: Queue, step: Step, accepted: seq<Msg>, t: nat, last: Msg)
    requires Enabled(q, step) && LastComes(q, accepted, t, last) && !step.Enqueue? && !step.EnqueueNowait?
    ensures LastComes(Next(q, step), accepted, t, last)
  {
  }

  lemma {:induction false} RunLastComes(start: Queue, steps: seq<Step>, accepted: seq<Msg>, t: nat, last: Msg)
    requires LastComes(start, accepted, t, last) && NoPush(steps)
    ensures Execute(start, steps).Some? ==> LastComes(Execute(start, steps).value, accepted, t, last)
    decreases |steps|
  {
    hide LastComes, Next, Enabled;
    if steps != [] {
      var front := steps[..|steps| - 1];
      RunLastComes(start, front, accepted, t, last);
      var before := Execute(start, front);
      if before.Some? && Enabled(before.value, steps[|steps| - 1]) {
        StepLastComes(before.value, steps[|steps| - 1], accepted, t, last);
      }
    }
  }

  lemma {:induction false} ExecuteJoins(q: Queue, a: seq<Step>, b: seq<Step>)
    ensures Execute(q, a + b) == match Execute(q, a) case None => None case Some(r) => Execute(r, b)
    decreases |b|
  {
    hide Next, Enabled;
    if b == [] {
      assert a + b == a;
    } else {
      assert (a + b)[..|a + b| - 1] == a + b[..|b| - 1];
      ExecuteJoins(q, a, b[..|b| - 1]);
    }
  }

  lemma NextKeepsMax(q: Queue, step: Step)
    requires Enabled(q, step)
    ensures Next(q, step).max == q.max
  {
  }

  lemma {:induction false} ExecuteKeepsMax(q: Queue, steps: seq<Step>)
    ensures Execute(q, steps).Some? ==> Execute(q, steps).value.max == q.max
    decreases |steps|
  {
    hide Next, Enabled;
    if steps != [] {
      ExecuteKeepsMax(q, steps[..|steps| - 1]);
      var before := Execute(q, steps[..|steps| - 1]);
      if before.Some? && Enabled(before.value, steps[|steps| - 1]) { NextKeepsMax(before.value, steps[|steps| - 1]); }
    }
  }

  lemma OneMoreStep(q: Queue, step: Step)
    requires Enabled(q, step)
    ensures Execute(q, [step]) == Some(Next(q, step))
  {
    hide Enabled, Next;
    assert [step][..0] == [];
    assert Execute(q, []) == Some(q);
  }

  lemma DestroyedReachable(q: Queue, before: Queue, t: nat, last: Msg, after: seq<Step>)
    requires Destroyed(q, before, t, last, after)
    ensures Reachable(q)
  {
    hide Enabled, Next, Execute;
    var n: nat, steps: seq<Step> :| Execute(Start(before.max, n), steps) == Some(before);
    var step := Enqueue(t, last);
    OneMoreStep(before, step);
    ExecuteJoins(Start(before.max, n), steps, [step]);
    ExecuteJoins(Start(before.max, n), steps + [step], after);
    ExecuteKeepsMax(Start(before.max, n), steps + [step] + after);
    assert Execute(Start(q.max, n), steps + [step] + after) == Some(q);
  }

  lemma EnqueueLastComes(before: Queue, t: nat, last: Msg)
    requires Enabled(before, Enqueue(t, last)) && forall u :: 0 <= u < |before.threads| ==> HoldsNothing(before.threads[u])
    ensures LastComes(Next(before, Enqueue(t, last)), before.accepted, t, last)
  {
  }

  /**
   * Shutdown: once the worker, who alone pops, has ended after the destructor's call, the queue is empty and every sink
   * was offered exactly the accepted messages it admits, once each and in queue order.
   */
  lemma ShutdownDelivers(q: Queue, before: Queue, t: nat, last: Msg, after: seq<Step>, w: Worker, interval: nat, turns: seq<Turn>)
    requires Destroyed(q, before, t, last, after)
    requires q.delivered == Popped(turns) && !Loop(w, interval, turns).1
    ensures q.accepted == before.accepted + [last] && q.items == [] && q.delivered == q.accepted
    ensures var sinks := Loop(w, interval, turns).0.sinks;
            |sinks| == |w.sinks|
            && forall i :: 0 <= i < |w.sinks| ==>
                 sinks[i].offered == w.sinks[i].offered + Admitted(w.sinks[i].level, q.accepted)
  {
    hide Reachable, Enabled, Next, Execute, Loop, Popped;
    DestroyedReachable(q, before, t, last, after);
    NothingLost(q);
    NothingLost(before);
    AcceptedWasIssued(before);
    EnqueueLastComes(before, t, last);
    RunLastComes(Next(before, Enqueue(t, last)), after, before.accepted, t, last);
    SinksGetAdmitted(w, interval, turns);
    var m :| m in q.delivered && m.kind.Terminate?;
    assert m in q.accepted;
    assert q.accepted == before.accepted + [last];
    var k :| 0 <= k < |q.delivered| && q.delivered[k] == m;
    assert q.accepted[k] == m;
    assert k == |before.accepted|;
  }

  /** With blocking calls only, a message whose caller has returned was accepted. */
  lemma BlockingAcceptsAll(q: Queue, n: nat, steps: seq<Step>)
    requires Execute(Start(q.max, n), steps) == Some(q) && NeverNowait(steps)
    ensures forall m :: m in q.issued && (forall t :: 0 <= t < |q.threads| ==> !Holds(q.threads[t], m)) ==> m in q.accepted
  {
    hide Execute;
    BlockingNeverDrops(Start(q.max, n), steps);
    assert Reachable(q);
    NothingLost(q);
  }

  /** Admitting keeps exactly the admitted log messages, without doubling or reordering. */
  lemma {:induction false} AdmittedIs(level: nat, msgs: seq<Msg>)
    requires forall i :: 0 <= i < |msgs| - 1 ==> !msgs[i].kind.Terminate?
    ensures forall m :: m in Admitted(level, msgs) <==> m in msgs && m.kind.Log? && m.level >= level
    ensures multiset(Admitted(level, msgs)) <= multiset(msgs)
    decreases |msgs|
  {
    if msgs != [] && !msgs[0].kind.Terminate? {
      assert msgs == [msgs[0]] + msgs[1..];
      AdmittedIs(level, msgs[1..]);
    } else if msgs != [] {
      assert |msgs| == 1;
    }
  }

  // ----- When the sinks are flushed -----

  /** A turn asks for a flush by its message, or finds the interval over. */
  predicate Due(last: int, interval: nat, turn: Turn) {
    if turn.popped.Some? && !turn.popped.value.kind.Log? then true
    else 0 < interval <= turn.now - last
  }

  /** How many of the turns flush, when the last flush was at `last`. */
  function FlushCount(last: int, interval: nat, turns: seq<Turn>): nat
    decreases |turns|
  {
    if turns == [] then 0
    else if Due(last, interval, turns[0]) then 1 + FlushCount(turns[0].now, interval, turns[1..])
    else FlushCount(last, interval, turns[1..])
  }

  lemma {:induction false} FlushAllCounts(sinks: seq<Sink>)
    ensures |FlushAll(sinks)| == |sinks|
    ensures forall i :: 0 <= i < |sinks| ==> FlushAll(sinks)[i].flushes == sinks[i].flushes + 1
    decreases |sinks|
  {
    if sinks != [] { FlushAllCounts(sinks[1..]); }
  }

  lemma {:induction false} OfferAllFlushesNone(sinks: seq<Sink>, msg: Msg)
    ensures |OfferAll(sinks, msg)| == |sinks|
    ensures forall i :: 0 <= i < |sinks| ==> OfferAll(sinks, msg)[i].flushes == sinks[i].flushes
    decreases |sinks|
  {
    if sinks != [] { OfferAllFlushesNone(sinks[1..], msg); }
  }

  /** A turn flushes every sink exactly once if it is due, after offering its message, and otherwise none. */
  lemma TurnFlushes(w: Worker, interval: nat, turn: Turn)
    ensures var next, due := Process(w, interval, turn).0, Due(w.lastFlush, interval, turn);
            && |next.sinks| == |w.sinks|
            && next.lastFlush == (if due then turn.now else w.lastFlush)
            && forall i :: 0 <= i < |w.sinks| ==> next.sinks[i].flushes == w.sinks[i].flushes + if due then 1 else 0
  {
    FlushAllCounts(w.sinks);
    if turn.popped.Some? {
      OfferAllFlushesNone(w.sinks, turn.popped.value);
      FlushAllCounts(OfferAll(w.sinks, turn.popped.value));
    }
  }

  /** The turns up to the one that pops the terminate message. */
  function Played(turns: seq<Turn>): seq<Turn> {
    if turns == [] then []
    else if turns[0].popped.Some? && turns[0].popped.value.kind.Terminate? then [turns[0]]
    else [turns[0]] + Played(turns[1..])
  }

  /** Over every run each sink is flushed once in every turn that is due, and in no other. */
  lemma {:induction false} FlushedWhenDue(w: Worker, interval: nat, turns: seq<Turn>)
    ensures var after := Loop(w, interval, turns).0;
            && |after.sinks| == |w.sinks|
            && forall i :: 0 <= i < |w.sinks| ==>
                 after.sinks[i].flushes == w.sinks[i].flushes + FlushCount(w.lastFlush, interval, Played(turns))
    decreases |turns|
  {
    hide Process;
    if turns != [] {
      var (next, active) := Process(w, interval, turns[0]);
      TurnFlushes(w, interval, turns[0]);
      TurnAdds(w, interval, turns[0]);
      if active {
        FlushedWhenDue(next, interval, turns[1..]);
        assert Played(turns)[1..] == Played(turns[1..]);
      } else {
        assert Played(turns)[1..] == [];
      }
    }
  }

  /** With an interval no turn leaves it over; without one only messages flush. */
  lemma IntervalKept(w: Worker, interval: nat, turn: Turn)
    ensures interval > 0 ==> turn.now - Process(w, interval, turn).0.lastFlush < interval
    ensures interval == 0 && (turn.popped.Some? ==> turn.popped.value.kind.Log?) ==>
              var next := Process(w, interval, turn).0;
              |next.sinks| == |w.sinks| && forall i :: 0 <= i < |w.sinks| ==> next.sinks[i].flushes == w.sinks[i].flushes
  {
    TurnFlushes(w, interval, turn);
  }

  /** At the worker's end every sink has just been flushed: the last turn offers nothing and flushes. */
  lemma {:induction false} EndFlushes(w: Worker, interval: nat, turns: seq<Turn>)
    requires !Loop(w, interval, turns).1
    ensures var played := Played(turns);
            && played != [] && Loop(w, interval, turns).0.lastFlush == played[|played| - 1].now
            && Loop(w, interval, turns).0 ==
               Worker(FlushAll(Loop(w, interval, played[..|played| - 1]).0.sinks), played[|played| - 1].now)
            && Loop(w, interval, played[..|played| - 1]).1
    decreases |turns|
  {
    hide FlushAll;
    var (next, active) := Process(w, interval, turns[0]);
    var played := Played(turns);
    if active {
      EndFlushes(next, interval, turns[1..]);
      var rest := Played(turns[1..]);
      assert played == [turns[0]] + rest;
      assert played[..|played| - 1] == [turns[0]] + rest[..|rest| - 1];
      assert played[..|played| - 1][1..] == rest[..|rest| - 1];
    } else {
      assert played[..0] == [];
    }
  }
}
