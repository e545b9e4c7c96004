/** The interceptor chain around a request handler: a resumable walk that amounts to nested calls. */
module Interceptors {
  datatype Answer = Pass | Stop

  datatype Phase = OnRequest | OnHandle | OnResponse

  /** What the context does to the outside: calls interceptor `i` or the handler, or ends the response. */
  datatype Event = Request(i: nat) | Handle | Response(i: nat) | End

  datatype Walk = Walk(on: Phase, iter: nat, log: seq<Event>)

  /** The last call has not been answered yet. */
  predicate Waits(n: nat, w: Walk) {
    && w.log != []
    && w.log[|w.log| - 1] != End
    && (w.on.OnRequest? ==> w.iter < n)
    && (w.on.OnHandle? ==> w.iter == n)
    && (w.on.OnResponse? ==> 0 < w.iter <= n)
  }

  function DoRequest(n: nat, w: Walk): Walk {
    if w.iter == n then w.(on := OnHandle, log := w.log + [Handle])
    else w.(log := w.log + [Request(w.iter)])
  }

  function DoResponse(w: Walk): Walk {
    w.(log := w.log + [if w.iter == 0 then End else Response(w.iter - 1)])
  }

  function Begin(n: nat): Walk {
    DoRequest(n, Walk(OnRequest, 0, []))
  }

  /** `next` */
  function Next(n: nat, w: Walk, answer: Answer): (w': Walk)
    requires Waits(n, w)
    ensures Waits(n, w') || w'.log == w.log + [End]
  {
    match w.on
    case OnRequest =>
      var up := w.(iter := w.iter + 1);
      if answer.Pass? then DoRequest(n, up) else DoResponse(up.(on := OnResponse))
    case OnHandle => Respond(w.(on := OnResponse), answer)
    case OnResponse => Respond(w.(iter := w.iter - 1), answer)
  }

  function Respond(w: Walk, answer: Answer): Walk {
    if answer.Pass? then DoResponse(w) else w.(log := w.log + [End])
  }

  /** Each call is answered once, as `answers` says. */
  function Go(n: nat, w: Walk, answers: Event -> Answer, steps: nat): Walk
    decreases steps
  {
    if steps == 0 || !Waits(n, w) then w
    else Go(n, Next(n, w, answers(w.log[|w.log| - 1])), answers, steps - 1)
  }

  // ----- The same as nested calls -----

  /** What the layers from `i` inwards do, and whether the response phase is cut short there. */
  function Layers(n: nat, i: nat, answers: Event -> Answer): (seq<Event>, bool)
    requires i <= n
    decreases n - i
  {
    if i == n then ([Handle], answers(Handle).Stop?)
    else
      var (inner, cut) := if answers(Request(i)).Pass? then Layers(n, i + 1, answers) else ([], false);
      if cut then ([Request(i)] + inner, true)
      else ([Request(i)] + inner + [Response(i)], answers(Response(i)).Stop?)
  }

  function AtLayer(n: nat, i: nat, log: seq<Event>): Walk
    requires i <= n
  {
    DoRequest(n, Walk(OnRequest, i, log))
  }

  lemma {:induction false} GoSplits(n: nat, w: Walk, answers: Event -> Answer, a: nat, b: nat)
    ensures Go(n, w, answers, a + b) == Go(n, Go(n, w, answers, a), answers, b)
    decreases a
  {
    hide Next;
    if a > 0 && Waits(n, w) { GoSplits(n, Next(n, w, answers(w.log[|w.log| - 1])), answers, a - 1, b); }
  }

  lemma OneStep(n: nat, w: Walk, answers: Event -> Answer)
    requires Waits(n, w)
    ensures Go(n, w, answers, 1) == Next(n, w, answers(w.log[|w.log| - 1]))
  {
    hide Next;
    assert Go(n, Next(n, w, answers(w.log[|w.log| - 1])), answers, 0) == Next(n, w, answers(w.log[|w.log| - 1]));
  }

  /** All that layer `i` and the layers inside it do, from the moment it is entered. */
  lemma {:induction false} LayersWalk(n: nat, i: nat, answers: Event -> Answer, log: seq<Event>)
    requires i <= n
    ensures var (calls, cut) := Layers(n, i, answers);
            var w := Go(n, AtLayer(n, i, log), answers, |calls|);
            if cut then w.log == log + calls + [End] else w == DoResponse(Walk(OnResponse, i, log + calls))
    decreases n - i
  {
    hide Go;
    var w := AtLayer(n, i, log);
    OneStep(n, w, answers);
    if i == n {
      assert log + Layers(n, i, answers).0 == w.log;
    } else {
      var before := log + [Request(i)];
      assert w.log == before;
      if answers(Request(i)).Stop? {
        GoSplits(n, w, answers, 1, 1);
        LayerResponds(n, i, answers, before);
      } else {
        InnerWalk(n, i, answers, log);
      }
    }
  }

  lemma {:induction false} InnerWalk(n: nat, i: nat, answers: Event -> Answer, log: seq<Event>)
    requires i < n && answers(Request(i)).Pass?
    ensures var (calls, cut) := Layers(n, i, answers);
            var w := Go(n, AtLayer(n, i, log), answers, |calls|);
            if cut then w.log == log + calls + [End] else w == DoResponse(Walk(OnResponse, i, log + calls))
    decreases n - i, 0
  {
    hide Go;
    var w, before := AtLayer(n, i, log), log + [Request(i)];
    var (calls, _) := Layers(n, i, answers);
    var (inner, cut) := Layers(n, i + 1, answers);
    OneStep(n, w, answers);
    LayersWalk(n, i + 1, answers, before);
    GoSplits(n, w, answers, 1, |inner|);
    if cut {
      assert before + inner == log + calls;
    } else {
      GoSplits(n, w, answers, 1 + |inner|, 1);
      LayerResponds(n, i, answers, before + inner);
      assert before + inner + [Response(i)] == log + calls;
    }
  }

  /** The outward pass through layer `i`. */
  lemma LayerResponds(n: nat, i: nat, answers: Event -> Answer, log: seq<Event>)
    requires i < n
    ensures var w := Go(n, DoResponse(Walk(OnResponse, i + 1, log)), answers, 1);
            if answers(Response(i)).Stop? then w.log == log + [Response(i)] + [End]
            else w == DoResponse(Walk(OnResponse, i, log + [Response(i)]))
  {
    hide Go;
    OneStep(n, DoResponse(Walk(OnResponse, i + 1, log)), answers);
  }

  /** However each call is answered, the walk makes exactly the nested calls and then ends once. */
  lemma WalkIsNested(n: nat, answers: Event -> Answer)
    ensures var (calls, _) := Layers(n, 0, answers);
            var w := Go(n, Begin(n), answers, |calls|);
            w.log == calls + [End] && !Waits(n, w)
  {
    hide Next, Go, Layers;
    var (calls, _) := Layers(n, 0, answers);
    LayersWalk(n, 0, answers, []);
    assert [] + calls == calls;
  }

  // ----- The shape of nested calls -----

  function Requests(log: seq<Event>): seq<nat> {
    if log == [] then [] else (if log[0].Request? then [log[0].i] else []) + Requests(log[1..])
  }

  function Responses(log: seq<Event>): seq<nat> {
    if log == [] then [] else (if log[0].Response? then [log[0].i] else []) + Responses(log[1..])
  }

  function Reverse(s: seq<nat>): seq<nat> {
    if s == [] then [] else Reverse(s[1..]) + [s[0]]
  }

  lemma {:induction false} CallsSplit(a: seq<Event>, b: seq<Event>)
    ensures Requests(a + b) == Requests(a) + Requests(b)
    ensures Responses(a + b) == Responses(a) + Responses(b)
  {
    hide Requests, Responses;
    RequestsStep(a + b);
    RequestsStep(a);
    ResponsesStep(a + b);
    ResponsesStep(a);
    if a == [] {
      assert a + b == b;
    } else {
      assert (a + b)[1..] == a[1..] + b;
      CallsSplit(a[1..], b);
    }
  }

  lemma RequestsStep(log: seq<Event>)
    ensures Requests(log) == if log == [] then [] else (if log[0].Request? then [log[0].i] else []) + Requests(log[1..])
  {
  }

  lemma ResponsesStep(log: seq<Event>)
    ensures Responses(log) == if log == [] then [] else (if log[0].Response? then [log[0].i] else []) + Responses(log[1..])
  {
  }

  predicate PrefixOf(a: seq<nat>, b: seq<nat>) {
    |a| <= |b| && a == b[..|a|]
  }

  /** How many layers, from `i` on, are entered. */
  function Depth(n: nat, i: nat, answers: Event -> Answer): (d: nat)
    requires i <= n
    decreases n - i
  {
    if i == n then 0 else if answers(Request(i)).Stop? then 1 else 1 + Depth(n, i + 1, answers)
  }

  function Count(i: nat, d: nat): (s: seq<nat>)
    ensures |s| == d && forall k :: 0 <= k < d ==> s[k] == i + k
    decreases d
  {
    if d == 0 then [] else [i] + Count(i + 1, d - 1)
  }

  /**
   * The interceptors are entered in order up to and including the first that stops; they respond in the reverse order,
   * all of them unless the handler or a response stops, and then only up to that one.
   */
  lemma {:induction false} ResponsesMirror(n: nat, i: nat, answers: Event -> Answer)
    requires i <= n
    ensures var (calls, cut) := Layers(n, i, answers);
            && Requests(calls) == Count(i, Depth(n, i, answers))
            && PrefixOf(Responses(calls), Reverse(Requests(calls)))
            && (!cut ==> Responses(calls) == Reverse(Requests(calls)))
    decreases n - i
  {
    if i < n {
      var (calls, cut) := Layers(n, i, answers);
      var entered := answers(Request(i)).Pass?;
      if entered { ResponsesMirror(n, i + 1, answers); }
      var (inner, innerCut) := if entered then Layers(n, i + 1, answers) else ([], false);
      hide Layers, Requests, Responses, Reverse;
      OneLayer(i, inner);
      if !entered { NoCalls(); }
      PrefixGrows(Responses(inner), Reverse(Requests(inner)), i);
      if !innerCut { assert calls == [Request(i)] + inner + [Response(i)]; }
    }
  }

  lemma NoCalls()
    ensures Requests([]) == [] && Responses([]) == [] && Reverse([]) == []
  {
  }

  lemma PrefixGrows(a: seq<nat>, b: seq<nat>, i: nat)
    ensures PrefixOf(a, b) ==> PrefixOf(a, b + [i])
    ensures PrefixOf(b + [i], b + [i])
  {
  }

  lemma OneLayer(i: nat, inner: seq<Event>)
    ensures Requests([Request(i)] + inner) == [i] + Requests(inner)
    ensures Responses([Request(i)] + inner) == Responses(inner)
    ensures Requests([Request(i)] + inner + [Response(i)]) == [i] + Requests(inner)
    ensures Responses([Request(i)] + inner + [Response(i)]) == Responses(inner) + [i]
    ensures Reverse([i] + Requests(inner)) == Reverse(Requests(inner)) + [i]
  {
    CallsSplit([Request(i)] + inner, [Response(i)]);
    assert ([Request(i)] + inner)[1..] == inner;
    assert [Response(i)][1..] == [];
    assert ([i] + Requests(inner))[1..] == Requests(inner);
  }

  /** The handler runs exactly if no interceptor stops the request; a cut is the last call's answer. */
  lemma {:induction false} CutsAndHandling(n: nat, i: nat, answers: Event -> Answer)
    requires i <= n
    ensures var (calls, cut) := Layers(n, i, answers);
            && calls != [] && End !in calls
            && (cut <==> answers(calls[|calls| - 1]).Stop?)
            && (Handle in calls <==> forall k :: i <= k < n ==> answers(Request(k)).Pass?)
    decreases n - i
  {
    if i < n && answers(Request(i)).Pass? { CutsAndHandling(n, i + 1, answers); }
  }

  // ----- The context object -----

  class Context {
    const chain: nat
    var on: Phase
    var iter: nat
    var log: seq<Event>

    constructor (chain: nat)
      ensures this.chain == chain && log == []
    {
      this.chain := chain;
      on, iter, log := OnRequest, 0, [];
    }

    ghost function State(): Walk reads this { Walk(on, iter, log) }

    method Start()
      requires log == []
      modifies this
      ensures State() == Begin(chain)
    {
      on, iter := OnRequest, 0;
      DoInterceptersOnRequest();
    }

    method DoInterceptersOnRequest()
      requires on.OnRequest?
      modifies this`on, this`log
      ensures State() == DoRequest(chain, old(State()))
    {
      if iter == chain {
        on := OnHandle;
        log := log + [Handle];
        return;
      }
      log := log + [Request(iter)];
    }

    method DoInterceptersOnResponse()
      requires on.OnResponse?
      modifies this`log
      ensures State() == DoResponse(old(State()))
    {
      if iter == 0 {
        log := log + [End];
        return;
      }
      log := log + [Response(iter - 1)];
    }

    /** `Pass()` and `Stop()` */
    method Continue(answer: Answer)
      requires Waits(chain, State())
      modifies this
      ensures State() == Next(chain, old(State()), answer)
    {
      match on {
        case OnRequest => NextOnRequest(answer);
        case OnHandle =>
          on := OnResponse;
          StartOnResponse(answer);
        case OnResponse => NextOnResponse(answer);
      }
    }

    method NextOnRequest(answer: Answer)
      requires on.OnRequest? && Waits(chain, State())
      modifies this
      ensures State() == Next(chain, old(State()), answer)
    {
      iter := iter + 1;
      match answer {
        case Pass => DoInterceptersOnRequest();
        case Stop =>
          on := OnResponse;
          DoInterceptersOnResponse();
      }
    }

    method StartOnResponse(answer: Answer)
      requires on.OnResponse?
      modifies this`log
      ensures State() == Respond(old(State()), answer)
    {
      match answer {
        case Pass => DoInterceptersOnResponse();
        case Stop => log := log + [End];
      }
    }

    method NextOnResponse(answer: Answer)
      requires on.OnResponse? && Waits(chain, State())
      modifies this
      ensures State() == Next(chain, old(State()), answer)
    {
      iter := iter - 1;
      StartOnResponse(answer);
    }
  }
}
