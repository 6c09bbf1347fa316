/**
 The activator's request handler: requests, status polls and wakes as turns of one event loop. A turn
 runs from one await to the next; turns of different requests interleave freely.
 */
module Activator {
  import opened Outcomes

  type RequestId = nat
  type WakeId = nat

  // How the race between the wake and the grace timer comes out.
  datatype Outcome = IsReady | Failed | Grace

  datatype Phase =
    | Asking                                           // for the replica count
    | Holding(wake: WakeId, outcome: Option<Outcome>)  // in the race; settled once outcome is known
    | Proxying
    | Proxied
    | Interstitial
    | Warming
    | GatewayError

  // held is heldConnection; reached says whether proxyRequest was called.
  datatype Request = Request(namespace: string, navigation: bool, held: bool, reached: bool, phase: Phase)

  datatype Wake = Wake(namespace: string, patched: bool)

  datatype State = State(wakeInProgress: map<string, WakeId>, wakes: map<WakeId, Wake>, nextWake: WakeId,
                         heldConnections: int, requests: map<RequestId, Request>)

  datatype Event =
    | Arrive(id: RequestId, namespace: string, navigation: bool)
    | Replicas(id: RequestId, count: Option<nat>, sleepThrows: bool)  // no count: the read threw
    | GraceOver(id: RequestId)
    | Patched(wake: WakeId, ok: bool)
    | Waited(wake: WakeId, ready: Option<bool>)                       // no answer: the wait threw
    | Resume(id: RequestId, writeThrows: bool)
    | ProxyEnds(id: RequestId, ok: bool)
    | Poll(namespace: string, addresses: nat)

  predicate Enabled(s: State, e: Event) {
    match e
    case Arrive(id, _, _) => id !in s.requests
    case Replicas(id, _, _) => id in s.requests && s.requests[id].phase.Asking?
    case GraceOver(id) => id in s.requests && s.requests[id].phase.Holding? && s.requests[id].phase.outcome.None?
    case Patched(w, _) => w in s.wakes && !s.wakes[w].patched
    case Waited(w, _) => w in s.wakes && s.wakes[w].patched
    case Resume(id, _) => id in s.requests && s.requests[id].phase.Holding? && s.requests[id].phase.outcome.Some?
    case ProxyEnds(id, _) => id in s.requests && s.requests[id].phase.Proxying?
    case Poll(_, _) => true
  }

  // Get or create the wake of a namespace.
  function AfterEnsureWake(s: State, namespace: string): (t: State)
    ensures namespace in t.wakeInProgress
  {
    if namespace in s.wakeInProgress then s
    else s.(wakeInProgress := s.wakeInProgress[namespace := s.nextWake],
            wakes := s.wakes[s.nextWake := Wake(namespace, false)], nextWake := s.nextWake + 1)
  }

  function Put(s: State, id: RequestId, r: Request): State {
    s.(requests := s.requests[id := r])
  }

  function Settled(r: Request, w: WakeId, outcome: Outcome): Request {
    if r.phase == Holding(w, None) then r.(phase := Holding(w, Some(outcome))) else r
  }

  // The wake's finally block, and the handlers of those who wait for it.
  function AfterWake(s: State, w: WakeId, outcome: Outcome): State
    requires w in s.wakes
  {
    s.(wakeInProgress := s.wakeInProgress - {s.wakes[w].namespace}, wakes := s.wakes - {w},
       requests := map id | id in s.requests :: Settled(s.requests[id], w, outcome))
  }

  function Step(s: State, e: Event): State
    requires Enabled(s, e)
  {
    match e
    case Arrive(id, namespace, navigation) => Put(s, id, Request(namespace, navigation, false, false, Asking))
    case Replicas(id, count, sleepThrows) =>
      var r := s.requests[id];
      if count.None? then Put(s, id, r.(held := false, phase := GatewayError))
      else if count.value >= 1 then Put(s, id, r.(reached := true, phase := Proxying))
      else
        var t := AfterEnsureWake(s, r.namespace);
        if sleepThrows then Put(t, id, r.(held := false, phase := GatewayError))
        else
          Put(t, id, r.(held := true, phase := Holding(t.wakeInProgress[r.namespace], None)))
            .(heldConnections := s.heldConnections + 1)
    case GraceOver(id) =>
      var r := s.requests[id];
      Put(s, id, r.(phase := Holding(r.phase.wake, Some(Grace))))
    case Patched(w, ok) =>
      if ok then s.(wakes := s.wakes[w := s.wakes[w].(patched := true)]) else AfterWake(s, w, Failed)
    case Waited(w, ready) => AfterWake(s, w, if ready == Some(true) then IsReady else Failed)
    case Resume(id, writeThrows) =>
      var r := s.requests[id];
      var left := r.(held := false);
      var next :=
        if r.phase.outcome.value.IsReady? then left.(reached := true, phase := Proxying)
        else if writeThrows then left.(phase := GatewayError)
        else left.(phase := if r.navigation then Interstitial else Warming);
      Put(s, id, next).(heldConnections := s.heldConnections - 1)
    case ProxyEnds(id, ok) => Put(s, id, s.requests[id].(phase := if ok then Proxied else GatewayError))
    case Poll(namespace, addresses) => if addresses > 0 then s else AfterEnsureWake(s, namespace)
  }

  const IDLE := State(map[], map[], 0, 0, map[])

  ghost predicate Runs(trace: seq<State>, events: seq<Event>) {
    && |trace| == |events| + 1 && trace[0] == IDLE
    && forall i | 0 <= i < |events| :: Enabled(trace[i], events[i]) && trace[i + 1] == Step(trace[i], events[i])
  }

  // ------------------------------------------------------------------------------------------

  function Held(s: State): set<RequestId> {
    set id | id in s.requests && s.requests[id].held
  }

  ghost predicate Coalesced(s: State) {
    && (forall ns | ns in s.wakeInProgress ::
      s.wakeInProgress[ns] in s.wakes && s.wakes[s.wakeInProgress[ns]].namespace == ns)
    && (forall w | w in s.wakes ::
          w < s.nextWake && s.wakes[w].namespace in s.wakeInProgress && s.wakeInProgress[s.wakes[w].namespace] == w)
  }

  predicate Consistent(s: State, r: Request) {
    && (r.held <==> r.phase.Holding?)
    && (r.phase.Proxying? || r.phase.Proxied? ==> r.reached)
    && (r.phase.Asking? || r.phase.Holding? || r.phase.Interstitial? || r.phase.Warming? ==> !r.reached)
    && (r.phase.Holding? && r.phase.outcome.None? ==>
          r.phase.wake in s.wakes && s.wakes[r.phase.wake].namespace == r.namespace)
  }

  ghost predicate Inv(s: State) {
    && Coalesced(s)
    && s.heldConnections == |Held(s)|
    && forall id | id in s.requests :: Consistent(s, s.requests[id])
  }

  lemma EnsureWakeCoalesces(s: State, namespace: string)
    requires Coalesced(s)
    ensures var t := AfterEnsureWake(s, namespace);
      && Coalesced(t) && namespace in t.wakeInProgress && t.requests == s.requests
        && t.heldConnections == s.heldConnections
      && forall w | w in s.wakes :: w in t.wakes && t.wakes[w] == s.wakes[w]
  {
  }

  lemma WakeEnds(s: State, w: WakeId, outcome: Outcome)
    requires Inv(s) && w in s.wakes
    ensures Inv(AfterWake(s, w, outcome))
  {
    var t := AfterWake(s, w, outcome);
    assert Held(t) == Held(s);
    forall id | id in t.requests ensures Consistent(t, t.requests[id]) {
      assert Consistent(s, s.requests[id]);
    }
  }

  lemma HeldAfterPut(s: State, id: RequestId, r: Request)
    ensures var before := if id in s.requests && s.requests[id].held then 1 else 0;
      |Held(Put(s, id, r))| == |Held(s)| - before + if r.held then 1 else 0
  {
    assert Held(Put(s, id, r)) == if r.held then Held(s) + {id} else Held(s) - {id};
  }

  lemma PutRequest(s: State, id: RequestId, r: Request)
    requires Inv(s) && Consistent(s, r)
    ensures var change := (if r.held then 1 else 0) - (if id in s.requests && s.requests[id].held then 1 else 0);
      Inv(Put(s, id, r).(heldConnections := s.heldConnections + change))
  {
    var change := (if r.held then 1 else 0) - (if id in s.requests && s.requests[id].held then 1 else 0);
    var t := Put(s, id, r).(heldConnections := s.heldConnections + change);
    HeldAfterPut(s, id, r);
    assert Held(t) == Held(Put(s, id, r));
    hide Held;
    forall other | other in t.requests ensures Consistent(t, t.requests[other]) {
      assert other != id ==> Consistent(s, s.requests[other]);
    }
  }

  lemma StepInv(s: State, e: Event)
    requires Inv(s) && Enabled(s, e)
    ensures Inv(Step(s, e))
  {
    match e {
      case Arrive(id, namespace, navigation) => PutRequest(s, id, Request(namespace, navigation, false, false, Asking));
      case Replicas(id, count, sleepThrows) => ReplicasInv(s, id, count, sleepThrows);
      case GraceOver(id) => PutRequest(s, id,
        s.requests[id].(phase := Holding(s.requests[id].phase.wake, Some(Grace))));
      case Patched(w, ok) =>
        if !ok {
          WakeEnds(s, w, Failed);
        } else {
          assert Held(Step(s, e)) == Held(s);
          forall id | id in s.requests ensures Consistent(Step(s, e), s.requests[id]) {
          }
        }
      case Waited(w, ready) => WakeEnds(s, w, if ready == Some(true) then IsReady else Failed);
      case Resume(id, writeThrows) => PutRequest(s, id, Step(s, e).requests[id]);
      case ProxyEnds(id, ok) => PutRequest(s, id, Step(s, e).requests[id]);
      case Poll(namespace, addresses) => EnsureInv(s, namespace);
    }
  }

  lemma EnsureInv(s: State, namespace: string)
    requires Inv(s)
    ensures Inv(AfterEnsureWake(s, namespace))
  {
    var t := AfterEnsureWake(s, namespace);
    EnsureWakeCoalesces(s, namespace);
    assert Held(t) == Held(s);
    forall id | id in t.requests ensures Consistent(t, t.requests[id]) {
      assert Consistent(s, s.requests[id]);
    }
  }

  lemma ReplicasInv(s: State, id: RequestId, count: Option<nat>, sleepThrows: bool)
    requires Inv(s) && Enabled(s, Replicas(id, count, sleepThrows))
    ensures Inv(Step(s, Replicas(id, count, sleepThrows)))
  {
    var t := Step(s, Replicas(id, count, sleepThrows));
    if count == Some(0) {
      var woken := AfterEnsureWake(s, s.requests[id].namespace);
      EnsureInv(s, s.requests[id].namespace);
      EnsureWakeCoalesces(s, s.requests[id].namespace);
      PutRequest(woken, id, t.requests[id]);
    } else {
      PutRequest(s, id, t.requests[id]);
    }
  }

  lemma {:induction false} AlwaysInv(trace: seq<State>, events: seq<Event>, i: nat)
    requires Runs(trace, events) && i < |trace|
    ensures Inv(trace[i])
  {
    hide Step, Enabled, Inv;
    if i > 0 {
      AlwaysInv(trace, events, i - 1);
      StepInv(trace[i - 1], events[i - 1]);
    } else {
      IdleInv();
    }
  }

  lemma IdleInv()
    ensures Inv(IDLE)
  {
    assert Held(IDLE) == {};
  }

  // At every moment a namespace has at most one wake in flight.
  lemma OneWakePerNamespace(trace: seq<State>, events: seq<Event>, i: nat)
    requires Runs(trace, events) && i < |trace|
    ensures forall v, w | v in trace[i].wakes && w in trace[i].wakes
      && trace[i].wakes[v].namespace == trace[i].wakes[w].namespace ::
              v == w
  {
    AlwaysInv(trace, events, i);
  }

  // The gauge is the number of requests in the race: never negative, and zero when there are none.
  lemma GaugeCountsHeld(trace: seq<State>, events: seq<Event>, i: nat)
    requires Runs(trace, events) && i < |trace|
    ensures trace[i].heldConnections == |set id | id in trace[i].requests && trace[i].requests[id].phase.Holding?|
  {
    hide Step, Enabled;
    AlwaysInv(trace, events, i);
    var racing := set id | id in trace[i].requests && trace[i].requests[id].phase.Holding?;
    assert racing == Held(trace[i]);
  }

  // Whoever is told to come back was never proxied, and a request that still waits in the race has a
  // wake of its namespace in flight.
  lemma WarmingNeverProxied(trace: seq<State>, events: seq<Event>, i: nat, id: RequestId)
    requires Runs(trace, events) && i < |trace| && id in trace[i].requests
    ensures var r := trace[i].requests[id];
      && (r.phase.Warming? || r.phase.Interstitial? ==> !r.reached)
      && (r.phase.Proxying? || r.phase.Proxied? ==> r.reached)
      && (r.phase.Holding? && r.phase.outcome.None? ==>
            r.namespace in trace[i].wakeInProgress && trace[i].wakeInProgress[r.namespace] == r.phase.wake)
  {
    hide Step, Enabled;
    AlwaysInv(trace, events, i);
    assert Consistent(trace[i], trace[i].requests[id]);
  }

  // ------------------------------------------------------------------------------------------
  // What decides each answer.

  // A request goes to the proxy if and only if the tenant has a replica, or its wake was ready in time.
  lemma ProxiedExactly(s: State, e: Event, id: RequestId)
    requires Inv(s) && Enabled(s, e) && id in s.requests
    ensures id in Step(s, e).requests
    ensures var was, now := s.requests[id], Step(s, e).requests[id];
      && now.namespace == was.namespace && now.navigation == was.navigation
      && (was.phase != now.phase && now.phase == Proxying <==>
            || (e.Replicas? && e.id == id && e.count.Some? && e.count.value >= 1)
            || (e.Resume? && e.id == id && was.phase.outcome == Some(IsReady)))
      && (was.reached != now.reached <==> was.phase != now.phase && now.phase == Proxying)
      && (was.phase != now.phase && now.phase == Proxied <==> e == ProxyEnds(id, true))
  {
    hide Coalesced, Held, AfterEnsureWake, AfterWake;
    RequestStep(s, e, id);
  }

  // It is told to come back, as a page or as data, if and only if its wake was not ready in time and the
  // answer could be written.
  lemma ToldToComeBackExactly(s: State, e: Event, id: RequestId)
    requires Inv(s) && Enabled(s, e) && id in s.requests
    ensures id in Step(s, e).requests
    ensures var was, now := s.requests[id], Step(s, e).requests[id];
      && (was.phase != now.phase && now.phase == Interstitial <==>
            e == Resume(id, false) && was.phase.outcome != Some(IsReady) && was.navigation)
      && (was.phase != now.phase && now.phase == Warming <==>
            e == Resume(id, false) && was.phase.outcome != Some(IsReady) && !was.navigation)
  {
    hide Coalesced, Held, AfterEnsureWake, AfterWake;
    RequestStep(s, e, id);
  }

  // It fails if and only if the replica count, the call to sleep, the answer to come back or the proxy does.
  lemma FailsExactly(s: State, e: Event, id: RequestId)
    requires Inv(s) && Enabled(s, e) && id in s.requests
    ensures id in Step(s, e).requests
    ensures var was, now := s.requests[id], Step(s, e).requests[id];
      was.phase != now.phase && now.phase == GatewayError <==>
        || (e.Replicas? && e.id == id && (e.count.None? || (e.count.value == 0 && e.sleepThrows)))
        || (e == Resume(id, true) && was.phase.outcome != Some(IsReady))
        || e == ProxyEnds(id, false)
  {
    hide Coalesced, Held, AfterEnsureWake, AfterWake;
    RequestStep(s, e, id);
  }

  // Wakes that begin or end leave the other fields of every request alone, and the requests of other events.
  lemma RequestStep(s: State, e: Event, id: RequestId)
    requires Inv(s) && Enabled(s, e) && id in s.requests
    ensures e.Arrive? || e.Patched? || e.Waited? || e.Poll? || e.id != id ==>
      && id in Step(s, e).requests
      && var was, now := s.requests[id], Step(s, e).requests[id];
         now == was || (was.phase.Holding? && now.phase.Holding? && now == was.(phase := now.phase))
  {
    hide Coalesced, Held;
  }

  // How the race of a request ends: with the grace timer, or with the end of the wake it waits for.
  lemma OutcomeExactly(s: State, e: Event, id: RequestId)
    requires Inv(s) && Enabled(s, e) && id in s.requests && s.requests[id].phase.Holding?
      && s.requests[id].phase.outcome.None?
    ensures id in Step(s, e).requests
    ensures var w, now := s.requests[id].phase.wake, Step(s, e).requests[id].phase;
      && now.Holding? && now.wake == w
      && (now.outcome == Some(Grace) <==> e == GraceOver(id))
      && (now.outcome == Some(IsReady) <==> e.Waited? && e.wake == w && e.ready == Some(true))
      && (now.outcome == Some(Failed) <==>
            (e == Patched(w, false)) || (e.Waited? && e.wake == w && e.ready != Some(true)))
  {
    hide Inv;
  }

  // A race that is decided stays decided, until the request goes on.
  lemma OutcomeStands(s: State, e: Event, id: RequestId)
    requires Inv(s) && Enabled(s, e) && id in s.requests && s.requests[id].phase.Holding?
      && s.requests[id].phase.outcome.Some?
    ensures id in Step(s, e).requests
    ensures Step(s, e).requests[id] == s.requests[id] || exists writeThrows :: e == Resume(id, writeThrows)
  {
    hide Coalesced, Held;
    if e.Resume? && e.id == id {
      assert e == Resume(id, e.writeThrows);
    }
  }

  // A request races exactly against the wake of its namespace, once the tenant turns out to have no replica.
  lemma RaceExactly(s: State, e: Event, id: RequestId)
    requires Inv(s) && Enabled(s, e) && id in s.requests
    ensures var t := Step(s, e);
      var was, now := s.requests[id], t.requests[id];
      && (!was.phase.Holding? && now.phase.Holding? <==> e == Replicas(id, Some(0), false))
      && (!was.phase.Holding? && now.phase.Holding? ==>
            && was.namespace in t.wakeInProgress
            && now.phase == Holding(t.wakeInProgress[was.namespace], None))
  {
    hide Coalesced, Held, AfterWake;
    RequestStep(s, e, id);
  }

  // When a wake begins, and when it ends.
  lemma WakesExactly(s: State, e: Event, namespace: string)
    requires Inv(s) && Enabled(s, e)
    ensures var t := Step(s, e);
      && (namespace !in s.wakeInProgress && namespace in t.wakeInProgress <==>
            && namespace !in s.wakeInProgress
            && ((e.Replicas? && e.count == Some(0) && s.requests[e.id].namespace == namespace)
                || e == Poll(namespace, 0)))
      && (namespace in s.wakeInProgress && namespace !in t.wakeInProgress <==>
            && namespace in s.wakeInProgress
            && var w := s.wakeInProgress[namespace]; (e == Patched(w, false) || (e.Waited? && e.wake == w)))
      && (namespace in s.wakeInProgress && namespace in t.wakeInProgress ==>
            t.wakeInProgress[namespace] == s.wakeInProgress[namespace])
      && (namespace !in s.wakeInProgress && namespace in t.wakeInProgress ==>
            t.wakes[t.wakeInProgress[namespace]] == Wake(namespace, false))
  {
    hide Held, Settled, Consistent;
    if e.Patched? {
      assert s.wakeInProgress[s.wakes[e.wake].namespace] == e.wake;
    }
    if e.Waited? {
      assert s.wakeInProgress[s.wakes[e.wake].namespace] == e.wake;
    }
  }

  // A wake patches the deployment once, and waits only after that.
  lemma PatchedExactly(s: State, e: Event, w: WakeId)
    requires Inv(s) && Enabled(s, e) && w in s.wakes && w in Step(s, e).wakes
    ensures Step(s, e).wakes[w].patched <==> s.wakes[w].patched || e == Patched(w, true)
    ensures e.Patched? ==> e.wake in s.wakes && !s.wakes[e.wake].patched
    ensures e.Waited? ==> e.wake in s.wakes && s.wakes[e.wake].patched
  {
    hide Held, Settled, Consistent;
  }

  predicate Final(p: Phase) {
    p.Proxied? || p.Interstitial? || p.Warming? || p.GatewayError?
  }

  // An answer is final, and a request once proxied stays so: no step takes either back.
  lemma AnswersStand(s: State, e: Event, id: RequestId)
    requires Inv(s) && Enabled(s, e) && id in s.requests
    ensures id in Step(s, e).requests
    ensures Final(s.requests[id].phase) ==> Step(s, e).requests[id] == s.requests[id]
    ensures s.requests[id].reached ==> Step(s, e).requests[id].reached
  {
  }

  // ------------------------------------------------------------------------------------------
  // The handler itself: its map, its gauge, and the turns of its functions.

  class RequestHandler {
    var wakeInProgress: map<string, WakeId>
    var wakes: map<WakeId, Wake>
    var nextWake: WakeId
    var heldConnections: int
    var requests: map<RequestId, Request>

    function Now(): State reads this {
      State(wakeInProgress, wakes, nextWake, heldConnections, requests)
    }

    constructor ()
      ensures Now() == IDLE
    {
      wakeInProgress, wakes, nextWake, heldConnections, requests := map[], map[], 0, 0, map[];
    }

    method EnsureWake(namespace: string) returns (wake: WakeId)
      modifies this`wakeInProgress, this`wakes, this`nextWake
      ensures Now() == AfterEnsureWake(old(Now()), namespace)
      ensures namespace in wakeInProgress && wakeInProgress[namespace] == wake
    {
      if namespace in wakeInProgress {
        return wakeInProgress[namespace];
      }
      wake := nextWake;
      wakes, nextWake := wakes[wake := Wake(namespace, false)], nextWake + 1;
      wakeInProgress := wakeInProgress[namespace := wake];
    }

    // The end of a wake: its entry goes, then its outcome reaches those that race against it.
    method EndWake(wake: WakeId, outcome: Outcome)
      requires wake in wakes
      modifies this`wakeInProgress, this`wakes, this`requests
      ensures Now() == AfterWake(old(Now()), wake, outcome)
    {
      wakeInProgress := wakeInProgress - {wakes[wake].namespace};
      wakes := wakes - {wake};
      requests := map id | id in requests :: Settled(requests[id], wake, outcome);
    }

    method PatchAnswered(wake: WakeId, ok: bool)
      requires Enabled(Now(), Patched(wake, ok))
      modifies this
      ensures Now() == Step(old(Now()), Patched(wake, ok))
    {
      if !ok {
        EndWake(wake, Failed);
      } else {
        wakes := wakes[wake := wakes[wake].(patched := true)];
      }
    }

    method WaitAnswered(wake: WakeId, ready: Option<bool>)
      requires Enabled(Now(), Waited(wake, ready))
      modifies this
      ensures Now() == Step(old(Now()), Waited(wake, ready))
    {
      EndWake(wake, if ready == Some(true) then IsReady else Failed);
    }

    // handleRequest from the answer to getReplicas to its next await, or to its end.
    method ReplicasAnswered(id: RequestId, count: Option<nat>, sleepThrows: bool)
      requires Enabled(Now(), Replicas(id, count, sleepThrows))
      modifies this
      ensures Now() == Step(old(Now()), Replicas(id, count, sleepThrows))
    {
      var request, heldConnection := requests[id], false;
      if count.None? {
        Fail(id, request, heldConnection);
        return;
      }
      if count.value >= 1 {
        requests := requests[id := request.(reached := true, phase := Proxying)];
        return;
      }
      heldConnections := heldConnections + 1;
      heldConnection := true;
      var wake := EnsureWake(request.namespace);
      if sleepThrows {
        Fail(id, request, heldConnection);
        return;
      }
      requests := requests[id := request.(held := heldConnection, phase := Holding(wake, None))];
    }

    // The catch block.
    method Fail(id: RequestId, request: Request, heldConnection: bool)
      modifies this`heldConnections, this`requests
      ensures heldConnections == old(heldConnections) - (if heldConnection then 1 else 0)
      ensures requests == old(requests)[id := request.(held := false, phase := GatewayError)]
    {
      if heldConnection {
        heldConnections := heldConnections - 1;
      }
      requests := requests[id := request.(held := false, phase := GatewayError)];
    }

    // handleRequest from the end of the race on.
    method RaceEnded(id: RequestId, writeThrows: bool)
      requires Enabled(Now(), Resume(id, writeThrows))
      modifies this
      ensures Now() == Step(old(Now()), Resume(id, writeThrows))
    {
      var request := requests[id];
      var outcome := request.phase.outcome.value;
      heldConnections := heldConnections - 1;
      var heldConnection := false;
      request := request.(held := heldConnection);
      if outcome.IsReady? {
        requests := requests[id := request.(reached := true, phase := Proxying)];
        return;
      }
      if writeThrows {
        Fail(id, request, heldConnection);
        return;
      }
      requests := requests[id := request.(phase := if request.navigation then Interstitial else Warming)];
    }

    // The wake-status poll, once the ready addresses are counted.
    method PollAnswered(namespace: string, addresses: nat) returns (ready: bool)
      modifies this
      ensures ready == (addresses > 0)
      ensures Now() == Step(old(Now()), Poll(namespace, addresses))
    {
      ready := addresses > 0;
      if !ready {
        var _ := EnsureWake(namespace);
      }
    }
  }
}
