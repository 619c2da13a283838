/** The limiter, the gate and the handlers of `packages/server/src/server.ts` together: the take, the slot and the start
    of a handler are separate steps, because `handle` awaits between them, and what that means for the rate of
    handlers. */
module HandlerStarts {
  import opened Arithmetic
  import opened JsMaps
  import opened Sequences
  import opened Wrappers
  import RateLimiting
  import RateLimitingRuns
  import C = Concurrency

  /** Requests as `Concurrency` has them, the local limiter, and the requests it admitted that have not asked for a
      slot. */
  datatype System = System(server: C.Server, buckets: JsMap<RateLimiting.Bucket>, cleared: set<nat>)

  datatype Limits = Limits(gate: C.Limits, maxInFlight: nat, rate: RateLimiting.Config)

  datatype Event =
    | Takes(id: nat, at: real)
    | Moves(e: C.Event, at: real)

  function TakeOf(l: Limits, s: System, id: nat, at: real): (JsMap<RateLimiting.Bucket>, RateLimiting.Decision)
    requires id in s.server.requests
  {
    RateLimiting.TakeStep(l.rate, s.buckets, s.server.requests[id].key, at)
  }

  /** The request waits for the limiter: it is counted and has not been admitted yet. */
  predicate MayTake(s: System, id: nat) {
    C.InPhase(s.server, id, C.Counted) && id !in s.cleared
  }

  function Moved(l: Limits, s: System, e: C.Event): C.Server {
    C.Step(l.gate, l.maxInFlight, s.server, e)
  }

  /** One step between two awaits; an event that cannot happen changes nothing. */
  function Step(l: Limits, s: System, e: Event): System {
    match e
    case Takes(id, at) =>
      if !MayTake(s, id) then s
      else
        var (buckets, d) := TakeOf(l, s, id, at);
        if d.allowed then System(s.server, buckets, s.cleared + {id})
        else System(Moved(l, s, C.Refused(id)), buckets, s.cleared)
    case Moves(e, _) =>
      if e.AsksSlot? then (if e.id in s.cleared then System(Moved(l, s, e), s.buckets, s.cleared - {e.id}) else s)
      else if e.Refused? && e.id in s.cleared then s
      else s.(server := Moved(l, s, e))
  }

  function Run(l: Limits, s: System, events: seq<Event>): System
    decreases |events|
  {
    if events == [] then s else Run(l, Step(l, s, events[0]), events[1..])
  }

  /** This event starts a handler for `key`. */
  predicate StartsHandler(s: System, e: Event, key: Key) {
    e.Moves? && e.e.HandlerStarts? && C.InPhase(s.server, e.e.id, C.Preparing) && s.server.requests[e.e.id].key == key
  }

  /** Handlers that start for `key` during the events. */
  function Starts(l: Limits, s: System, events: seq<Event>, key: Key): nat
    decreases |events|
  {
    if events == [] then 0
    else (if StartsHandler(s, events[0], key) then 1 else 0) + Starts(l, Step(l, s, events[0]), events[1..], key)
  }

  /** The takes of the limiter during the events. */
  function Calls(l: Limits, s: System, events: seq<Event>): seq<RateLimiting.Call>
    decreases |events|
  {
    if events == [] then []
    else
      var e := events[0];
      (if e.Takes? && MayTake(s, e.id) then [RateLimiting.Call(s.server.requests[e.id].key, e.at)] else [])
      + Calls(l, Step(l, s, e), events[1..])
  }

  /** A nondecreasing clock that reads at least `from` and at most `to`. */
  ghost predicate Timely(events: seq<Event>, from: real, to: real)
    decreases |events|
  {
    if events == [] then from <= to else from <= events[0].at && Timely(events[1..], events[0].at, to)
  }

  // ----- the requests between their take and their start

  /** Admitted by the limiter, with no slot asked for. */
  predicate AwaitsSlot(s: System, id: nat, key: Key) {
    id in s.cleared && C.InPhase(s.server, id, C.Counted) && s.server.requests[id].key == key
  }

  /** In possession of a slot, with a token checked or a body read. */
  predicate Prepares(s: System, id: nat, key: Key) {
    C.InPhase(s.server, id, C.Preparing) && s.server.requests[id].key == key
  }

  ghost function SlotAwaiters(s: System, key: Key): set<nat> {
    set id | id in s.server.requests && AwaitsSlot(s, id, key)
  }

  ghost function Preparers(s: System, key: Key): set<nat> {
    set id | id in s.server.requests && Prepares(s, id, key)
  }

  predicate Waits(s: System, id: nat, key: Key) {
    AwaitsSlot(s, id, key) || Prepares(s, id, key)
  }

  ghost function Waiters(s: System, key: Key): set<nat> {
    set id | id in s.server.requests && Waits(s, id, key)
  }

  /** Only counted requests are admitted and without a slot. */
  ghost predicate Clean(s: System) {
    forall id :: id in s.cleared ==> C.InPhase(s.server, id, C.Counted)
  }

  function IdOf(e: Event): nat {
    match e
    case Takes(id, _) => id
    case Moves(e, _) => e.id
  }

  function Admits(l: Limits, s: System, e: Event, key: Key): nat {
    if e.Takes? && MayTake(s, e.id) && s.server.requests[e.id].key == key && TakeOf(l, s, e.id, e.at).1.allowed
    then 1 else 0
  }

  /** One event moves its own request alone. */
  lemma OthersStay(l: Limits, s: System, e: Event, id: nat, key: Key)
    requires id != IdOf(e)
    ensures id in Step(l, s, e).server.requests <==> id in s.server.requests
    ensures Waits(Step(l, s, e), id, key) <==> Waits(s, id, key)
  {
  }

  lemma StepClean(l: Limits, s: System, e: Event)
    requires Clean(s)
    ensures Clean(Step(l, s, e))
  {
  }

  /** What one event does to its own request: a start ends its waiting, an admission alone begins it. */
  lemma OwnStep(l: Limits, s: System, e: Event, key: Key)
    requires Clean(s)
    ensures StartsHandler(s, e, key) ==> Waits(s, IdOf(e), key) && !Waits(Step(l, s, e), IdOf(e), key)
    ensures Waits(Step(l, s, e), IdOf(e), key) && !Waits(s, IdOf(e), key) ==> Admits(l, s, e, key) == 1
    ensures Waits(Step(l, s, e), IdOf(e), key) ==> IdOf(e) in Step(l, s, e).server.requests
  {
  }

  lemma WaitersMove(l: Limits, s: System, e: Event, key: Key)
    ensures var (id, s') := (IdOf(e), Step(l, s, e));
      && (Waits(s, id, key) <==> id in Waiters(s, key))
      && Waiters(s', key) == if Waits(s', id, key) then Waiters(s, key) + {id} else Waiters(s, key) - {id}
  {
    var id, s' := IdOf(e), Step(l, s, e);
    forall other | other != id ensures other in Waiters(s', key) <==> other in Waiters(s, key) {
      OthersStay(l, s, e, other, key);
    }
  }

  lemma StepWaiters(l: Limits, s: System, e: Event, key: Key)
    requires Clean(s)
    ensures (if StartsHandler(s, e, key) then 1 else 0) + |Waiters(Step(l, s, e), key)|
         <= |Waiters(s, key)| + Admits(l, s, e, key)
  {
    var id, s' := IdOf(e), Step(l, s, e);
    OwnStep(l, s, e, key);
    WaitersMove(l, s, e, key);
    C.SetChange(Waiters(s, key), Waiters(s', key), id, Waits(s, id, key), Waits(s', id, key));
  }

  // ----- runs

  lemma AdmittedOfStep(l: Limits, s: System, e: Event, rest: seq<RateLimiting.Call>, key: Key)
    ensures var own := if e.Takes? && MayTake(s, e.id)
                       then [RateLimiting.Call(s.server.requests[e.id].key, e.at)] else [];
      |RateLimiting.AdmittedTimes(l.rate, s.buckets, own + rest, key)|
      == Admits(l, s, e, key) + |RateLimiting.AdmittedTimes(l.rate, Step(l, s, e).buckets, rest, key)|
  {
    if e.Takes? && MayTake(s, e.id) {
      Tail(RateLimiting.Call(s.server.requests[e.id].key, e.at), rest);
    } else {
      Neutral(rest);
    }
  }

  /** Every handler that starts was waiting when the events began, or was admitted during them. */
  lemma {:induction false} StartsWereAdmitted(l: Limits, s: System, events: seq<Event>, key: Key)
    requires Clean(s)
    ensures Clean(Run(l, s, events))
    ensures Starts(l, s, events, key) + |Waiters(Run(l, s, events), key)|
         <= |Waiters(s, key)| + |RateLimiting.AdmittedTimes(l.rate, s.buckets, Calls(l, s, events), key)|
    decreases |events|
  {
    if events != [] {
      var s' := Step(l, s, events[0]);
      StepClean(l, s, events[0]);
      StepWaiters(l, s, events[0], key);
      StartsWereAdmitted(l, s', events[1..], key);
      AdmittedOfStep(l, s, events[0], Calls(l, s', events[1..]), key);
    }
  }

  lemma {:induction false} CallsWithin(l: Limits, s: System, events: seq<Event>, from: real, to: real)
    requires Timely(events, from, to)
    ensures from <= to && RateLimiting.Within(Calls(l, s, events), from, to)
    decreases |events|
  {
    if events != [] {
      var e := events[0];
      var rest := Calls(l, Step(l, s, e), events[1..]);
      CallsWithin(l, Step(l, s, e), events[1..], e.at, to);
      if e.Takes? && MayTake(s, e.id) {
        Tail(RateLimiting.Call(s.server.requests[e.id].key, e.at), rest);
      } else {
        Neutral(rest);
      }
    }
  }

  /** In any window in which fewer than `maxEntries` other keys ask, the handlers that start for a key are at most a
      burst, what the window earns, and the requests of the key that were between their take and their start when it
      opened. */
  lemma StartsPerWindow(l: Limits, s: System, events: seq<Event>, key: Key, from: real, to: real)
    requires Clean(s) && RateLimiting.Sound(l.rate, s.buckets, from) && Timely(events, from, to)
    requires |RateLimitingRuns.Others(Calls(l, s, events), key)| < l.rate.maxEntries
    ensures Starts(l, s, events, key) as real
         <= l.rate.burst as real + RateLimiting.Earned(l.rate, to - from) + |Waiters(s, key)| as real
  {
    StartsWereAdmitted(l, s, events, key);
    CallsWithin(l, s, events, from, to);
    RateLimitingRuns.WindowBound(l.rate, s.buckets, Calls(l, s, events), key, from, to);
  }

  const START := System(C.START, Empty(), {})

  lemma {:induction false} ServerStaysOk(l: Limits, s: System, events: seq<Event>)
    requires C.ServerOk(l.gate, l.maxInFlight, s.server)
    ensures C.ServerOk(l.gate, l.maxInFlight, Run(l, s, events).server)
    decreases |events|
  {
    if events != [] {
      ServerStepOk(l, s, events[0]);
      ServerStaysOk(l, Step(l, s, events[0]), events[1..]);
    }
  }

  lemma ServerStepOk(l: Limits, s: System, e: Event)
    requires C.ServerOk(l.gate, l.maxInFlight, s.server)
    ensures C.ServerOk(l.gate, l.maxInFlight, Step(l, s, e).server)
  {
    C.StepOk(l.gate, l.maxInFlight, s.server, match e case Takes(id, _) => C.Refused(id) case Moves(e, _) => e);
  }

  lemma {:induction false} BucketsStaySound(l: Limits, s: System, events: seq<Event>, from: real, to: real)
    requires RateLimiting.Sound(l.rate, s.buckets, from) && Timely(events, from, to)
    ensures from <= to && RateLimiting.Sound(l.rate, Run(l, s, events).buckets, to)
    decreases |events|
  {
    if events != [] {
      var e := events[0];
      if e.Takes? && MayTake(s, e.id) {
        RateLimiting.TakeIsSound(l.rate, s.buckets, s.server.requests[e.id].key, e.at);
      }
      BucketsStaySound(l, Step(l, s, e), events[1..], e.at, to);
    }
  }

  /** As many requests of one key can be between their slot and their start. */
  function Slots(l: Limits): nat {
    var own := MinInt(l.gate.perKey, l.maxInFlight);
    if l.gate.global.Some? then MinInt(own, l.gate.global.value) else own
  }

  lemma PreparersAreBounded(l: Limits, s: System, key: Key)
    requires C.ServerOk(l.gate, l.maxInFlight, s.server)
    ensures |Preparers(s, key)| <= Slots(l)
  {
    var holders := C.HoldersOf(s.server.requests, key);
    assert C.CountOf(s.server.gate, key) == |holders|;
    RateLimitingRuns.SubsetSize(Preparers(s, key), holders);
    RateLimitingRuns.SubsetSize(holders, C.Holders(s.server.requests));
    RateLimitingRuns.SubsetSize(Preparers(s, key), C.CountedOnes(s.server.requests));
  }

  /** The gate and the counter bound the waiting requests that have a slot, and the counter all of them. */
  lemma WaitersAreBounded(l: Limits, s: System, key: Key)
    requires C.ServerOk(l.gate, l.maxInFlight, s.server)
    ensures |Waiters(s, key)| <= |SlotAwaiters(s, key)| + Slots(l)
    ensures |Waiters(s, key)| <= l.maxInFlight
  {
    PreparersAreBounded(l, s, key);
    assert Waiters(s, key) == SlotAwaiters(s, key) + Preparers(s, key);
    RateLimitingRuns.SubsetSize(Waiters(s, key), C.CountedOnes(s.server.requests));
  }

  /** In every run of the server: in a window that opens after `before`, the handlers that start for a key are at most a
      burst, what the window earns, and one for each slot the key can have, besides the requests that are just then
      between limiter and gate; and never more than the requests in flight besides. */
  lemma HandlersPerWindow(l: Limits, before: seq<Event>, events: seq<Event>, key: Key, begin: real, from: real,
                          to: real)
    requires Timely(before, begin, from) && Timely(events, from, to)
    requires |RateLimitingRuns.Others(Calls(l, Run(l, START, before), events), key)| < l.rate.maxEntries
    ensures var s := Run(l, START, before);
      var bound := l.rate.burst as real + RateLimiting.Earned(l.rate, to - from);
      && Starts(l, s, events, key) as real <= bound + (Slots(l) + |SlotAwaiters(s, key)|) as real
      && Starts(l, s, events, key) as real <= bound + l.maxInFlight as real
  {
    var s := Run(l, START, before);
    StartIsOk(l, begin);
    StartsWereAdmitted(l, START, before, key);
    BucketsStaySound(l, START, before, begin, from);
    ServerStaysOk(l, START, before);
    WaitersAreBounded(l, s, key);
    StartsPerWindow(l, s, events, key, from, to);
  }

  lemma StartIsOk(l: Limits, begin: real)
    ensures C.ServerOk(l.gate, l.maxInFlight, START.server) && Clean(START)
    ensures RateLimiting.Sound(l.rate, START.buckets, begin)
  {
    assert C.Holders(map[]) == {} && C.CountedOnes(map[]) == {};
    assert forall k :: C.HoldersOf(map[], k) == {};
  }
}
