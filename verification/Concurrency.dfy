/** The concurrency gate (`packages/server/src/limits.ts`) and the life of a request inside it
    (`packages/server/src/server.ts`): how requests, slots and handlers are counted while they interleave. */
module Concurrency {
  import opened JsMaps
  import opened Wrappers

  datatype Limits = Limits(perKey: nat, global: Option<nat>)

  datatype Gate = Gate(perKey: map<Key, int>, total: int)

  datatype Verdict = RejectedKey | RejectedGlobal | Acquired

  function CountOf(g: Gate, key: Key): int {
    if key in g.perKey then g.perKey[key] else 0
  }

  function VerdictFor(l: Limits, g: Gate, key: Key): Verdict {
    if l.global.Some? && g.total >= l.global.value then RejectedGlobal
    else if CountOf(g, key) >= l.perKey then RejectedKey
    else Acquired
  }

  function AcquireStep(l: Limits, g: Gate, key: Key): Gate {
    if VerdictFor(l, g, key).Acquired?
    then Gate(g.perKey[key := CountOf(g, key) + 1], g.total + 1)
    else g
  }

  /** What one release does: a key whose last slot goes is forgotten. */
  function ReleaseStep(g: Gate, key: Key): Gate {
    var left := (if key in g.perKey then g.perKey[key] else 1) - 1;
    Gate(if left <= 0 then g.perKey - {key} else g.perKey[key := left], g.total - 1)
  }

  /** The release function handed out by `acquire`, with the flag it closes over. */
  class Slot {
    const key: Key
    var released: bool

    constructor (key: Key)
      ensures this.key == key && !released
    {
      this.key := key;
      released := false;
    }
  }

  function SlotsOf(slots: set<Slot>, key: Key): set<Slot> {
    set s | s in slots && s.key == key
  }

  /** The counters are exactly the slots handed out and not given back. */
  ghost predicate GateOk(l: Limits, g: Gate, live: set<Slot>) {
    && g.total == |live|
    && (forall k :: CountOf(g, k) == |SlotsOf(live, k)|)
    && (forall k :: k in g.perKey ==> g.perKey[k] > 0)
    && (forall k :: CountOf(g, k) <= l.perKey)
    && (l.global.Some? ==> g.total <= l.global.value)
  }

  class ConcurrencyGate {
    var perKeyCount: map<Key, int>
    var total: int
    const limits: Limits
    ghost var issued: set<Slot>

    ghost function State(): Gate
      reads this
    {
      Gate(perKeyCount, total)
    }

    ghost function Live(): set<Slot>
      reads this, issued
    {
      set s | s in issued && !s.released
    }

    ghost predicate Valid()
      reads this, issued
    {
      GateOk(limits, State(), Live())
    }

    constructor (limits: Limits)
      ensures Valid() && issued == {} && this.limits == limits && State() == Gate(map[], 0)
    {
      this.limits := limits;
      perKeyCount := map[];
      total := 0;
      issued := {};
      new;
      assert Live() == {};
      assert forall k :: SlotsOf({}, k) == {};
    }

    method Acquire(key: Key) returns (verdict: Verdict, slot: Slot?)
      requires Valid()
      modifies this
      ensures Valid()
      ensures verdict == VerdictFor(limits, old(State()), key)
      ensures State() == AcquireStep(limits, old(State()), key)
      ensures verdict.Acquired? <==> slot != null
      ensures verdict.RejectedGlobal? <==> limits.global.Some? && |old(Live())| >= limits.global.value
      ensures verdict.RejectedKey? <==> !verdict.RejectedGlobal? && |SlotsOf(old(Live()), key)| >= limits.perKey
      ensures slot != null ==>
        fresh(slot) && slot.key == key && !slot.released && issued == old(issued) + {slot}
        && Live() == old(Live()) + {slot}
      ensures slot == null ==> issued == old(issued) && Live() == old(Live())
    {
      slot := null;
      if limits.global.Some? && total >= limits.global.value {
        return RejectedGlobal, null;
      }
      var current := if key in perKeyCount then perKeyCount[key] else 0;
      if current >= limits.perKey {
        return RejectedKey, null;
      }
      ghost var before := Live();
      perKeyCount := perKeyCount[key := current + 1];
      total := total + 1;
      slot := new Slot(key);
      issued := issued + {slot};
      verdict := Acquired;
      assert Live() == before + {slot};
      AcquiredOk(limits, old(State()), before, slot);
    }

    /** Calling the release of a slot again does nothing: the flag in its closure is set. */
    method Release(slot: Slot)
      requires Valid() && slot in issued
      modifies this, slot
      ensures Valid() && slot.released && issued == old(issued)
      ensures Live() == old(Live()) - {slot}
      ensures State() == if old(slot.released) then old(State()) else ReleaseStep(old(State()), slot.key)
    {
      if slot.released {
        return;
      }
      ghost var before := Live();
      slot.released := true;
      total := total - 1;
      var left := (if slot.key in perKeyCount then perKeyCount[slot.key] else 1) - 1;
      if left <= 0 {
        perKeyCount := perKeyCount - {slot.key};
      } else {
        perKeyCount := perKeyCount[slot.key := left];
      }
      assert Live() == before - {slot};
      ReleasedOk(limits, old(State()), before, slot);
    }
  }

  lemma SlotAdded(slots: set<Slot>, slot: Slot)
    requires slot !in slots
    ensures |slots + {slot}| == |slots| + 1
    ensures forall k :: |SlotsOf(slots + {slot}, k)| == |SlotsOf(slots, k)| + (if k == slot.key then 1 else 0)
  {
    forall k ensures |SlotsOf(slots + {slot}, k)| == |SlotsOf(slots, k)| + (if k == slot.key then 1 else 0) {
      assert SlotsOf(slots + {slot}, k) == SlotsOf(slots, k) + (if k == slot.key then {slot} else {});
    }
  }

  lemma SlotRemoved(slots: set<Slot>, slot: Slot)
    requires slot in slots
    ensures |slots - {slot}| == |slots| - 1
    ensures forall k :: |SlotsOf(slots - {slot}, k)| == |SlotsOf(slots, k)| - (if k == slot.key then 1 else 0)
    ensures |SlotsOf(slots, slot.key)| >= 1
  {
    SlotAdded(slots - {slot}, slot);
    assert slots - {slot} + {slot} == slots;
  }

  lemma AcquiredOk(l: Limits, g: Gate, live: set<Slot>, slot: Slot)
    requires GateOk(l, g, live) && slot !in live && VerdictFor(l, g, slot.key).Acquired?
    ensures GateOk(l, AcquireStep(l, g, slot.key), live + {slot})
  {
    SlotAdded(live, slot);
  }

  lemma ReleasedOk(l: Limits, g: Gate, live: set<Slot>, slot: Slot)
    requires GateOk(l, g, live) && slot in live
    ensures GateOk(l, ReleaseStep(g, slot.key), live - {slot})
  {
    SlotRemoved(live, slot);
  }

  // ----- requests

  /** Where a request stands between the awaits of `handle`. */
  datatype Phase =
    | Counted     // counted in `inFlight`, asking who it is and how much it may ask
    | Preparing   // holds a slot, its input is being read and checked
    | Running     // its handler works and the caller waits
    | Answered    // the caller has an answer (a timeout, say) while the handler may still work
    | Done

  datatype Request = Request(key: Key, phase: Phase)

  datatype Server = Server(gate: Gate, inFlight: int, requests: map<nat, Request>)

  datatype Event =
    | Arrives(id: nat, key: Key)
    | Refused(id: nat)
    | AsksSlot(id: nat)
    | NotAcceptable(id: nat)
    | HandlerStarts(id: nat)
    | AnswerSent(id: nat)
    | HandlerEnds(id: nat)

  predicate InPhase(s: Server, id: nat, phase: Phase) {
    id in s.requests && s.requests[id].phase == phase
  }

  function Move(s: Server, id: nat, phase: Phase): map<nat, Request>
    requires id in s.requests
  {
    s.requests[id := s.requests[id].(phase := phase)]
  }

  /** One step of `handle` for one request; an event that cannot happen changes nothing. */
  function Step(l: Limits, maxInFlight: nat, s: Server, e: Event): Server {
    match e
    case Arrives(id, key) =>
      // Above the limit the request is answered, and uncounted again, before anything is awaited.
      if id in s.requests || s.inFlight + 1 > maxInFlight then s
      else s.(inFlight := s.inFlight + 1, requests := s.requests[id := Request(key, Counted)])
    case Refused(id) =>
      if InPhase(s, id, Counted) then s.(inFlight := s.inFlight - 1, requests := Move(s, id, Done)) else s
    case AsksSlot(id) =>
      if !InPhase(s, id, Counted) then s
      else if VerdictFor(l, s.gate, s.requests[id].key).Acquired?
      then s.(gate := AcquireStep(l, s.gate, s.requests[id].key), requests := Move(s, id, Preparing))
      else s.(inFlight := s.inFlight - 1, requests := Move(s, id, Done))
    case NotAcceptable(id) =>
      if InPhase(s, id, Preparing)
      then Server(ReleaseStep(s.gate, s.requests[id].key), s.inFlight - 1, Move(s, id, Done)) else s
    case HandlerStarts(id) =>
      if InPhase(s, id, Preparing) then s.(requests := Move(s, id, Running)) else s
    case AnswerSent(id) =>
      if InPhase(s, id, Running) then s.(inFlight := s.inFlight - 1, requests := Move(s, id, Answered)) else s
    case HandlerEnds(id) =>
      if InPhase(s, id, Answered)
      then s.(gate := ReleaseStep(s.gate, s.requests[id].key), requests := Move(s, id, Done)) else s
  }

  function Run(l: Limits, maxInFlight: nat, s: Server, events: seq<Event>): Server
    decreases |events|
  {
    if events == [] then s else Run(l, maxInFlight, Step(l, maxInFlight, s, events[0]), events[1..])
  }

  predicate HoldsSlot(r: Request) { r.phase in {Preparing, Running, Answered} }

  predicate IsCounted(r: Request) { r.phase in {Counted, Preparing, Running} }

  predicate HandlerWorks(r: Request) { r.phase in {Running, Answered} }

  ghost function Holders(requests: map<nat, Request>): set<nat> {
    set id | id in requests && HoldsSlot(requests[id])
  }

  ghost function HoldersOf(requests: map<nat, Request>, key: Key): set<nat> {
    set id | id in requests && HoldsSlot(requests[id]) && requests[id].key == key
  }

  ghost function CountedOnes(requests: map<nat, Request>): set<nat> {
    set id | id in requests && IsCounted(requests[id])
  }

  /** Handlers at work for one key, those already answered with a timeout included. */
  ghost function HandlersOf(requests: map<nat, Request>, key: Key): set<nat> {
    set id | id in requests && HandlerWorks(requests[id]) && requests[id].key == key
  }

  ghost predicate ServerOk(l: Limits, maxInFlight: nat, s: Server) {
    && s.gate.total == |Holders(s.requests)|
    && (forall k :: CountOf(s.gate, k) == |HoldersOf(s.requests, k)|)
    && (forall k :: k in s.gate.perKey ==> s.gate.perKey[k] > 0)
    && (forall k :: CountOf(s.gate, k) <= l.perKey)
    && (l.global.Some? ==> s.gate.total <= l.global.value)
    && s.inFlight == |CountedOnes(s.requests)| <= maxInFlight
  }

  // ----- what one step does to the sets that are counted

  lemma SetChange(a: set<nat>, b: set<nat>, id: nat, before: bool, after: bool)
    requires before <==> id in a
    requires b == if after then a + {id} else a - {id}
    ensures |b| == |a| + (if after then 1 else 0) - (if before then 1 else 0)
  {
    if before { assert a == (a - {id}) + {id}; }
  }

  /** Replacing one request moves only that request in or out of each set. */
  lemma MoveHolders(rs: map<nat, Request>, id: nat, r: Request)
    ensures |Holders(rs[id := r])| == |Holders(rs)|
      + (if HoldsSlot(r) then 1 else 0) - (if id in rs && HoldsSlot(rs[id]) then 1 else 0)
  {
    var rs' := rs[id := r];
    assert Holders(rs') == if HoldsSlot(r) then Holders(rs) + {id} else Holders(rs) - {id};
    SetChange(Holders(rs), Holders(rs'), id, id in rs && HoldsSlot(rs[id]), HoldsSlot(r));
  }

  lemma MoveCounted(rs: map<nat, Request>, id: nat, r: Request)
    ensures |CountedOnes(rs[id := r])| == |CountedOnes(rs)|
      + (if IsCounted(r) then 1 else 0) - (if id in rs && IsCounted(rs[id]) then 1 else 0)
  {
    var rs' := rs[id := r];
    assert CountedOnes(rs') == if IsCounted(r) then CountedOnes(rs) + {id} else CountedOnes(rs) - {id};
    SetChange(CountedOnes(rs), CountedOnes(rs'), id, id in rs && IsCounted(rs[id]), IsCounted(r));
  }

  /** How the number of slots held for `key` changes when request `id` becomes `r`. */
  function HeldChange(rs: map<nat, Request>, id: nat, r: Request, key: Key): int {
    (if r.key == key && HoldsSlot(r) then 1 else 0) - (if r.key == key && id in rs && HoldsSlot(rs[id]) then 1 else 0)
  }

  lemma MoveCountsOf(rs: map<nat, Request>, id: nat, r: Request, key: Key)
    requires id in rs ==> rs[id].key == r.key
    ensures |HoldersOf(rs[id := r], key)| == |HoldersOf(rs, key)| + HeldChange(rs, id, r, key)
  {
    var rs' := rs[id := r];
    var after := r.key == key && HoldsSlot(r);
    assert HoldersOf(rs', key) == if after then HoldersOf(rs, key) + {id} else HoldersOf(rs, key) - {id};
    SetChange(HoldersOf(rs, key), HoldersOf(rs', key), id, r.key == key && id in rs && HoldsSlot(rs[id]), after);
  }

  /** The gate after one request was replaced, when its counters followed. */
  lemma GateFollows(l: Limits, s: Server, s': Server, id: nat, r: Request)
    requires forall k :: CountOf(s.gate, k) == |HoldersOf(s.requests, k)|
    requires s'.requests == s.requests[id := r] && (id in s.requests ==> s.requests[id].key == r.key)
    requires forall k :: CountOf(s'.gate, k) == CountOf(s.gate, k) + HeldChange(s.requests, id, r, k)
    ensures forall k :: CountOf(s'.gate, k) == |HoldersOf(s'.requests, k)|
  {
    forall k ensures CountOf(s'.gate, k) == |HoldersOf(s'.requests, k)| {
      MoveCountsOf(s.requests, id, r, k);
    }
  }

  lemma StepOk(l: Limits, maxInFlight: nat, s: Server, e: Event)
    requires ServerOk(l, maxInFlight, s)
    ensures ServerOk(l, maxInFlight, Step(l, maxInFlight, s, e))
  {
    var s' := Step(l, maxInFlight, s, e);
    if s' != s {
      var r := s'.requests[e.id];
      MoveHolders(s.requests, e.id, r);
      MoveCounted(s.requests, e.id, r);
      if HoldsSlot(r) || (e.id in s.requests && HoldsSlot(s.requests[e.id])) {
        MoveCountsOf(s.requests, e.id, r, r.key);
      }
      GateFollows(l, s, s', e.id, r);
    }
  }

  lemma {:induction false} RunOk(l: Limits, maxInFlight: nat, s: Server, events: seq<Event>)
    requires ServerOk(l, maxInFlight, s)
    ensures ServerOk(l, maxInFlight, Run(l, maxInFlight, s, events))
    decreases |events|
  {
    if events != [] {
      StepOk(l, maxInFlight, s, events[0]);
      RunOk(l, maxInFlight, Step(l, maxInFlight, s, events[0]), events[1..]);
    }
  }

  const START := Server(Gate(map[], 0), 0, map[])

  /** In every reachable state: at most `maxConcurrencyPerKey` handlers work for a key, answered ones included; the gate
      counts exactly the unreleased slots, and with every request done it is empty; `inFlight` is bounded and comes back
      to 0. */
  lemma ReachableIsBounded(l: Limits, maxInFlight: nat, events: seq<Event>, key: Key)
    ensures var s := Run(l, maxInFlight, START, events);
      && |HandlersOf(s.requests, key)| <= l.perKey
      && s.gate.total == |Holders(s.requests)|
      && CountOf(s.gate, key) == |HoldersOf(s.requests, key)|
      && s.inFlight == |CountedOnes(s.requests)| <= maxInFlight
      && ((forall id :: id in s.requests ==> s.requests[id].phase == Done) ==>
            s.inFlight == 0 && s.gate == Gate(map[], 0))
  {
    assert Holders(map[]) == {} && CountedOnes(map[]) == {};
    assert forall k :: HoldersOf(map[], k) == {};
    RunOk(l, maxInFlight, START, events);
    var s := Run(l, maxInFlight, START, events);
    assert HandlersOf(s.requests, key) <= HoldersOf(s.requests, key);
    assert HoldersOf(s.requests, key)
      == HandlersOf(s.requests, key) + (HoldersOf(s.requests, key) - HandlersOf(s.requests, key));
    if forall id :: id in s.requests ==> s.requests[id].phase == Done {
      assert Holders(s.requests) == {} && CountedOnes(s.requests) == {};
      forall k ensures k !in s.gate.perKey {
        assert HoldersOf(s.requests, k) == {};
        assert CountOf(s.gate, k) == 0;
      }
      assert s.gate.perKey == map[];
    }
  }
}
