/** The calls of `handle` (`packages/server/src/server.ts`) that are under way, with the local variables each keeps
    across its awaits, and the shared counter and gate they update: the imperative side of the request state machine. */
module RequestHandling {
  import opened JsMaps
  import opened Concurrency

  /** `releaseSlot` and `handlerRunning` of one call, and whether its `finally` block is behind it. */
  datatype Locals = Locals(key: Key, releaseSlot: Slot?, handlerRunning: bool, finished: bool)

  ghost function PhaseOf(c: Locals): Phase
    reads c.releaseSlot
  {
    if !c.finished then (if c.releaseSlot == null then Counted else if c.handlerRunning then Running else Preparing)
    else if c.releaseSlot != null && !c.releaseSlot.released then Answered
    else Done
  }

  class RequestServer {
    var inFlight: int
    var calls: map<nat, Locals>
    const gate: ConcurrencyGate
    const maxInFlight: nat

    ghost var requests: map<nat, Request>
    ghost var owner: map<Slot, nat>

    /** The call's request is where its variables say; its slot is its own, and not given back before the call is
        finished. */
    ghost predicate CallOk(id: nat)
      requires id in calls
      reads this, gate, gate.issued
    {
      var c := calls[id];
      && (c.releaseSlot == null ==> !c.handlerRunning)
      && (c.releaseSlot != null ==>
            && c.releaseSlot in gate.issued && c.releaseSlot in owner && owner[c.releaseSlot] == id
            && c.releaseSlot.key == c.key && (!c.finished ==> !c.releaseSlot.released))
      && id in requests && requests[id] == Request(c.key, PhaseOf(c))
    }

    ghost predicate Valid()
      reads this, gate, gate.issued
    {
      && gate.Valid()
      && requests.Keys == calls.Keys
      && (forall id :: id in calls ==> CallOk(id))
    }

    /** In the middle of a step, one call may be between two phases. */
    ghost predicate ValidBut(id: nat)
      reads this, gate, gate.issued
    {
      && gate.Valid()
      && requests.Keys == calls.Keys
      && (forall other :: other in calls && other != id ==> CallOk(other))
    }

    ghost function State(): Server
      reads this, gate
    {
      Server(gate.State(), inFlight, requests)
    }

    constructor (limits: Limits, maxInFlight: nat)
      ensures Valid() && State() == START && gate.limits == limits && this.maxInFlight == maxInFlight
    {
      gate := new ConcurrencyGate(limits);
      this.maxInFlight := maxInFlight;
      inFlight := 0;
      calls := map[];
      requests := map[];
      owner := map[];
    }

    /** A request under `/v1`: counted, and refused on the spot when there are too many. */
    method Arrive(id: nat, key: Key) returns (overloaded: bool)
      requires Valid() && id !in calls
      modifies this
      ensures Valid() && overloaded == (old(inFlight) >= maxInFlight)
      ensures State() == Step(gate.limits, maxInFlight, old(State()), Arrives(id, key))
    {
      inFlight := inFlight + 1;
      overloaded := inFlight > maxInFlight;
      if overloaded {
        inFlight := inFlight - 1;
      } else {
        calls := calls[id := Locals(key, null, false, false)];
        requests := requests[id := Request(key, Counted)];
      }
    }

    /** `releaseSlot()`: the slot is the call's own, so that no other call notices. */
    method GiveBack(id: nat, slot: Slot)
      requires Valid() && id in calls && slot == calls[id].releaseSlot
      modifies gate, slot
      ensures ValidBut(id) && slot.released && gate.issued == old(gate.issued)
      ensures gate.State() == if old(slot.released) then old(gate.State()) else ReleaseStep(old(gate.State()), slot.key)
    {
      assert forall other :: other in calls && other != id ==> calls[other].releaseSlot != slot;
      gate.Release(slot);
    }

    /** The `finally` block: the call is no longer counted, and gives its slot back unless its handler still has it. */
    method Finish(id: nat)
      requires Valid() && id in calls && !calls[id].finished
      modifies this, gate, calls[id].releaseSlot
      ensures Valid() && gate.issued == old(gate.issued) && inFlight == old(inFlight) - 1
      ensures gate.State() == if old(calls[id].releaseSlot) != null && !old(calls[id].handlerRunning)
                              then ReleaseStep(old(gate.State()), old(calls[id].key)) else old(gate.State())
      ensures requests == old(requests)[id := Request(old(calls[id].key),
        if old(calls[id].handlerRunning) then Answered else Done)]
    {
      inFlight := inFlight - 1;
      var release := calls[id].releaseSlot;
      if release != null && !calls[id].handlerRunning {
        GiveBack(id, release);
      }
      calls := calls[id := calls[id].(finished := true)];
      requests := requests[id := Request(calls[id].key, PhaseOf(calls[id]))];
    }

    /** The gate is asked for a slot, which the call keeps when it gets one. */
    method TakeSlot(id: nat) returns (verdict: Verdict)
      requires Valid() && id in calls && PhaseOf(calls[id]) == Counted
      modifies this, gate
      ensures Valid() && fresh(gate.issued - old(gate.issued)) && inFlight == old(inFlight)
      ensures verdict == VerdictFor(gate.limits, old(gate.State()), old(calls[id].key))
      ensures gate.State() == AcquireStep(gate.limits, old(gate.State()), old(calls[id].key))
      ensures if verdict.Acquired? then requests == old(requests)[id := Request(old(calls[id].key), Preparing)]
              else requests == old(requests) && calls == old(calls)
    {
      var slot;
      verdict, slot := gate.Acquire(calls[id].key);
      assert forall other :: other in calls ==> CallOk(other);
      if slot != null {
        Keep(id, slot);
      }
    }

    /** `releaseSlot = slot.release` */
    method Keep(id: nat, slot: Slot)
      requires Valid() && id in calls && PhaseOf(calls[id]) == Counted
      requires slot in gate.issued && slot !in owner && slot.key == calls[id].key && !slot.released
      modifies `calls, `requests, `owner
      ensures Valid() && requests == old(requests)[id := Request(old(calls[id].key), Preparing)]
    {
      calls := calls[id := calls[id].(releaseSlot := slot)];
      requests := requests[id := Request(calls[id].key, Preparing)];
      owner := owner[slot := id];
    }

    /** The caller is known and within its rate: the gate gives it a slot, or the call is over. */
    method AskSlot(id: nat) returns (verdict: Verdict)
      requires Valid() && id in calls && PhaseOf(calls[id]) == Counted
      modifies this, gate
      ensures Valid() && fresh(gate.issued - old(gate.issued))
      ensures verdict == VerdictFor(gate.limits, old(gate.State()), old(calls[id].key))
      ensures State() == Step(gate.limits, maxInFlight, old(State()), AsksSlot(id))
    {
      verdict := TakeSlot(id);
      if !verdict.Acquired? {
        Finish(id);
      }
    }

    /** Refused before it asked for a slot: the caller is unknown, throttled or over its rate. */
    method Refuse(id: nat)
      requires Valid() && id in calls && PhaseOf(calls[id]) == Counted
      modifies this, gate
      ensures Valid() && gate.issued == old(gate.issued)
      ensures State() == Step(gate.limits, maxInFlight, old(State()), Refused(id))
    {
      Finish(id);
    }

    /** Refused with a slot: no route, no right to it, or input that is not acceptable. */
    method Reject(id: nat)
      requires Valid() && id in calls && PhaseOf(calls[id]) == Preparing
      modifies this, gate, calls[id].releaseSlot
      ensures Valid() && gate.issued == old(gate.issued)
      ensures State() == Step(gate.limits, maxInFlight, old(State()), NotAcceptable(id))
    {
      Finish(id);
    }

    method StartHandler(id: nat)
      requires Valid() && id in calls && PhaseOf(calls[id]) == Preparing
      modifies this
      ensures Valid() && State() == Step(gate.limits, maxInFlight, old(State()), HandlerStarts(id))
    {
      calls := calls[id := calls[id].(handlerRunning := true)];
      requests := requests[id := Request(calls[id].key, Running)];
    }

    /** The handler answered, failed or missed its deadline. */
    method SendAnswer(id: nat)
      requires Valid() && id in calls && PhaseOf(calls[id]) == Running
      modifies this, gate, calls[id].releaseSlot
      ensures Valid() && gate.issued == old(gate.issued)
      ensures State() == Step(gate.limits, maxInFlight, old(State()), AnswerSent(id))
    {
      Finish(id);
    }

    /** The handler's promise settles after the answer: the only other place where a slot goes back. */
    method HandlerSettles(id: nat)
      requires Valid() && id in calls && PhaseOf(calls[id]) == Answered
      modifies `requests, gate, calls[id].releaseSlot
      ensures Valid() && gate.issued == old(gate.issued) && calls[id].releaseSlot.released
      ensures State() == Step(gate.limits, maxInFlight, old(State()), HandlerEnds(id))
    {
      GiveBack(id, calls[id].releaseSlot);
      requests := requests[id := Request(calls[id].key, Done)];
    }
  }
}
