/** Every interleaving of N processes that share one store: attempts, leases in flight, clocks that drift apart, and
    leases that fail. The store has one clock, every process its own. */
module SharedLimitingRuns {
  import opened Arithmetic
  import opened JsMaps
  import opened Wrappers
  import opened RateLimiting
  import opened SharedLimiting
  import RateLimitingRuns

  datatype System = System(store: map<Key, StoreBucket>, now: real, procs: seq<Process>)

  datatype Event =
    | Elapse(ms: real)
    | ClockAdvances(i: nat, ms: real)
    | AttemptBy(i: nat, key: Key)
    | StoreGrants(i: nat, key: Key)
    | LeaseArrives(i: nat, key: Key)
    | LeaseFails(i: nat, key: Key)
    | PromiseSettles(i: nat, key: Key)

  function StoreBucketOf(s: System, key: Key): Option<StoreBucket> {
    if key in s.store then Some(s.store[key]) else None
  }

  function FlightOf(p: Process, key: Key): Option<Flight> {
    if key in p.flights then Some(p.flights[key]) else None
  }

  /** An event that cannot happen in a state changes nothing. */
  function ProcStep(c: Config, s: System, e: Event, p: Process): Process {
    match e
    case Elapse(_) => p
    case ClockAdvances(_, ms) => p.(clock := p.clock + ms)
    case AttemptBy(_, key) => Attempted(c, p, key)
    case StoreGrants(_, key) =>
      if FlightOf(p, key) == Some(Asked)
      then WithFlight(p, key, Granted(Grant(c, StoreBucketOf(s, key), LeaseSize(c), s.now))) else p
    case LeaseArrives(_, key) =>
      if FlightOf(p, key).Some? && p.flights[key].Granted? then Arrived(c, p, key, p.flights[key].tokens) else p
    case LeaseFails(_, key) =>
      if FlightOf(p, key).Some? && !p.flights[key].Settling? then WithFlight(p, key, Settling) else p
    case PromiseSettles(_, key) =>
      if FlightOf(p, key) == Some(Settling) then Settled(p, key) else p
  }

  predicate Granting(s: System, e: Event) {
    e.StoreGrants? && e.i < |s.procs| && FlightOf(s.procs[e.i], e.key) == Some(Asked)
  }

  function StoreAfter(c: Config, s: System, e: Event): map<Key, StoreBucket> {
    if Granting(s, e) then s.store[e.key := AfterGrant(c, StoreBucketOf(s, e.key), LeaseSize(c), s.now)] else s.store
  }

  function Step(c: Config, s: System, e: Event): System {
    if e.Elapse? then s.(now := s.now + e.ms)
    else if e.i >= |s.procs| then s
    else s.(store := StoreAfter(c, s, e), procs := s.procs[e.i := ProcStep(c, s, e, s.procs[e.i])])
  }

  /** Requests for `key` that this event admits out of a lease. */
  function Admits(c: Config, s: System, e: Event, key: Key): nat {
    if e.AttemptBy? && e.key == key && e.i < |s.procs|
       && AttemptOutcome(c, s.procs[e.i].held, s.procs[e.i].flights.Keys, key, s.procs[e.i].clock).Admit?
    then 1 else 0
  }

  /** Tokens of `key` that the store hands out in this event. */
  function Draws(c: Config, s: System, e: Event, key: Key): int {
    if Granting(s, e) && e.key == key then Grant(c, StoreBucketOf(s, key), LeaseSize(c), s.now) else 0
  }

  ghost predicate Timely(e: Event) {
    (e.Elapse? || e.ClockAdvances?) ==> e.ms >= 0.0
  }

  function Passes(e: Event): real {
    if e.Elapse? then e.ms else 0.0
  }

  ghost predicate StoreOk(c: Config, s: System) {
    forall k :: k in s.store ==> 0.0 <= s.store[k].tokens <= c.burst as real && s.store[k].updated <= s.now
  }

  ghost predicate SystemOk(c: Config, s: System) {
    && s.now >= 0.0 && StoreOk(c, s)
    && forall i :: 0 <= i < |s.procs| ==> ProcessOk(c, s.procs[i])
  }

  // ----- one event at the store

  lemma StoreLevelRange(c: Config, s: System, key: Key)
    requires StoreOk(c, s)
    ensures 0.0 <= StoreLevel(c, StoreBucketOf(s, key), s.now) <= c.burst as real
  {
    if key in s.store {
      EarnedGrows(c, s.now - s.store[key].updated);
    }
  }

  lemma GrantRange(c: Config, s: System, key: Key)
    requires StoreOk(c, s)
    ensures 0 <= Grant(c, StoreBucketOf(s, key), LeaseSize(c), s.now) <= LeaseSize(c)
    ensures Grant(c, StoreBucketOf(s, key), LeaseSize(c), s.now) as real <= StoreLevel(c, StoreBucketOf(s, key), s.now)
  {
    StoreLevelRange(c, s, key);
  }

  /** The store gives out exactly what it loses. */
  lemma GrantConserves(c: Config, s: System, key: Key)
    requires StoreOk(c, s) && s.now >= 0.0
    ensures var b := AfterGrant(c, StoreBucketOf(s, key), LeaseSize(c), s.now);
      && 0.0 <= b.tokens <= c.burst as real && b.updated == s.now
      && StoreLevel(c, Some(b), s.now) + Grant(c, StoreBucketOf(s, key), LeaseSize(c), s.now) as real
         == StoreLevel(c, StoreBucketOf(s, key), s.now)
  {
    StoreLevelRange(c, s, key);
    GrantRange(c, s, key);
    assert Earned(c, 0.0) == 0.0;
  }

  lemma ElapseLevel(c: Config, b: StoreBucket, now: real, ms: real)
    requires b.updated <= now && ms >= 0.0
    ensures StoreLevel(c, Some(b), now + ms) <= StoreLevel(c, Some(b), now) + Earned(c, ms)
  {
    EarnedAdds(c, now - b.updated, ms);
    assert now - b.updated + ms == now + ms - b.updated;
    EarnedGrows(c, ms);
  }

  lemma StoreStep(c: Config, s: System, e: Event, key: Key)
    requires StoreOk(c, s) && s.now >= 0.0 && Timely(e)
    ensures StoreOk(c, Step(c, s, e))
    ensures Step(c, s, e).now == s.now + Passes(e)
    ensures StoreLevel(c, StoreBucketOf(Step(c, s, e), key), Step(c, s, e).now) + Draws(c, s, e, key) as real
      <= StoreLevel(c, StoreBucketOf(s, key), s.now) + Earned(c, Passes(e))
  {
    if e.Elapse? {
      EarnedGrows(c, e.ms);
      if key in s.store {
        ElapseLevel(c, s.store[key], s.now, e.ms);
      }
    } else if Granting(s, e) {
      GrantConserves(c, s, e.key);
    }
  }

  // ----- one event at a process

  /** What a process may still admit for `key`: what it can spend and what is on its way to it. */
  function Budget(p: Process, key: Key): int {
    Spendable(p, key) + InFlight(p, key)
  }

  lemma BudgetAtMostLease(c: Config, p: Process, key: Key)
    requires ProcessOk(c, p)
    ensures 0 <= Budget(p, key) <= LeaseSize(c)
  {
    assert Flying(p, key) || InFlight(p, key) == 0;
  }

  lemma ProcStepOk(c: Config, s: System, e: Event, p: Process)
    requires StoreOk(c, s) && ProcessOk(c, p) && Timely(e)
    ensures ProcessOk(c, ProcStep(c, s, e, p))
  {
    match e
    case Elapse(_) =>
    case ClockAdvances(_, ms) => TickedOk(c, p, ms);
    case AttemptBy(_, key) => AttemptedOk(c, p, key);
    case StoreGrants(_, key) =>
      if FlightOf(p, key) == Some(Asked) {
        GrantRange(c, s, key);
        FlightOk(c, p, key, Granted(Grant(c, StoreBucketOf(s, key), LeaseSize(c), s.now)));
      }
    case LeaseArrives(_, key) =>
      if FlightOf(p, key).Some? && p.flights[key].Granted? {
        ArrivedOk(c, p, key, p.flights[key].tokens);
      }
    case LeaseFails(_, key) =>
      if FlightOf(p, key).Some? && !p.flights[key].Settling? {
        FlightOk(c, p, key, Settling);
      }
    case PromiseSettles(_, key) =>
      if FlightOf(p, key) == Some(Settling) {
        SettledOk(c, p, key);
      }
  }

  /** An attempt, at the process that makes it. */
  lemma AttemptBudget(c: Config, p: Process, key: Key, k: Key)
    requires ProcessOk(c, p)
    ensures Budget(Attempted(c, p, k), key) <= Budget(p, key)
      - (if k == key && AttemptOutcome(c, p.held, p.flights.Keys, key, p.clock).Admit? then 1 else 0)
  {
    AttemptedHeld(c, p, k, key);
  }

  lemma ArriveBudget(c: Config, p: Process, key: Key, k: Key)
    requires ProcessOk(c, p) && k in p.flights && p.flights[k].Granted?
    ensures Budget(Arrived(c, p, k, p.flights[k].tokens), key) <= Budget(p, key)
  {
    ArrivedHeld(c, p, k, p.flights[k].tokens, key);
    assert k == key ==> Flying(p, key);
  }

  /** Admissions come out of the budget, and only the store adds to it. */
  lemma ProcStepBudget(c: Config, s: System, e: Event, key: Key)
    requires StoreOk(c, s) && Timely(e) && !e.Elapse? && e.i < |s.procs| && ProcessOk(c, s.procs[e.i])
    ensures Admits(c, s, e, key) + Budget(ProcStep(c, s, e, s.procs[e.i]), key)
      <= Budget(s.procs[e.i], key) + Draws(c, s, e, key)
  {
    var p := s.procs[e.i];
    match e
    case Elapse(_) =>
    case ClockAdvances(_, ms) =>
    case AttemptBy(_, k) => AttemptBudget(c, p, key, k);
    case StoreGrants(_, k) =>
    case LeaseArrives(_, k) =>
      if FlightOf(p, k).Some? && p.flights[k].Granted? {
        ArriveBudget(c, p, key, k);
      }
    case LeaseFails(_, k) =>
    case PromiseSettles(_, k) =>
  }

  // ----- all processes

  function TotalBudget(procs: seq<Process>, key: Key): int {
    if procs == [] then 0 else Budget(procs[0], key) + TotalBudget(procs[1..], key)
  }

  lemma {:induction false} TotalBudgetUpdate(procs: seq<Process>, i: nat, p: Process, key: Key)
    requires i < |procs|
    ensures TotalBudget(procs[i := p], key) == TotalBudget(procs, key) - Budget(procs[i], key) + Budget(p, key)
  {
    if i == 0 {
      assert procs[0 := p][1..] == procs[1..];
    } else {
      assert procs[i := p][1..] == procs[1..][i - 1 := p];
      TotalBudgetUpdate(procs[1..], i - 1, p, key);
    }
  }

  lemma {:induction false} TotalBudgetRange(c: Config, procs: seq<Process>, key: Key)
    requires forall i :: 0 <= i < |procs| ==> ProcessOk(c, procs[i])
    ensures 0 <= TotalBudget(procs, key) <= |procs| * LeaseSize(c)
  {
    if procs != [] {
      BudgetAtMostLease(c, procs[0], key);
      TotalBudgetRange(c, procs[1..], key);
      assert |procs| * LeaseSize(c) == LeaseSize(c) + (|procs| - 1) * LeaseSize(c);
    }
  }

  lemma ProcsStep(c: Config, s: System, e: Event, key: Key)
    requires SystemOk(c, s) && Timely(e)
    ensures |Step(c, s, e).procs| == |s.procs|
    ensures forall i :: 0 <= i < |s.procs| ==> ProcessOk(c, Step(c, s, e).procs[i])
    ensures Admits(c, s, e, key) + TotalBudget(Step(c, s, e).procs, key)
      <= TotalBudget(s.procs, key) + Draws(c, s, e, key)
  {
    if !e.Elapse? && e.i < |s.procs| {
      ProcStepOk(c, s, e, s.procs[e.i]);
      ProcStepBudget(c, s, e, key);
      TotalBudgetUpdate(s.procs, e.i, ProcStep(c, s, e, s.procs[e.i]), key);
    }
  }

  // ----- whole runs

  ghost predicate AllTimely(events: seq<Event>) {
    forall i :: 0 <= i < |events| ==> Timely(events[i])
  }

  function Run(c: Config, s: System, events: seq<Event>): System
    decreases |events|
  {
    if events == [] then s else Run(c, Step(c, s, events[0]), events[1..])
  }

  function Admitted(c: Config, s: System, events: seq<Event>, key: Key): nat
    decreases |events|
  {
    if events == [] then 0
    else Admits(c, s, events[0], key) + Admitted(c, Step(c, s, events[0]), events[1..], key)
  }

  function Drawn(c: Config, s: System, events: seq<Event>, key: Key): int
    decreases |events|
  {
    if events == [] then 0
    else Draws(c, s, events[0], key) + Drawn(c, Step(c, s, events[0]), events[1..], key)
  }

  function Elapsed(events: seq<Event>): real {
    if events == [] then 0.0 else Passes(events[0]) + Elapsed(events[1..])
  }

  lemma StepOk(c: Config, s: System, e: Event, key: Key)
    requires SystemOk(c, s) && Timely(e)
    ensures SystemOk(c, Step(c, s, e)) && |Step(c, s, e).procs| == |s.procs|
  {
    ProcsStep(c, s, e, key);
    StoreStep(c, s, e, key);
  }

  /** What is admitted was granted, before or during the run. */
  lemma {:induction false} AdmittedWereGranted(c: Config, s: System, events: seq<Event>, key: Key)
    requires SystemOk(c, s) && AllTimely(events)
    ensures SystemOk(c, Run(c, s, events)) && |Run(c, s, events).procs| == |s.procs|
    ensures Admitted(c, s, events, key) + TotalBudget(Run(c, s, events).procs, key)
      <= TotalBudget(s.procs, key) + Drawn(c, s, events, key)
    decreases |events|
  {
    if events != [] {
      StepOk(c, s, events[0], key);
      ProcsStep(c, s, events[0], key);
      AdmittedWereGranted(c, Step(c, s, events[0]), events[1..], key);
    }
  }

  /** The store as an exact token bucket: whatever N processes draw fits its level and what it earns. */
  lemma {:induction false} DrawnFitsBucket(c: Config, s: System, events: seq<Event>, key: Key)
    requires SystemOk(c, s) && AllTimely(events)
    ensures Drawn(c, s, events, key) as real <= StoreLevel(c, StoreBucketOf(s, key), s.now) + Earned(c, Elapsed(events))
    decreases |events|
  {
    if events == [] {
      StoreLevelRange(c, s, key);
      assert Earned(c, 0.0) == 0.0;
    } else {
      StepOk(c, s, events[0], key);
      StoreStep(c, s, events[0], key);
      DrawnFitsBucket(c, Step(c, s, events[0]), events[1..], key);
      EarnedAdds(c, Passes(events[0]), Elapsed(events[1..]));
    }
  }

  /** In any stretch of any run, N processes together admit at most a burst, what the stretch earns, and one lease
      each. */
  lemma SharedWindow(c: Config, s: System, events: seq<Event>, key: Key)
    requires SystemOk(c, s) && AllTimely(events)
    ensures Admitted(c, s, events, key) as real
      <= c.burst as real + Earned(c, Elapsed(events)) + (|s.procs| * LeaseSize(c)) as real
  {
    AdmittedWereGranted(c, s, events, key);
    TotalBudgetRange(c, s.procs, key);
    TotalBudgetRange(c, Run(c, s, events).procs, key);
    StoreLevelRange(c, s, key);
    DrawnFitsBucket(c, s, events, key);
  }

  /** What the fallback of one process went through while its clock passed: the limiter at the start, and the takes of
      the requests that found the store failing. */
  datatype Fallback = Fallback(buckets: JsMap<Bucket>, calls: seq<Call>)

  function FallbackAdmitted(c: Config, fallbacks: seq<Fallback>, key: Key): nat {
    if fallbacks == [] then 0
    else |AdmittedTimes(c, fallbacks[0].buckets, fallbacks[0].calls, key)| + FallbackAdmitted(c, fallbacks[1..], key)
  }

  /** What the buckets of the processes hold at most, and earn while their clocks pass. */
  function FallbackBudget(c: Config, procs: seq<Process>, later: seq<Process>): real
    requires |procs| == |later|
  {
    if procs == [] then 0.0
    else c.burst as real + Earned(c, later[0].clock - procs[0].clock) + FallbackBudget(c, procs[1..], later[1..])
  }

  ghost predicate FallbackOk(c: Config, f: Fallback, key: Key, from: real, to: real) {
    Sound(c, f.buckets, from) && Within(f.calls, from, to) && |RateLimitingRuns.Others(f.calls, key)| < c.maxEntries
  }

  ghost predicate FallbacksOk(c: Config, fallbacks: seq<Fallback>, procs: seq<Process>, later: seq<Process>, key: Key)
    requires |fallbacks| == |procs| == |later|
  {
    forall i :: 0 <= i < |procs| ==> FallbackOk(c, fallbacks[i], key, procs[i].clock, later[i].clock)
  }

  /** The first process keeps to its own bound, and the others are as before. */
  lemma FirstFallback(c: Config, fallbacks: seq<Fallback>, procs: seq<Process>, later: seq<Process>, key: Key)
    requires |fallbacks| == |procs| == |later| && procs != [] && FallbacksOk(c, fallbacks, procs, later, key)
    ensures |AdmittedTimes(c, fallbacks[0].buckets, fallbacks[0].calls, key)| as real
      <= c.burst as real + Earned(c, later[0].clock - procs[0].clock)
    ensures FallbacksOk(c, fallbacks[1..], procs[1..], later[1..], key)
  {
    RateLimitingRuns.WindowBound(c, fallbacks[0].buckets, fallbacks[0].calls, key, procs[0].clock, later[0].clock);
    var fs, ps, ls := fallbacks[1..], procs[1..], later[1..];
    forall i | 0 <= i < |ps| ensures FallbackOk(c, fs[i], key, ps[i].clock, ls[i].clock) {
      assert fs[i] == fallbacks[i + 1] && ps[i] == procs[i + 1] && ls[i] == later[i + 1];
    }
  }

  lemma {:induction false} FallbacksAreBounded(c: Config, fallbacks: seq<Fallback>, procs: seq<Process>,
                                               later: seq<Process>, key: Key)
    requires |fallbacks| == |procs| == |later| && FallbacksOk(c, fallbacks, procs, later, key)
    ensures FallbackAdmitted(c, fallbacks, key) as real <= FallbackBudget(c, procs, later)
    decreases |procs|
  {
    if procs != [] {
      FirstFallback(c, fallbacks, procs, later, key);
      FallbacksAreBounded(c, fallbacks[1..], procs[1..], later[1..], key);
      OneMoreFallback(c, fallbacks, procs, later, key);
    }
  }

  lemma {:induction false} OneMoreFallback(c: Config, fallbacks: seq<Fallback>, procs: seq<Process>,
                                           later: seq<Process>, key: Key)
    requires |fallbacks| == |procs| == |later| && procs != []
    requires |AdmittedTimes(c, fallbacks[0].buckets, fallbacks[0].calls, key)| as real
      <= c.burst as real + Earned(c, later[0].clock - procs[0].clock)
    requires FallbackAdmitted(c, fallbacks[1..], key) as real <= FallbackBudget(c, procs[1..], later[1..])
    ensures FallbackAdmitted(c, fallbacks, key) as real <= FallbackBudget(c, procs, later)
  {
  }

  /** With the answers of the fallbacks: a store that fails never means no limit. However often it fails, N processes
      admit at most what the shared bucket allows and, each on top of it, its own burst and what its own clock earns. */
  lemma TotalWithFallbacks(c: Config, s: System, events: seq<Event>, fallbacks: seq<Fallback>, key: Key)
    requires SystemOk(c, s) && AllTimely(events) && |fallbacks| == |s.procs| == |Run(c, s, events).procs|
    requires FallbacksOk(c, fallbacks, s.procs, Run(c, s, events).procs, key)
    ensures (Admitted(c, s, events, key) + FallbackAdmitted(c, fallbacks, key)) as real
      <= c.burst as real + Earned(c, Elapsed(events)) + (|s.procs| * LeaseSize(c)) as real
         + FallbackBudget(c, s.procs, Run(c, s, events).procs)
  {
    SharedWindow(c, s, events, key);
    FallbacksAreBounded(c, fallbacks, s.procs, Run(c, s, events).procs, key);
  }

  /** The state every process and the store start in. */
  ghost predicate Initial(s: System) {
    && s.now >= 0.0 && s.store == map[]
    && forall i :: 0 <= i < |s.procs| ==> s.procs[i].held == Empty() && s.procs[i].flights == map[]
  }

  /** From the start, the store-backed admissions of a key never exceed what the store granted for it. */
  lemma AdmissionsNeverExceedGrants(c: Config, s: System, events: seq<Event>, key: Key)
    requires Initial(s) && AllTimely(events)
    ensures Admitted(c, s, events, key) <= Drawn(c, s, events, key)
    ensures SystemOk(c, Run(c, s, events))
  {
    AdmittedWereGranted(c, s, events, key);
    TotalBudgetRange(c, Run(c, s, events).procs, key);
    NoBudgetYet(s.procs, key);
  }

  /** In every reachable state, a process with a lease in flight holds no token of that key it could spend, and an
      attempt asks the store only when no lease of the key is in flight or settling. */
  lemma OneLeaseAtATime(c: Config, s: System, events: seq<Event>, i: nat, key: Key)
    requires Initial(s) && AllTimely(events) && i < |s.procs|
    ensures |Run(c, s, events).procs| == |s.procs|
    ensures var p := Run(c, s, events).procs[i];
      && (Flying(p, key) ==> Spendable(p, key) == 0 && 0 <= InFlight(p, key) <= LeaseSize(c))
      && (AttemptOutcome(c, p.held, p.flights.Keys, key, p.clock).Ask? ==> key !in p.flights && Spendable(p, key) == 0)
  {
    AdmittedWereGranted(c, s, events, key);
    assert ProcessOk(c, Run(c, s, events).procs[i]);
  }

  lemma {:induction false} NoBudgetYet(procs: seq<Process>, key: Key)
    requires forall i :: 0 <= i < |procs| ==> procs[i].held == Empty() && procs[i].flights == map[]
    ensures TotalBudget(procs, key) == 0
  {
    if procs != [] {
      NoBudgetYet(procs[1..], key);
    }
  }

  // ----- where the tokens of one process go

  /** Everything a process has of a key, spendable or not: what it holds and what is on its way. */
  function Holdings(p: Process, key: Key): int {
    HeldTokens(p, key) + InFlight(p, key)
  }

  /** Tokens an event throws away: the rest of a lease that a new one overwrites, the entry that eviction takes, and a
      lease that never arrives. Expired tokens are counted when they go, not when they expire. */
  function Dropped(c: Config, s: System, e: Event, i: nat, key: Key): int
    requires i < |s.procs|
  {
    var p := s.procs[i];
    match e
    case LeaseArrives(j, k) =>
      if j != i || FlightOf(p, k).None? || !p.flights[k].Granted? then 0
      else if k == key then HeldTokens(p, key)
      else if key in ProcStep(c, s, e, p).held.values then 0
      else HeldTokens(p, key)
    case LeaseFails(j, k) => if j == i && k == key then InFlight(p, key) else 0
    case _ => 0
  }

  function AdmitsBy(c: Config, s: System, e: Event, i: nat, key: Key): nat {
    if e.AttemptBy? && e.i == i then Admits(c, s, e, key) else 0
  }

  function DrawsFor(c: Config, s: System, e: Event, i: nat, key: Key): int {
    if e.StoreGrants? && e.i == i then Draws(c, s, e, key) else 0
  }

  lemma ArrivedHoldings(c: Config, p: Process, key: Key, k: Key)
    requires ProcessOk(c, p) && k in p.flights && p.flights[k].Granted?
    ensures var p' := Arrived(c, p, k, p.flights[k].tokens);
      Holdings(p', key) == Holdings(p, key)
        - (if k == key then HeldTokens(p, key) else if key in p'.held.values then 0 else HeldTokens(p, key))
  {
    ArrivedHeld(c, p, k, p.flights[k].tokens, key);
    TouchValid(p.held, k, Leased(c, p.flights[k].tokens, p.clock), MAX_ENTRIES);
  }

  lemma AttemptedHoldings(c: Config, p: Process, key: Key, k: Key)
    requires JsMaps.Valid(p.held)
    ensures Holdings(p, key) == Holdings(Attempted(c, p, k), key)
      + (if k == key && AttemptOutcome(c, p.held, p.flights.Keys, key, p.clock).Admit? then 1 else 0)
  {
    AttemptedHeld(c, p, k, key);
  }

  ghost predicate Conserves(c: Config, s: System, e: Event, i: nat, key: Key)
    requires i < |s.procs|
  {
    DrawsFor(c, s, e, i, key) + Holdings(s.procs[i], key)
    == AdmitsBy(c, s, e, i, key) + Dropped(c, s, e, i, key) + Holdings(Step(c, s, e).procs[i], key)
  }

  lemma AttemptConserves(c: Config, s: System, e: Event, i: nat, key: Key)
    requires SystemOk(c, s) && i < |s.procs| && e.AttemptBy? && e.i == i
    ensures Conserves(c, s, e, i, key)
  {
    assert ProcessOk(c, s.procs[i]);
    AttemptedHoldings(c, s.procs[i], key, e.key);
  }

  lemma ArrivalConserves(c: Config, s: System, e: Event, i: nat, key: Key)
    requires SystemOk(c, s) && i < |s.procs| && e.LeaseArrives? && e.i == i
    ensures Conserves(c, s, e, i, key)
  {
    var p := s.procs[i];
    if FlightOf(p, e.key).Some? && p.flights[e.key].Granted? {
      ArrivedHoldings(c, p, key, e.key);
    }
  }

  lemma OtherEventsConserve(c: Config, s: System, e: Event, i: nat, key: Key)
    requires i < |s.procs|
    requires (e.AttemptBy? || e.LeaseArrives?) ==> e.i != i
    ensures Conserves(c, s, e, i, key)
  {
  }

  /** Granted = admitted + kept + dropped, event by event. */
  lemma StepConserves(c: Config, s: System, e: Event, i: nat, key: Key)
    requires SystemOk(c, s) && i < |s.procs|
    ensures DrawsFor(c, s, e, i, key) + Holdings(s.procs[i], key)
      == AdmitsBy(c, s, e, i, key) + Dropped(c, s, e, i, key) + Holdings(Step(c, s, e).procs[i], key)
  {
    if e.AttemptBy? && e.i == i {
      AttemptConserves(c, s, e, i, key);
    } else if e.LeaseArrives? && e.i == i {
      ArrivalConserves(c, s, e, i, key);
    } else {
      OtherEventsConserve(c, s, e, i, key);
    }
  }

  datatype Ledger = Ledger(granted: int, admitted: int, dropped: int)

  /** What a run granted to, admitted from and dropped of the tokens of one key at one process. */
  function LedgerOf(c: Config, s: System, events: seq<Event>, i: nat, key: Key): Ledger
    requires i < |s.procs|
    decreases |events|
  {
    if events == [] then Ledger(0, 0, 0)
    else
      var rest := LedgerOf(c, Step(c, s, events[0]), events[1..], i, key);
      Ledger(DrawsFor(c, s, events[0], i, key) + rest.granted,
             AdmitsBy(c, s, events[0], i, key) + rest.admitted,
             Dropped(c, s, events[0], i, key) + rest.dropped)
  }

  /** Over any run: every token granted was admitted with, is still there, or was dropped. */
  lemma {:induction false} TokensAreConserved(c: Config, s: System, events: seq<Event>, i: nat, key: Key)
    requires SystemOk(c, s) && AllTimely(events) && i < |s.procs|
    ensures |Run(c, s, events).procs| == |s.procs|
    ensures var l := LedgerOf(c, s, events, i, key);
      l.granted + Holdings(s.procs[i], key) == l.admitted + l.dropped + Holdings(Run(c, s, events).procs[i], key)
    decreases |events|
  {
    if events != [] {
      StepOk(c, s, events[0], key);
      StepConserves(c, s, events[0], i, key);
      TokensAreConserved(c, Step(c, s, events[0]), events[1..], i, key);
    }
  }

  // ----- a flood of refusals is not a flood of questions

  /** The last lease came back empty: `until` is when a token may have come back. */
  ghost predicate CoolsUntil(p: Process, key: Key, until: real) {
    && key in p.held.values && p.held.values[key].tokens < 1 && p.held.values[key].emptyUntil == until
    && !Flying(p, key)
  }

  function Asks(c: Config, s: System, e: Event, i: nat, key: Key): nat
    requires i < |s.procs|
  {
    if e == AttemptBy(i, key)
       && AttemptOutcome(c, s.procs[i].held, s.procs[i].flights.Keys, key, s.procs[i].clock).Ask?
    then 1 else 0
  }

  function AsksIn(c: Config, s: System, events: seq<Event>, i: nat, key: Key): nat
    requires i < |s.procs|
    decreases |events|
  {
    if events == [] then 0
    else Asks(c, s, events[0], i, key) + AsksIn(c, Step(c, s, events[0]), events[1..], i, key)
  }

  /** The entry of `key` is not evicted along the run. */
  ghost predicate KeepsEntry(c: Config, s: System, events: seq<Event>, i: nat, key: Key)
    requires i < |s.procs|
    decreases |events|
  {
    key in s.procs[i].held.values
    && (events == [] || KeepsEntry(c, Step(c, s, events[0]), events[1..], i, key))
  }

  lemma EmptyLeaseCools(c: Config, p: Process, key: Key)
    requires ProcessOk(c, p) && key in p.flights && p.flights[key] == Granted(0)
    ensures CoolsUntil(Arrived(c, p, key, 0), key, p.clock + MaxReal(100.0, 1000.0 / c.perSecond))
  {
    TouchValid(p.held, key, Leased(c, 0, p.clock), MAX_ENTRIES);
    ArrivedHeld(c, p, key, 0, key);
  }

  lemma CoolingStep(c: Config, s: System, e: Event, i: nat, key: Key, until: real)
    requires SystemOk(c, s) && Timely(e) && i < |s.procs|
    requires CoolsUntil(s.procs[i], key, until) && s.procs[i].clock < until
    requires key in Step(c, s, e).procs[i].held.values
    ensures Asks(c, s, e, i, key) == 0
    ensures s.procs[i].clock <= Step(c, s, e).procs[i].clock
    ensures CoolsUntil(Step(c, s, e).procs[i], key, until)
  {
    var p := s.procs[i];
    if !e.Elapse? && e.i == i {
      match e
      case Elapse(_) =>
      case ClockAdvances(_, _) =>
      case AttemptBy(_, k) => AttemptedHeld(c, p, k, key);
      case StoreGrants(_, _) =>
      case LeaseArrives(_, k) =>
        if FlightOf(p, k).Some? && p.flights[k].Granted? {
          assert k != key;
          ArrivedHeld(c, p, k, p.flights[k].tokens, key);
        }
      case LeaseFails(_, _) =>
      case PromiseSettles(_, _) =>
    }
  }

  lemma {:induction false} ClockNeverGoesBack(c: Config, s: System, events: seq<Event>, i: nat)
    requires AllTimely(events) && i < |s.procs|
    ensures |Run(c, s, events).procs| == |s.procs|
    ensures s.procs[i].clock <= Run(c, s, events).procs[i].clock
    decreases |events|
  {
    if events != [] {
      ClockNeverGoesBack(c, Step(c, s, events[0]), events[1..], i);
    }
  }

  /** After an empty lease the process does not ask again before `emptyUntil`, unless it forgot the key. */
  lemma {:induction false} NoQuestionWhileCooling(c: Config, s: System, events: seq<Event>, i: nat, key: Key,
                                                  until: real)
    requires SystemOk(c, s) && AllTimely(events) && i < |s.procs|
    requires CoolsUntil(s.procs[i], key, until) && KeepsEntry(c, s, events, i, key)
    requires |Run(c, s, events).procs| == |s.procs| && Run(c, s, events).procs[i].clock < until
    ensures AsksIn(c, s, events, i, key) == 0
    decreases |events|
  {
    if events != [] {
      ClockNeverGoesBack(c, s, events, i);
      StepOk(c, s, events[0], key);
      CoolingStep(c, s, events[0], i, key, until);
      NoQuestionWhileCooling(c, Step(c, s, events[0]), events[1..], i, key, until);
    }
  }
}
