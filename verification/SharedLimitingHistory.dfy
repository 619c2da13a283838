/** What a process answers, told from what happened to it: the last lease of the key that arrived, how many requests
    it admitted since, and whether a lease is under way. */
module SharedLimitingHistory {
  import opened Arithmetic
  import opened JsMaps
  import opened Wrappers
  import RateLimiting
  import opened SharedLimiting
  import opened SharedLimitingRuns

  /** The last lease of a key to arrive at a process: its size, the clock at its arrival, the admissions since. */
  datatype Last = Last(granted: int, at: real, spent: nat)

  function Noted(c: RateLimiting.Config, s: System, e: Event, i: nat, key: Key, last: Option<Last>): Option<Last>
    requires i < |s.procs|
  {
    var p := s.procs[i];
    if e == LeaseArrives(i, key) && FlightOf(p, key).Some? && p.flights[key].Granted?
    then Some(Last(p.flights[key].tokens, p.clock, 0))
    else if last.Some? then Some(last.value.(spent := last.value.spent + AdmitsBy(c, s, e, i, key)))
    else None
  }

  /** The last lease after the events, when `last` was the one before them. */
  function LastLease(c: RateLimiting.Config, s: System, events: seq<Event>, i: nat, key: Key,
                     last: Option<Last>): Option<Last>
    requires i < |s.procs|
    decreases |events|
  {
    if events == [] then last
    else LastLease(c, Step(c, s, events[0]), events[1..], i, key, Noted(c, s, events[0], i, key, last))
  }

  /** How long an empty lease keeps a process from asking again. */
  function CoolingMs(c: RateLimiting.Config): real { MaxReal(100.0, 1000.0 / c.perSecond) }

  /** What is held of a key is what is left of the last lease. */
  ghost predicate Explained(c: RateLimiting.Config, p: Process, key: Key, last: Option<Last>) {
    key in p.held.values ==>
      && last.Some? && 0 <= last.value.spent <= last.value.granted
      && p.held.values[key] == Held(last.value.granted - last.value.spent, last.value.at + 2000.0,
                                    if last.value.granted > 0 then 0.0 else last.value.at + CoolingMs(c))
  }

  lemma AttemptExplained(c: RateLimiting.Config, s: System, i: nat, k: Key, key: Key, last: Option<Last>)
    requires i < |s.procs| && ProcessOk(c, s.procs[i]) && Explained(c, s.procs[i], key, last)
    ensures var e := AttemptBy(i, k);
      Explained(c, Step(c, s, e).procs[i], key, Noted(c, s, e, i, key, last))
  {
    AttemptedHeld(c, s.procs[i], k, key);
  }

  lemma ArrivalExplained(c: RateLimiting.Config, s: System, i: nat, k: Key, key: Key, last: Option<Last>)
    requires i < |s.procs| && ProcessOk(c, s.procs[i]) && Explained(c, s.procs[i], key, last)
    ensures var e := LeaseArrives(i, k);
      Explained(c, Step(c, s, e).procs[i], key, Noted(c, s, e, i, key, last))
  {
    var p := s.procs[i];
    if FlightOf(p, k).Some? && p.flights[k].Granted? {
      ArrivedHeld(c, p, k, p.flights[k].tokens, key);
    }
  }

  lemma StepExplained(c: RateLimiting.Config, s: System, e: Event, i: nat, key: Key, last: Option<Last>)
    requires i < |s.procs| && ProcessOk(c, s.procs[i]) && Explained(c, s.procs[i], key, last)
    ensures |Step(c, s, e).procs| == |s.procs|
    ensures Explained(c, Step(c, s, e).procs[i], key, Noted(c, s, e, i, key, last))
  {
    if e.AttemptBy? && e.i == i {
      AttemptExplained(c, s, i, e.key, key, last);
    } else if e.LeaseArrives? && e.i == i {
      ArrivalExplained(c, s, i, e.key, key, last);
    }
  }

  lemma {:induction false} RunExplained(c: RateLimiting.Config, s: System, events: seq<Event>, i: nat, key: Key,
                                        last: Option<Last>)
    requires SystemOk(c, s) && AllTimely(events) && i < |s.procs| && Explained(c, s.procs[i], key, last)
    ensures |Run(c, s, events).procs| == |s.procs|
    ensures ProcessOk(c, Run(c, s, events).procs[i])
    ensures Explained(c, Run(c, s, events).procs[i], key, LastLease(c, s, events, i, key, last))
    decreases |events|
  {
    if events != [] {
      StepOk(c, s, events[0], key);
      StepExplained(c, s, events[0], i, key, last);
      RunExplained(c, Step(c, s, events[0]), events[1..], i, key, Noted(c, s, events[0], i, key, last));
    }
  }

  /** From the start of any run, an attempt is admitted exactly while the last lease has tokens and is not two seconds
      old, refused exactly while the last lease was empty and its cooling time lasts, and otherwise waits for the lease
      under way or asks for one. (A process that forgot the key neither admits nor refuses.) */
  lemma AttemptExact(c: RateLimiting.Config, s: System, events: seq<Event>, i: nat, key: Key)
    requires Initial(s) && AllTimely(events) && i < |s.procs| && s.procs[i].clock >= 0.0
    ensures |Run(c, s, events).procs| == |s.procs|
    ensures var p := Run(c, s, events).procs[i];
      var o := AttemptOutcome(c, p.held, p.flights.Keys, key, p.clock);
      var last := LastLease(c, s, events, i, key, None);
      var known := key in p.held.values;
      && (known ==> last.Some?)
      && (o.Admit? <==>
            known && last.value.spent < last.value.granted && p.clock < last.value.at + 2000.0)
      && (o.Refused? <==>
            known && last.value.granted == 0 && p.clock < last.value.at + MaxReal(100.0, 1000.0 / c.perSecond))
      && (o.Join? <==> !o.Admit? && !o.Refused? && key in p.flights)
      && (o.Ask? <==> !o.Admit? && !o.Refused? && key !in p.flights)
      && (o.Admit? ==> o.decision == RateLimiting.Decision(true, last.value.granted - last.value.spent - 1, c.burst, 0))
      && (o.Refused? ==> !o.decision.allowed && o.decision.remaining == 0 && o.decision.limit == c.burst)
  {
    AdmissionsNeverExceedGrants(c, s, events, key);
    ClockNeverGoesBack(c, s, events, i);
    InitialOk(c, s);
    RunExplained(c, s, events, i, key, None);
  }

  lemma InitialOk(c: RateLimiting.Config, s: System)
    requires Initial(s)
    ensures SystemOk(c, s)
  {
  }

  /** The seconds a refusal names: in that time a token is earned, and in one second less, if that is any, none is. */
  lemma RefusalWaitIsExact(c: RateLimiting.Config)
    ensures var seconds := Refusal(c).retryAfterSeconds;
      && seconds >= 1 && RateLimiting.Earned(c, seconds as real * 1000.0) >= 1.0
      && (seconds > 1 ==> RateLimiting.Earned(c, (seconds - 1) as real * 1000.0) < 1.0)
  {
    var seconds := Refusal(c).retryAfterSeconds as real;
    var period := 1.0 / c.perSecond;
    assert period * c.perSecond == 1.0;
    assert seconds * 1000.0 / 1000.0 == seconds;
    assert (seconds - 1.0) * 1000.0 / 1000.0 == seconds - 1.0;
    assert seconds >= period;
    AtLeast(seconds, period, c.perSecond);
    if seconds > 1.0 {
      assert seconds - 1.0 < period;
      Below(seconds - 1.0, period, c.perSecond);
    }
  }

  lemma AtLeast(x: real, y: real, r: real)
    requires x >= y && r > 0.0
    ensures x * r >= y * r
  {
  }

  lemma Below(x: real, y: real, r: real)
    requires x < y && r > 0.0
    ensures x * r < y * r
  {
  }

  // ----- what is asked for and what the store gives

  /** A lease is the smallest whole number of tokens that is at least a tenth of the burst. */
  lemma LeaseIsATenth(c: RateLimiting.Config, n: int)
    ensures n >= LeaseSize(c) <==> 10 * n >= c.burst
  {
  }

  /** The store grants as many tokens as it may: a number is within the grant exactly when it is within the question and
      the level. */
  lemma GrantIsLargest(c: RateLimiting.Config, bucket: Option<StoreBucket>, amount: int, now: real, n: int)
    ensures n <= Grant(c, bucket, amount, now) <==> n <= amount && n as real <= StoreLevel(c, bucket, now)
  {
  }

  /** A bucket nobody asks fills up with time, to the burst and no further; an unknown one is full. */
  lemma StoreFillsUp(c: RateLimiting.Config, b: StoreBucket, now: real, later: real)
    requires b.updated <= now <= later
    ensures StoreLevel(c, Some(b), later)
         == MinReal(c.burst as real, StoreLevel(c, Some(b), now) + (later - now) * c.perSecond / 1000.0)
    ensures StoreLevel(c, None, now) == c.burst as real
  {
    RateLimiting.EarnedAdds(c, now - b.updated, later - now);
    assert now - b.updated + (later - now) == later - b.updated;
    RateLimiting.EarnedGrows(c, later - now);
    assert RateLimiting.Earned(c, later - now) == (later - now) * c.perSecond / 1000.0;
  }
}
