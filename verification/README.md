# UNIORA server and client: a verified model

This project models the machinery around the UNIORA core in Dafny 4.11 and proves what it promises over whole runs: the rate
limits of one process and of many, the concurrency gate, the throttle of failed authentications, the order of checks of a request
and the client's retries on top of it, the way a call becomes a path and a path a route, the schema language, the cached keys of
identity providers, the dates of a token, keyset paging, and the command line's arguments. `dafny verify dfyconfig.toml` checks
all of it.

Code that works by updating objects or variables is modelled as classes and methods with loops, each proved equal to a
function of its inputs and its old state; the properties are lemmas about those functions. Where two awaits let other work in
between, the pieces without an await are the steps of a state machine, and the properties hold for every order of steps.

## Modules

- `Wrappers`, `Arithmetic`, `Sequences`, `Strings`, `JsMaps`: missing values, minimum and maximum, equations of concatenation,
  string operations, and JavaScript's ordered `Map`.
- `RateLimiting`, `RateLimitingRuns`, `SharedLimiting`, `SharedLimitingRuns`, `Concurrency`, `FailureThrottling`,
  `FailureThrottlingLimits`, `FailureThrottlingEviction`: the limits. `RateLimitingDecisions` and `SharedLimitingHistory` say what
  is answered, by the bucket and by what happened before.
- `RequestHandling`: the calls of the request handler that are under way, with the counter and the slots they update.
- `Pipeline`, `PipelineChecks`: one request in the server, as the code decides and as a list of checks.
- `ClientRetry`, `ClientRetryEnds`: the client's loop of attempts, what it cannot repeat and how it ends.
- `HandlerStarts`, `HandlerBursts`: limiter, gate and handlers together, with the awaits between them.
- `ServerRuns`: the pipeline with the limiter, the target check and the routes in place of its facts.
- `PercentEncoding`, `PercentDecoding`, `Routing`, `OperationTable`, `RoutingRoundTrip`: from a call to a path to a route, for the 78 operations.
- `Moments`, `Schemas`, `Parsing`, `Projection`, `JsonSchemas`: the schema language and its three interpreters. `MomentTexts`,
  `IssueMeaning`, `ProjectionFit` and `JsonSchemaLimits` say what dates, issues, answers and descriptions mean.
- `KeySources`, `KeySourceHistory`, `TokenTimes`, `SourceBlocks`: key fetching, token dates, and the block a source address counts by.
- `Paging`, `StaticPaging`, `Cursors`: pages over a changing table, walks over an unchanged one, and the cursors of the
  activity feeds.
- `Arguments`: the command line.

## What the code does not do

Some properties one would expect are false of the code. For each there is a concrete input and the exact condition under which
the property holds.

- The failure throttle is documented to stop a source after `maxFailures` failures. The server waits for the credential check
  between asking the throttle and recording a failure. The throttle's window keeps to `maxFailures` in every run if and only if
  at most one request of the source is ever between the two (`WindowLimitIff`); with `most` of them the exact limit is
  `maxFailures + most - 1` in a window of the throttle (`WindowLimitIsReached`) and `2 * (maxFailures + most - 1) - 1` in any
  interval of that length (`FailuresPerWindow`, `IntervalLimitIsReached`), and without a bound on them there is none
  (`ConcurrentLooksOvershoot`).
- An accepted value can be invalid under the published description. For every schema it is valid if and only if it `Fits`
  (`DescriptionAgrees`), and five things can be missing:
  - the parser counts UTF-16 code units and JSON Schema counts characters, so a text can be too short (`ShortByCharacters`);
  - the description publishes the source of a pattern without its flags: the avatar of a profile is accepted with its scheme in
    upper case and invalid under the description, exactly then (`AvatarNeedsLowerCase`, `UpperCaseUrl`);
  - a nullable enumeration accepts null, and null alone is invalid (`NullableEnumRefusesNull`);
  - a nullable free-form value has a description that lets only null through (`NullableJsonRefusesValues`);
  - a field that may be missing without being `optional` itself is described as required (`UnmarkedFieldIsRequired`).

  Under a schema without such parts every accepted value is valid (`PlainSchemasAgree`).
- A valid value can be refused by the parser. For every schema and every JSON value the two agree exactly but for those gaps and
  for what no keyword says, `Unsaid` (`DescriptionExact`): code units instead of characters (`LongByCodeUnits`), control characters
  (`ControlCharacter`), the flags of patterns, days and times that do not exist, forbidden names of entries, and the bounds of
  free-form values. For schemas of integers, booleans, enumerations, arrays and objects nothing is unsaid (`StructuralExact`).
- The rate limit does not bound the rate at which handlers start: `handle` awaits between the take and the handler, so bodies can be
  held back while their slots are kept and the bucket fills up. A key's handlers keep to burst + perSecond * time in every window if
  and only if the settings leave it no slot at all (`RateHoldsIffNoSlot`). Otherwise the exact limit is one more for each slot the
  key can have, the least of the limits per key, of the process and of requests in flight: it bounds every window, besides requests
  that are just then between limiter and gate (`HandlersPerWindow`), and windows of no length reach it (`LimitIsReached`). The takes
  themselves keep to the rate (`WindowBound`).
- `isRealMoment` refuses the moments of exactly one day that exists in the proleptic calendar, 29 February of the year 0
  (`RealMomentsExist`; `LeapDayOfYearZero` is such a text).
- The organization's activity feed ignores a cursor of more than 256 UTF-16 units and answers with the first page again, so a
  walk through such a row never ends; it ends exactly when no page but the last stops at such a row (`OrgFeedEndsIff`,
  `OrgFeedCanRepeatForever`). The lists whose cursor is a row's id or key as it is share the cut, with the same exact condition
  (`KeyListEndsIff`). The comment beside the global feed promises pages that stay correct, and for that feed they do
  (`ActivityFeedIsExact`).
- A handler that answers with one of the three codes reserved for refusals before the handler makes the client run it again
  (`DishonestHandlerRunsAgain`). A call that may not be repeated, with a retry allowed and a request that gets to the handler, runs
  it at most once in every world without answers of a proxy if and only if the handler keeps off these codes
  (`AtMostOnceIffHonest`). With proxies at-most-once holds too (`AtMostOnce`), unless one forwards the request and then answers with
  such a code itself (`ForwardingProxyRunsAgain`).
- Projecting an answer a second time fails exactly when it has a date outside the years 0000 to 9999 (`ProjectTwice`; `Year10000`
  is such a date).

## Model

| member | source | states |
|---|---|---|
| RateLimiting.RateLimiter.constructor | packages/server/src/limits.ts:34-40 | a new limiter knows no key; a fractional burst is rounded down |
| RateLimiting.RateLimiter.Take | packages/server/src/limits.ts:42-63 | one take refills, decides, moves its key to the end of the map and evicts the oldest keys over the limit |
| RateLimiting.TakeIsSound | packages/server/src/limits.ts:42-63 | buckets stay between 0 and the burst, no later than the clock, at most maxEntries of them |
| RateLimiting.RunIsSound | packages/server/src/limits.ts:42-63 | the same over every run of a nondecreasing clock |
| RateLimiting.LazyRefillIsContinuous | packages/server/src/limits.ts:46-47 | refilling at the next take is the same as refilling all along |
| RateLimiting.RetryAfterIsExact | packages/server/src/limits.ts:53-55 | waiting the answered seconds brings a whole token, and no smaller positive whole number of seconds is sure to |
| RateLimitingDecisions.RemainingCountsDown | packages/server/src/limits.ts:50-52 | the next take at the same instant is admitted if and only if `remaining` is not 0, and then says one less |
| RateLimitingDecisions.DecisionsAreWhole | packages/server/src/limits.ts:50-55 | the limit is the burst, `remaining` is below it, and a wait is named to those who are refused and nobody else |
| RateLimitingDecisions.NewKeyHasBurst | packages/server/src/limits.ts:44 | a key the limiter does not know has a whole burst |
| RateLimitingRuns.WaitingIsEnough | packages/server/src/limits.ts:42-63 | after a refusal, the take made once the answered seconds are over is admitted, whatever other takes came and were refused meanwhile |
| RateLimiting.TrackedWindow | packages/server/src/limits.ts:42-63 | while a key stays tracked, the takes admitted in a window fit its level at the start plus what the window earns |
| RateLimitingRuns.WindowBound | packages/server/src/limits.ts:42-63 | from any reachable state, a window in which fewer than maxEntries other keys take admits at most burst + perSecond * time of a key |
| RateLimitingRuns.OrderIsLastTaken | packages/server/src/limits.ts:45-61 | the map's keys, in order, are exactly the maxEntries most recently taken keys of the whole history |
| RateLimitingRuns.ForgottenAfterMaxEntriesOthers | packages/server/src/limits.ts:57-61 | a key is remembered if and only if fewer than maxEntries distinct other keys were taken since its own last take |
| RateLimitingRuns.RefusalsLeaveNoTrace | packages/server/src/limits.ts:46-56 | the bucket is the continuously refilled one that saw only the admitted takes: refused takes change nothing |
| SharedLimiting.SharedRateLimiter.constructor | packages/server/src/shared-limit.ts:35-38 | a new shared limiter holds no token and has no lease in flight |
| SharedLimiting.SharedRateLimiter.Attempt | packages/server/src/shared-limit.ts:41-50 | one turn of the loop up to its await, as a function of what is held and pending; `AttemptExact` says when it admits, refuses, joins and asks |
| SharedLimiting.SharedRateLimiter.LeaseArrives | packages/server/src/shared-limit.ts:65-72 | the granted tokens replace what was held, with their expiry or the cooling time of an empty grant |
| SharedLimiting.SharedRateLimiter.LeaseSettles | packages/server/src/shared-limit.ts:74-76 | the promise leaves the pending map and nothing else changes |
| SharedLimitingHistory.AttemptExact | packages/server/src/shared-limit.ts:41-50 | in every run from the start: admitted exactly while the last lease to arrive has tokens and is not 2 s old, refused exactly while it was empty and arrived less than max(100 ms, 1000/perSecond) ago, otherwise joined to a lease under way or asked for |
| SharedLimitingHistory.RefusalWaitIsExact | packages/server/src/shared-limit.ts:57 | in the seconds a refusal names a token is earned, and in one second less none is |
| SharedLimitingHistory.LeaseIsATenth | packages/server/src/shared-limit.ts:36 | a lease is the smallest whole number that is at least a tenth of the burst |
| SharedLimitingHistory.GrantIsLargest | packages/core/src/api/rate-limit.ts:42-46 | the store grants the largest number within the question and its level |
| SharedLimitingHistory.StoreFillsUp | packages/core/src/api/rate-limit.ts:42-46 | a bucket nobody asks fills up at its rate, to the burst and no further; an unknown one is full |
| SharedLimiting.AttemptedOk | packages/server/src/shared-limit.ts:40-50 | an attempt keeps: no spendable token while a lease flies, never more tokens than a lease |
| SharedLimiting.ArrivedOk | packages/server/src/shared-limit.ts:65-72 | the arrival of a lease keeps the same |
| SharedLimitingRuns.GrantConserves | packages/core/src/api/rate-limit.ts:42-46 | the store's bucket loses exactly what it grants, in whole tokens, never more than it holds |
| SharedLimitingRuns.StoreStep | packages/core/src/api/rate-limit.ts:42-46 | in one event the store's level plus what it grants is at most its level before plus what the time earned |
| SharedLimitingRuns.DrawnFitsBucket | packages/core/src/api/memory.ts:197-207 | whatever all processes draw of a key fits the bucket's level and what the time earns |
| SharedLimitingRuns.SharedWindow | packages/server/src/shared-limit.ts:19-80 | N processes together admit at most burst + perSecond * time + N * lease requests of a key in any interval, whatever the interleaving and the processes' clocks |
| SharedLimitingRuns.TotalWithFallbacks | packages/server/src/shared-limit.ts:51-54 | with the fallbacks' answers: N processes admit at most that and, each, its own burst and what its own clock earns, however often the store fails |
| SharedLimitingRuns.AdmittedWereGranted | packages/server/src/shared-limit.ts:40-80 | over any run, admissions come out of what was held at the start or drawn since |
| SharedLimitingRuns.AdmissionsNeverExceedGrants | packages/server/src/shared-limit.ts:40-80 | from the start, store-backed admissions of a key never exceed the tokens granted for it |
| SharedLimitingRuns.OneLeaseAtATime | packages/server/src/shared-limit.ts:60-79 | in every reachable state a key with a lease in flight has no spendable token, and the store is asked only when none is in flight |
| SharedLimitingRuns.StepConserves | packages/server/src/shared-limit.ts:40-80 | in each event, tokens granted are admitted, kept or dropped by expiry, overwriting, eviction or a failed lease |
| SharedLimitingRuns.TokensAreConserved | packages/server/src/shared-limit.ts:40-80 | the same ledger over every run |
| SharedLimitingRuns.EmptyLeaseCools | packages/server/src/shared-limit.ts:67 | an empty grant starts a cooling time of at least 100 ms and one token's time |
| SharedLimitingRuns.NoQuestionWhileCooling | packages/server/src/shared-limit.ts:47-49 | until then the process asks no new lease for the key unless it forgot the entry |
| Concurrency.Slot.constructor | packages/server/src/limits.ts:91-92 | a slot starts unreleased |
| Concurrency.ConcurrencyGate.constructor | packages/server/src/limits.ts:78-82 | a new gate counts nothing |
| Concurrency.ConcurrencyGate.Acquire | packages/server/src/limits.ts:85-92 | a slot is given out exactly while fewer than the limits of the key and of the process are unreleased, and then both counters rise by one |
| Concurrency.ConcurrencyGate.Release | packages/server/src/limits.ts:93-100 | the first release takes one off both counters, any further one changes nothing |
| Concurrency.StepOk | packages/server/src/server.ts:260-477 | every step of the request state machine keeps the counters equal to the requests that hold slots or are counted |
| Concurrency.RunOk | packages/server/src/server.ts:260-477 | the same over every run |
| Concurrency.ReachableIsBounded | packages/server/src/server.ts:295-477 | at every await: handlers working for a key, answered ones included, are at most the key's limit; the gate's counters are the sums of unreleased slots; the requests in flight stay bounded and both return to 0 when no request is left |
| RequestHandling.RequestServer.constructor | packages/server/src/server.ts:214-242 | a new server has no request in flight |
| RequestHandling.RequestServer.Arrive | packages/server/src/server.ts:260-262 | a request is counted, or refused and uncounted at once when there are too many |
| RequestHandling.RequestServer.AskSlot | packages/server/src/server.ts:295-297 | the gate's verdict decides whether the request goes on with a slot of its own or is over |
| RequestHandling.RequestServer.StartHandler | packages/server/src/server.ts:445 | the handler starts and the slot becomes its |
| RequestHandling.RequestServer.Finish | packages/server/src/server.ts:466-477 | the `finally` block uncounts the request and gives back a slot that no handler has, once |
| RequestHandling.RequestServer.Refuse | packages/server/src/server.ts:265-296 | a refusal before the slot is the step of the state machine that uncounts the request |
| RequestHandling.RequestServer.Reject | packages/server/src/server.ts:299-412 | a refusal with a slot gives the slot back and uncounts the request |
| RequestHandling.RequestServer.SendAnswer | packages/server/src/server.ts:446-477 | an answer uncounts the request and leaves the slot with the handler |
| RequestHandling.RequestServer.HandlerSettles | packages/server/src/server.ts:470-476 | the slot, not given back before, goes back when the handler's promise settles |
| FailureThrottling.FailureThrottle.constructor | packages/server/src/limits.ts:128-131 | a new throttle blocks nobody |
| FailureThrottling.FailureThrottle.BlockedFor | packages/server/src/limits.ts:134-143 | the seconds to wait, and an expired window is forgotten |
| FailureThrottling.FailureThrottle.RecordFailure | packages/server/src/limits.ts:145-159 | a failure counts in its window or opens a new one at the end of the map, and the oldest entries go |
| FailureThrottling.BlockedExactly | packages/server/src/limits.ts:134-143 | blocked if and only if a window of the source is open and full; waiting the seconds it is told is enough, one second less is not |
| FailureThrottling.FailureKeepsOldestFirst | packages/server/src/limits.ts:145-159 | the map stays ordered by window start, so what eviction drops is a window no other is older than |
| FailureThrottling.LookKeepsOldestFirst | packages/server/src/limits.ts:134-143 | looking keeps that order |
| FailureThrottling.FailuresPerWindow | packages/server/src/server.ts:266-287 | an interval of one window length sees at most 2 * (maxFailures + most - 1) - 1 failures of a source, `most` its requests between look and verdict; 2 * maxFailures - 1 one at a time |
| FailureThrottling.ConcurrentLooksOvershoot | packages/server/src/server.ts:266-287 | n requests that looked before the first verdict all record a failure, for every n |
| FailureThrottlingLimits.CountIsBounded | packages/server/src/server.ts:266-287 | with at most `most` requests between look and verdict a window never counts more than maxFailures + most - 1 |
| FailureThrottlingLimits.WindowLimitIsReached | packages/server/src/server.ts:266-287 | for every setting and every `most` a run that respects it counts exactly that many in one window |
| FailureThrottlingLimits.WindowLimitIff | packages/server/src/server.ts:266-287 | every window keeps to maxFailures in every such run if and only if `most` is at most one, or the throttle remembers nobody |
| FailureThrottlingLimits.IntervalLimitIsReached | packages/server/src/server.ts:266-287 | the bound on an interval of one window length is reached for every setting |
| FailureThrottlingEviction.FewOthersAreFair | packages/server/src/limits.ts:133-159 | while fewer than maxEntries other sources fail, or have a window behind the source's, none of its windows is evicted |
| FailureThrottlingEviction.FailuresPerInterval | packages/server/src/server.ts:266-287 | so after any run the bound on an interval holds under that condition, with no assumption on evictions |
| Pipeline.UpFrontMeansNotRun | packages/server/src/server.ts:260-448 | read from the order of checks: an up-front code means the handler did not run |
| Pipeline.HandlerRunsOnlyAfterEveryCheck | packages/server/src/server.ts:243-448 | read from the order of checks; `HandlerRunsIff` is the equivalence |
| Pipeline.StrangersLearnNothing | packages/server/src/server.ts:265-303 | without a client the answer is fixed by the earlier facts |
| Pipeline.ThrottledSourceLearnsNothing | packages/server/src/server.ts:266-267 | a throttled source's answer does not depend on the credential |
| Pipeline.HonestyIsExact | packages/server/src/server.ts:415-463 | once a handler ran, the answer's code is up-front exactly when the handler's is |
| PipelineChecks.HandlerRunsIff | packages/server/src/server.ts:243-463 | a handler runs if and only if the target, the limits, the caller, the route, the actor and the input pass, and its result is what is answered |
| PipelineChecks.FirstFailureAnswers | packages/server/src/server.ts:243-415 | of the 37 checks the first to fail decides: its status, code and wait are answered, and no handler runs |
| ClientRetry.OneTurn | packages/client/src/client.ts:309-341 | one attempt ends the call or asks for another, never beyond the retries nor with a wait over the limits |
| ClientRetry.SleepFor | packages/client/src/client.ts:346 | the pause is the one asked for or a random part of the doubled backoff, at most 30 seconds |
| ClientRetry.Call | packages/client/src/client.ts:300-348 | the loop makes between 1 and retries + 1 attempts, pauses after each as its turn asks, and does what the recursive conversation says |
| ClientRetry.EveryPause | packages/client/src/client.ts:346 | each pause keeps the limits and is the one its turn asks for |
| ClientRetryEnds.TurnExact | packages/client/src/client.ts:309-341 | a turn goes on if and only if a retry is left and no answer came to a repeatable call, or a problem that may pass and asks for no longer wait than the time limit |
| ClientRetryEnds.FirstOtherDecides | packages/client/src/client.ts:300-348 | the call ends with the first exchange that does not go on, and returns or throws what that one says |
| ClientRetryEnds.OutlivesFailures | packages/client/src/client.ts:300-348 | a repeatable call gets over failures that pass, up to its retries, and returns what the first success says |
| ClientRetry.OnlyUpFrontRefusalsAreRepeated | packages/client/src/client.ts:326-340 | a call that may not be repeated goes on only after an exchange that ran no handler |
| ClientRetry.AtMostOnce | packages/client/src/client.ts:295-348 | over the whole loop the handler runs at most once for such a call, and then for the last request, whatever the network does, but for a proxy that forwarded the request and answers an up-front code itself |
| ClientRetry.ChangesHappenAtMostOnce | packages/client/src/client.ts:289-295 | which calls may not be repeated: a change without an idempotency key, given or added; for these the handler runs at most once |
| ClientRetry.DishonestHandlerRunsAgain | packages/client/src/client.ts:326-333 | a handler that answers an up-front code itself runs on every attempt left |
| ClientRetry.AtMostOnceIffHonest | packages/client/src/client.ts:326-333 | for a request that gets to the handler and at least one retry: at most one run in every world of the network, proxies' own answers aside, if and only if the handler keeps off the up-front codes |
| ClientRetry.ForwardingProxyRunsAgain | packages/client/src/client.ts:326-333 | a proxy that forwards the request and answers an up-front code makes the handler run on every attempt left |
| HandlerStarts.StartsWereAdmitted | packages/server/src/server.ts:290-445 | over any run, handlers that start for a key and requests still on the way to theirs are at most those on the way at the start and the takes admitted since |
| HandlerStarts.StartsPerWindow | packages/server/src/server.ts:290-445 | in a window in which fewer than maxEntries other keys take, starts are at most burst + perSecond * time and the requests that were between take and start when it opened |
| HandlerStarts.WaitersAreBounded | packages/server/src/server.ts:290-445 | those requests are at most the slots the key can have and the ones between limiter and gate, and at most the requests in flight |
| HandlerStarts.HandlersPerWindow | packages/server/src/server.ts:290-445 | after any run of the server at most burst + perSecond * time handlers and one for each slot a key can have start for it in such a window, besides the requests between limiter and gate when it opens |
| HandlerBursts.LimitIsReached | packages/server/src/server.ts:290-445 | for every setting with a slot and every number of slots up to that limit, a run with exactly burst + slots starts at one instant, no other key and nothing between limiter and gate |
| HandlerBursts.RateHoldsIffNoSlot | packages/server/src/server.ts:290-445 | every window of every run keeps to burst + perSecond * time starts of a key if and only if the settings leave it no slot |
| ServerRuns.HandlersWereAdmitted | packages/server/src/server.ts:290-295 | over any run of requests, each with the pipeline's facts about it, every request that gets to a handler has an admitted take of its own |
| ServerRuns.HandlersOfTakesInWindow | packages/server/src/server.ts:290-448 | of the requests whose take falls in a window in which fewer than maxEntries other keys take, at most burst + perSecond * time get to a handler, whenever it starts |
| ServerRuns.FindMatching | packages/server/src/server.ts:300-302 | the loop over the routes decides between match, other methods and none as the existence of matching routes does |
| ServerRuns.PrintedCallIsServed | packages/server/src/server.ts:244-303 | a call the client prints is answered as the rest of the pipeline answers it, or with 404 before anything else exactly when a value has a backslash, the target is over 2048 or its query has a fragment |
| PercentEncoding.DecodeEncode | packages/client/src/client.ts:231 | decoding undoes the percent-encoding of any text (section 2.1 of RFC 3986) |
| PercentEncoding.EncodeIsTame | packages/client/src/client.ts:231 | an encoded value has no character that means something in a path, a query or a replacement |
| PercentEncoding.EncodeBad | packages/server/src/server.ts:69 | an encoded value has an escape the target check refuses if and only if the value has a backslash |
| PercentDecoding.DecodeExact | packages/server/src/server.ts:124-130 | a text decodes to another if and only if each character stands there as itself or as the escapes of its UTF-8 form, in either case (RFC 3629) |
| Routing.ExecComplete | packages/server/src/route.ts:169-177 | a pattern finds every match of a path, with its captures |
| Routing.ExecSound | packages/server/src/route.ts:169-177 | what a pattern finds is a match |
| Routing.MatchRoute | packages/server/src/route.ts:217-233 | the first matching route of the method, else the methods of all routes that match, else nothing |
| Routing.ReplaceFillsFirst | packages/client/src/client.ts:231 | textual replacement of a name fills the first parameter of the template and touches nothing else |
| Routing.FillFirstFilled | packages/client/src/client.ts:226-232 | filling parameter after parameter gives the template filled with all values |
| Routing.PrintPath | packages/client/src/client.ts:225-232 | a path is printed if and only if no value is empty or a dot segment, and it is the template with the encoded values |
| OperationTable.OperationsClear | packages/client/src/generated.ts:1611-2860 | the table of 78 operations branches on distinct words, and nowhere on a word and a parameter that could be it |
| RoutingRoundTrip.OnePathOneOperation | packages/server/src/route.ts:217-233 | two patterns of such a table that match the same path are the same pattern |
| RoutingRoundTrip.PathAmbiguous | packages/server/src/server.ts:69 | the ambiguity check refuses a path if and only if it refuses one of its segments |
| RoutingRoundTrip.RefusedIffBackslash | packages/server/src/server.ts:244-251 | the target check refuses a printed path if and only if a value has a backslash, the target is over 2048 or its query has a fragment |
| RoutingRoundTrip.AcceptedSegmentDecodes | packages/server/src/server.ts:68-69 | a segment the check lets through never decodes to a dot segment or to anything with a backslash |
| RoutingRoundTrip.PrintedPathReachesItsOperation | packages/client/src/client.ts:225-232 | whatever the route order, the printed path matches its own operation only, and its captures decode to the values |
| RoutingRoundTrip.Deliver | packages/server/src/server.ts:300-381 | printing, routing and decoding deliver the operation and the values that were called with |
| Moments.RealMomentsExist | packages/server/src/schema.ts:186-196 | a text of the right shape is a real moment if and only if its day and time exist, but for 29 February of the year 0 |
| Moments.LeapDayOfYearZero | packages/server/src/schema.ts:186-196 | 0000-02-29T00:00:00Z has the right shape, its day exists and it is refused |
| MomentTexts.AcceptedTexts | packages/server/src/schema.ts:186-196 | the accepted texts: digits and separators in their places, up to nine digits of a fraction, a zone, and a day, time and offset that exist |
| MomentTexts.AcceptedDateShowsText | packages/server/src/schema.ts:245-251 | the parsed instant, moved by the offset the text states, is written as the date, the time and the fraction the text shows |
| MomentTexts.DayNumberByMarch | packages/server/src/schema.ts:195 | days are numbered as in Appendix B of RFC 3339, with years that begin in March |
| Moments.DayOfNumberExact | packages/server/src/schema.ts:195 | day numbers and existing calendar days are one to one |
| Moments.IsoTextReadsBack | packages/server/src/schema.ts:351-353 | the text written for an instant of the years 0 to 9999 reads back as that instant |
| Moments.SignedYearIsRefused | packages/server/src/schema.ts:186 | the text of any other instant does not have the accepted shape |
| Schemas.JsonBudget | packages/server/src/schema.ts:298-320 | without an issue a free-form value spends exactly its number of nodes, and it has none if and only if nodes, height, texts and keys are within bounds |
| Schemas.NoIssuesIffAccepted | packages/server/src/schema.ts:222-320 | parsing finds no issue if and only if the value satisfies the meaning of the schema |
| Parsing.Collector.constructor | packages/server/src/schema.ts:200-201 | a new collector is empty |
| Parsing.Collector.Add | packages/server/src/schema.ts:202-204 | an issue is kept while there are fewer than 20 |
| Parsing.Budget.constructor | packages/server/src/schema.ts:291 | a free-form value starts with no node counted |
| Parsing.ParseJson | packages/server/src/schema.ts:298-320 | the mutable budget and collector end up as the pure issues and node count say |
| Parsing.Parse | packages/server/src/schema.ts:222-296 | the collector gains exactly the value's issues, up to 20; without issues the result is the parsed value |
| Parsing.ParseInput | packages/server/src/schema.ts:216-220 | success if and only if the value satisfies the meaning of the schema, with the parsed value, whose dates are the instants their texts show (`AcceptedDateShowsText`); otherwise 1 to 20 issues, the first ones in order (`IssuesExact`) |
| IssueMeaning.IssuesExact | packages/server/src/schema.ts:222-296 | an issue is reported if and only if the part its path names has the fault its code names |
| IssueMeaning.JsonIssuesTell | packages/server/src/schema.ts:298-320 | each issue of a free-form value tells of a fault of the part it names, and that there are too many values only when there are |
| Projection.AcceptedIsAnswered | packages/server/src/schema.ts:334-383 | projecting what an accepted JSON value parsed to gives that value again, each date as the same instant; all other results are the subject of `AnsweredIffAnswerable` and `AnswerConforms` |
| ProjectionFit.AnsweredIffAnswerable | packages/server/src/schema.ts:335-383 | a result is answered if and only if it has what the schema declares, each part of the declared kind; otherwise the projection fails |
| ProjectionFit.AnswerConforms | packages/server/src/schema.ts:335-383 | an answer has the declared fields alone, in their order, lacks at most optional ones, has dates as text, and says what the result said |
| Projection.ProjectTwice | packages/server/src/schema.ts:334-383 | projecting an answer again gives it unchanged if and only if each of its dates is an instant of the years 0000 to 9999, and fails otherwise |
| Projection.FarDateFails | packages/server/src/schema.ts:346-353 | a date outside the years 0000 to 9999 is answered as a text that a second projection refuses |
| Projection.Year10000 | packages/server/src/schema.ts:346-353 | the first instant of the year 10000 is such a date |
| JsonSchemas.DescriptionAgrees | packages/server/src/schema.ts:394-464 | for every schema, an accepted value is valid under the published description if and only if its texts reach their minimum in characters, its texts and keys match the published sources, and no null, free-form value or missing field stands where the description has no room for it; refused values are the subject of `DescriptionExact` |
| JsonSchemas.PlainSchemasAgree | packages/server/src/schema.ts:394-464 | minimums of 0 or 1, patterns that lose nothing without their flags, `nullable` around plain types and `optional` as a field: every accepted value is valid |
| JsonSchemaLimits.DescriptionExact | packages/server/src/schema.ts:394-464 | for every schema and JSON value: accepted and fitting the description if and only if valid under it and satisfying what no keyword says |
| JsonSchemaLimits.StructuralExact | packages/server/src/schema.ts:394-464 | for schemas of integers, booleans, enumerations, arrays and objects: valid if and only if accepted, outside the nullable and required cases |
| JsonSchemaLimits.LongByCodeUnits | packages/server/src/schema.ts:230 | one character of two code units is valid with maximum 1 and refused |
| JsonSchemaLimits.ControlCharacter | packages/server/src/schema.ts:232 | a line feed is valid and refused |
| JsonSchemas.AvatarNeedsLowerCase | packages/server/src/routes/profiles.ts:15-24 | an accepted avatar is valid under its description if and only if it is null or its scheme is in lower case |
| JsonSchemas.UpperCaseUrl | packages/server/src/routes/profiles.ts:19 | an address that starts with HTTPS:// is accepted and invalid |
| JsonSchemas.ShortByCharacters | packages/server/src/schema.ts:231 | one character of two code units is accepted with minimum 2 and invalid under the description |
| JsonSchemas.NullableEnumRefusesNull | packages/server/src/schema.ts:409-413 | a nullable enumeration accepts null, and a value it accepts is valid under its description if and only if it is not null |
| JsonSchemas.NullableJsonRefusesValues | packages/server/src/schema.ts:409-413 | a nullable free-form value accepts everything its inner schema does and its description only null |
| JsonSchemas.UnmarkedFieldIsRequired | packages/server/src/schema.ts:437-446 | a nullable field around an optional schema may be missing for the parser and is required by the description |
| KeySources.SelectExact | packages/server/src/actor-token.ts:372-385 | with a key id the candidates are the fitting keys of that name; without one, the key when exactly one entry fits, and none otherwise |
| KeySources.CandidatesMayVerify | packages/server/src/actor-token.ts:372-385 | a key is a candidate if and only if its family, use, operations and algorithm, as far as it has them, let it verify |
| KeySources.KeySource.constructor | packages/server/src/actor-token.ts:283-297 | a new source has no keys and no fetch |
| KeySources.KeySource.Candidates | packages/server/src/actor-token.ts:300-312 | up to its await: answer from fresh keys, answer none between refreshes, or refresh |
| KeySources.KeySource.Refresh | packages/server/src/actor-token.ts:314-322 | join the fetch in flight, back off on keys that may still be used or fail, or start a fetch |
| KeySources.KeySource.FetchEnds | packages/server/src/actor-token.ts:324-351 | a good fetch replaces the keys, a bad one marks the failure; those who wait may use keys exactly after a good one or within the hour |
| KeySources.KeySource.PromiseSettles | packages/server/src/actor-token.ts:318-320 | the promise is cleared and nothing else changes |
| KeySources.FetchesAreSpaced | packages/server/src/actor-token.ts:300-351 | for any arrival of tokens fetches never overlap, each starts 30 s after the start of a good one before it and 5 s after the end of a bad one |
| KeySources.SpacedFromGood | packages/server/src/actor-token.ts:101-103 | the 30 s hold from every earlier good fetch, not only the last |
| KeySources.KeysAreRecent | packages/server/src/actor-token.ts:300-327 | in every reachable state keys handed out at once come from one fetch that ended within the cache time or the hour, and the call fails only when backing off without such keys |
| KeySources.AwaitedKeysAreRecent | packages/server/src/actor-token.ts:310-351 | those who waited for a fetch get keys as recent |
| KeySourceHistory.AnswersExact | packages/server/src/actor-token.ts:300-327 | in every reachable state, by the fetches so far: when keys answer and which, when a fetch is joined, when the call fails, and that in every other case a fetch starts |
| TokenTimes.AcceptedExactlyInWindow | packages/server/src/actor-token.ts:467-475 | the checks accept exactly in one half-open window fixed by the claims (sections 4.1.4 to 4.1.6 of RFC 7519) |
| TokenTimes.VerdictNamesTheFault | packages/server/src/actor-token.ts:467-475 | the reason of a refusal is so, and of the claims checked before it nothing is amiss |
| TokenTimes.AcceptedIsAnInterval | packages/server/src/actor-token.ts:467-475 | the accepting seconds have no hole |
| TokenTimes.AcceptedSpan | packages/server/src/actor-token.ts:467-475 | two accepting seconds are less than maxLifetimeSeconds + 3 * clockTolerance apart, 2 * clockTolerance without iat |
| TokenTimes.SpanIsReached | packages/server/src/actor-token.ts:475 | for all settings some claims are accepted at two seconds one short of that bound |
| SourceBlocks.GroupsOfPrint | packages/server/src/server.ts:93-96 | splitting a hexadecimal text, full or compressed, finds the eight groups it was written with |
| SourceBlocks.CanonicalGroup | packages/server/src/server.ts:97 | lower case and stripped zeros make the shortest text of the group's number |
| SourceBlocks.SameKeyIffSameBlock | packages/server/src/server.ts:90-98 | two IPv6 texts get the same key if and only if the addresses share their top 64 bits (section 2.2 of RFC 4291) |
| SourceBlocks.Ipv4CountsByAddress | packages/server/src/server.ts:90-92 | an IPv4 source counts by its whole address, mapped or not, and never together with an IPv6 block |
| Paging.PageExact | apps/studio/src/lib/queries.ts:226-229 | a page holds, in order, exactly the first rows after the cursor, as many as fit, and names its last row as the next cursor exactly when a row is left |
| Paging.Paginate | packages/client/src/client.ts:360-367 | the loop returns the items of page after page until one is the last or the consumer stops |
| Paging.NoRowTwice | packages/client/src/client.ts:360-367 | however the table changes between pages, rows come in strict order, so none twice, and each was in the table of its page |
| Paging.NoRowLost | packages/client/src/client.ts:360-367 | a finished walk returned every row that was there at each of its pages |
| StaticPaging.WalkByPosition | packages/client/src/client.ts:360-367 | searching after a cursor is going on from its position in the table |
| StaticPaging.StaticWalk | packages/client/src/client.ts:360-367 | over an unchanged table whose cursors are read, n pages are the first n * limit rows, and the walk ends as soon as those are all |
| StaticPaging.LostCursorStartsOver | apps/studio/src/lib/queries.ts:222-223 | a handed-out cursor that the next page does not read keeps the walk from ever ending |
| StaticPaging.WalkEndsIffCursorsAreRead | apps/studio/src/lib/queries.ts:222-229 | a walk over an unchanged table ends, with every row once in order, if and only if every cursor handed out is read |
| Cursors.CursorReadsBack | apps/studio/src/lib/queries.ts:734-745 | a cursor decodes to the row it was made from if and only if the id is not empty, underscores included, for every date |
| Cursors.ActivityFeedIsExact | apps/studio/src/lib/queries.ts:753-768 | the activity feed shows no entry twice and misses none that stayed, whatever is recorded meanwhile |
| Cursors.NewerIsStrictTotal | packages/core/src/storage/memory.ts:1372-1395 | newest first with ids breaking ties is a strict total order |
| Cursors.OrgFeedEndsIff | apps/studio/src/lib/queries.ts:684-693 | the organization's feed ends if and only if no page but the last stops at a row with a cursor over 256 |
| Cursors.OrgFeedCanRepeatForever | apps/studio/src/lib/queries.ts:684-693 | 26 entries with long ids are such a feed |
| Cursors.KeyListEndsIff | apps/studio/src/lib/queries.ts:222-223 | a list paged by the bare id or key of a row ends, with every row once, if and only if no page but the last stops at an empty key or one over 256 |
| Arguments.ParseArgs | packages/cli/src/cli/args.ts:28-70 | the index loop gives the flags and positionals, or the error, of reading item after item |
| Arguments.AcceptedIffWritten | packages/cli/src/cli/args.ts:28-70 | a command line is accepted if and only if it is the text of valid items with no flag twice, and with exactly their flags and positionals |
| Arguments.OneReading | packages/cli/src/cli/args.ts:32-62 | no command line can be taken apart in two ways |
| Arguments.OrderAndFormDoNotMatter | packages/cli/src/cli/args.ts:45-61 | flags may stand anywhere between the positionals and values in either form: what is read is the same |
| Arguments.ErrorNamesTheFault | packages/cli/src/cli/args.ts:35-70 | a refused command line is valid up to the token the error is about, and that token has the fault the error names |

## Left out

- RateLimiting.TrackedWindow: speaks of a key that stays tracked; an evicted key starts again with a full bucket, as in the code.
- Rounding: tokens, clocks and claims are exact reals, not floating-point numbers.
- Invalid settings: the RangeError of `RateLimiter` and the range checks of the other options are preconditions of the constructors.
- SharedLimiting.SharedRateLimiter.Attempt: is one turn of the two-turn loop of `take`; a request may make any number of turns in the runs, which includes two.
- SharedLimitingRuns.TotalWithFallbacks: takes the requests each fallback answers as any requests in the window; the throttled error report is left out.
- HandlerStarts.HandlersPerWindow: has the limiter of one process; behind a shared one the takes of the window are bounded by `SharedWindow` instead.
- Map keys are an abstract type with equality; the code only compares them.
- FailureThrottling.FailuresPerWindow: needs that no other source's failures evict the source, which `FewOthersAreFair` derives from their number, and that its clock does not go back.
- IssueMeaning.JsonIssuesTell: says nothing of which faults of a free-form value go unreported once its budget is spent.
- JsonSchemaLimits.DescriptionExact: takes `format: date-time` as the shape of a moment.
- ServerRuns.PrintedCallIsServed: the limits, the parsed input and the actor stay facts of the request there.
- Pipeline: credentials, OAuth, signatures, hashing, the engine, storages and handlers are facts a request comes with.
- Pipeline: the readiness probe's cache, logging, headers of the answer, body streaming, TLS and sockets are I/O.
- ClientRetry: header building, the credential callback's own failure and the query string are not modelled; `fetch` is any of the outcomes a network can have.
- Routing.PrintPath: the replacement patterns of `String.replace` need a `$`, which an encoded value never has (`EncodeIsTame`).
- Strings are sequences of Unicode scalar values; a lone surrogate, for which `encodeURIComponent` throws, does not occur.
- OperationTable: the operations are written as a tree by path prefix, which lists the same methods and paths as the flat table.
- Schemas: regular expressions are predicates, with and without their flags, except for the date format and the avatar's address.
- Projection: error paths and messages of `ResponseShapeError`, `-0`, inherited properties and array `length` as object fields are not modelled.
- Projection: object fields keep the order of insertion; JavaScript moves integer-like names to the front.
- Moments: what `Date.parse` makes of a moment that does not exist is a parameter, used by `Project` alone.
- JsonSchemas: `$ref` names, `description` and `example` are left out; what a validator makes of a pattern's source is a predicate.
- KeySources: the body of a fetch (size, status, JSON, importing keys) is the outcome of the fetch; configured static keys only use `Select`.
- TokenTimes: signature, audience, subject and scope checks are not part of the window.
- SourceBlocks.SameKeyIffSameBlock: covers texts made of hexadecimal groups; a dotted IPv4 tail counts as one group in the code and a zone index is not looked at.
- Paging: the storage's search is the ordered rows after a cursor, up to a limit; filters only choose the table.
- Cursors.CursorReadsBack: `new Date` of texts `toISOString` does not write is a parameter.
- Arguments: an option named `__proto__` (where the code would not notice a repetition) and the order of the flags record are not modelled.
- The studio's total counts, its pages and actions, the web framework adapters, configuration, the code generator and the OpenAPI document would add only thin wrappers.
- The engine, policies, teams and the audit chain of the core are another subsystem.
