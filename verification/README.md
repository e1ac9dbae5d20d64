# NexConnect: a verified model of its stateful and arithmetic kernels

NexConnect is a WhatsApp messaging platform: an API service, a worker that holds the
connections, and shared libraries, over Redis, a database and job queues. This project models
the parts whose behaviour spans many calls, and proves what they keep over every run.

Redis, the database and the queues are maps, sets and sequences; every operation takes the
instants at which it reads the clock. Objects that the source updates in place are classes whose
methods are proved equal to a step function on values, and the theorems are about all runs of
those steps.

| module | source | subject |
|---|---|---|
| `CircuitBreaking` | `libs/shared/src/resilience/circuit-breaker.ts` | the breaker as an interleaved protocol and as a serial one |
| `HttpRetry` | `libs/shared/src/http/http-client.ts` | the retry loop over a breaker that other requests share |
| `Reconnecting` | `apps/worker/src/connection/reconnection.service.ts` | back-off timers with a cooldown circuit |
| `RateWindows` | `libs/redis/src/redis.service.ts` and its users | fixed-window counters and sliding intervals |
| `Buffering` | `apps/worker/src/pipeline/stages/buffer.stage.ts` | the inbound buffer refines a greedy segmenter |
| `InboundPipeline` | `apps/worker/src/pipeline/` | deduplication, sequential stages, forwarding, retries |
| `InboundTexts` | `apps/worker/src/pipeline/` | both together: when every received text reaches the webhooks |
| `Broadcasts` | `apps/api/src/modules/broadcasts/` | weighted variants crossed with round-robin instances |
| `SendWindows` | `apps/api/src/modules/scheduling/scheduling.service.ts` | moving an instant into a daily window |
| `ScheduledMessages` | the same file | rows and delayed jobs kept beside each other |
| `Blacklists` | `apps/api/src/modules/instances/blacklist.service.ts` and the worker's anti-spam service | two caches over one table |
| `TwilioClients` | `apps/api/src/modules/twilio/twilio-client.factory.ts` | a 32-bit rolling hash as a cache key |
| `IpAllowlist` | `apps/api/src/common/guards/ip-allowlist.guard.ts` | CIDR matching on 32-bit words |

`Arithmetic`, `Intervals`, `JsNumbers` (32-bit conversions and bit operations), `JsText`
(`trim`, `split`, `parseInt`) and `Wrappers` are shared.

## Where the code does not do what it says

- The half-open limiter bounds the probes of one half-open episode, not the probes in flight:
  its return to OPEN can be left again at once (`ElapsedOpenAdmits`, `ProbesUnboundedIff`,
  `EpisodeBound`). A closed breaker is below its threshold exactly when the threshold is at least
  1 (`ClosedBelowThresholdIff`).
- A 5xx response is a success to the breaker, so a server that only fails that way never opens
  it (`AnswersKeepClosed`). What opens it, exactly, is a row of network errors as long as the
  threshold (`BreakerStaysClosedIff` with other requests interleaved, `RequestOpensIff` for
  requests one after another). A body that cannot be decoded is retried as a network error.
- Cancelling a reconnection clears one timer. An overwritten timer and an attempt that is already
  running go on; the exact condition is `CancelStopsIff`.
- A window counter passes up to 2 * limit - 1 in an interval as long as its window, no more, and
  that much for every window and limit (`SlidingIntervalBound`, `BoundIsAttained`); the limit
  itself is kept exactly when it is at most 1 (`LimitKeptIff`). What is really uploaded keeps that
  bound exactly when no size may be negative (`UploadBoundIff`): otherwise any amount passes
  (`NegativeIncrementsDefeatTheLimit`).
- A comment in the buffer stage says that a pending buffer interrupted by a message of another
  type will be processed separately. It is dropped, and so is one that is found expired or that
  expires in silence, as no timer flushes it. Texts leave the buffer unsent exactly in these
  ways (`LossesExact`, `NoTextLostIff`, `OtherTypeDropsText`, `SilenceDropsText`).
- A flush empties the buffer before the later stages run: if the job then fails, all texts of
  the group are gone for good (`FailedFlushLosesGroup`). When every received text reaches the
  webhooks is `EveryTextArrivesIff`.
- A retry within the hour never forwards what a failed first attempt did not. All deliveries of a
  message are made exactly when it has no webhook or its first attempt completes
  (`AllDeliveredIff`, `FailedMessageIsLost`).
- `adjustToSendWindow` is right exactly on a server that runs in UTC (`AdjustmentRightIff`),
  windows that end before they start never open (`AdjustedInWindowIff`).
- A content-only edit of a scheduled message does not change what is sent (`ContentEditNotSent`).
- The worker's automatic blacklisting keeps the API's answers right exactly when no live field of
  the API's hash says "not blocked" (`WorkerBlockAnswersIff`); otherwise no time bounds the wrong
  answer (`StaleAnswerOutlivesAnyBound`).
- The comment on the Twilio factory says that rotating an auth token invalidates the cache key.
  Without an API key, the new token gets a client that uses it exactly when the first token the
  account ever used among those whose base-31 polynomial is congruent to its own modulo 2^32, if
  there is one, is the same token (`TokenRotation`, `TwoChangesCollide`). With an API key, the
  account, secret and token of its first call go on being used for every later one
  (`SecretRotation`, `SharedApiKeyCrossesAccounts`).
- Weighted variants meet every instance by weight exactly when the pool size is coprime to 100
  (`ExactIffCoprime`).

## Model

| member | source | states |
|---|---|---|
| `CircuitBreaking.CircuitBreaker.BeginExecute` | libs/shared/src/resilience/circuit-breaker.ts:46-63 | The synchronous part of a call: which states admit it, the move out of an elapsed OPEN, the limiter's rejection, and the whole new state |
| `CircuitBreaking.CircuitBreaker.OnSuccess` | libs/shared/src/resilience/circuit-breaker.ts:85-90 | A completion closes only a half-open breaker, whatever state the call began in |
| `CircuitBreaking.CircuitBreaker.OnFailure` | libs/shared/src/resilience/circuit-breaker.ts:92-104 | A failure restarts the timeout in every state and opens from HALF_OPEN or at the threshold |
| `CircuitBreaking.CircuitBreaker.Execute` | libs/shared/src/resilience/circuit-breaker.ts:46-73 | A call that nothing overlaps is one step of the serial machine |
| `CircuitBreaking.InvHolds` | libs/shared/src/resilience/circuit-breaker.ts:46-121 | Under every interleaving of begins, completions and resets the probe counter stays within the limit and is zero when closed |
| `CircuitBreaking.ClosedBelowThresholdIff` | libs/shared/src/resilience/circuit-breaker.ts:92-104 | A closed breaker is below its failure threshold in every run if and only if the threshold is at least 1 |
| `CircuitBreaking.StaysClosedIff` | libs/shared/src/resilience/circuit-breaker.ts:85-104 | Under every interleaving a closed breaker stays closed throughout if and only if at no point the failures completed since the last success or reset reach the threshold |
| `CircuitBreaking.OpenRejectsUntilTimeout` | libs/shared/src/resilience/circuit-breaker.ts:47-53 | Once open, no call is admitted before the timeout after the last failure, whatever calls in flight do; only a reset changes that |
| `CircuitBreaking.OpenAdmitsIff` | libs/shared/src/resilience/circuit-breaker.ts:46-108 | After every interleaving an open breaker admits a call if and only if the failure that completed last, read off the events, is a full timeout old and a probe is allowed |
| `CircuitBreaking.ResetForgets` | libs/shared/src/resilience/circuit-breaker.ts:80-83 | From whatever state, a reset breaker goes on as a new one does, in every continuation |
| `CircuitBreaking.ProbeDecides` | libs/shared/src/resilience/circuit-breaker.ts:85-104 | The first completion of a half-open episode decides: a success leaves what no continuation tells from a new breaker, a failure an open one |
| `CircuitBreaking.LimiterCycle` | libs/shared/src/resilience/circuit-breaker.ts:47-63 | From any phase of an elapsed half-open cycle, the exact number of admitted calls |
| `CircuitBreaking.ElapsedOpenAdmits` | libs/shared/src/resilience/circuit-breaker.ts:47-63 | From an elapsed OPEN with nothing completing, n calls admit exactly n - floor(n / (limit + 1)) |
| `CircuitBreaking.ProbesUnboundedIff` | libs/shared/src/resilience/circuit-breaker.ts:55-58 | No number bounds the probes in flight if and only if at least one probe is allowed |
| `CircuitBreaking.EpisodeBound` | libs/shared/src/resilience/circuit-breaker.ts:55-63 | Within one half-open episode at most the remaining probes are admitted |
| `CircuitBreaking.EpisodeAdmits` | libs/shared/src/resilience/circuit-breaker.ts:55-63 | The remaining probes of an episode are all admitted, at whatever times they come |
| `CircuitBreaking.SerialRefinesTwoState` | libs/shared/src/resilience/circuit-breaker.ts:46-121 | Calls that do not overlap see a two-state machine: same admissions, HALF_OPEN never visible between calls, the limiter never fires |
| `CircuitBreaking.OpenIffTrailingFailures` | libs/shared/src/resilience/circuit-breaker.ts:92-104 | After a serial run the breaker is open if and only if the admitted calls end in at least threshold many failures |
| `CircuitBreaking.NoProbesNoRecovery` | libs/shared/src/resilience/circuit-breaker.ts:55-58 | With no probe allowed an open breaker stays open and rejects everything until a reset |
| `HttpRetry.ComputeBackoffMs` | libs/shared/src/http/retry.strategy.ts:14-41 | No wait exceeds the maximum, with or without jitter and Retry-After |
| `HttpRetry.BackoffGrows` | libs/shared/src/http/retry.strategy.ts:30-37 | Without jitter and header, later waits are not shorter for multipliers of at least 1 |
| `HttpRetry.BackoffMultiplies` | libs/shared/src/http/retry.strategy.ts:30-37 | Without jitter and header, the first wait is the initial one and each further wait the multiple of the last, up to the maximum |
| `HttpRetry.JitterRange` | libs/shared/src/http/retry.strategy.ts:39-40 | With jitter, the wait is the plain one scaled by 0.5 to 1.5 and rounded to the nearest millisecond, or the maximum |
| `HttpRetry.HeaderHonoured` | libs/shared/src/http/retry.strategy.ts:19-28 | A Retry-After in seconds or as a date is met to the millisecond unless the maximum is shorter; a date in the past means no wait |
| `HttpRetry.HttpClient.Request` | libs/shared/src/http/http-client.ts:38-109 | The retry loop equals its recursive description on breaker, passes, waits and verdict, while other requests drive the shared breaker before and during every fetch |
| `HttpRetry.RequestAccounts` | libs/shared/src/http/http-client.ts:48-108 | At most maxAttempts passes, one wait fewer, no wait above the maximum; a retryable status, and where network errors are retried a failure too, only from the last attempt; the final throw if and only if maxAttempts < 1 |
| `HttpRetry.RequestJustified` | libs/shared/src/http/http-client.ts:56-99 | Whatever the breaker and other requests do, a request goes on after a retryable fetch only, for as long as that fetch asks, and reports the decodable answer or the failure of the fetch it stopped at |
| `HttpRetry.FinalFetchEnds` | libs/shared/src/http/http-client.ts:56-62 | A request that makes a fetch that is not retryable ends with it: a decodable answer is returned as it is |
| `HttpRetry.TotalWaitBound` | libs/shared/src/http/http-client.ts:64-99 | A request sleeps at most (maxAttempts - 1) * maxBackoffMs, even with Retry-After headers |
| `HttpRetry.RequestIsRun` | libs/shared/src/http/http-client.ts:48-101 | The breaker that a request leaves is that of the interleaved protocol on its own steps and those of the requests that share it |
| `HttpRetry.BreakerStaysClosedIff` | libs/shared/src/http/http-client.ts:48-101 | While a request runs among others, the breaker stays closed if and only if at no point the network errors since the last answer or reset reach the threshold |
| `HttpRetry.AnswersKeepClosed` | libs/shared/src/http/http-client.ts:51-62 | Without a network error of this or another request, whatever statuses are answered, the breaker stays closed and rejects nothing |
| `HttpRetry.RequestIsSerial` | libs/shared/src/http/http-client.ts:48-101 | From whatever state it finds, an undisturbed request is to the breaker a serial run of its turns: an answer of any status a success, a network error a failure |
| `HttpRetry.RequestOpensIff` | libs/shared/src/http/http-client.ts:48-101 | An undisturbed request leaves the breaker open if and only if the fetches let through in the whole history end in at least threshold many network errors |
| `HttpRetry.OutageTripsBreaker` | libs/shared/src/http/http-client.ts:73-100 | In an outage, with retries enabled, a closed breaker, nothing overlapping and waits below the timeout, a request makes min(attempts left, failures left to the threshold) fetches, and which of the two it meets decides its error and whether it opened the breaker |
| `Reconnecting.CalculateDelay` | apps/worker/src/connection/reconnection.service.ts:106-116 | The delay lies in the 30% above the capped exponential, below 78 seconds |
| `Reconnecting.DelaysDouble` | apps/worker/src/connection/reconnection.service.ts:107-112 | The delays double from one second up to one minute |
| `Reconnecting.JitterReaches` | apps/worker/src/connection/reconnection.service.ts:113-115 | Every whole delay of the 30% above does come up for some random value |
| `Reconnecting.ReconnectionService.IsCircuitOpen` | apps/worker/src/connection/reconnection.service.ts:118-134 | An open circuit closes itself, with its attempts forgotten, once cooled down |
| `Reconnecting.ReconnectionService.ScheduleReconnection` | apps/worker/src/connection/reconnection.service.ts:22-63 | The record, the timers and the returned delay in every branch; attempts never exceed 10 |
| `Reconnecting.ReconnectionService.Settle` | apps/worker/src/connection/reconnection.service.ts:50-62 | A reconnection that throws reschedules; one that succeeds does not |
| `Reconnecting.ReconnectionService.CancelReconnection` | apps/worker/src/connection/reconnection.service.ts:65-74 | Drops the record and at most its last timer |
| `Reconnecting.ReconnectionService.ResetAttempts` | apps/worker/src/connection/reconnection.service.ts:76-83 | Closes the circuit and forgets the attempts, leaving timers alone |
| `Reconnecting.RunPaced` | apps/worker/src/connection/reconnection.service.ts:22-63 | Over every run, starts before the current block of attempts are a full cooldown old |
| `Reconnecting.AtMostTenStartsPerCooldown` | apps/worker/src/connection/reconnection.service.ts:22-63 | Without a reset or cancel of the instance, every half-open 300000 ms interval holds at most 10 timer starts, whatever timers overlap |
| `Reconnecting.CooledDownIff` | apps/worker/src/connection/reconnection.service.ts:28-43 | An open circuit starts a timer if and only if it was opened 300 s ago, and then its instance starts over: one attempt, a closed circuit, a delay of 1 to 1.3 s |
| `Reconnecting.ClosedCircuitSchedules` | apps/worker/src/connection/reconnection.service.ts:36-42 | A closed circuit starts a timer if and only if fewer than 10 attempts were made, and else opens now |
| `Reconnecting.ZeroNeverCools` | apps/worker/src/connection/reconnection.service.ts:123-133 | A circuit opened at instant 0 never cools down |
| `Reconnecting.ResetStartsOver` | apps/worker/src/connection/reconnection.service.ts:76-83 | After a reset the next schedule is a first one, whatever came before |
| `Reconnecting.QueryIsTransparent` | apps/worker/src/connection/reconnection.service.ts:85-88 | Asking says whether a schedule now would find the circuit open, and changes nothing for it |
| `Reconnecting.StartsAreRequested` | apps/worker/src/connection/reconnection.service.ts:50-62 | No more timers are started than were asked for by schedules and failed attempts: none by a success |
| `Reconnecting.FailingChain` | apps/worker/src/connection/reconnection.service.ts:36-62 | If every attempt throws: exactly 10 timers, each below 78 s, at least 303 s in all, then an open circuit with nothing pending and other instances untouched |
| `Reconnecting.ChainResumesIff` | apps/worker/src/connection/reconnection.service.ts:22-63 | After such a chain a schedule starts nothing until 300 s after the opening, and the first one from then on starts a new chain |
| `Reconnecting.ChainDelays` | apps/worker/src/connection/reconnection.service.ts:36-62 | The same count and bounds from any number of attempts already made |
| `Reconnecting.ThrownIsSettled` | apps/worker/src/connection/reconnection.service.ts:50-62 | One link of the chain is the service's own firing and failing |
| `Reconnecting.CancelStopsIff` | apps/worker/src/connection/reconnection.service.ts:65-74 | Cancelling leaves nothing pending if and only if no other timer of the instance was live and no attempt of it was running |
| `Reconnecting.OverwrittenTimerSurvivesCancel` | apps/worker/src/connection/reconnection.service.ts:50-71 | Two overlapping schedules do leave a timer that a cancel misses |
| `Reconnecting.RunningAttemptOutlivesCancel` | apps/worker/src/connection/reconnection.service.ts:50-71 | An attempt that was running at a cancel starts a new chain when it fails |
| `RateWindows.RedisService.IncrWithTtl` | libs/redis/src/redis.service.ts:114-126 | One atomic increment with expiry on creation, over missing, live and expired keys |
| `RateWindows.RedisService.IncrbyWithTtl` | libs/redis/src/redis.service.ts:131-144 | The same by any amount |
| `RateWindows.EveryCounterExpires` | libs/redis/src/redis.service.ts:109-126 | No interleaving of the scripts, with any increments, leaves a counter without expiry |
| `RateWindows.RunAccounted` | libs/redis/src/redis.service.ts:114-144 | The account of a counter against any fixed interval, kept by every hit in time order |
| `RateWindows.SlidingIntervalBound` | libs/redis/src/redis.service.ts:114-144 | Each window passes at most the limit and every half-open interval of a window's length at most 2 * limit - 1, in requests or bytes |
| `RateWindows.BoundIsAttained` | apps/api/src/common/guards/rate-limit.guard.ts:137-160 | For every window length and positive limit, a run around an expiry passes exactly 2 * limit - 1 within one window length |
| `RateWindows.LimitKeptIff` | apps/api/src/common/guards/rate-limit.guard.ts:137-160 | Every run keeps every such interval within the limit itself if and only if the limit is at most 1 |
| `RateWindows.NegativeIncrementsDefeatTheLimit` | apps/api/src/modules/messages/stages/media-preparation.stage.ts:43-55 | With negative sizes, n uploads of any size within the limit pass at one instant, for every n |
| `RateWindows.UploadBoundIff` | apps/api/src/modules/messages/stages/media-preparation.stage.ts:43-55 | With non-zero sizes from m on, the positive bytes passed keep the sliding bound in every run if and only if m is not negative |
| `RateWindows.BuildConfigs` | apps/api/src/common/guards/rate-limit.guard.ts:72-135 | Which counters a request is held to, in which order, and that no two share a key |
| `RateWindows.CountersIdentify` | apps/api/src/common/guards/rate-limit.guard.ts:98-132 | Requests share a counter if and only if they are of the same API key, the same instance, or the same instance and recipient |
| `RateWindows.InstanceIsFirstParameter` | apps/api/src/common/guards/rate-limit.guard.ts:108-109 | The instance is the `instanceId` parameter, or else `id` |
| `RateWindows.DefaultLimits` | apps/api/src/common/guards/rate-limit.guard.ts:29-33 | The requests per minute of each plan and level |
| `RateWindows.CustomLimits` | apps/api/src/common/guards/rate-limit.guard.ts:98-131 | A route's own limit, unless it is 0, replaces that of its level and of no other |
| `RateWindows.RateLimitGuard.CheckLimits` | apps/api/src/common/guards/rate-limit.guard.ts:65-69 | The loop bumps the counters in order and stops at the first that is over |
| `RateWindows.GuardExact` | apps/api/src/common/guards/rate-limit.guard.ts:65-69 | A request is admitted if and only if every counter on its own is within its limit; a rejected one has used quota up to the first that is over and nowhere else |
| `RateWindows.AntiSpamExecute` | apps/api/src/modules/messages/stages/anti-spam.stage.ts:16-25 | The stage is a window counter of 30 per minute for each instance and recipient |
| `RateWindows.AntiSpamBound` | apps/api/src/modules/messages/stages/anti-spam.stage.ts:16-25 | In every run at most 59 messages of an instance to a recipient pass in any minute, 30 in a window |
| `RateWindows.AntiSpamIdentifies` | apps/api/src/modules/messages/stages/anti-spam.stage.ts:16-25 | Each instance, its id without a colon, and recipient are counted on their own |
| `RateWindows.MediaExecute` | apps/api/src/modules/messages/stages/media-preparation.stage.ts:24-56 | Which messages are rejected and why, and that only media with a readable address and a size are counted |
| `RateWindows.MediaAddsBytes` | apps/api/src/modules/messages/stages/media-preparation.stage.ts:43-55 | A message adds its bytes to what its tenant's counter holds, and passes while that is within 50 MiB |
| `RateWindows.MediaBound` | apps/api/src/modules/messages/stages/media-preparation.stage.ts:43-55 | With positive sizes, less than 100 MiB of a tenant pass in any minute, 50 MiB in a window |
| `Buffering.MessageBufferStage.Execute` | apps/worker/src/pipeline/stages/buffer.stage.ts:21-91 | Store and outcome of one execution in every branch |
| `Buffering.PassesOnIff` | apps/worker/src/pipeline/stages/buffer.stage.ts:22-54 | A message goes on as it is if and only if it has no sender or is no text with content |
| `Buffering.BufferKeysDiffer` | apps/worker/src/pipeline/stages/buffer.stage.ts:49-49 | For instance ids without a colon, a buffer stands for one instance and one sender |
| `Buffering.TextIsFirstPresent` | apps/worker/src/pipeline/stages/buffer.stage.ts:117-132 | The text is the conversation, even an empty one, or else the extended text |
| `Buffering.EndsSentenceIff` | apps/worker/src/pipeline/stages/buffer.stage.ts:101-103 | A text ends a sentence if and only if its last character that is no space is one of three marks |
| `Buffering.JoinSplits` | apps/worker/src/pipeline/stages/buffer.stage.ts:64-66 | Texts of one line can be read off the joined text again, in order |
| `Buffering.StepRefines` | apps/worker/src/pipeline/stages/buffer.stage.ts:21-115 | One execution on a stored buffer is one arrival at the segmenter |
| `Buffering.StageRefinesSegmenter` | apps/worker/src/pipeline/stages/buffer.stage.ts:21-155 | Whatever other senders do, what is stored and flushed for a sender is what the pure segmenter makes of that sender's messages |
| `Buffering.FlushesCarryTexts` | apps/worker/src/pipeline/stages/buffer.stage.ts:63-81 | Over every run with texts of one line, the flushes read line by line are the texts of the flushed groups, in order |
| `Buffering.SegmentConserves` | apps/worker/src/pipeline/stages/buffer.stage.ts:35-83 | Texts received are, in order, those of the closed groups and those pending; each flushed group was flushed as soon as it could be, and no lost one ever could |
| `Buffering.LossesExact` | apps/worker/src/pipeline/stages/buffer.stage.ts:25-56 | The lost groups are, in order, exactly what was pending when an arrival found the buffer expired or, in time, was not a text, each labelled by which of the two it was |
| `Buffering.AllFlushedIff` | apps/worker/src/pipeline/stages/buffer.stage.ts:25-56 | Every closed group was flushed if and only if each arrival found nothing pending or was a text in time |
| `Buffering.TextsAccounted` | apps/worker/src/pipeline/stages/buffer.stage.ts:21-155 | At any instant after any run, the texts received for a sender are as many as its flushes report, its buffer can still give, have expired unread and its drops took |
| `Buffering.NoTextLostIff` | apps/worker/src/pipeline/stages/buffer.stage.ts:21-155 | At an instant, every text has been reported by a flush or can still be read if and only if no message of another type and no late text found a stored buffer, and the stored one has not expired in silence |
| `Buffering.OtherTypeDropsText` | apps/worker/src/pipeline/stages/buffer.stage.ts:25-47 | A run in which a held text is gone, unsent, after a message of another type |
| `Buffering.SilenceDropsText` | apps/worker/src/pipeline/stages/buffer.stage.ts:83-90 | A held text is gone, unsent, after 30 s in which its sender is silent, whatever another sender does |
| `Buffering.OpenShape` | apps/worker/src/pipeline/stages/buffer.stage.ts:93-115 | Texts are held if and only if they are at most 9, none ends a sentence and adjacent gaps are under 3 s |
| `Buffering.StoredBufferShape` | apps/worker/src/pipeline/stages/buffer.stage.ts:56-83 | Every buffer ever stored has 1 to 9 texts of that kind |
| `Buffering.CutUnique` | apps/worker/src/pipeline/stages/buffer.stage.ts:93-115 | There is only one way to divide texts into greedy groups and an open rest |
| `Buffering.PromptSegmentsAreCuts` | apps/worker/src/pipeline/stages/buffer.stage.ts:49-90 | With only prompt texts nothing is lost, and the groups are those found by cutting shortest ready prefixes off the whole list |
| `InboundPipeline.MessagePipeline.Deduplicate` | apps/worker/src/pipeline/stages/deduplication.stage.ts:12-34 | A live key halts; otherwise the key is written with an hour to live |
| `InboundPipeline.MessagePipeline.Forward` | apps/worker/src/pipeline/stages/forward.stage.ts:41-89 | One delivery for each webhook in order, up to the first that cannot be queued |
| `InboundPipeline.MessagePipeline.Process` | apps/worker/src/pipeline/message-pipeline.service.ts:36-90 | The first stage that halts or throws decides, and what has been written by then stays |
| `InboundPipeline.StagesVerdictIff` | apps/worker/src/pipeline/message-pipeline.service.ts:47-80 | A job completes, halts or throws if and only if all stages continue, or the first that does not halts or throws |
| `InboundPipeline.AttemptVerdictIff` | apps/worker/src/pipeline/message-pipeline.service.ts:47-80 | The same of a whole attempt, with duplicates and webhooks that cannot be queued |
| `InboundPipeline.KeysIdentifyMessages` | apps/worker/src/pipeline/stages/deduplication.stage.ts:13-13 | For instance ids without a colon, two messages share a key if and only if instance and WhatsApp id are the same |
| `InboundPipeline.PassesSpaced` | apps/worker/src/pipeline/stages/deduplication.stage.ts:12-34 | Passes of one key are at least the time to live apart, over every serial run |
| `InboundPipeline.OnePassPerTtl` | apps/worker/src/pipeline/stages/deduplication.stage.ts:12-34 | Each key passes at most once in any half-open interval of 3600 s |
| `InboundPipeline.PassesIff` | apps/worker/src/pipeline/stages/deduplication.stage.ts:12-34 | Over every serial run, an attempt passes if and only if none with its key has passed in the last 3600 s |
| `InboundPipeline.OnlyFirstAttemptForwards` | apps/worker/src/pipeline/message-pipeline.service.ts:47-80 | Across all retries within the hour the deliveries of a message are those of its first attempt, at most one for each webhook |
| `InboundPipeline.AllDeliveredIff` | apps/worker/src/pipeline/message-pipeline.service.ts:47-80 | Whatever is retried within the hour, a message reaches all webhooks of its first attempt if and only if there are none or that attempt, taken as new, completes |
| `InboundPipeline.FailedMessageIsLost` | apps/worker/src/pipeline/message-pipeline.service.ts:47-80 | If the first attempt throws past deduplication, a retry completes as a duplicate; nothing was queued if it threw before forwarding, else the webhooks before the one that could not be |
| `InboundTexts.InboundWorker.Process` | apps/worker/src/pipeline/message-pipeline.service.ts:25-80 | One job through deduplication, the stages before the buffer, the buffer, the stages after it and forwarding: keys, buffers, queued deliveries and verdict |
| `InboundTexts.RunProjects` | apps/worker/src/pipeline/message-pipeline.service.ts:25-80 | Every run of the whole is a run of the pipeline model and, on the jobs that get that far, of the buffer model |
| `InboundTexts.NewIsFirst` | apps/worker/src/pipeline/stages/deduplication.stage.ts:12-34 | With retries within the hour, a message is new to the pipeline in its first attempt only |
| `InboundTexts.ArrivesIff` | apps/worker/src/pipeline/stages/forward.stage.ts:57-86 | A job that is not a duplicate queues a delivery for every webhook if and only if it has none or runs to the end |
| `InboundTexts.TextsAccounted` | apps/worker/src/pipeline/message-pipeline.service.ts:47-80 | Every text received has reached every webhook in a flush, is stored, or was lost by a job that stopped before the buffer, dropped a buffer or failed after its flush |
| `InboundTexts.EveryTextArrivesIff` | apps/worker/src/pipeline/message-pipeline.service.ts:47-80 | At an instant, every received text has reached every webhook or can still be read if and only if no job stopped a new text before the buffer, dropped a buffer or flushed without reaching the last webhook, and the stored buffer has not expired |
| `InboundTexts.TextsArriveInOrder` | apps/worker/src/pipeline/message-pipeline.service.ts:47-80 | Without losses, the lines of the deliveries and then the stored texts are the texts received, unchanged and in order |
| `InboundTexts.DeliveriesCarryFlush` | apps/worker/src/pipeline/stages/forward.stage.ts:57-86 | A job that flushes and runs to the end queues the flushed text for every webhook |
| `InboundTexts.HeldIsNotForwarded` | apps/worker/src/pipeline/stages/buffer.stage.ts:83-90 | A job whose text is held back halts and queues nothing |
| `InboundTexts.LossIsFinal` | apps/worker/src/pipeline/message-pipeline.service.ts:47-80 | What has been lost stays lost in every continuation |
| `InboundTexts.FailedFlushLosesGroup` | apps/worker/src/pipeline/stages/buffer.stage.ts:63-81 | A job that flushes and then fails or halts loses its own text and all that was stored, and no continuation brings them back |
| `Broadcasts.GetVariantForRecipient` | apps/api/src/modules/broadcasts/broadcasts.service.ts:212-228 | The first variant whose accumulated weight exceeds the position, from inside the loop for every positive total; with non-negative weights, the one variant whose share holds the position |
| `Broadcasts.Create` | apps/api/src/modules/broadcasts/broadcasts.service.ts:37-134 | When a broadcast is refused and with which error; otherwise one job for each recipient in order, with its instance, content, variant and delay |
| `Broadcasts.RefusedIff` | apps/api/src/modules/broadcasts/broadcasts.service.ts:230-248 | Which tests are refused and why: fewer than 2 variants, weights that do not make 100, a name used twice, in this order |
| `Broadcasts.JobsServeRecipients` | apps/api/src/modules/broadcasts/broadcasts.service.ts:94-119 | The recipients of the jobs are those asked for, in order, each with the content of the variant it names or of the broadcast |
| `Broadcasts.VariantApportionment` | apps/api/src/modules/broadcasts/broadcasts.service.ts:94-101 | Of N recipients a variant gets its weight for each full cycle and, of the rest, what reaches into its share |
| `Broadcasts.VariantShares` | apps/api/src/modules/broadcasts/broadcasts.service.ts:94-119 | The same of the jobs of a broadcast, counted by the variant name they carry |
| `Broadcasts.InstanceApportionment` | apps/api/src/modules/broadcasts/strategies/round-robin.strategy.ts:6-8 | The exact number of recipients for each pool position |
| `Broadcasts.InstanceLoads` | apps/api/src/modules/broadcasts/broadcasts.service.ts:94-119 | The exact number of jobs of each instance of a pool of distinct ids; loads differ by at most one |
| `Broadcasts.SameInstanceSpacing` | apps/api/src/modules/broadcasts/broadcasts.service.ts:94-119 | With distinct pool ids, two jobs of one instance are at least a full round of delays apart |
| `Broadcasts.EachResiduePairOnce` | apps/api/src/modules/broadcasts/broadcasts.service.ts:94-101 | For coprime cycles, every pair of positions occurs exactly once in any full common cycle |
| `Broadcasts.PairsUsedByWeight` | apps/api/src/modules/broadcasts/broadcasts.service.ts:94-101 | If the pool size is coprime to the total weight, any full common cycle of recipients uses every (instance, variant) pair exactly weight times |
| `Broadcasts.ValidatedPairsUsedByWeight` | apps/api/src/modules/broadcasts/broadcasts.service.ts:230-248 | The same for validated variants and any 100 * k consecutive recipients |
| `Broadcasts.JobsUsedByWeight` | apps/api/src/modules/broadcasts/broadcasts.service.ts:94-119 | The same of the jobs of a broadcast, counted by the instance and the variant name they carry |
| `Broadcasts.SharedDivisorStarves` | apps/api/src/modules/broadcasts/broadcasts.service.ts:94-101 | If d > 1 divides pool size and total, a variant with a weight below d is never used with some instance |
| `Broadcasts.ExactIffCoprime` | apps/api/src/modules/broadcasts/broadcasts.service.ts:94-101 | A pool serves every valid test exactly by weight if and only if its size is coprime to 100 |
| `SendWindows.AdjustToSendWindow` | apps/api/src/modules/scheduling/scheduling.service.ts:328-405 | The computation through formatted dates is off from the next opening by exactly the server's offset from UTC |
| `SendWindows.NextIsLeast` | apps/api/src/modules/scheduling/scheduling.service.ts:328-405 | The next opening is in the window, not before the instant, and no instant in between is |
| `SendWindows.AdjustmentRightIff` | apps/api/src/modules/scheduling/scheduling.service.ts:381-404 | For a window with a closed hour, the result is the least instant in the window for every input if and only if the server runs in UTC |
| `SendWindows.AdjustedInWindowIff` | apps/api/src/modules/scheduling/scheduling.service.ts:352-363 | For every start hour from 0 to 24, on a UTC server, the result lies in the window if and only if the window starts before it ends and before 24 |
| `SendWindows.AllDayWindow` | apps/api/src/modules/scheduling/scheduling.service.ts:352-357 | An all-day window never moves an instant, on any server |
| `SendWindows.AdjustmentIdempotent` | apps/api/src/modules/scheduling/scheduling.service.ts:328-405 | Adjusting twice is adjusting once |
| `SendWindows.AdjustmentMonotone` | apps/api/src/modules/scheduling/scheduling.service.ts:328-405 | Adjusting keeps the order of instants |
| `SendWindows.AdjustedPassesWorkerCheck` | apps/worker/src/services/anti-spam.service.ts:151-188 | What the API schedules, the worker's own window check lets through |
| `SendWindows.CheckPassesIffUnmoved` | apps/worker/src/services/anti-spam.service.ts:151-188 | The worker's check lets through exactly the instants that the API would not move |
| `SendWindows.NoWindowAlwaysPasses` | apps/worker/src/services/anti-spam.service.ts:159-163 | Without a window, or with one switched off, every instant passes |
| `SendWindows.ZoneShifts` | apps/api/src/modules/scheduling/scheduling.service.ts:337-363 | A window in a zone is the same window in UTC on a clock that is ahead by the offset |
| `SendWindows.OpenHours` | apps/worker/src/services/anti-spam.service.ts:173-176 | In UTC a window is open from its start hour to its end hour of every day |
| `ScheduledMessages.SchedulingService.CreateScheduledMessage` | apps/api/src/modules/scheduling/scheduling.service.ts:25-74 | Row, job and error of a create |
| `ScheduledMessages.SchedulingService.CreateSmartSchedule` | apps/api/src/modules/scheduling/scheduling.service.ts:256-326 | A smart create is a create at the adjusted time |
| `ScheduledMessages.SchedulingService.UpdateScheduledMessage` | apps/api/src/modules/scheduling/scheduling.service.ts:104-160 | Row, queue and error of an edit, for every combination of time, content and deactivation |
| `ScheduledMessages.SchedulingService.DeleteScheduledMessage` | apps/api/src/modules/scheduling/scheduling.service.ts:162-173 | The row stays as CANCELED and the job is gone |
| `ScheduledMessages.RunConsistent` | apps/api/src/modules/scheduling/scheduling.service.ts:25-173 | After any sequence of operations and firings a queued job's row is SCHEDULED for the job's time, and every SCHEDULED row has a job queued or fired |
| `ScheduledMessages.RunTellsStories` | apps/api/src/modules/scheduling/scheduling.service.ts:25-173 | After any run, the row, the job and the firing of each id are what the events about that id alone make of them |
| `ScheduledMessages.AnswersAreStories` | apps/api/src/modules/scheduling/scheduling.service.ts:25-173 | Every operation answers, or fails with the error, that the history of its id calls for |
| `ScheduledMessages.DeletedForGood` | apps/api/src/modules/scheduling/scheduling.service.ts:162-173 | A delete by the owner succeeds and is final: in every continuation the row is CANCELED, nothing is queued and nothing more fires |
| `ScheduledMessages.FiresOnlyWhenDue` | apps/api/src/modules/scheduling/scheduling.service.ts:104-173 | No cancelled message is sent, and none before its row's time |
| `ScheduledMessages.ContentAsOfLastReschedule` | apps/api/src/modules/scheduling/scheduling.service.ts:118-148 | A row shows the last content written, its job the content as of the last reschedule |
| `ScheduledMessages.ContentEditNotSent` | apps/api/src/modules/scheduling/scheduling.service.ts:118-159 | After a content-only edit row and job agree if and only if the content was not changed |
| `ScheduledMessages.SmartScheduleFiresInWindow` | apps/api/src/modules/scheduling/scheduling.service.ts:276-313 | A smart schedule queues a job that falls in the window and not before the requested time |
| `Blacklists.BlacklistService.SyncBlacklistCache` | apps/api/src/modules/instances/blacklist.service.ts:273-288 | The refilled hash holds exactly the instance's phones, and is absent when there are none |
| `Blacklists.BlacklistService.IsBlacklisted` | apps/api/src/modules/instances/blacklist.service.ts:111-128 | Answer and cache of a lookup, on a hit and on a miss |
| `Blacklists.BlacklistService.AddToBlacklist` | apps/api/src/modules/instances/blacklist.service.ts:45-79 | Table, cache and error of an add |
| `Blacklists.BlacklistService.RemoveFromBlacklist` | apps/api/src/modules/instances/blacklist.service.ts:81-109 | Table, cache and error of a removal |
| `Blacklists.BlacklistService.IncrementFailCount` | apps/api/src/modules/instances/blacklist.service.ts:130-172 | A listed phone is counted up; an unlisted one is added from 5 recent failures on |
| `Blacklists.AntiSpamService.CheckBlacklist` | apps/worker/src/services/anti-spam.service.ts:20-40 | The worker's answer and its key |
| `Blacklists.AntiSpamService.AutoBlacklist` | apps/worker/src/services/anti-spam.service.ts:116-149 | Table and key of the worker's own blacklisting; the API's hash is not touched |
| `Blacklists.TableIsHistory` | apps/api/src/modules/instances/blacklist.service.ts:45-172 | After any run a phone is in the table if and only if the events about it list it, with the failures they count |
| `Blacklists.AnswersAreHistory` | apps/api/src/modules/instances/blacklist.service.ts:45-109 | Which adds and removals are refused and why, by the history alone |
| `Blacklists.SyncedExact` | apps/api/src/modules/instances/blacklist.service.ts:273-288 | A refilled cache answers for every listed phone of its instance for an hour and leaves other instances alone |
| `Blacklists.ExpiredIsForgotten` | apps/api/src/modules/instances/blacklist.service.ts:111-128 | A cache that has expired comes back with the phone looked up and no other |
| `Blacklists.AddedIsCached` | apps/api/src/modules/instances/blacklist.service.ts:45-79 | For an hour after an accepted add the cache itself says "blocked" |
| `Blacklists.RunCoherent` | apps/api/src/modules/instances/blacklist.service.ts:45-172 | With all writes through the service, every cached field agrees with the table after any run |
| `Blacklists.ApiAnswersMembership` | apps/api/src/modules/instances/blacklist.service.ts:111-128 | The API then answers membership about every phone at once and from then on, after any adds, removals, automatic entries, lookups and expiries |
| `Blacklists.WorkerBlockAnswersIff` | apps/worker/src/services/anti-spam.service.ts:125-140 | If the API answered membership from now on, it still does after the worker's blacklisting, about every phone and at every later time, if and only if no live field says "not blocked" |
| `Blacklists.StaleAnswerOutlivesAnyBound` | apps/api/src/modules/instances/blacklist.service.ts:111-128 | Otherwise no time bounds the wrong answer: lookups of other phones renew it |
| `Blacklists.KeysWereTrue` | apps/worker/src/services/anti-spam.service.ts:20-40 | Each key of the worker holds what membership was when it was written |
| `Blacklists.WorkerAnswersHistory` | apps/worker/src/services/anti-spam.service.ts:20-40 | The worker answers what it last wrote for an hour, by a missed lookup or its own blacklisting, and else membership |
| `Blacklists.WorkerAnswersRecentMembership` | apps/worker/src/services/anti-spam.service.ts:20-40 | Whoever writes the table, the worker answers membership as of some moment in the last 3600 s |
| `TwilioClients.HashStep` | apps/api/src/modules/twilio/twilio-client.factory.ts:41-41 | The loop's sum is exact in a double, and wrapping it wraps the polynomial |
| `TwilioClients.ComputeFingerprint` | apps/api/src/modules/twilio/twilio-client.factory.ts:38-44 | The loop computes the base-31 polynomial of the token as a signed 32-bit word |
| `TwilioClients.OneChangeChangesFingerprint` | apps/api/src/modules/twilio/twilio-client.factory.ts:38-44 | Equal-length tokens that differ in exactly one code unit never share a fingerprint |
| `TwilioClients.TwoChangesCollide` | apps/api/src/modules/twilio/twilio-client.factory.ts:38-44 | Two changed code units can |
| `TwilioClients.TwilioClientFactory.FromCredentials` | apps/api/src/modules/twilio/twilio-client.factory.ts:14-36 | The client served and the cache it leaves, on a hit and on a miss |
| `TwilioClients.SameKeyIff` | apps/api/src/modules/twilio/twilio-client.factory.ts:31-36 | Which credentials share a cached client |
| `TwilioClients.ServesFirstWithKey` | apps/api/src/modules/twilio/twilio-client.factory.ts:14-29 | After any history, credentials are served the client built for the first that had their key |
| `TwilioClients.OwnClientIff` | apps/api/src/modules/twilio/twilio-client.factory.ts:14-44 | After any history, credentials are served their own client if and only if the first call that shares one with them, if there is one, would have built the same |
| `TwilioClients.FirstSignsInAsItself` | apps/api/src/modules/twilio/twilio-client.factory.ts:19-28 | The first credentials to get a client act for their account and sign in with the API key if it has a secret, else with the token |
| `TwilioClients.TokenRotation` | apps/api/src/modules/twilio/twilio-client.factory.ts:14-44 | After any history, a token without an API key is served a client that uses it if and only if the first call without an API key on the account with a congruent polynomial, if there is one, had the same token |
| `TwilioClients.SmallRotationsNeverStale` | apps/api/src/modules/twilio/twilio-client.factory.ts:14-44 | In any history whose tokens for the account differ from the new one in exactly one code unit, the new token is served its own client |
| `TwilioClients.SecretRotation` | apps/api/src/modules/twilio/twilio-client.factory.ts:14-34 | After any history, credentials with an API key are served their own client if and only if the first call with that API key, if there is one, had the same account and secret and, without a secret, the same token |
| `TwilioClients.SharedApiKeyCrossesAccounts` | apps/api/src/modules/twilio/twilio-client.factory.ts:20-33 | An API key used with a second account is served the client of the first |
| `IpAllowlist.AppendOctet` | apps/api/src/common/guards/ip-allowlist.guard.ts:85-85 | Shifting and or-ing signed 32-bit words appends an octet to the unsigned reading |
| `IpAllowlist.IpToNumber` | apps/api/src/common/guards/ip-allowlist.guard.ts:69-89 | Four readable octets are the digits of a base-256 number; anything else is refused |
| `IpAllowlist.MatchCidr` | apps/api/src/common/guards/ip-allowlist.guard.ts:49-67 | Which texts match, with every unreadable address, subnet or prefix length refused |
| `IpAllowlist.CanActivate` | apps/api/src/common/guards/ip-allowlist.guard.ts:14-47 | Admission if and only if there is no list or some entry allows the address |
| `IpAllowlist.MaskValue` | apps/api/src/common/guards/ip-allowlist.guard.ts:64-64 | The shifted mask is 2^32 - 2^(32 - p), for prefix length 0 too |
| `IpAllowlist.MatchIffSameBlock` | apps/api/src/common/guards/ip-allowlist.guard.ts:64-66 | Words match if and only if they lie in the same aligned block |
| `IpAllowlist.MatchIffTopBitsAgree` | apps/api/src/common/guards/ip-allowlist.guard.ts:64-66 | Words match if and only if their top p bits agree |
| `IpAllowlist.MatchedSetIsAlignedInterval` | apps/api/src/common/guards/ip-allowlist.guard.ts:64-66 | The matched set is an aligned interval of 2^(32 - p) addresses (section 3.1 of RFC 4632) |
| `IpAllowlist.LongerPrefixIsNested` | apps/api/src/common/guards/ip-allowlist.guard.ts:64-66 | Blocks are nested as the prefix grows |
| `IpAllowlist.BlocksNestOrDisjoint` | apps/api/src/common/guards/ip-allowlist.guard.ts:64-66 | Two blocks that share an address are nested |
| `IpAllowlist.QuadReads` | apps/api/src/common/guards/ip-allowlist.guard.ts:69-89 | A written dotted quad is read as its big-endian word |
| `IpAllowlist.CidrTextMatches` | apps/api/src/common/guards/ip-allowlist.guard.ts:49-67 | For written addresses and prefix lengths the guard decides membership in the block |
| `IpAllowlist.PlainEntryIsOneAddress` | apps/api/src/common/guards/ip-allowlist.guard.ts:31-36 | For addresses without needless zeros, an entry without a prefix length allows its own address only, as with /32 |
| `JsText.ParseIntReads` | apps/api/src/common/guards/ip-allowlist.guard.ts:51-79 | Numbers are read after space and a sign, and what follows the digits is ignored |
| `JsText.ParseIntRefuses` | apps/api/src/common/guards/ip-allowlist.guard.ts:51-83 | Without a digit after space and sign there is no number |

## Left out

Assumptions of the model:

- Redis: a key is gone from its expiry instant on (a server may keep it for that last millisecond), and each script and command is atomic.
- The clocks of one process do not run backwards where a lemma says so; timers fire no earlier than asked.
- Buffering, deduplication and the blacklist services: loads and saves of one sender, message or instance do not interleave with each other, so races between two jobs for the same key are not modelled.
- Redis or database calls that throw inside an operation, except where an outcome says so.
- RateWindows.RateLimitGuard.CheckLimits: the counters of one request are bumped at one instant; in a run other requests may fall between them, which the window theorem covers. Response headers and the public-route test are not modelled.
- Reconnecting.CalculateDelay: jitter over the reals; a double can round up to 78000 at the very last random value.
- HttpRetry.HttpClient.Request: no abort signal, no request timeout, no delay beyond the timers' range; how a body is decoded, how the URL, the headers and the merged policy are built.
- HttpRetry.ComputeBackoffMs: whether a header reads as a number or a date is an input, and arithmetic is over the reals.
- Broadcasts.PairsUsedByWeight: weights are integers, and where stated non-negative; the source checks only their sum.
- Broadcasts.Create: ownership of the instances and the stored row are not modelled; neither are the other strategies (random, by health), and pausing and cancelling a broadcast.
- SendWindows.AdjustToSendWindow: fixed offsets in whole minutes for the window's zone and the server, hours formatted as 0 to 23, whole start and end hours, years of four digits; no daylight saving, no invalid dates.
- ScheduledMessages.SchedulingService.CreateSmartSchedule: the server runs in UTC.
- ScheduledMessages.SchedulingService.UpdateScheduledMessage: an operation runs to completion at one instant, jobs that a worker holds locked are not modelled, and dates are valid.
- Blacklists.AntiSpamService.CheckBlacklist: its keys and the API's hashes never have the same name. The reason and expiry of a row are never consulted by the source and not modelled.
- TwilioClients.TwilioClientFactory.FromCredentials: a client is what it authenticates with; connection reuse is not modelled.

Not modelled:

- The whitelist, which is the blacklist's code over another table.
- `ScheduledMessageWorker` and cron jobs: other statuses and columns than the service's.
- The connection pool, except as the source of schedules, resets and cancels.
- The stages between deduplication and forwarding other than the buffer: an outcome each.
- Webhook payloads but for the text, signatures, and the fan-out in `WebhookDispatchService`.
- Provider clients, controllers, mappers, the SDK and the command line; Baileys sockets and media processing; library cryptography; `PiiRedactor`; logging and metrics.
