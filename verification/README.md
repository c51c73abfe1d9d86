# llm-router: a Dafny model of the gateway's core

llm-router is a gateway in front of language-model providers. This project models the parts of it that
carry state, loops or arithmetic, and proves what they keep over all inputs, all runs or all
interleavings:

- the incremental stream decoders of the provider adapters, and the server-sent events the gateway
  writes and parses, beside the WHATWG standard for them (`Framing`, `JsonScan`, `Bedrock`, `LineDecoders`,
  `Sse`, `EventStream`);
- the sliding-window rate limiter and the per-minute keys the middleware gives it, calls with costs, token
  records, and clock readings that arrive out of order (`RateLimiter`, `CostLimits`, `TokensPerMinute`,
  `DelayedLimiter`);
- the circuit breaker, retries, fallback chains, load balancers and weighted choices (`CircuitBreaker`,
  `Retry`, `Fallback`, `Chains`, `LoadBalancer`, `StableSort`, `WeightedChoice`), and data residency on
  the chat path (`Residency`);
- budget periods over the Gregorian calendar, budget rows and the check-then-record protocol (`Calendar`,
  `Periods`, `BudgetStore`, `BudgetCheck`, `BudgetManager`);
- the batching log writer and the daily usage aggregate (`LogWriter`, `DailyUsage`);
- rule routing and tier ranking (`RuleRouter`, `MlRouter`);
- request/response correlation of the MCP transports (`Mcp`);
- the two places that forget old data (`Health`, `LastUsed`).

`dafny verify dfyconfig.toml` checks the whole project.

How things are represented: clocks, random numbers, provider calls, JSON and regular-expression libraries
are parameters; Redis and Postgres are maps; a body read in pieces is a sequence of byte sequences; a
concurrent protocol is a state machine whose runs are all interleavings of its steps. Money, scores and
rates are reals, counters are unbounded integers. Objects whose methods update fields are classes with a
specification function beside them; the laws are proved about that function.

Where the code and its comments differ, the code is modelled:

- a half-open circuit lets every request through, not one probe (circuit_breaker.go:16 against 82-96); this
  is `CircuitBreaker.HalfOpenAdmitsAll`, and `CircuitBreaker.SecondProbePasses` reaches it under every
  configuration with thresholds of at least 1;
- the limiter adds one set member whatever the cost (redis_limiter.go:38-46). Under one limit the cost admitted
  in a window is at most limit (limit + 1) / 2 and can be that much (`CostLimits.CostBound`,
  `CostLimits.CostAttained`). On the token path, where each record raises the limit by its own tokens
  (rate_limit.go:66), what is limited is the number of records: a check is refused if and only if more than
  TPMLimit records lie in the last minute, whatever their tokens (`TokensPerMinute.BlocksExactlyWhen`), so any
  number of tokens can pass (`TokensPerMinute.TokensUnbounded`);
- jitter is applied after the cap (policy.go:65-70), so MaxDelay is not a cap on every wait;
  `Retry.ExceedsExactlyWhen` says for which policies some draw gets past it. The default policy, the only one
  in use, would from its seventh backoff on (`Retry.DefaultExceedsFromSeventh`) and makes at most two, so
  under it no wait is longer than MaxDelay (`Retry.DefaultWaits`);
- the event parser is not the standard's: it drops the last event id at each blank line and ignores bare
  field names (sse_parser.go:36-62).

Promises that hold under a condition, with the condition proved exact:

- a client built on the parser gets back every payload written if and only if each line fits the parser's
  1 MiB buffer (`Sse.RoundTrip`); a client that follows the standard always does
  (`EventStream.StandardRoundTrip`);
- the parser treats a line as the standard does if and only if the line is `EventStream.Alike`, and on such
  lines its events are the standard's if and only if none relies on an id from an earlier block
  (`EventStream.AlikeExactly`, `EventStream.ParserMeetsStandard`);
- A/B variants get their weight in buckets if and only if no weight is negative and they sum to at most 100
  (`WeightedChoice.FairExactlyWhen`); the weights -1 and 101 sum to 100 and give everything to the first
  (`WeightedChoice.NegativeTakesAll`). What any weights get is `WeightedChoice.VariantShare`;
- a chat client reads all the text the provider sent if and only if no chunk with a finish reason carries any,
  because such a chunk is written without its text (`Sse.ChatTextComplete`); completion clients always do
  (`Sse.CompletionTextComplete`);
- the cost admitted in a window can exceed the limit if and only if the limit is at least 2
  (`CostLimits.CostExceedsExactlyWhen`), and with one cost c for all calls if and only if 1 < c < limit
  (`CostLimits.UniformExceedsExactlyWhen`);
- the limiter's window is the whole window while scripts run in the order of their clock readings. The time is
  read before the script is sent (redis_limiter.go:72); with readings up to a delay behind, intervals shorter by
  the delay still hold at most limit admissions (`DelayedLimiter.AtMostLimit`) and longer ones need not
  (`DelayedLimiter.DelayTight`);
- the weighted strategy of a rule panics if and only if its weights sum to less than zero
  (`RuleRouter.ChainKeepsPairs`);
- the MCP reader's send finds room if and only if every earlier response found for that id was taken by its
  call (`Mcp.SendsExactlyWhen`). So it does while every id is answered at most once
  (`Mcp.ReaderNeverBlocks`), and any id answered twice can block it for good
  (`Mcp.DuplicateAnswerSticks`, `Mcp.StuckForever`).

## Model

| member | source | states |
|---|---|---|
| `Framing.ExtractAppend` | internal/provider/bedrock/adapter.go:163-190 | for every lawful unit finder, decoding a, then a's leftover followed by b, yields the units of a + b, and the leftovers agree up to dropped bytes in which nothing can start |
| `Framing.DroppedAreDead` | internal/provider/bedrock/adapter.go:199-204 | bytes dropped because no unit can start in them never influence anything decoded later |
| `Framing.ReadStep` | internal/provider/bedrock/adapter.go:170-187 | one turn of any of the read loops continues exactly where decoding all bytes so far in one piece would be |
| `Framing.ExtractFrames` | internal/provider/bedrock/adapter.go:195-249 | a stream of recognised frames followed by anything is cut into exactly their units, then those of the rest |
| `JsonScan.FindJSONEnd` | internal/provider/bedrock/adapter.go:253-284 | the byte loop with depth, string and escape flags returns the first index at which the scanner closes the outermost brace, or -1 |
| `JsonScan.EndAppend` | internal/provider/bedrock/adapter.go:253-284 | an end found in a prefix stays where it is when more bytes follow; otherwise the scan resumes from the state reached |
| `JsonScan.ValueQuiet` | internal/provider/bedrock/adapter.go:253-284 | no value of the RFC 8259 grammar, however nested and escaped, closes an enclosing brace or changes the scanner's state |
| `JsonScan.ObjectEnd` | internal/provider/bedrock/adapter.go:253-284 | on every object text of the RFC 8259 grammar (sections 2 to 7), followed by any bytes, the scan ends exactly at its last byte |
| `JsonScan.ObjectPrefixIncomplete` | internal/provider/bedrock/adapter.go:253-284 | on every proper prefix of an object text the scan reports -1 |
| `Bedrock.FindObjectLawful` | internal/provider/bedrock/adapter.go:195-249 | finding the next object is stable under more bytes and ignores brace-free bytes in front, so cutting the stream differently cannot change the objects |
| `Bedrock.ParseStreamChunks` | internal/provider/bedrock/adapter.go:195-249 | one pass sends the chunks of exactly the complete objects in the buffer and keeps what follows |
| `Bedrock.StreamEvents` | internal/provider/bedrock/adapter.go:163-190 | for every byte stream and every cut into reads: the chunks are those of the stream in one piece, and the leftover is the same up to a prefix without an opening brace |
| `Bedrock.ObjectFrameRecognized` | internal/provider/bedrock/adapter.go:195-284 | an object text behind a brace-free gap is found at its exact place whatever follows |
| `Bedrock.DecodeObjects` | internal/provider/bedrock/adapter.go:163-284 | objects separated by brace-free gaps, with an unfinished one at the end and any cut into reads, are decoded to exactly the complete objects in order |
| `Bedrock.ChunkFields` | internal/provider/bedrock/adapter.go:210-249 | an object gives a chunk exactly if it unmarshals and has a delta, a stop or metadata; the chunk has the delta's text, the usage, and the stop reason as "length", "tool_calls" or "stop" |
| `Bedrock.ChunksKeepText` | internal/provider/bedrock/adapter.go:210-249 | the chunks' text is the objects' deltas in order: no text is lost, added or moved |
| `LineDecoders.FindLineLawful` | internal/provider/azure/transform.go:128-135 | line finding satisfies the laws that make every read loop independent of the cuts |
| `LineDecoders.ParseLines` | internal/provider/grok/adapter.go:226-269 | the shared line loop (Grok, Mistral, Cohere) sends the decoding of every finished line in order and keeps the unfinished one |
| `LineDecoders.ProcessSSELines` | internal/provider/azure/transform.go:79-126 | Azure's loop with its extra line-feed skip has the same result as plain line splitting |
| `LineDecoders.StreamLines` | internal/provider/grok/adapter.go:197-224 | for every stream and every cut, chunks and leftover are those of the stream read in one piece |
| `LineDecoders.LinesOfWritten` | internal/provider/mistral/adapter.go:226-269 | line splitting undoes line termination: it returns the lines written, without an unfinished last one |
| `LineDecoders.StreamAzure` | internal/provider/azure/transform.go:48-126 | the Azure stream depends on the bytes alone, not on the reads |
| `LineDecoders.StreamGrok` | internal/provider/mistral/adapter.go:197-269 | the Grok and Mistral streams depend on the bytes alone, not on the reads |
| `LineDecoders.StreamCohere` | internal/provider/cohere/adapter.go:251-337 | the Cohere stream, with its second try after a failed unmarshal, depends on the bytes alone, not on the reads |
| `LineDecoders.DataLineFields` | internal/provider/azure/transform.go:79-126 | a data line gives a chunk exactly if it is not [DONE] and unmarshals; the chunk has the first choice's text and finish reason, and the usage |
| `LineDecoders.OtherLines` | internal/provider/grok/adapter.go:226-269 | no other line gives anything, and trailing carriage returns make no difference to Grok and Mistral, who otherwise read a line as Azure does |
| `LineDecoders.LinesKeepText` | internal/provider/azure/transform.go:79-126 | the chunks' text is the text of the lines in order |
| `LineDecoders.CohereFields` | internal/provider/cohere/adapter.go:280-337 | a Cohere line, as it is or after "data: ", gives the text of a content delta, or at a message end the finish reason in lower case, "stop" if there is none, and nothing else |
| `Sse.ParseSSE` | internal/gateway/proxy/sse_parser.go:22-66 | the line loop computes the code's reading of the lines the scanner delivers, defined by recursion over them; what it makes of a block is `Sse.BlockParses` and how it relates to the standard is stated below |
| `Sse.BlockParses` | internal/gateway/proxy/sse_parser.go:36-62 | an event line, an id line and any data lines before a blank one give one event with that type, that id and those lines as data, none without data lines; an empty type is "message" |
| `Sse.TypedBlock` | internal/gateway/proxy/sse_parser.go:36-62 | the same without an id line |
| `Sse.JoinCut` | internal/gateway/proxy/sse_parser.go:40-46 | an event's data, cut at its line feeds, is its data lines in order |
| `Sse.ScanCRLF` | internal/gateway/proxy/sse_parser.go:22-33 | a line ended by CRLF is the line without either |
| `Sse.ParseFrame` | internal/gateway/proxy/sse_parser.go:33-63 | one written frame in front of any bytes parses to its payload, then the parse of those bytes; a frame too long for the buffer ends the parse |
| `Sse.ParseWire` | internal/gateway/proxy/sse_parser.go:22-66 | a run of frames followed by any bytes parses to the payloads before the first frame that does not fit |
| `Sse.RoundTrip` | internal/gateway/proxy/sse_parser.go:22-66 | parsing what was written gives back every payload in order, typed "message", if and only if every line fits 1 MiB |
| `Sse.PartialFrameSilent` | internal/gateway/proxy/sse_parser.go:33-48 | a proper prefix of a frame never dispatches an event |
| `Sse.CutStream` | internal/gateway/proxy/stream.go:362-366 | a stream cut at any byte yields exactly the payloads of the frames received whole, up to the first too long for the parser |
| `Sse.StreamLoop` | internal/gateway/proxy/stream.go:349-404 | whatever the turns (chunks, keepalives, error, close, client gone), the bytes written parse back to the payloads if and only if all fit |
| `Sse.SelectLoop` | internal/gateway/proxy/stream.go:249-291 | the select loop writes the frames of its turns up to the one that ends it, with [DONE] after an error or a close and nothing after a disconnect |
| `Sse.StreamChannelToClient` | internal/gateway/proxy/stream.go:322-405 | a client parsing a chat stream sees the role chunk, then one chunk per provider chunk, then the ending |
| `Sse.StreamTextChannelToClient` | internal/gateway/proxy/stream.go:219-292 | the same for text completions, which have no role chunk |
| `Sse.ChunkFields` | internal/gateway/proxy/stream.go:156-179 | every chunk written has the stream's id, time and model and the provider's usage; a chat chunk has text or a finish reason, never both, a completion chunk has the text either way |
| `Sse.ChatTextComplete` | internal/gateway/proxy/stream.go:156-179 | a chat client reads all of the provider's text if and only if no chunk with a finish reason carries text |
| `Sse.CompletionTextComplete` | internal/gateway/proxy/stream.go:295-313 | a completion client always reads all of it |
| `Sse.StreamMessages` | internal/gateway/proxy/stream.go:349-404 | what is written is one message per chunk received before the first ending, in order, then that ending |
| `Sse.ChatMessages` | internal/gateway/proxy/stream.go:322-404 | a chat stream written is the assistant role chunk, then one message per chunk before the first ending, then that ending |
| `Sse.TicksInvisible` | internal/gateway/proxy/stream.go:367-371 | the bytes written with every keepalive left out parse to the same events, also when a frame is too long |
| `EventStream.AlikeExactly` | internal/gateway/proxy/sse_parser.go:50-62 | the parser and section 9.2.6 of the WHATWG HTML standard treat a line the same in every situation if and only if it is no bare field name and trimming its value only strips one space |
| `EventStream.ParserMeetsStandard` | internal/gateway/proxy/sse_parser.go:33-63 | on such lines the parser's events are the standard's if and only if no event relies on an id kept from an earlier block |
| `EventStream.StandardKeepsId` | internal/gateway/proxy/sse_parser.go:36-47 | lines on which they differ: an id and an event, then another event |
| `EventStream.StandardRoundTrip` | internal/gateway/proxy/stream.go:181-195 | a client that follows the standard reads every payload written, in order, typed "message", however long |
| `RateLimiter.RedisLimiter.Allow` | internal/ratelimit/redis_limiter.go:24-99 | one call runs the script on its key (expiry, pruning, count, add or reset time) and touches no other key |
| `RateLimiter.FreshName` | internal/ratelimit/redis_limiter.go:38-46 | the name given to a new member is never one handed out before, although the counter expires |
| `RateLimiter.PrunedSet` | internal/ratelimit/redis_limiter.go:31-36 | expiry and pruning together leave exactly the members in the window: expiry never drops one that counts |
| `RateLimiter.RunInv` | internal/ratelimit/redis_limiter.go:24-57 | every run with a nondecreasing clock keeps: distinct names, the set is exactly the window's members, at most limit of them, the counter covers the latest ids |
| `RateLimiter.AtMostLimit` | internal/ratelimit/redis_limiter.go:24-57 | over any run whose scripts run in the order of their readings, with any costs, every interval (t - window, t] contains at most limit admitted calls |
| `RateLimiter.DeniedWhen` | internal/ratelimit/redis_limiter.go:34-56 | in such a run a unit-cost call is denied exactly when the window holds limit members, and is told when the oldest leaves |
| `RateLimiter.ResetExact` | internal/ratelimit/redis_limiter.go:49-56 | in such a run, with nothing admitted in between, a later call is denied if and only if it comes before the reset time returned |
| `CostLimits.AnswerCounts` | internal/ratelimit/redis_limiter.go:34-56 | over every run in order of its readings: a call is allowed if and only if the admissions in its window plus its cost are at most limit, and the remaining count is what is then left, 0 if denied |
| `CostLimits.RemainingExact` | internal/ratelimit/redis_limiter.go:34-56 | the remaining count keeps its word: after an allowed call of cost 0 or 1, of the unit calls at the same instant exactly the first remaining many are allowed |
| `CostLimits.KeyLifetime` | internal/ratelimit/redis_limiter.go:40-46 | a key lives its window and one to two seconds more, to a whole second, and is gone if untouched |
| `RateLimiter.OneMinuteBound` | internal/gateway/middleware/rate_limit.go:27-38 | the requests keyed with one calendar minute get at most limit admissions in any 60 seconds |
| `RateLimiter.DelayedKeyBound` | internal/ratelimit/redis_limiter.go:102-114 | with scripts in the order of their readings, if a key's minute is read at most n minutes before its script runs, a virtual key gets at most (n + 2) times limit admissions in any 60 seconds |
| `RateLimiter.VirtualKeyBound` | internal/gateway/middleware/rate_limit.go:27-38 | with the minute read when the script runs: at most limit per calendar minute and at most twice limit in any 60 seconds |
| `RateLimiter.AllAdmitted` | internal/ratelimit/redis_limiter.go:34-47 | requests within 60 seconds of which no key gets more than limit are all admitted |
| `RateLimiter.DelayedKeyAttained` | internal/gateway/middleware/rate_limit.go:27-38 | the bound is tight: for every limit and delay n some requests get (n + 2) times limit admitted within 60 seconds, twice limit for n = 0 |
| `DelayedLimiter.OneClock` | internal/ratelimit/redis_limiter.go:24-57 | with reading and server clock the same, the two-clock script is the one above |
| `DelayedLimiter.RunInv` | internal/ratelimit/redis_limiter.go:31-46 | with readings behind the server's clock every run keeps: members no reading so far can have pruned are in the set, numbers differ within a lifetime of the counter, expiries go by the last admission |
| `DelayedLimiter.AtMostLimit` | internal/ratelimit/redis_limiter.go:71-82 | with readings at most a delay behind, in whatever order, every interval of length window - delay holds at most limit admissions |
| `DelayedLimiter.DelayTight` | internal/ratelimit/redis_limiter.go:71-82 | and no longer interval does: for every limit, window and delay of at least 1 a run with limit + 1 admissions in an interval one millisecond longer |
| `CostLimits.CostBound` | internal/ratelimit/redis_limiter.go:34-47 | over every run in order of its readings, the cost admitted in any window is at most limit (limit + 1) / 2 |
| `CostLimits.CostAttained` | internal/ratelimit/redis_limiter.go:34-47 | costs limit, limit - 1, ..., 1 at one instant are all admitted and attain the bound |
| `CostLimits.CostExceedsExactlyWhen` | internal/ratelimit/redis_limiter.go:34-47 | some run exceeds the limit by cost in a window if and only if the limit is at least 2 |
| `CostLimits.ThreeOfTwo` | internal/ratelimit/redis_limiter.go:34-47 | with limit 2, calls of cost 2 and 1 at one instant are both admitted |
| `CostLimits.UniformBound` | internal/ratelimit/redis_limiter.go:34-47 | calls of one cost c get at most limit - c + 1 admissions and c times that in cost in any window |
| `CostLimits.UniformExceedsExactlyWhen` | internal/ratelimit/redis_limiter.go:34-47 | they can exceed the limit by cost if and only if 1 < c < limit |
| `TokensPerMinute.RecordTPM` | internal/gateway/middleware/rate_limit.go:58-67 | records on the minute's key under the limit raised by the tokens, nothing without a limit or tokens, no other key |
| `TokensPerMinute.CheckTPM` | internal/gateway/middleware/rate_limit.go:71-88 | refuses exactly if there is a positive limit and the cost-0 call is denied |
| `TokensPerMinute.TokensIgnored` | internal/gateway/middleware/rate_limit.go:58-88 | any sequence of records and checks is, to the script, one of unit calls under the limit TPMLimit + 1: token counts make no difference |
| `TokensPerMinute.BlocksExactlyWhen` | internal/gateway/middleware/rate_limit.go:71-88 | a check is refused if and only if more than TPMLimit records lie in the last minute, and never more than TPMLimit + 1 do |
| `TokensPerMinute.TokensUnbounded` | internal/gateway/middleware/rate_limit.go:58-88 | under any limit of at least 1 any number of tokens can lie in the last minute and the next check pass |
| `CircuitBreaker.Breaker.IsOpen` | internal/gateway/circuitbreaker/circuit_breaker.go:82-96 | answers whether the entry blocks now, moves an open entry whose timeout is over to half-open, leaves the others alone |
| `CircuitBreaker.Breaker.RecordSuccess` | internal/gateway/circuitbreaker/circuit_breaker.go:99-115 | applies the success transition to this provider's entry only |
| `CircuitBreaker.Breaker.RecordFailure` | internal/gateway/circuitbreaker/circuit_breaker.go:118-136 | applies the failure transition to this provider's entry only |
| `CircuitBreaker.Breaker.ResetProvider` | internal/gateway/circuitbreaker/circuit_breaker.go:139-143 | puts this provider's entry back to new |
| `CircuitBreaker.HistoryDetermines` | internal/gateway/circuitbreaker/circuit_breaker.go:71-143 | for every history: open if and only if its latest failure left the circuit open and every query since was early; half-open if and only if a late query started a phase that nothing has ended, whose successes are the count; closed otherwise, with the failure count the run of failures since the last success or reset and below the threshold |
| `CircuitBreaker.OpensExactlyAtThreshold` | internal/gateway/circuitbreaker/circuit_breaker.go:118-136 | a closed circuit opens on the threshold-th consecutive failure and on nothing else |
| `CircuitBreaker.OpensWith` | internal/gateway/circuitbreaker/circuit_breaker.go:118-136 | only a failure opens a circuit, with the threshold as its count from closed and 0 from half-open |
| `CircuitBreaker.OpenBlocks` | internal/gateway/circuitbreaker/circuit_breaker.go:82-136 | from open and without a reset, every query earlier than the last failure plus the timeout is blocked, the circuit stays open, and its count grows by the failures alone |
| `CircuitBreaker.BlockedUntilDeadline` | internal/gateway/circuitbreaker/circuit_breaker.go:82-136 | nothing gets through before last failure plus timeout, whatever successes and failures are recorded meanwhile |
| `CircuitBreaker.HalfOpenAdmitsAll` | internal/gateway/circuitbreaker/circuit_breaker.go:82-96 | while half-open any sequence of queries is let through and changes nothing |
| `CircuitBreaker.SecondProbePasses` | internal/gateway/circuitbreaker/circuit_breaker.go:82-136 | with thresholds of at least 1 a history reaches it: the query at the deadline and every query after it pass before any result is recorded |
| `CircuitBreaker.ProvidersIndependent` | internal/gateway/circuitbreaker/circuit_breaker.go:71-78 | in a history over many providers, an entry depends on its own provider's events alone |
| `Retry.JitterBound` | internal/gateway/retry/policy.go:65-70 | jitter on a capped delay stays within MaxDelay times (1 + JitterFactor) |
| `Retry.CalcBackoff` | internal/gateway/retry/policy.go:60-75 | the loop computes the capped exponential with jitter, truncated and never negative, within MaxDelay (1 + JitterFactor) |
| `Retry.Delay` | internal/gateway/retry/policy.go:46-57 | the wait is the Retry-After hint capped at MaxDelay, or without one the backoff of that attempt and draw; it lies in [0, MaxDelay (1 + JitterFactor)] |
| `Retry.Execute` | internal/gateway/retry/executor.go:13-34 | at most MaxAttempts calls, all but the last failed retryably, each wait is the hint or backoff of the failure before it, and the result is the last call's unless the context ended during a wait |
| `Retry.ByCore` | internal/gateway/retry/policy.go:32-57 | however deep an error is wrapped, it is judged and its hint read by what is inside; exactly rate limits, provider errors, timeouts, network errors and overloads are retried |
| `Retry.OneCall` | internal/gateway/retry/executor.go:13-34 | success or any other error, a failed authentication among them, ends the execution after one call without a wait |
| `Retry.AllCalls` | internal/gateway/retry/executor.go:13-34 | with retryable errors throughout and no cancellation all attempts are used and the last error returned |
| `Retry.HintedWait` | internal/gateway/retry/policy.go:46-57 | the wait after a Retry-After hint is the hint or MaxDelay, whichever is shorter |
| `Retry.LawDetermines` | internal/gateway/retry/executor.go:13-34 | that law leaves no freedom: calls, every wait and the result are determined by it |
| `Retry.ExceedsExactlyWhen` | internal/gateway/retry/policy.go:65-70 | for 0 <= JitterFactor <= 1, some draw gives a backoff above MaxDelay if and only if the capped delay times (1 + JitterFactor) exceeds MaxDelay by more than a nanosecond |
| `Retry.DefaultExceedsFromSeventh` | internal/gateway/retry/policy.go:21-29 | under the default policy that is so from the seventh backoff on and not before |
| `Retry.DefaultWaits` | internal/gateway/retry/policy.go:21-75 | the default policy's waits are at most MaxDelay, and without a hint between 0.375 s and 1.25 s |
| `Retry.JitterSymmetric` | internal/gateway/retry/policy.go:65-70 | opposite draws average to the delay, and the lowest takes off the whole factor |
| `Retry.DefaultDoubles` | internal/gateway/retry/policy.go:21-75 | the default backoff at the middle draw is half a second, doubled each time up to 30 s |
| `StableSort.SortStable` | internal/gateway/fallback/load_balancer.go:89-131 | the reference sort gives a sorted rearrangement in which equal elements keep their order |
| `StableSort.StableUnique` | internal/gateway/fallback/load_balancer.go:89-131 | there is only one such rearrangement, so it is the one the library's stable sort returns |
| `StableSort.SortPermutes` | internal/gateway/fallback/load_balancer.go:89-131 | sorting neither adds nor drops nor duplicates |
| `WeightedChoice.ExactShare` | internal/gateway/fallback/load_balancer.go:27-49 | over all picks below the total, each position is chosen exactly its weight many times |
| `WeightedChoice.PickLands` | internal/provider/key_selector.go:29-45 | every pick below the total selects a position, so the trailing return is dead code |
| `WeightedChoice.CumulativePick` | internal/gateway/fallback/load_balancer.go:38-49 | the cumulative loop finds the position whose interval of effective weights holds the pick |
| `WeightedChoice.SelectKey` | internal/provider/key_selector.go:11-45 | no keys or a failing random source give an error, one key is taken, otherwise the weighted choice |
| `WeightedChoice.WeightedSelect` | internal/gateway/router/engine.go:136-152 | the subtractive loop agrees with the cumulative choice; total zero picks uniformly; no result exactly for no targets or a negative total, where rand.Intn panics |
| `WeightedChoice.AssignVariant` | internal/abtest/assignment.go:25-42 | for all weights: the first position whose 32-bit counter, wrapped as it is, exceeds the bucket, or else the first of all; for nonnegative weights below 2^32 - 100 that is the position that owns the bucket |
| `WeightedChoice.VariantShare` | internal/abtest/assignment.go:25-42 | for all weights, of any sign and size: of the 100 buckets a position gets those its wrapped counter is the first to reach, and the first also those never reached |
| `WeightedChoice.SmallShare` | internal/abtest/assignment.go:25-42 | for nonnegative weights below 2^32 - 100 that is the part of its interval of weights below 100 |
| `WeightedChoice.NegativeTakesAll` | internal/abtest/assignment.go:25-42 | the weights -1 and 101 sum to 100, and the first position gets every bucket |
| `WeightedChoice.WrappedWeight` | internal/abtest/assignment.go:25-42 | a weight of 2^32 counts as none |
| `WeightedChoice.FairExactlyWhen` | internal/abtest/assignment.go:25-42 | for all weights: every position gets exactly its weight, the first also the shortfall, if and only if none is negative and they sum to at most 100 |
| `LoadBalancer.WeightedRandomSort` | internal/gateway/fallback/load_balancer.go:22-61 | the chosen target first, the others in their order, a permutation |
| `LoadBalancer.WeightedRandomShare` | internal/gateway/fallback/load_balancer.go:22-61 | over all picks a target comes first exactly its effective weight many times |
| `LoadBalancer.RoundRobin.Sort` | internal/gateway/fallback/load_balancer.go:69-80 | advances the counter once and returns the rotation it selects, a permutation; up to one target is returned as it is without counting |
| `LoadBalancer.RotationStarts` | internal/gateway/fallback/load_balancer.go:69-80 | which target the rotation at a counter value puts first |
| `LoadBalancer.RoundRobinFair` | internal/gateway/fallback/load_balancer.go:69-80 | among n consecutive counter values exactly one selects a given position of n |
| `LoadBalancer.RoundRobin.SortRepeatedly` | internal/gateway/fallback/load_balancer.go:65-80 | m calls in a row return successive rotations; n calls on n targets start at each position exactly once, so each target comes first as often as it is listed |
| `LoadBalancer.LeastLatencySort` | internal/gateway/fallback/load_balancer.go:89-111 | the stable sort by latency: recorded latencies ascend, unrecorded providers come last; unchanged without a tracker |
| `LoadBalancer.LeastCostSort` | internal/gateway/fallback/load_balancer.go:119-131 | the stable sort by cost: costs ascend |
| `LoadBalancer.BalanceReorders` | internal/gateway/fallback/load_balancer.go:22-131 | no strategy adds, drops or duplicates a target |
| `Fallback.Router.TryTarget` | internal/gateway/fallback/router.go:88-130 | one turn, with other requests at work on the breaker before it and during the contact: blocked and unregistered targets are skipped, otherwise the provider is contacted and exactly the fitting event recorded |
| `Fallback.Router.Walk` | internal/gateway/fallback/router.go:74-145 | whatever other requests do to the shared breaker meanwhile: the steps follow the chain with the breaker as it was when each target was asked for, the outcome means what it says, the last return is unreachable, and the breaker ends as all these events leave it; which targets are contacted and which errors go on is stated next |
| `Fallback.ReplayIsHistory` | internal/gateway/fallback/router.go:149-202 | the breaker after a walk is that of the longer history, so the breaker's laws apply across requests |
| `Fallback.WalkLaw` | internal/gateway/fallback/router.go:87-144 | every target before the one the walk stopped at was blocked, unregistered or failed with a fallback-worthy error; each contacted one got one to three calls with waits of at most 30 s |
| `Fallback.ContactedExactlyWhen` | internal/gateway/fallback/router.go:88-105 | a target the walk comes to is contacted if and only if it is registered and its circuit does not block it then |
| `Fallback.NoneAvailableExactlyWhen` | internal/gateway/fallback/router.go:87-140 | no provider is available if and only if the walk passed the whole chain and no target was registered and unblocked when asked for |
| `Fallback.FirstServes` | internal/gateway/fallback/router.go:103-119 | an available first target whose first call succeeds serves the request and nobody else is contacted |
| `Fallback.FallsOver` | internal/gateway/fallback/router.go:208-220 | at any depth of wrapping: cancellation and deadline do not fall over, gateway errors exactly with a retryable code, every other error does |
| `Fallback.ErrorDecides` | internal/gateway/fallback/router.go:110-137 | a contact ending in an error that falls over reports one failure and the walk goes on or is exhausted; any other error ends the walk, refused, with nothing reported |
| `Fallback.RecordsExactly` | internal/gateway/fallback/router.go:110-134 | for each provider, beyond what other requests record: one failure per contact of it that failed over, one success if it won, nothing for a refusal or a skip |
| `Residency.CompliantKeeps` | internal/residency/policy.go:41-50 | filtering keeps a target if and only if it was there and the policy allows its provider |
| `Residency.CompliantParts` | internal/residency/enforcer.go:43-48 | filtering goes target by target: order and repetition are kept |
| `Residency.AllowedProviders` | internal/residency/policy.go:41-50 | the allowed providers are those on the list, all of them if it is empty, less the blocked ones |
| `Residency.FilterChain` | internal/residency/enforcer.go:37-63 | unknown policies leave the chain alone, known ones keep the allowed targets in order, and the error comes exactly when none is allowed |
| `Residency.ChatHandler.Handle` | internal/gateway/handler/chat.go:103-140 | answers with the walk of the balanced targets the policy allows, step by step, and reports nobody available exactly if it contacted nobody; under a registered policy every contacted provider is allowed, through any resolved chain and any load balancer; with none allowed nothing is contacted and the breaker is untouched |
| `Residency.ChatHandler.Run` | internal/gateway/fallback/router.go:80-105 | balances the targets and walks them: steps, outcome, breaker and contacted providers are that walk's, and only providers of the chain are contacted |
| `Residency.ExecutedLaw` | internal/gateway/handler/chat.go:103-140 | of every such request: each target reached registered and unblocked is contacted, an available first target whose first call succeeds serves it, and nobody is contacted if and only if all targets were blocked or unregistered |
| `Residency.ParsedModel` | internal/gateway/handler/chat.go:245-251 | a provider and a name joined by a slash parse back to the two; a name without a slash goes to openai |
| `Residency.ResolvesToTarget` | internal/gateway/handler/chat.go:213-224 | such a model resolves to that one target unless a chain has its name |
| `Mcp.StepInv` | internal/mcp/transport_websocket.go:135-196 | every step of callers and reader keeps: ids handed out once, the pending map is exactly the live calls, channels and results carry their own id |
| `Mcp.RunInv` | internal/mcp/transport_websocket.go:135-196 | every interleaving of calls, responses, failures and timeouts keeps that invariant |
| `Mcp.OwnResponse` | internal/mcp/transport_websocket.go:144-154 | in every run, a call that returns a response returns the first one read for its id while its channel was stored, as the server sent it; one that returns none timed out or could not send |
| `Mcp.RunTells` | internal/mcp/transport_websocket.go:135-196 | in every run and per id: the responses read while its channel was stored are, in order, the one taken, those buffered and the one in the reader's hand; and a call's place is told by the steps taken in its name |
| `Mcp.FirstFound` | internal/mcp/transport_websocket.go:179-196 | the first response found for an id, by position: read with its channel stored and not yet deleted, and no earlier such read |
| `Mcp.NoneFound` | internal/mcp/transport_websocket.go:179-196 | if none was found, every response to the id was read before its channel was stored or after it was deleted |
| `Mcp.LateResponseHarmless` | internal/mcp/transport_sse.go:261-268 | a response to a finished or unknown id changes no call, channel or pending entry |
| `Mcp.RunConserved` | internal/mcp/transport_websocket.go:179-196 | in every run and per id, the responses whose channel was found are exactly those held by the reader, buffered or handed to the call, and they were all read |
| `Mcp.SendsExactlyWhen` | internal/mcp/transport_websocket.go:192-194 | in every run the reader's send finds room if and only if every response found for that id before the one in hand was taken by the call |
| `Mcp.ReaderNeverBlocks` | internal/mcp/transport_websocket.go:192-194 | with an id answered once the reader's send finds room, also when the call timed out between lookup and send; a blocked reader holds the second or third response found for its id |
| `Mcp.StuckForever` | internal/mcp/transport_websocket.go:179-196 | a reader waiting on a channel nobody will read stays there in every continuation |
| `Mcp.DuplicateAnswerSticks` | internal/mcp/transport_sse.go:150-170 | for every id and any two responses to it, a run in which that id alone is answered, twice, and the reader is stuck |
| `Calendar.YearsAgree` | internal/budget/period.go:12-34 | counting days by whole years, leap years included, agrees with counting them by months, in both directions from the epoch |
| `Calendar.ClosedForm` | internal/budget/period.go:12-34 | the days before a year are 365 a year and one for every leap year, by the 4, 100 and 400 year rule |
| `Calendar.MonthsClosedForm` | internal/budget/period.go:12-34 | the days before a month are the arithmetic of 31 and 30 days from March on, and one more in leap years |
| `Calendar.DateClosedForm` | internal/budget/period.go:16-29 | time.Date is arithmetic in year, month, day and hour, out-of-range months and days included |
| `Calendar.CivilInverts` | internal/budget/period.go:16-29 | the civil date of a date's day number is that date, for every date that exists |
| `Calendar.KnownMonday` | internal/budget/period.go:19-25 | 1 January 2024 is a Monday |
| `Calendar.EpochIs1970` | internal/budget/period.go:16 | the count is anchored at Unix time: midnight on 1 January 1970 is second 0 |
| `Calendar.DayNumberCounts` | internal/budget/period.go:28-29 | the day number of a date, with out-of-range days and months normalised as time.Date does, counts from the start of its month |
| `Calendar.CivilCounts` | internal/budget/period.go:16-29 | the civil date of a day number is the one whose month, counted from the epoch, holds that day |
| `Periods.CellOf` | internal/budget/period.go:12-60 | PeriodStart and PeriodEnd are the boundaries of the hour, day, Monday week or month that contains now, for every instant; where these lie in seconds is stated next |
| `Periods.CellsStart` | internal/budget/period.go:12-34 | hours and days start on their multiples, weeks on a Monday midnight |
| `Periods.MonthStarts` | internal/budget/period.go:28-29 | months start at midnight on a first |
| `Periods.CellsLast` | internal/budget/period.go:37-60 | an hour, a day and a week last 3600, 86400 and 604800 seconds, a month the days of that month |
| `Periods.MonthEnds` | internal/budget/period.go:52-54 | on any day of month m the month ends at midnight on the first of month m + 1, December included |
| `Periods.LifetimeBounds` | internal/budget/period.go:30-60 | a lifetime runs from Go's zero time to the last second of the year 9999 |
| `Periods.PeriodsTile` | internal/budget/period.go:12-60 | start(t) <= t < end(t), every instant in between has the same period, and the next begins at end(t), over the whole calendar |
| `BudgetStore.Store.AddSpend` | internal/store/postgres/budget_store.go:99-108 | adds to the one row and changes nothing else; an unknown row is no error |
| `BudgetStore.Store.ResetExpired` | internal/store/postgres/budget_store.go:112-156 | exactly the expired recurring rows get zero spend and the current period; the count is theirs |
| `BudgetStore.TickHolds` | internal/store/postgres/budget_store.go:112-156 | after a tick a row holds the whole period containing now, and its spend is zeroed exactly if that is another period |
| `BudgetStore.RowFollowsPeriods` | internal/store/postgres/budget_store.go:99-156 | over every run of spends and ticks a row holds the last tick's period and counts exactly what was spent since a tick first fell into it |
| `BudgetCheck.StepInv` | internal/gateway/middleware/budget_check.go:30-73 | every step of check, serve and record keeps counted spend plus outstanding exposure below limit + k c for each budget already passed |
| `BudgetCheck.OvershootBound` | internal/gateway/middleware/budget_check.go:30-73 | for every interleaving with at most k requests in flight, each costing at most c: once a check was passed, counted spend stays below hard limit + k c; before that it has not moved |
| `BudgetCheck.SequentialOvershoot` | internal/gateway/middleware/budget_check.go:30-73 | one request at a time keeps the counter below the limit plus the largest cost |
| `BudgetCheck.SequentialRecord` | internal/gateway/middleware/budget_check.go:30-73 | one request at a time finds the counter below the limit whenever it records, so it overshoots by less than its own cost |
| `BudgetCheck.OvershootAttained` | internal/budget/manager.go:108-161 | the bound is tight: for every k, limit, cost and spend below the limit some run counts k full costs on top |
| `BudgetManager.Manager.CheckBudget` | internal/budget/manager.go:108-140 | refused at the first budget at or over its hard limit and only then; reading seeds counters without changing any spend, and counters not listed stay as they are |
| `BudgetManager.RefusesAsProtocol` | internal/budget/manager.go:108-140 | a budget refuses exactly where the protocol's check does, so the overshoot bounds are the manager's |
| `BudgetManager.SpendIs` | internal/budget/manager.go:164-177 | the counter in the cache is the spend; without one it is the stored spend |
| `BudgetManager.Manager.RecordSpend` | internal/budget/manager.go:144-161 | every listed counter grows by the cost exactly once, every other one stays there unchanged, zero cost does nothing |
| `LogWriter.Writer.Write` | internal/telemetry/log_writer.go:51-58 | never blocks: appends to a channel with room, otherwise counts a drop |
| `LogWriter.Writer.Flush` | internal/telemetry/log_writer.go:76-86 | hands a nonempty buffer over as one batch |
| `LogWriter.Writer.Receive` | internal/telemetry/log_writer.go:92-111 | a received entry joins the buffer and a full one is handed over |
| `LogWriter.Writer.Do` | internal/telemetry/log_writer.go:68-115 | each step keeps: batches, buffer and channel concatenate to the accepted entries in order, accepted plus dropped are the writes, batches have 1 to 500 entries; at the exit buffer and channel are empty |
| `LogWriter.Writer.Run` | internal/telemetry/log_writer.go:68-115 | the same over every schedule of writes, ticks, receives and stop |
| `DailyUsage.Group` | internal/store/postgres/log_store.go:108-144 | the accumulating loop is the group-by of the entries with a model |
| `DailyUsage.RowColumns` | internal/store/postgres/log_store.go:108-144 | each column of a row is the sum of its own field over the row's entries; entries with a status of 500 or more or an error code are the errors |
| `DailyUsage.SameRow` | internal/store/postgres/log_store.go:108-144 | entries share a row exactly if day, model, provider and key agree, no key counting as the zero key |
| `DailyUsage.MergeGroups` | internal/store/postgres/log_store.go:150-184 | adding the groups of b to those of a gives the groups of a + b |
| `DailyUsage.Table.UpsertDailyUsage` | internal/store/postgres/log_store.go:85-184 | the table becomes its merge with the batch's groups, in whatever order the map is walked |
| `DailyUsage.BatchingInvisible` | internal/store/postgres/log_store.go:85-184 | after any batching the counters equal one group-by of all entries |
| `DailyUsage.UsageOfWriter` | internal/telemetry/log_writer.go:68-115 | once the writer has exited, folding its batches gives the group-by of everything accepted before its exit |
| `DailyUsage.StoreBatches` | internal/store/postgres/log_store.go:85-184 | upserting every batch into an empty table leaves the group-by of all entries |
| `DailyUsage.StoreWriter` | internal/telemetry/log_writer.go:80-85 | upserting the batches of an exited writer leaves the group-by of everything it accepted before its exit |
| `RuleRouter.EstimateTokens` | internal/gateway/router/matcher.go:127-133 | the loop adds a quarter of each message's length, rounded down per message |
| `RuleRouter.EstimateIsQuarter` | internal/gateway/router/matcher.go:127-133 | the estimate is a quarter of the text, less up to three characters a message |
| `RuleRouter.ConditionsIndependent` | internal/gateway/router/matcher.go:62-124 | a rule matches if and only if each of its eleven conditions, alone, does |
| `RuleRouter.RequestConditions` | internal/gateway/router/matcher.go:62-124 | what each condition on the request asks for: equal model, prefix, expression, token bounds inclusive, at least one tool |
| `RuleRouter.KeyConditions` | internal/gateway/router/matcher.go:62-124 | what each condition on the virtual key asks for: a key that carries that id, user, team or organisation |
| `RuleRouter.MetadataCondition` | internal/gateway/router/matcher.go:62-124 | what a metadata condition asks for: metadata in which the field has that value, a missing field being empty |
| `RuleRouter.WeightedChainPairs` | internal/gateway/router/engine.go:93-101 | a weighted chain has the same provider/model pairs as the rule, the chosen one once and at the head |
| `RuleRouter.OthersParts` | internal/gateway/router/engine.go:93-101 | the targets behind the chosen one keep their order and repetition |
| `RuleRouter.ChainKeepsPairs` | internal/gateway/router/engine.go:81-114 | every chain keeps the rule's pairs, a direct one the first target's; no chain exactly for a weighted rule with a negative total |
| `RuleRouter.SortSlice` | internal/gateway/router/engine.go:155-174 | a sorted permutation, which is all the library's unstable sort promises |
| `RuleRouter.LeastCostAscends` | internal/gateway/router/engine.go:155-174 | a least-cost chain is a permutation of the targets ascending in the price of the estimated tokens in and half as many out |
| `RuleRouter.BuildChain` | internal/gateway/router/engine.go:81-114 | each strategy builds its chain: first target, weighted choice first, cost-sorted permutation, or the targets as listed |
| `RuleRouter.AdvancedRouter.Reload` | internal/gateway/router/engine.go:34-55 | succeeds exactly if every enabled rule compiles; a failed reload leaves the old rules in force |
| `RuleRouter.AdvancedRouter.Resolve` | internal/gateway/router/engine.go:59-78 | the scan of the sorted list refines the argmax: it picks a rule if and only if some enabled loaded rule matches and has targets, one of maximal priority among those, and builds its chain; no chain for it stands for the panic of a weighted rule |
| `RuleRouter.FirstIsBest` | internal/gateway/router/engine.go:59-78 | in a list sorted by priority the first eligible rule is a best one |
| `MlRouter.ScoreMonotone` | internal/mlrouter/scorer.go:55-75 | with nonnegative weights and one quality, no dearer and no less reliable means no lower score |
| `MlRouter.DefaultScore` | internal/mlrouter/scorer.go:18-75 | under the default weights and for prices up to ten cents the score is three tenths price, four quality and three reliability, which also stands in for latency |
| `MlRouter.ScoreRange` | internal/mlrouter/scorer.go:55-75 | a score lies between 0 and 1 whatever the weights, and a price above ten cents counts as ten |
| `MlRouter.FallbackTiers` | internal/mlrouter/scorer.go:79-90 | the entries ranked are those of the first stocked tier among the one asked for, medium and economy |
| `MlRouter.QualityOrder` | internal/mlrouter/router.go:96-119 | premium is above medium, above an unknown tier, above economy |
| `MlRouter.InsertionSort` | internal/mlrouter/scorer.go:100-105 | the in-place adjacent swaps compute the stable sort by descending score |
| `MlRouter.RankTier` | internal/mlrouter/scorer.go:79-112 | the chain is a permutation of the tier's entries (or of the fallback tier's) in descending score, ties in configured order |
| `MlRouter.BuildTiers` | internal/mlrouter/router.go:96-119 | one tier per configured name, from its last configuration, in order and all with the tier's one quality |
| `MlRouter.DominanceRanks` | internal/mlrouter/scorer.go:79-112 | in tiers built from configuration, an entry listed earlier that is no dearer and no less reliable than another is ranked before it |
| `Health.ProviderTracker.Prune` | internal/health/provider_health.go:74-82 | the list becomes exactly the outcomes of the last minute out of everything ever recorded |
| `Health.ProviderTracker.Record` | internal/health/provider_health.go:29-34 | the provider's history grows by the outcome, every other history stays |
| `Health.ProviderTracker.ErrorRate` | internal/health/provider_health.go:38-53 | forgetting is unobservable: the rate is the failed fraction of all outcomes ever recorded in the last minute |
| `Health.RateByPosition` | internal/health/provider_health.go:38-53 | the rate is the number of failed outcomes of the last 60 seconds over the number of outcomes then, counted by position, and 0 with none |
| `Health.ProviderTracker.GetStatus` | internal/health/provider_health.go:60-70 | unhealthy exactly from half failed, ok exactly below a tenth or with no outcomes |
| `LastUsed.EvictionInvisible` | internal/auth/middleware.go:127-134 | after any run the thinned map decides the next message as one that never evicts would |
| `LastUsed.OncePerMinute` | internal/auth/middleware.go:112-125 | a message leads to a store update exactly when no update of its key was written in the last minute; so updates of one key are a minute apart |
| `LastUsed.RunLastUsedUpdater` | internal/auth/middleware.go:108-136 | the loop with eviction issues exactly those updates |

## Left out

- Cancellation inside the decoders: a client that goes away while chunks are sent ends the stream early.
- JSON, regular expressions, marshalling and string trimming are function parameters; the payloads written are assumed free of line breaks, as JSON texts on one line are.
- Errors of Redis and Postgres, and the fail-open paths they take.
- RateLimiter.RedisLimiter.Allow: one clock is used for the script and for key expiry (`DelayedLimiter` has two), and the member string "now:seq" is the pair of its numbers.
- Floating-point rounding and integer overflow of counters, including the round-robin counter; the 32-bit A/B counters are modelled.
- WeightedChoice.AssignVariant: the bucket is given; the sample rate, the activity test and the hash are not modelled.
- EventStream.ParserMeetsStandard: compares the two on lines; that the scanner ends lines at line feeds only, where the standard also ends them at a lone carriage return, is left to the definitions of both.
- The scanning of event and data lines in the MCP SSE transport, and the stdio transport.
- BudgetManager.Manager.CheckBudget: one request alone, over budgets with distinct counters (the store has one budget per entity and period); soft limits only log.
- BudgetManager.Manager.RecordSpend: the counters only; the database row is BudgetStore.Store.AddSpend.
- BudgetCheck.OvershootBound: counters already seeded, no eviction and no reset during the run.
- The cached budget list and its lifetime, agreement of cached spend with the database, upserts of budgets, and team and organisation budgets, which are recorded but never checked.
- Sub-second parts of times in budget periods: all boundaries are whole seconds.
- DailyUsage.Table.UpsertDailyUsage: the user, team and organisation columns, which are copied from the key.
- RuleRouter.AdvancedRouter.Resolve: the cache of compiled expressions, which only avoids recompiling.
- Residency.ChatHandler.Handle: request validation, logging and the encoding of the response.
- Circuit-breaker status reports, replacement of configured chains at run time, MCP tool calls, caches, guardrails, tenants, statistics, cryptography and the admin interface: thin wrappers, library behaviour or single branches.
