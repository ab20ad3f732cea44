# Verified model of the Kafka REST produce proxy

The proxy turns asynchronous, per-record Kafka callbacks into one ordered HTTP answer under bounded
admission. This project models that protocol and the machines around it, and proves what they
promise over every input, every interleaving and every run. `dafny verify dfyconfig.toml` checks it.

| part | files |
|---|---|
| produce, callbacks, timeout, pool, admission | `Records`, `Limits`, `ProduceProtocol`, `ProduceInvariants`, `ProduceTheorems`, `ProduceAnswers`, `ProduceProgress`, `RequestState`, `Partitioner` |
| token bucket | `TokenBucket` |
| v3 stream and batch, v2 decoder | `RequestLimits`, `V3Records`, `V3Stream`, `V3Batch`, `V2Decoder` |
| JSON fast path | `Json`, `JsonProofs`, `JsonGrammar`, `Compaction` |
| hand-written response and its readers | `Decimal`, `ProduceResponse`, `ResponseReader`, `Soak`, `EndToEnd` |
| schema registry and wire format | `SchemaTypes`, `Registry`, `WireFormat` |
| request paths | `Paths` |

How the model is built:

- **The produce protocol** is a transition system. Any number of Produce calls share one admission
  ledger and one pool; each step is one atomic operation of the source (slot write, decrement,
  compare-and-swap, `Admission.Release`, `close(done)`, a select branch, a pool access). The Kafka
  client may deliver callbacks in any order, before the submit loop ends or after the caller timed
  out; the only assumption about it is that it calls each promise exactly once. `Admission`,
  `PendingRequest` and `RecordPool` are the mutable objects, specified by the same functions as the
  steps. The ledger of the transition system is unbounded; `Limits` has the 64-bit arithmetic and
  the lemmas saying when the two agree.
- **The token bucket** uses reals, and the clock is an argument. The specification quantifies over
  all windows; the limiter keeps one number.
- **The v3 stream** takes a list of decode attempts, each carrying what the network, the limiter and
  the producer did. The outcome records every header write, error, report, produce call and charge.
- **JSON texts** are concrete syntax trees that remember whitespace, so printing is exact; the parser
  is proved sound and complete for the grammar before anything is said about compaction.
- Every lemma carries `{:induction false}`: its proof is the one written down.
- Error texts are sequences of runes, some of which may be bytes that are not UTF-8.
- Other bytes and texts are `string`; a nil byte slice is `None`. Limits, error codes and defaults are the
  source's.

Properties one might expect that are false of the code, with the exact condition proved:

- *A caller that timed out holds no capacity.* The last callback may have won the compare-and-swap
  and not yet called `Admission.Release`: `TimeoutCanReturnStillHolding`, `ReturnedRequestHolds`.
- *Admission never over-admits.* When a limit plus a request is at or above 2^63 the sum can wrap:
  `Admits64CanOverAdmit`; exactly when, call by call, `OverAdmitsIff`; for which configurations,
  `NeverOverAdmitsIff`; and for which of them over whole producer runs, `RunsNeverOverAdmitIff`.
- *The client never holds more records than the limit.* A timed-out call gives its capacity back
  while its records are still in flight, so under any limits any number can be:
  `InFlightIsUnbounded`. Call by call the client holds more than is counted exactly when the call has
  timed out with records in flight: `OrphansAreTimedOut`. Over all reachable states with so many of
  those, the limit is a bound if and only if there are none: `LimitBoundsInFlightIff`; the exact
  bound is the limit plus their number: `NeverMoreInFlightIff`.
- *Every response is JSON.* `strconv.AppendQuote` escapes some characters in ways JSON does not have:
  `BellBreaksResponse`, `ResponseParsesIffSafe`.
- *Every body within the size limit is eventually let through.* Not when a smaller byte burst is
  configured: `BodiesAreNotStarved`.
- *A timed-out produce answers 504.* The batch path does not map context errors and answers 503:
  `BatchTimeoutIsNot504`, `StreamTimesOutIff`.
- *The protobuf message index names the encoded message.* Only when the first top-level message has
  no nested message: `ZeroByteNamesMessageIff`, `NestedMessageIsMisnamed`.

docs/api-compatibility.md says the cluster id in a v3 path must match; the code accepts any
non-empty one, and the model follows the code.

## Model

| member | source | states |
|---|---|---|
| Records.ComputeSizeBytes | internal/producer/producer.go:31-37 | The header loop adds up key, value and every header's key and value, nil slices counting zero. |
| Records.ComputeTotalBytes | internal/producer/franz/producer.go:84-87 | The sum Produce charges is the sum of the record sizes. |
| Records.SizeIsLength | internal/producer/producer.go:31-37 | The size is the number of bytes of key, value and every header laid end to end: no byte is left out or counted twice. |
| Records.TotalIsLength | internal/producer/franz/producer.go:84-87 | The same for a whole batch. |
| Records.TotalBytesBound | internal/producer/franz/producer.go:84-91 | If each record is within a size, the batch is within the count times that size. |
| Records.FailureIsReported | internal/api/v3.go:555-567 | A result counts as failed exactly when it carries an error or an error code; its code defaults to 50002 and its text to the fixed one. |
| Limits.Admission.constructor | internal/limits/admission.go:18-23 | A new controller has nothing in use. |
| Limits.Admission.TryAcquire | internal/limits/admission.go:25-46 | Grants exactly when both sums, in 64-bit arithmetic, stay within every limit that is on; adds on a grant and changes nothing on a refusal; negative requests are refused. |
| Limits.Admission.Release | internal/limits/admission.go:48-64 | Subtracts in 64-bit arithmetic, each counter clamped at zero. |
| Limits.Admission.Snapshot | internal/limits/admission.go:66-73 | Reports the four fields in the promised order. |
| Limits.TryAcquireOn | internal/limits/admission.go:25-46 | The same through a possibly nil controller, which admits everything. |
| Limits.ReleaseOn | internal/limits/admission.go:48-64 | The same through a possibly nil controller, which does nothing. |
| Limits.SnapshotOf | internal/limits/admission.go:66-74 | The same through a possibly nil controller, which reports four zeros. |
| Limits.Admits64Agrees | internal/limits/admission.go:33-44 | When every limit that is on, plus the request, is below 2^63, the 64-bit decision is the mathematical one and the counters with a limit do not wrap. |
| Limits.OverAdmitsIff | internal/limits/admission.go:33-44 | For every in-bounds 64-bit ledger and request: a request the limits exclude is let in if and only if every sum with a limit on is within it or at least 2^63, and one is at least 2^63; an allowed one is never refused. |
| Limits.AcquireIsExactIff | internal/limits/admission.go:43-44 | The counters after a grant are the true sums if and only if both sums are below 2^63. |
| Limits.NeverOverAdmitsIff | internal/limits/admission.go:25-46 | A configuration never over-admits any request up to a size, in any in-bounds ledger, if and only if every limit that is on plus that size is below 2^63. |
| Limits.Return64Agrees | internal/limits/admission.go:56-63 | Giving back any 64-bit amount never wraps a counter that is itself within 64 bits. |
| Limits.Admits64CanOverAdmit | internal/limits/admission.go:33-38 | A concrete ledger with one byte in use and a request above the limit that is admitted. |
| ProduceInvariants.StepKeepsInv | internal/producer/franz/producer.go:76-205 | Every atomic step of every interleaving keeps the whole protocol invariant (per-request counters, ledger sums, pool exclusivity), and no release is clamped. |
| ProduceInvariants.RunKeepsInv | internal/producer/franz/producer.go:76-205 | The invariant holds in every state of every run from an empty producer. |
| ProduceTheorems.LedgerIsExact | internal/producer/franz/producer.go:76-111 | In every reachable state used records and bytes are the exact sums over requests that acquired and have not given back, they respect every positive limit, and the clamps never fire. |
| ProduceTheorems.ReturnedRequestHolds | internal/producer/franz/producer.go:104-110 | A call that returned results holds nothing; one that returned holds capacity exactly when it timed out and a callback stands before its Admission.Release. |
| ProduceTheorems.QuiescentLedgerIsZero | internal/producer/franz/producer.go:93-110 | When all calls have returned and no callback is about to release, used is zero. |
| ProduceTheorems.ReachableAdmissionNeverWraps | internal/limits/admission.go:25-64 | In every reachable state 64-bit admission decides like the unbounded ledger, and keeps the counters with a limit exact, for every batch that fits below 2^63 with the limits that are on. |
| ProduceTheorems.RunsNeverOverAdmitIff | internal/producer/franz/producer.go:84-91 | Over all producer runs and all batches up to a size: no reachable state over-admits if and only if the record limit fits with the largest batch below 2^63 and so does the byte limit, or there is only one record slot. |
| ProduceTheorems.CountersAreHistory | internal/producer/franz/producer.go:160-205 | Releases, closes and `remaining` always equal the numbers of the corresponding steps in the run. |
| ProduceTheorems.ReleasedAndClosedOnce | internal/producer/franz/producer.go:182-205 | At most one release and one close per request whoever wins; `done` closes only after every record was submitted and every slot written; once all callbacks finish each has happened exactly once. |
| ProduceTheorems.ReturnedResultsAreOutcomes | internal/producer/franz/producer.go:93-106 | Returned results: one per record, slot i exactly what the client reported for record i in whatever order (its error with code 50002, or its place and neither), capacity given back. |
| ProduceTheorems.OutcomesWereDelivered | internal/producer/franz/producer.go:98-101 | Every recorded outcome was delivered by the client to that very callback earlier in the run. |
| ProduceTheorems.ReturnedResultsAreFrozen | internal/producer/producer.go:47-50 | No later step of any request changes a returned results slice. |
| ProduceTheorems.WrappersAreNeverShared | internal/producer/franz/producer.go:134-158 | No wrapper is ever both free and held, nor held by two holders, late callbacks included. |
| ProduceTheorems.InFlightWrapperIsItsRecord | internal/producer/franz/partitioner.go:28-50 | An in-flight wrapper carries its own record; an explicit non-negative partition reaches the partitioner unchanged, and an absent one goes to the fallback, through its backup method when it has one. |
| ProduceTheorems.DeliveredWrapperIsItsRecord | internal/producer/franz/producer.go:98-101 | Until it is wiped, a delivered wrapper still carries its record and the reported partition and offset; it is blank before it re-enters the pool. |
| ProduceTheorems.CallbacksNeverStick | internal/producer/franz/producer.go:182-205 | A started callback always has an enabled next step, and `done` is never closed twice. |
| ProduceAnswers.AnswersAreHistory | internal/producer/franz/producer.go:76-111 | For every call of every run, from the steps of the run: its records are those it arrived with; it is answered "closed" if and only if Close came before it, "overloaded" if and only if admission refused it, with a timeout if and only if it saw its context end, and with results if and only if it was empty or saw `done`; so a call with records never gets the empty list, and results are one per record. |
| ProduceAnswers.RefusalsExceedALimit | internal/producer/franz/producer.go:88-91 | In every reachable state admission refuses a call if and only if its records or bytes would have exceeded a limit that is on. |
| ProduceAnswers.CallbacksComeInAnyOrder | internal/producer/franz/producer.go:93-103 | The transition system lets every in-flight record of every call be called back next, with any outcome, and no other record. |
| ProduceProgress.TimeoutCanReturnStillHolding | internal/producer/franz/producer.go:107-109 | A concrete run in which the caller has returned its timeout while its capacity is still counted. |
| ProduceProgress.StepDecreases | internal/producer/franz/producer.go:76-205 | Every step of a call or callback, and every wrapper the pool forgets, lowers one measure of the whole system. |
| ProduceProgress.RunsEnd | internal/producer/franz/producer.go:76-205 | Without new calls no run goes on for longer than that measure. |
| ProduceProgress.StuckIffDrained | internal/producer/franz/producer.go:93-110 | In every reachable state nothing can move if and only if all calls have returned and all callbacks have finished, and then nothing is in use. |
| ProduceProgress.EveryRunCanDrain | internal/producer/franz/producer.go:93-110 | Every reachable state extends, without new calls, to one where all calls have returned, all callbacks have finished and used is zero. |
| ProduceProgress.OrphansAreTimedOut | internal/producer/franz/producer.go:104-110 | In every reachable state more of a call's records are in flight than admission counts if and only if the call returned a timeout and has records in flight; those are its orphans. |
| ProduceProgress.InFlightIsBounded | internal/producer/franz/producer.go:104-110 | In every reachable state the records in flight are at most those in use, hence at most the limit, plus the orphans. |
| ProduceProgress.InFlightIsUnbounded | internal/producer/franz/producer.go:107-109 | Under any limits, for every n a run leaves n records in flight and nothing in use. |
| ProduceProgress.NeverMoreInFlightIff | internal/producer/franz/producer.go:104-110 | For every record limit, byte limit and number of orphans, a bound holds on the records in flight in all reachable states with so many orphans if and only if it is at least the limit plus the orphans. |
| ProduceProgress.LimitBoundsInFlightIff | internal/producer/franz/producer.go:104-110 | The record limit bounds the records in flight in all reachable states with so many orphans if and only if there are none. |
| RequestState.PendingRequest.constructor | internal/producer/franz/producer.go:170-180 | A fresh request has n zero slots, n remaining, nothing released or closed. |
| RequestState.PendingRequest.Release | internal/producer/franz/producer.go:201-205 | However often it is called, the capacity goes back once. |
| RequestState.PendingRequest.Complete | internal/producer/franz/producer.go:182-199 | Writes its own slot, decrements, and exactly the last one releases and closes. |
| RequestState.CompleteRefinesMoves | internal/producer/franz/producer.go:182-205 | The method body run without interruption is the sequence of atomic protocol moves: same fields, and the same ledger, which gets the capacity back exactly when this callback is last and nobody released before. |
| RequestState.RecordPool.Acquire | internal/producer/franz/producer.go:134-150 | Returns a free or new wrapper with every field overwritten, and takes it out of the pool. |
| RequestState.RecordPool.Put | internal/producer/franz/producer.go:152-158 | Wipes the wrapper before pooling it. |
| TokenBucket.New | internal/ratelimit/ratelimit.go:19-33 | No limiter for a non-positive rate; the given rate and a positive burst are kept, any other becomes one; full at creation. |
| TokenBucket.Limiter.Allow | internal/ratelimit/ratelimit.go:35-58 | Refill, clip, compare and pay as the bucket specification says; a non-positive cost touches nothing. |
| TokenBucket.PlayKeepsValid | internal/ratelimit/ratelimit.go:35-58 | Tokens stay within zero and burst in every run. |
| TokenBucket.TokensAreTightestWindow | internal/ratelimit/ratelimit.go:45-51 | The tokens at any moment are the smallest slack over all windows ending then, and some window attains it. |
| TokenBucket.AllowIsExact | internal/ratelimit/ratelimit.go:35-58 | A positive cost is allowed if and only if every window ending now has room, and it is enough to check windows opening at a call or now. |
| TokenBucket.LimiterIsExact | internal/ratelimit/ratelimit.go:19-58 | For a limiter made by New: allowed if and only if for every window since creation, cost admitted plus this cost is at most burst plus rate times length. |
| TokenBucket.NoWindowExceedsItsAllowance | internal/ratelimit/ratelimit.go:35-58 | In every run no window admits more than burst plus rate times its length. |
| TokenBucket.AboveBurstIsNeverAllowed | internal/ratelimit/ratelimit.go:53-56 | A cost above the burst is refused at all times after every history. |
| TokenBucket.NothingIsAlwaysAllowed | internal/ratelimit/ratelimit.go:36-38 | A cost of zero or less is allowed at once from every state, and changes none. |
| TokenBucket.WithinBurstIsEventuallyAllowed | internal/ratelimit/ratelimit.go:45-57 | From every reachable state a cost within burst is allowed after burst/rate seconds without other calls. |
| TokenBucket.BodiesAreNotStarved | internal/api/handler.go:84-90 | Every body within the size limit is eventually allowed if and only if no burst, or one of at least the size limit, is configured. |
| TokenBucket.DerivedBurstIsLeast | internal/api/handler.go:84-90 | A configured byte burst is kept; without one the burst is the least that holds a second's worth of bytes and a whole request. |
| RequestLimits.WithDefaults | internal/api/types.go:216-233 | Every limit in force is positive: a positive setting is kept, any other becomes its own default. |
| V3Records.DecodeV3Headers | internal/api/v3.go:447-473 | Succeeds exactly when the count is within limits and every header has a name, valid base64 and an acceptable size; then all headers, in order. |
| V3Records.EnvelopeIffAcceptable | internal/api/v3.go:402-432 | A record gets an envelope exactly when everything decodes and every limit holds. |
| V3Records.EnvelopeIsItsRecord | internal/api/v3.go:402-432 | Field by field: an envelope carries its id, the path's topic, the bytes of its record's own key and of its own value, header j with its own name and value, its partition, and each side's own metadata. |
| V3Records.AcceptedIffFits | internal/api/v3.go:402-473 | A record gets an envelope if and only if its header values decode and there is a record that is it, field by field, and fits every limit; that record is unique. |
| V3Records.RefusalNamesFirstFailure | internal/api/v3.go:403-430 | A refusal names the first check that fails, in the source's order. |
| V3Stream.CountingReader.Read | internal/api/v3.go:97-106 | Counts exactly the bytes handed out. |
| V3Stream.AnswerRecord | internal/api/v3.go:244-317 | One decoded record gets exactly the report or API error it is owed, and reaches Produce exactly when the source lets it; the un-streamed too-many-records branch is dead. |
| V3Stream.HandleRecordStream | internal/api/v3.go:188-323 | For every run: the header is written once and is the final status; exactly the arrivals that should reach Produce do, at most MaxRecords, in order, each record field by field that of its own arrival, for the path's topic and within every limit; either one API error, or one report per decoded record in order plus one only for a decode error; the costs offered telescope to the bytes read and never exceed the body length. |
| V3Stream.StreamIsAnswered | internal/api/v3.go:188-323 | In every finished run the status follows from the first attempt alone; one API error, with that status and the text owed, exactly when it is not 200; otherwise every decoded record has the report it is owed, and a body that stops decoding has a last report, 413 or 400. |
| V3Stream.StreamEndsExactly | internal/api/v3.go:217-317 | Every run stops at the first record that the limiter refuses, that is one too many or whose produce call fails, or else at the first attempt that yields no record; only a body that stops decoding adds a report of its own. |
| V3Stream.ReportIsOwed | internal/api/v3.go:244-317 | Check by check, on the raw fields of result and error: the codes and texts of every report, and for a delivery the path's topic, the partition and offset of the result, and the record's own metadata. |
| V3Stream.SubmittedAreReaching | internal/api/v3.go:262-285 | What Produce gets is exactly the records of the attempts that reach it, in order. |
| V3Stream.ReachingIsAll | internal/api/v3.go:244-285 | No attempt that is allowed, not one too many and acceptable is left out. |
| V3Stream.StreamTimesOutIff | internal/api/v3.go:285-307 | The stream answers 504 if and only if the very first record reaches Produce and its context ends. |
| V3Stream.DecodesIffCount | internal/api/v3.go:217-317 | The declarative account of where a run stops fits exactly one number of decoded records, the one counted attempt by attempt. |
| V3Stream.SubmittedBound | internal/api/v3.go:262-273 | No run gives Produce more than MaxRecords records. |
| V3Stream.ChargeNext | internal/api/v3.go:217-257 | Charging the bytes read since the last record keeps every prefix sum of charges equal to the bytes read so far. |
| V3Batch.ValidateBatchID | internal/api/v3.go:569-585 | Accepts exactly the new, non-empty ids of at most 80 bytes and remembers every well-formed one. |
| V3Batch.AcceptedIffSound | internal/api/v3.go:346-357 | An entry is sent to Kafka exactly when its id has 1 to 80 bytes and no earlier entry has it, and its record is acceptable; then it is within limits. |
| V3Batch.SortEntries | internal/api/v3.go:343-357 | The first loop yields the accepted envelopes in order and the rejections in order. |
| V3Batch.SortResults | internal/api/v3.go:378-389 | The second loop files each result under its own envelope, indexing in bounds. |
| V3Batch.HandleBatch | internal/api/v3.go:325-396 | Empty and oversized batches are refused with 400; nothing accepted means no produce call; a produce error refuses the batch; otherwise successes, and rejections followed by Kafka failures. |
| V3Batch.RecordsAreOwn | internal/api/v3.go:361-364 | Produce gets one record per accepted entry, in order, each field by field that entry's own. |
| V3Batch.EachResultIsItsOwn | internal/api/v3.go:361-396 | A batch with an accepted entry is answered with what Produce says of those very records: each success carries the place reported for its own entry's record, each Kafka failure its code and text, each rejection its entry's id and reason; a produce error refuses the batch. |
| V3Batch.NothingAcceptedIsAnswered | internal/api/v3.go:343-396 | A batch without an accepted entry is answered entry by entry all the same: no success, every entry rejected with its own id and reason, whatever Produce would have said. |
| V3Batch.VerdictsAreJudged | internal/api/v3.go:346-357 | Every accepted entry keeps its id, and no two accepted entries share one. |
| V3Batch.EveryEntryIsAccounted | internal/api/v3.go:325-396 | Whenever the batch is answered entry by entry, the multiset of ids over successes and failures is that of the entries. |
| V3Batch.SuccessesAreOrderedAndDistinct | internal/api/v3.go:378-389 | Successes are in input order, each with its own entry's id and metadata, with pairwise distinct ids. |
| V3Batch.RejectionsAreOrdered | internal/api/v3.go:346-355 | The rejected entries appear in input order with code 400 and their own reason. |
| V3Batch.KafkaFailuresAreOrdered | internal/api/v3.go:378-386 | The Kafka failures appear in input order, each under its own entry's id with its own code and text. |
| V3Batch.BatchTimeoutIsNot504 | internal/api/v3.go:367-373 | When a batch with an accepted entry gets a produce error it is refused, never with 504, and with 503 if and only if the producer was not overloaded. |
| V2Decoder.DecodeNullableValue | internal/api/types.go:235-254 | An absent or null value gives no bytes, and any other JSON value its one compact rendering; binary values go through base64. |
| V2Decoder.DecodeHeaders | internal/api/types.go:188-214 | Succeeds exactly when count, keys, values and sizes are acceptable; then all headers in order. |
| V2Decoder.DecodeRecord | internal/api/types.go:107-161 | A record is taken exactly when everything decodes and every limit holds, else refused with a true complaint. |
| V2Decoder.AcceptableIffFits | internal/api/types.go:107-161 | A record of the body is acceptable if and only if its header values are there and there is a record that is it, field by field, and fits every limit. |
| V2Decoder.DecodeProduceRequest | internal/api/types.go:87-164 | Missing or empty records are unprocessable, too many are refused; otherwise the whole list in order with the first schema ids, or the first unacceptable record. |
| V2Decoder.AcceptedIff | internal/api/types.go:95-164 | A request is accepted if and only if it has 1 to MaxRecords records and all are acceptable. |
| V2Decoder.AcceptedRecordsAreOwn | internal/api/types.go:107-161 | Record i of an accepted list is field by field that of the body: key and value bytes from base64, from the compact rendering of the JSON value, or from the schema encoder asked for that side; headers likewise; the path's topic and its partition when it has one. |
| V2Decoder.AcceptedIdsAreOwn | internal/api/types.go:107-164 | The key schema id of an accepted list is the first one a key was encoded with, the value schema id the first of a value; none outside the schema formats. |
| V2Decoder.AcceptedListIsWithinLimits | internal/api/types.go:131-161 | Every accepted list keeps order and path topic, each record is within every limit, and its partition is the path's when given, else its own, absent or non-negative. |
| V2Decoder.AcceptedBytesAreBounded | internal/api/types.go:156-158 | The bytes of an accepted list are at most MaxRecords times MaxRecordBytes. |
| V2Decoder.AcceptedListNeverWraps | internal/producer/franz/producer.go:84-91 | When that fits below 2^63 with every admission limit that is on, admission decides exactly on an accepted list in any reachable state, and the counters with a limit never wrap. |
| JsonProofs.ParseIsSound | internal/api/types.go:270-273 | What the JSON parser accepts is the print of the tree it returns, and that tree is well formed. |
| JsonProofs.ParseIsComplete | internal/api/types.go:270-273 | Every printed document parses back to itself, whitespace included. |
| JsonGrammar.NumberGrammar | internal/api/types.go:270-273 | What the parser takes for a number is exactly the number grammar of section 6 of RFC 8259. |
| JsonGrammar.StringGrammar | internal/api/types.go:270-273 | What it takes for a string body is exactly a sequence of the characters of section 7 of RFC 8259. |
| Compaction.JsonRawIsCompact | internal/api/types.go:276-302 | The scanner says compact exactly when stripping whitespace outside strings changes nothing. |
| Compaction.StripIsIdempotent | internal/api/types.go:270-274 | Compacting twice is compacting once, from any scanner state. |
| Compaction.StripPrint | internal/api/types.go:270-274 | Stripping the print of any tree gives the print of the tree without its whitespace. |
| Compaction.DecodeJSONValue | internal/api/types.go:264-274 | On every JSON text the fast path returns the one compact rendering of its tokens. |
| Compaction.DecodersAgree | internal/schema/encoder.go:97-106 | For every JSON text, however spaced, the v2 decoder and the always-compacting v3 encoder yield the same compact rendering, which parses back to the same tokens. |
| Compaction.SameBytesSameTokens | internal/api/types.go:264-274 | Two JSON texts decode to the same bytes exactly when they are the same text up to whitespace. |
| Compaction.NullIsRecognised | internal/api/types.go:304-306 | A text is treated as null exactly when its value is null. |
| Decimal.IntRoundTrip | internal/api/types.go:328-355 | Reading back a printed integer gives the integer. |
| Decimal.IntegerGrammar | internal/api/handler.go:339-346 | An integer is read exactly from an optional sign and at least one digit. |
| ProduceResponse.QuoteIsBodyIffSafe | internal/api/types.go:324-330 | Quoted error text, invalid UTF-8 included, is a JSON string body if and only if each rune is one AppendQuote escapes the JSON way; otherwise no reader gets past it. |
| ProduceResponse.QuoteRoundTrip | internal/api/types.go:324-330 | Safe text survives quoting: reading it back gives the same characters, and none was an invalid byte. |
| ProduceResponse.AppendResult | internal/api/types.go:313-343 | One entry's bytes are the print of its JSON object. |
| ProduceResponse.AppendNullableInt | internal/api/types.go:349-355 | Appends the decimal or null. |
| ProduceResponse.AppendProduceResponse | internal/api/types.go:308-347 | The bytes appended are exactly the print of the response object. |
| ResponseReader.ResponseParsesIffSafe | internal/api/types.go:308-347 | The response parses if and only if the text of every result with an error is safe. |
| ResponseReader.BellBreaksResponse | internal/api/types.go:324-330 | A bell, or any byte that is not UTF-8, in an error text gives a response no JSON reader accepts. |
| ResponseReader.ResponseRoundTrip | internal/api/types.go:308-347 | For safe texts, reading the response gives one entry per result in order: partition and offset when the result has neither an error nor an error code, else null and null with its code and text, defaults included; and the schema ids. |
| Soak.CountResultStatus | internal/api/types.go:357-366 | Failures are the results with an error or an error code, successes all the others. |
| Soak.CountRecordResults | cmd/soak-produce/main.go:359-378 | Counts exactly the failed entries of a readable response of the expected length, else an error. |
| Soak.ClientReads | cmd/soak-produce/main.go:359-378 | The client reads a response exactly when its texts are safe, and sees one entry per record with the server's verdict. |
| Soak.ClientAndServerAgree | cmd/soak-produce/main.go:366-376 | On every readable response client and server count the same failures. |
| EndToEnd.ResponseTellsCallbacks | internal/producer/franz/producer.go:76-205 | In every run, when Produce has returned results with safe texts, the printed response reads back with one entry per record, in order, each telling the HTTP client what the Kafka client reported for that record. |
| EndToEnd.CountsAreErrors | internal/api/types.go:357-370 | And the server, and every client that can read the response, count as failed exactly the records whose callback reported an error. |
| Soak.PostOnce | cmd/soak-produce/main.go:316-357 | Status, latency, size, error flag and reason are those of the exchange; every result's records are successes plus failures: the entries' own failures on a readable 2xx response of the right length, all of them otherwise; a request counts as failed exactly when some record failed, and then has a reason. |
| Soak.RunSoak | cmd/soak-produce/main.go:273-292 | Every counter is the sum it stands for over all results, the reasons are those of the failed requests, the latencies the first samples up to the cap; and the totals balance whenever all results come from postOnce. |
| Soak.SumsBalance | cmd/soak-produce/main.go:273-292 | Over any results from postOnce attempted equals succeeded plus failed equals requests times records per request, failed requests have between one and all of their records failed, and the reasons number the failed requests. |
| Soak.SizesAddUp | cmd/soak-produce/main.go:273-292 | The bytes sent are the body size times the requests. |
| Soak.BalancedBounds | cmd/soak-produce/main.go:273-292 | Attempted is requests times records per request; failed requests lie between failed records over records per request and failed records. |
| Soak.EveryFailureIsFiled | cmd/soak-produce/main.go:280-287 | Whatever the results, an error, a status that is not 2xx or a failed record files the request under its reason, or under the fallback when it has none. |
| Soak.ReasonsAreReported | cmd/soak-produce/main.go:280-287 | Every failed request from postOnce is filed under its own reason. |
| Registry.MemoryRegistry.constructor | internal/schema/registry.go:176-182 | A new registry is empty and starts at id 1. |
| Registry.MemoryRegistry.Resolve | internal/schema/registry.go:184-231 | Answer and new state follow the selector precedence id, version, schema, latest; only a schema registers. |
| Registry.RegistrationIsOwn | internal/schema/registry.go:211-225 | A registering request is answered with its own subject and schema text, its own type normalised, the next id and the next version of its subject, both counted from the history. |
| Registry.RunsStayConsistent | internal/schema/registry.go:169-231 | In every run ids in use are exactly 1 to nextID-1, slot k carries version k+1 and its subject, and the two indexes agree. |
| Registry.EachIdHasOneSlot | internal/schema/registry.go:211-225 | Every id in use occupies exactly one slot of one subject's list. |
| Registry.NumbersCountRegistrations | internal/schema/registry.go:212-215 | Ids and versions count the registrations, overall and per subject. |
| Registry.RunsExtend | internal/schema/registry.go:184-231 | Later requests only add: the id index grows and each version list keeps its prefix. |
| Registry.RegistrationIsPermanent | internal/schema/registry.go:190-210 | What was registered is found unchanged by every later lookup, by version exactly and by id up to the requested subject name. |
| Registry.RegisteredTextIsFound | internal/schema/registry.go:190-210 | However many requests later, a lookup by that id or by that version finds the schema text and type the request asked for. |
| Registry.LatestIsLastRegistration | internal/schema/registry.go:226-230 | A lookup by subject alone gets the very answer its most recent registration got. |
| Registry.LatestFailsIffNone | internal/schema/registry.go:226-229 | It fails exactly when the subject was never registered. |
| Registry.LatestTextIsFound | internal/schema/registry.go:226-230 | A lookup by subject alone finds the schema text and type its most recent registration asked for. |
| Registry.FailuresAreExact | internal/schema/registry.go:190-230 | Exactly which lookups fail after any history, and with which error. |
| SchemaTypes.TypesAreCanonical | internal/schema/registry.go:259-270 | Which spellings name Avro, JSON Schema and protobuf, in any case and with any whitespace around; any other stands for itself. |
| SchemaTypes.NormalizingIsStable | internal/schema/registry.go:259-270 | A normalised type is left alone. |
| WireFormat.AppendConfluentWireFormat | internal/schema/encoder.go:231-243 | Appends exactly the frame of id, type and payload. |
| WireFormat.FrameBytes | internal/schema/encoder.go:231-243 | Byte by byte: zero, the id in four big-endian bytes, a zero index for protobuf only, the payload. |
| WireFormat.FrameRoundTrip | internal/schema/encoder.go:231-243 | Decoding a frame returns the payload and the id modulo 2^32: the id itself if and only if it fits. |
| WireFormat.UnframeRoundTrip | internal/schema/encoder.go:231-243 | Every byte string that decodes is the frame of what it decodes to. |
| WireFormat.FramesAreInjective | internal/schema/encoder.go:231-243 | Frames of one type are equal exactly when ids and payloads are. |
| WireFormat.FirstMessage | internal/schema/encoder.go:223-229 | The search ends at the leftmost leaf, the message at index path [0, ..., 0] without nested messages. |
| WireFormat.ZeroByteNamesMessageIff | internal/schema/encoder.go:236-241 | The zero index byte names the encoded message if and only if the first top-level message has no nested message. |
| WireFormat.NestedMessageIsMisnamed | internal/schema/encoder.go:223-241 | A concrete descriptor whose frame names the outer message. |
| WireFormat.SubjectIsNeverMissing | internal/schema/encoder.go:245-268 | The subject the encoder resolves is never empty, so the registry never refuses it for want of one. |
| WireFormat.SubjectsByStrategy | internal/schema/encoder.go:245-268 | Which subject is asked for: the given one, else the record name, with or without the topic, under a strategy that names it, else topic-key or topic-value. |
| WireFormat.EncodeSchemaAware | internal/schema/encoder.go:108-154 | Null data yields no bytes and leaves the registry alone; without a registry the rest fails; otherwise the payload leaves only as the frame of the id resolved for its subject, reported under that id, version, type and size. |
| WireFormat.AnswerIsStored | internal/schema/registry.go:184-231 | Whatever the registry answers, by id, version, text or latest, is the entry it keeps under that id from then on, up to the requested subject. |
| WireFormat.FramedSchemaIsFound | internal/schema/encoder.go:115-146 | However the schema was selected, the id read out of a frame finds, however many requests later, the schema text, type, id and version the payload was written with; when the request registered it, that is the request's own text. |
| Paths.UnescapeIffEncoding | internal/api/handler.go:332-335 | Within one segment, unescaping is exactly the inverse relation of percent-encoding. |
| Paths.SplitJoin | internal/api/handler.go:327 | Splitting undoes joining for segments without slashes. |
| Paths.JoinSplit | internal/api/handler.go:327 | Joining undoes splitting for every path. |
| Paths.TargetFromPathIff | internal/api/handler.go:320-348 | A path is accepted as a target if and only if it is the prefix followed by a spelling of it. |
| Paths.TargetsAreValid | internal/api/handler.go:332-347 | Every target has a topic and an absent or non-negative 32-bit partition. |
| Paths.PathRoundTrip | internal/api/handler.go:320-348 | For every non-empty topic and every partition from 0 to 2^31-1 the built path reads back as exactly those. |
| Paths.V2PathsWrittenOut | internal/api/handler.go:320-348 | The v2 paths as literal text: topics, and topics with a partition. |
| Paths.V3PathRoundTrip | internal/api/v3.go:475-499 | Whatever encoding of cluster and topic is used, the v3 path gives back cluster, topic and batch flag. |
| Paths.V3PathIsSpelled | internal/api/v3.go:475-499 | Every accepted v3 path is, up to the leading slash, such a path. |
| Paths.V3PathsWrittenOut | internal/api/v3.go:475-499 | The v3 paths as literal text: records and records:batch. |

## Left out

- V3Records.EnvelopeIffAcceptable: header problems share one error text, because only acceptance and the envelope are stated.
- V2Decoder.DecodeRecord: complaints are a datatype, not the source's formatted messages with record indexes.
- Limits.Admission.TryAcquire: the mutex is not modelled; it makes each method one atomic step.
- RequestState.RecordPool.Acquire: which free wrapper sync.Pool hands out is arbitrary, and the pool of the class never forgets one (the transition system's does).
- TokenBucket.Limiter.Allow: float64 rounding; the arithmetic is over reals.
- WireFormat.EncodeSchemaAware: reading a record name out of the schema text (schemaRecordName) is a parameter.
- Soak.RunSoak: percentiles, thresholds and the report are not part of this model.
- Franz-go beyond the exactly-once callback: batching, retries, TLS, SASL, compression, acks.
- encodeAvro, encodeJSONSchema and encodeProtobuf, base64 and json.Unmarshal are function parameters or pre-decoded data; key case-folding and surrogate escapes of Go's decoder are not modelled.
- HTTPRegistry: a network client whose selector precedence (schema, version, id) differs from the in-memory registry's.
- Upper-casing of schema type names is ASCII only, and ids are unbounded integers until they are framed.
- `u.EscapedPath()`: paths are modelled from the escaped path on.
- Cluster id matching, bearer auth, topic allowlist, media types, metrics, health and readiness: one-branch plumbing.
- Delivery timestamps, flushing, logging and message texts that embed numbers or Go error strings.
- Nil versus empty header slices: both are the empty sequence.
- cmd/bench-produce, cmd/capture-compatibility, cmd/license-bundle and internal/config/config.go: reporting, file output and single-condition checks.
