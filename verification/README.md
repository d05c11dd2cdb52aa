# Verified model of the manga translation server

The server accepts page images over HTTP, queues them in Redis, renders them in Python workers and keeps
the results in a content-addressed cache that both the Go front end and the workers write. This project
models the parts where that is hard to get right, and proves what they are for.

* **Jobs** (`JobMachine`, `JobDelivery`, `JobResults`, `JobDedup`, `JobRelease`, `JobEpochs`, `JobMarkers`, `JobSchedule`;
  `SharedRedis`, `JobQueue`, `JobConsumer`). Redis is one shared state and each command, or `MULTI` transaction, one
  atomic step, so a run interleaves any number of submit calls and workers and stops any of them between two commands.
  The invariants are proved of every reachable world. The classes are the code itself: `SubmitJob` and the worker loop as methods that change the
  shared world only through machine steps and yield to everybody else between two of their own.
* **Decoding** (`Decoder`, `TokenStream`, `ReferenceDecoder`, `GreedyDecoding`). The OCR decoder over arbitrary linear
  maps, norms and rotations in exact arithmetic. The cached loop is an imperative program on a cache object and a token
  array, proved equal to a full block-causal pass over the whole prefix at every step, and that pass to the formulas
  written out once more without cache, mask or batch.
* **Numbers and JSON** (`Numeral`, `NumberForm`, `NumberRender`, `GoNumber`, `Rounding`, `JsonString`, `JsonTree`,
  `CanonicalJson`, `CompactJson`, `JsonWriter`, `GoReader`, `Runtimes`, `GoWriter`). The normal form of a numeral, an RFC 8259 reader,
  and the two writers whose bytes decide the identity of a cached page.
* **Page cache** (`ArtifactRefs`, `CacheMachine`, `PageCache`, `Digests`). Object and manifest writes as steps that may stop
  anywhere while files rot on disk.
* **Detections** (`Sorting`, `Detection`, `VisualRows`, `ReadingOrder`, `ReadingDirection`, `PageDetections`,
  `RtdetrAdapter`). Suppression, linking and reading order, each a loop over lists proved equal to a function of the
  *set* of detections, and that function said in terms of where things are on the page.
* **Translation** (`PyText`, `TranslationReply`, `TranslationRecovery`, `TranslationUse`, `TranslationPage`). The recursive recovery
  from bad provider replies, for every provider.
* **Layout and pixels** (`EditDistance`, `FontFit`, `WordWrap`, `Columns`, `FloatColumns`, `Cleanup`). Two-row edit distance, the
  font searches, word wrapping, column slicing, and the exact frame of masked cleanup.

`Basics` holds the definitions the others share; `Doubles` is rounding to IEEE 754 binary64.

What the proofs turned up about the code:

* `server/queue.go:96` and `:125` promise to update the latest marker on the dedup paths, but a page with a marker
  is always forced new (line 82), so neither call ever does anything. The model leaves them out.
* The `HDEL` of a stale dedup hit (`server/queue.go:103`) does not look at what it deletes, so two stale hits can
  both queue (`JobDedup.StaleEvictionCanQueueTwice`); and after a failed call a hit can name a job that was never
  queued (`JobDedup.FailureCanStrandAHit`). "Exactly one call queues" is therefore proved for fields that met
  neither, and one job for each time a field was set in every run (`JobEpochs`).
* The Lua script compares page sequences as doubles (`server/queue.go:229-241`), while every positive int64 is let in.
  Sequence 2^53 + 1 followed by 2^53 under one group leaves the smaller one stored and defers the page with the larger
  (`JobMarkers.SharedDoubleDefersTheLarger`). The stored mark has the largest sequence exactly when no later mark of the
  group is the same double (`JobMarkers.StoredMarkIsLargest`), hence whenever all are at most 2^53.
* The Go string writer puts U+2028 and U+2029 back with two `ReplaceAll` calls, which also hit the tail of an escaped
  backslash followed by `u2028` or `u2029`. The writers agree exactly on strings without that text, and on the
  others the Go literal cannot be read back at all (`JsonString.WritersAgree`, `JsonString.GoLiteralIsReadable`).
* A number such as `1e-400`, nearer to zero than to any other double, is written as `0` by Go and refused by Python
  (`Runtimes.TheServerWritesZero`). The two write the same bytes exactly for the trees with no such number, none that
  overflows, and no spelled-out separator (`Runtimes.ServerAndWorkerAgree`).
* `normalizeJSONNumber` sums in a 64-bit `int`. A numeral whose exponent parses can still leave that range, and then
  loses its value: `10e9223372036854775807` is written as `1e-9223372036854775808`
  (`GoNumber.WrappingCollides`, and `GoNumber.RightUnlessWrapped` for exactly when).
* Claimed entries do not count towards the high streak: a worker with a burst of one can answer two high jobs in one
  tick past a waiting low entry (`JobSchedule.OneTickMayExceedTheBurst`). The burst bounds what a worker reads, and all
  it processes exactly when it takes nothing over (`JobSchedule.BurstBoundsUnlessRescued`).
* `character_spans` computes in binary64, and the last span can end a pixel above its chunk
  (`FloatColumns.TheEndMayFallShort`).
* The font searches keep going after their bounds cross, so where the smallest size does not fit they can answer one
  below it (`FontFit.BelowTheSmallest`); they find the largest fitting size exactly when the smallest one fits.

## Model

| member | source | states |
|---|---|---|
| `JobMachine.EffectFrame` | server/queue.go:91-207 | The reserving, storing and enqueuing commands of a submit call leave other calls and the workers alone; only the enqueue touches a stream, a marker or the record of what was queued, and it appends the call's own entry to the stream of its priority. |
| `JobMachine.ReachableStep` | server/worker/consumer.py:149-185 | Every enabled step of any process leads from a reachable world to a reachable one, so the methods below never leave the machine. |
| `JobMachine.QuietSubmit` | server/queue.go:78-219 | Every submit command but one that takes effect as the enqueue leaves both streams, all markers, the workers and the records of queued jobs and marks as they were. |
| `JobDelivery.StepKeepsDelivery` | server/worker/consumer.py:217-509 | Every step of every process keeps the delivery invariant: an acknowledged entry is answered or copied to the low stream, and what a worker holds is an entry it was handed. |
| `JobDelivery.StepKeepsLedger` | server/queue.go:148-210 | Every step keeps the ledger: each entry traces back to exactly one submit call, or to the high entry it was copied from. |
| `JobDelivery.ReachableDelivery` | server/worker/consumer.py:217-509 | Both invariants hold in every world any run can reach. |
| `JobDelivery.NoJobIsLost` | server/worker/consumer.py:217-564 | In every run, with any crashes, a queued job's entry is undelivered, pending or answered, or the same holds of a low copy of that entry; answered means announced with a result in Redis, or with one that expired or was cancelled since it was last stored. |
| `JobDelivery.DrainedStreamsAnswerEveryJob` | server/worker/consumer.py:217-564 | When both streams are fully delivered and nothing is pending, every job ever queued has been answered. |
| `JobDelivery.OriginalsAreUnique` | server/queue.go:148-204 | A job has at most one uncopied entry in both streams together; every copy equals it up to the copied mark, and it holds the image, revision and marker of the call that queued it. |
| `JobDelivery.LowJobsAreNotDeferred` | server/worker/consumer.py:463-509 | A worker never decides to defer an entry read from the low stream, and each copied low entry is the copy of a high one. |
| `JobResults.ResultIsTheLastStored` | server/worker/consumer.py:511-540 | In every run, a job has a given result in Redis if and only if some step stored it and no later one stored another, or dropped it. |
| `JobResults.AnsweredJobsHaveResults` | server/worker/consumer.py:511-564 | An answered job was announced, a step stored its last result, and that result is there unless it was dropped afterwards. |
| `JobResults.StatusIsEarned` | server/worker/consumer.py:273-461 | A stored status was met earlier in the run by a worker with an entry of that job: another revision; no image; no metadata to render again from; or what rendering gave, with the revision and the image there. |
| `JobResults.ResultsAreEarned` | server/worker/consumer.py:273-461 | So was the status of every result there is. |
| `JobDedup.ReachableDedup` | server/queue.go:91-133 | The dedup invariant holds in every reachable world. |
| `JobDedup.ExactlyOneCallQueues` | server/queue.go:91-133 | When all unforced calls for a field have come back and the field saw no eviction, expiry or failure, exactly one of them queued its job and every other returned that job's id as a hit. |
| `JobDedup.HitsNameTheOwner` | server/queue.go:111-133 | Under the same conditions, in any world, two returned calls name the same job and two queued jobs are one. |
| `JobDedup.OneHolderDespiteFailures` | server/queue.go:114-133 | Even with failures, in a field that never lapsed, two calls between reservation and release are the same call, and the field names it. |
| `JobDedup.ReleaseRemovesOnlyItsOwn` | server/queue.go:32-37 | A release frees a field if and only if it is the releasing call's own, still names that call and the command gets through; it adds none and changes no other. |
| `JobDedup.ReleaseSparesOtherHolders` | server/queue.go:32-37 | In every reachable world, whoever else holds a field that never lapsed goes on holding it after the release. |
| `JobDedup.StaleEvictionCanQueueTwice` | server/queue.go:97-104 | A reachable world where two calls that found the same stale hit both queued. |
| `JobDedup.FailureCanStrandAHit` | server/queue.go:118-133 | A reachable world where a call returned a hit on a job that was never queued, its owner having failed. |
| `JobRelease.OnlyWinnersAreNamed` | server/queue.go:114-133 | In every reachable world, with any failures, a field names only an unforced call for it that won it and is queuing, queued or failed. |
| `JobEpochs.StepKeepsEpochs` | server/queue.go:91-133 | Every step of every process keeps the epochs of a field: one owner each, one epoch more than removals while the field is set, only owners hold the field or queue, and hits name owners. |
| `JobEpochs.OnlyOwnersQueue` | server/queue.go:91-133 | In every run, with evictions, expiries and failures at will, the winners of a field are different calls, one for each time it was set; each unforced call that queued a job is one of them, and each returned answer names one of them. |
| `JobEpochs.AtMostOneJobPerEpoch` | server/queue.go:91-133 | The unforced calls for a field queue at most one job more than the times the field was removed. |
| `JobMarkers.StepKeepsMarkers` | server/queue.go:195-254 | Every step of every process keeps the stored marks the newest ones recorded, sequences compared as doubles. |
| `JobMarkers.StoredMarkIsNewest` | server/queue.go:229-241 | In every reachable world a stored marker is one of the marks submitted since the key last expired: as doubles, none before it has a larger sequence and all later ones have smaller ones. |
| `JobMarkers.StoredMarkIsLargest` | server/queue.go:229-241 | It is the mark with the largest integer sequence, the last such one, if and only if no later mark of the key is the same double. |
| `JobMarkers.SmallSequencesAreOrdered` | server/queue.go:229-241 | Hence it is that mark whenever all sequences of the key are at most 2^53. |
| `JobMarkers.RecordedUntilExpiry` | server/queue.go:195-201 | A page's mark counts from the step that queues its job, and no step but the expiry of its own key ends that. |
| `JobMarkers.DeferredOnlyForANewerPage` | server/worker/consumer.py:463-509 | A worker defers only a high entry of its own revision with a marker, and only because the newest mark of its group, as doubles, has another token; for every job queued since its key last expired, that mark's sequence is at least the entry's, or the same double. |
| `JobMarkers.NewestPageIsNotDeferred` | server/worker/consumer.py:463-509 | The entry whose token is that of the newest mark, as doubles, is never deferred. |
| `JobMarkers.LargestPageIsDeferredWhenShadowed` | server/worker/consumer.py:463-509 | The page with the largest integer sequence is deferred only if a later mark is the same double, and an interactive one of the worker's revision exactly then, when no later mark carries its token. |
| `JobMarkers.SharedDoubleDefersTheLarger` | server/queue.go:229-241 | A reachable world in which sequence 2^53 with token B has replaced 2^53 + 1 with token A, and a worker defers the page of A. |
| `Doubles.DoubleGrows` | server/queue.go:229-241 | Rounding to the nearest double, ties to even, keeps the order of numbers. |
| `Doubles.DoubleError` | server/kindle/book_processor.py:69-71 | A double is within 2^-52 of the number it rounds, relative to that number plus one. |
| `Doubles.WholeIsDouble` | server/queue.go:229-241 | Integers up to 2^53 are doubles. |
| `Doubles.SharedDouble` | server/queue.go:229-241 | 2^53 and 2^53 + 1 are one double. |
| `SharedRedis.Redis.Do` | server/queue.go:78-210 | One command takes the shared world to exactly the world of that step, and keeps it reachable. |
| `SharedRedis.Redis.Yield` | server/worker/consumer.py:149-185 | However many steps the other processes take, this process's own position stays and history only grows. |
| `JobQueue.Queue.SubmitJob` | server/queue.go:78-211 | Accepted: the job was queued on its stream with this request's image, revision and marker, and its image is stored. Duplicate: only an unforced call, which queued nothing, and in a steady field the hit is what the field names. Failed: the call reached an error exit, and its field does not name it, unless the release or the reply to the reservation got lost. |
| `JobQueue.Queue.LookUp` | server/queue.go:91-110 | The call returns the hit it found, which was read, is not stale and is what the field names, or goes on to reserve; unless the read or the deletion of a stale hit got lost, the field is free when it does. |
| `JobQueue.Queue.ReserveField` | server/queue.go:119-133 | Own reservation, somebody else's job as a hit, or an error exit, and the call stands exactly where its answer says; after an error the field does not name it, with the same exceptions. |
| `JobQueue.Queue.StoreAndEnqueue` | server/queue.go:135-210 | An accepted call has its image stored and its entry queued; anything else ends in the error exit, which an enqueue whose reply was lost may reach as well, with the reservation given back unless the release got lost. |
| `JobQueue.Queue.GiveUp` | server/queue.go:213-219 | The call ends at its error exit whether or not the release got through; if it did, the field does not name the call. |
| `JobConsumer.Consumer.ReadOne` | server/worker/consumer.py:251-271 | Finds a message exactly when an undelivered entry was there, and then holds that stream's entry. |
| `JobConsumer.Consumer.ProcessMessage` | server/worker/consumer.py:273-461 | Unless it raised, the message is no longer pending and its job was answered, or it came from high and a low copy of it exists; a processed message had what rendering gave stored as its result, a skipped one the reason for not rendering; and the count of processed high messages grows exactly when this was one. |
| `JobConsumer.Consumer.Work` | server/worker/consumer.py:335-461 | Unless it raised, the job is answered and the message no longer pending, and the message counts as processed exactly when the result stored is what rendering gave; working never defers. |
| `JobConsumer.Consumer.Defer` | server/worker/consumer.py:463-509 | Unless it raised, the high message is acknowledged and a low copy of its entry exists. |
| `JobConsumer.Consumer.Answer` | server/worker/consumer.py:511-564 | Unless it raised on the way, the result was stored with the status decided on, the job is answered and the message is no longer pending. |
| `JobConsumer.Consumer.ReadNext` | server/worker/consumer.py:187-204 | Past the burst a waiting low entry is what gets read, before that a waiting high entry. |
| `JobConsumer.Consumer.DoTick` | server/worker/consumer.py:187-215 | A tick moves the streak by exactly the rule for what it read and how that ended; past the burst it reads low if low was waiting, before that high if high was; and the high messages processed in it are the one it read, if it was processed, and those it took over and processed, at most ten. |
| `JobConsumer.Consumer.ClaimPending` | server/worker/consumer.py:217-249 | At most ten entries change hands; those handled before the first exception are answered or copied, the others answered, copied or still pending; the high messages processed are exactly those of a claim of the high stream. |
| `JobConsumer.Consumer.ProcessBacklog` | server/worker/consumer.py:237-244 | Claimed messages are answered or copied one after another up to the first exception, the later ones are answered, copied or still pending, and the high messages processed are counted. |
| `JobConsumer.Consumer.Run` | server/worker/consumer.py:149-215 | The ticks of any run follow the weighted schedule from the streak it started with, and with the first claim they account for exactly the high messages processed. |
| `JobSchedule.ScheduledWindow` | server/worker/consumer.py:187-208 | Any stretch of a scheduled run is itself scheduled, from the streak reached there. |
| `JobSchedule.LowIsNotStarved` | server/worker/consumer.py:187-208 | While low is waiting and not read, the high jobs read and processed are at most what is left of the burst, and there is no such tick once the burst is used up. |
| `JobSchedule.NoStretchStarvesLow` | server/worker/consumer.py:187-208 | Any stretch of a run without a low read, low waiting throughout, processes at most `high_burst_before_low` of the high jobs it reads, and that many plus those it takes over in all. |
| `JobSchedule.LowWaitsForTheBurst` | server/worker/consumer.py:187-208 | A waiting high stream is passed over only once the streak and the high jobs processed since add up to the burst. |
| `JobSchedule.BurstAfterLow` | server/worker/consumer.py:187-208 | After a low job, a waiting high stream is passed over only when a whole burst of its jobs was read and processed in between. |
| `JobSchedule.MostIsReached` | server/worker/consumer.py:187-215 | Whatever each tick takes over, some schedule past a waiting low entry reads and processes as many high jobs as it has ticks and burst left for. |
| `JobSchedule.BurstBoundsUnlessRescued` | server/worker/consumer.py:187-215 | For given numbers of jobs taken over in each tick, the burst bounds all high jobs processed past a waiting low entry in every schedule if and only if ticks, up to the burst, and jobs taken over add up to no more than it; over a burst of ticks or more, if and only if none is taken over. |
| `JobSchedule.OneTickMayExceedTheBurst` | server/worker/consumer.py:206-215 | A reachable world and a run of one worker with a burst of one: it reads and answers one high job, then takes over and answers another, while a low entry waits throughout. |
| `Decoder.MaskedTailIsInvisible` | server/kindle/hayai_model.py:142-185 | Attention under a mask that hides a tail of the keys and values equals attention over the rest alone. |
| `Decoder.BlockCausalMask` | server/kindle/hayai_model.py:226-236 | The mask lets position `j` be seen from `i` exactly when it is visual, or text no later than `i` with `i` text itself. |
| `Decoder.FullLayerGrows` | server/kindle/hayai_model.py:142-206 | One more position that sees everything and is seen by nobody leaves every earlier output of a layer unchanged and adds the cached step's output. |
| `Decoder.CachedStepIsFullPass` | server/kindle/hayai_model.py:238-259 | At every depth, the hidden states of the full pass over one more token are those of the shorter prefix followed by the single cached step. |
| `Decoder.CacheIsFullKv` | server/kindle/hayai_model.py:142-185 | Each layer's cache grown by one step equals the keys and values recomputed from the whole longer prefix. |
| `ReferenceDecoder.SharesItsGroup` | server/kindle/hayai_model.py:165-173 | Repeating each of `n` key heads `g` times gives head `k` to exactly the query heads from `k * g` up to the next group. |
| `ReferenceDecoder.ContextIs` | server/kindle/hayai_model.py:167-182 | Without a mask, the context of a query head is the average of the values of its group's head, weighted by the scores of its group's keys. |
| `ReferenceDecoder.OtherHeadsDoNotMatter` | server/kindle/hayai_model.py:167-182 | The query heads from `k * g` up to `(k + 1) * g` look at key and value head `k` alone: whatever changes in any other, their context stays. |
| `ReferenceDecoder.ConstantValuesAreTheContext` | server/kindle/hayai_model.py:167-182 | Where every value of head `k` is one vector, it is the context of each of these query heads. |
| `ReferenceDecoder.HiddenIsState` | server/kindle/hayai_model.py:238-259 | At every depth the masked pass over all positions computes the states of the formulas, in which a visual position sees the visual ones and a text position everything up to itself. |
| `ReferenceDecoder.UpToStopIsStream` | server/kindle/hayai_model.py:395-438 | Greedy decoding up to its first stop is characterised token by token: each is the choice after all before it and none is a stop, and it ends only at the limit or where the choice is one. |
| `TokenStream.PaddedRowIsGreedyToTheStop` | server/kindle/hayai_model.py:397-438 | A padded row agrees with decoding the row alone up to and including its first EOS or PAD, and everywhere if there is none. |
| `TokenStream.PaddedPrefix` | server/kindle/hayai_model.py:397-433 | A longer run of a padded row extends the shorter one, and after a stop there is only padding. |
| `GreedyDecoding.ForwardLayer` | server/kindle/hayai_model.py:142-206 | A layer appends each row's keys and values to its own entry of the cache, touches no other layer, and computes each row from its own cache only. |
| `GreedyDecoding.PrefillLayer` | server/kindle/hayai_model.py:372-376 | After prefilling, a layer's cache holds each row's full keys and values, and its outputs are those of the full pass. |
| `GreedyDecoding.Prefill` | server/kindle/hayai_model.py:352-376 | The same of all layers, from an empty cache. |
| `GreedyDecoding.StepThroughLayer` | server/kindle/hayai_model.py:414-416 | One cached step through a layer makes its cache that of the prefixes with their new tokens, and its outputs those of the full pass. |
| `GreedyDecoding.StepForward` | server/kindle/hayai_model.py:408-416 | The same of all layers. |
| `GreedyDecoding.ChooseTokens` | server/kindle/hayai_model.py:418-433 | Each unfinished row takes the argmax of the recomputed logits, each finished one the pad token, and a row stops at EOS or PAD. |
| `GreedyDecoding.Advance` | server/kindle/hayai_model.py:404-433 | One loop iteration: cache, token array and unfinished flags stand for prefixes one token longer. |
| `GreedyDecoding.Collect` | server/kindle/hayai_model.py:435-439 | Each row's result is its own greedy decoding from scratch, up to its first stop. |
| `GreedyDecoding.Generate` | server/kindle/hayai_model.py:343-439 | For every model, batch and length limit, each row's result is what decoding that row alone with a full pass over the whole prefix at every step gives, up to its first EOS or PAD; and where query heads come in groups of equal size, each of its tokens is the best after all before it by the formulas, with the heads of each group attending by its one key and value head. |
| `GreedyDecoding.CleanRow` | server/kindle/hayai_model.py:436-438 | Drops every EOS and PAD token, as the list filter does. |
| `Numeral.ScanOfSpell` | server/cache.go:189-198 | Scanning a well-formed numeral in front of anything that cannot continue it yields its parts and leaves the rest. |
| `Numeral.ReadIsTheGrammar` | server/cache.go:189-197 | A text reads as a numeral if and only if it is the spelling of a valid one (RFC 8259, section 6). |
| `NumberForm.NormKeepsValue` | server/cache.go:198-215 | The normal form of a numeral has its decimal value. |
| `NumberForm.NormIsUnique` | server/cache.go:198-215 | Two valid normal forms of one value are the same form. |
| `NumberForm.NormDecidesValue` | server/cache.go:198-215 | Two numerals have one normal form if and only if they have one value. |
| `NumberRender.ReadOfRender` | server/pipeline/document.py:69-81 | The rendering of a normal form is a numeral whose normal form it is. |
| `NumberRender.NormalizedKeepsValue` | server/pipeline/document.py:56-81 | Every numeral of the grammar is normalised, to a numeral of the same value. |
| `NumberRender.NormalizedIsIdempotent` | server/pipeline/document.py:56-81 | Normalising twice is normalising once. |
| `NumberRender.NormalizedDecidesEquality` | server/pipeline/document.py:56-81 | Two numerals normalise to the same string if and only if their values are equal. |
| `NumberRender.NotationBySize` | server/pipeline/document.py:69-81 | An exponent is written exactly for values below 10^-6 and from 10^21 on. |
| `NumberRender.NothingSpare` | server/pipeline/document.py:69-81 | No zero ends a fraction, a fraction is written only where there is one, and an exponent comes after a single digit, without plus sign or leading zero. |
| `NumberRender.StripZeros` | server/pipeline/document.py:61-67 | The loop that strips trailing zeros and counts them into the exponent reaches the normal form. |
| `GoNumber.NormalizeJSONNumber` | server/cache.go:193-233 | Refuses exactly the texts outside the grammar and the non-zero numerals whose exponent is not an int64; else renders the normal form at the exponent the 64-bit sums arrive at. |
| `GoNumber.StripZerosInt64` | server/cache.go:211-215 | The loop keeps the exponent it would have without wrapping, modulo 64 bits. |
| `GoNumber.RenderInt64` | server/cache.go:216-231 | The switch on the wrapped point renders at one less than it, in 64 bits. |
| `GoNumber.RightUnlessWrapped` | server/cache.go:193-233 | A non-zero numeral the server accepts gets the normal spelling, and keeps its value, if and only if its exponent in scientific notation is an int64. |
| `GoNumber.ZeroIsRight` | server/cache.go:199-202 | Every numeral of value zero is written `0`, whatever its exponent. |
| `GoNumber.WrappingCollides` | server/cache.go:211-224 | `10e9223372036854775807` and `1e-9223372036854775808`, of different value, get the same spelling. |
| `Rounding.RoundedInRange` | server/cache.go:261-276 | What the binary64 step leaves of an accepted numeral never wraps, so it gets its normal spelling. |
| `NumberRender.CanonicalNumber` | server/pipeline/document.py:56-81 | The rendering of the spelled number computes the same normalised string, with no limit on the exponent; `Runtimes.CanonicalNumberOf` is the whole function. |
| `JsonString.ReadCharsOfEscape` | server/pipeline/document.py:84-106 | Reading an escaped string gives the string back and leaves what follows its closing quote (RFC 8259, section 7). |
| `JsonString.EscapeIsShortest` | server/pipeline/document.py:84-106 | No way to write a character that reads back as it is shorter than the one used. |
| `JsonString.PutBackOne` | server/cache.go:243-244 | One `ReplaceAll` over an escaped text turns every spelling of that separator into the separator, in an escaped literal backslash's tail too. |
| `JsonString.WritersAgree` | server/cache.go:235-247 | The Go and Python literals of a string are equal if and only if it does not hold a backslash followed by `u2028` or `u2029`. |
| `JsonString.SpellingIsCorrupted` | server/cache.go:243-244 | For every string that does hold such text, what Go writes is not a readable literal. |
| `JsonString.GoLiteralIsReadable` | server/cache.go:235-247 | The Go literal reads back as the string exactly when the string holds no such text, and not at all otherwise. |
| `CanonicalJson.PrintWritesCanon` | server/pipeline/document.py:84-106 | Printing a tree is writing its canonical form, numbers normal and members in key order. |
| `CanonicalJson.ParseWrite` | server/pipeline/document.py:84-106 | The printed text delimits itself: parsing it in front of anything that cannot continue it gives the tree and the rest. |
| `CanonicalJson.RoundTrip` | server/pipeline/document.py:84-106 | Parsing the canonical JSON of any tree, printed as it stands, gives its canonical form. |
| `CanonicalJson.SameIsCanon` | server/pipeline/document.py:84-106 | Two trees are the same value up to number spelling and member order if and only if their canonical forms are equal. |
| `CanonicalJson.SameTextIsSameValue` | server/pipeline/document.py:84-106 | Two trees, printed as they stand, print to equal text if and only if they are the same value up to number spelling and member order. |
| `CanonicalJson.CanonIsSame` | server/pipeline/document.py:84-106 | A tree's canonical form is well formed, the same value, and prints to the same text. |
| `CanonicalJson.CanonIsIdempotent` | server/pipeline/document.py:84-106 | The canonical form of a canonical form is itself. |
| `CompactJson.PrintIsCompact` | server/pipeline/document.py:84-106 | No white space is written but what strings and keys hold. |
| `CompactJson.MembersAreInOrder` | server/pipeline/document.py:101-106 | An object is written with its members in ascending order of their keys, each once and with its own value. |
| `JsonWriter.TextShrinks` | server/cache.go:235-325 | For a tree printed as it stands, without the float step: the Go text is never longer than the Python text, and shorter exactly when some string or key holds the corrupted spelling. |
| `JsonWriter.RuntimesAgree` | server/cache.go:249-325 | Go and Python texts of a tree printed as it stands, without the float step, are the same if and only if no string or key in it holds that spelling; `Runtimes.ServerAndWorkerAgree` has the numbers too. |
| `JsonWriter.ByteOrderIsCodePointOrder` | server/cache.go:302-306 | Go's key order on UTF-8 bytes is Python's key order on code points. |
| `GoReader.SpelledTextFails` | server/cache.go:235-325 | The Go text of a tree in which some string or key holds the corrupted spelling is no JSON value, whatever follows it. |
| `GoReader.GoTextIsRead` | server/cache.go:235-325 | The Go text of a tree parses to its canonical form when no string or key holds that spelling, and not at all otherwise. |
| `Runtimes.TextsAgree` | server/cache.go:249-325 | For any two binary64 steps, the Go server and a Python worker write the same bytes for a tree if and only if both accept its numbers, nothing is spelled out, and the two rounded trees are one value. |
| `Runtimes.ServerAndWorkerAgree` | server/cache.go:265-276 | With `ParseFloat` refusing what overflows and `_canonical_number` also what vanishes, they write the same bytes if and only if nothing is spelled out and no fraction or exponent in the tree overflows or vanishes. |
| `Runtimes.VanishesWhen` | server/pipeline/document.py:46-48 | A number vanishes, is not zero but rounds to it, exactly when its magnitude is at most 2^-1075. |
| `Runtimes.TinyVanishes` | server/pipeline/document.py:46-48 | `1e-400` vanishes and does not overflow. |
| `Runtimes.TheServerWritesZero` | server/cache.go:265-276 | For every number that vanishes the server writes `0` and a worker refuses. |
| `Runtimes.StepsExist` | server/cache.go:265-276 | There is a pair of steps that do as assumed of `ParseFloat` and `_canonical_number`. |
| `Runtimes.PythonTextIsRead` | server/pipeline/document.py:34-106 | What a worker writes, float step included, parses to the canonical form of the rounded tree. |
| `Runtimes.PythonTextsAgree` | server/pipeline/document.py:34-106 | Two trees a worker accepts get one text if and only if they round to the same value. |
| `Runtimes.CanonicalNumberOf` | server/pipeline/document.py:34-81 | `_canonical_number` with its float step: refused exactly when that step refuses, else the text of the rounded number. |
| `GoWriter.KeysSorted` | server/cache.go:302-308 | Sorting the keys alone gives the keys of the sorted members. |
| `GoWriter.Buffer.WriteCanonicalJSON` | server/cache.go:249-325 | Succeeds exactly when no number is out of range of a float, and then appends the canonical text of the tree with its numbers rounded, and nothing else. |
| `GoWriter.Buffer.WriteNumber` | server/cache.go:261-276 | Appends the normal rendering of the rounded number, or fails exactly when `ParseFloat` does. |
| `GoWriter.Buffer.WriteArray` | server/cache.go:290-300 | The loop over items appends the canonical text of the rounded array. |
| `GoWriter.Buffer.WriteObject` | server/cache.go:301-320 | The loop over the sorted keys appends the canonical text of the rounded object, whatever the members' order was. |
| `GoWriter.Buffer.WriteMember` | server/cache.go:308-319 | Appends one key, colon and value, or fails as the value does. |
| `ArtifactRefs.RefsAreNamed` | server/worker/page_cache.py:226-242 | A digest is among the references of a document if and only if some node at some path names it in an artifact field. |
| `ArtifactRefs.CanonKeepsRefs` | server/cache.go:770-802 | Canonicalising a document changes neither its references nor whether they are well formed. |
| `CacheMachine.FreshIsSound` | server/worker/page_cache.py:354-431 | The manifest of a page whose objects were all stored names only objects that are there, and pairs the call's own image and metadata. |
| `CacheMachine.EditedIsSound` | server/worker/page_cache.py:433-480 | The manifest of an edit whose references are artifacts of a sound base is itself sound, and stale. |
| `CacheMachine.StepKeepsInv` | server/worker/page_cache.py:134-145 | Every step of every process, including stops and rot, keeps the cache invariant. |
| `CacheMachine.ReachableIsSound` | server/worker/page_cache.py:354-480 | The invariant holds in every world any run can reach. |
| `CacheMachine.ManifestsAreClosed` | server/cache.go:722-768 | In every reachable world and for every hash, a manifest names only objects that are present with matching bytes unless they rotted, artifacts included; its hashes match its objects; and one not marked stale has the digests of the image and the metadata of one call of `store_page`. |
| `CacheMachine.BytesAreServed` | server/cache.go:722-768 | Where no two texts of the run collide, metadata that has not rotted parses and references only artifacts of its manifest, and an image not marked stale is the very image rendered by the call that wrote the metadata. |
| `Digests.SomeHashSeparates` | server/worker/page_cache.py:59-61 | For any set of fewer than 16^64 texts there is a hash with 64 hexadecimal digits under which no two of them collide. |
| `Digests.AnImageIsStored` | server/worker/page_cache.py:354-431 | A run of one `store_page` call under such a hash, without a collision: its manifest is fresh, and the object it names for the image is there with the bytes rendered. |
| `PageCache.PrintedIsReadable` | server/worker/page_cache.py:75-90 | The canonical text of a document is readable exactly when its references are well formed, and reading it back finds the same references. |
| `PageCache.PathsStayInside` | server/worker/page_cache.py:63-99 | A manifest path lies in a directory named by the stripped pipeline, which is no `.` or `..` and holds no slash, and by a well-formed source hash. |
| `PageCache.LoadsUnderOneRevision` | server/worker/page_cache.py:159-184 | A manifest is loaded under exactly its own pipeline and source and one revision: its own, or the legacy one where it has none. |
| `PageCache.ManifestIsTheLatest` | server/worker/page_cache.py:122-132 | In every reachable world the manifest at a key is the last one any process wrote there; none is ever removed. |
| `PageCache.CheckedPageIsWhole` | server/worker/page_cache.py:368-390 | A page passes the checks if and only if it has a pipeline, a path and a normal document, its source and each artifact hash to their names, and every well-formed reference is supplied. |
| `PageCache.CheckedEditIsSafe` | server/worker/page_cache.py:445-466 | An edit passes the checks if and only if the expected content hash is the one there, and the document reads and refers only to artifacts the page has. |
| `PageCache.Disk.Do` | server/worker/page_cache.py:122-132 | One file operation takes the cache to exactly the state of that step. |
| `PageCache.Disk.Yield` | server/worker/page_cache.py:122-132 | Whatever the other processes do, this one has committed nothing and forgotten nothing. |
| `PageCache.PageCache.StoreObject` | server/worker/page_cache.py:134-145 | Returns the digest of the data with that object known to be present, or fails only because the object rotted. |
| `PageCache.PageCache.ReadVerified` | server/worker/page_cache.py:147-152 | Returned bytes hash to the digest asked for and were written by somebody; a present object is refused only if it rotted. |
| `PageCache.PageCache.LoadManifest` | server/worker/page_cache.py:154-186 | What it loads lay at the right path when the call began or was written since, belongs to this pipeline, source and revision, and is sound; it loads nothing only if there is no such path, nothing lay there when the call began, or a manifest that lay there then or since fails these checks. |
| `PageCache.PageCache.StoreArtifacts` | server/worker/page_cache.py:380-387 | Succeeds only if every artifact hashes to its name, with all of them present. |
| `PageCache.PageCache.StorePage` | server/worker/page_cache.py:354-431 | Success commits exactly one manifest, the one made of this page, whose source, image and metadata objects hold the bytes given unless they rotted or two texts collide; a refusal commits none and names the first fault of the page, unless an object of the page has rotted. |
| `PageCache.PageCache.Publish` | server/worker/page_cache.py:392-431 | Commits the page's manifest once, and only after all its objects are there. |
| `PageCache.PageCache.UpdateMetadata` | server/cache.go:722-768 | In both runtimes: success replaces the manifest once by the edited one, whose metadata object holds the document given, from a base that lay there and passes the checks of loading, with the expected content hash if one was given; a refusal commits nothing and names the fault of the edit or a rotten object it needs, and "not found" only as a load does. |
| `PageCache.PageCache.Patch` | server/worker/page_cache.py:445-480 | From a loaded base, an edit is committed only when its checks pass; a refusal names the failing check, or comes from a rotten artifact of this edit or a rotten object of its own digest. |
| `PageCache.PageCache.VerifyArtifacts` | server/cache.go:747-754 | Succeeds only if every referenced artifact is permitted and read back intact; otherwise one is unknown, or a permitted one rotted. |
| `PageCache.PageCache.CommitEdit` | server/worker/page_cache.py:466-480 | Commits the edited manifest once, with its metadata object holding the document. |
| `PageCache.PageCache.LoadOutputImage` | server/worker/page_cache.py:203-214 | Commits nothing; an image it serves has the digest a fresh manifest that lay there names, and is the one some call of `store_page` rendered for this pipeline, source and revision unless two texts of the run collide; it serves none only on a miss, a stale manifest or a rotted image. |
| `PageCache.PageCache.OwnManifestsLoad` | server/worker/page_cache.py:354-480 | The manifest of a stored page passes the checks of loading, and so does an edited one, which is stale and names the same source, image and artifacts. |
| `PageCache.PageCache.StoredPageIsServed` | server/worker/page_cache.py:203-214 | While the manifest of a stored page is the last one at its key, loading never misses and its image is served unless it rotted, with the digest of the bytes passed as rendered. |
| `Sorting.SortForgetsOrder` | server/pipeline/detection.py:233-236 | Sorting by a key that separates the items gives the same list for every permutation. |
| `Sorting.OrderingIsUnique` | server/pipeline/detection.py:233-236 | A repeat-free list in key order is the only one of its elements. |
| `Sorting.SortIsOrdering` | server/pipeline/detection.py:233-236 | Sorting a repeat-free list is that list. |
| `Detection.DeduplicateByClass` | server/pipeline/detection.py:229-247 | The greedy loop keeps what is a function of the set of detections, in confidence order. |
| `Detection.KeptIsKernel` | server/pipeline/detection.py:229-247 | A detection is kept if and only if no kept earlier one of its kind overlaps it beyond the threshold. |
| `Detection.KernelIsUnique` | server/pipeline/detection.py:229-247 | There is only one such choice. |
| `Detection.KeptAndDropped` | server/pipeline/detection.py:229-247 | Kept detections of one kind never exceed the overlap threshold, and each dropped one does so with a kept one at least as confident. |
| `Detection.KeptByConfidence` | server/pipeline/detection.py:229-247 | The kept ones are listed from the most to the least confident, equally confident ones by id. |
| `Detection.EarlierIs` | server/pipeline/detection.py:229-247 | Earlier means more confident, or equally confident with a smaller id. |
| `Detection.OverlapIsTheShare` | server/pipeline/detection.py:250-262 | The overlap fraction is the share of a box's unit cells that lie in the other box. |
| `Detection.KeptIsIdempotent` | server/pipeline/detection.py:229-247 | Suppressing again drops nothing. |
| `Detection.LinkTextToBalloons` | server/pipeline/detection.py:162-187 | Each detection gets, in place, the parent that the set of detections gives it. |
| `Detection.ParentIsPreferred` | server/pipeline/detection.py:162-187 | There is no parent if and only if the item is no text or no balloon holds its centre or half of it; otherwise the parent is such a balloon, preferred to every other: by overlap, counting one more for the centre, then by smaller area, then by id. |
| `VisualRows.GrowRow` | server/pipeline/detection.py:318-335 | The worklist loop gathers exactly the connected component of its seed under `_same_visual_row`. |
| `VisualRows.SameRowIs` | server/pipeline/detection.py:351-358 | Two boxes share a row if and only if some line crosses both, or the gap between them is at most four lines or a quarter of the lower one's height. |
| `VisualRows.FindRows` | server/pipeline/detection.py:315-336 | The outer loop lists every component once. |
| `VisualRows.ClosedIsRow` | server/pipeline/detection.py:326-335 | A connected set that nothing outside shares a row with is the whole component. |
| `VisualRows.RowsSplit` | server/pipeline/detection.py:317-336 | Taking out one component leaves exactly the other components. |
| `VisualRows.ReadRows` | server/pipeline/detection.py:343-348 | Rows are read one after another, each in its own order. |
| `VisualRows.OrderVisualRows` | server/pipeline/detection.py:309-348 | The result is a function of the set of items, whatever order they came in; `ReadingDirection.VisualOrderReads` says which. |
| `VisualRows.VisualOrderIsRows` | server/pipeline/detection.py:309-348 | It is the components, each whole and in its line order, in order of their tops, one after another, and every item is in one. |
| `VisualRows.VisualOrderHasAll` | server/pipeline/detection.py:309-348 | It is a permutation of the items. |
| `ReadingOrder.OrderMangaDetections` | server/pipeline/detection.py:270-306 | Panel-grouped ordering is a function of the set of items; the rows of `ReadingDirection` say which. |
| `ReadingOrder.OrderGroups` | server/pipeline/detection.py:279-306 | The loop over panels computes it from any listing of the panels and the content. |
| `ReadingOrder.MangaOrderHasAll` | server/pipeline/detection.py:270-306 | It is a permutation of the items. |
| `ReadingOrder.HomeExists` | server/pipeline/detection.py:283-300 | Each item whose centre lies in some panel has a smallest such panel. |
| `ReadingOrder.ItemsFollowTheirPanel` | server/pipeline/detection.py:270-306 | Each item comes after the smallest panel that contains its centre, and before the next panel. |
| `ReadingDirection.VisualOrderReads` | server/pipeline/detection.py:309-348 | Of two items of one row the one whose right edge is further right is read first, at equal right edges the one with the smaller top, then by kind and id; of two items of different rows the one of the row that starts higher, then of the row whose first end is higher, then by id. |
| `ReadingDirection.HomeIsSmallest` | server/pipeline/detection.py:288-300 | An item's panel is the one of least area around its centre, and of these the one with the smallest id. |
| `ReadingDirection.PanelsRead` | server/pipeline/detection.py:279-280 | Panels are read in that order among themselves. |
| `ReadingDirection.ItemsOfAPanelRead` | server/pipeline/detection.py:283-302 | So are the items of one panel. |
| `ReadingDirection.PanelAfterPanel` | server/pipeline/detection.py:279-302 | All items of a panel are read before those of a later one. |
| `ReadingDirection.LooseItemsRead` | server/pipeline/detection.py:303-305 | Items in no panel are read after everything else, and in that order among themselves. |
| `PageDetections.FinalizeDetections` | server/pipeline/detection.py:125-140 | On distinct ids the result is a function of the set of detections. |
| `PageDetections.FinalizedHolds` | server/pipeline/detection.py:125-140 | It numbers exactly the kept detections from zero, each with its parent among them. |
| `PageDetections.PlacesSayTheOrder` | server/pipeline/detection.py:125-140 | Of two items of the page the one with the smaller place is read first. |
| `PageDetections.VerticalReads` | server/pipeline/detection.py:265-267 | On a webtoon page that is the higher one, then the one further left, then panels, balloons, texts and effects in this order, then by id. |
| `PageDetections.FinalizedIsAccepted` | server/pipeline/detection.py:143-159 | It always passes `validate_detection_collection`. |
| `PageDetections.FinalizedIsIdempotent` | server/pipeline/detection.py:125-140 | Finalizing the result again changes nothing. |
| `RtdetrAdapter.Collect` | server/pipeline/detection.py:84-95 | Fails exactly if a raw detection above its threshold has a bad box; else the candidates, in order. |
| `RtdetrAdapter.NameAll` | server/pipeline/detection.py:102-116 | Fails exactly if a confidence is outside [0, 1]; else each candidate gets its base id, with a counter where the base occurred before. |
| `RtdetrAdapter.IdsDiffer` | server/pipeline/detection.py:105-108 | Two ids are equal only if base and occurrence are. |
| `RtdetrAdapter.NamesDiffer` | server/pipeline/detection.py:97-116 | The ids given are pairwise distinct for any digest, colliding or not. |
| `RtdetrAdapter.AdaptRtdetrDetections` | server/pipeline/detection.py:71-122 | The method computes the specification the next three rows are about. |
| `RtdetrAdapter.PageShowsTheBoxes` | server/pipeline/detection.py:71-140 | Every detection of the page is a raw box with the kind of its label and a score that reaches the threshold of that kind, and each such raw box is on the page or overlaps one that is, at least as confident, beyond the duplicate threshold. |
| `RtdetrAdapter.AdaptedForgetsOrder` | server/pipeline/detection.py:71-122 | Every permutation of the raw detections gives the same result or the same failure. |
| `RtdetrAdapter.AdaptedIsAccepted` | server/pipeline/detection.py:71-159 | Every result passes `validate_detection_collection`. |
| `PyText.StripIsTrimmed` | server/pipeline/translation.py:228-234 | Stripping leaves no blank at either end, and stripping again changes nothing. |
| `TranslationReply.AcceptedReply` | server/pipeline/translation.py:190-234 | A reply is accepted exactly when it is short enough, parses without repeated keys, and spells texts for expected ids only; each accepted text is stripped and non-empty. |
| `TranslationRecovery.ReplyFills` | server/pipeline/translation.py:270-284 | A good reply fills only ids of the batch it answers. |
| `TranslationRecovery.FallbackFills` | server/pipeline/translation.py:252-260 | The fallback gives each item one single-item call and a non-empty text, and names it once. |
| `TranslationRecovery.ResolveFills` | server/pipeline/translation.py:262-284 | For every provider, a recovery that returns has given every item a text, within the attempts allowed, with distinct fallback ids. |
| `TranslationRecovery.ResolveSends` | server/pipeline/translation.py:262-284 | However a recovery ends, it sends non-empty ordered batches of the request, one for each attempt, within the attempts allowed. |
| `TranslationPage.Recovery.Fallback` | server/pipeline/translation.py:252-260 | The loop that mutates the state ends in the state of the specification, or fails with it. |
| `TranslationPage.Recovery.Resolve` | server/pipeline/translation.py:262-284 | So does the recursion, which terminates for every provider. |
| `TranslationPage.TranslateWithRecovery` | server/pipeline/translation.py:237-290 | The method returns what the specification of the next six rows does. |
| `TranslationPage.TranslationIsComplete` | server/pipeline/translation.py:237-290 | One non-empty text per item in request order, at most `max_batch_attempts` provider calls, and distinct fallback ids with one single-item call each. |
| `TranslationPage.TextsHaveAnOrigin` | server/pipeline/translation.py:237-290 | Each text came from an accepted reply to a sent batch holding the item, or, exactly for fallback ids, from the single-item call. |
| `TranslationPage.RepliesAreUsed` | server/pipeline/translation.py:271-284 | An id for which an accepted reply to a sent batch has a text gets that text, and is no fallback id. |
| `TranslationPage.FallbackIsTheLastResort` | server/pipeline/translation.py:262-284 | An id is a fallback id only if a batch of its item alone was refused, or all attempts were used. |
| `TranslationPage.BatchesFollowUp` | server/pipeline/translation.py:262-284 | The whole request is asked for first; while attempts last, a refused batch is asked for again in halves, the first at once and the second later, and what an accepted reply left out is asked for next. |
| `TranslationPage.BatchesAreValid` | server/pipeline/translation.py:75-108 | Every batch sent to the provider is itself a valid request, also in a run that ends in an exception, and their number stays within the attempts. |
| `TranslationPage.TranslatePage` | server/kindle/translator.py:150-195 | Batching a page keeps all of it, with at most eight calls a batch; it fails only if some batch does; each item has the text its own batch of 64 was translated to, with its origin there, and is a fallback id exactly if it is one there. |
| `TranslationPage.PageBatchesAreValid` | server/kindle/translator.py:183-189 | Every batch a page sends, also while a chunk of it fails, is itself a valid request, holds only items of the page in their order and at most 64 of them. |
| `EditDistance.DistanceIsReached` | evaluation/koharu_baseline/scripts/common.py:73-89 | Some insert, delete and substitute script of that cost turns one string into the other. |
| `EditDistance.DistanceIsLeast` | evaluation/koharu_baseline/scripts/common.py:73-89 | No script costs less. |
| `EditDistance.DistanceIsSymmetric` | evaluation/koharu_baseline/scripts/common.py:74-77 | Swapping the arguments changes nothing. |
| `EditDistance.DistanceZero` | evaluation/koharu_baseline/scripts/common.py:73-89 | The distance is zero exactly between equal strings. |
| `EditDistance.TriangleInequality` | evaluation/koharu_baseline/scripts/common.py:73-89 | The distance obeys the triangle inequality. |
| `EditDistance.NextRow` | evaluation/koharu_baseline/scripts/common.py:79-88 | From the row of one prefix the inner loop computes the row of the next. |
| `EditDistance.Levenshtein` | evaluation/koharu_baseline/scripts/common.py:73-89 | With two rows and swapped arguments, the result is the cost of the cheapest script from the first string to the second. |
| `FontFit.Search` | server/kindle/text_renderer.py:433-449 | For any monotone test and an upper bound of at least the smallest size: the largest fitting size if the smallest fits, and otherwise one below the smallest if that fits. |
| `FontFit.LargestOrNone` | server/kindle/text_renderer.py:433-449 | The smallest size fits if and only if there is a largest fitting size to find. |
| `FontFit.StackIsMonotone` | server/kindle/text_renderer.py:440-443 | The stacked-characters test is monotone in the size. |
| `FontFit.StackFitsMeans` | server/kindle/text_renderer.py:438-440 | A size passes if and only if a character is no wider than the box and cells of the size and a tenth, in whole pixels, fit below each other. |
| `FontFit.FitVerticalChars` | server/kindle/text_renderer.py:433-449 | The fifteen unguarded rounds find the largest fitting size exactly when the smallest fits. |
| `FontFit.BelowTheSmallest` | server/kindle/text_renderer.py:433-449 | Two characters in a 12 by 20 box: the smallest size does not fit, and the search answers one below it. |
| `FontFit.ColumnsAreMonotone` | server/kindle/text_renderer.py:1044-1052 | Columns needed times column width is monotone in the size, whatever the growing glyph metric, with or without furigana. |
| `FontFit.FuriganaIsLeast` | server/kindle/text_renderer.py:1063-1068 | The reading aid has the least size that is half the glyph's, no smaller than the smallest size, and readable next to a large glyph. |
| `FontFit.CellHeightIsLeast` | server/kindle/text_renderer.py:1043-1048 | A column cell has the least height that is the font's own and a twentieth more than the size, in whole pixels. |
| `FontFit.FitsWhenLaidOut` | server/kindle/text_renderer.py:1044-1055 | A size passes the test if and only if the characters can be laid out in columns of glyph, gap and reading aid that fit the box. |
| `FontFit.FitVerticalFontSize` | server/kindle/text_renderer.py:1034-1066 | The same of the column search. |
| `WordWrap.LongestFit` | server/kindle/text_renderer.py:604-616 | The longest prefix that fits with its hyphen, over all lengths, without assuming that width grows. |
| `WordWrap.BreakWordToFit` | server/kindle/text_renderer.py:598-623 | Terminates; the fragments without their hyphens are the word, each fits or is a single forced character, and each is the longest beginning of what is left that fits as it is shown. |
| `WordWrap.Wrap` | server/kindle/text_renderer.py:556-595 | For every width function, the lines without inserted hyphens and breaks are the words in order, each line fits or is a single forced character, and each but the last is full: the next word would not fit behind it, or it is the longest part that fits of a word too wide for a line. |
| `Columns.ChunksTileTheRun` | server/kindle/book_layout.py:233-255 | A non-empty run is cut into consecutive non-empty slices that tile it exactly, under half-even rounding. |
| `Columns.StepIsNearTheTarget` | server/kindle/book_layout.py:233-255 | The real step is at most one and a half targets, and at least three quarters of one when there is more than one chunk. |
| `Columns.RunChunks` | server/kindle/book_layout.py:245-254 | The inner loop cuts one run so. |
| `Columns.ColumnChunks` | server/kindle/book_layout.py:233-255 | The outer loop cuts every run of the column, or the whole column when there is none. |
| `Columns.CharactersTileTheChunk` | server/kindle/book_processor.py:62-72 | Under any rounding that errs by less than a pixel, character spans are monotone, adjacent within a chunk, start with it, never leave it and lie within two pixels of even places; the last one ends with the chunk exactly when the computed end does not fall short, and a pixel above it otherwise. `FloatColumns.ComputedPlaces` shows binary64 to be one. |
| `Columns.ExactPlaces` | server/kindle/book_processor.py:69-71 | Exact arithmetic is one such rounding. |
| `FloatColumns.ComputedPlaces` | server/kindle/book_processor.py:69-71 | Computing quotient, product and sum in binary64 is another, for pages and counts up to 2^32. |
| `FloatColumns.ComputedSpansTile` | server/kindle/book_processor.py:62-72 | The spans computed in binary64 follow one another without a gap from the top of the chunk; the last one ends with it exactly when the rounded end does not fall short, and a pixel above it otherwise. |
| `FloatColumns.TheEndMayFallShort` | server/kindle/book_processor.py:69-71 | Nineteen characters on rows 50 to 205: quotient, product and sum rounded to binary64 place the end of the last one at 204. |
| `Columns.CharacterSpans` | server/kindle/book_processor.py:62-72 | The loops list those spans chunk after chunk. |
| `Cleanup.Tiles` | server/pipeline/cleanup.py:148-168 | Over budget exactly when there are too many components or a padded tile is too large; else tiles on the page and within budget, in order, that together cover the mask. |
| `Cleanup.TileHoldsTheContext` | server/pipeline/cleanup.py:148-168 | A tile holds exactly the pixels of the page within the context distance of its component's box. |
| `Cleanup.TilesFromTheTop` | server/pipeline/cleanup.py:148-168 | Tiles are in order of their tops, then of their left edges, then of bottoms and right edges. |
| `Cleanup.FillMasked` | server/webtoon/inpainter.py:582-586 | Every mask pixel becomes the colour and no other pixel changes. |
| `Cleanup.PasteTile` | server/webtoon/inpainter.py:639-645 | A pixel changes exactly if it is masked and inside the tile, to the crop's pixel. |
| `Cleanup.PasteTiles` | server/webtoon/inpainter.py:639-645 | Overlapping tiles paint in order, the last one around a pixel winning. |
| `Cleanup.PaintedBy` | server/webtoon/inpainter.py:639-645 | After all tiles an unmasked pixel is as before, and a masked one inside some tile shows some tile's crop. |
| `Cleanup.CleanupBubble` | server/webtoon/inpainter.py:589-646 | Which way cleanup goes in all circumstances, and its exact frame: every pixel of the reported mask is replaced, by fill colour or tile, and no other pixel changes. |
| `Cleanup.WhenInpainted` | server/webtoon/inpainter.py:589-646 | A built mask is always applied and reported; it is inpainted exactly when the tiles are within budget, the background is not uniform, memory allows and the backend answers, filled without degradation exactly when within budget and uniform, and everything else is reported as degraded. |
| `Cleanup.CleanPage` | server/webtoon/inpainter.py:589-646 | Over any sequence of bubbles only pixels in the union of the reported masks change. |
| `Cleanup.EnclosingHoldsMasks` | server/worker/job.py:605-634 | The enclosing region box contains every on-page pixel of every persisted mask. |
| `Cleanup.EnclosingIsLeast` | server/worker/job.py:605-634 | Any box that holds the region, its semantic box and the masks holds the enclosing one, on the page. |
| `Cleanup.ValidateRenderArtifacts` | server/worker/job.py:637-667 | Accepts exactly if every mask lies in its region's box and the base equals the source outside the union of the cleanup masks. |
| `Cleanup.CleanedPageIsValid` | server/worker/job.py:605-667 | A page changed only within its reported masks, with the boxes built around them, passes that validation. |
| `Cleanup.ReportedMaskIsOnPage` | server/webtoon/inpainter.py:589-646 | Whichever way cleanup goes, the mask it reports lies on the page, since its components do. |
| `Cleanup.CleanAndRecheck` | server/worker/job.py:594-667 | From a copy of the page through the cleanup of any bubbles and the regions stored for them to the check before it is rendered again: the check passes, however each bubble went. |

## Left out

Where a statement is weaker than the code or its promise:

- JobDelivery.NoJobIsLost: no stream trimming by MAXLEN and no malformed entries; a claimed entry is never a deleted one.
- JobDedup.ExactlyOneCallQueues: job ids are taken to be fresh, while the server builds them from the clock.
- JobQueue.Queue.SubmitJob: takes the parsed marker as an argument; `latestMarkerFor` and `cleanOpaqueField` only contribute that a marker needs high priority and a positive sequence.
- JobConsumer.Consumer.DoTick: a failing `XREADGROUP` is not modelled, nor the heartbeat; elapsed time is an arbitrary choice, so a stretch may claim in every tick.
- JobConsumer.Consumer.Work: whether rendering succeeds, and whether the metadata of a rerender is there, is arbitrary; progress messages and the page-cache fallback for a missing image are not modelled.
- Decoder.CachedStepIsFullPass: exact real arithmetic, so no half precision and no rounding of the softmax; all rows of a batch have the same number of visual features.
- GreedyDecoding.Generate: the greedy path only; beam search is not part of this model. The formulas are for query heads in groups of equal size; with others the attention call of the original fails.
- GoWriter.Buffer.WriteNumber: which numeral `ParseFloat` and `FormatFloat` leave is a parameter, of which only short exponents are assumed; texts are shorter than 2^63 bytes.
- Runtimes.ServerAndWorkerAgree: that `FormatFloat` and `repr` spell the same numeral for a double is assumed of the two steps; the exponents near 10^18 that `Decimal` cannot hold, and integers of more than 4300 digits, which Python does not convert, are left out.
- CanonicalJson.RoundTrip: strings of Unicode scalar values; lone surrogates and Python's limit on integer digits are left out.
- CacheMachine.BytesAreServed: for runs in which no two of the texts written have the same digest.
- PageCache.PageCache.UpdateMetadata: document validation and metadata normalisation are an arbitrary function; nothing is claimed about two edits of one base, since load, check and write are separate steps.
- Detection.KeptAndDropped: overlap fractions and confidences are exact reals, so no NaN scores; provenance, masks and polygons of a detection are not carried.
- TranslationRecovery.ReplyFills: a reply with an integer of more than 4300 digits or nested beyond Python's recursion limit raises an error the recovery does not catch; here it is refused like any other bad reply.
- TranslationReply.AcceptedReply: strings of Unicode scalar values, so a reply with a lone surrogate escape, which Python accepts, is refused.
- TranslationPage.TranslatePage: replies are arbitrary functions of the call's number; HTTP, prompts and response schemas are not modelled.
- FontFit.Search: says only that the answer fits or is the smallest size when the upper bound is below the smallest size.
- FontFit.FitVerticalFontSize: the glyph metric is an arbitrary growing integer function.
- Columns.ChunksTileTheRun: steps are exact reals rather than binary floats.
- FloatColumns.ComputedPlaces: pages of at most 2^32 rows and chunks of at most 2^32 characters, whose rows are not negative.
- Cleanup.Tiles: connected components are given, as a partition of the mask with tight boxes; their filters and the dilation are not modelled.
- Cleanup.CleanAndRecheck: the mask detection gave a bubble has the size of the page, as `_enclosing_region_bbox` demands.
- Cleanup.CleanupBubble: the uniform-colour estimate, the memory probes and the inpainted crops are arbitrary; masks are 0 or 255.

Not modelled at all:

- HTTP handlers, WebSockets, the clients, the scraper and Docker cleanup: input and output only.
- Key expiry other than "the dedup hash, a marker or a result may vanish at any step"; an image stays once stored.
- By-reference index files, labels, sizes and timestamps of manifests, object deletion, and Go's `StoreBySourceHash`, which records no artifact list.
- Go and Python agreement on document validation, where the two differ on empty strings and 64-bit bounds.
- `_clear_bubble_text` in the pixel frame: the rectangle it draws includes edges that its recorded mask leaves out.
- The horizontal English font search: word wrapping is not monotone in the size, so there is no largest-size claim to prove.
- Ink runs, column runs, ruby assignment and the size caps of the renderer: short loops and formulas that would only add easy members.
- The supervisor process around the inpainting backend.
