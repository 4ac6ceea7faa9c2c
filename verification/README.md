# Verified models of gocom

This Dafny project models the stateful core of gocom and proves what that core keeps. Every
model follows the code: classes whose methods update their fields where the source does, and
specification functions on values about which the main results are proved.

| files | what they model |
|---|---|
| `OrderedQueue.dfy`, `OrderedQueueProofs.dfy` | the ordered queue with its unusual binary search and windowed lookup |
| `RecordCacheSpec.dfy`, `RecordCacheProofs.dfy`, `RecordCache.dfy` | the record cache of the ORM: primary entries, aliases, arrays, expiry queues |
| `RecordCacheHits.dfy`, `RecordCacheHistory.dfy` | what the operations of the cache enter, leave and forget, how long a key is a hit, and which event in the past it is a hit with |
| `RecordCacheSteps.dfy`, `RecordCacheCalls.dfy` | the same cache at the grain of its locks, with calls that overlap |
| `KafkaWorker.dfy`, `KafkaProofs.dfy` | recycled reply channels and the waiting table of the Kafka worker |
| `MqEnv.dfy`, `AutoReply.dfy` | messages and deliveries; the bookkeeping of automatic replies that the two clients share |
| `PulsarMQ.dfy`, `PulsarProofs.dfy`, `PulsarPublishing.dfy`, `PulsarRpc.dfy` | buffering across reconnects, automatic replies and RPC correlation over Pulsar |
| `RabbitMQ.dfy`, `RabbitProofs.dfy`, `RabbitPublishing.dfy` | publishing, queue declaration, buffering and order over RabbitMQ; its two goroutines and the automatic replies |
| `RetryScheduler.dfy`, `RetryProofs.dfy` | the retry scheduler of the HTTP client |
| `UrlText.dfy`, `FormCodec.dfy`, `FormProofs.dfy`, `FormReading.dfy` | the form encoder and decoder; what reading makes of any form |
| `SqlText.dfy`, `SqlAdapters.dfy`, `SqlPaging.dfy` | select statements of five SQL dialects, their text, their meaning, paging |
| `HumanText.dfy` | bytes as readable text |
| `EcbCrypto.dfy` | padding and ECB encryption |
| `DigitIncrement.dfy` | counting with a customised alphabet |
| `StrategyIndex.dfy`, `StrategySteps.dfy` | the widget index by strategy; the same at the grain of its locks |
| `TreeBuilder.dfy`, `TreePointers.dfy` | the two forest builders |
| `Arithmetic.dfy`, `Options.dfy`, `Sequences.dfy` | remainders; the optional value; how often a sequence holds something |

Kafka, Pulsar, RabbitMQ (`RabbitProofs`), the retry scheduler, the record cache (`RecordCacheSteps`)
and the strategy index (`StrategySteps`) are state machines whose steps are one critical section, one
channel operation or one call to the broker each; a result about "every interleaving" is a result
about every sequence of enabled steps. Accesses that the source does not lock are taken as atomic all
the same: the buffer of RabbitMQ (`mq/rabbitmq/rabbitmq.go:610-621`), the pool and the waiting table
of Kafka, and the sets of aliases of the cache. The runs of `RecordCacheProofs`, of `StrategyIndex`
and of the run loop of RabbitMQ alone (`RabbitMQs`) take whole operations as steps, which then do not
overlap; the finer machines lead to the same states when they do not (the lemmas whose names end in `InARow`,
for the cache, the strategy index, the two clients, RPC and the retry scheduler). The clock is an integer
that does not run backwards. The broker, the HTTP exchange, generated ids, the block cipher and
the match of a regular expression are parameters. Copying a bean succeeds or fails as the bean
says (`encodable`). Slices are `seq`, Go maps are `map`; where the source ranges over a map, the
order of the visit is an argument of the specification and every order is covered.

## What the code does, where its comments or names suggest otherwise

- A comment on `getArray` promises that arrays live at most `MaxArrayCachingDurationSeconds`
  (180 s). The limit is computed and not used; an undisturbed array lives exactly as long as
  `cachingDurationSeconds` and its records (`ArrayLivesExactly`), which is longer than the limit
  whenever arrays are cached at all (`ArraysOutliveLimit`), say 300 s (`ArrayHitAfterLimit`).
- `cleanTimeouts` means to drop what has expired. `CutBefore` hands back and clears the whole queue,
  and a sweep starts only at a first unexpired element behind an expired one. So it either drops
  everything, live entries included, or nothing (`SweepAllOrNothing`, `SweepDropsExactlyExpired`).
- The windowed lookup of the queue finds a stored element only if it is the last one of its second
  (`LookupFindsExactlyLastTie`). The cache survives this: a missed removal leaves a stale queue
  element, never an entry without one (`EveryEntryIsQueued`).
- The match test of the strategy index applies a pattern to itself, not to the strategy; all loaded
  strategies therefore select the same widgets (`StrategiesSelectAlike`).
- `CutBefore` with an index past the end panics, and the lock it holds stays taken.
- `afterQueryFailed` computes a growing `retryDuration` that has no effect; the trigger time is
  that of `formatRetryDuration` (`AfterQueryFailed`, `FormatRetryDuration`).
- Storing a record again is meant to drop its aliases. It drops exactly those that the set of the
  replaced entry lists (`RestoreDropsExactly`), and that set is the one that some call had looked at
  before, which others may have replaced meanwhile (`ListedExactly`). So an alias can outlive the
  renewal and hit the new record (`AliasHitsAgainExactly`; two overlapping calls of `set`:
  `OverlapLeavesAliasBehind`).
- Additions, removals and loads of widgets take two locks in turn. When they overlap, the index is
  exact if and only if for each name the last section that entered or dropped a matching widget
  agrees with the registry (`IndexExactExactly`). A removed widget can be listed again
  (`RemovedWidgetListedAgain`), one that replaces another of its name can be listed nowhere
  (`ReplacedWidgetListedNowhere`), and so can one that is added while a load runs
  (`AddedDuringLoadMissed`).
- A message can wait in the buffer of a connected Pulsar client until the next reconnect
  (`BufferedWhileConnected`): exactly those do that are appended after the flush by a publisher that
  had found the client missing (`BufferEmptyExactly`).
- A RabbitMQ client keeps the order of submission exactly as long as no message overtakes the
  buffer (`OrderKeptExactly`). With a broadcast client that reconnects without consumers one can
  (`BroadcastOvertakes`).
- The automatic reply looks as if it were sent only when the callback has not replied itself. But
  what the callback publishes goes through the run loop, and the check does not wait for that:
  callback and client can both reply, over Pulsar and over RabbitMQ (`CallbackAndClientReply` of
  `PulsarProofs` and of `RabbitProofs`, `BothRepliesBuffered`), exactly when the reply of the
  callback answers after the check (`ReplyDoubledExactly`).
- A RabbitMQ client whose ticker has found the connection closed still has its channel. Until it
  reconnects, a message published meanwhile is lost, where it would be buffered after a reported loss
  (`ClosedThenPublished`).
- A Pulsar query under an id that another one waits under is never answered (`AnsweredExactly`).
- Over RabbitMQ a reply of the callback that the broker refuses suppresses the automatic one all
  the same (`RefusedReplySilences`; when a delivery is answered at all: `DeliveryAnsweredExactly`, and over
  every interleaving `UnansweredOnlyIfRefused`).
- Escaping bytes as text leaves the backslash alone, so a text does not always determine its bytes
  (`TextIsAmbiguous`, `TextDeterminesExactly`).
- The partition window of a select statement is only written when the caller gives a condition, and
  it binds to the last alternative of a condition with a top-level OR (`WindowsTile`).
- For a negative offset the dialects part ways (`DialectsPageAlike`), and so they do for an offset
  without a limit (`DialectsSkip`), for a negative limit (`NegativeCounts`) and without an order
  (`UnorderedPages`); the 2008 dialect pages only with an order (`Mssql2008PagesOnlyOrdered`).
- A field tagged `-` is not written to a form but is still read under the name `-`
  (`RoundTripExactly` says when that matters).

## Model

| member | source | states |
|---|---|---|
| `OrderedQueues.FindInsertingIndex` | queues/orderedqueue.go:285-318 | on any queue the search ends with an index in [0, l]; on a sorted one the index is exactly the upper bound of the item |
| `OrderedQueues.PushItem` | queues/orderedqueue.go:269-283 | one element more, the others kept with their multiplicities; on a sorted queue the item stands behind everything not ordered after it |
| `OrderedQueues.FindElementIndex` | queues/orderedqueue.go:167-196 | any index returned carries the id of the probe; on a sorted queue it is the one `LookupIndex` names |
| `OrderedQueues.OrderedQueue.Add` | queues/orderedqueue.go:51-57 | the queue stays sorted and is the stable insertion of the item |
| `OrderedQueues.OrderedQueue.Pop` | queues/orderedqueue.go:66-76 | hands out the front element and keeps the rest in order, or nothing on an empty queue |
| `OrderedQueues.OrderedQueue.PopMany` | queues/orderedqueue.go:79-97 | hands out exactly the first min(n, size) elements in order and keeps the rest |
| `OrderedQueues.OrderedQueue.Remove` | queues/orderedqueue.go:112-123 | takes out what the lookup finds and nothing else, and reports whether there was a hit |
| `OrderedQueues.OrderedQueue.Elements` | queues/orderedqueue.go:126-131 | the elements in queue order |
| `OrderedQueues.OrderedQueue.CutBefore` | queues/orderedqueue.go:223-238 | an index from 0 to the end hands back and clears the whole queue, a negative one does nothing, and one past the end panics |
| `OrderedQueues.InsertKeepsSorted` | queues/orderedqueue.go:269-283 | inserting at the upper bound keeps any sorted queue sorted, in both modes |
| `OrderedQueueProofs.AddsAreStableSort` | queues/orderedqueue.go:51-57 | any sequence of Adds in either mode leaves the stable sort of the insertion history |
| `OrderedQueueProofs.AddsOrderByValue` | queues/orderedqueue.go:285-318 | of two elements the one in front has the smaller value in ascending mode and the greater one in descending mode, and equal values stand as they were added |
| `OrderedQueueProofs.StableSortIsUnique` | queues/orderedqueue.go:269-318 | a history has one stable sort, so the previous result determines the queue |
| `OrderedQueueProofs.RunsKeepOrderAndElements` | queues/orderedqueue.go:51-123 | over any run of Add, Pop, PopMany, Remove and CutBefore the queue is sorted, and queue and output together hold what was added with exact multiplicities |
| `OrderedQueueProofs.LookupAgreesWithScan` | queues/orderedqueue.go:167-196 | with distinct ids, distinct ordering values and the stored value in the probe, the windowed lookup equals a full scan, hit or miss |
| `OrderedQueueProofs.LookupFindsExactlyLastTie` | queues/orderedqueue.go:167-196 | with distinct ids a stored element is found if and only if it is the last of its ordering value, and missed otherwise |
| `OrderedQueueProofs.LookupMissesEarlierTie` | queues/orderedqueue.go:167-196 | two elements of one second: the earlier one is in the queue and the lookup misses it |
| `OrderedQueueProofs.StepsAsCalls` | queues/orderedqueue.go:51-123 | one operation of a run hands out, keeps and adds what the method of its name does |
| `RecordCache.CacheElementWrapper.Get` | orm/rdbms/caches.go:70-81 | the entry under the key, taken out together with its queue element when asked for |
| `RecordCache.CacheElementWrapper.Remove` | orm/rdbms/caches.go:83-94 | drops the entry and what the queue lookup finds for it |
| `RecordCache.CacheElementWrapper.Set` | orm/rdbms/caches.go:96-101 | enters the element and queues it by expiry time |
| `RecordCache.CacheElementWrapper.CleanTimeouts` | orm/rdbms/caches.go:103-119 | the sweep: all queued entries are dropped, or none |
| `RecordCache.CacheElementGroup.Set` | orm/rdbms/caches.go:145-195 | the new state and the new ideal cache are those of the specification, for all keys; every alias of the replaced primary entry is visited once; with keys used consistently as primary or condition keys the group stays coherent and in agreement with the ideal cache |
| `RecordCache.CacheElementGroup.StorePrimary` | orm/rdbms/caches.go:157-193 | stores a primary entry afresh and drops every alias the old one listed |
| `RecordCache.CacheElementGroup.StoreAlias` | orm/rdbms/caches.go:170-193 | renews the primary entry with its aliases and the new one, and enters the alias |
| `RecordCache.CacheElementGroup.Get` | orm/rdbms/caches.go:197-247 | hits exactly when the entry is there and unexpired; a hit is the record of the ideal cache, directly or through the alias |
| `RecordCache.CacheElementGroup.Del` | orm/rdbms/caches.go:249-260 | drops the entry and its aliases, keeps the rest coherent, forgets the record in the ideal cache |
| `RecordCache.CacheElementGroup.SetArray` | orm/rdbms/caches.go:262-292 | stores the rows in turn up to the first without a primary key and enters the array only when all are stored; coherent and in agreement when the primary keys of the rows are used as such |
| `RecordCache.CacheElementGroup.GetArray` | orm/rdbms/caches.go:298-329 | a hit lists, in order, the latest record of every key of the stored array |
| `RecordCache.CacheElementGroup.CleanTimeouts` | orm/rdbms/caches.go:395-399 | sweeps both wrappers and keeps the group coherent |
| `RecordCacheHits.SetEnters` | orm/rdbms/caches.go:145-195 | what `set` enters: the record under a primary key, without aliases; or the alias, and the record under its primary key with this alias and those it had |
| `RecordCacheHits.SetHits` | orm/rdbms/caches.go:145-247 | what has been set is a hit until now + duration, under the key and under the primary key |
| `RecordCacheHits.SetLeavesOthers` | orm/rdbms/caches.go:145-195 | every other entry stays as it is, but for the aliases of a record that is stored again, and but for all of them without primary key columns and condition |
| `RecordCacheHits.UncopiedSetsNothing` | orm/rdbms/caches.go:146-150 | a bean that cannot be copied changes nothing |
| `RecordCacheHits.DelDropsExactly` | orm/rdbms/caches.go:249-260 | `del` drops the entry and the aliases it lists, and no other |
| `RecordCacheHits.KeyLivesExactly` | orm/rdbms/caches.go:103-260 | in every run a key entered by a `set` and not since is a hit if and only if the caching duration has not passed and nothing has forgotten it: no deletion or renewal of an entry that lists it, no wipe, no sweep of a mixed queue; a primary key then hits with the record it was set with |
| `RecordCacheHits.GroupSweepExactly` | orm/rdbms/caches.go:395-399 | in every state of every run the sweep of the group empties the records if their queue holds expired and unexpired elements, the arrays if theirs does, and leaves each as it was otherwise |
| `RecordCacheHits.SweptMisses` | orm/rdbms/caches.go:395-399 | after a sweep of a mixed queue every `get`, or every `getArray`, misses |
| `RecordCacheHits.SetArrayEnters` | orm/rdbms/caches.go:262-292 | what `setArray` does to the arrays: the one under the key goes, and comes back with the keys in order if all rows have one; nothing happens without columns, rows, or a duration above 30 s |
| `RecordCacheHits.SetArrayHits` | orm/rdbms/caches.go:262-329 | an array of copyable rows with primary keys of their own is a hit with exactly these rows, until now + duration |
| `RecordCacheHits.GetArrayLeaves` | orm/rdbms/caches.go:298-329 | `getArray` leaves everything but an expired array that was asked for |
| `RecordCacheProofs.SetKeeps` | orm/rdbms/caches.go:145-195 | one `set` keeps alias graph, expiry times, queue and agreement with the ideal cache |
| `RecordCacheProofs.SetArrayKeeps` | orm/rdbms/caches.go:262-292 | a whole `setArray` keeps them too |
| `RecordCacheProofs.GetIsExact` | orm/rdbms/caches.go:197-247 | in a coherent cache `get` hits if and only if the key is there and unexpired, and copying never fails |
| `RecordCacheProofs.GetLeaves` | orm/rdbms/caches.go:236-246 | the branches of `get` that would drop a live primary entry are never taken |
| `RecordCacheProofs.GetArrayIsExact` | orm/rdbms/caches.go:298-329 | an array is a hit if and only if it is unexpired and all its records are there, and then lists the ideal records in order |
| `RecordCacheProofs.RunsStayCoherent` | orm/rdbms/caches.go:145-329 | every state of every run of operations that do not overlap: each unexpired alias leads to a present primary entry that lists it and expires no earlier, every entry is queued, everything agrees with the ideal cache |
| `RecordCacheProofs.EveryEntryIsQueued` | orm/rdbms/caches.go:63-119 | over every interleaving of the critical sections of a wrapper, of records or of arrays, each entry has a queue element with its key and expiry time |
| `RecordCacheProofs.HitsAreLatest` | orm/rdbms/caches.go:197-247 | refinement: every hit of `get` after any run is the record last stored for that primary key |
| `RecordCacheProofs.ArrayHitsAreLatest` | orm/rdbms/caches.go:298-329 | refinement for arrays, record by record and in order |
| `RecordCacheHistory.IdealExactly` | orm/rdbms/caches.go:145-260 | in every run the ideal cache holds a record if and only if some event stored it and none has deleted it since, and then the one of the last such event |
| `RecordCacheHistory.HitIsLastStored` | orm/rdbms/caches.go:197-247 | every hit under a primary key is the record of the last event that stored one there, not deleted since |
| `RecordCacheHistory.TargetExactly` | orm/rdbms/caches.go:145-260 | in every run a condition key stands for a record in the ideal cache if and only if a `set` made it so and nothing has ended that since: a deletion of either, a store of the record without a condition, a `set` of the key for another record |
| `RecordCacheHistory.AliasHitIsLastStored` | orm/rdbms/caches.go:197-247 | every hit under a condition key is the latest record of the primary key that it was last set for, that not having ended since |
| `RecordCacheProofs.RestoredRecordHidesAliases` | orm/rdbms/caches.go:145-247 | in runs of operations that do not overlap: after a record is stored again under its primary key no older condition key can hit it until it is set again |
| `RecordCacheSteps.InterleavingsKeepInv` | orm/rdbms/caches.go:63-260 | over every interleaving of calls and sweeps: every entry is queued under its own key, records can be copied, and each set of aliases in an entry or in the hands of a call was made for that key |
| `RecordCacheSteps.ListedExactly` | orm/rdbms/caches.go:162-186 | in every interleaving the present primary entry lists an alias if and only if its set is one that some call has added the alias to |
| `RecordCacheSteps.RestoreDropsExactly` | orm/rdbms/caches.go:157-169 | in every interleaving in which others leave the alias alone meanwhile, storing the record again drops the alias if and only if the primary entry that it reads is there and lists the alias; otherwise the alias stays as it was |
| `RecordCacheSteps.AliasHitsAgainExactly` | orm/rdbms/caches.go:145-247 | in the same interleavings the alias hits right afterwards, and then with the new record, if and only if neither has expired and the replaced entry was missing or had a set that the alias was never added to |
| `RecordCacheCalls.SetInARow` | orm/rdbms/caches.go:145-195 | the critical sections of a `set`, with nothing in between, do what the operation does, whichever branch it takes: alias, record, wipe first, or a bean that cannot be copied |
| `RecordCacheCalls.SetAliasInARow` | orm/rdbms/caches.go:170-193 | the sections of the branch under a condition key |
| `RecordCacheCalls.SetPrimaryInARow` | orm/rdbms/caches.go:157-169 | the sections of the branch under a primary key, for every order of visiting the aliases |
| `RecordCacheCalls.DelInARow` | orm/rdbms/caches.go:249-260 | the same for `del` |
| `RecordCacheCalls.GetInARow` | orm/rdbms/caches.go:197-247 | the same for `get` and the entries it leaves |
| `RecordCacheCalls.CleanUpAlike` | orm/rdbms/caches.go:103-119 | a sweep is one section, and means the same in both models |
| `RecordCacheCalls.OverlapCrosses` | orm/rdbms/caches.go:170-193 | at an input: two calls for an uncached primary key look before either writes, and the primary entry lists only the second alias |
| `RecordCacheCalls.OverlapLeavesAliasBehind` | orm/rdbms/caches.go:145-247 | after that the record is stored again with nothing in between, and the first alias hits it |
| `RecordCacheProofs.ArrayLivesExactly` | orm/rdbms/caches.go:262-329 | in every run an array stored and not disturbed since is a hit if and only if the caching duration has not passed and all its records are present |
| `RecordCacheProofs.ArraysOutliveLimit` | orm/rdbms/caches.go:262-292 | whenever arrays are cached, such an array is still a hit later than the limit of min(duration - 30, 180) seconds |
| `RecordCacheProofs.ArrayHitAfterLimit` | orm/rdbms/caches.go:262-292 | at an input: stored at t, a hit at t + 300 |
| `RecordCacheProofs.SetArrayIsItsSteps` | orm/rdbms/caches.go:262-292 | `setArray` is the run of its atomic steps, so results about runs apply to it |
| `RecordCacheProofs.SweepAllOrNothing` | orm/rdbms/caches.go:103-119 | the sweep empties a coherent wrapper when expired and unexpired elements are queued together, and otherwise leaves it alone |
| `RecordCacheProofs.SweepDropsExactlyExpired` | orm/rdbms/caches.go:103-119 | dropping exactly the expired elements happens if and only if there are none |
| `RecordCacheProofs.RemovalSparesOthers` | queues/orderedqueue.go:112-123 | removal from the expiry queue never takes the element of another key |
| `KafkaWorkers.KafkaWorker.ObtainChannel` | mq/kafka/kafkaWorker.go:43-53 | takes the last free channel out of the pool, or makes a new one when none is free |
| `KafkaWorkers.KafkaWorker.RecycleChannel` | mq/kafka/kafkaWorker.go:55-58 | the channel is free again |
| `KafkaWorkers.KafkaWorker.AwaitReply` | mq/kafka/kafkaWorker.go:154-158 | the request waits under its correlation id |
| `KafkaWorkers.KafkaWorker.OnMessage` | mq/kafka/kafkaWorker.go:217-258 | a packet with a waiting id goes to that channel and the wait ends; any other goes to the consumer of its method, or of its topic, or nowhere |
| `KafkaProofs.RunsKeepInv` | mq/kafka/kafkaWorker.go:43-57 | over every interleaving pool, owners, waiting table and packets in flight account for each other |
| `KafkaProofs.ChannelFreeOrHeld` | mq/kafka/kafkaWorker.go:43-57 | in every interleaving a channel is in the pool exactly once, or held by exactly one request |
| `KafkaProofs.FreeChannelIsQuiet` | mq/kafka/kafkaWorker.go:154-164 | a free channel has no entry in the waiting table and no packet on its way |
| `KafkaProofs.RepliesCarryOwnId` | mq/kafka/kafkaWorker.go:154-164 | every reply received carries the correlation id of its receiver |
| `KafkaProofs.HandlersFindTheirRequest` | mq/kafka/kafkaWorker.go:154-164 | whenever a handler is about to send on a channel, the request that holds it stands ready to receive, or will once its own send returns |
| `KafkaProofs.ChannelsBoundedByPeak` | mq/kafka/kafkaWorker.go:43-57 | no more channels are ever made than requests held one at the same time |
| `KafkaProofs.RegisterStrandsExactlyDuplicates` | mq/kafka/kafkaWorker.go:154-158 | registering under an id in use makes exactly the request unanswerable that was waiting under it |
| `KafkaProofs.AnswerableUntil` | mq/kafka/kafkaWorker.go:154-258 | no reply is lost: whatever comes next, a request that can still be answered stays so, unless that answers it or enters the table under its id |
| `KafkaProofs.RequestInARow` | mq/kafka/kafkaWorker.go:43-164 | whatever is under way, a new request can take a channel, wait, receive its reply and give the channel back, and others are left alone but for one that waits under the same id |
| `PulsarMQs.PulsarMQ.Publish` | mq/pulsar/pulsar.go:392-456 | buffers without a client; otherwise sends, or fails when no producer can be had; sending answers the delivery with that id |
| `PulsarMQs.PulsarMQ.EnsurePendings` | mq/pulsar/pulsar.go:481-509 | takes the buffer over and publishes it; connected and with a willing broker all of it is sent, in order, and the buffer is empty |
| `PulsarMQs.PublishConserves` | mq/pulsar/pulsar.go:392-456 | a publish puts the message into exactly one place and takes nothing out of any: the buffer offline, otherwise what is sent or what is refused |
| `PulsarMQs.PublishesConserve` | mq/pulsar/pulsar.go:392-456 | over any number of publishes sent, refused and buffered messages gain exactly the submitted ones |
| `PulsarMQs.OfflineBuffers` | mq/pulsar/pulsar.go:392-402 | offline the messages are buffered, in order, and nothing else happens |
| `PulsarMQs.OfflineThenFlushed` | mq/pulsar/pulsar.go:481-509 | messages published offline are sent in order, behind those buffered before, by the flush after a connect with a willing broker |
| `PulsarMQs.HandledExactly` | mq/pulsar/pulsar.go:648-697 | handling a delivery is remembering it and publishing what others publish up to the check, and behind that the response, to the address of the delivery, if there is one and nothing with the id has been sent; offline too. Without an id or an address it is neither remembered nor replied to |
| `PulsarPublishing.PublishInARow` | mq/pulsar/pulsar.go:392-456 | the steps of a publish, with nothing in between, do what `Publish` does |
| `PulsarPublishing.FlushInARow` | mq/pulsar/pulsar.go:481-509 | taking the buffer over and publishing it message by message does what `EnsurePendings` does |
| `PulsarPublishing.HandleInARow` | mq/pulsar/pulsar.go:648-697 | delivery, callback, check, reply and its publish in a row do what `HandleConsumeCallback` does |
| `PulsarPublishing.OfflineInARow` | mq/pulsar/pulsar.go:184-199 | a message submitted after the connection is lost waits in the buffer once it has been published |
| `PulsarMQs.PulsarMQ.HandleConsumeCallback` | mq/pulsar/pulsar.go:648-697 | the response is published if and only if a reply is wanted, there is one, and no message with that id was sent up to the check; offline it always is |
| `PulsarMQs.StillWaitsExactly` | mq/pulsar/pulsar.go:435-456 | a delivery goes on waiting for a reply if and only if no message with its id is sent |
| `PulsarMQs.PulsarMQ.SetReplyNeededMessage` | mq/pulsar/pulsar.go:751-760 | remembers the delivery when it wants a reply |
| `PulsarMQs.PulsarMQ.AnswerReplyNeededMessage` | mq/pulsar/pulsar.go:762-771 | forgets exactly the delivery with that id |
| `PulsarMQs.PulsarMQ.IsReplyNeededMessageAnswered` | mq/pulsar/pulsar.go:773-781 | answered unless a delivery with that id is remembered |
| `PulsarMQs.RpcInstance.EnsureRPCMessage` | mq/pulsar/pulsar.go:632-646 | gives a query an id and the reply topic and enters it unless the id is taken |
| `PulsarMQs.RpcInstance.HandleRPCCallback` | mq/pulsar/pulsar.go:728-749 | finds the listening query with the id of the message and forgets the entry |
| `PulsarProofs.MessagesConserved` | mq/pulsar/pulsar.go:392-509 | over any series of disconnects, reconnects and flushes in any interleaving, each submitted message is in exactly one place: sent, refused, buffered, or in the hands of a running publish or flush |
| `PulsarProofs.NothingLostAtRest` | mq/pulsar/pulsar.go:392-509 | with a broker that refuses nothing, at rest sent and buffered messages are a permutation of the submitted ones |
| `PulsarProofs.SentAtMostAsSubmitted` | mq/pulsar/pulsar.go:392-509 | no message is sent more often than it was submitted |
| `PulsarProofs.BufferEmptyExactly` | mq/pulsar/pulsar.go:392-509 | in every state of every run the buffer is empty if and only if since the last flush began no publisher has appended that had found the client missing |
| `PulsarProofs.BufferedWhileConnected` | mq/pulsar/pulsar.go:392-402 | such a run: the message stays in the buffer of a connected client at rest |
| `PulsarRpc.QueriesGetOwnReplies` | mq/pulsar/pulsar.go:699-749 | in every interleaving a query returns only a message with its own correlation id |
| `PulsarRpc.AskEnters` | mq/pulsar/pulsar.go:632-646 | asking enters a query as `EnsureRPCMessage` does |
| `PulsarRpc.ResponseInARow` | mq/pulsar/pulsar.go:728-749 | a response handled without interruption is handed to the query in the table under its id while it waits, and the entry is forgotten, as `HandleRPCCallback` does |
| `PulsarRpc.AnsweredExactly` | mq/pulsar/pulsar.go:632-749 | from any state of any run: some continuation gives a new query a response if and only if no other one waits under its id when it is asked |
| `PulsarProofs.AutomaticReplyAtMostOnce` | mq/pulsar/pulsar.go:648-684 | in every interleaving, with distinct request ids, the automatic reply to a delivery exists at most once, sent or in any other place |
| `PulsarProofs.AutomaticReplyExactly` | mq/pulsar/pulsar.go:648-684 | in every interleaving a delivery that is done got its automatic reply if and only if the callback returned a response and every publish that answered its id did so after the check |
| `PulsarProofs.ReplyDoubledExactly` | mq/pulsar/pulsar.go:675-684 | in every interleaving the first message that answers a delivery with a response, of the callback or of anyone, is joined by the automatic reply if and only if it answers after the check |
| `PulsarProofs.CallbackAndClientReply` | mq/pulsar/pulsar.go:149-150 | such a run, connected throughout: the message of the callback waits for the run loop while the check is made, and both replies are sent |
| `PulsarProofs.BothRepliesBuffered` | mq/pulsar/pulsar.go:392-402 | a run in which the client goes offline before the callback publishes: both replies are buffered |
| `RabbitMQs.RabbitMQ.Publish` | mq/rabbitmq/rabbitmq.go:618-704 | buffers without a channel, declares the queue first when it is missing, then hands over; the delivery counts as answered whether or not the broker took the message |
| `RabbitMQs.RabbitMQ.EnsureQueue` | mq/rabbitmq/rabbitmq.go:552-598 | declares the queue and flushes the buffer; a refusal closes the connection |
| `RabbitMQs.RabbitMQ.EnsurePendings` | mq/rabbitmq/rabbitmq.go:600-616 | hands over the whole buffer in order |
| `RabbitMQs.RabbitMQ.HandleConsumeCallback` | mq/rabbitmq/rabbitmq.go:883-906 | the response goes out while the delivery still waits for a reply, after what the run loop has published up to the check |
| `RabbitMQs.RabbitMQ.SetReplyNeededMessage` | mq/rabbitmq/rabbitmq.go:965-974 | remembers the delivery when it wants a reply |
| `RabbitMQs.RabbitMQ.AnswerReplyNeededMessage` | mq/rabbitmq/rabbitmq.go:976-985 | forgets exactly the delivery with that id |
| `RabbitMQs.RabbitMQ.IsReplyNeededMessageAnswered` | mq/rabbitmq/rabbitmq.go:987-995 | answered unless a delivery with that id is remembered |
| `RabbitProofs.MessagesConserved` | mq/rabbitmq/rabbitmq.go:234-384 | in every interleaving of the run loop and the goroutine of the deliveries, over any disconnects, reconnects and flushes, each message submitted is in exactly one place: in the channel, sent, refused, buffered, or in the hands of one of the two |
| `RabbitMQs.OrderKeptExactly` | mq/rabbitmq/rabbitmq.go:552-630 | for a broadcast client and any other, with nothing lost and distinct messages: what was sent followed by what is buffered is what was submitted, in order, if and only if no message met an open channel with a buffer that it did not flush |
| `RabbitMQs.SentInSubmissionOrder` | mq/rabbitmq/rabbitmq.go:552-623 | a client that declares its queue on every reconnect, broadcast or not, keeps the order as long as nothing is refused |
| `RabbitMQs.PublishLosesNothingExactly` | mq/rabbitmq/rabbitmq.go:552-630 | with any buffer, a publish loses nothing if and only if the channel is closed, or the broker takes the message and, where the queue has to be declared, declares it and takes the whole buffer |
| `RabbitMQs.PublishExactly` | mq/rabbitmq/rabbitmq.go:618-704 | what a publish sends, refuses, buffers and answers in every state, and what it makes of connection, channel and queue |
| `RabbitMQs.ClosedThenPublished` | mq/rabbitmq/rabbitmq.go:302-331 | a message published when the connection is gone waits in the buffer, except that a client whose ticker has found the connection closed hands it over if it is a broadcast client, and loses it otherwise |
| `RabbitMQs.ConsumerFlushes` | mq/rabbitmq/rabbitmq.go:706-720 | a broadcast client that reconnects without consumers flushes when one is added if and only if its queue name had been cleared |
| `RabbitMQs.BroadcastOvertakes` | mq/rabbitmq/rabbitmq.go:618-630 | a broadcast client that reconnects without declaring a queue lets a later message overtake a buffered one |
| `RabbitProofs.AutomaticReplyAtMostOnce` | mq/rabbitmq/rabbitmq.go:883-906 | in every interleaving, with distinct request ids, the automatic reply to a delivery is handed over or buffered at most once |
| `RabbitProofs.AutomaticReplyExactly` | mq/rabbitmq/rabbitmq.go:793-906 | in every interleaving a delivery that is done got its automatic reply if and only if the callback returned a response and every publish that answered its id did so after the check |
| `RabbitProofs.ReplyDoubledExactly` | mq/rabbitmq/rabbitmq.go:793-906 | in every interleaving the first message that answers a delivery with a response is joined by the automatic reply if and only if it answers after the check |
| `RabbitProofs.CallbackAndClientReply` | mq/rabbitmq/rabbitmq.go:271-272 | such a run: the message of the callback is still in the channel when the check is made, and both replies are sent |
| `RabbitProofs.UnansweredOnlyIfRefused` | mq/rabbitmq/rabbitmq.go:618-906 | in every interleaving, whatever happens to channel, queue and connection, once nothing is under way or buffered: a delivery with a response had some reply published, and one was sent if and only if the broker has not refused them all |
| `RabbitMQs.HandledSends` | mq/rabbitmq/rabbitmq.go:883-906 | what one delivery sends on an open channel: the automatic reply stands between what was published up to the check and what came later, and is there if and only if nothing up to the check carried the id |
| `RabbitMQs.HandledBuffers` | mq/rabbitmq/rabbitmq.go:883-906 | without a channel what is published meanwhile and the response, to the address of the delivery, wait in the buffer in that order; without an id or an address there is no reply, channel or not |
| `RabbitPublishing.PublishInARow` | mq/rabbitmq/rabbitmq.go:618-704 | the steps of a publish by either goroutine, the flush included, with nothing in between, do what `Publish` does |
| `RabbitPublishing.TakeInARow` | mq/rabbitmq/rabbitmq.go:271-272 | the run loop takes the front message out of the channel and publishes it |
| `RabbitPublishing.EnsureQueueInARow` | mq/rabbitmq/rabbitmq.go:552-616 | declaring the queue and flushing in a row do what `EnsureQueue` does |
| `RabbitPublishing.HandleInARow` | mq/rabbitmq/rabbitmq.go:883-906 | delivery, callback, check, reply and its publish in a row do what `HandleConsumeCallback` does |
| `RabbitPublishing.EventsAlike` | mq/rabbitmq/rabbitmq.go:302-380 | what happens to the connection means the same to both models |
| `RabbitMQs.DeliveryAnsweredExactly` | mq/rabbitmq/rabbitmq.go:661-906 | on a channel that stays open, some accepted message answers the delivery if and only if the broker took one with its id up to the check, or one published later, or there is a response, nothing up to the check carried the id, and the broker took the response |
| `RabbitMQs.RefusedReplySilences` | mq/rabbitmq/rabbitmq.go:661-688 | a publish with the id that the broker refused suppresses the automatic reply: without another one nothing answers the delivery |
| `RetryScheduler.Scheduler.AfterQueryFailed` | httpclient/httpclient.go:410-432 | a failed request is queued again if and only if retries are wanted and left, with a later trigger time |
| `RetryScheduler.Scheduler.CheckRetryEntity` | httpclient/httpclient.go:463-485 | a due entry is issued with one more retry counted; one that is not due goes back |
| `RetryScheduler.Scheduler.PendingRequestsTick` | httpclient/httpclient.go:441-461 | one tick ends, issues every due entry exactly once in queue order and leaves none due; the queue is what was not due plus the retries of what failed |
| `RetryScheduler.FormatRetryDuration` | httpclient/httpclient.go:434-439 | a retry never triggers earlier than 5 s after the failure |
| `RetryScheduler.RetriesSlowDown` | httpclient/httpclient.go:434-439 | retries come 5 s after the failure up to the second, 15 s for the third, and 5 s later for each one more |
| `RetryScheduler.RetryQueuedExactly` | httpclient/httpclient.go:410-432 | a failed request with retries wanted and left is queued once more, to trigger that much later, any other is not, and what was queued stays |
| `RetryScheduler.ReissueCountsOne` | httpclient/httpclient.go:463-485 | a retry counts one more and is otherwise the same request |
| `RetryScheduler.DueSkipsRetry` | httpclient/httpclient.go:410-439 | a retry queued during a tick does not become due within it |
| `RetryScheduler.TickIssuesDueOnce` | httpclient/httpclient.go:441-485 | for every sorted queue and every outcome of the exchanges: the due entries are issued once each, the rest is kept |
| `RetryProofs.IssuedWithinBudget` | httpclient/httpclient.go:410-485 | in every interleaving of callers and ticker a request is issued at most shouldRetry + 1 times, with at most one retry pending and none while it is under way |
| `RetryProofs.TurnInARow` | httpclient/httpclient.go:441-485 | the steps of one turn of a tick in a row do what `CheckRetryEntity` does |
| `RetryProofs.QueryInARow` | httpclient/httpclient.go:410-432 | the steps of a first request in a row do what `HTTPQuery` does |
| `UrlText.EscapeBack` | utils/index.go:368-379 | decoding undoes escaping for every byte string, and the escaped text holds no & and no = |
| `UrlText.EscapesExactly` | utils/index.go:368-370 | letters, digits and four signs stay, a blank becomes a plus, and any other byte a percent sign with two capital hexadecimal digits |
| `UrlText.BooleanWords` | utils/index.go:188-203 | which words mean true; all others mean false |
| `UrlText.DecimalForm` | utils/index.go:38-71 | decimal texts have no leading zero, and a minus sign in front where the number is negative |
| `UrlText.NumbersBack` | utils/index.go:38-71 | reading a decimal number gives back every 64-bit signed and unsigned value |
| `UrlText.JoinBack` | microsvc/serializers/urlencodeserializer.go:113-117 | splitting undoes joining for pieces without the delimiter |
| `FormCodec.MarshalURLEncode` | microsvc/serializers/urlencodeserializer.go:63-114 | the pieces of the written fields, in order, joined by & |
| `FormCodec.UnmarshalURLEncode` | microsvc/serializers/urlencodeserializer.go:116-187 | fields are set in order from the first value under their name; at the first text that is no number decoding stops with the earlier fields set |
| `FormCodec.CollectValues` | microsvc/serializers/urlencodeserializer.go:117-131 | the map holds, for each name, the values in order, so its first is the first piece with that name |
| `FormProofs.TextBack` | microsvc/serializers/urlencodeserializer.go:88-107 | the text of any integer, boolean or string value sets the field to that value again |
| `FormProofs.WireNameExactly` | microsvc/serializers/urlencodeserializer.go:79-85 | the name on the wire: the field name with its first letter in lower case, or the tag up to its first comma |
| `FormProofs.WrittenExactly` | microsvc/serializers/urlencodeserializer.go:79-110 | all fields are written but those tagged - and those tagged ,omitempty with an empty text |
| `FormProofs.PiecesInOrder` | microsvc/serializers/urlencodeserializer.go:63-114 | each written field has its piece name=text, escaped, behind those of the written fields before it |
| `FormProofs.PieceCount` | microsvc/serializers/urlencodeserializer.go:63-114 | and there are no other pieces |
| `FormProofs.EncodedPieces` | microsvc/serializers/urlencodeserializer.go:63-114 | the pieces stand between ampersands: splitting the form there gives them back, where no name holds one |
| `FormProofs.CutToWidth` | microsvc/serializers/urlencodeserializer.go:153-166 | a number is cut to the width of its field: into its range, by a multiple of it |
| `FormReading.DecodesExactly` | utils/index.go:373-379 | reading an escaped text succeeds if and only if it is made of plain bytes, pluses and percent signs with two hexadecimal digits, small or capital, and gives the bytes they mean; any other text is taken as it is |
| `FormReading.NumbersExactly` | microsvc/serializers/urlencodeserializer.go:153-166 | which texts are numbers, and which number each is: a sign or none and digits, within 64 bits |
| `FormReading.FrontDigit` | microsvc/serializers/urlencodeserializer.go:153-166 | decimal places: what a digit in front counts, leading zeros included |
| `FormReading.SetExactly` | microsvc/serializers/urlencodeserializer.go:150-180 | what a text, or the lack of one, makes of a field of each kind |
| `FormReading.PieceExactly` | microsvc/serializers/urlencodeserializer.go:118-131 | where a piece of a form is cut: the name ends at the first equals sign, and the text at the second |
| `FormReading.DecodeExactly` | microsvc/serializers/urlencodeserializer.go:116-187 | for any form: each field is set from the text found for it, up to the first field whose text is no number; that one and those behind it stay |
| `FormProofs.Found` | microsvc/serializers/urlencodeserializer.go:116-131 | decoding an encoded form finds under each name the text of the first field written under it |
| `FormProofs.RoundTripExactly` | microsvc/serializers/urlencodeserializer.go:63-187 | for integer, boolean and string fields: every record comes back, omitted empty fields included and fields tagged - left zero, if and only if no written name holds a delimiter and no field shares its name with a written one |
| `SqlText.TextDeterminesStatement` | dbutils/genericdbadapter.go:32-62 | a statement is read back from its sequence of words, numbers and clauses of the caller, each clause one token; nothing is said of the string they are joined to |
| `SqlAdapters.OracleGetSelectStatement` | dbutils/oracledbadapter.go:24-75 | writes the text of the Oracle statement: the nested ROWNUM form when paging, the window on a partition column otherwise; an error without a table |
| `SqlAdapters.Mssql2008GetSelectStatement` | dbutils/mssql2008dbadapter.go:25-75 | writes the text of the TOP and ROW_NUMBER form |
| `SqlAdapters.MssqlGetSelectStatement` | dbutils/mssqldbadapter.go:25-68 | writes the text of the TOP or OFFSET/FETCH form; an error for paging without an order |
| `SqlAdapters.Oracle12GetSelectStatement` | dbutils/oracle12dbadapter.go:24-63 | writes the text of the OFFSET/FETCH form (also Derby) |
| `SqlAdapters.GenericGetSelectStatement` | dbutils/genericdbadapter.go:24-63 | writes the text of the LIMIT/OFFSET form (also Phoenix and MySQL) |
| `SqlAdapters.TextMeansStatement` | dbutils/oracledbadapter.go:32-74 | the tokens every adapter writes for every request are read back as the intended statement, the clauses of the caller taken as tokens |
| `SqlAdapters.ColumnsExactly` | dbutils/genericdbadapter.go:36-41 | the columns written are the text of the caller, but a star when there is none or a star between blanks |
| `SqlAdapters.PageTexts` | dbutils/genericdbadapter.go:32-62 | the tokens of a page of a table with every clause, in full, for the three dialects that cut at one end |
| `SqlAdapters.NestedTexts` | dbutils/oracledbadapter.go:32-74 | the same for the nested texts of Oracle and the 2008 dialect |
| `SqlPaging.OraclePages` | dbutils/oracledbadapter.go:32-74 | the three nested levels yield the rows [offset, offset+limit) of the ordered table, in the columns asked for |
| `SqlPaging.Mssql2008Pages` | dbutils/mssql2008dbadapter.go:33-74 | numbering and sorting agree without ties, so TOP and the range of row numbers yield the same rows in the same columns |
| `SqlPaging.SelectionPages` | dbutils/oracle12dbadapter.go:32-62 | statements that cut once at either end yield the same rows in the same columns |
| `SqlPaging.DialectPages` | dbutils/mssqldbadapter.go:33-67 | what each dialect yields for every offset, negative ones included, in the columns asked for |
| `SqlPaging.DialectsPageAlike` | dbutils/oracledbadapter.go:33-72 | for limit > 0 and a distinct order key all dialects, each on its own engine, yield the columns asked for of the rows [offset, offset+limit) if and only if offset >= 0 |
| `SqlPaging.PagesMakeTable` | dbutils/genericdbadapter.go:53-60 | consecutive pages, each from any dialect on any engine, make up the whole ordered table in the columns asked for |
| `SqlPaging.DialectsSelectAlike` | dbutils/genericdbadapter.go:36-61 | without limit, offset and partition column every dialect answers with the columns asked for of the matching rows, in the order asked for |
| `SqlPaging.DialectsSkip` | dbutils/genericdbadapter.go:52-60 | what each dialect yields for an offset without a limit, negative ones included |
| `SqlPaging.NegativeCounts` | dbutils/mssql2008dbadapter.go:33-74 | what each dialect yields for a negative limit |
| `SqlPaging.UnorderedPages` | dbutils/mssqldbadapter.go:58-66 | without an order the dialects page the table as it stands, but for the two of Microsoft, which refuse from offset 0 on |
| `SqlPaging.Mssql2008PagesOnlyOrdered` | dbutils/mssql2008dbadapter.go:53-72 | the 2008 text is accepted for paging if and only if an order is given |
| `SqlPaging.DialectsWindowAlike` | dbutils/oracledbadapter.go:54-62 | for every count and start every dialect answers a window request with the columns asked for of the same rows, as often as the table holds them; only the 2008 dialect takes a negative start as 0 |
| `SqlPaging.WindowsTile` | dbutils/genericdbadapter.go:41-49 | a matching row with a non-negative value is shown by exactly one window if and only if a condition is given and the row matches none of its alternatives but the last |
| `HumanText.HumanByteText` | utils/humanreadable.go:38-82 | the byte loop computes the escaping of the specification |
| `HumanText.StartingSequence` | utils/humanreadable.go:54-67 | the look-ahead finds exactly the whole multi-byte sequence that starts at a byte |
| `HumanText.TextIsReadable` | utils/humanreadable.go:38-82 | for every byte string the text is structurally well-formed UTF-8 without control characters |
| `HumanText.TextHasNoControls` | utils/humanreadable.go:38-82 | no byte below 0x20 and no 0x7f |
| `HumanText.UnchangedExactlyWhenReadable` | utils/humanreadable.go:38-82 | a byte string is returned unchanged if and only if it already is of that form |
| `HumanText.HumanizeTwice` | utils/humanreadable.go:38-82 | escaping twice changes nothing more |
| `HumanText.EscapesNameTheirByte` | utils/humanreadable.go:44-72 | an escape spells its byte, and no two bytes share one |
| `HumanText.EscapesReadBack` | utils/humanreadable.go:44-72 | a reader who knows the letters a, b, t, n, v, f, r, the form xHH and u007f gets every escaped byte back; the letters are used exactly for 0x07 to 0x0d |
| `HumanText.KeptExactly` | utils/humanreadable.go:49-67 | a sequence is kept if and only if a lead byte of two, three or four is followed by as many continuation bytes as it announces |
| `HumanText.TextDeterminesExactly` | utils/humanreadable.go:38-82 | a byte string is the only one with its text if and only if it is readable and no escape is spelled in it |
| `HumanText.TextIsAmbiguous` | utils/humanreadable.go:73-75 | two different byte strings with the same text: the backslash is not escaped |
| `EcbCrypto.PKCS7Padding` | utils/cryptoes/aescrypto.go:27-32 | the padded text extends the text to a positive multiple of the block size, every byte added being the pad length cut to a byte |
| `EcbCrypto.UnpaddingUndoesPadding` | utils/cryptoes/aescrypto.go:27-41 | unpadding undoes padding if and only if the pad length fits a byte |
| `EcbCrypto.CryptBlocks` | utils/cryptoes/aescrypto.go:135-169 | the loop writes ECB of the source into dst, also in place, and leaves the rest of dst alone |
| `EcbCrypto.EcbBlockwise` | utils/cryptoes/aescrypto.go:135-169 | block i of the result is the image of block i of the source, for every i |
| `EcbCrypto.EcbRoundTrip` | utils/cryptoes/aescrypto.go:135-169 | ECB with the inverse of a block function gives the data back |
| `EcbCrypto.AesEncrypt` | utils/cryptoes/aescrypto.go:74-93 | pads and encrypts; an error for a bad key |
| `EcbCrypto.AesDecrypt` | utils/cryptoes/aescrypto.go:95-113 | exactly when it fails or panics, and what it returns otherwise |
| `EcbCrypto.DecryptUndoesEncrypt` | utils/cryptoes/aescrypto.go:74-113 | for every invertible block cipher and every text the round trip holds if and only if the pad length fits a byte, hence for all block sizes up to 255 |
| `EcbCrypto.EncryptThenDecrypt` | utils/cryptoes/aescrypto.go:74-113 | the same through the two methods |
| `DigitIncrement.DigitTables.GetDigitIndex` | utils/index.go:552-566 | the memoised table answers what a direct search would, and stays right for every alphabet |
| `DigitIncrement.DigitTables.IncreaseValue` | utils/index.go:569-586 | the loops compute the increment |
| `DigitIncrement.IncrementIs` | utils/index.go:569-586 | for any text and alphabet: the last digit that is not the greatest moves on, what is behind it starts over, foreign characters too, and what is before stays |
| `DigitIncrement.IncrementAddsOne` | utils/index.go:569-586 | over distinct digits the value becomes (v + 1) mod base^length, and the length stays |
| `DigitIncrement.ValueInjective` | utils/index.go:569-586 | different strings of one length have different values |
| `DigitIncrement.CycleReturns` | utils/index.go:569-586 | base^length increments return to the start |
| `DigitIncrement.CycleVisitsEachOnce` | utils/index.go:569-586 | on the way every string of that length over the alphabet is visited exactly once |
| `StrategyIndex.WidgetsStrategyWrapper.AddWidget` | microsvc/widgets/strategywidets.go:26-45 | registers a new widget and enters it under the strategies it passes |
| `StrategyIndex.WidgetsStrategyWrapper.RemoveWidget` | microsvc/widgets/strategywidets.go:59-74 | unregisters a widget and drops it from every strategy |
| `StrategyIndex.WidgetsStrategyWrapper.Load` | microsvc/widgets/strategywidets.go:111-135 | announces the patterns and enters every registered widget |
| `StrategyIndex.WidgetsStrategyWrapper.GetWidgetsByStrategy` | microsvc/widgets/strategywidets.go:85-108 | the widgets of a loaded strategy in the order of its listing: each registered one that passes the match test, once |
| `StrategyIndex.IndexAlwaysExact` | microsvc/widgets/strategywidets.go:26-198 | after any mix of additions, removals and loads that do not overlap every loaded strategy lists each registered widget that passes the match test exactly once, and nothing else |
| `StrategyIndex.ListedByPattern` | microsvc/widgets/strategywidets.go:138-168 | in every state of every run a loaded strategy lists a registered widget if and only if its pattern is * or #, or compiles and matches itself |
| `StrategyIndex.ListingOrder` | microsvc/widgets/strategywidets.go:138-198 | a new widget that matches comes last in every listing, and a removed one leaves the order of the others |
| `StrategyIndex.LoadKeepsListing` | microsvc/widgets/strategywidets.go:111-135 | a load leaves the listings of the strategies loaded before as they are, to the order |
| `StrategyIndex.RegistryExactly` | microsvc/widgets/strategywidets.go:26-74 | the registry holds the first widget added under a name until it is removed; a load leaves it |
| `StrategyIndex.LateLoadExactly` | microsvc/widgets/strategywidets.go:111-168 | entering a widget that was listed before keeps the index exact if and only if no strategy is loaded, the widget does not match, or one that matches is registered under its name now |
| `StrategyIndex.LateDropExactly` | microsvc/widgets/strategywidets.go:59-74 | dropping a widget that was unregistered before keeps the index exact if and only if no strategy is loaded, the widget does not match, or none that matches is registered under its name now |
| `StrategySteps.ListedExactly` | microsvc/widgets/strategywidets.go:26-198 | in every interleaving a loaded strategy lists a name if and only if since it was loaded the last section that entered or dropped a matching widget of the name has entered it |
| `StrategySteps.IndexExactExactly` | microsvc/widgets/strategywidets.go:26-198 | in every state of every interleaving the index is exact if and only if for every loaded strategy and every name that last section agrees with what is registered |
| `StrategySteps.AddInARow` | microsvc/widgets/strategywidets.go:26-45 | the two sections of an addition, with nothing in between, do what the operation does |
| `StrategySteps.RemoveInARow` | microsvc/widgets/strategywidets.go:59-74 | the same for a removal |
| `StrategySteps.LoadInARow` | microsvc/widgets/strategywidets.go:111-135 | the same for a load, in any order of its widgets |
| `StrategySteps.LoadsOne` | microsvc/widgets/strategywidets.go:111-135 | the state with one strategy loaded and nothing registered, from which two of the inputs start, is reached |
| `StrategySteps.ReplacedWidgetListedNowhere` | microsvc/widgets/strategywidets.go:59-74 | at an input: a widget is removed and replaced by one of its name that matches too; the late drop takes the name away, and no strategy lists the new one |
| `StrategySteps.AddedDuringLoadMissed` | microsvc/widgets/strategywidets.go:111-135 | at an input: a widget added after a load has looked for widgets and before it announces its patterns is entered nowhere |
| `StrategySteps.RemovedWidgetListedAgain` | microsvc/widgets/strategywidets.go:59-135 | at an input: a widget removed while a load runs is listed again |
| `StrategyIndex.StrategiesSelectAlike` | microsvc/widgets/strategywidets.go:138-168 | all loaded strategies list the same widgets |
| `TreeBuilder.BuiltinTreeDataBuilder.Push` | microsvc/parameters/treedata.go:51-61 | the element is appended under its parent key |
| `TreeBuilder.BuiltinTreeDataBuilder.GetTreeData` | microsvc/parameters/treedata.go:64-81 | the recursion computes the forest of the specification |
| `TreeBuilder.BuiltinTreeDataBuilder.GetForest` | microsvc/parameters/treedata.go:64-81 | without a reachable cycle the recursion ends, and every tree stands where it was pushed |
| `TreeBuilder.TerminatesExactlyWithoutCycle` | microsvc/parameters/treedata.go:64-81 | the recursion from a key ends if and only if no parent cycle is reachable from it |
| `TreeBuilder.BuildIsPlaced` | microsvc/parameters/treedata.go:64-81 | at every level the siblings are the elements pushed under that key, in push order |
| `TreeBuilder.PushReachesExactly` | microsvc/parameters/treedata.go:51-61 | a push makes reachable exactly what was below the element, from exactly the places that reach the parent |
| `TreeBuilder.ForestHoldsReachableOnce` | microsvc/parameters/treedata.go:50-81 | with unique keys, elements pushed without children and no reachable cycle the forest holds each element pushed at a reachable place exactly once, under its own parent, and nothing else |
| `TreePointers.TreeData.SetChildren` | microsvc/parameters/treedata.go:28-43 | the children become copies of the given elements, as they are then |
| `TreePointers.TreeDataBuilder.Push` | microsvc/parameters/treedata.go:89-99 | the element is appended under its parent key |
| `TreePointers.TreeDataBuilder.GetTreeData` | microsvc/parameters/treedata.go:102-119 | returns the pushed elements themselves, changed in place to what the recursion on values builds, whatever order and sharing led there |
| `TreePointers.PushIsPushed` | microsvc/parameters/treedata.go:89-99 | a push of an element is a push of its value |

## Left out

- RecordCacheProofs.RunsStayCoherent: for operations that do not overlap, with each row of `setArray` one of them; what overlapping ones do to aliases is in `RecordCacheSteps`.
- RecordCacheProofs.RestoredRecordHidesAliases: for operations that do not overlap; for those that do, `AliasHitsAgainExactly` says exactly when it fails.
- RecordCacheSteps.RestoreDropsExactly: for an alias that others do not set, drop or list while the record is stored again; what they do to the record itself is free.
- RecordCache.CacheElementGroup.Set: coherence for keys that are used consistently as primary or as condition keys; the state is stated for all keys. No caller in the repository passes a primary key condition (`orm/rdbms/index.go:353-354` is commented out, the others pass nil), so all their keys are stored the way primary keys are; aliases are what `set` itself offers.
- RecordCache.CacheElementGroup.SetArray: the same for the primary keys of its rows.
- StrategyIndex.IndexAlwaysExact: for operations that do not overlap; for those that do, `StrategySteps.IndexExactExactly` says exactly when the index is exact.
- KafkaWorkers.KafkaWorker.OnMessage: what the consumer does with a packet, and the reply sent to `ReplyTo`.
- PulsarMQs.PulsarMQ.Publish: the registration of a query for RPC (in `RpcInstance`) and the tracker message.
- PulsarMQs.PulsarMQ.EnsurePendings: resubscribing the pending consumers.
- RabbitMQs.RabbitMQ.Publish: exchange, routing key and the registration of a query.
- RabbitMQs.RabbitMQ.EnsurePendings: the pending consumers.
- RabbitMQs.OrderKeptExactly: the run loop alone; its messages and those of the goroutine of the deliveries have no common order of submission.
- RabbitMQs.SentInSubmissionOrder: the run loop alone, for the same reason.
- RabbitMQs.DeliveryAnsweredExactly: on a channel that stays open, whose queue is declared or whose client is a broadcast one, with one broker for the whole handling; `RabbitProofs.UnansweredOnlyIfRefused` has neither restriction.
- RabbitMQs.HandledSends: the same.
- RabbitPublishing.HandleInARow: with nothing published beside; what others publish is in every interleaving of `RabbitProofs`.
- PulsarPublishing.HandleInARow: the same, of `PulsarProofs`.
- PulsarProofs.MessagesConserved: the machine lets the run loop hold several messages at once and lose the connection meanwhile, which the code does not; the results hold of more interleavings than there are.
- PulsarProofs.AutomaticReplyAtMostOnce: distinct correlation ids; requests under one id share an entry of `pendingReplies`, and the model does not follow these.
- RabbitProofs.AutomaticReplyAtMostOnce: the same.
- Real connections, brokers, databases, TLS, tunnels, reflection, gob and the choice of cache groups by structure name.
- `CutAfter`, which the cache does not use.
- `mq/rabbitmq/rabbitmq.go` QueryRPC: all queries of an instance share one response channel, so no query gets its own reply for certain; exchange and routing keys are not modelled either.
- Liveness: that a reply arrives, that a buffer is flushed at last.
- Redirects inside `HTTPQuery`; `successStatus`, which a retry does not inherit.
- FormCodec.MarshalURLEncode: a float field writes an empty text, as fields of named number types do in the source; the decimal texts of floats are not modelled.
- FormCodec.UnmarshalURLEncode: a float field is neither set nor rejected.
- FormProofs.RoundTripExactly: for integer, boolean and string fields; a field of another type is encoded and decoded by the model but never restored.
- SqlText.TextDeterminesStatement: of token sequences; column, table, condition and order texts are single tokens that are not looked into. The joined strings of two requests can be equal: the condition `x=1 ORDER BY y` without an order, and the condition `x=1` with the order `y`.
- SqlAdapters.TextMeansStatement: of token sequences likewise; the order key is ascending, so DESC in the 2008 dialect is not covered.
- SqlPaging.OraclePages: the outer selects have no ORDER BY; a nested statement is taken to hand its rows on in order, as engines do and SQL does not promise.
- SqlPaging.Mssql2008Pages: the same.
- SqlPaging.DialectsPageAlike: for limit > 0; `DialectsSelectAlike`, `DialectsSkip` and `NegativeCounts` are about the others.
- SqlPaging.DialectsSelectAlike: a text of columns is taken to name columns, so that selecting them once more from what has been selected changes nothing; expressions are not.
- SqlPaging.NegativeCounts: databases are taken to refuse a negative number behind TOP, LIMIT and FETCH.
- The sum offset + limit is not wrapped at 64 bits, and neither are clock values plus durations.
- HumanText.TextIsReadable: well-formed by lead and continuation bytes; overlong forms and surrogates pass, as they do in the source.
- CBC mode, which is library code, and the key schedule: the cipher is a parameter.
- StrategyIndex.WidgetsStrategyWrapper.AddWidget: a nil widget is not modelled.
- TreeBuilder.ForestHoldsReachableOnce: elements pushed with children already set keep them where nothing is pushed below, and these are not counted.
- TreePointers.TreeDataBuilder.GetTreeData: the elements are all of the type `TreeData`; elements of other types behind the interface are not modelled.
- TreeBuilder.BuiltinTreeDataBuilder.GetTreeData: takes the depth of the recursion as a ghost argument; `TerminatesExactlyWithoutCycle` says when there is one.
- FIFO queue, concurrent map, getters, scaffolds, documents, logging, health checks: plumbing without a property that needs a proof.
