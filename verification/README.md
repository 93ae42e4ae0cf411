# Verification of the cordn coordinator core

A Dafny model of the message coordinator in `crates/cordn-core` and of the
key-package operations in `crates/cordn-server`, with proofs of what it promises
over whole runs. Check it with `dafny verify dfyconfig.toml`.

## What is modelled

**Subscriptions** (`Streams`, `Subscribers`, `Registry`, `Registries`, `Requests`,
`Delivery`, `ExactlyOnce`, `GapFree`, `Sessions`, `Histories`). Posting is two steps under two
locks (append to the log, then fan out); a multi-group subscribe is three
(register, fetch the backlog without the lock, replay and go live). `Delivery` is
a step machine over these steps by any number of clients, failed fetches and
unsubscribes included; a run is any interleaving. The theorems say exactly what
every stream has received in every run, when that is everything, and that a
subscription that goes leaves nothing behind; `Histories` reads all of it off the
actions of the run alone.

**Storage** (`GroupLogs`, `Tables`, `SqlJoins`, `KeyStore`, `Queues`, `JoinQueues`,
`MessageStore`, `Backends`, `Parity`, `QueueRuns`, `Promises`, and the classes in
`InMemoryStorage` and `SqliteStorage`). One contract on sequences of records in
storage order; the in-memory backend as insertion-ordered maps of lists; SQLite as
tables of rows with increasing ids and each query as a function over them. Both
are proved to implement the contract, step by step and over whole runs, and the
classes are proved to be those steps. `Promises` says of every operation, after every
run, what it answers and leaves, without the functions that compute it.

**Key-package life cycle** (`Lifecycle`, `Quotas`, `Availability`, `Evictions`,
`MemoryLifecycle`, `SharedRefs`, `MemoryQuotas`, and the class in `Adapter`). Publish under a quota that evicts
before it checks, consume, remove; every instance is a row with its own id, so
conservation and age can be stated. Proved over all runs from the empty store.

**Key-package parser** (`MlsFormat`, `MlsExtensions`, `MlsWalker`, `MlsPackages`,
`MlsAccepted`, and the cursor program in `MlsParser`). Length headers, credentials, leaf nodes
and key packages as in section 2.1.2, section 5.3, section 7.2 and section 10 of
RFC 9420, with an encoder written from the grammar. Lengths may be written in any
form that holds them, so parsing undoes encoding and never the reverse. UTF-8
validity of the identity is a parameter, and the identity is kept as bytes.

**Rate limiter** (`RateLimits`, `RateBounds`, `RateClocks`, `RateIsolation`,
`RateEviction`, and the class in `RateLimiters`).
Tokens are real numbers, times are integers; `f64` rounding is idealised.

`Seqs` and `Records` hold sequence filters and the domain records.

## Findings

- Gap-free delivery needs posts to one group to be serialised, as the storage
  contract assumes; `OvertakingLosesARecord` gives a run that loses a record, and
  `GapFreeIffOrdered` the exact condition.
- When a group appears twice in a subscribe request the last cursor wins while the
  backlog is fetched for both; `DuplicateGroupLosesARecord` gives a run that loses a
  record, `ExactlyOnceIff` says exactly which runs do and `DuplicatesLoseExactly`
  which lists can.
- SQLite refuses a reference that is held, memory accepts it
  (`PublishAgreesIffFresh`). On SQLite a publish of a held reference as a last
  resort fails after the eviction, and `HeldRefLosesLastResortIff` says exactly when
  the identity is then left without one (`HeldRefLosesOne` is such a run). In memory
  an eviction can take the package of another identity that holds the same reference;
  `RunEvictsAtHomeIff` says exactly when (`EvictionTakesAnothers` is such a run), and
  `LimitsKeptIff` when the limits survive it.
- With `max_last_resort_per_identity = 0` last resorts are not counted, so the limit
  on all packages does not bind (`TotalBoundIffLastResortsLimited`).
- An idle time shorter than a full refill lets eviction raise the rate
  (`EvictionExactlyInvisible`). A clock that steps back refills the same stretch
  twice (`SteppingBackRefillsTwice`); `AnyClockBound` bounds every clock, and the
  bound by duration holds exactly for clocks that move one way
  (`DurationBoundsIffOneWay`). Such a clock can also let another key's eviction
  change a key's answers (`AnothersCallFreesTheKey`); `KeysAreIsolatedIff` says
  exactly when.
- `list_all_key_packages` is ordered by identity in memory and by publication in
  SQLite (`ListingsAgreeIffGrouped`, `ListingOrderDiffers`), although the header of
  `in_memory.rs` says that the orders match.

## Model

| member | source | states |
|---|---|---|
| `Subscribers.Subscriber.constructor` | crates/cordn-core/src/coordinator.rs:121-131 | a new subscription has an empty buffer and an empty stream |
| `Subscribers.Subscriber.EmitIfNew` | crates/cordn-core/src/coordinator.rs:134-149 | the new state is the old one after offering one record: with de-duplication it reaches the stream only above the group's cursor, which then moves |
| `Subscribers.Subscriber.Push` | crates/cordn-core/src/coordinator.rs:153-159 | while buffering a live record changes the buffer only; afterwards it is an emission |
| `Subscribers.Subscriber.ReplayBacklog` | crates/cordn-core/src/coordinator.rs:163-167 | replaying a list is offering its records one by one, in order |
| `Subscribers.Subscriber.FinishBuffering` | crates/cordn-core/src/coordinator.rs:171-177 | buffering ends, the buffer is emptied, and its records are offered in arrival order |
| `Streams.EmitAllProjects` | crates/cordn-core/src/coordinator.rs:134-149 | de-duplication acts on every group alone: what reaches the stream of a group is the running maxima, above its starting cursor, of the records of that group offered so far |
| `Streams.MaximaAscend` | crates/cordn-core/src/coordinator.rs:139-147 | running maxima are strictly ascending, above the floor, and taken from the input |
| `Streams.MaximaKeep` | crates/cordn-core/src/coordinator.rs:144-147 | a record is kept if and only if it beats the floor and everything before it |
| `Streams.MaximaComplete` | crates/cordn-core/src/coordinator.rs:144-147 | nothing above the floor is dropped if and only if the records above the floor arrive in cursor order |
| `Registries.SubscriberRegistry.Register` | crates/cordn-core/src/coordinator.rs:507-520 | registering gives out the next id and is the registry function of the same name, for a subscriber object not yet in the registry |
| `Registries.SubscriberRegistry.Remove` | crates/cordn-core/src/coordinator.rs:522-543 | removal is the registry function of the same name; the subscribers that stay are the same objects |
| `Registries.SubscriberRegistry.PublishLive` | crates/cordn-core/src/coordinator.rs:545-564 | fan-out pushes one record to each subscriber of its group, independently of the order in which the id set is visited, and changes nothing else |
| `Registries.SubscriberRegistry.ReplayAndFinish` | crates/cordn-core/src/coordinator.rs:471-477 | the critical section that ends set-up: replay, then flush the buffer and go live |
| `Registries.SubscriberRegistry.ActiveSubscriptionCount` | crates/cordn-core/src/coordinator.rs:488-490 | the size of the refcount map |
| `Registry.RegisterRepresents` | crates/cordn-core/src/coordinator.rs:494-520 | registering under distinct groups adds exactly one live subscription and keeps sets non-empty and refcounts equal to the number of groups |
| `Registry.RemoveRepresents` | crates/cordn-core/src/coordinator.rs:522-543 | removing a subscription under the groups it registered removes it from both index maps and from the subscribers, and nothing else |
| `Registry.PublishRepresents` | crates/cordn-core/src/coordinator.rs:545-564 | fan-out reaches exactly the subscriptions that want the group |
| `Registry.RepresentsUnique` | crates/cordn-core/src/coordinator.rs:180-187 | the live subscriptions determine both index maps completely |
| `Requests.Collect` | crates/cordn-core/src/coordinator.rs:441-446 | the de-duplication loop keeps each group id once, in order of first appearance, with the last cursor given for it |
| `Promises.LastEntryCounts` | crates/cordn-core/src/coordinator.rs:442-446 | the last entry for a group says where its subscription starts: after the cursor given there, or from the beginning |
| `Requests.BacklogDelivers` | crates/cordn-core/src/coordinator.rs:442-477 | for every group list, repeated groups included, which backlog records of a group get through: those above an explicit effective start |
| `Requests.CompleteForLog` | crates/cordn-core/src/coordinator.rs:442-463 | for one log: backlog is complete if and only if the first entry with anything to fetch does not start above the last cursor given (or that one is past the log) |
| `Requests.DuplicatesLoseExactly` | crates/cordn-core/src/coordinator.rs:442-463 | over all logs: a group list never loses backlog of a group if and only if its first entry for the group does not start above its last |
| `Requests.DistinctListsAgree` | crates/cordn-core/src/coordinator.rs:442-463 | without repeated groups the first entry is the last one, so nothing is lost |
| `Delivery.StepInv` | crates/cordn-core/src/coordinator.rs:380-564 | each of the eight steps (append, fan out, single subscribe, register, fetch, failed fetch, replay and finish, unsubscribe) keeps the invariant: logs dense, every record fanned out once or in flight, registry exact, and every subscription's state a function of what it fetched and heard |
| `Delivery.RunInv` | crates/cordn-core/src/coordinator.rs:437-486 | the invariant holds after every interleaving of any number of posts and subscriptions |
| `ExactlyOnce.StreamIsExact` | crates/cordn-core/src/coordinator.rs:437-486 | in every interleaving a finished stream holds, per group, exactly the fetched records above its start followed by those later fan-outs that beat every earlier one |
| `ExactlyOnce.StreamIsOrdered` | crates/cordn-core/src/coordinator.rs:134-177 | in every interleaving each stream is strictly ascending per group, without duplicates, and holds only log records of that group above the requested cursor |
| `ExactlyOnce.BacklogComesFirst` | crates/cordn-core/src/coordinator.rs:463-477 | in every interleaving every new record of the fetched backlog precedes every record outside it, across all groups |
| `ExactlyOnce.LiveTailIsExact` | crates/cordn-core/src/coordinator.rs:413-430 | a single-group subscription receives every fan-out of its group since it registered, once, in order, and nothing else |
| `ExactlyOnce.StreamingClients` | crates/cordn-core/src/coordinator.rs:437-486 | every finished multi-group subscription is covered by the stream theorems, for each of its groups |
| `GapFree.SerialDelivery` | crates/cordn-core/src/storage/mod.rs:61-65 | when posts to a group are serialised, whatever happens in other groups, each stream holds of it one contiguous stretch of the log, up to the last fan-out (or one further if the backlog already held the record in flight) |
| `GapFree.ExactlyOnceIff` | crates/cordn-core/src/coordinator.rs:437-486 | exactly once and exactly when, over all runs: with serialised posts to the group and none in flight, a stream holds every record above the requested cursor, once, in order, if and only if the first entry for the group that had anything to fetch did not start above the last one |
| `GapFree.ExactlyOnceDelivery` | crates/cordn-core/src/coordinator.rs:380-393 | so a list whose first entry for the group does not start above its last one, in particular one without repeated groups, never loses anything |
| `GapFree.DuplicateGroupLosesARecord` | crates/cordn-core/src/coordinator.rs:442-463 | a concrete serial run: two posts, then a subscribe that lists the group after 1 and again from the start; the stream never holds record 1 |
| `GapFree.GapFreeIffOrdered` | crates/cordn-core/src/coordinator.rs:545-564 | for every run, serialised or not: with no post in flight a stream is gap-free if and only if the records beyond its backlog were fanned out in cursor order |
| `GapFree.OvertakingLosesARecord` | crates/cordn-core/src/coordinator.rs:384-391 | a concrete run in which two posts append 1, 2 and fan out 2, 1, after which record 1 never reaches the subscriber: the single-writer assumption is needed |
| `Sessions.RegistryIsExact` | crates/cordn-core/src/coordinator.rs:488-543 | after every run: a refcount is the number of group sets with the id, no set is empty, sets hold exactly the live subscribers, the active count is the number of live non-empty subscriptions |
| `Sessions.IdsNeverReused` | crates/cordn-core/src/coordinator.rs:496-497 | over every run: all ids live up to a moment are below the counter, and every id given out later is not, so no id is ever reused |
| `Sessions.RegistryIsDetermined` | crates/cordn-core/src/coordinator.rs:180-187 | the whole registry is a function of the live clients and the fan-out history |
| `Sessions.LeavesNoTrace` | crates/cordn-core/src/coordinator.rs:463-469 | register a single-group or a multi-group subscription, any interleaving of other work, then the step that ends it (an unsubscribe or a failed fetch): the whole system is as if the subscription had never been there, except for the used-up id |
| `Histories.LogsAreRead` | crates/cordn-core/src/coordinator.rs:380-393 | after every run the log of a group is what the actions posted to it: as many records as posts, in order, each with its own payload and time and the next cursor |
| `Histories.FanOutsAreRead` | crates/cordn-core/src/coordinator.rs:384-391 | after every run the records fanned out are those that the fan-out actions name, in order |
| `Histories.SubscribesAsAsked` | crates/cordn-core/src/coordinator.rs:437-461 | the client that a subscribe action made, if it was not removed since, is registered under exactly the groups that the action names, in the client table and in the registry |
| `Histories.TailReceives` | crates/cordn-core/src/coordinator.rs:413-430 | read off the actions: a single-group subscription has received exactly the records of its group fanned out by the actions after its own, in that order |
| `Histories.StreamsAsAsked` | crates/cordn-core/src/coordinator.rs:437-486 | a subscription that was made by one action, fetched by a second and finished by a third is streaming, for the groups of the first and with the logs as they were at the second |
| `Histories.ExactlyOnceAsAsked` | crates/cordn-core/src/coordinator.rs:437-486 | exactly once, read off the actions: with serialised posts to the group and none in flight the stream holds every record above the cursor asked for last, once, in order, if and only if the first entry with anything to fetch when the fetch was made did not start above it |
| `Histories.NothingIsLeft` | crates/cordn-core/src/coordinator.rs:522-543 | after every run an unsubscribe or a failed fetch takes its client out of the subscribers, the refcounts and every group's set, and leaves every other entry as it was |
| `Histories.NextStepIsPossible` | crates/cordn-core/src/coordinator.rs:437-486 | no step blocks: after an append its fan-out, after a registration the fetch or its failure, after a fetch the finish, and after a finished or a single-group subscription the unsubscribe can be taken |
| `Histories.StartIsAlwaysPossible` | crates/cordn-core/src/coordinator.rs:380-461 | a post or a subscription can start in any state |
| `GroupLogs.AppendKeepsDense` | crates/cordn-core/src/storage/mod.rs:67-72 | an append gives its group the next cursor of 1, 2, 3, ... and leaves every other group's log alone |
| `GroupLogs.FetchIsSuffix` | crates/cordn-core/src/storage/mod.rs:158-164 | a fetch after c is exactly the part of the log beyond c, also for negative c and c past the end |
| `GroupLogs.PagingIsExact` | crates/cordn-core/src/storage/mod.rs:158-164 | a reader that polls after its last cursor, with posts to any group in between, always holds a prefix of the log and the whole log right after a poll |
| `Tables.PutIndexed` | crates/cordn-core/src/storage/in_memory.rs:36-41 | replacing one key's list carries the index from one record sequence to another that differs in that key only |
| `Tables.FlattenAll` | crates/cordn-core/src/storage/in_memory.rs:125-133 | all lists together hold every record exactly once: a listing by key equals the stored sequence as a multiset |
| `Tables.DroppedTotal` | crates/cordn-core/src/storage/in_memory.rs:268-279 | the per-list counts of an expiry add up to the number of records dropped from the whole store |
| `KeyStore.LocateIsFind` | crates/cordn-core/src/storage/in_memory.rs:80-97 | searching the identities in map order finds the one record with the reference, and its owner |
| `KeyStore.MemPublishHolds` | crates/cordn-core/src/storage/in_memory.rs:100-111 | publishing appends to the stored sequence, whatever the reference; references stay unique if and only if it was not held |
| `KeyStore.MemRemoveHolds` | crates/cordn-core/src/storage/in_memory.rs:143-164 | taking one index out of one list removes exactly the record with that reference |
| `KeyStore.MemConsumeHolds` | crates/cordn-core/src/storage/in_memory.rs:166-215 | the reference wins over the identity; by identity the oldest regular package leaves, else the newest package is returned and stays |
| `KeyStore.BestIsLeast` | crates/cordn-core/src/storage/sqlite.rs:139-145 | the row picked by one pass over the rows is the least one in the query's three-key order |
| `KeyStore.BestIsOffer` | crates/cordn-core/src/storage/sqlite.rs:137-145 | the least row in that order is the oldest regular one, or the newest row when none is regular |
| `KeyStore.SqlPublishHolds` | crates/cordn-core/src/storage/sqlite.rs:275-296 | an insert succeeds if and only if the reference is not held, and then appends |
| `KeyStore.SqlRemoveHolds` | crates/cordn-core/src/storage/sqlite.rs:339-360 | deleting by reference removes exactly that record and keeps ids and uniqueness |
| `KeyStore.SqlConsumeHolds` | crates/cordn-core/src/storage/sqlite.rs:362-403 | the SQLite consume hands out and deletes what the contract says |
| `Queues.MemRetireHolds` | crates/cordn-core/src/storage/in_memory.rs:230-259 | retaining in one list is acknowledging in the stored sequence |
| `Queues.SqlRetireHolds` | crates/cordn-core/src/storage/sqlite.rs:432-444 | one DELETE per acknowledgement removes exactly the acknowledged records of that key |
| `Queues.MemExpireHolds` | crates/cordn-core/src/storage/in_memory.rs:261-280 | expiry by list keeps exactly what is young enough and counts what went; a threshold of zero or less does nothing |
| `Queues.SqlExpireHolds` | crates/cordn-core/src/storage/sqlite.rs:461-471 | the same for one DELETE over the table |
| `JoinQueues.StoreKeepsInv` | crates/cordn-core/src/storage/in_memory.rs:282-315 | storing keeps one entry per requester and group and at most 100 entries per group |
| `JoinQueues.MemStoreHolds` | crates/cordn-core/src/storage/in_memory.rs:282-315 | updating the first match of one list is refreshing the entry in the stored sequence, and the cap is met in the same cases |
| `JoinQueues.SqlStoreHolds` | crates/cordn-core/src/storage/sqlite.rs:473-535 | select, update or count and insert do the same over the table |
| `JoinQueues.PartitionMeaning` | crates/cordn-core/src/storage/mod.rs:38-52 | an acknowledgement is in a group's part if and only if it was given for that group |
| `JoinQueues.BatchIsLoop` | crates/cordn-core/src/storage/mod.rs:136-144 | deleting everything acknowledged first and then joining equals, in result and in state, retiring and fetching group by group, for every group list, repeated groups included |
| `JoinQueues.MemFetchEachHolds` | crates/cordn-core/src/storage/in_memory.rs:346-361 | the in-memory loop over groups implements the group-by-group contract |
| `SqlJoins.OrderBySorts` | crates/cordn-core/src/storage/sqlite.rs:602-602 | the modelled ORDER BY over pairs of a request and a row is a sort: in order, same pairs |
| `SqlJoins.JoinIsPerRequest` | crates/cordn-core/src/storage/sqlite.rs:598-603 | a join of the requests with a table, met row by row and sorted by request and row key, is the concatenation of the selections request by request, repeated requests included |
| `JoinQueues.SqlFetchEachHolds` | crates/cordn-core/src/storage/sqlite.rs:568-620 | the SQLite deletes and the one join ordered by request and id implement the same group-by-group contract |
| `MessageStore.ByCursorSorts` | crates/cordn-core/src/storage/sqlite.rs:699-702 | the modelled ORDER BY is a sort: ascending cursors, same records |
| `MessageStore.MemAppendHolds` | crates/cordn-core/src/storage/in_memory.rs:384-408 | the per-group counter allocates the cursor the contract asks for |
| `MessageStore.SqlAppendHolds` | crates/cordn-core/src/storage/sqlite.rs:635-688 | SQLite never refuses an append in a reachable state: the cursor is positive and the unique index has room, and it is the contract's cursor |
| `MessageStore.SqlFetchHolds` | crates/cordn-core/src/storage/sqlite.rs:690-709 | filtering the one message table and sorting by cursor gives the group's log beyond the cursor |
| `MessageStore.MemFetchManyHolds` | crates/cordn-core/src/storage/in_memory.rs:432-454 | the loop over groups gives the contract's merged page |
| `MessageStore.SqlFetchManyHolds` | crates/cordn-core/src/storage/sqlite.rs:711-743 | the one join with the requested groups, ordered by request and cursor, gives the same merged page, repeated groups included |
| `Parity.AskInv` | crates/cordn-core/src/storage/mod.rs:73-173 | every storage operation keeps references unique, join queues within their limits and cursors dense |
| `Parity.MemRefines` | crates/cordn-core/src/storage/in_memory.rs:99-455 | every in-memory operation, with a fresh reference on publish, answers as the contract and goes on representing it |
| `Parity.DbRefines` | crates/cordn-core/src/storage/sqlite.rs:274-744 | every SQLite operation answers exactly as the contract, refused publishes included |
| `Parity.BackendParity` | crates/cordn-core/src/storage/mod.rs:73-173 | after every run of operations with fresh references both backends represent the same store and answer whatever comes next alike (a full listing as a multiset) |
| `Parity.QueueParity` | crates/cordn-core/src/storage/mod.rs:73-173 | queues and logs: after every run, held references published or not, both backends answer alike whatever is asked of welcomes, join requests and messages |
| `Parity.PublishAgreesIffFresh` | crates/cordn-core/src/storage/sqlite.rs:80-80 | after every run a publish is answered alike by the two backends if and only if its reference is not held in the database |
| `Parity.ListingsAgreeIffGrouped` | crates/cordn-core/src/storage/in_memory.rs:125-133 | the two full listings agree in order too if and only if the stored packages stand in the order in which memory keeps the identities |
| `Parity.ListingOrderDiffers` | crates/cordn-core/src/storage/sqlite.rs:314-325 | publishing for alice, bob, alice is listed in different orders by the two backends |
| `Promises.LogsHoldThePosts` | crates/cordn-core/src/storage/mod.rs:158-164 | after every run of operations a log holds exactly what was posted to its group, in order, with cursors 1, 2, 3, ... |
| `Promises.AppendPromise` | crates/cordn-core/src/storage/sqlite.rs:635-688 | a post is answered, by both backends, with a record of the payload and time given under the next cursor, and the next fetch after the old end of the log returns that record |
| `Promises.FetchPromise` | crates/cordn-core/src/storage/sqlite.rs:690-709 | after every run, on both backends: a fetch after c returns exactly the records of the group with a cursor above c, and a fetch without a cursor the whole log |
| `Promises.FetchManyPromise` | crates/cordn-core/src/storage/sqlite.rs:711-743 | a fetch over several groups returns, on both backends, the page of each entry after its own cursor, in the order of the entries |
| `Promises.PagingPromise` | crates/cordn-core/src/storage/mod.rs:158-164 | over whole runs of operations: a reader that polls after the last cursor it holds has a prefix of the log, and the whole log right after a poll |
| `Promises.FramePromise` | crates/cordn-core/src/storage/mod.rs:73-173 | after every run an operation leaves packages, welcomes, join requests and logs alone unless it is one that is for them |
| `Promises.PublishPromise` | crates/cordn-core/src/storage/sqlite.rs:275-296 | after every run a publish fails if and only if its reference is in use, and otherwise goes behind all that is stored; memory takes it in any case |
| `Promises.ListPromise` | crates/cordn-core/src/storage/sqlite.rs:298-325 | a listing is what is stored, of everyone or of one owner, in the order of publication |
| `Promises.RemovePromise` | crates/cordn-core/src/storage/sqlite.rs:327-360 | a look-up returns the one package with the reference, none if there is none; a removal answers the same and leaves all the others, in order |
| `Promises.ConsumePromise` | crates/cordn-core/src/storage/sqlite.rs:362-403 | a consume hands out the package whose reference was given, else the owner's oldest regular one, else its newest last resort, else nothing; a regular one leaves and nothing else changes |
| `Promises.WelcomePromise` | crates/cordn-core/src/storage/sqlite.rs:405-459 | a welcome is stored behind the others; a fetch drops exactly what it acknowledges for its target and returns, in order, what is left for it, on both backends |
| `Promises.WelcomeExpiryPromise` | crates/cordn-core/src/storage/sqlite.rs:461-471 | an expiry keeps, in order, exactly the welcomes not older than a positive threshold and answers with how many went; at zero or below nothing goes |
| `Promises.JoinStorePromise` | crates/cordn-core/src/storage/in_memory.rs:282-315 | a request takes the place of the requester's entry in the group; without one it is refused, and nothing changes, when the group has 100 entries, and goes behind the others when it has fewer, on both backends |
| `Promises.JoinFetchPromise` | crates/cordn-core/src/storage/sqlite.rs:537-566 | a fetch drops exactly what it acknowledges in its group and returns, in order, what is left there, on both backends |
| `Promises.JoinBatchPromise` | crates/cordn-core/src/storage/sqlite.rs:568-620 | a fetch over several groups drops what it acknowledges in them and returns what is left group by group in the order asked for, on both backends, also for a group asked for twice |
| `Promises.JoinExpiryPromise` | crates/cordn-core/src/storage/sqlite.rs:622-633 | an expiry of join requests keeps exactly those not older than a positive threshold, in order, and answers with how many went |
| `InMemoryStorage.LocateByRef` | crates/cordn-core/src/storage/in_memory.rs:80-97 | the nested search returns the first identity holding the reference and its first position there |
| `InMemoryStorage.ExpireLists` | crates/cordn-core/src/storage/in_memory.rs:261-280 | thinning all lists and then dropping the emptied keys equals the one-shot retain, with the exact count |
| `InMemoryStorage.PartitionConsumed` | crates/cordn-core/src/storage/mod.rs:38-52 | the loop builds the per-group lists of acknowledgements in order |
| `InMemoryStorage.InMemoryCoordinatorStorage.constructor` | crates/cordn-core/src/storage/in_memory.rs:64-70 | a new store is empty |
| `InMemoryStorage.InMemoryCoordinatorStorage.PublishKeyPackage` | crates/cordn-core/src/storage/in_memory.rs:100-111 | the record goes to the end of its identity's list, creating it if needed, and is returned; no other map changes (the step `MemRefines` ties to the contract) |
| `InMemoryStorage.InMemoryCoordinatorStorage.ListKeyPackagesForIdentity` | crates/cordn-core/src/storage/in_memory.rs:113-123 | returns the identity's list, empty if it has none, and changes nothing |
| `InMemoryStorage.InMemoryCoordinatorStorage.ListAllKeyPackages` | crates/cordn-core/src/storage/in_memory.rs:125-133 | returns all lists one after the other in the order of the identities, and changes nothing |
| `InMemoryStorage.InMemoryCoordinatorStorage.GetKeyPackage` | crates/cordn-core/src/storage/in_memory.rs:135-141 | returns the record found by the search over all identities, if any, and changes nothing |
| `InMemoryStorage.InMemoryCoordinatorStorage.RemoveKeyPackage` | crates/cordn-core/src/storage/in_memory.rs:143-164 | takes the located record out of its list, and its identity out of the map when the list is emptied; an unknown reference changes nothing |
| `InMemoryStorage.InMemoryCoordinatorStorage.ConsumeKeyPackage` | crates/cordn-core/src/storage/in_memory.rs:166-215 | by reference a regular record leaves and a last resort stays; else by identity the first regular record leaves, else the last record is returned and stays |
| `InMemoryStorage.InMemoryCoordinatorStorage.StoreWelcomeRecord` | crates/cordn-core/src/storage/in_memory.rs:217-228 | the welcome goes to the end of its target's queue and is returned |
| `InMemoryStorage.InMemoryCoordinatorStorage.FetchPendingWelcomes` | crates/cordn-core/src/storage/in_memory.rs:230-259 | retires what is acknowledged in that queue only, drops an emptied queue, and returns what is left, in order |
| `InMemoryStorage.InMemoryCoordinatorStorage.DeleteExpiredWelcomes` | crates/cordn-core/src/storage/in_memory.rs:261-280 | keeps what is not older than the threshold in every queue and returns how many went; nothing happens at zero or below |
| `InMemoryStorage.InMemoryCoordinatorStorage.StoreJoinRequest` | crates/cordn-core/src/storage/in_memory.rs:282-315 | refreshes the requester's entry in place, or refuses when the group is full and changes nothing, or appends |
| `InMemoryStorage.InMemoryCoordinatorStorage.FetchPendingJoins` | crates/cordn-core/src/storage/in_memory.rs:317-344 | retires what is acknowledged in that group only, drops an emptied queue, and returns what is left, in order |
| `InMemoryStorage.InMemoryCoordinatorStorage.FetchManyPendingJoins` | crates/cordn-core/src/storage/in_memory.rs:346-361 | retires and fetches group by group, in the order asked for, with each group's own acknowledgements |
| `InMemoryStorage.InMemoryCoordinatorStorage.DeleteExpiredJoins` | crates/cordn-core/src/storage/in_memory.rs:363-382 | keeps what is not older than the threshold in every group and returns how many went; nothing happens at zero or below |
| `InMemoryStorage.InMemoryCoordinatorStorage.AppendGroupMessage` | crates/cordn-core/src/storage/in_memory.rs:384-408 | the record gets its group's next cursor, the counter moves by one, and no other group changes |
| `InMemoryStorage.InMemoryCoordinatorStorage.FetchGroupMessages` | crates/cordn-core/src/storage/in_memory.rs:410-430 | returns the group's records above the cursor, all of them without a cursor, and changes nothing |
| `InMemoryStorage.InMemoryCoordinatorStorage.FetchManyGroupMessages` | crates/cordn-core/src/storage/in_memory.rs:432-454 | returns the pages of the requested groups one after the other, and changes nothing |
| `SqliteStorage.SelectBest` | crates/cordn-core/src/storage/sqlite.rs:139-145 | one pass finds the first row of the consume order |
| `SqliteStorage.DeleteAcked` | crates/cordn-core/src/storage/sqlite.rs:437-443 | the loop of DELETE statements, one per acknowledgement |
| `SqliteStorage.SelectJoined` | crates/cordn-core/src/storage/sqlite.rs:723-729 | one query: collect the matching pairs in a scan of the table, sort them, project the records |
| `SqliteStorage.SqliteCoordinatorStorage.constructor` | crates/cordn-core/src/storage/sqlite.rs:76-128 | a new database has empty tables |
| `SqliteStorage.SqliteCoordinatorStorage.PublishKeyPackage` | crates/cordn-core/src/storage/sqlite.rs:275-296 | inserts a row with the next id; a held reference fails and changes nothing (the step `DbRefines` ties to the contract) |
| `SqliteStorage.SqliteCoordinatorStorage.ListKeyPackagesForIdentity` | crates/cordn-core/src/storage/sqlite.rs:298-312 | returns the identity's records in id order and changes nothing |
| `SqliteStorage.SqliteCoordinatorStorage.ListAllKeyPackages` | crates/cordn-core/src/storage/sqlite.rs:314-325 | returns all records in id order and changes nothing |
| `SqliteStorage.SqliteCoordinatorStorage.GetKeyPackage` | crates/cordn-core/src/storage/sqlite.rs:327-337 | returns the record with the reference, if any, and changes nothing |
| `SqliteStorage.SqliteCoordinatorStorage.RemoveKeyPackage` | crates/cordn-core/src/storage/sqlite.rs:339-360 | returns the record with the reference and deletes its row; an unknown reference changes nothing |
| `SqliteStorage.SqliteCoordinatorStorage.ConsumeKeyPackage` | crates/cordn-core/src/storage/sqlite.rs:362-403 | tries the reference, then the first row of the consume order for the identity; deletes what it returns unless it is a last resort |
| `SqliteStorage.SqliteCoordinatorStorage.StoreWelcomeRecord` | crates/cordn-core/src/storage/sqlite.rs:405-424 | inserts a row with the next id and returns the welcome |
| `SqliteStorage.SqliteCoordinatorStorage.FetchPendingWelcomes` | crates/cordn-core/src/storage/sqlite.rs:426-459 | deletes each acknowledged row of the target, then returns the target's rows in id order |
| `SqliteStorage.SqliteCoordinatorStorage.DeleteExpiredWelcomes` | crates/cordn-core/src/storage/sqlite.rs:461-471 | deletes the rows older than the threshold and returns their number; nothing happens at zero or below |
| `SqliteStorage.SqliteCoordinatorStorage.StoreJoinRequest` | crates/cordn-core/src/storage/sqlite.rs:473-535 | updates the requester's row under its old id, or refuses when the group is full and changes nothing, or inserts |
| `SqliteStorage.SqliteCoordinatorStorage.FetchPendingJoins` | crates/cordn-core/src/storage/sqlite.rs:537-566 | deletes each acknowledged row of the group, then returns the group's rows in id order |
| `SqliteStorage.SqliteCoordinatorStorage.FetchManyPendingJoins` | crates/cordn-core/src/storage/sqlite.rs:568-620 | deletes the acknowledged rows of all requested groups, then joins the groups with what is left; an empty request does nothing |
| `SqliteStorage.SqliteCoordinatorStorage.DeleteExpiredJoins` | crates/cordn-core/src/storage/sqlite.rs:622-633 | deletes the rows older than the threshold and returns their number; nothing happens at zero or below |
| `SqliteStorage.SqliteCoordinatorStorage.AppendGroupMessage` | crates/cordn-core/src/storage/sqlite.rs:635-688 | reads the group's last cursor, inserts under the next one and writes it back; a cursor that is taken or not positive fails and changes nothing |
| `SqliteStorage.SqliteCoordinatorStorage.FetchGroupMessages` | crates/cordn-core/src/storage/sqlite.rs:690-709 | returns the group's records above the cursor sorted by cursor, and changes nothing |
| `SqliteStorage.SqliteCoordinatorStorage.FetchManyGroupMessages` | crates/cordn-core/src/storage/sqlite.rs:711-743 | one join of the requested groups with the message table, ordered by request and cursor; an empty request is answered without it; changes nothing |
| `QueueRuns.WelcomePendingIff` | crates/cordn-core/src/storage/in_memory.rs:230-280 | over every run: a welcome is stored if and only if it was stored at some step and since then neither acknowledged by its exact target, reference and timestamp nor expired |
| `QueueRuns.WelcomeFetchedUntilAcked` | crates/cordn-core/src/storage/sqlite.rs:426-459 | every fetch of its queue returns it, on either backend, if and only if it is live and this fetch does not acknowledge it |
| `QueueRuns.JoinPendingIff` | crates/cordn-core/src/storage/in_memory.rs:282-382 | over every run: a join request is stored if and only if it was accepted at some step and since then not acknowledged at its own timestamp, replaced by its requester, or expired |
| `QueueRuns.JoinFetchedUntilAcked` | crates/cordn-core/src/storage/sqlite.rs:537-566 | every single-group fetch of its group returns it, on either backend, if and only if it is live and this fetch does not acknowledge its exact timestamp; so a refreshed request survives every older acknowledgement |
| `QueueRuns.JoinFetchedInBatch` | crates/cordn-core/src/storage/sqlite.rs:568-620 | a fetch over several groups returns it, on either backend, if and only if its group is asked for, it is live and this fetch does not acknowledge it |
| `QueueRuns.CapOnlyStopsNewEntries` | crates/cordn-core/src/storage/sqlite.rs:509-519 | after every run there is one entry per requester and at most 100 per group, and on either backend a request is refused if and only if it is a new entry for a group that has 100 |
| `QueueRuns.OrderIsKept` | crates/cordn-core/src/storage/in_memory.rs:296-304 | over whole runs no entry overtakes another while both stay: a refreshed request keeps its place |
| `QueueRuns.CleanupSparesTheYoung` | crates/cordn-core/src/coordinator.rs:240-246 | a periodic cleanup keeps exactly what is within the age limit, and everything when no limit is set |
| `Lifecycle.InstancesAreConserved` | crates/cordn-core/src/storage/in_memory.rs:80-215 | over every run the published instances are, as a multiset, those held, consumed, removed and evicted; none is handed out twice and none that left is still stored |
| `Lifecycle.HandedOutOnce` | crates/cordn-core/src/storage/sqlite.rs:362-403 | a regular package that is handed out leaves as exactly one instance; a last resort stays and changes nothing |
| `Lifecycle.OldestRegularFirst` | crates/cordn-core/src/storage/sqlite.rs:362-403 | an identifier that is a held reference is answered by that package; else a consume by identity hands out the oldest regular instance, the newest last resort only when no regular one is left, and nothing when there is no package |
| `Quotas.EvictOldest` | crates/cordn-server/src/adapter.rs:516-524 | evicting the n oldest last resorts leaves the newer ones, every regular package and every other identity as they were |
| `Quotas.PublishOutcomes` | crates/cordn-server/src/adapter.rs:176-185 | which of the three outcomes a publish has and what is stored after each, in any state with unique references |
| `Quotas.NoLimitRefusesNothing` | crates/cordn-server/src/adapter.rs:526-554 | after every run, without a limit on all packages no publish is refused by the quota |
| `Quotas.RegularRefusedIff` | crates/cordn-server/src/adapter.rs:545-552 | after every run a regular package is refused by the quota if and only if its owner already holds as many packages as the limit allows |
| `Quotas.LastResortRefusedIff` | crates/cordn-server/src/adapter.rs:526-541 | after every run a last resort is refused by the quota if and only if its owner's regular packages, the last resorts that eviction leaves and it together exceed the limit; when accepted these are what the owner holds |
| `Quotas.UncountedRefusedIff` | crates/cordn-server/src/adapter.rs:526-541 | with no limit on last resorts, one is refused if and only if its owner's regular packages and it exceed the limit |
| `Quotas.PublishStores` | crates/cordn-server/src/adapter.rs:501-554 | after every run, what a publish leaves: when refused everything as it was; otherwise all but the owner's oldest last resorts that must make room for another one (none for a regular package or without a limit on them), and behind that the new package, unless what is left holds its reference, when the publish fails |
| `Quotas.QuotaNeverExceeded` | crates/cordn-server/src/adapter.rs:501-554 | with both limits at least 1, every reachable state is within both limits for every identity |
| `Quotas.RefusalChangesNothing` | crates/cordn-server/src/adapter.rs:526-541 | in every reachable state and for every configuration a publish refused by the quota leaves everything as it was, although eviction runs before the check |
| `Quotas.NewestSurvive` | crates/cordn-server/src/adapter.rs:516-524 | after an accepted last resort the survivors are the newest ones, up to the limit |
| `Quotas.RemovalIsExact` | crates/cordn-server/src/adapter.rs:249-269 | a removal request succeeds if and only if it names distinct packages of the client, and then removes exactly those |
| `Quotas.RemovalStops` | crates/cordn-server/src/adapter.rs:249-269 | the first reference that is not, or no longer, a held package of the client stops the request: as unknown if no one holds it then, as unauthorized if another does; exactly what was named before it stays removed |
| `Quotas.EmptyRemovalIsInvalid` | crates/cordn-server/src/adapter.rs:243-248 | a request without references is refused as invalid and changes nothing |
| `Quotas.RemovalStaysAtHome` | crates/cordn-server/src/adapter.rs:260-262 | no removal request, successful or not, touches another identity's packages |
| `Availability.PublishSparesIff` | crates/cordn-server/src/adapter.rs:501-554 | in every state within the quota, a publish by anyone leaves an identity that has a last resort with one, unless and only unless it is the identity's own last resort under a held reference of another package with a limit of one |
| `Availability.LastResortAvailable` | crates/cordn-server/src/adapter.rs:176-185 | once a last resort has been accepted, every later consume by that identity hands out a package, through any mix of publishes (fresh or not), consumes, evictions, refusals and removals, unless the identity removes its last resorts or makes the one losing publish |
| `Availability.HeldRefLosesLastResortIff` | crates/cordn-server/src/adapter.rs:516-524 | in every reachable state: re-publishing a held reference as a last resort costs the identity its last resort if and only if only one may be kept and the reference names another package |
| `Availability.HeldRefLosesOne` | crates/cordn-server/src/adapter.rs:516-524 | a concrete run to that loss: regular a, last resort b, then a again as a last resort with a limit of one |
| `Availability.TotalBoundIffLastResortsLimited` | crates/cordn-server/src/adapter.rs:526-534 | the limit on all packages binds in every run if and only if last resorts are limited too |
| `Evictions.EvictionIsByAge` | crates/cordn-server/src/adapter.rs:517-523 | over every run whatever was evicted is a last resort older than every last resort its owner still has |
| `MemoryLifecycle.BackendsAgree` | crates/cordn-core/src/storage/in_memory.rs:99-215 | with fresh references the in-memory backend takes the adapter through the same outcomes and holds the same packages |
| `MemoryLifecycle.LastResortAvailableInMemory` | crates/cordn-core/src/storage/in_memory.rs:166-215 | the availability guarantee, stated for the in-memory consume in runs with fresh references |
| `SharedRefs.RunEvictsAtHomeIff` | crates/cordn-core/src/storage/in_memory.rs:80-97 | for every in-memory run, whatever references the clients choose: a publish leaves every other identity's packages alone if and only if no package it evicts shares its reference with an identity met earlier by the search |
| `MemoryQuotas.RefusalChangesNothingInMemory` | crates/cordn-server/src/adapter.rs:526-541 | in memory too, for every run, configuration and choice of references: a publish refused by the quota leaves everything as it was |
| `MemoryQuotas.RefusedInMemoryIff` | crates/cordn-server/src/adapter.rs:526-554 | in memory, in every state: a publish is refused by the quota if and only if there is a limit and the owner's packages (for a last resort: its regular ones, those left after eviction and the new one) reach or exceed it as they do on SQLite |
| `MemoryQuotas.LimitsKeptIff` | crates/cordn-server/src/adapter.rs:516-524 | in memory, from a state within both limits, a publish leads to one if and only if the search for the package it evicts, if any, finds a last resort of the publisher |
| `SharedRefs.EvictionTakesAnothers` | crates/cordn-core/src/storage/in_memory.rs:143-164 | a concrete run: alice and bob hold last resort x, bob publishes y with a limit of one; alice is left with none and bob with two |
| `Adapter.CoordinatorAdapter.EvictOldest` | crates/cordn-server/src/adapter.rs:517-523 | the eviction loop removes exactly the oldest ones, one by one |
| `Adapter.CoordinatorAdapter.EnforceKeyPackageQuota` | crates/cordn-server/src/adapter.rs:501-554 | evicts the victims first and then refuses, by the counts taken before, exactly when the limit is set and the regular packages, the last resorts kept and the new one exceed it (for a regular package: when the limit is reached) |
| `Adapter.CoordinatorAdapter.PublishKeyPackage` | crates/cordn-server/src/adapter.rs:176-185 | list, evict, check and insert make one publish step of the life cycle |
| `Adapter.CoordinatorAdapter.ConsumeKeyPackage` | crates/cordn-server/src/adapter.rs:194-222 | one consume step of the life cycle |
| `Adapter.CoordinatorAdapter.RemoveKeyPackages` | crates/cordn-server/src/adapter.rs:243-270 | reference by reference, stopping at the first unknown or foreign one; what was removed before stays removed |
| `MlsFormat.ReadEncoded` | crates/cordn-core/src/mls_parse.rs:110-131 | a length-prefixed field is read back in any form that holds its length, minimal or not |
| `MlsFormat.ReadIsEncoding` | crates/cordn-core/src/mls_parse.rs:110-131 | whatever is read was an encoding in the form its first byte announces, with a length below the capacity of that form, hence below 2^30 |
| `MlsFormat.ReadVerdict` | crates/cordn-core/src/mls_parse.rs:110-131 | a field is read if and only if some encoding stands there; otherwise a first byte of the reserved 8-byte form is answered as an unsupported length prefix and everything else as an unexpected end |
| `MlsExtensions.AnyMarksMeaning` | crates/cordn-core/src/mls_parse.rs:217-231 | the recursive test is: some component has id 4 and no data |
| `MlsExtensions.HasMarkerMeaning` | crates/cordn-core/src/mls_parse.rs:192-207 | the recursive test is: some extension of type 6 has a component 4 with no data |
| `MlsExtensions.DictionaryIsTypeSix` | crates/cordn-core/src/mls_parse.rs:28-34 | dictionaries are exactly the extensions written with type 6 |
| `MlsExtensions.DictionaryRecognised` | crates/cordn-core/src/mls_parse.rs:212-233 | a well-formed app-data dictionary is recognised by its components |
| `MlsExtensions.DetectEncoded` | crates/cordn-core/src/mls_parse.rs:192-207 | detection over well-formed extensions is true at the first marker, whatever bytes follow it, and otherwise goes on past them |
| `MlsExtensions.DetectIsExact` | crates/cordn-core/src/mls_parse.rs:192-207 | on a well-formed extension list detection succeeds and says whether there is a marker |
| `MlsAccepted.NoMarkerIff` | crates/cordn-core/src/mls_parse.rs:192-233 | detection answers no if and only if the bytes are a well-formed list without a marker |
| `MlsAccepted.MarkerIff` | crates/cordn-core/src/mls_parse.rs:192-233 | detection answers yes if and only if the bytes are a well-formed markerless list, then a dictionary extension that is well-formed and markerless up to a marker, with any bytes behind the marker and behind the extension |
| `MlsAccepted.ExtensionsPassIff` | crates/cordn-core/src/mls_parse.rs:173-175 | the extensions field of a key package passes if and only if it has one of these two forms, which exclude each other |
| `MlsAccepted.TrailingDictionaryIsInvalid` | crates/cordn-core/src/mls_parse.rs:212-216 | bytes behind the dictionary inside its extension make the list invalid, whatever follows |
| `MlsWalker.PrefixFree` | crates/cordn-core/src/mls_parse.rs:139-188 | if a string is accepted, every strict prefix fails with an unexpected end and every strict extension with trailing data |
| `MlsWalker.WalkExtended` | crates/cordn-core/src/mls_parse.rs:139-188 | what is walked successfully is walked the same with more bytes behind it |
| `MlsWalker.WalkCut` | crates/cordn-core/src/mls_parse.rs:139-188 | a successful walk cut short anywhere ends unexpectedly, never with another error |
| `MlsWalker.WalkIsWritten` | crates/cordn-core/src/mls_parse.rs:110-188 | the bytes consumed by a successful walk are the written form of the fields found |
| `MlsPackages.EveryPackageHasItsVerdict` | crates/cordn-core/src/mls_parse.rs:139-188 | the answer to every key package that the grammar can write, with any bytes behind it: the first of version, credential type, identity, leaf source and extensions that is not as required decides, with its own number in the error; then the bytes behind; otherwise identity, cipher suite and marker flag come back |
| `MlsPackages.AcceptedIff` | crates/cordn-core/src/mls_parse.rs:139-188 | a string is accepted if and only if it is the encoding of a package of version 1 with credential type 1, valid UTF-8 as identity and leaf source 1, whose extensions are a well-formed markerless list or one up to a marker |
| `MlsPackages.ParseEncoded` | crates/cordn-core/src/mls_parse.rs:14-23 | for every supported key package laid out by the grammar, in every choice of length forms, parsing returns its identity and cipher suite, and the last-resort flag exactly when some extension has the marker |
| `MlsPackages.AcceptsExactlyLayouts` | crates/cordn-core/src/mls_parse.rs:139-188 | a string is accepted if and only if it is the written form of 18 fields of the right shapes of which none fails its check |
| `MlsPackages.FirstBadFieldDecides` | crates/cordn-core/src/mls_parse.rs:142-175 | the first field that fails its check decides the error, whatever follows it, also when the rest is cut off |
| `MlsPackages.ReservedLengthDecides` | crates/cordn-core/src/mls_parse.rs:110-117 | a field that starts with the reserved length form decides the error too, whatever follows it |
| `MlsParser.ReadLength` | crates/cordn-core/src/mls_parse.rs:121-124 | the loop computes the big-endian number of the header |
| `MlsParser.ReadVarBytes` | crates/cordn-core/src/mls_parse.rs:110-131 | returns what the wire format says and, on success, a strictly larger offset within the buffer |
| `MlsParser.IsLastResortExtension` | crates/cordn-core/src/mls_parse.rs:212-233 | the loop over components terminates and is the dictionary scan |
| `MlsParser.DetectLastResort` | crates/cordn-core/src/mls_parse.rs:192-207 | the loop over extensions terminates and is the detection the exactness lemmas are about |
| `MlsParser.Cursor.constructor` | crates/cordn-core/src/mls_parse.rs:71-73 | a cursor starts at offset 0 |
| `MlsParser.Cursor.U8` | crates/cordn-core/src/mls_parse.rs:74-78 | reads one byte and moves past it, or fails and stays |
| `MlsParser.Cursor.U16` | crates/cordn-core/src/mls_parse.rs:79-86 | reads two bytes as a big-endian number and moves past them, or fails and stays |
| `MlsParser.Cursor.VarBytes` | crates/cordn-core/src/mls_parse.rs:89-93 | reads a length-prefixed field and moves past it, or fails and stays |
| `MlsParser.Cursor.Skip` | crates/cordn-core/src/mls_parse.rs:94-100 | moves past n bytes, or fails and stays |
| `MlsParser.PassCapabilities` | crates/cordn-core/src/mls_parse.rs:160-164 | the loop passes exactly the five capability lists |
| `MlsParser.ParseKeyPackage` | crates/cordn-core/src/mls_parse.rs:139-188 | the cursor program returns exactly what the walk over the field list returns, errors included |
| `RateLimiters.TokenBucketRateLimiter.EvictIdleBuckets` | crates/cordn-core/src/ratelimit.rs:94-99 | exactly the buckets not seen for the idle time go; a zero idle time keeps all |
| `RateLimiters.TokenBucketRateLimiter.Refilled` | crates/cordn-core/src/ratelimit.rs:78-79 | the product of rate and elapsed time, clamped at zero |
| `RateLimiters.TokenBucketRateLimiter.Check` | crates/cordn-core/src/ratelimit.rs:55-92 | a disabled limiter allows the call and keeps its buckets as they are; decision and new state are those of the limiter function the bounds are proved of |
| `RateLimits.RefillIsProduct` | crates/cordn-core/src/ratelimit.rs:78-79 | the tokens gained are rate times elapsed time, and none when the clock steps back |
| `RateLimits.CheckSpends` | crates/cordn-core/src/ratelimit.rs:55-92 | a check is allowed if and only if its bucket's level reaches one token, and spends from that bucket only |
| `RateLimits.OtherKeyUntouched` | crates/cordn-core/src/ratelimit.rs:61-98 | the eviction run by another key's check drops only what would be dropped later anyway |
| `RateBounds.DisabledAllowsAll` | crates/cordn-core/src/ratelimit.rs:55-58 | a limiter that is switched off allows every call of every run and never changes |
| `RateBounds.NegativeCountsAsZero` | crates/cordn-core/src/ratelimit.rs:41-49 | negative settings are taken as zero |
| `RateBounds.KeysAreIsolated` | crates/cordn-core/src/ratelimit.rs:55-99 | for calls in time order a key is answered as if it were alone, from any state and in any configuration |
| `RateIsolation.KeysAreIsolatedIff` | crates/cordn-core/src/ratelimit.rs:55-99 | on any clock: over all settings a key is answered as if it were alone if and only if no call of another key, between two consecutive calls of the key, reads a later time than both |
| `RateIsolation.AnothersCallFreesTheKey` | crates/cordn-core/src/ratelimit.rs:94-99 | a concrete case: k at 0 and 10 is allowed the second time only because j called at 1000 in between |
| `RateIsolation.InTimeIsUndisturbed` | crates/cordn-core/src/ratelimit.rs:94-99 | calls in time order meet that condition |
| `RateBounds.SpacedCallsAreNeverDenied` | crates/cordn-core/src/ratelimit.rs:55-92 | a key whose calls are at least one token apart is never denied when a bucket can hold a token, whatever the others do and on whatever clock |
| `RateBounds.TokensConserved` | crates/cordn-core/src/ratelimit.rs:55-99 | on any clock, for any calls by any keys: tokens spent plus tokens left never exceed tokens had plus tokens gained over the upward moves of the clock |
| `RateBounds.AnyClockBound` | crates/cordn-core/src/ratelimit.rs:55-99 | on any clock a contiguous window of calls allows a key at most the burst plus what refills over the upward moves within the window, eviction included |
| `RateBounds.GainedInOrder` | crates/cordn-core/src/ratelimit.rs:78-79 | for readings in order that is the refill over the window's duration |
| `RateBounds.WindowBound` | crates/cordn-core/src/ratelimit.rs:55-99 | so any window in time order, after any earlier calls on any clock, allows at most the burst plus the refill over its duration |
| `RateBounds.WindowBoundPerMinute` | crates/cordn-core/src/ratelimit.rs:55-99 | the same in the numbers of the configuration: burst plus elapsed milliseconds times the refill per minute over 60000, when the idle time is zero (no eviction) or at least a full refill |
| `RateEviction.EvictionIsInvisible` | crates/cordn-core/src/ratelimit.rs:94-99 | on any clock: when a full bucket refills within the idle time, eviction never changes an answer to calls that are not disturbed, that is, without another key's call between two of the key's that reads a later time than both |
| `RateEviction.EvictionIsInvisibleInTime` | crates/cordn-core/src/ratelimit.rs:94-99 | in particular never an answer to calls in time order |
| `RateEviction.EvictionExactlyInvisible` | crates/cordn-core/src/ratelimit.rs:94-99 | for whole-number settings eviction never changes an answer to undisturbed calls, or just to calls in time order, if and only if a full bucket refills within the idle time |
| `RateClocks.Saturated` | crates/cordn-core/src/ratelimit.rs:78-91 | the bound over upward moves is attained: for every sequence of readings there are a setting and calls that are allowed exactly burst plus climb |
| `RateClocks.DurationBoundsIffOneWay` | crates/cordn-core/src/ratelimit.rs:78-83 | the bound by duration holds for all settings and calls over given readings if and only if the readings never go back or never go forward |
| `RateClocks.SteppingBackRefillsTwice` | crates/cordn-core/src/ratelimit.rs:78-83 | readings 0, 1000, 0, 1000 at one token per second and a burst of one allow three calls, more than the burst and the refill over the whole span |

## Left out

- `methods.rs`, `main.rs` and the ContextVM and Nostr transport: glue over libraries that are not part of the repository.
- The loop in `adapter.rs` that forwards a subscription to a sink: timing and cancellation only; it forwards a prefix of the stream.
- `contracts.rs`, JSON, base64 and the mapping of fields between layers: data shapes and foreign codecs. Publication events are opaque text.
- `config.rs`: reading and checking of environment variables.
- The single-group backlog fetch which a caller would make before a live tail: a fetch and a subscription, both modelled, composed outside the core.
- The timer of the periodic cleanup: only the threshold it computes and the two deletions are modelled.
- SQLite pragmas, durability, column migrations, bound-variable limits and every backend error other than a violated UNIQUE constraint; each transaction is one atomic step. A failing backlog fetch is modelled as a step of its own.
- UTF-8 decoding, signatures and MLS cryptography: not computed by the modelled code, or taken as a parameter.
- Overflow of 64-bit cursors, ids and timestamps, rounding of `f64` and non-finite settings: numbers are mathematical.
- Benchmarks, scripts and installation files.
- Mutex poisoning and the closing of channels: a send always succeeds.
- Adapter.CoordinatorAdapter.PublishKeyPackage: starts after the rate limit, base64 decoding, parsing and the signer and identity checks, and takes list, evict and insert as one step of one writer, as the storage contract assumes; written over the SQLite class, with `MemoryLifecycle` for the other backend.
- Adapter.CoordinatorAdapter.RemoveKeyPackages: starts after the rate limit.
- InMemoryStorage.InMemoryCoordinatorStorage.FetchManyPendingJoins: is one step, while the source gives up the lock between groups; other clients' steps may come in between there, each group being the single-group fetch that the run theorems cover.
- Adapter.CoordinatorAdapter.ConsumeKeyPackage: starts after the rate limit and the check for an empty identifier, and does not decode the stored event.
- SqliteStorage.SqliteCoordinatorStorage.PublishKeyPackage: the UNIQUE constraint is the only failure; serialisation of the event is not modelled.
- Registries.SubscriberRegistry.PublishLive: the sharing of one allocation between subscribers is not modelled, records are values.
- MemoryLifecycle.BackendsAgree: for fresh references; with held ones the backends differ (`PublishAgreesIffFresh`), and `SharedRefs` and `MemoryQuotas` say what memory still guarantees.
- MemoryLifecycle.LastResortAvailableInMemory: for fresh references, since an eviction by another identity can otherwise take the last resort (`EvictionTakesAnothers`).
