# Tally, verified

Tally receives events over HTTP and gRPC, queues them in memory or in Kafka, writes them to
Postgres in batches, and answers count queries. Its claim is that at-least-once delivery and an
idempotent store together count every event exactly once. This project models the code that
carries the claim and proves it over every run: any number of workers, crashes, replays,
reassignments, lost replies, lock orders and interleavings.

| module | what it is |
|---|---|
| `Words`, `Hash`, `KnownHash`, `HyperLogLog`, `Estimator`, `SketchObject` | the sketch: hash and known values of it, registers, codec, estimate, and the object with its register array |
| `Store`, `Transactions`, `Progress`, `Database` | the tables and one `InsertBatch` as a function; concurrent transactions step by step; deadlock freedom; `InsertBatch` and `updateUniques` as loops |
| `Delivery`, `Reading`, `Recovery`, `Consumer`, `Concurrent` | the Kafka poll, insert, commit protocol as a transition system; what a worker reads; how far it can get; the consumer loop, proved to be a run of that system; the protocol with its inserts split into the statements of concurrent transactions |
| `Pool`, `Shutdown`, `Loss`, `Queue`, `Offers`, `PoolRun`, `PoolWorker` | producers, bounded channel and worker pool as a transition system; closing and draining; when an accepted event is lost; the queue and worker objects, the worker's loop proved to be a run of that system; what a caller of Enqueue sees of a run, and the queue object as the channel of that system |
| `Publish`, `Queries`, `Uniques` | the gRPC batch call and its retries; the read queries against the raw events |
| `FixedWindow`, `TokenBucket` | the Redis and the in-memory rate limiter |

Strings are byte sequences, 64-bit words are natural numbers below 2^64 with wrapping written
out, times are integers (microseconds in the store, milliseconds in the Redis limiter) or reals
(seconds in the token bucket). The clock, the network, Postgres, Redis and the broker appear as
parameters or as the nondeterministic steps of a transition system. A call of `InsertBatch` ends
in one of three ways: applied and reported, not applied, or applied although the caller got an
error.

## Main results

- Exactly once, with Kafka. In every run of the protocol, whatever lies below a committed offset
  is stored (`Delivery.NothingIsSkipped`), and when all is committed, the stored ids are exactly
  those of the decodable records, each counted once (`Delivery.CountedExactlyOnce`). The same
  holds when every insert is a transaction of many statements, interleaved with those of all other
  workers and with earlier attempts that timed out and are still open (`Concurrent.Refines`,
  `Concurrent.CountedExactlyOnce`). The consumer's loop is a run of the protocol
  (`Consumer.KafkaConsumer.RunBatch`).
- Reading and draining. As long as a worker keeps a partition it polls each record once, in order
  and without a gap (`Reading.ReadsInOrder`). From a reachable state the logs can be drained if and
  only if the schema takes every decodable record in them (`Recovery.CanFinishExactly`), by a worker
  that is assigned each partition once and polls each record once (`Recovery.EveryPartition`).
- Serializability and progress. Any interleaving of transactions under row locks leaves the
  tables of the committed batches run one after the other in commit order
  (`Transactions.Serializable`). No reachable state is a deadlock (`Progress.NoDeadlock`), runs
  are bounded (`Progress.RunsAreBounded`), and all open transactions can commit
  (`Progress.AllCanCommit`); together with the delivery protocol, all can end, those that lost
  their worker included (`Concurrent.AllCanEnd`).
- Agreement of the tables. After any history every rollup equals its number of raw rows and every
  blob is the sketch of the committed users of its key (`Store.RunIsConsistent`).
- Memory mode. Every accepted event is stored or was in a flush reported with an error
  (`Pool.NothingIsLost`). Nothing accepted is lost if and only if every accepted id was in an
  applied attempt (`Loss.NothingLostExactly`), and at any moment an id can still get stored if and
  only if it is not doomed (`Loss.StorableExactly`). Closing the queue is safe exactly when no
  producer is past the closed check (`Shutdown.CloseIsSafeExactlyWhenNobodySends`).
- Batches over gRPC. What is enqueued are the valid entries of the request, field by field and in
  order, stamped with the time of the call (`Publish.PublishBatch`); a batch sent until it succeeds
  stores and counts each valid id once, with the fields of an entry of that id
  (`Publish.RetryCountsOnce`, `Publish.RetryThroughPool`).
- Reads. Today's counts, the top twenty and the chart are those of the stored events, in the order
  promised (`Queries.CountTodayIsExact`, `Queries.TotalsAreExact`, `Queries.SeriesIsExact`), and
  unique users are estimated from the users of the day's committed events
  (`Uniques.UniquesAreOfCommitted`).
- Resends. Sending stored ids again changes nothing if and only if their users are counted
  already (`Store.ResendIsAbsorbedExactly`).
- The sketch is the sketch of a set, however it was built (`HyperLogLog.HistoryIsSketch`), and the
  hash finalizer is a bijection with an explicit inverse (`Hash.MixIsBijective`). Two strings that
  differ in one byte never share a hash (`Hash.HashTellsApart`). The estimate can
  drop as registers rise, from exactly the registers that `Estimator.DropsExactly` names.
- The Redis limiter keeps its limit exactly when clock skew and delay stay within a bound
  (`FixedWindow.LimitHoldsExactly`), the in-memory limiter keeps its rate exactly when burst is at
  most 600 times rps (`TokenBucket.RateHoldsExactly`); for larger bursts `TokenBucket.RateIsEnforced`
  gives the rate that does hold. A client that has waited 1/rps seconds is granted its next request,
  whatever it sent before (`TokenBucket.WaitingIsEnough`).

## Where the code does less than its documentation says

- "Retries, crashes, and duplicate sends can't inflate a number" (README.md:35) holds for event
  counts, not for unique users: `updateUniques` is given the whole batch, and a retry carries a new
  timestamp, so a retry after midnight counts its user on both days (`Store.RetryAcrossMidnight`,
  `Uniques.RetryCountsUserTwice`). `Store.ResendIsAbsorbedExactly` says which resends change
  nothing, `Store.SketchesStayOfRowsExactly` which batches keep the sketches those of the rows.
- A malformed record is "never allowed to wedge the whole partition"
  (internal/queue/kafka.go:128-129), but a record that decodes and that Postgres rejects, say for a
  NUL byte in a text column, does: its insert is retried for ever and no offset passes it
  (`Recovery.NeverPassesLimit`).
- The shutdown contract of the memory queue is not enforced by `main`: when draining the HTTP
  server times out (cmd/tally/main.go:251-255) the queue is closed all the same, and an `Enqueue`
  past its closed check then sends on a closed channel (`Shutdown.PanicIsReachable`).
- Shutdown "guarantees accepted events are never lost" (cmd/tally/main.go:240-241): a batch whose
  `MaxRetries` attempts all fail is dropped, and reported (`Loss.AcceptedCanBeLost`), and an event
  that the schema takes goes down with its batch when another row of it is refused
  (`Loss.GoodEventCanBeDoomed`). `Loss.NothingLostExactly` and `Loss.StorableExactly` give the
  exact conditions.
- The in-memory limiter allows "rps events/sec per key with the given burst"
  (internal/ratelimit/ratelimit.go:60-61), but with a burst above 600 times rps the janitor hands
  out fresh bursts faster than that (`TokenBucket.ComebackBreaksRate`).

## Model

| member | source | states |
|---|---|---|
| Words.LessTotal | internal/store/store.go:211-216 | the byte order behind the sorted keys is total: of two different names one comes first |
| Words.LessTransitive | internal/store/store.go:211-216 | that order is transitive |
| Words.LessMeaning | internal/store/store.go:211-216 | one string comes before another if and only if they agree up to some place where the first ends or has the smaller byte |
| Hash.XorShiftUndone | internal/hll/hll.go:118-122 | `x ^= x >> k` is undone by `y ^ y >> k ^ y >> 2k` once 3k reaches 64 |
| Hash.UndoXorShiftUndone | internal/hll/hll.go:118-122 | and the other way round |
| Hash.MultiplyUndone | internal/hll/hll.go:119-121 | a wrapping multiplication by c is undone by any d with c d = 1 modulo 2^64 |
| Hash.MixThenUnmix | internal/hll/hll.go:118-123 | the finalizer has an explicit left inverse on all words |
| Hash.UnmixThenMix | internal/hll/hll.go:118-123 | which is also its right inverse |
| Hash.MixIsBijective | internal/hll/hll.go:114-123 | the finalizer is injective and onto the 64-bit words |
| Hash.HashCollidesWithFnv | internal/hll/hll.go:114-124 | two strings share a hash if and only if FNV-1a already gave them the same word |
| Hash.FnvStepIsInjective | internal/hll/hll.go:115-117 | one FNV-1a step is injective in the state and in the byte |
| Hash.FnvTellsApart | internal/hll/hll.go:115-117 | strings of equal length that differ in exactly one byte, at any place, have different FNV-1a words |
| Hash.HashTellsApart | internal/hll/hll.go:114-124 | and so different hashes |
| KnownHash.FnvOfEmpty | internal/hll/hll.go:115-117 | the published FNV-1a value of the empty string, 0xcbf29ce484222325 |
| KnownHash.FnvOfA | internal/hll/hll.go:115-117 | the published FNV-1a value of "a", 0xaf63dc4c8601ec8c |
| KnownHash.HashOfA | internal/hll/hll.go:114-124 | the hash of "a" is 0x02c0bdbf481420f8 |
| HyperLogLog.Index | internal/hll/hll.go:47-48 | the register is below 16384 and is the quotient of the hash by 2^50 |
| HyperLogLog.LeadingZerosMeaning | internal/hll/hll.go:50 | z leading zeros bound the word from both sides by powers of two; all zeros exactly for 0 |
| HyperLogLog.RankOfMeaning | internal/hll/hll.go:49-53 | the capped rank of a shifted word locates its highest bit, for every word width |
| HyperLogLog.RankMeaning | internal/hll/hll.go:46-53 | rank lies in 1..51, is 51 exactly when the low 50 bits are zero, and otherwise is the position of the highest of them |
| HyperLogLog.SketchIsUnique | internal/hll/hll.go:36-57 | a set of values has exactly one sketch |
| HyperLogLog.AddIsSketch | internal/hll/hll.go:44-57 | Add turns the sketch of S into the sketch of S with the value, on every register |
| HyperLogLog.AddAllIsSketch | internal/hll/hll.go:46-57 | a sequence of Adds gives the sketch of the set of values added |
| HyperLogLog.MergeIsSketch | internal/hll/hll.go:80-89 | Merge of the sketches of S and T is the sketch of their union |
| HyperLogLog.OnlyTheSetMatters | internal/hll/hll.go:44-57 | order and repetition of Adds do not matter |
| HyperLogLog.MergeIsUnion | internal/hll/hll.go:80-89 | merging two sketches equals adding both sequences to one |
| HyperLogLog.MergeIsSemilattice | internal/hll/hll.go:83-89 | Merge is commutative, associative and idempotent, with New as its unit, on all registers |
| HyperLogLog.SketchIsMonotone | internal/hll/hll.go:46-57 | the sketch of a subset lies below, register by register |
| HyperLogLog.DecodeOfEncode | internal/hll/hll.go:92-108 | FromBytes of Bytes gives the sketch back |
| HyperLogLog.EncodeOfDecode | internal/hll/hll.go:92-108 | FromBytes accepts exactly the images of Bytes, and Bytes restores what was accepted |
| HyperLogLog.EncodeLayout | internal/hll/hll.go:91-98 | 16386 bytes: version 1, precision 14, then the registers in order |
| HyperLogLog.HistoryIsSketch | internal/hll/hll.go:42-108 | any tree of New, Add, Merge and reload builds the sketch of the values that went in |
| HyperLogLog.HistoryRanksBounded | internal/hll/hll.go:46-68 | no such tree takes a register past 51, so the shift of Estimate stays inside 64 bits |
| Estimator.ReturnedIsEstimate | internal/hll/hll.go:60-78 | with all registers below 64 the result is the estimate; a single one at 64 or above makes the sum infinite |
| Estimator.EmptyEstimatesZero | internal/hll/hll.go:60-78 | a new sketch estimates 0 |
| Estimator.LinearAdds | internal/hll/hll.go:74-76 | for a logarithm that turns products into sums, linear counting adds up: a and b empty registers together answer what c do when a b = c m |
| Estimator.HalfEmpty | internal/hll/hll.go:74-76 | with half the registers empty and ln 2 between 0.693147 and 0.693148 the estimate is 11357 |
| Estimator.SumOfBoth | internal/hll/hll.go:63-68 | the accumulated sum of two parts is the sum of both |
| Estimator.SumOfOne | internal/hll/hll.go:63-68 | and that of one register r is 2^-r |
| Estimator.RawOfUniform | internal/hll/hll.go:69-70 | with all registers at r the raw value is alpha m 2^r |
| Estimator.RawIsMonotone | internal/hll/hll.go:61-70 | the raw value grows with the registers |
| Estimator.LinearIsMonotone | internal/hll/hll.go:74-76 | linear counting grows as empty registers disappear |
| Estimator.EstimateIsMonotone | internal/hll/hll.go:60-78 | raising registers never leads back to linear counting, and while the formula stays the same it never lowers the estimate |
| Estimator.EstimateCanDrop | internal/hll/hll.go:72-77 | one register filled can lower the estimate more than sixfold |
| Estimator.RaisedIsLeast | internal/hll/hll.go:72-76 | filling the empty registers with rank 1 is the least way to leave linear counting by having none |
| Estimator.DropMeansRisk | internal/hll/hll.go:72-77 | an estimate that drops was at risk: linear counting answered more than 40960, or more than the raw formula with the empty registers filled |
| Estimator.Thin | internal/hll/hll.go:61-70 | without touching an empty register, raising others brings the sum to exactly 4726.75 in whole units |
| Estimator.JustPastSwitch | internal/hll/hll.go:69-76 | so from linear counting with at most 4681 empty registers the raw value can be brought just past the switch, to less than 40960.5 |
| Estimator.DropsExactly | internal/hll/hll.go:60-78 | for any registers, some registers above them have a smaller estimate if and only if they are at risk, which the caller can compute from them alone |
| Estimator.EstimateFits | internal/hll/hll.go:60-78 | with every register at most 50 the result fits 64 bits |
| Estimator.EstimateOverflows | internal/hll/hll.go:60-78 | with every register at 51 it does not |
| Estimator.EstimateFitsExactly | internal/hll/hll.go:69-77 | it fits if and only if the accumulated sum exceeds a fixed bound |
| SketchObject.Sketch.constructor | internal/hll/hll.go:41-42 | New allocates its own registers, which form the empty sketch |
| SketchObject.Sketch.AddValue | internal/hll/hll.go:46-57 | the in-place update is Add on the contents |
| SketchObject.Sketch.MergeFrom | internal/hll/hll.go:83-89 | the in-place loop computes Merge of the two old contents, also when a sketch is merged with itself |
| SketchObject.Sketch.Bytes | internal/hll/hll.go:92-98 | a fresh buffer of 16386 bytes: version 1, precision 14, and each register in its place |
| SketchObject.Sketch.EstimateCount | internal/hll/hll.go:60-78 | the accumulating loop and the two branches compute the estimate of the contents, for any register values |
| SketchObject.FromBytes | internal/hll/hll.go:101-108 | fails exactly on the encodings that do not decode, else a sketch with registers of its own and the decoded contents |
| Store.ArrangeIsOrdering | internal/store/store.go:98-101 | every batch has an arrangement sorted by event_id that is a permutation of it |
| Store.MinuteMeaning | internal/store/store.go:105-109 | the rollup key of an event is its name and the whole minute its time lies in |
| Store.DayMeaning | internal/store/store.go:199-201 | the sketch key is its name and the whole day of 1440 minutes its time lies in |
| Store.DayKeyIsOnDay | internal/store/store.go:199-201 | an event has the key of a name and a day if and only if it has that name and happened on that day |
| Store.InsertedMeaning | internal/store/store.go:94-104 | the rows let through have new and distinct ids, come from the batch, and leave out no new id, for any order of rows with equal ids |
| Store.StoredExtends | internal/store/store.go:94-104 | old rows stay as they are and each inserted row is stored under its id |
| Store.RolledAgrees | internal/store/store.go:105-118 | counting only the inserted rows keeps every rollup equal to the number of raw rows in its minute |
| Store.UsersMeaning | internal/store/store.go:195-202 | the group of a key holds exactly the non-empty user ids of the batch for that name and day |
| Store.UsersOfDay | internal/store/store.go:195-202 | the users of a key are exactly the non-empty user ids of the events of that name within that day |
| Store.FoldedMeans | internal/store/store.go:194-251 | folding a batch keeps every blob decodable and equal to the sketch of the users committed for its key |
| Store.ApplyKeepsConsistent | internal/store/store.go:124-173 | a transaction on consistent tables does not fail on a blob, leaves them consistent with one more batch, and its count is the growth of the events table |
| Store.FirstRowWins | internal/store/store.go:94-119 | stored rows never change, the ids of the batch are all stored, and the count returned is the number of new ids |
| Store.ApplyGrows | internal/store/store.go:121-173 | the count returned is by how much the events table grew |
| Store.RunIsConsistent | internal/store/store.go:75-173 | after any history of calls with duplicates, replays, failures, lost replies and tie orders: rollups exact, each committed id stored once, blobs exact, and the counts add up to the number of stored events |
| Store.AttemptStores | internal/store/store.go:121-173 | a further call only adds ids, and an applied one has all of its own stored |
| Store.ReplayIsAbsorbed | internal/store/store.go:81-87 | a replayed batch inserts nothing and changes no table, even if ties break differently |
| Store.StoredExactly | internal/store/store.go:121-173 | after any history an id is stored if and only if an attempt that the server applied carried it |
| Store.AddsNothingExactly | internal/store/store.go:240-242 | adding users leaves a sketch as it is if and only if each one's register is at its rank already |
| Store.ResendIsAbsorbedExactly | internal/store/store.go:165-202 | sending stored ids again, with whatever name, user and timestamp, changes no table if and only if each user is counted already for the name and day of the resend |
| Store.SketchOfFewer | internal/hll/hll.go:46-57 | the sketch of a set is that of a subset if and only if the subset covers every value: same register, at least the rank |
| Store.SketchesStayOfRowsExactly | internal/store/store.go:165-202 | a transaction keeps the sketches those of the stored rows if and only if every user of its batch, the duplicates' included, is covered by a stored or inserted row of the same name and day |
| Store.SketchAgainstRows | internal/store/store.go:165-167 | a blob is never below the sketch of the stored rows of its key, and equals it when no committed user outranks them, and only then |
| Store.SketchIsOfRows | internal/store/store.go:194-202 | in particular, when an id determines name, user and day, blobs are the sketches of the stored rows |
| Store.RetryAcrossMidnight | internal/store/store.go:165-202 | an event sent again with the next day's timestamp is stored on the first day only, but the sketches of both days are those of its user |
| Transactions.KeyOrder | internal/store/store.go:211-216 | the sort order of the keys is a strict total order |
| Transactions.ForwardKeepsExclusive | internal/store/store.go:184-193 | a statement that does not wait takes no lock another open transaction holds |
| Transactions.WaitsOnlyForSameRow | internal/store/store.go:184-193 | a transaction waits for another only over an id, a minute or a day that the other batch has too, and to create a day row only while there is none |
| Transactions.ForwardKeepsValid | internal/store/store.go:150-167 | every statement of every transaction keeps the invariant |
| Transactions.CommitKeepsOther | internal/store/store.go:184-193 | a commit leaves everything that other open transactions read under their locks unchanged |
| Transactions.CommitIsApply | internal/store/store.go:150-172 | a finished transaction commits exactly what InsertBatch alone on the tables of that moment would write |
| Transactions.CommitKeepsValid | internal/store/store.go:169-171 | a commit keeps the invariant for all the others |
| Transactions.StepKeepsValid | internal/store/store.go:150-172 | begin, statement, commit and abort all keep the invariant |
| Transactions.Serializable | internal/store/store.go:150-172 | in every run the committed tables are those of the committed batches in commit order; no rollup or sketch update is lost |
| Progress.IdHolderIsAhead | internal/store/store.go:98-102 | who holds an event_id that another waits for is at least as far in the id order |
| Progress.RollHolderIsAhead | internal/store/store.go:110-117 | who holds a rollup row that another waits for is strictly further |
| Progress.SketchHolderIsAhead | internal/store/store.go:191-216 | who holds a sketch row that another waits for is further, or at work on that row |
| Progress.HolderIsAhead | internal/store/store.go:98-117 | over all three phases, no lock holder is behind a waiter, and one at the same position waits for nobody |
| Progress.SomeoneCanStep | internal/store/store.go:191-216 | in every valid state with an open transaction, one can go on |
| Progress.NoDeadlock | internal/store/store.go:98-117 | no reachable state is a deadlock |
| Progress.StepWorks | internal/store/store.go:191-216 | every step except a new transaction uses up a measure of remaining lock requests |
| Progress.RunsAreBounded | internal/store/store.go:191-216 | without new transactions, the length of a run is bounded by that measure |
| Progress.AllCanCommit | internal/store/store.go:150-173 | from any valid state all open transactions can be brought to commit, without an abort |
| Database.SortedKeys | internal/store/store.go:207-216 | the keys come out by name, then day, strictly increasing, and are exactly the groups |
| Database.GroupUsers | internal/store/store.go:195-202 | the loop builds, for each key, its user ids in batch order |
| Database.AddEach | internal/store/store.go:240-242 | the inner loop adds the users one by one |
| Database.FoldKey | internal/store/store.go:220-249 | create if missing, read, merge, write: fails exactly when the row does not decode, touches only its key |
| Database.UpdateUniques | internal/store/store.go:194-252 | fails exactly when the row of some key does not decode; otherwise every key is folded and every other row unchanged |
| Database.Db.constructor | migrations/001_init.sql:5-15 | a freshly migrated database has empty tables |
| Database.Db.InsertBatch | internal/store/store.go:124-173 | empty batch: nothing; failure, or a row that the schema does not take: nothing changes; commit: all three tables change together, and only the reply says whether the caller knows |
| Database.OneMoreAttempt | internal/store/store.go:124-173 | on tables reached by calls only, a call cannot fail on a blob, and its effect is the next step of the history |
| Delivery.DecodableMeaning | internal/queue/kafka.go:128-139 | exactly the well-formed records become events |
| Delivery.PolledMeaning | internal/queue/kafka.go:115-123 | a poll returns log records only, and every record of its spans |
| Delivery.InsertKeepsValid | internal/queue/kafka.go:141-160 | an insert attempt with any of the three outcomes keeps the invariant |
| Delivery.SendKeepsValid | internal/queue/kafka.go:171-175 | committing after the insert keeps the invariant |
| Delivery.ApplyKeepsValid | internal/queue/kafka.go:171-175 | a commit arriving late, twice or moving an offset back still leaves everything below the offset stored |
| Delivery.LateKeepsValid | internal/queue/kafka.go:146-160 | an insert that the database applies after its worker gave up on it, or crashed, keeps the invariant |
| Delivery.StepKeepsValid | internal/queue/kafka.go:108-177 | produce, join, assign, revoke, poll, insert, late insert, commit and crash all keep the invariant, with no fencing of workers that lost their partitions |
| Delivery.NothingIsSkipped | internal/queue/kafka.go:108-177 | in every reachable state every decodable record below a committed offset is stored and the tables are consistent |
| Delivery.CountedExactlyOnce | internal/queue/kafka.go:108-177 | with all partitions committed to their ends, stored ids are exactly those of decodable records, each inserted and rolled up once |
| Reading.PollMoves | internal/queue/kafka.go:115-123 | a poll returns at least one and at most batchSize records, and moves each polled partition from the start of its records to their end, and no other |
| Reading.AssignedStartsAtOffset | internal/queue/kafka.go:92-98 | after an assignment the next poll of the partition starts at its committed offset |
| Reading.NotAssignedNotPolled | internal/queue/kafka.go:92-123 | a revoked partition is not polled, and neither a new nor a crashed worker has any |
| Reading.ProduceAppends | internal/queue/kafka.go:59-63 | a produced record goes to the end of its own partition |
| Reading.ReadsInOrder | internal/queue/kafka.go:108-177 | over every run in which a worker keeps a partition, its polls follow one another from its first position to its last |
| Reading.ChainHoldsOnce | internal/queue/kafka.go:108-123 | so that each record between them is in exactly one poll, and no other record in any |
| Reading.PolledInOrder | internal/queue/kafka.go:115-123 | a poll over several partitions returns the records of one after those of the other |
| Reading.DecodableInOrder | internal/queue/kafka.go:128-139 | decoding keeps the order of the records |
| Reading.DecodableOfOne | internal/queue/kafka.go:128-139 | and turns each good record into its event and a malformed one into nothing |
| Recovery.LimitMeaning | internal/queue/kafka.go:125-160 | the limit of a log is its first record that decodes but that the schema does not take, or its end |
| Recovery.OneTurn | internal/queue/kafka.go:114-176 | one turn on records that are malformed or insertable moves the committed offset and the position of the worker to their end, and no other offset |
| Recovery.TurnByTurn | internal/queue/kafka.go:108-177 | successive turns of at most batchSize records bring a partition to its limit, without a new assignment |
| Recovery.OnePartition | internal/queue/kafka.go:108-177 | one assignment and then turns: the records from the committed offset to the limit are polled once each, in order |
| Recovery.EveryPartition | internal/queue/kafka.go:108-177 | one idle worker can commit every partition to its limit, assigned each lagging one once and polling each remaining record once, in order |
| Recovery.CanReachLimits | internal/queue/kafka.go:108-177 | from every reachable state every partition can be committed to its limit |
| Recovery.NeverPassesLimit | internal/queue/kafka.go:141-160 | in no run, however long, does a committed offset pass a record that decodes and that the schema does not take |
| Recovery.CanFinishExactly | internal/queue/kafka.go:108-177 | from a reachable state the logs can be drained if and only if the schema takes every decodable record in them; then all is counted exactly once |
| Concurrent.EndingIsEnabled | internal/queue/kafka.go:146-160 | a worker's transaction can always be rolled back, and a finished one committed if the schema takes its rows |
| Concurrent.StepKeepsCarrying | internal/queue/kafka.go:141-160 | while a worker inserts, no step of another, of the broker or of a reassignment changes the records in its hands |
| Concurrent.AppliedRuns | internal/store/store.go:150-172 | aborted, unanswered and empty attempts leave the tables as the database's own log of commits does |
| Concurrent.StepKeepsValid | internal/store/store.go:150-172 | protocol steps, statements, commits, aborts, timeouts and late commits of any workers, interleaved, keep protocol and database in agreement |
| Concurrent.Refines | internal/queue/kafka.go:111-176 | what broker and workers see of any interleaving at statement level, retries that overtake a timed-out attempt included, is a run of the protocol with atomic inserts, and the committed tables are those of its attempts |
| Concurrent.NothingIsSkipped | internal/queue/kafka.go:108-177 | at statement level, every decodable record below a committed offset is in the committed events table |
| Concurrent.CountedExactlyOnce | internal/queue/kafka.go:108-177 | at statement level, once all partitions are committed to their ends the committed tables hold exactly the ids of the decodable records and are consistent |
| Concurrent.CanEnd | internal/store/store.go:150-172 | a finished transaction can commit if the schema takes its rows, whether or not its worker still waits, and otherwise roll back |
| Concurrent.SomeoneCanStep | internal/store/store.go:98-117 | no deadlock between workers, those that gave up included: while transactions are open one can execute a statement or end |
| Concurrent.DatabaseStepWorks | internal/store/store.go:150-172 | every statement, commit and abort, late ones included, uses up work of the open transactions |
| Concurrent.GiveUpLeavesTransaction | internal/queue/kafka.go:146-160 | a worker whose insert times out leaves its transaction open, with all its locks |
| Concurrent.AllCanEnd | internal/store/store.go:150-172 | from every reachable state the database alone can end all open transactions |
| Consumer.DecodeRecords | internal/queue/kafka.go:128-139 | the loop yields the decodable records in order and skips malformed ones |
| Consumer.PollSize | internal/queue/kafka.go:102-104 | the number of records polled at most is the configured one, or 1000 if that is not positive |
| Consumer.InsertStep | internal/queue/kafka.go:146-160 | one insert call is a step of the protocol that touches neither logs nor offsets |
| Consumer.KafkaConsumer.constructor | internal/queue/kafka.go:91-106 | a worker joins any valid state of the protocol, with the configured batch size or 1000 |
| Consumer.KafkaConsumer.InsertOnce | internal/queue/kafka.go:147-153 | one call performs one insert step; an empty batch always succeeds, a row that the schema does not take never |
| Consumer.KafkaConsumer.InsertUntilStored | internal/queue/kafka.go:144-160 | the retry loop is a run of insert steps; it succeeds exactly when some attempt is answered and the schema takes the rows |
| Consumer.KafkaConsumer.ApplyCommits | internal/queue/kafka.go:171-175 | each polled partition's offset becomes the end of its records, as a run of commit steps |
| Consumer.KafkaConsumer.CommitRecords | internal/queue/kafka.go:171-175 | an applied commit moves exactly the polled partitions; one that is not applied moves none |
| Consumer.KafkaConsumer.PollAndInsert | internal/queue/kafka.go:114-160 | poll, decode and insert are a run of the protocol that ends with the polled records stored, or with the worker still holding them; its positions are at the end of the polled records either way |
| Consumer.KafkaConsumer.RunBatch | internal/queue/kafka.go:114-176 | one turn of Run is a run of the protocol; it stops exactly when events were decoded and none of the attempts can succeed, and then no offset moves; the worker reads on after what it polled |
| Pool.StepConserves | internal/worker/worker.go:83-153 | every step keeps accepted = queued + held + flushed + dropped, for each event with multiplicity |
| Pool.StepKeepsLimits | internal/worker/worker.go:83-130 | no batch exceeds BatchSize, no flush exceeds MaxRetries, the queue its size, and a worker leaves only a closed and empty queue |
| Pool.StepKeepsStored | internal/worker/worker.go:119-147 | what was reported flushed without error has its id stored |
| Pool.StepKeepsCommitted | internal/worker/worker.go:83-130 | nothing is committed that the queue did not accept |
| Pool.StepKeepsValid | internal/worker/worker.go:83-153 | all of it, for every interleaving of producers, workers and Close |
| Pool.ExitedMeansDrained | internal/worker/worker.go:70-81 | once all workers are gone, the queue is empty and accepted = flushed + dropped as multisets |
| Pool.NothingIsLost | internal/worker/worker.go:70-153 | over every run: the books balance, and after the last worker every accepted event is stored or was in a flush reported with an error |
| Loss.AcceptedCanBeLost | internal/worker/worker.go:131-137 | for any settings and any event, a run in which the queue accepts it, every insert call fails, and after the last worker its id is not stored |
| Loss.NothingLostExactly | internal/worker/worker.go:70-153 | in every reachable state the stored ids are exactly the accepted ones if and only if every accepted id was in an applied attempt; each is counted once |
| Loss.NoDropsMeansApplied | internal/worker/worker.go:131-147 | in particular nothing is lost when all workers have exited and no flush was reported with an error |
| Loss.DoomedForGood | internal/worker/worker.go:108-153 | an id without an insertable copy in the queue, and only in batches with a row that the schema does not take, is never stored unless it is sent again |
| Loss.StorableExactly | internal/worker/worker.go:83-153 | in every valid state, an id that nobody is about to send can still get stored, or is, if and only if it is not doomed in that sense |
| Loss.GoodEventCanBeDoomed | internal/worker/worker.go:98-101 | for any batch size above one, an event that the schema takes is accepted and doomed by sharing a batch with one that it does not take |
| Shutdown.NeverPanics | internal/queue/queue.go:39-63 | if the channel is closed only while no producer is between check and send, no run sends on a closed channel |
| Shutdown.CloseIsSafeExactlyWhenNobodySends | internal/queue/queue.go:53-78 | at the moment of closing, some continuation panics if and only if a producer is past the closed check |
| Shutdown.PanicIsReachable | internal/queue/queue.go:53-78 | from the initial state: check, Close, send is such a run |
| Shutdown.StepWorks | internal/worker/worker.go:90-105 | every receive, insert attempt and non-empty tick uses up a measure of undelivered work |
| Shutdown.OnlyWorkersAct | internal/worker/worker.go:90-105 | after Close nothing else changes the state |
| Shutdown.DrainingIsBounded | internal/worker/worker.go:90-105 | after Close any run takes at most that many effective steps |
| Shutdown.SomeWorkerCanStep | internal/worker/worker.go:90-105 | while a worker is left, one can take an effective step, whatever the database answers |
| Shutdown.StuckMeansDrained | internal/worker/worker.go:70-105 | a run after Close that cannot go on has drained: all workers exited, nothing queued, every accepted event flushed or reported dropped |
| Shutdown.WaitReturns | cmd/tally/main.go:140-145 | Close then Wait can finish whatever the database answers to each attempt, with exactly those answers given, nothing queued or held and every accepted event flushed or reported dropped |
| Queue.Memory.constructor | internal/queue/queue.go:46-49 | an open, empty queue of the given size |
| Queue.Memory.Enqueue | internal/queue/queue.go:51-63 | ErrClosed, ErrFull or appended at the end; the queue and what was ever sent change only when it accepts |
| Queue.Memory.Receive | internal/queue/queue.go:65-67 | first in first out; a closed queue still delivers what it holds, then reports its end |
| Queue.Memory.Depth | internal/queue/queue.go:69-70 | the number of events accepted over the life of the queue less the number received, never above its size |
| Queue.Memory.Close | internal/queue/queue.go:72-78 | closing twice is closing once, and drops nothing |
| Queue.Drain | internal/queue/queue.go:65-78 | reading a closed queue to its end yields everything queued; then all that was ever accepted has been received, in order |
| PoolWorker.BatchSizeOf | internal/worker/worker.go:58-60 | the batch limit is the configured one, or 1000 if that is not positive |
| PoolWorker.MaxRetriesOf | internal/worker/worker.go:64-66 | the number of attempts is the configured one, or 3 |
| PoolWorker.Worker.constructor | internal/worker/worker.go:54-68 | a worker starts with an empty batch and valid limits |
| PoolRun.FlushLeads | internal/worker/worker.go:117-137 | up to MaxRetries attempts of which only the last may succeed are a run of the pool that ends the flush, counted as flushed or as dropped |
| PoolRun.FeedLeads | internal/queue/queue.go:53-63 | a check, a send and a receive are a run of the pool that moves one event into the worker's batch |
| PoolWorker.Worker.InsertOnce | internal/worker/worker.go:120-122 | one call is one attempt in the history; success stores all ids, and the count returned is by how much the events table grew |
| PoolWorker.Worker.TryInsert | internal/worker/worker.go:117-130 | stops at the first success, gives up after exactly MaxRetries failures, and never succeeds for a row that the schema does not take |
| PoolWorker.Worker.Flush | internal/worker/worker.go:110-153 | nothing for an empty batch; otherwise one report of the whole batch, failed exactly when all attempts failed, else with the growth of the events table as inserted and the rest as duplicates; and the batch is empty |
| PoolWorker.Worker.OnEvent | internal/worker/worker.go:92-101 | an event is flushed with its batch exactly when it fills it |
| PoolWorker.Worker.OnTick | internal/worker/worker.go:102-103 | a tick flushes what there is |
| PoolWorker.Worker.Turn | internal/worker/worker.go:91-104 | one turn of the select on an event or a tick is a run of the pool's steps, and adds exactly that event to what is held or reported |
| PoolWorker.Worker.Finish | internal/worker/worker.go:93-97 | on the closed channel the rest is flushed and the worker exits, as a run of the pool's steps |
| PoolWorker.Worker.RunLoop | internal/worker/worker.go:83-106 | for any order of events and ticks, the reported batches in order are the received events, none lost and none repeated, and the whole loop is a run of the pool that accepts exactly these events |
| Publish.RejectsExactly | internal/grpcingest/server.go:58-70 | rejected indexes increase strictly and are exactly those of entries without an id or a name, the id first; accepted and rejected add up to the request |
| Publish.AcceptsEntries | internal/grpcingest/server.go:72-83 | the k-th event is the k-th entry with an id and a name: same id, name, user and properties, and the time of the call |
| Publish.Enqueuer.Enqueue | internal/grpcingest/server.go:77-83 | any queue behind the interface: the call and its answer are recorded |
| Publish.PublishBatch | internal/grpcingest/server.go:49-103 | the events offered are the first valid entries, field by field and in order; success: all of them, accepted, and every index accounted for; failure: all but the last accepted, and the status for each error |
| Publish.CallTakes | internal/grpcingest/server.go:88-100 | what a call enqueued, failed or not, is a prefix of its valid events |
| Publish.SessionTakes | internal/grpcingest/server.go:44-48 | what a client's calls, one after the other, enqueued is what they sent |
| Publish.RetryCountsOnce | internal/grpcingest/server.go:44-48 | failed calls followed by a success, flushed in any batches and mixed with other traffic, store and count each valid id exactly once; a row whose id nobody else sent has the fields of an entry with that id |
| Offers.AcceptedFromBoth | internal/queue/queue.go:51-63 | in every run of the pool, what the queue accepted is what one producer and what all others got accepted, with multiplicity |
| Offers.EnqueueAlone | internal/queue/queue.go:51-63 | a call of Enqueue on the queue object is a run of the pool with the same answer, which is to accept whenever there is room and the queue is open |
| Offers.ReceiveAlone | internal/queue/queue.go:65-67 | a receive is a step of the pool that gives the worker the oldest event; one that would block is none; the end of the channel ends the worker |
| Offers.CloseAlone | internal/queue/queue.go:72-78 | Close is a run of the pool that leaves what is queued; again, it changes nothing |
| Publish.RetryThroughPool | internal/grpcingest/server.go:44-48 | the same in any interleaving of the pool, if one producer's calls of Enqueue are those of Publish calls of which the last succeeded, and everything accepted was in an applied attempt |
| Queries.CountIsExact | internal/store/store.go:301-312 | the rollup sum since a minute-aligned moment is the number of stored events of that name since then |
| Queries.CountTodayIsExact | internal/store/store.go:301-312 | at any time of a day, the count is the number of stored events of that name since the day began |
| Queries.CountNeedsAlignment | internal/store/store.go:306-308 | for every moment inside a minute there is a history for which it is not |
| Queries.TotalsExist | internal/store/store.go:314-338 | the top-20 query always has an answer |
| Queries.TotalsAreExact | internal/store/store.go:314-338 | at most twenty names, each once, with the exact event counts of the day, largest first; a name is left out only behind twenty with at least as many events |
| Queries.SeriesExists | internal/store/store.go:340-364 | the chart query always has an answer |
| Queries.SeriesIsExact | internal/store/store.go:340-364 | every event of the window before now is in exactly one point, every point counts exactly its events, and the points are oldest first, then by name |
| Uniques.UniquesAreOfCommitted | internal/store/store.go:254-273 | after any history and at any time of a day the query never meets an undecodable blob and answers the estimate of a fresh sketch of the users of the committed events of that name on that day |
| Uniques.UniquesFailExactly | internal/store/store.go:268-272 | the query fails exactly on a row that is not a blob of the current layout |
| Uniques.OneUserCountsOne | internal/store/store.go:254-273 | one user is estimated as one |
| Uniques.RetryCountsUserTwice | internal/store/store.go:165-202 | after a retry across midnight the query answers 1 on both days, for a single stored event |
| FixedWindow.SameKeyOtherDayIsFar | internal/ratelimit/ratelimit.go:133 | two requests that share a key on different days are almost a day apart, far beyond the expiry |
| FixedWindow.SameKeyExactly | internal/ratelimit/ratelimit.go:133 | two requests share a key if and only if they are of one client and a whole number of days apart, to the second |
| FixedWindow.WindowMeaning | internal/ratelimit/ratelimit.go:98-108 | a window is the requests of one client stamped within one whole second |
| FixedWindow.CountIsTrue | internal/ratelimit/ratelimit.go:100-108 | with skew and delay within 1000 ms the script sees each request's true rank in its window |
| FixedWindow.GrantsFirstOfWindow | internal/ratelimit/ratelimit.go:100-139 | then exactly the first `limit` requests of each client and second are granted |
| FixedWindow.LateTraceMeaning | internal/ratelimit/ratelimit.go:100-108 | at 1001 ms one more than the limit gets through |
| FixedWindow.LimitHoldsExactly | internal/ratelimit/ratelimit.go:100-139 | the limit holds for all traces if and only if skew and delay stay within 1000 ms |
| FixedWindow.AtMostTwiceTheLimit | internal/ratelimit/ratelimit.go:98-139 | of the requests stamped in any one-second interval, aligned or not, at most twice the limit is granted |
| FixedWindow.AtMostThriceArriving | internal/ratelimit/ratelimit.go:98-139 | of the requests that arrive in any one-second interval of Redis's clock, at most three times the limit is granted |
| FixedWindow.SpreadTraceMeaning | internal/ratelimit/ratelimit.go:98-139 | with lags that differ by 2 ms, three times the limit arrives and is granted within one second |
| FixedWindow.TwiceArrivingExactly | internal/ratelimit/ratelimit.go:98-139 | by arrival, twice the limit bounds every second of every trace if and only if lags differ by at most 1 ms |
| FixedWindow.Redis.constructor | internal/ratelimit/ratelimit.go:110-126 | a limiter joins a server whose counters are those of everything counted so far, by any instance |
| FixedWindow.Redis.Script | internal/ratelimit/ratelimit.go:100-108 | increment, expiry and comparison answer as the counters of the whole trace demand |
| FixedWindow.Redis.Allow | internal/ratelimit/ratelimit.go:128-140 | the script's answer, or yes on an error, whether the script ran or not |
| TokenBucket.IdleIsFull | internal/ratelimit/ratelimit.go:60-66 | a bucket idle for ten minutes is full if burst is at most 600 rps |
| TokenBucket.EvictionIsInvisible | internal/ratelimit/ratelimit.go:69-94 | then every answer of every trace is that of a limiter that never evicts |
| TokenBucket.ComebackDiffers | internal/ratelimit/ratelimit.go:81-94 | for every larger burst a trace on which the answers differ |
| TokenBucket.TransparentExactly | internal/ratelimit/ratelimit.go:69-94 | eviction is invisible on all traces if and only if burst is at most 600 rps |
| TokenBucket.CreditIsBounded | internal/ratelimit/ratelimit.go:68-94 | from any point on, janitor included, grants plus remaining tokens never exceed burst plus refill at the larger of rps and burst per ten minutes |
| TokenBucket.RateIsEnforced | internal/ratelimit/ratelimit.go:60-94 | for every burst: in any stretch of any trace a key gets at most burst plus the refill of that stretch at the larger of rps and burst per ten minutes |
| TokenBucket.ComebackBreaksRate | internal/ratelimit/ratelimit.go:81-94 | for a burst above 600 rps a trace that is granted two bursts while less than one refilled |
| TokenBucket.RateHoldsExactly | internal/ratelimit/ratelimit.go:60-94 | at most burst plus rps times the elapsed time, for every key and every stretch of every trace, if and only if burst is at most 600 rps |
| TokenBucket.RefusalsAreFree | internal/ratelimit/ratelimit.go:68-79 | a refused request costs nothing: whatever comes later is answered as if it had not been sent |
| TokenBucket.WaitingIsEnough | internal/ratelimit/ratelimit.go:60-94 | a client that has waited 1/rps seconds is granted its next request, whatever came before and whatever was evicted |
| TokenBucket.KeysAreIndependent | internal/ratelimit/ratelimit.go:52-79 | a client's bucket is as if the other clients did not exist |
| TokenBucket.Memory.constructor | internal/ratelimit/ratelimit.go:62-66 | no buckets at the start |
| TokenBucket.Memory.AllowKey | internal/ratelimit/ratelimit.go:69-79 | creates the bucket if missing, notes the use, takes a token exactly when one is there; other keys unchanged |
| TokenBucket.Memory.Janitor | internal/ratelimit/ratelimit.go:81-94 | keeps exactly the buckets used within the last 600 seconds, unchanged, whatever the iteration order |

## Left out

- HTTP and JSON handlers, gRPC transport, generated code, dashboard, metrics, profiling, environment parsing, connection retries of `store.New` and the load generator: they keep no state that the properties above depend on.
- The asynchronous Kafka producer: the delivery model starts at records already in the broker's log, because an event that the producer loses after its 202 is lost by design. `KafkaProducer.Enqueue` refuses events by the client library's own count of buffered records, which is not part of this model.
- UniquesTodayAll: the same decoding and estimate as UniquesToday, row by row.
- Statistical error of the sketch and floating-point rounding: `Estimator` works in exact reals with an abstract logarithm of which only `ln 1 = 0`, monotonicity and `ln x <= x - 1` are used; `LinearAdds` also takes that it turns products into sums, `HalfEmpty` two bounds on `ln 2`. The counterexample `EstimateCanDrop` also takes `ln 16384 >= 9`, and the estimate of one user `1 - 1/x <= ln x`.
- Estimator.DropsExactly: speaks of the exact-real formula; for registers of 64 and more, which no sketch reaches, `Returned` and `EstimateCount` follow Go's shift instead. Whether strings exist that raise exactly the registers it names is a question about the hash and left open.
- Conversion of an estimate beyond 64 bits to uint64 is left to Go; `EstimateFitsExactly` says when it happens.
- Marshalling and unmarshalling: properties are opaque bytes, a marshal failure of `InsertBatch` is a call that is not applied, and whether a record decodes is part of the record.
- Which rows the schema takes is a parameter: NUL bytes, `\u0000` in jsonb and the size limit of the unique index are examples, not definitions.
- Postgres itself: row locks held to commit, statements that see the latest committed row version, byte order for `ORDER BY` (the proofs use only that the order is total), and a session time zone of UTC for `date_trunc` and `current_date`.
- Database.Db.InsertBatch: runs one transaction at a time; interleaved transactions are the subject of `Transactions` and `Concurrent`.
- Consumer.KafkaConsumer.RunBatch: one turn at a time, started in any valid state of the protocol; steps of other workers during the turn are the subject of `Delivery` and `Concurrent`. The endless loop around the turns is not modelled.
- PoolWorker.Worker.RunLoop: the pool run it exhibits has this worker act alone and each event sent just before it is received; interleaved workers are the subject of `Pool`, whose inserts are atomic attempts.
- TokenBucket.RefusalsAreFree: speaks of the limiter without its janitor; a refused request notes the use of the entry, which can put off its eviction. `TransparentExactly` says when that makes no difference.
- Queue.Memory.Enqueue: check and send without a race; the race between them is the subject of `Pool` and `Shutdown`. The direct hand-off of a channel of capacity 0 is not modelled.
- Shutdown.WaitReturns: exhibits one finishing run; `DrainingIsBounded` and `StuckMeansDrained` say that no run in which the workers keep taking the steps they can take misses the end. Which steps the scheduler picks is not modelled.
- Backoff delays, timeouts and log output.
- FixedWindow.LimitHoldsExactly: for lags that differ by more than 1000 ms it only says that the limit fails, not by how much. It counts the grants that the script gives; a call that fails open is not one of them. The bound rests on Redis keeping a key through the millisecond of its deadline.
- TokenBucket.Memory.AllowKey: takes the time of the entry and the time of the limiter's decision as one, and requires of `x/time/rate` only a refill at rps capped at burst. A rate that is not positive, with which `main` builds no limiter, is outside the lemmas.
