# A Dafny model of EinsteinDB's hard parts

This project models the parts of EinsteinDB that carry its correctness and proves what they promise.
Tables, caches and properties that the program changes in place are classes whose methods are proved
against value-level specifications; what is promised is proved about those specifications. The source
uses its own vocabulary: a *causet* is a fact (entity, attribute, value, tag) or a column family, a
*cone* is a key range, a *lightcone* is a timeline, *spacetime* is metadata, and
*tuplespaceInstanton* means keys.

`dafny verify dfyconfig.toml` checks every file.

## Components

- **Transactor** (`Transactor`, `TransactorIntent`, `TransactorStore`, `TransactorOrigins`,
  `TransactorMarks`, `Rewind`, `SpacetimeAssertions`, `Partitions`, `LookupRefs`). A transaction fills
  two search tables, joins them with the fact table, updates the fact table by row id and then appends
  to a log. The log, the table and the metadata query are computed by separate statements; the theorems
  say that they agree over every run, that every suffix of a run can be undone, and that moving
  transactions off the main timeline restores the earlier table.
- **Attribute cache** (`AttributeCache`, `CacheLayering`, `CacheOperations`, `CacheTransactions`,
  `CacheLeaks`, `CacheCommit`, `CacheStore`, `CacheAgreement`, `CacheCommitted`, `CacheObjects`,
  `CacheWatcher`, `CacheVectors`, `CacheFollows`, `CacheOutOfStep`, `CacheRun`). Four kinds of map with
  tombstones, an overlay over an immutable inner cache, and a commit. The overlay stands for a flat
  cache; the theorems say exactly when its lookups, its operations and its commit are those of the flat
  cache, and when the committed cache agrees with the store that a transaction leaves. The watcher that
  feeds the cache is compared with what the transactor really changes: for every transaction, and then
  for every run, the theorems say exactly when the committed cache follows the fact table.
- **Range properties** (`RangeIndex`, `RangeCodec`, `RangeSplit`, `Mvcc`, `MvccSpacing`). A collector
  samples cumulative sizes and counts, binary search estimates ranges within a proved error bound, split
  and divide pick balanced keys, a length-prefixed codec stores the result, and a second collector
  counts rows and versions.
- **SQL printer** (`SqlPrinter`, `SqlValues`). Nested constraints become tokens; an independent
  recursive-descent reader with AND binding tighter than OR gives back a condition of the same
  three-valued meaning.
- **Range deletion** (`RangeDelete`) and **request tracker** (`Tracker`, `TrackerTimes`): batches
  written under an open snapshot, and a stage machine that reports once.
- `Options`, `Bytes`, `Sequences`, `Sorting` and `Arithmetic` hold shared vocabulary and facts.

## Where the code departs from what one would expect

Each of these is proved as an if-and-only-if, with a concrete example beside it.

- The transactor routes by cardinality alone (core/src/tx.rs:777-782), so a cardinality-one retraction
  strikes whatever value is stored, not the value it names (`IntentIffNoStray`).
- The single-valued overlay lookup treats its own tombstone as "not present" and falls through to the
  inner cache (core/src/cache.rs:881-888), contrary to the comment at core/src/cache.rs:1455-1457
  (`ValueFlatIff`). Commit then changes the answer (`CommitValue`).
- Registering an attribute back after unregistering it, when the store has no rows of it, brings back
  the inner cache's entry (`PerformFlatIff`), and commit may take it away again (`CommitValues`).
  Registering a further direction of an attribute refills the overlay from the store, and keys that only
  the inner cache has show through (`RefillLeaksForwardIff`, `RefillLeaksReverseIff`). Commit does not
  mend that: it absorbs the overlay into the inner entry and keeps the lost keys, so the committed cache
  stays stale (`CommittedCacheAgreesIff`).
- Asserting a stored multi-valued fact again pushes it a second time, so the lookup lists it twice
  (`UpdateAgreesIff`).
- The watcher reports the terms that were asked for, not the rows that changed
  (`WatchedUpdateAgreesIff`). A stored value that is replaced, or whose slot is retracted, without being
  named stays in the reverse cache (`ReverseFollowsIffNamed`, `UniqueFollowsIff`), and retracting a
  unique value from an entity that does not hold it erases the cache's entry. A transaction that asserts
  the stored value and retracts another one of the same slot removes the value it asked for, and the
  forward cache keeps it (`SingleFollowsIff`).
- Reading the partition map loses empty partitions as soon as one logged entity lies beyond every end,
  because `NOT IN` over a list with NULL is unknown (`AllPartitionsIff`). The only writer of the known
  partitions (core/src/edb.rs:316-319) stores the bootstrap ones, whose last end is the greatest id
  (core/src/bootstrap.rs:71-76), so the loss cannot arise from them (`LastEndCovers`).
- Statistics collected after a request has reported are never reported (`ReportedOnce`).
- The chunk assertion of lookup refs fails when the variable limit is a multiple of four and a chunk is
  full (`ChunksFitIff`).
- The row counter compares with an initially empty last row and misses an empty row that comes first
  (`RowsCountedIff`).
- Values print as a readable table only if there are some and they divide evenly, as the type's
  documentation demands of the caller (`ValuesReadIff`).

Two more follow the code and show in contracts: accumulating rows of an attribute that the schema does
not know consumes nothing, so the loop would not end (`AccumulateEvs`), and refilling a cache from no
rows empties nothing (`RegisterAttribute`).

## Idealisations and parameters

- The divisions in `f64` that choose split and dividing positions are exact rationals.
- Counted keys of one file ascend strictly, as the storage engine writes them; offsets do not overflow
  64 bits.
- Values of one attribute share a type tag, which core/src/tx.rs:757-760 establishes before anything is
  written. Integers and reals compare by numeric value, as in SQLite.
- New row ids are unused, transaction ids of a run are distinct, the schema is fixed during a run, and
  only the main timeline is in the tables. Each rewinding pass allocates a transaction id that no fact
  of the run is about.
- Rows and search rows carry the unique flag of their attribute, as the flags are computed from the
  schema, and a transaction's instant is not a unique attribute.
- The clock and performance counters of the tracker are readings passed to each method that never go
  back. Stages at which the source panics are preconditions.
- Whether a key is a data key, carries a timestamp, or a value parses is given with each MVCC entry.
- Keys, values, statistics and subqueries whose contents do not matter are kept whole: scanned keys
  stand for all storage statistics, and a subquery is one token.
- A width of zero for inline values, zero parts for a division and an inverted range are excluded,
  because the source panics on them.

## Model

| member | source | states |
|---|---|---|
| `Transactor.ResultMeaning` | core/src/edb.rs:588-604 | Every search result points at a stored row of its entity and attribute with the stored value and tag, or says that no stored row joins; cardinality-many results hit the searched fact itself |
| `Transactor.OneHit` | core/src/edb.rs:600-604 | Under the index on search results, an inexact search that has a joining row is answered by that row and no other |
| `Transactor.DeltaIsMinimal` | core/src/edb.rs:616-644 | Every retracted fact was in the table and no added fact was |
| `Transactor.DeletedView` | core/src/edb.rs:654-663 | Deleting by row id removes exactly the facts that the retraction query lists, although one goes by id and the other by columns |
| `Transactor.MaterializedView` | core/src/edb.rs:651-688 | The table afterwards is the table before, less the retracted facts, plus the added ones |
| `Transactor.CardinalityKept` | core/src/edb.rs:651-688 | Every successful transaction keeps one value per entity and cardinality-one attribute, row uniqueness and value tags, whatever it also retracts |
| `Transactor.OneAddition` | core/src/edb.rs:788-788 | The index on inexact searches admits one addition per entity and attribute |
| `Transactor.StaleValueRetracted` | core/src/edb.rs:600-604 | Adding a cardinality-one value retracts any other stored value of that entity and attribute |
| `Transactor.LoggedDelta` | core/src/edb.rs:616-644 | The log rows of a transaction are exactly its added and retracted facts, and no other transaction's rows change |
| `Transactor.StepDelta` | core/src/edb.rs:616-688 | Log rows are minimal and invertible: new = old - retracted + added and old = new - added + retracted |
| `Transactor.RunInvariant` | core/src/edb.rs:1002-1011 | Every state of every run of successful transactions from empty tables keeps the table's invariant |
| `Transactor.LogStable` | core/src/edb.rs:1002-1005 | A transaction's log rows are final: no later transaction of a run alters them |
| `Transactor.ReplayRebuildsView` | core/src/edb.rs:585-688 | For every run and every point of it, replaying the final log up to that point gives the facts stored at that point |
| `Transactor.RollBackRestoresView` | core/src/edb.rs:616-688 | Undoing any suffix of a run from the log, newest first, gives the facts stored before it |
| `TransactorIntent.AddedExactly` | core/src/edb.rs:623-627 | A fact is added if and only if it is asserted and not stored |
| `TransactorIntent.RetractedExactly` | core/src/edb.rs:632-638 | A stored fact is retracted if and only if it is named, replaced, or shares entity and attribute with a cardinality-one retraction of any value |
| `TransactorIntent.NoConflict` | core/src/edb.rs:808-808 | The index on search results refuses a fact that is both asserted and retracted |
| `TransactorIntent.IntentIffNoStray` | core/src/tx.rs:777-793 | The table afterwards is the one the transaction asks for if and only if no cardinality-one retraction strikes a stored value that the transaction neither names nor replaces |
| `TransactorIntent.ViewAfter` | core/src/edb.rs:616-688 | A stored fact survives a transaction if and only if it is not named, replaced or in a retracted slot; an absent fact appears if and only if it is asserted |
| `TransactorIntent.StrayRetractionExample` | core/src/tx.rs:777-782 | A retraction of 5 when 7 is stored removes 7 |
| `TransactorStore.Store.constructor` | core/src/edb.rs:163-182 | Empty tables satisfy the unique indexes |
| `TransactorStore.Store.UpdateCausets` | core/src/edb.rs:651-688 | Rows are deleted by id and inserted with new ids; the insertion is refused if and only if the resulting table breaks the unique-value index, never because of the index over whole facts |
| `TransactorStore.Store.InsertTransaction` | core/src/edb.rs:616-644 | The log grows by one row per added fact and one per distinct retracted fact, and keeps its prefix |
| `TransactorStore.Store.Materialize` | core/src/edb.rs:1007-1011 | Search then update succeeds if and only if no unique index refuses, and then moves the table by the search results |
| `TransactorStore.Store.Transact` | core/src/tx.rs:796-820 | A transaction succeeds if and only if no unique index refuses it and then commits table and log together; a refused one leaves both as they were |
| `TransactorStore.RefusedIffClash` | core/src/edb.rs:182-182 | The index over unique values refuses a table if and only if one value and tag of an attribute stands at two entities in rows marked unique |
| `TransactorStore.ClashRefuses` | core/src/edb.rs:182-182 | A value clash met part way through the insertions means that the finished table would break the unique-value index, so the order of insertion does not matter |
| `TransactorStore.UpdatedRows` | core/src/edb.rs:651-688 | The rows after a transaction are those it does not retract and its additions, which is what the index over unique values was asked about |
| `TransactorOrigins.NewRowStems` | core/src/edb.rs:665-688 | Every row with a new id holds the fact and flags of a term that adds a fact not stored before, and the id of the transaction |
| `TransactorOrigins.RowOrigin` | core/src/edb.rs:616-688 | At every state of every run, each stored row holds the fact, transaction id and flags of a term that asserted it: the id is that of the latest transaction whose log rows add the fact, and none after it adds or retracts it |
| `TransactorOrigins.AssertedResolvesIff` | core/src/edb.rs:665-755 | Once a transaction has added a fact that was not stored, its attribute and value resolve to its entity if and only if the term was marked for the value index |
| `TransactorOrigins.StoredResolvesIff` | core/src/edb.rs:691-755 | At every state of every run, an attribute and value resolve to an entity if and only if the attribute is one that assertions are marked for and the fact is stored |
| `TransactorOrigins.ResolveStored` | core/src/edb.rs:691-755 | At every state of every run the chunked lookup answers for exactly the pairs of stored facts of indexed attributes, with an entity that has the value |
| `Rewind.RewindIsAccepted` | core/src/lightlike.rs:156-164 | If rows and searches are marked unique by their attribute, unique values were unique before the newest transaction and instants are not unique values, no unique index refuses its reversed terms, the index over unique values included |
| `Rewind.RewindTarget` | core/src/lightlike.rs:114-164 | Every row a rewind leaves holds a fact of the table before the undone transaction, or the rewind's own instant |
| `Rewind.RewindDelta` | core/src/lightlike.rs:114-136 | The reversed terms retract exactly what was added and add exactly what was retracted, plus the new transaction's instant |
| `Rewind.RewindRestores` | core/src/lightlike.rs:156-177 | Rewinding the newest transaction and deleting the instant restores the table it started from |
| `Rewind.RewindSuffixRestores` | core/src/lightlike.rs:138-183 | After rewinding any number of transactions, newest first, the table is the one the run had before them |
| `Rewind.NextPassIsAccepted` | core/src/lightlike.rs:138-183 | For every run of accepted, marked transactions and after any number of passes, no unique index refuses the reversed terms of the next transaction |
| `Rewind.RemainingLogReplays` | core/src/lightlike.rs:91-100 | Once the newest transactions are moved off the main timeline, the log rows left on it replay to the table that the passes leave |
| `SpacetimeAssertions.AssertionOrder` | core/src/edb.rs:1030-1030 | The five sort columns order rows totally, so the sorted list is unique |
| `SpacetimeAssertions.ResolvedIsCommitted` | core/src/edb.rs:1013-1059 | The metadata assertions resolved before commit are the same sorted, duplicate-free list as those read back from the log |
| `SpacetimeAssertions.CommittedLists` | core/src/edb.rs:1013-1059 | A row is in the list read back if and only if the transaction logged it and it is about one of the seven ident and schema attributes |
| `SpacetimeAssertions.ColumnsInOrder` | core/src/edb.rs:1030-1030 | The list read back goes by entity, then attribute, then value (numbers, texts, blobs), then tag, with retractions before assertions |
| `Partitions.Case` | core/src/edb.rs:290-297 | The CASE gives a partition whose end is at or above the entity, or NULL when all ends are below it |
| `Partitions.GroupIndex` | core/src/edb.rs:295-300 | The index of a group is one above the greatest entity in it and absent exactly when the group is empty |
| `Partitions.CaseFindsContainer` | core/src/edb.rs:281-302 | With disjoint partitions the CASE finds the partition that contains the entity |
| `Partitions.IndexIsNext` | core/src/edb.rs:465-494 | Each partition read back has its own bounds and a next index above every entity logged in it, or its start when none is |
| `Partitions.AllPartitionsIff` | core/src/edb.rs:478-489 | Every known partition is read back, and only those, if and only if no logged entity lies beyond the last end or no partition is empty |
| `Partitions.LastEndCovers` | core/src/bootstrap.rs:71-76 | A partition ending at or above every logged entity, as the last bootstrap partition does, is enough to read all partitions back |
| `Partitions.PartitionDroppedExample` | core/src/edb.rs:488-489 | With one entity beyond the last end, an empty partition is not read back; the bootstrap partitions leave no room for such an entity |
| `LookupRefs.ChunksFitIff` | core/src/edb.rs:700-731 | The chunk assertion holds if and only if the variable limit is not a multiple of four or the list is shorter than a chunk |
| `LookupRefs.ChunkAssertionFailsExample` | core/src/edb.rs:731-731 | A limit of four refuses a single pair, a limit of five does not |
| `LookupRefs.ResolveAvs` | core/src/edb.rs:691-755 | For every list that passes the chunk assertion, the map has exactly the pairs with an indexed assertion, each with an entity it is asserted of |
| `AttributeCache.FoldKeepsFlags` | core/src/cache.rs:699-842 | Taking rows never changes which attributes are cached |
| `AttributeCache.FoldWellFormed` | core/src/cache.rs:617-695 | Entries exist only for attributes cached in that direction, whatever rows are taken |
| `AttributeCache.RegisterWellFormed` | core/src/cache.rs:1237-1270 | Registering adds exactly the directions asked for and keeps entries and flags in step |
| `CacheLeaks.PerformRefines` | core/src/cache.rs:1355-1435 | Each update, unregistration, skipped registration and registration of an attribute new to the inner cache keeps the overlay a refinement of one flat cache that takes the same operation |
| `CacheLeaks.AnswersRefine` | core/src/cache.rs:1437-1530 | In a state where no overlay entry lacks a key of the inner one, multi-valued, unique-reverse and non-unique-reverse lookups answer as the flat cache does, and single-valued ones if and only if the overlay holds no tombstone over a value of the inner cache |
| `CacheTransactions.LayeredRefinesFlat` | core/src/cache.rs:1344-1530 | After any sequence of updates, registrations and unregistrations that brings back no unregistered entry, each kind of lookup answers as the flat cache does if and only if it reads through no key missing from the overlay's entry, and for single values no tombstone |
| `CacheLeaks.PlainRefinesFlat` | core/src/cache.rs:1344-1530 | If only attributes new to the inner cache are registered, all lookups and flags answer as the flat cache does, but for stale tombstones |
| `CacheOperations.PerformSound` | core/src/cache.rs:1355-1435 | Every operation, registering an attribute back included, keeps entries where flags are and unregistered attributes out of the overlay |
| `CacheOperations.PerformFlatIff` | core/src/cache.rs:1355-1421 | Every operation moves the flat cache that the overlay stands for as it moves a flat cache, if and only if it registers back no unregistered entry without replacing it; registering what is cached in every direction asked for changes nothing in either |
| `CacheOperations.CachedAfter` | core/src/cache.rs:1355-1435 | Which directions of which attributes are cached after every operation: a registration adds those asked for of a known attribute, an unregistration takes both away, an update changes none |
| `CacheLayering.ValuesFlatIff` | core/src/cache.rs:1438-1449 | In every sound state a multi-valued lookup answers as the flat cache does if and only if the overlay's entry does not lack a key that the inner one has |
| `CacheLayering.ValueFlatIff` | core/src/cache.rs:1451-1463 | The same for single-valued lookups, where a tombstone over an inner value fails as well |
| `CacheLayering.EntidFlatIff` | core/src/cache.rs:1517-1529 | The same for unique reverse lookups |
| `CacheLayering.EntidsFlatIff` | core/src/cache.rs:1507-1515 | The same for non-unique reverse lookups |
| `CacheLeaks.RefillLeaksForwardIff` | core/src/cache.rs:1385-1412 | Registering an attribute that the inner cache knows makes single- and multi-valued lookups read through at exactly the entities that the inner cache has and the rows do not |
| `CacheLeaks.RefillLeaksReverseIff` | core/src/cache.rs:1385-1412 | The same for unique and non-unique reverse lookups, at exactly the values that the inner cache has and the rows do not |
| `CacheLeaks.ResurrectionExample` | core/src/cache.rs:1366-1369 | Unregistered and registered back from no rows, an attribute answers with its old values |
| `CacheLeaks.LeakExample` | core/src/cache.rs:1396-1411 | Retracting an entity's values and registering another direction from the remaining rows lets the values through |
| `CacheLeaks.StaleTombstoneExample` | core/src/cache.rs:1455-1462 | After retracting a cached single value, the layered cache still answers with it |
| `CacheCommit.AbsorbLookup` | core/src/cache.rs:143-178 | An absorbed map answers as the overlay and then the surviving inner map, dead entries counting as absent |
| `CacheCommit.CommitAbsorbs` | core/src/cache.rs:1550-1582 | Replacing an empty destination by the overlay is the same as absorbing into it |
| `CacheCommit.CommitFlags` | core/src/cache.rs:1550-1582 | The cached-attribute flags after commit are those of the cache in progress |
| `CacheCommit.CommitValues` | core/src/cache.rs:346-358 | Multi-valued lookups keep their answer through commit if and only if they do not read through to the inner cache at an attribute that was unregistered and registered back in that direction only |
| `CacheCommit.CommitValue` | core/src/cache.rs:143-157 | Single-valued lookups keep their answer if and only if in addition they read no stale tombstone |
| `CacheCommit.CommitEntid` | core/src/cache.rs:412-417 | Unique-reverse lookups keep their answer if and only if they do not read through at an attribute registered back in reverse only |
| `CacheCommit.CommitEntids` | core/src/cache.rs:466-478 | The same for non-unique reverse lookups, an empty set counting as absent |
| `CacheCommit.CommittedIsFlat` | core/src/cache.rs:1206-1218 | Where the overlay refines a flat cache, that is, keeps every key of the inner entries and was not registered back, all four kinds of committed lookup and the flags are those of the flat cache, stale tombstones included |
| `CacheCommit.CommittedValuesIff` | core/src/cache.rs:346-358 | In every sound state a committed multi-valued lookup is that of the flat cache if and only if it does not stray: the inner entry was registered back in this direction only, or the overlay's entry lost a key of it; a lookup that strays swaps the inner values with none |
| `CacheCommit.CommittedValueIff` | core/src/cache.rs:143-157 | The same for single-valued lookups |
| `CacheCommit.CommittedEntidIff` | core/src/cache.rs:412-417 | The same for unique reverse lookups |
| `CacheCommit.CommittedEntidsIff` | core/src/cache.rs:466-478 | The same for non-unique reverse lookups |
| `CacheCommit.HalfwayExample` | core/src/cache.rs:1550-1582 | An attribute registered back in one direction from no rows answers with its old values until commit removes them |
| `CacheCommit.TombstoneExample` | core/src/cache.rs:143-157 | A retracted single value is still answered before commit and not after it |
| `CacheStore.StepAgrees` | core/src/cache.rs:307-507 | Retracting a row that erases no other row's entry, or asserting one that respects cardinality and uniqueness and is new where values are listed, keeps every lookup equal to a scan of the store, each listed value once |
| `CacheStore.UpdateAgrees` | core/src/cache.rs:1167-1175 | An orderly update that lists no value twice keeps all four kinds of lookup equal to scans of the new store |
| `CacheStore.UpdateAgreesIff` | core/src/cache.rs:1167-1175 | An orderly update keeps every lookup equal to a scan of the new store, vectors without repetition included, if and only if the asserted rows of multi-valued attributes are absent after the retractions and pairwise different |
| `CacheStore.ListedTwiceExample` | core/src/cache.rs:392-395 | Asserting a stored fact again lists its value twice |
| `CacheStore.MultiAdditions` | core/src/cache.rs:392-395 | A vector lists a value as often as it did plus as often as it is asserted |
| `CacheStore.RegisterAgrees` | core/src/cache.rs:893-918 | Registering from the rows of the store makes every lookup of the attribute a scan of the store, in the new directions and in those it had |
| `CacheStore.SkipIsRefillIff` | core/src/cache.rs:1362-1364 | Skipping a registration whose directions are cached already answers as a refill from the store would, if and only if the store has no rows of the attribute or the cache agrees with them |
| `CacheCommitted.CommittedCacheAgreesIff` | core/src/cache.rs:1344-1582 | From agreement at the start, through any updates, unregistrations and registrations of a transaction that bring no value back, the committed cache agrees with the store the transaction leaves, no value listed twice, if and only if no lookup strays |
| `CacheCommitted.CommitAgreesIffNoStrays` | core/src/cache.rs:1550-1582 | In every sound state whose flat cache agrees with a store, the committed cache agrees with it if and only if no lookup strays |
| `CacheCommitted.StaysStaleExample` | core/src/cache.rs:1396-1411 | An entity's values are retracted and a further direction of the attribute is registered: the committed cache goes on listing the retracted value |
| `CacheAgreement.PerformAgreesIff` | core/src/cache.rs:1355-1435 | For every update, unregistration and registration from the rows of the store, the cache stands for one that agrees with the store afterwards if and only if a registration from no rows brings back no value of the inner cache |
| `CacheAgreement.BackAgreesIff` | core/src/cache.rs:1366-1369 | Registering an attribute of which the store has no rows keeps agreement if and only if the inner entries it uncovers are empty |
| `CacheAgreement.QuietUnlessResurrected` | core/src/cache.rs:1366-1369 | An operation that uncovers no unregistered entry of the inner cache brings no value back, so the agreement results hold of every sequence that the refinement results hold of |
| `CacheObjects.OpenOnce` | core/src/cache.rs:617-695 | Copying an attribute's entry from the fallback once and then taking its rows equals consulting the fallback for every row |
| `CacheObjects.AttributeCaches.OpenEntries` | core/src/cache.rs:617-695 | The entries an attribute needs exist afterwards, copied from the fallback where it caches the attribute |
| `CacheObjects.AttributeCaches.TakeRow` | core/src/cache.rs:307-507 | One row updates exactly the maps its attribute's cardinality, uniqueness and directions call for; what a retraction leaves of a vector, and in which order, is `VectorAfterUpdate` |
| `CacheVectors.RemoveEverySurvivors` | core/src/cache.rs:130-136 | Removing a value from a vector keeps the others in their old order |
| `CacheVectors.VectorAfterUpdate` | core/src/cache.rs:346-403 | After any retractions and assertions a multi-valued lookup lists the values not retracted in their old order and then those asserted in the order of the rows |
| `CacheVectors.VectorAfterTerms` | core/src/cache.rs:1609-1666 | Behind the watcher the same holds of the terms of a transaction, in the order in which they were seen |
| `CacheObjects.AttributeCaches.WithAevIter` | core/src/cache.rs:509-517 | Consumes the rows that share the attribute, all of them and no further, and folds them in |
| `CacheObjects.AttributeCaches.AccumulateEvs` | core/src/cache.rs:699-835 | Consumes rows if and only if the attribute is in the schema, and folds in exactly those |
| `CacheObjects.AttributeCaches.AccumulateIntoCache` | core/src/cache.rs:837-842 | The loop ends with every row consumed and equals one fold over all rows |
| `CacheObjects.AttributeCaches.UpdateWithFallback` | core/src/cache.rs:1168-1175 | Retractions first, then assertions |
| `CacheObjects.AttributeCaches.RegisterAttribute` | core/src/cache.rs:893-918 | Sets the flags, empties and refills the entries from the rows; with no rows nothing is emptied |
| `CacheObjects.AttributeCaches.UnregisterAttribute` | core/src/cache.rs:857-866 | The attribute leaves both flag sets and all four kinds of map |
| `CacheObjects.ExtendByAbsorbing` | core/src/cache.rs:165-178 | Entry by entry, attributes in both maps are absorbed and new ones are moved over whole |
| `CacheObjects.AbsorbMap` | core/src/cache.rs:143-157 | Tombstones delete, live entries overwrite, others stay |
| `CacheObjects.AttributeCaches.AbsorbAll` | core/src/cache.rs:1206-1218 | All four kinds are absorbed and the flags united |
| `CacheObjects.InProgressCache.constructor` | core/src/cache.rs:1345-1353 | Begins with the inner cache's flags and no entries of its own |
| `CacheObjects.InProgressCache.Update` | core/src/cache.rs:1430-1435 | Rows go to the overlay with the inner cache as fallback; the inner cache is not touched |
| `CacheObjects.InProgressCache.Unregister` | core/src/cache.rs:1415-1421 | The attribute leaves the overlay and is marked unregistered in both directions |
| `CacheObjects.InProgressCache.UnregisterAll` | core/src/cache.rs:1423-1427 | The overlay is emptied and all of the inner cache's attributes are marked unregistered |
| `CacheObjects.InProgressCache.Register` | core/src/cache.rs:1355-1412 | Fails for an unknown attribute, does nothing if every direction asked for is cached, else clears the marks, sets the missing flags and refills the overlay |
| `CacheObjects.InProgressCache.CommitTo` | core/src/cache.rs:1550-1582 | Whatever the destination holds, it loses the unregistered attributes and absorbs the overlay, or becomes the overlay if it caches nothing to begin with |
| `CacheWatcher.Watcher.Causet` | core/src/cache.rs:1609-1640 | Every term is remembered under its attribute if that is cached, as often as it is seen and in that order, and nothing seen before is lost |
| `CacheWatcher.Watcher.Done` | core/src/cache.rs:1642-1666 | Hands over the retracted and asserted rows of cached attributes, each as often as it was seen, those of one attribute in the order they were seen in, and no others |
| `CacheWatcher.TermsDistinct` | core/src/edb.rs:808-808 | The index on search results admits no term twice |
| `CacheWatcher.DoneReports` | core/src/tx.rs:784-824 | A watcher that saw the terms of a successful transaction, in any order, hands over exactly the rows it asks for, each once |
| `CacheFollows.SingleFollowsIff` | core/src/cache.rs:307-338 | A single-valued lookup follows the store unless the transaction asserts the stored value and retracts its slot as well |
| `CacheFollows.VectorFollowsIff` | core/src/cache.rs:379-403 | A multi-valued lookup lists the stored values, each once, unless the transaction asserts a stored one |
| `CacheFollows.NonUniqueFold` | core/src/cache.rs:486-507 | Folding rows into a non-unique reverse cache is set union or difference, whatever the rows |
| `CacheFollows.ReverseFollowsIffNamed` | core/src/tx.rs:784-793 | A non-unique reverse lookup follows the store if and only if a stored value that is replaced or whose slot is retracted is also named |
| `CacheFollows.UniqueFollowsIff` | core/src/cache.rs:425-453 | A unique reverse lookup of a value follows the store if and only if the last assertion of the value restores no fact whose slot is retracted or, where it is not asserted, the value is named exactly if its stored fact is struck |
| `CacheFollows.WatchedUpdateAgreesIff` | core/src/cache.rs:1608-1667 | For every successful transaction, the rows reported keep all lookups of all cached attributes equal to scans of the new fact table if and only if each stored fact of a cached attribute meets the condition of its kind; uncached attributes do not matter |
| `CacheOutOfStep.ReplacementGoesStale` | core/src/tx.rs:784-793 | A replaced value that is not named stays in the reverse cache |
| `CacheOutOfStep.StrayRetractionGoesStale` | core/src/tx.rs:777-793 | Retracting 5 where 7 is stored removes 7 from the store and leaves it in the reverse cache, though nothing is replaced |
| `CacheOutOfStep.ForeignRetractionGoesStale` | core/src/cache.rs:425-444 | Retracting a unique value from an entity that does not hold it leaves the store alone and makes the cache forget the holder |
| `CacheOutOfStep.AssertedGoesStale` | core/src/tx_checking.rs:66-84 | Asserting the stored 7 and retracting 5 of the same slot in one transaction removes the 7, and the forward cache keeps it |
| `CacheCommitted.CommittedAgreesIff` | core/src/cache.rs:1550-1582 | Where the overlay refines a flat cache, the committed cache agrees with exactly the stores that the flat one agrees with |
| `TransactorMarks.IndexKept` | core/src/edb.rs:182-182 | A transaction that the indexes accept leaves unique values unique and marks its rows by their attribute |
| `TransactorMarks.RunIndexed` | core/src/edb.rs:182-182 | Hence every table of every run of accepted transactions has unique values, with nothing assumed of the states |
| `CacheRun.TableIsLawful` | core/src/edb.rs:163-182 | The table's invariant and its index over unique values give the cardinality and uniqueness the cache relies on |
| `CacheRun.CommitKeepsForm` | core/src/cache.rs:1550-1582 | Committing one transaction's update keeps the flags, and entries only where flags are |
| `CacheRun.CacheFollowsRunIff` | core/src/tx.rs:784-824 | For every run of accepted transactions fed through the watcher, from any state in which the cache is in step, the cache committed after each one answers all four kinds of lookup as a scan of the fact table if and only if every transaction is followed |
| `CacheRun.CacheFollowsFromEmptyIff` | core/src/tx.rs:784-824 | A cache without values, fed from the first transaction on, follows the fact table through the whole run if and only if every transaction is followed |
| `RangeIndex.Collector.constructor` | causetq/src/properties.rs:326-332 | Starts with no points and zero offsets |
| `RangeIndex.Collector.Add` | causetq/src/properties.rs:349-367 | An entry that counts moves the offsets by its weight, and a point is taken for the first key or at either distance; which entries count and what they weigh is `CountedScans` |
| `RangeIndex.Collector.Finish` | causetq/src/properties.rs:369-375 | A last point is taken unless the last item has one |
| `RangeIndex.StreamIsAccurate` | causetq/src/properties.rs:349-367 | For every stream of ascending counted keys and at every key, the last point lags the true totals by less than the distances |
| `RangeIndex.FinishedStream` | causetq/src/properties.rs:369-375 | The finished points ascend, never decrease, are accurate everywhere and end with the grand total |
| `RangeIndex.CountedScans` | causetq/src/properties.rs:27-36 | What the collector adds up for any stream is a scan of it: one key for each value put in place and each blob index that decodes, and for its size the key, the value and the blob it points to |
| `RangeIndex.PointsFollowScan` | causetq/src/properties.rs:349-375 | The points of a finished stream of entries ascend, never decrease, end with the totals of a scan, and at every key lag a scan up to that key by less than the distances |
| `RangeIndex.StreamIsSparse` | causetq/src/properties.rs:349-367 | The first counted entry gives the first point; a further one follows only at one of the distances, but for the point that finishing takes and after a point at the empty key |
| `RangeIndex.BinarySearch` | causetq/src/properties.rs:207-207 | Finds the key, or the index where it belongs |
| `RangeIndex.OffsetAt` | causetq/src/properties.rs:207-216 | The offset at a key is that of the last point at or before it, zero before the first |
| `RangeIndex.ApproximateDistance` | causetq/src/properties.rs:197-236 | The estimate is the difference of the offsets at the two ends, and the inversion panic cannot be reached |
| `RangeIndex.EstimateBound` | causetq/src/properties.rs:197-236 | The estimate of keys or bytes in a range differs from a naive scan by less than the index distance, and is exact for distance zero |
| `RangeIndex.CollectAndEstimate` | causetq/src/properties.rs:197-375 | Collecting any ascending stream of entries, finishing it and estimating any range gives an answer within the distance of a scan of the entries in that range |
| `RangeIndex.TakeExcludedRange` | causetq/src/properties.rs:239-280 | The points cut out between two binary searches are exactly those with start < key < end |
| `RangeCodec.UintRoundTrip` | edb/edbn/einsteindb_util/src/codec/number.rs:59-61 | A number that fits the width is decoded from its big-endian bytes |
| `RangeCodec.UintCanonical` | edb/edbn/einsteindb_util/src/codec/number.rs:152-180 | Every byte string of the width is the encoding of what it decodes to |
| `RangeCodec.UintOrder` | edb/edbn/einsteindb_util/src/codec/number.rs:59-61 | Encoded numbers compare as bytes in the order of the numbers |
| `RangeCodec.RecordsRoundTrip` | causetq/src/properties.rs:153-187 | A buffer decodes to a list of records if and only if it is that list encoded |
| `RangeCodec.RecordLayout` | causetq/src/properties.rs:153-160 | A record is eight bytes of key length, the key, and eight bytes for each of its numbers, in this order |
| `RangeCodec.RangeLayout` | causetq/src/properties.rs:153-160 | Range properties are one buffer under one name, point after point: key, size and number of keys |
| `RangeCodec.SizeLayout` | causetq/src/properties.rs:45-52 | Size properties are the total and the handles under a name each; a handle is its key, its size and its offset |
| `RangeCodec.EncodeBuffer` | causetq/src/properties.rs:153-160 | The loop appends every record |
| `RangeCodec.DecodeBuffer` | causetq/src/properties.rs:174-187 | The loop yields the records of the buffer, or the error of the first one cut short |
| `RangeCodec.HandlesRoundTrip` | edb/properties.rs:45-68 | Decoding the encoded handles of a map returns the map |
| `RangeCodec.EncodeHandlesBuffer` | edb/properties.rs:45-54 | The loop over the ordered map appends one record per handle in key order |
| `RangeCodec.DecodeHandlesBuffer` | edb/properties.rs:56-68 | The loop inserts each record, a repeated key keeping its last handle, or returns the error |
| `RangeCodec.RangeRoundTrip` | causetq/src/properties.rs:153-187 | Decoding encoded range properties returns them unchanged |
| `RangeCodec.SizeRoundTrip` | causetq/src/properties.rs:45-59 | Decoding encoded size properties returns them unchanged |
| `RangeCodec.LegacyFallsBack` | causetq/src/properties.rs:166-172 | Properties in the older form fall back to one ascending point per handle, with the handle's offset as its size |
| `RangeSplit.Gather` | causetq/src/range_properties.rs:198-210 | Collects the points of every file strictly inside the range and the sum of the estimated sizes |
| `RangeSplit.EveryNth` | causetq/src/range_properties.rs:258-262 | There are len / n split keys, the i-th at position i * n - 1 |
| `RangeSplit.SplitKeys` | causetq/src/range_properties.rs:185-274 | Fails exactly when there is nothing to split by; otherwise the last of every n sorted candidates, n being the least number that reaches the split size at the average distance, cut at the limit, or without the last when what follows it falls short of the greatest size; all strictly inside the range |
| `RangeSplit.MiddleKey` | causetq/src/range_properties.rs:295-323 | The left one of the two middle points, or none when there are no points |
| `RangeSplit.Thin` | causetq/src/range_properties.rs:350-365 | Every hundredth point strictly inside the range, counted across files |
| `RangeSplit.DedupAscends` | causetq/src/range_properties.rs:384-384 | Removing repeats from a sorted list leaves each member once, strictly ascending |
| `RangeSplit.DivideRange` | causetq/src/range_properties.rs:339-398 | All selected points if they are fewer than the parts, else parts - 1 of them; strictly ascending and strictly inside the range |
| `RangeSplit.DividedEvenly` | causetq/src/range_properties.rs:392-397 | Between neighbouring dividing keys lie the floor or the ceiling of len / parts points |
| `Arithmetic.PartsAreEven` | causetq/src/range_properties.rs:392-396 | Neighbouring boundaries len * i / parts are the floor or the ceiling of len / parts apart |
| `Mvcc.Collector.constructor` | causetq/src/properties.rs:484-493 | Starts with the extreme timestamps and zero counts |
| `Mvcc.Collector.Add` | causetq/src/properties.rs:497-523 | Other entry types are ignored, bad keys counted as errors, and timestamps taken from puts and deletes alike; a put goes on to the version counts |
| `Mvcc.Collector.AddPut` | causetq/src/properties.rs:525-564 | One version updates the row counts, the write counts if its value parses, and the row index at the first version of a row |
| `Mvcc.Collector.Finish` | causetq/src/properties.rs:567-572 | The last handle is inserted if rows are pending |
| `Mvcc.FeedTally` | causetq/src/properties.rs:497-545 | Counts depend on exactly the well-formed puts of the stream; errors are its malformed entries |
| `Mvcc.FeedStamps` | causetq/src/properties.rs:518-519 | The timestamps are the least and greatest of the stream, or the greatest 64-bit number and zero if it has none |
| `Mvcc.RunCounts` | causetq/src/properties.rs:525-534 | Comparing with the last row alone counts the versions of the current row and the distinct rows, but for an empty row that comes first |
| `Mvcc.RunMaximum` | causetq/src/properties.rs:535-537 | The maximum is the greatest number of versions of a row: some row reaches it and none exceeds it |
| `Mvcc.RowsCountedIff` | causetq/src/properties.rs:527-531 | For every stream grouped by row, the row count is the number of distinct rows if and only if the first row is not empty |
| `Mvcc.EmptyRowExample` | causetq/src/properties.rs:487-528 | One version of the empty row counts no row |
| `Mvcc.MergedCounts` | causetq/src/properties.rs:436-444 | Merged properties of two streams without a common row are the row, version, put and delete counts, the greatest number of versions and the least and greatest timestamps of both together |
| `Mvcc.MergedStamps` | causetq/src/properties.rs:437-438 | For any two streams the merged timestamps are the least and greatest of both, or the initial ones if neither has any |
| `Mvcc.MergedWrites` | causetq/src/properties.rs:440-441 | For any two streams the merged put and delete counts are those of both together, and their sum does not exceed the versions |
| `Mvcc.WritesWithinVersions` | causetq/src/properties.rs:539-551 | Puts and deletes together never exceed the versions |
| `Mvcc.FinishedIndex` | causetq/src/properties.rs:554-572 | Handle sizes sum to the number of indexed rows, offsets strictly increase in key order, and each offset is the number of indexed rows up to its key |
| `MvccSpacing.FinishedSpacing` | causetq/src/properties.rs:554-572 | The handles stand at the first indexed row, at every ten-thousandth after it and at the last: their offsets are 1, 10001, 20001 and so on, and finally the number of indexed rows |
| `Mvcc.Summarize` | causetq/src/properties.rs:497-572 | Collecting any stream of ascending nonempty rows yields the row, version, put, delete and error counts of a naive scan, puts and deletes within the versions, and a row index that adds up |
| `SqlPrinter.Builder.PushOperand` | causetq/src/lib.rs:266-311 | An operand's tokens are appended, a function call with its parentheses |
| `SqlPrinter.Builder.Push` | causetq/src/lib.rs:345-425 | A constraint's tokens are appended, 1 for an empty conjunction and 0 for an empty alternation; what they mean is `TreeMeaning` |
| `SqlPrinter.Builder.PushInterposed` | edb/raum/src/lib.rs:228-246 | The separator goes between neighbours and nowhere else |
| `SqlPrinter.Builder.PushWhere` | causetq/src/lib.rs:591-596 | No clause for no constraints, else the keyword and the constraints joined by AND |
| `SqlPrinter.PrimaryReads` | causetq/src/lib.rs:345-425 | Every printed constraint, however nested, is read back as one condition, leaving what follows it |
| `SqlPrinter.TreeMeaning` | causetq/src/lib.rs:369-395 | The condition read back decides in three-valued logic what the constraint means, in every database whose functions and operators do what SQLite's do, the five type names included |
| `SqlPrinter.WherePreservesMeaning` | causetq/src/lib.rs:591-596 | For every list of constraints and every such database, the printed clause is read back whole, with AND binding tighter than OR, and decides the conjunction of the list; a type check decides whether the value has the affinity |
| `SqlValues.ChunksCover` | causetq/src/lib.rs:522-525 | Cutting values into rows loses nothing and makes no empty row |
| `SqlValues.ChunksFullIff` | causetq/src/lib.rs:207-213 | Every row is full if and only if the width divides the number of values |
| `SqlValues.ValuesReadIff` | causetq/src/lib.rs:500-539 | With or without column names, the printed statement is read back as those names and full rows, in order, if and only if there is a value and the width divides their number |
| `SqlValues.RaggedExample` | causetq/src/lib.rs:208-209 | One value printed at width two is not read back as a table |
| `SqlValues.HeaderReads` | causetq/src/lib.rs:512-520 | The naming SELECT is read back as the column names in order |
| `SqlValues.Push` | causetq/src/lib.rs:500-539 | The header if there are names, then the keyword and the rows, comma separated |
| `RangeDelete.Least` | edb/iterable.rs:10-13 | The iterator stands at the least key of its snapshot still ahead |
| `RangeDelete.ApplyDeletes` | edb/misc.rs:76-85 | A batch of single deletions removes exactly the keys it names and has one entry for each |
| `RangeDelete.SameContents` | edb/misc.rs:63-86 | Deleting the keys found in a range and deleting the range give the same contents |
| `RangeDelete.Engine.DeleteOneByOne` | edb/misc.rs:66-86 | While batches are written under the open snapshot, each key is deleted once; every batch written holds exactly 512 deletions and fewer are left over |
| `RangeDelete.Engine.DeleteInFamily` | edb/misc.rs:55-93 | A family loses exactly its keys in the range, by one range deletion or in batches of 512 and a last one that is not empty; the lock family is always iterated |
| `RangeDelete.Engine.DeleteAll` | edb/misc.rs:38-53 | Every family loses exactly its keys k with start <= k < end in byte order and nothing else changes, in either mode; an empty range changes nothing |
| `Tracker.RequestTracker.constructor` | interlock/tracker.rs:71-91 | Starts initialized with no time spent |
| `Tracker.RequestTracker.OnScheduled` | interlock/tracker.rs:93-98 | The schedule wait is the time since the request began |
| `Tracker.RequestTracker.OnSnapshotFinished` | interlock/tracker.rs:100-109 | The snapshot wait runs from scheduling, the total wait from the beginning |
| `Tracker.RequestTracker.OnBeginAllItems` | interlock/tracker.rs:111-119 | The build time runs from the snapshot |
| `Tracker.RequestTracker.OnBeginItem` | interlock/tracker.rs:121-129 | The item's clock and counters start |
| `Tracker.RequestTracker.OnFinishItem` | interlock/tracker.rs:131-145 | The item's time, statistics and counters are added up, the counters at most once |
| `Tracker.RequestTracker.OnFinishAllItems` | interlock/tracker.rs:197-205 | The lifetime is set and the request reported |
| `Tracker.RequestTracker.Track` | interlock/tracker.rs:207-335 | Reports and becomes tracked exactly from the finished stage, and otherwise does nothing |
| `Tracker.RequestTracker.Drop` | interlock/tracker.rs:338-360 | Goes through the missing stages in order, each if it applies |
| `Tracker.StepKeeps` | interlock/tracker.rs:93-205 | From a consistent state every event its stage allows can happen under a clock that does not go back, and leads to a consistent state |
| `Tracker.StatisticsKept` | interlock/tracker.rs:131-210 | Along every run, statistics given with finished items or collected are either reported or still held, none lost or counted twice |
| `Tracker.ForwardTracks` | interlock/tracker.rs:338-360 | From every consistent state a drop ends tracked, without touching a tracker that already is |
| `Tracker.ReportedOnce` | interlock/tracker.rs:93-360 | Every run dropped at any point makes exactly one report, with wait = schedule + snapshot wait and wait + build + item time within the lifetime; it holds all statistics given if and only if none was collected after the report |
| `TrackerTimes.RunTimes` | interlock/tracker.rs:93-205 | After every run each time shown is the span between two readings of the run: schedule, snapshot, wait, build and lifetime between the events that bound them, item time and counters summed over the finished items |
| `TrackerTimes.RunsIffOrderly` | interlock/tracker.rs:93-205 | The tracker goes through a run without panic if and only if every event comes in its time: each milestone once and after the one before, items one at a time between the beginning and the end of all |
| `TrackerTimes.ReportTimes` | interlock/tracker.rs:197-360 | The one report of a run dropped at any point carries exactly the spans of the run, the missing milestones taken at the readings of the drop |
| `Tracker.CollectedLateExample` | interlock/tracker.rs:147-149 | Statistics collected once the request is tracked are in no report |

## Left out

- SQLite, rusqlite and the storage engine: only the relational meaning of the statements and the
  contents of the engine are modelled; their failures other than unique indexes are not.
- Fulltext searches and virtual tables (core/src/edb.rs:888-1000): a value is opaque.
- The upsert resolver, temporary ids and schema alteration of the transaction driver.
- Timelines other than the main one: a rewound transaction's log rows are not followed to their new
  timeline.
- Commit into a destination that someone else is reading: the code ends in `unimplemented!`.
- Caching for chosen entities and attributes (core/src/cache.rs:953-1112): it reuses the accumulation
  that is modelled.
- Quoting of identifiers, bind parameters, projections, FROM, GROUP BY, ORDER BY and LIMIT of the SQL
  builder: plain concatenation around the WHERE clause.
- Key-only iteration, file deletion and flushing of the range deletion.
- Error returns of storage engine calls inside range deletion: a failed write is not modelled.
- Choosing between the default and the write family by size (core part of the middle and divide
  operations): one comparison.
- Slow-query logging and the many metrics of a report: one report record stands for them.
- Configuration, options, metrics, read pools, checksums, aggregates and the add/retract/alter set.
- TakeRow: the `attr` field of a sub-cache is not modelled; it always has its default value, so the
  assertion on it cannot fail.
- InsertSearches: the split of search rows into statements that respect the variable limit is not
  modelled here; it is the chunking that `ChunksFitIff` describes, with six variables a row.
