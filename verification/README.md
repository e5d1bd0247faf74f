# FASTMEM in Dafny

A Dafny model of FASTMEM, an in-memory MariaDB storage engine whose row store has
no table lock: rows live in fixed slots, hash indexes are intrusive chains through
per-slot cells, readers copy rows under a seqlock, and writers serialise on slot,
bucket and structure spinlocks. The project models the concurrency core, the
handler's read-modify-write protocol, the key hashing the index rests on and the
auto-increment counter, and proves what they keep over all inputs, all runs and
all interleavings.

## Layers

| files | what they hold |
|---|---|
| `Keys`, `Chain`, `LockOrder`, `LockSet` | key callbacks and their contract, pointer chains, lock ranks, the lock list of an update |
| `Table`, `Operations`, `TableRuns` | the store between operations as values; each whole operation and its meaning for a map from slots to rows; runs of operations |
| `LockArray`, `Store` | the store as a class: cells, freelist, slots and locks updated in place by the loops of the core, each method proved against `Operations` |
| `Handler` | a handler over the store: row lock, re-read, update, delete, statement boundaries, with other sessions' operations in between |
| `Protocol` ... `ProtocolTheorems`, `ProtocolUnique`, `ProtocolRace`, `ProtocolCalls`, `ProtocolOutcomes` | inserts, lookups, locked updates and deletes of any number of threads as a transition system, chunk growth included; its inductive invariant and what follows, unique keys among it; what each call gets, from the call to its end |
| `Seqlock` | the lock-free read, one byte per step, against updates, deletes and recycling inserts of its slot |
| `LockPrograms`, `LockSkeletons` | threads that take locks by climbing programs never get stuck; the acts of every operation, and which rank they climb in |
| `AutoInc` | the 64-bit reservation arithmetic and its compare-and-swap loops |
| `KeyHash` | hashing, comparing and packing keys over arbitrary segment lists |

Deadlock freedom comes in two families. `Store` records every lock taken and given
back, and each operation's contract says that what it adds to this trail is its
skeleton from `LockSkeletons`. The skeletons of the core family climb in the rank
struct_mutex, buckets, wlocks, those of the handler family in wlock, struct_mutex,
buckets; so any number of threads, each with any sequence of operations of one family,
interleaved in any way, are never stuck (`CoreNeverStuck`, `HandlerNeverStuck`). For
the handler family `ProtocolTheorems` proves it again on the interleaved steps
themselves.

Concurrency is sequentially consistent. Memory for a chunk may or may not be
available (`mem`). The 32-bit generation and sequence counters are remainders of
unbounded counts, so wrap-around appears as an explicit condition.

## What the proofs found

Where an expected property fails, a lemma or a contract shows the failure, and another
one says when the code does meet it.

- The row limit does not survive `clear`: it puts every slot of every chunk on the
  freelist, also those beyond `max_records`. A single clear keeps the limit if and
  only if no slot lies beyond it (`ClearBounded`). Some run exceeds the limit if and only
  if the limit does not fill whole chunks and there are that many records and one more of
  which no two are equal under a unique key (`LimitIff`); runs without clears never do
  (`RowLimit`).
- `clear` takes a slot lock under struct_mutex; a handler's delete, or its insert while it
  holds a row lock, takes struct_mutex under a slot lock. No rank orders both, and they do
  get stuck, although the header of the core says that concurrent writers cannot deadlock
  (`ClearAndHandler`, `ClearMeetsHandler`). Clears and handlers in any number and any mix
  are never stuck if and only if no handler needs struct_mutex under the lock of a row that
  clear goes through (`ClearBesideHandlers`).
- A read that straddles a delete and a recycling insert can return any mix of the two
  rows, even with the generation check (`TornAcrossRecycle`), and so can one that
  straddles 2^31 updates (`TornAcrossWrap`). Otherwise it cannot, also if the row is
  deleted and freed meanwhile (`TearFree`, `TearFreeWithoutRecycle`).
- Auto-increment can report overflow although the next value fits, when the rounding
  addition wraps (`SpuriousOverflow`), and does not notice a span of 2^64 (`UnnoticedWrap`);
  `AttemptExact` says exactly when an attempt succeeds and with what. With an
  increment of 1 the offset is ignored.
- The comparison of a record with a packed key skips one byte too many after an
  uneven BIT value, so it agrees with the hash if and only if such a segment comes
  last (`WalksAgree`); otherwise a record can match a key with another hash, and the
  index misses it (`UnevenBitBreaks`).
- Packing a VARCHAR key copies the length prefix of the column, and every reader of a
  packed key takes two bytes for it. With a one-byte prefix a record does not match its
  own packed key, whatever the other segments are (`OneByteLengthLost`), unless the value
  is all zeros (`VarPacksExactly`); find_unique_row packs its key this way.
- An update whose old record does not carry the row's present keys ruins the index: the
  unlink misses, the link writes its cells all the same, and they then spell no chains at
  all (`LinkTwice`). `CellsSoundIff` and the contract of `UpdateRow` give the exact
  condition. An accepted update does not look at the image it replaces (`LostUpdate`);
  release builds open handles without the read check that would, and update_row then
  locks late without reading again.
- An insert that meets a duplicate always reports key number 0, because the test of the
  rollback loop decrements its counter once more and wraps it (`UnlinkKeys`,
  `InsertRow`).
- When the current row has left its chain, find_next finds nothing; its comment says
  it would start over (`FindNext`).
- A unique key can be broken by an insert that overlaps a key-changing update for an
  equal key: the insert links its row before it is ACTIVE and lets go of the bucket, the
  update's check skips rows that are not ACTIVE, and both commit (`DuplicateRows`). The
  header of the core says violations are detected atomically per bucket. Without such an
  overlap every interleaving keeps rows unique, racing inserts and racing updates
  included (`UniqueRows`), and with one, committing both breaks it (`OverlapDecides`).
- The generation moves on deletes and clears only; the comment on the slot layout
  also names the recycle. A locked re-read adopts whatever generation the slot has.

## Model

| member | source | states |
|---|---|---|
| Keys.SameHome | fm_core.h:165-176 | records that compare equal share bucket and duplicate-check status |
| Keys.MaskIsRemainder | fm_core.h:260-263 | masking with nbuckets - 1 is the remainder for powers of two |
| Keys.HomeIsMasked | fm_core.h:260-263 | the bucket of a record and of a packed key is the hash masked with nbuckets - 1 |
| Chain.UnlinkKeeps | fm_core.h:486-501 | one cell write takes a slot out of its chain, keeps every chain finite, repeat-free and apart, and leaves the slot in no chain |
| Chain.RemoveContent | fm_core.h:486-501 | what remains of a chain is exactly the other slots, without repeats |
| Chain.LinkTwice | fm_core.h:505-511 | after linking a slot that is still in a chain of the key, the cells represent no chains whatever |
| LockSet.LocksContent | fm_core.h:735-763 | the lock list is strictly ascending and is exactly the old and new buckets of the changed keys, at most two per key |
| LockArray.ChangedKeys | fm_core.h:712-719 | the loop collects exactly the keys whose columns differ, ascending |
| LockArray.Collect | fm_core.h:737-755 | the array holds exactly the old and new buckets of the changed keys and stays within its bounds |
| LockArray.Sort | fm_core.h:756-768 | insertion sort: sorted, and a permutation |
| LockArray.SkipIsLocks | fm_core.h:769-775 | skipping adjacent duplicates of the sorted array leaves the lock list itself |
| LockArray.Prepare | fm_core.h:735-768 | collection and sort together give an array whose run openers are the lock list |
| Table.BreaksExactly | fm_core.h:602-620 | a duplicate is exactly what would end uniqueness if stored |
| Table.LookupComplete | fm_core.h:537-558 | the bucket of a key holds every matching row exactly once: hash lookup and full scan agree |
| Table.DupIsBreak | fm_core.h:602-620 | the bucket-local duplicate check sees every row the record would collide with |
| Table.HitsAfter | fm_core.h:565-590 | continuing after a hit reports exactly the hits that follow it |
| Table.AfterIs | fm_core.h:565-590 | nothing follows a slot that is not in the chain, and the rest of the chain one that is |
| Operations.AllocateKeeps | fm_core.h:395-477 | allocation gives the first slot of the freelist, or the first of a fresh chunk, whose other slots below the row limit become the freelist; it keeps every row, and fails exactly when the freelist is empty and the chunks or the memory are used up |
| Operations.InsertRefines | fm_core.h:626-676 | insert adds exactly one row; the four results are characterised by room, memory and uniqueness; otherwise rows and chains are as before |
| Operations.FailedInsert | fm_core.h:641-665 | a refused insert changes nothing, or only the image of the one slot it had, which ends at the head of the freelist: the old freelist, or all of a fresh chunk |
| Operations.UpdateRefines | fm_core.h:702-950 | update overwrites exactly one row; refused exactly when stale or when uniqueness would break, then changing nothing; names an offending key; both variants agree on current references |
| Operations.StaleUpdate | fm_core.h:777-812 | with a stale reference a locked update reports the row gone; the other one reports a duplicate under a changed key first, and otherwise the row gone |
| Operations.NullsAccepted | fm_core.h:606-608 | a record with a NULL part under every unique key is never refused as a duplicate, by insert or update |
| Operations.CellsSoundIff | fm_core.h:815-826 | after an accepted update the cells lead to every row in its bucket and to nothing else, under every key, if and only if the old record hashes to the buckets the slot is chained in |
| TableRuns.LostUpdate | fm_core.h:852-876 | from any state of any run, an update with a current reference writes over a row whatever old image it passes, if that has the row's keys and the new one breaks no uniqueness |
| Operations.ChangedKeysDecide | fm_core.h:777-795 | checking only the changed keys decides uniqueness under all keys |
| Operations.DeleteRefines | fm_core.h:961-995 | delete removes exactly one row and moves its generation on, or, stale, does nothing |
| Operations.ClearRefines | fm_core.h:1047-1079 | clear leaves no row, every slot free with a new generation |
| TableRuns.RunSound | fm_core.h:626-1079 | over every run of whole operations: the representation holds and unique keys are unique |
| TableRuns.ApplyRefines | fm_core.h:626-1079 | what each whole operation does to the map of rows, and when it does nothing |
| TableRuns.RunEven | fm_core.h:680-686 | between operations every seq counter is even |
| TableRuns.RowLimit | fm_core.h:443-470 | rows never exceed the chunks' capacity, and never the row limit without clears or when the limit fills whole chunks |
| TableRuns.ClearBounded | fm_core.h:1071-1076 | clear keeps the row limit if and only if no slot lies beyond it |
| TableRuns.LimitExceeded | fm_core.h:1071-1076 | for every limit that does not fill whole chunks and any records that fit together, a run that exceeds it with them |
| TableRuns.LimitIff | fm_core.h:443-470 | some run exceeds the row limit if and only if the limit does not fill whole chunks and one record more than the limit can be found of which no two are equal under a unique key |
| TableRuns.StaleReferences | fm_core.h:376-378 | a reference is accepted later if and only if the same lifetime has lasted all the while |
| Store.Store.constructor | fm_core.h:281-323 | an empty store, with the defaults for zero limits |
| Store.Store.ChainUnlink | fm_core.h:486-501 | the walk removes the slot from the chain as a sequence and reports whether it was there |
| Store.Store.ChainLink | fm_core.h:505-511 | the two cell writes; the slot becomes the first of its chain if it was in none |
| Store.Store.GrowChunk | fm_core.h:395-439 | a chunk of blank slots, or the right error |
| Store.Store.AllocSlot | fm_core.h:443-470 | the allocation function, with the freelist order |
| Store.Store.FreeSlot | fm_core.h:473-477 | the slot becomes the first of the freelist |
| Store.Store.ReadRow | fm_core.h:367-388 | OK exactly for an ACTIVE slot of the expected generation, with its image |
| Store.Store.ScanNext | fm_core.h:522-533 | the first ACTIVE slot at or after the position |
| Store.Store.Find | fm_core.h:537-558 | the first hit of the chain, bucket lock taken and given back |
| Store.Store.FindRow | fm_core.h:537-558 | found exactly when some ACTIVE row matches |
| Store.Store.FindNext | fm_core.h:565-590 | the first hit after the given slot, nothing if that slot has left the chain |
| Store.Store.UnlinkKeys | fm_core.h:653-660 | the rollback loop restores the chains and leaves its 32-bit counter at the value whose successor is 0 |
| Store.Store.EnumerateKey | fm_core.h:537-590 | find and repeated find_next report every row with the key exactly once and stop |
| Store.Store.EnumerateAll | fm_core.h:522-533 | repeated scan_next reports every row exactly once, `records` of them |
| Store.Store.DupCheck | fm_core.h:602-620 | the chain walk is the duplicate test, which spares keys that are not unique and records with a NULL part |
| Store.Store.InsertRow | fm_core.h:626-676 | refines the insert operation, rollback and reported key number included; the locks are those of its skeleton; no ACTIVE slot touched |
| Store.Store.AcquireAll | fm_core.h:769-775 | takes each lock once, in ascending order |
| Store.Store.ReleaseAll | fm_core.h:827-833 | gives exactly that set back, in reverse order |
| Store.Store.UpdateRow | fm_core.h:702-835 | for every old record: result, rows and cells, key by key; the cells still lead to exactly the rows, and the chains are those of the update operation, if and only if the old record was good enough; locks by its skeleton on every path |
| Store.Store.UpdateRowLocked | fm_core.h:843-950 | the same under a wlock the caller keeps |
| Store.Store.DeleteRow | fm_core.h:961-995 | refines the delete operation, locks by its skeleton |
| Store.Store.DeleteRowLocked | fm_core.h:1003-1034 | the same under a wlock the caller keeps |
| Store.Store.Clear | fm_core.h:1047-1079 | refines the clear operation, locks by its skeleton |
| LockOrder.NoCycle | fm_core.h:630-673 | waiting threads that all climb in one rank cannot wait for each other in a cycle |
| LockPrograms.NeverStuck | fm_core.h:769-833 | in every interleaving of climbing lock programs all have finished or one can go on |
| LockSkeletons.CoreReturns | fm_core.h:626-1079 | the acts of insert, update, delete, find and clear climb in the core rank and give everything back |
| LockSkeletons.CoreNeverStuck | fm_core.h:626-1079 | any mix of core operations on any number of threads is never stuck, in any interleaving |
| LockSkeletons.StretchReturns | fm_core.h:843-1034 | what a handler does with or without a row lock climbs in the handler rank |
| LockSkeletons.HandlerNeverStuck | fm_core.h:843-1034 | any mix of handler operations, one handler per thread, is never stuck |
| LockSkeletons.ClearAndHandler | fm_core.h:1047-1066 | no rank orders a clear and a handler that inserts or deletes under a row lock |
| LockSkeletons.ClearMeetsHandler | fm_core.h:1030-1066 | for every table and every such handler, an interleaving of the two in which both are stuck |
| LockSkeletons.ClearBesideHandlers | fm_core.h:1047-1066 | of all mixes of clears and handlers on any number of threads none ever gets stuck, if and only if no handler takes struct_mutex under the lock of a row that clear goes through |
| ProtocolRuns.StepIsGood | fm_core.h:626-1034 | every step of every thread keeps the invariant and touches nothing another thread may rely on |
| ProtocolTheorems.ConcurrentIndex | fm_core.h:626-676 | in every interleaving every bucket is a finite, repeat-free chain, no slot is in two buckets of a key, and an ACTIVE slot with a free wlock is in exactly the bucket of its image under every key |
| ProtocolTheorems.LockStability | ha_fastmem.cc:95-108 | while a handler holds the wlock of an ACTIVE slot nobody else changes its state, generation, image or chain membership |
| ProtocolTheorems.RowAccounting | ha_fastmem.cc:95-117 | a handler owns exactly the wlock it has recorded, in every interleaving |
| ProtocolTheorems.NoDeadlock | fm_core.h:843-950 | no reachable state of the handler family has a group of threads waiting for each other |
| ProtocolTheorems.Progress | fm_core.h:904-1034 | whenever a call is running, some call can take a step or waits for a row whose handler is idle |
| ProtocolTheorems.JobsStartFresh | fm_data.cc:191-226 | an update or delete that gets past its tests has the slot's present image as its old record |
| ProtocolTheorems.WritesChain | fm_core.h:866-870 | the committed writes of a lifetime form one chain from the inserted to the present image |
| ProtocolCalls.PutEnds | ha_fastmem.cc:206-228 | an update from the call to its end: at some step its row had the image the handler was given and got the one it was called with, or it was refused, the row being gone or another one, or the new image a duplicate without NULL parts |
| ProtocolCalls.NoLostUpdates | ha_fastmem.cc:206-246 | if every update that handlers are called for on a slot adds 1, the row's number has grown by exactly the number of commits |
| ProtocolOutcomes.InsertEnds | fm_core.h:626-676 | an insert from the call to its end: at some step a slot turned ACTIVE with the record of the call, or there was no slot to be had, or the record was a duplicate without NULL parts |
| ProtocolOutcomes.EraseEnds | ha_fastmem.cc:230-246 | a delete from the call to its end: at some step the row was taken away, and its generation has moved on since, or it was gone or another one |
| ProtocolOutcomes.LockEnds | fm_data.cc:96-105 | a row lock from the call to its end: the wlock of the slot of the call with the row's present image, or none, the slot not having been ACTIVE |
| ProtocolOutcomes.LookupEnds | fm_core.h:537-558 | a lookup from the call to its end: the slot found showed a row with the key; and with none found, no slot showed one all the while with nobody else at work on it |
| ProtocolUnique.UniqueRows | fm_core.h:643-673 | no interleaving leaves two equal rows under a unique key unless an insert and an update look for equal keys at the same time |
| ProtocolUnique.OverlapDecides | fm_core.h:904-948 | with both about to commit, rows stay unique if and only if their keys do not overlap |
| ProtocolRace.DuplicateRows | fm_core.h:666-671 | a run of an insert and a key-changing update that ends with all handlers idle, no lock held and two equal rows under a unique key |
| Seqlock.StepKeepsInv | fm_core.h:680-686 | every step keeps: an even counter means the bytes are the published image, unless an insert has been at them |
| Seqlock.TearFree | fm_core.h:367-388 | an OK read returns the content that was published throughout, from its first to its second counter load, if at no time in between the bytes were those of an unpublished insert and the counter did not go round |
| Seqlock.TearFreeWithoutRecycle | fm_core.h:367-388 | the same for a read that found the slot ACTIVE, if nobody takes the slot off the freelist before its second counter load; updates, deletes and frees may happen |
| Seqlock.ReadEnds | fm_core.h:367-388 | a read called for with a generation that comes back with an image found the slot ACTIVE and then of that generation, before its last attempt |
| Seqlock.UpdateEnds | fm_core.h:680-686 | an update publishes the image it was called with, whole, or finds the slot not ACTIVE |
| Seqlock.InsertEnds | fm_core.h:638-671 | an insert publishes the record it was called with, whole, or gives its slot back |
| Seqlock.TornAcrossRecycle | fm_core.h:638-639 | for any two rows and any part of their bytes, a run with a recycle in which a checked read returns that part of the one and the rest of the other |
| Seqlock.TornAcrossWrap | fm_core.h:383-387 | the same without any recycle, after 2^31 updates |
| AutoInc.AttemptExact | fm_core.h:1100-1139 | for all inputs: when an attempt succeeds, the value it hands out and the counter it leaves |
| AutoInc.ReserveCorrect | fm_core.h:1100-1139 | with a span below 2^64 the result is the least element of the series above the counter, and 0 exactly when the interval does not fit or the rounding addition wraps |
| AutoInc.FallbackIsDead | fm_core.h:1119-1129 | attempts are the same without the second rounding |
| AutoInc.NeverDecreases | fm_core.h:1144-1153 | over every interleaving the counter never decreases |
| AutoInc.Disjoint | fm_core.h:1131-1139 | every value handed out exceeds every value observed or handed out before |
| AutoInc.CallEnds | fm_core.h:1100-1153 | in every interleaving: observing or setting leaves the counter at the greater of itself and the value of the call; a reservation takes what an attempt with the offset, increment and count of the call gives on the counter, zero read as one, or nothing |
| AutoInc.ObservedIsPast | fm_core.h:1144-1153 | once a call to observe a value is back, every value handed out later exceeds it |
| AutoInc.Alone | fm_core.h:1100-1153 | what each call leaves of the counter when no other thread is at work |
| AutoInc.SpuriousOverflow | fm_core.h:1113-1118 | a refusal although the next value fits |
| AutoInc.UnnoticedWrap | fm_core.h:1131-1133 | two reservations that share a value, with a span of 2^64 |
| KeyHash.RecHash | fm_hash.cc:93-155 | the segment loop computes the record hash |
| KeyHash.PackedHash | fm_hash.cc:31-90 | the segment loop computes the packed-key hash |
| KeyHash.CompareRecs | fm_hash.cc:160-254 | the segment loop decides record equality |
| KeyHash.SameMeans | fm_hash.cc:160-254 | records are the same under a key if and only if on every column they are both NULL, or neither is and bytes, odd bits or collated texts agree |
| KeyHash.OnlyColumnsMatter | fm_hash.cc:160-254 | records that agree on the bytes of their columns and NULL bits are the same |
| KeyHash.BitsAre | fm_hash.cc:137-147 | the odd bits of an uneven BIT column are those of the record, place by place |
| KeyHash.CompareKey | fm_hash.cc:257-348 | the segment loop decides whether a record matches a packed key |
| KeyHash.MatchMeans | fm_hash.cc:257-348 | a record matches a packed key if and only if NULL marker and value of every column agree, at the places the comparison looks for them |
| KeyHash.NullInKey | fm_hash.cc:350-360 | whether any part is NULL |
| KeyHash.NullMeans | fm_hash.cc:350-360 | a record has a NULL part if and only if some column's NULL bit is set in it |
| KeyHash.RecHashMeans | fm_hash.cc:93-155 | the hash of a record is the hash over its columns as the record has them: NULL, collated text, odd bits and bytes |
| KeyHash.KeyHashMeans | fm_hash.cc:31-90 | and that of a packed key the hash over its columns, at the places the hash function looks for them |
| KeyHash.RecHashPlain | fm_hash.cc:93-155 | over columns of plain bytes it is the byte hasher run over the columns |
| KeyHash.KeyHashPlain | fm_hash.cc:31-90 | and for a packed key the hasher run over the key itself |
| KeyHash.SameHash | fm_hash.cc:93-254 | equal records hash equal, for every segment list |
| KeyHash.MatchHash | fm_hash.cc:31-348 | a record that matches a packed key hashes like it, uneven BIT last |
| KeyHash.OpsContract | fm_hash.cc:399-413 | the callbacks meet the contract the index relies on |
| KeyHash.WalksAgree | fm_hash.cc:260-343 | hash and comparison read every segment at the same place if and only if an uneven BIT comes last |
| KeyHash.UnevenBitBreaks | fm_hash.cc:329-343 | for every list of byte segments with an uneven BIT before a segment of positive length, a hasher, a record and a key that match with different hashes |
| KeyHash.MakeKey | fm_hash.cc:421-449 | the packed form of a record's key |
| KeyHash.VarPacksExactly | fm_hash.cc:421-449 | for a key of one VARCHAR column with bytewise comparison: a record matches its own packed key if and only if the value fits the segment and, with a one-byte length, is followed by and made of zeros |
| KeyHash.OneByteLengthLost | fm_hash.cc:438-439 | a VARCHAR with a one-byte length and a first byte other than zero, in any segment behind ones that pack well: the record does not match its own packed key |
| KeyHash.PackRoundTrip | fm_hash.cc:421-449 | a record matches its own packed key, which leads to its own hash |
| Handler.Handler.LockCurrentRow | ha_fastmem.cc:95-108 | the handler ends up with exactly the current row's wlock |
| Handler.Handler.UnlockCurrentRow | ha_fastmem.cc:110-117 | and here with none |
| Handler.Handler.LockAndReread | fm_data.cc:96-105 | under the lock the server gets the row's present image and generation; it works exactly if the slot is ACTIVE then, and otherwise no lock is kept |
| Handler.Handler.IndexRead | ha_fastmem.cc:259-280 | the row it ends up with matched when it was looked up; a write statement has it locked and current, and fails only if none matched or it was gone when locked; undisturbed, or reading, found exactly when a row matches; the key is kept for index_next where the engine keeps it |
| Handler.Handler.IndexNext | ha_fastmem.cc:322-342 | the first row that follows in the index, end of file exactly when none does; locked and current in a write statement |
| Handler.Handler.RndInit | ha_fastmem.cc:363-371 | a new scan drops the row lock |
| Handler.Handler.RndNext | ha_fastmem.cc:373-389 | the first ACTIVE slot from the scan position on, with its image, end of file exactly when there is none |
| Handler.Handler.RndPos | ha_fastmem.cc:391-407 | a stale reference is refused without any effect, a current one gives the row |
| Handler.Handler.WriteRow | ha_fastmem.cc:194-204 | the insert operation and the new current row; row lock untouched |
| Handler.Handler.UpdateRow | ha_fastmem.cc:206-228 | no lock is kept whatever happens; the result for every state of lock, read check and row, and what is written over what; the cells of the index still lead to exactly the rows afterwards if and only if the old record was good enough |
| Handler.Handler.DeleteRow | ha_fastmem.cc:230-246 | no lock is kept; the result for every state of lock, read check and row; exactly the current row is deleted, from the table as it was under the lock |
| Handler.Handler.Reset | ha_fastmem.cc:459-463 | no lock is kept |
| Handler.Handler.ExternalLock | ha_fastmem.h:88-109 | sets the statement kind; unlocking keeps no row lock |
| Handler.Handler.DeleteAllRows | ha_fastmem.cc:465-469 | the clear operation; a handler that holds a row lock never comes back |
| Handler.Handler.Others | ha_fastmem.cc:95-108 | whole operations of other sessions, one after the other, leave a locked ACTIVE row as it is |
| Handler.Handler.ReadModifyWrite | ha_fastmem.cc:206-280 | the row written matched the key at the lookup, and the image a cycle started from is the row's image when its result is written, whatever other sessions do; undisturbed, the outcome is the update operation's |

## Left out

- Weak memory ordering: the steps are sequentially consistent.
- Raw allocation, byte layout and pointer casts: sequences and indices instead; a failed allocation is a parameter.
- Charset routines and the byte hasher of the server: uninterpreted, with collation equality an equivalence that implies equal hashes.
- Store.Store.ReadRow: the copy is one atomic read here; the byte-wise copy with its retries is module Seqlock.
- Handler.Handler.WriteRow: observing the auto-increment column of an inserted row is left to module AutoInc.
- UnevenBitBreaks: stated for lists of byte segments; a character set may hash different states alike and hide the difference.
- VarPacksExactly: the equivalence is for a key of one column that is not nullable; OneByteLengthLost has its failing half for all keys.
- PackRoundTrip: stated for single-byte character sets, two-byte VARCHAR lengths and values no longer than the segment; VarPacksExactly shows the lengths are needed, and multi-byte texts shorter than their segment shift what follows them.
- TearFree: one slot at a time, without clear, which would have to be quiescent.
- The protocol has the handler's operations only; update_row and delete_row without a kept lock, and clear, are modelled as whole operations.
- find_unique_row: it is a lookup with a packed key and adds nothing to IndexRead.
- The share registry, table creation, statistics, optimizer costs and error-code plumbing: no state worth proving.
- HA_EXTRA_CHANGE_KEY_TO_UNIQUE and its converse: they flip uniqueness without looking at the rows.
- Decoding of auto-increment columns: observe starts from the 64-bit value.
- Starvation: the spinlocks give no fairness.
