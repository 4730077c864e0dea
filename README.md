# Usage-metrics synchroniser (rgw::UsageMetrics), modelled in Dafny

The RADOS Gateway's `UsageMetrics` object republishes the usage ledger kept in
an LMDB table named `"usage"` as live performance counters. Each record of the
table has a key and a 16-byte value holding two 64-bit words, used bytes then
number of objects. A background thread periodically walks the table and copies
each record's two numbers into one of two counter caches: the user (tenant)
cache for keys starting with `user:`, the bucket (container) cache for every
other key. `start` opens the store and allocates the caches; `stop` (also run by
the destructor) joins the thread and releases everything.

The model has five modules:

- `Wrappers`: `Option`, standing in for nullable pointers.
- `UsageWire`: the record value layout. It decodes and encodes the two words in
  the host's byte order, which is a parameter (little- or big-endian). A value
  of any other length than 16 bytes is malformed.
- `UsageTable`: a record, LMDB's default key order, and distinct keys.
- `CounterRouter`: the specification. `Route` is `update_counter` on the pair of
  caches. `RefreshCycle` is the effect of one `load_from_db` cursor walk. It is
  proved equal to an independent reference definition, `Overlay(c, Observed(rs))`:
  the counters observed in the table, written over the caches, each key in its
  own namespace. Idempotence, last-write-wins, skipping of malformed records and
  routing by prefix follow from that equation.
- `Rgw`: the class `UsageMetrics`. Its fields are those of the header
  (`env`, `dbi`, the thread as `threadRunning`, `stopFlag`, `userCache`,
  `bucketCache`, `interval`). Its methods are `Start`, `Stop`, `Destroy` (the
  destructor), `UpdateCounter` and `LoadFromDb`, the last with a `while` loop
  over the cursor's records. Each method is proved against the specification
  functions. The store calls are replaced by their outcomes: `Start` takes the
  return codes of the six LMDB calls it makes, and `LoadFromDb` takes the
  outcome of its read transaction.

`LifecycleScenario` and `RefreshScenario` verify, step by step on one object,
stop and refresh before start, a failed start, two cycles over an unchanged
table, and an update between cycles.

In three places the model follows the C++ code rather than a looser reading:

- The caches are keyed by the whole record key (`user:alice`), not by the
  identifier after the prefix.
- `start` returns the negated store error code as an `int`, not a typed error.
- `stop` waits for the thread's current sleep to end; the sleep is not
  interruptible.

## Model

| member | source | states |
|---|---|---|
| `UsageWire.DecodeUsage` | src/rgw/rgw_usage_metrics.cc:95-97 | a value decodes exactly when it is two 64-bit words (16 bytes) long |
| `UsageWire.DecodeEncode` | src/rgw/rgw_usage_metrics.cc:96-97 | the first stored word decodes to used bytes and the second to the object count, in either byte order |
| `UsageWire.EncodeDecode` | src/rgw/rgw_usage_metrics.cc:95-97 | every 16-byte value is the encoding of what it decodes to, so decoding loses nothing |
| `UsageTable.InKeyOrderDistinct` | src/rgw/rgw_usage_metrics.cc:93 | records yielded in strictly ascending key order never repeat a key |
| `CounterRouter.UserKeyIff` | src/rgw/rgw_usage_metrics.cc:78 | a key goes to the user cache if and only if it is `user:` followed by some identifier |
| `CounterRouter.BucketByDefault` | src/rgw/rgw_usage_metrics.cc:78 | the empty key, a key with `user:` later on, and `User:` keys go to the bucket cache |
| `CounterRouter.SetCounter` | src/rgw/rgw_usage_metrics.cc:80-81 | one `set_counter` sets one field of the key's counter set, keeps the other (zero for a new entry) and touches no other key |
| `CounterRouter.SetBothOverwrites` | src/rgw/rgw_usage_metrics.cc:80-81 | the two `set_counter` calls together replace the key's counters by exactly (bytes, objs) |
| `CounterRouter.Route` | src/rgw/rgw_usage_metrics.cc:77-83 | the selected cache, when present, holds exactly (bytes, objs) for the key with all other entries unchanged; the other cache is unchanged; with a null selected cache nothing changes |
| `CounterRouter.RouteLastWriteWins` | src/rgw/rgw_usage_metrics.cc:80-81 | a second update of a key replaces the first; nothing accumulates |
| `CounterRouter.RefreshCycle` | src/rgw/rgw_usage_metrics.cc:93-99 | a cycle never allocates or frees a cache |
| `CounterRouter.RefreshIsOverlay` | src/rgw/rgw_usage_metrics.cc:93-99 | the record-by-record walk equals the observed counters (last well-sized record per key) written over the caches, by namespace |
| `CounterRouter.RefreshTwice` | src/rgw/rgw_usage_metrics.cc:93-99 | two cycles over an unchanged table give the same caches as one |
| `CounterRouter.RefreshStoresRecord` | src/rgw/rgw_usage_metrics.cc:93-98 | with distinct keys, after a cycle each well-sized record's decoded counters sit under its key in the cache its prefix selects, whatever was there before |
| `CounterRouter.RefreshStoresTableRecord` | src/rgw/rgw_usage_metrics.cc:93-98 | for a table walked in key order, each well-sized record's decoded counters sit under its key in the cache its prefix selects |
| `CounterRouter.RefreshSkipsMalformed` | src/rgw/rgw_usage_metrics.cc:95-98 | a key whose records are all not 16 bytes long keeps its entries in both caches (that the remaining well-sized records are still stored is `RefreshStoresRecord`) |
| `CounterRouter.RefreshRoutesByPrefix` | src/rgw/rgw_usage_metrics.cc:78 | a cycle never writes a key into the cache of the other namespace |
| `CounterRouter.RefreshWithoutCaches` | src/rgw/rgw_usage_metrics.cc:79 | with both caches null a cycle changes nothing |
| `CounterRouter.TwoKeyCycles` | src/rgw/rgw_usage_metrics.cc:93-99 | a bucket and a user record land in their own caches, a repeated cycle changes nothing, a changed user record overwrites the user's counters |
| `Rgw.FirstError` | src/rgw/rgw_usage_metrics.cc:30-32 | the chained `if (r == 0) r = ...` calls yield zero exactly when every call succeeded, and otherwise the first failing call's code |
| `Rgw.OpenStatusIff` | src/rgw/rgw_usage_metrics.cc:30-53 | start's status is zero exactly when all six store calls succeed, and is the code of the earliest failing call |
| `Rgw.UsageMetrics.constructor` | src/rgw/rgw_usage_metrics.h:16-24 | a new object has no environment, handle 0, no thread, stop flag false, both caches null and interval 60 |
| `Rgw.UsageMetrics.Start` | src/rgw/rgw_usage_metrics.cc:26-61 | stores the configured interval; returns the negated code of the first failing store call, leaving no environment, caches or thread; on success opens the environment, keeps the table handle, allocates two empty caches, clears the stop flag, starts the thread and returns 0 |
| `Rgw.UsageMetrics.Stop` | src/rgw/rgw_usage_metrics.cc:63-75 | from any state, including before start, ends with the stop flag set, no thread, and environment and both caches null, so a second call changes nothing |
| `Rgw.UsageMetrics.Destroy` | src/rgw/rgw_usage_metrics.cc:22-24 | destruction leaves the same released state as stop |
| `Rgw.UsageMetrics.UpdateCounter` | src/rgw/rgw_usage_metrics.cc:77-83 | the caches after the call are `Route` of the caches before |
| `Rgw.UsageMetrics.LoadFromDb` | src/rgw/rgw_usage_metrics.cc:85-103 | without an environment, or when the transaction or its cursor cannot be opened, the caches stay unchanged; otherwise they become `RefreshCycle` of the old caches over the cursor's records |

## Left out

- The background thread, its `sleep(interval)` loop and the atomic stop flag's visibility across threads (src/rgw/rgw_usage_metrics.cc:105-111) are concurrency and timing. `threadRunning` only records whether a thread exists. `Stop` joining it is modelled as that flag being cleared.
- LMDB itself is a foreign library: environment creation, opening, transactions, the table handle and cursors. `Start` takes the calls' return codes. `LoadFromDb` takes the read transaction's outcome. A cursor error in the middle of the walk ends the loop like the end of the table, so the records passed are the ones read before that error. Closing the cursor and aborting the transaction have no modelled effect.
- `PerfCountersCache` is an external library. Its capacity of 1024 entries, its eviction policy and its locking are not modelled: a cache is an unbounded map.
- `create_usage_counters` and the registration with the perf-counter collection are calls into an external library.
- Configuration reading is replaced by a `Config` parameter. Logging (`ldout`, `cpp_strerror`), the `cct` context and the unused `driver` pointer are left out.
- The record value's native byte order is the `hostOrder` constant, given to the constructor.
- Keys are strings of characters rather than raw bytes.
- Member visibility is not modelled. In the source, `background`, `load_from_db` and `update_counter` are private; in the model every member is visible.
- Rgw.UsageMetrics.Start: requires that no background thread is running. In the source, a second `start` while the thread runs writes `env` while the thread reads it, and on success assigns to a joinable `std::thread`, which terminates the process.
- Rgw.UsageMetrics.Start: returns `-r` over unbounded integers, so the overflow of negating `INT_MIN` is not modelled.
