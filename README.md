# mhc two-sided calendar sync driver, in Dafny

This project models `Mhc::Sync::Driver`, the driver that reconciles two calendar
databases. The two databases share one namespace of record UIDs. For every UID
that either database knows, the driver reads both sides' sync information
(the current etag and the etag of the last sync, `ex_etag`). It then asks a
strategy (`whatnow`) for one action and carries that action out:

- `:ignore` and `:conflict` do nothing. The merge call for a conflict is commented out.
- `:delete_side1` and `:delete_side2` delete the record from one side. If the
  delete succeeds, both sides are marked synced as absent.
- `:side1_to_side2` and `:side2_to_side1` copy the record into the other side.
  If the put succeeds, both sides are marked synced.
- `:ow_side1_to_side2` and `:ow_side2_to_side1` do the same copy, but first
  delete the destination's record and then put with `overwrite`.

`sync_all` runs this for every UID of `uid_list`. That list is the sorted,
de-duplicated concatenation of both databases' UID lists. With `dry_run`, only
the decision is made.

Files:

- `wrappers.dfy` (`Wrappers`): `Option`, standing for Ruby's `nil`.
- `uid_order.dfy` (`UidOrder`): the lexicographic order on UID strings, plus
  Ruby's `sort` and `uniq` on them. `Universe` is `uid_list`.
- `store.dfy` (`SyncStore`): one database. `Db` holds its contents as a value:
  the live records, and the last-synced etag per UID. The current etag is the
  etag of the live record. `Db` also defines `syncinfo`, `mark_synced`,
  `delete` and `put`. The class `Store` is a mutable database whose methods are
  proved to match those functions. A `Backend` value decides what the database
  code decides: whether a delete succeeds, and which etag a put assigns, or
  `nil` on failure. It decides from the database's contents and the request.
- `driver.dfy` (`SyncDriver`): `Step` is one `sync` call and `RunAll` is
  `sync_all`. Both are functions on the contents of both databases. The class
  `Driver` holds the two `Store` objects and the strategy. Its methods do the
  work in place, and each is proved equal to those functions on the old state.
- `driver_properties.dfy` (`SyncProperties`): lemmas on what a step and a run
  change, and what they do not change.

The strategy is a parameter `whatnow: (SyncInfo, SyncInfo) -> Action`. A
Dafny function is deterministic. In one `sync` the source asks `whatnow` up
to three times: once for the announce test, once more for the `ABOUT` line
when it is printed, and once for the dry-run return or the dispatch. Every
such call gets the same answer. `Driver.Sync` asks twice before the dry-run
test (once for the announce test, once for the action it returns) and once
for the dispatch; the number of calls makes no difference to the outcome.

Where the code's behaviour may surprise a reader, the model follows the code:

- After a successful delete, only the deleted side is sure to be absent
  (no record, no last-synced etag). The other side's last-synced etag becomes
  `nil`, but any live record it holds stays. That side is absent only if it
  held no record (`DeleteReachesFixedPoint`).
- The code does not check that `put(ev, false)` refuses to replace a live
  record. Whether a put succeeds is left entirely to the backend.
- If `get` finds no record, the code calls `uid` on `nil` and raises. That
  ends `sync_all`. The model keeps this as the `raised` outcome.

## Model

| member | source | states |
|---|---|---|
| `UidOrder.Sort` | lib/mhc/sync/driver.rb:59 | `sort` yields an ascending permutation (same multiset) of the concatenated UID lists |
| `UidOrder.Uniq` | lib/mhc/sync/driver.rb:59 | `uniq` keeps exactly the elements of its input, each once, and keeps a sorted input sorted |
| `UidOrder.Universe` | lib/mhc/sync/driver.rb:58-60 | `uid_list` is sorted, has no duplicates, and holds exactly the UIDs in `db1.uid_list` or `db2.uid_list` |
| `UidOrder.SortedDistinctUnique` | lib/mhc/sync/driver.rb:59 | a sorted list without duplicates is determined by its set of elements, so the iteration order of `sync_all` is fixed |
| `UidOrder.UniverseDependsOnSetsOnly` | lib/mhc/sync/driver.rb:58-60 | the universe depends only on which UIDs each database lists, not on their order or repetitions |
| `SyncStore.Status` | lib/mhc/sync/driver.rb:34 | `sync_status`: unmodified iff a record exists and its etag equals `ex_etag`; modified iff both etags exist and differ; created iff only the current etag exists; deleted iff only `ex_etag` exists; absent iff neither exists |
| `SyncStore.Db.Info` | lib/mhc/sync/driver.rb:29-30 | `syncinfo(uid)` never fails: the current etag exists exactly when a live record does and is that record's etag; the last-synced etag exists only with a sync entry and is the recorded one; a UID the database does not know has no etags at all |
| `SyncStore.Db.MarkSynced` | lib/mhc/sync/driver.rb:74-75 | `mark_synced(e)` sets only this UID's last-synced etag to `e`; records and every other UID are untouched |
| `SyncStore.Db.Delete` | lib/mhc/sync/driver.rb:73 | `db.delete(uid)` reports the backend's verdict; on success only that record is removed; sync information is never changed |
| `SyncStore.Db.Put` | lib/mhc/sync/driver.rb:85 | `put(ev, overwrite)` returns `nil` and changes nothing on failure; on success stores `ev` under its UID with the assigned etag and returns that UID's new sync information |
| `SyncStore.Store.Delete` | lib/mhc/sync/driver.rb:73 | the database object's delete updates its state exactly as `Db.Delete` |
| `SyncStore.Store.Put` | lib/mhc/sync/driver.rb:85 | the database object's put returns and updates exactly as `Db.Put` |
| `SyncStore.Store.MarkSynced` | lib/mhc/sync/driver.rb:86-87 | marking one UID synced updates the object exactly as `Db.MarkSynced` |
| `SyncStore.Store.UidList` | lib/mhc/sync/driver.rb:59 | a database's `uid_list` lists each UID it knows (live record or sync information) exactly once |
| `SyncDriver.DeleteSpec` | lib/mhc/sync/driver.rb:70-77 | the functional `delete`: on success the record is gone from `db`, `db`'s info for the UID is empty, `other` keeps its records and its last-synced etag becomes `nil`; on failure nothing changes; other UIDs are untouched. Its effect through `sync` is stated by `DeleteEffect` |
| `SyncDriver.CopySpec` | lib/mhc/sync/driver.rb:79-91 | the functional `copy`: raises exactly when the source has no record; never changes the source's records; on `put` failure the source is unchanged and the destination is as the overwrite delete left it, with its sync information untouched; on success the source is synced at the record's etag, the destination holds the record under the assigned etag and its last-synced etag is the assigned one (and so is its current etag, for a record filed under its own UID). Its effect through `sync` is stated by the `Copy*` lemmas |
| `SyncDriver.Announces` | lib/mhc/sync/driver.rb:32 | the `ABOUT` line is printed only when not quiet and the action is not `:ignore`, and always in that case |
| `SyncDriver.Step` | lib/mhc/sync/driver.rb:28-56 | `sync` decides `whatnow(info1, info2)`; a dry run or an `:ignore`/`:conflict` changes nothing and does not raise; only a copy can raise, and then nothing changed |
| `SyncDriver.RunAll` | lib/mhc/sync/driver.rb:20-24 | `sync_all` decides one action per UID in order, all of them unless a copy raised, and when one raised the run stops with that copy as its last action |
| `SyncDriver.Driver.constructor` | lib/mhc/sync/driver.rb:14-18 | the driver keeps the two databases and the strategy it was given, and from two databases that file records under their own UID establishes the invariant `SyncAll` and `Sync` require |
| `SyncDriver.Driver.SyncAll` | lib/mhc/sync/driver.rb:20-24 | iterates the universe (sorted, distinct, exactly both databases' UIDs) and calls `sync` once per UID in that order with the same `dry_run`; the new state and actions are those of `RunAll` |
| `SyncDriver.Driver.Sync` | lib/mhc/sync/driver.rb:28-56 | reads both sync infos, announces unless `:ignore` or quiet, returns early on a dry run, and dispatches each action to `delete`/`copy` with the right sides; the result is `Step` on the old state |
| `SyncDriver.Driver.UidList` | lib/mhc/sync/driver.rb:58-60 | the universe computed from both databases' lists is sorted, distinct and exactly the UIDs either database knows |
| `SyncDriver.Driver.Delete` | lib/mhc/sync/driver.rb:70-77 | deletes from `db`; only on success marks both sides synced as `nil`; the new state is `DeleteSpec` of the old |
| `SyncDriver.Driver.Copy` | lib/mhc/sync/driver.rb:79-91 | gets the record from the source (raising when there is none), deletes it from the destination first when overwriting, puts with `overwrite`, and only on success marks both sides synced; the new state is `CopySpec` of the old |
| `SyncProperties.DryRunChangesNothing` | lib/mhc/sync/driver.rb:36 | a dry `sync_all` changes neither database, never raises, and reports `whatnow` of the initial sync information for every UID |
| `SyncProperties.StepTouchesOnlyItsUid` | lib/mhc/sync/driver.rb:38-55 | one `sync` changes no record and no sync information of any other UID |
| `SyncProperties.CopyTouchesOnlyItsUid` | lib/mhc/sync/driver.rb:79-91 | a copy between databases that file records under their own UID keeps them so and changes nothing about any other UID |
| `SyncProperties.RunTouchesOnlyListedUids` | lib/mhc/sync/driver.rb:20-24 | `sync_all` changes nothing about UIDs outside the list it iterates |
| `SyncProperties.DecisionsDependOnListedUidsOnly` | lib/mhc/sync/driver.rb:29-32 | the strategy's decisions on a list of UIDs depend only on those UIDs' records and sync information |
| `SyncProperties.LiveRunDecidesAsDryRun` | lib/mhc/sync/driver.rb:20-24 | over distinct UIDs, a live `sync_all` decides the same actions in the same order as a dry run, up to the UID where it raises |
| `SyncProperties.IgnoreAndConflictChangeNothing` | lib/mhc/sync/driver.rb:39-42 | `:ignore` and `:conflict` change neither database nor any sync information |
| `SyncProperties.DeleteEffect` | lib/mhc/sync/driver.rb:43-46 | `:delete_side1` deletes from db1 and `:delete_side2` from db2; on success that record is gone, both `ex_etag`s become `nil` and the other side's records stay; on failure nothing changes |
| `SyncProperties.CopyKeepsSourceRecords` | lib/mhc/sync/driver.rb:47-54 | every copy action leaves the source's records unchanged; it raises exactly when the source has no record, and then changes nothing |
| `SyncProperties.CopyFailureKeepsMetadata` | lib/mhc/sync/driver.rb:83-90 | when `put` fails, no sync information changes on either side; the destination is as the overwrite delete left it; `put` is asked with `overwrite` exactly for `:ow_*` |
| `SyncProperties.CopySuccessSyncsBoth` | lib/mhc/sync/driver.rb:85-87 | when `put` succeeds, the destination holds the source record under the assigned etag; the source's `ex_etag` is the record's etag and the destination's is the returned etag |
| `SyncProperties.CopyReachesFixedPoint` | lib/mhc/sync/driver.rb:85-87 | after a successful copy both sides are unmodified, so a strategy that ignores unmodified pairs makes the next sync of that UID an `:ignore` that changes nothing |
| `SyncProperties.DeleteReachesFixedPoint` | lib/mhc/sync/driver.rb:73-76 | after a successful delete of a UID the other side holds no record of, both sides are absent and the next sync of it is an `:ignore` |

## Left out

- Diagnostics on STDERR (`ABOUT…`, `COPYING…`, `COPY: failed.`) are output only. The model keeps just the condition for printing the `ABOUT` line (`announced` in `Driver.Sync`).
- `Strategy::Factory.create` and the concrete strategies are not part of this model. The strategy is an arbitrary deterministic function given to the constructor.
- `Driver#merge` (lib/mhc/sync/driver.rb:62-67) is an unimplemented stub that is never called. `:conflict` does nothing, as in the code.
- The database backends behind `syncinfo`, `get`, `put`, `delete` and `uid_list` are not part of this model. Whether a delete or put succeeds, and which etag a put assigns, is a deterministic function of the database's contents and the request (`Backend`). Failures that depend on anything else are not distinguished. Exceptions the backends might raise are not modelled.
- `Driver.Copy`: assumes that `put` does not modify the record it is given. The source reads `ev.etag` after `db2.put(ev, overwrite)` (lib/mhc/sync/driver.rb:85-86), and records must answer `etag=` (lib/mhc/sync/driver.rb:10). A backend whose `put` rewrote the given record's etag would make the source side be marked with the destination's etag. The model marks the source with the etag read before the put.
- `Driver.Delete`: sync information is modelled as a live view of the database, not as a separate object. The source fetches `info` and `info2` before `db.delete` and marks them afterwards (lib/mhc/sync/driver.rb:71-75). The model marks the database state after the delete, which gives the same result only if those objects stay attached to their databases across the delete.
- `Driver.Sync`: the Ruby method returns the action only for a dry run; otherwise it returns whatever the dispatch returned. The model always returns the action.
- `Driver.constructor`: requires the two databases to be distinct objects. Syncing a database with itself (aliasing) is not modelled.
- lib/mhc/occurrence.rb (an event and date wrapper) is outside the reconciliation logic and is not modelled.
