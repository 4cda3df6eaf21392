/**
  The two-sided sync driver (`Mhc::Sync::Driver`). For every UID known to
  either database it asks a strategy what to do and carries that action out.

  The first half states what one sync step and one full run do to the two
  databases, as functions on their contents; the class `Driver` does the same
  work step by step on two `Store` objects and is proved to agree with them.
 */
module SyncDriver {
  import opened Wrappers
  import opened UidOrder
  import opened SyncStore

  /** The actions a strategy's `whatnow` may answer. */
  datatype Action =
    | Ignore
    | Conflict
    | DeleteSide1
    | DeleteSide2
    | Side1ToSide2
    | Side2ToSide1
    | OwSide1ToSide2
    | OwSide2ToSide1
  {
    predicate IsDelete() { this == DeleteSide1 || this == DeleteSide2 }

    predicate IsCopy() { this in {Side1ToSide2, Side2ToSide1, OwSide1ToSide2, OwSide2ToSide1} }

    /** Copies run with `:overwrite`. */
    predicate Overwrites() { this == OwSide1ToSide2 || this == OwSide2ToSide1 }

    /** The side a delete removes from, or a copy reads from, is side 1. */
    predicate OnSide1() { this in {DeleteSide1, Side1ToSide2, OwSide1ToSide2} }
  }

  /** The strategy: a deterministic choice of action from both sides' sync information. */
  type Strategy = (SyncInfo, SyncInfo) -> Action

  /** The contents of both databases. */
  datatype Stores = Stores(db1: Db, db2: Db)
  {
    ghost predicate Valid() { db1.Valid() && db2.Valid() }

    /** Side 1 when `side1`, side 2 otherwise. */
    function Side(side1: bool): Db { if side1 then db1 else db2 }

    /** Both databases hold the same records and sync entries for `u`. */
    ghost predicate SameAt(t: Stores, u: Uid) { db1.SameAt(t.db1, u) && db2.SameAt(t.db2, u) }
  }

  /**
    `delete(uid, db, other)`: delete `uid` from `db`; only if that succeeds,
    mark both sides' sync information synced as absent. Answers the new `db`
    and the new `other`.
   */
  function DeleteSpec(b: Backend, db: Db, other: Db, uid: Uid): (r: (Db, Db))
    ensures b.acceptsDelete(db, uid) ==>
      && r.0.records == db.records - {uid}
      && r.0.Info(uid) == SyncInfo(None, None)
      && r.1.records == other.records
      && r.1.Info(uid) == SyncInfo(other.Info(uid).etag, None)
    ensures !b.acceptsDelete(db, uid) ==> r == (db, other)
    ensures forall u :: u != uid ==> db.SameAt(r.0, u) && other.SameAt(r.1, u)
  {
    var (ok, db') := db.Delete(b, uid);
    if ok then (db'.MarkSynced(uid, None), other.MarkSynced(uid, None)) else (db', other)
  }

  /**
    `copy(uid, from, to, overwrite)`: read the record from `from`; with
    `overwrite`, first delete it from `to` whatever the outcome; put it into
    `to`; only if the put succeeds, mark `from` synced at the record's etag and
    `to` at the etag the put answered. `None` when `from` holds no record for
    `uid`: the driver then calls `uid` on `nil` and raises.
   */
  function CopySpec(bTo: Backend, from: Db, to: Db, uid: Uid, overwrite: bool): (r: Option<(Db, Db)>)
    ensures r.None? <==> uid !in from.records
    ensures r.Some? ==> r.value.0.records == from.records
    ensures r.Some? ==>
      var ev := from.records[uid];
      var cleared := if overwrite then to.Delete(bTo, uid).1 else to;
      match bTo.assignsEtag(cleared, ev, overwrite)
      case None => r.value == (from, cleared) && cleared.synced == to.synced
      case Some(t) =>
        && r.value.0.Info(uid) == SyncInfo(Some(ev.etag), Some(ev.etag))
        && r.value.1.Info(uid).exEtag == Some(t)
        && (ev.uid == uid ==> r.value.1.Info(uid).etag == Some(t))
        && ev.uid in r.value.1.records && r.value.1.records[ev.uid] == ev.(etag := t)
  {
    if uid !in from.records then None
    else
      var ev := from.records[uid];
      var cleared := if overwrite then to.Delete(bTo, uid).1 else to;
      var (newInfo, to') := cleared.Put(bTo, ev, overwrite);
      match newInfo
      case None => Some((from, to'))
      case Some(info) => Some((from.MarkSynced(uid, Some(ev.etag)), to'.MarkSynced(uid, info.etag)))
  }

  /** What one call of `sync` did: the action decided, the databases after it, and whether it raised. */
  datatype Outcome = Outcome(action: Action, stores: Stores, raised: bool)

  /** `sync(uid, dry_run)`: decide with the strategy, then (unless a dry run) dispatch. */
  function Step(whatnow: Strategy, b1: Backend, b2: Backend, s: Stores, uid: Uid, dryRun: bool): (o: Outcome)
    ensures o.action == whatnow(s.db1.Info(uid), s.db2.Info(uid))
    ensures dryRun || o.action in {Ignore, Conflict} ==> o.stores == s && !o.raised
    ensures o.raised ==> o.stores == s && o.action.IsCopy()
  {
    var action := whatnow(s.db1.Info(uid), s.db2.Info(uid));
    if dryRun then Outcome(action, s, false)
    else
      match action
      case Ignore => Outcome(action, s, false)
      case Conflict => Outcome(action, s, false)
      case DeleteSide1 =>
        var (d1, d2) := DeleteSpec(b1, s.db1, s.db2, uid);
        Outcome(action, Stores(d1, d2), false)
      case DeleteSide2 =>
        var (d2, d1) := DeleteSpec(b2, s.db2, s.db1, uid);
        Outcome(action, Stores(d1, d2), false)
      case Side1ToSide2 => CopyOutcome(action, s, CopySpec(b2, s.db1, s.db2, uid, false))
      case Side2ToSide1 => CopyOutcome(action, s, CopySpec(b1, s.db2, s.db1, uid, false))
      case OwSide1ToSide2 => CopyOutcome(action, s, CopySpec(b2, s.db1, s.db2, uid, true))
      case OwSide2ToSide1 => CopyOutcome(action, s, CopySpec(b1, s.db2, s.db1, uid, true))
  }

  /** Places the (source, destination) answered by `CopySpec` back on their sides. */
  function CopyOutcome(action: Action, s: Stores, copied: Option<(Db, Db)>): Outcome
  {
    match copied
    case None => Outcome(action, s, true)
    case Some((from, to)) =>
      if action.OnSide1() then Outcome(action, Stores(from, to), false)
      else Outcome(action, Stores(to, from), false)
  }

  /** What `sync_all` did: the actions decided in order, the databases after, and whether it raised. */
  datatype Run = Run(actions: seq<Action>, stores: Stores, raised: bool)

  /** `actions` decided before `r`'s, then `r`. */
  function Then(actions: seq<Action>, r: Run): Run
  {
    Run(actions + r.actions, r.stores, r.raised)
  }

  /** `sync_all(dry_run)` over `uids`: one step per UID in order; a raise ends the run. */
  function RunAll(whatnow: Strategy, b1: Backend, b2: Backend, s: Stores, uids: seq<Uid>, dryRun: bool): (r: Run)
    ensures |r.actions| <= |uids|
    ensures !r.raised ==> |r.actions| == |uids|
    ensures r.raised ==> r.actions != [] && r.actions[|r.actions| - 1].IsCopy()
    decreases |uids|
  {
    if uids == [] then Run([], s, false)
    else
      var o := Step(whatnow, b1, b2, s, uids[0], dryRun);
      if o.raised then Run([o.action], o.stores, true)
      else Then([o.action], RunAll(whatnow, b1, b2, o.stores, uids[1..], dryRun))
  }

  /** A run over `uids[i..]` is the step on `uids[i]` followed by the run over `uids[i + 1..]`. */
  lemma RunAllFirst(whatnow: Strategy, b1: Backend, b2: Backend, s: Stores, uids: seq<Uid>, i: nat, dryRun: bool)
    requires i < |uids|
    ensures var o := Step(whatnow, b1, b2, s, uids[i], dryRun);
      RunAll(whatnow, b1, b2, s, uids[i..], dryRun)
      == if o.raised then Run([o.action], o.stores, true)
         else Then([o.action], RunAll(whatnow, b1, b2, o.stores, uids[i + 1..], dryRun))
  {
    assert uids[i..][0] == uids[i] && uids[i..][1..] == uids[i + 1..];
  }

  /** Extends a partial run, `actions` so far ending in `s`, by the step on `uids[i]`. */
  lemma RunAllExtend(whatnow: Strategy, b1: Backend, b2: Backend, s0: Stores, s: Stores,
                     uids: seq<Uid>, i: nat, actions: seq<Action>, dryRun: bool)
    requires i < |uids|
    requires RunAll(whatnow, b1, b2, s0, uids, dryRun) == Then(actions, RunAll(whatnow, b1, b2, s, uids[i..], dryRun))
    ensures var o := Step(whatnow, b1, b2, s, uids[i], dryRun);
      RunAll(whatnow, b1, b2, s0, uids, dryRun)
      == if o.raised then Run(actions + [o.action], o.stores, true)
         else Then(actions + [o.action], RunAll(whatnow, b1, b2, o.stores, uids[i + 1..], dryRun))
  {
    RunAllFirst(whatnow, b1, b2, s, uids, i, dryRun);
  }

  /** The `ABOUT` diagnostic is printed unless the action is `:ignore` or the call is quiet. */
  predicate Announces(action: Action, quiet: bool): (announced: bool)
    ensures announced ==> !quiet && action != Ignore
    ensures !quiet && action in {Conflict, DeleteSide1, DeleteSide2} ==> announced
    ensures !quiet && action.IsCopy() ==> announced
  {
    !(action == Ignore || quiet)
  }

  /** The driver over two distinct database objects and a strategy. */
  class Driver {
    const db1: Store
    const db2: Store
    const whatnow: Strategy

    ghost predicate Valid()
      reads db1, db2
    {
      db1 != db2 && State().Valid()
    }

    function State(): Stores
      reads db1, db2
    {
      Stores(db1.Value(), db2.Value())
    }

    constructor (db1: Store, db2: Store, whatnow: Strategy)
      requires db1 != db2
      requires db1.Value().Valid() && db2.Value().Valid()
      ensures this.db1 == db1 && this.db2 == db2 && this.whatnow == whatnow
      ensures Valid()
    {
      this.db1 := db1;
      this.db2 := db2;
      this.whatnow := whatnow;
    }

    /**
      `sync_all(dry_run)`: syncs every UID of the universe once, in ascending
      order, each with the same `dryRun`; answers the universe and the actions.
     */
    method SyncAll(dryRun: bool) returns (uids: seq<Uid>, actions: seq<Action>, raised: bool)
      requires Valid()
      modifies db1, db2
      ensures Valid()
      ensures Sorted(uids) && Distinct(uids)
      ensures forall u :: u in uids <==> u in old(db1.Value().Known()) || u in old(db2.Value().Known())
      ensures RunAll(whatnow, db1.backend, db2.backend, old(State()), uids, dryRun) == Run(actions, State(), raised)
    {
      uids := UidList();
      actions, raised := [], false;
      var i := 0;
      while i < |uids| && !raised
        invariant 0 <= i <= |uids|
        invariant Valid()
        invariant !raised ==>
          RunAll(whatnow, db1.backend, db2.backend, old(State()), uids, dryRun)
          == Then(actions, RunAll(whatnow, db1.backend, db2.backend, State(), uids[i..], dryRun))
        invariant raised ==>
          RunAll(whatnow, db1.backend, db2.backend, old(State()), uids, dryRun) == Run(actions, State(), true)
      {
        ghost var before := State();
        var action, announced, failed := Sync(uids[i], dryRun, false);
        RunAllExtend(whatnow, db1.backend, db2.backend, old(State()), before, uids, i, actions, dryRun);
        actions, raised := actions + [action], failed;
        i := i + 1;
      }
    }

    /**
      `sync(uid, dry_run, quiet)`: reads both sides' sync information, asks the
      strategy, and unless `dryRun` carries the action out. Answers the action,
      whether the `ABOUT` line is printed, and whether the copy raised.
     */
    method Sync(uid: Uid, dryRun: bool, quiet: bool) returns (action: Action, announced: bool, raised: bool)
      requires Valid()
      modifies db1, db2
      ensures Valid()
      ensures announced == Announces(action, quiet)
      ensures Step(whatnow, db1.backend, db2.backend, old(State()), uid, dryRun) == Outcome(action, State(), raised)
    {
      var info1 := db1.Value().Info(uid);
      var info2 := db2.Value().Info(uid);
      announced := !(whatnow(info1, info2) == Ignore || quiet);
      action := whatnow(info1, info2);
      raised := false;
      if dryRun {
        return;
      }
      match whatnow(info1, info2)
      case Ignore =>
      case Conflict =>
      case DeleteSide1 => Delete(uid, db1, db2);
      case DeleteSide2 => Delete(uid, db2, db1);
      case Side1ToSide2 => raised := Copy(uid, db1, db2, false);
      case Side2ToSide1 => raised := Copy(uid, db2, db1, false);
      case OwSide1ToSide2 => raised := Copy(uid, db1, db2, true);
      case OwSide2ToSide1 => raised := Copy(uid, db2, db1, true);
    }

    /** `uid_list`: the sorted, de-duplicated concatenation of both databases' `uid_list`. */
    method UidList() returns (uids: seq<Uid>)
      ensures Sorted(uids) && Distinct(uids)
      ensures forall u :: u in uids <==> u in db1.Value().Known() || u in db2.Value().Known()
    {
      var l1 := db1.UidList();
      var l2 := db2.UidList();
      uids := Universe(l1, l2);
    }

    /** `delete(uid, db, other)`. */
    method Delete(uid: Uid, db: Store, other: Store)
      requires db != other && db.Value().Valid()
      modifies db, other
      ensures db.Value().Valid()
      ensures (db.Value(), other.Value()) == DeleteSpec(db.backend, old(db.Value()), old(other.Value()), uid)
    {
      var ok := db.Delete(uid);
      if ok {
        db.MarkSynced(uid, None);
        other.MarkSynced(uid, None);
      }
    }

    /** `copy(uid, from, to, overwrite)`; `raised` when `from` holds no record for `uid`. */
    method Copy(uid: Uid, from: Store, to: Store, overwrite: bool) returns (raised: bool)
      requires from != to && from.Value().Valid() && to.Value().Valid()
      modifies from, to
      ensures from.Value().Valid() && to.Value().Valid()
      ensures raised == CopySpec(to.backend, old(from.Value()), old(to.Value()), uid, overwrite).None?
      ensures raised ==> from.Value() == old(from.Value()) && to.Value() == old(to.Value())
      ensures !raised ==>
        (from.Value(), to.Value()) == CopySpec(to.backend, old(from.Value()), old(to.Value()), uid, overwrite).value
    {
      if uid !in from.records {
        return true;
      }
      raised := false;
      var ev := from.records[uid];
      if overwrite {
        var deleted := to.Delete(uid);
      }
      var newInfo := to.Put(ev, overwrite);
      if newInfo.Some? {
        from.MarkSynced(uid, Some(ev.etag));
        to.MarkSynced(uid, newInfo.value.etag);
      }
    }
  }
}
