/**
  What the driver promises about one sync step and one full run: dry runs and
  `:ignore`/`:conflict` change nothing, each action touches only the store and
  the sync information it names and only for its own UID, failed store calls
  leave sync information alone, successful copies and deletes leave both sides
  synced, and a live run decides the same actions as a dry run.
 */
module SyncProperties {
  import opened Wrappers
  import opened UidOrder
  import opened SyncStore
  import opened SyncDriver

  /** The actions the strategy decides for `uids` on unchanged databases. */
  function Decisions(whatnow: Strategy, s: Stores, uids: seq<Uid>): (r: seq<Action>)
    ensures |r| == |uids|
    ensures forall i :: 0 <= i < |uids| ==> r[i] == whatnow(s.db1.Info(uids[i]), s.db2.Info(uids[i]))
  {
    seq(|uids|, i requires 0 <= i < |uids| => whatnow(s.db1.Info(uids[i]), s.db2.Info(uids[i])))
  }

  /** A dry run changes nothing, never raises, and reports the strategy's decision for every UID. */
  lemma {:induction false} DryRunChangesNothing(whatnow: Strategy, b1: Backend, b2: Backend, s: Stores, uids: seq<Uid>)
    ensures RunAll(whatnow, b1, b2, s, uids, true) == Run(Decisions(whatnow, s, uids), s, false)
  {
    if uids != [] {
      DryRunChangesNothing(whatnow, b1, b2, s, uids[1..]);
      assert Decisions(whatnow, s, uids) == [whatnow(s.db1.Info(uids[0]), s.db2.Info(uids[0]))] + Decisions(whatnow, s, uids[1..]);
    }
  }

  /** One step keeps every record filed under its UID and changes nothing about any other UID. */
  lemma StepTouchesOnlyItsUid(whatnow: Strategy, b1: Backend, b2: Backend, s: Stores, uid: Uid, dryRun: bool)
    requires s.Valid()
    ensures var o := Step(whatnow, b1, b2, s, uid, dryRun);
      && o.stores.Valid()
      && forall u :: u != uid ==> s.SameAt(o.stores, u)
  {
    var a := whatnow(s.db1.Info(uid), s.db2.Info(uid));
    if !dryRun && a.IsCopy() {
      if a.OnSide1() {
        CopyTouchesOnlyItsUid(b2, s.db1, s.db2, uid, a.Overwrites());
      } else {
        CopyTouchesOnlyItsUid(b1, s.db2, s.db1, uid, a.Overwrites());
      }
    }
  }

  /** A copy between valid databases keeps them valid and changes nothing about any other UID. */
  lemma CopyTouchesOnlyItsUid(bTo: Backend, from: Db, to: Db, uid: Uid, overwrite: bool)
    requires from.Valid() && to.Valid()
    ensures var r := CopySpec(bTo, from, to, uid, overwrite);
      r.Some? ==>
        && r.value.0.Valid() && r.value.1.Valid()
        && forall u :: u != uid ==> from.SameAt(r.value.0, u) && to.SameAt(r.value.1, u)
  {
  }

  /** A run keeps every record filed under its UID and changes nothing about UIDs it does not visit. */
  lemma {:induction false} RunTouchesOnlyListedUids(whatnow: Strategy, b1: Backend, b2: Backend, s: Stores, uids: seq<Uid>, dryRun: bool)
    requires s.Valid()
    decreases |uids|
    ensures var r := RunAll(whatnow, b1, b2, s, uids, dryRun);
      && r.stores.Valid()
      && forall u :: u !in uids ==> s.SameAt(r.stores, u)
  {
    if uids != [] {
      var o := Step(whatnow, b1, b2, s, uids[0], dryRun);
      StepTouchesOnlyItsUid(whatnow, b1, b2, s, uids[0], dryRun);
      if !o.raised {
        var rest := RunAll(whatnow, b1, b2, o.stores, uids[1..], dryRun);
        assert RunAll(whatnow, b1, b2, s, uids, dryRun).stores == rest.stores;
        RunTouchesOnlyListedUids(whatnow, b1, b2, o.stores, uids[1..], dryRun);
        forall u | u !in uids
          ensures s.SameAt(rest.stores, u)
        {
          assert u != uids[0] && u !in uids[1..];
          assert s.SameAt(o.stores, u) && o.stores.SameAt(rest.stores, u);
        }
      }
    }
  }

  /** Databases that agree on every UID of `uids` lead the strategy to the same decisions. */
  lemma {:induction false} DecisionsDependOnListedUidsOnly(whatnow: Strategy, s: Stores, t: Stores, uids: seq<Uid>)
    requires forall u :: u in uids ==> s.SameAt(t, u)
    ensures Decisions(whatnow, s, uids) == Decisions(whatnow, t, uids)
  {
    forall i | 0 <= i < |uids|
      ensures s.db1.Info(uids[i]) == t.db1.Info(uids[i]) && s.db2.Info(uids[i]) == t.db2.Info(uids[i])
    {
      assert uids[i] in uids;
    }
  }

  /**
    Over distinct UIDs a live run decides the same actions, in the same order,
    as a dry run on the same databases, up to the UID where it raises.
   */
  lemma {:induction false} LiveRunDecidesAsDryRun(whatnow: Strategy, b1: Backend, b2: Backend, s: Stores, uids: seq<Uid>)
    requires s.Valid() && Distinct(uids)
    decreases |uids|
    ensures var live := RunAll(whatnow, b1, b2, s, uids, false);
      && live.actions == Decisions(whatnow, s, uids)[..|live.actions|]
      && (!live.raised ==> live.actions == RunAll(whatnow, b1, b2, s, uids, true).actions)
  {
    DryRunChangesNothing(whatnow, b1, b2, s, uids);
    if uids != [] {
      var o := Step(whatnow, b1, b2, s, uids[0], false);
      if !o.raised {
        var rest := uids[1..];
        assert Distinct(rest) by {
          forall i, j | 0 <= i < j < |rest|
            ensures rest[i] != rest[j]
          {
            assert rest[i] == uids[i + 1] && rest[j] == uids[j + 1];
          }
        }
        StepTouchesOnlyItsUid(whatnow, b1, b2, s, uids[0], false);
        forall u | u in rest
          ensures s.SameAt(o.stores, u)
        {
          var k :| 0 <= k < |rest| && rest[k] == u;
          assert uids[k + 1] == u && uids[0] != u;
        }
        DecisionsDependOnListedUidsOnly(whatnow, s, o.stores, rest);
        LiveRunDecidesAsDryRun(whatnow, b1, b2, o.stores, rest);
        var tail := RunAll(whatnow, b1, b2, o.stores, rest, false);
        var all := Decisions(whatnow, s, uids);
        assert all == [o.action] + Decisions(whatnow, s, rest);
        assert tail.actions == Decisions(whatnow, s, rest)[..|tail.actions|];
        assert [o.action] + tail.actions == all[..1 + |tail.actions|];
      }
    }
  }

  /** The store a delete or copy action works on (the source of a copy). */
  function Source(s: Stores, action: Action): Db { s.Side(action.OnSide1()) }

  /** The other store (the destination of a copy). */
  function Destination(s: Stores, action: Action): Db { s.Side(!action.OnSide1()) }

  function BackendOf(b1: Backend, b2: Backend, side1: bool): Backend { if side1 then b1 else b2 }

  /** `:ignore` and `:conflict` change neither store nor any sync information. */
  lemma IgnoreAndConflictChangeNothing(whatnow: Strategy, b1: Backend, b2: Backend, s: Stores, uid: Uid)
    requires whatnow(s.db1.Info(uid), s.db2.Info(uid)) in {Ignore, Conflict}
    ensures Step(whatnow, b1, b2, s, uid, false) == Outcome(whatnow(s.db1.Info(uid), s.db2.Info(uid)), s, false)
  {
  }

  /**
    `:delete_side1` deletes from db1 and `:delete_side2` from db2. When the delete
    succeeds the record is gone from that side, both sides' last-synced etag for
    the UID becomes `nil` and the other side's records are untouched; when it
    fails nothing changes.
   */
  lemma DeleteEffect(whatnow: Strategy, b1: Backend, b2: Backend, s: Stores, uid: Uid)
    requires whatnow(s.db1.Info(uid), s.db2.Info(uid)).IsDelete()
    ensures var a := whatnow(s.db1.Info(uid), s.db2.Info(uid));
      var o := Step(whatnow, b1, b2, s, uid, false);
      var db, other := Source(s, a), Destination(s, a);
      var db', other' := Source(o.stores, a), Destination(o.stores, a);
      && !o.raised
      && (BackendOf(b1, b2, a.OnSide1()).acceptsDelete(db, uid) ==>
            && db'.records == db.records - {uid}
            && db'.Info(uid) == SyncInfo(None, None)
            && other'.records == other.records
            && other'.Info(uid) == SyncInfo(other.Info(uid).etag, None))
      && (!BackendOf(b1, b2, a.OnSide1()).acceptsDelete(db, uid) ==> o.stores == s)
  {
  }

  /** A copy never changes the records of the side it reads from; with no record there it raises and changes nothing. */
  lemma CopyKeepsSourceRecords(whatnow: Strategy, b1: Backend, b2: Backend, s: Stores, uid: Uid)
    requires whatnow(s.db1.Info(uid), s.db2.Info(uid)).IsCopy()
    ensures var a := whatnow(s.db1.Info(uid), s.db2.Info(uid));
      var o := Step(whatnow, b1, b2, s, uid, false);
      && Source(o.stores, a).records == Source(s, a).records
      && (o.raised <==> uid !in Source(s, a).records)
      && (o.raised ==> o.stores == s)
  {
  }

  /**
    The destination a copy's `put` sees: after an overwrite copy's delete
    (whether or not that succeeded), otherwise untouched.
   */
  function Cleared(b: Backend, dst: Db, uid: Uid, overwrite: bool): Db
  {
    if overwrite then dst.Delete(b, uid).1 else dst
  }

  /**
    A copy whose `put` fails changes no sync information on either side and no
    source record; the destination is left as its overwrite delete left it.
    The put is asked with `overwrite` exactly for the `:ow_*` actions.
   */
  lemma CopyFailureKeepsMetadata(whatnow: Strategy, b1: Backend, b2: Backend, s: Stores, uid: Uid)
    requires var a := whatnow(s.db1.Info(uid), s.db2.Info(uid));
      && a.IsCopy() && uid in Source(s, a).records
      && var bDst := BackendOf(b1, b2, !a.OnSide1());
         bDst.assignsEtag(Cleared(bDst, Destination(s, a), uid, a.Overwrites()), Source(s, a).records[uid], a.Overwrites()).None?
    ensures var a := whatnow(s.db1.Info(uid), s.db2.Info(uid));
      var o := Step(whatnow, b1, b2, s, uid, false);
      && !o.raised
      && o.stores.db1.synced == s.db1.synced
      && o.stores.db2.synced == s.db2.synced
      && Source(o.stores, a) == Source(s, a)
      && Destination(o.stores, a) == Cleared(BackendOf(b1, b2, !a.OnSide1()), Destination(s, a), uid, a.Overwrites())
  {
  }

  /**
    A copy whose `put` succeeds leaves the destination holding the source's
    record under the etag the put assigned, and both sides synced: the
    source's last-synced etag is the copied record's etag, the destination's
    is the etag the put returned.
   */
  lemma CopySuccessSyncsBoth(whatnow: Strategy, b1: Backend, b2: Backend, s: Stores, uid: Uid)
    requires s.Valid()
    requires var a := whatnow(s.db1.Info(uid), s.db2.Info(uid));
      && a.IsCopy() && uid in Source(s, a).records
      && var bDst := BackendOf(b1, b2, !a.OnSide1());
         bDst.assignsEtag(Cleared(bDst, Destination(s, a), uid, a.Overwrites()), Source(s, a).records[uid], a.Overwrites()).Some?
    ensures var a := whatnow(s.db1.Info(uid), s.db2.Info(uid));
      var o := Step(whatnow, b1, b2, s, uid, false);
      var ev := Source(s, a).records[uid];
      var bDst := BackendOf(b1, b2, !a.OnSide1());
      var t := bDst.assignsEtag(Cleared(bDst, Destination(s, a), uid, a.Overwrites()), ev, a.Overwrites()).value;
      && !o.raised
      && Source(o.stores, a).Info(uid) == SyncInfo(Some(ev.etag), Some(ev.etag))
      && Destination(o.stores, a).Info(uid) == SyncInfo(Some(t), Some(t))
      && uid in Destination(o.stores, a).records
      && Destination(o.stores, a).records[uid] == ev.(etag := t)
  {
  }

  /**
    After a successful copy, a strategy that ignores a UID unmodified on both
    sides ignores it on the next sync: the copy reached a fixed point.
   */
  lemma CopyReachesFixedPoint(whatnow: Strategy, b1: Backend, b2: Backend, s: Stores, uid: Uid)
    requires forall i1, i2 :: Status(i1) == Unmodified && Status(i2) == Unmodified ==> whatnow(i1, i2) == Ignore
    requires s.Valid()
    requires var a := whatnow(s.db1.Info(uid), s.db2.Info(uid));
      && a.IsCopy() && uid in Source(s, a).records
      && var bDst := BackendOf(b1, b2, !a.OnSide1());
         bDst.assignsEtag(Cleared(bDst, Destination(s, a), uid, a.Overwrites()), Source(s, a).records[uid], a.Overwrites()).Some?
    ensures var o := Step(whatnow, b1, b2, s, uid, false);
      Step(whatnow, b1, b2, o.stores, uid, false) == Outcome(Ignore, o.stores, false)
  {
    CopySuccessSyncsBoth(whatnow, b1, b2, s, uid);
    var a := whatnow(s.db1.Info(uid), s.db2.Info(uid));
    var o := Step(whatnow, b1, b2, s, uid, false);
    assert Status(o.stores.db1.Info(uid)) == Unmodified && Status(o.stores.db2.Info(uid)) == Unmodified by {
      assert {o.stores.db1, o.stores.db2} == {Source(o.stores, a), Destination(o.stores, a)};
    }
  }

  /**
    After a successful delete on a UID the other side holds no record of, a
    strategy that ignores a UID absent on both sides ignores it on the next sync.
   */
  lemma DeleteReachesFixedPoint(whatnow: Strategy, b1: Backend, b2: Backend, s: Stores, uid: Uid)
    requires whatnow(SyncInfo(None, None), SyncInfo(None, None)) == Ignore
    requires var a := whatnow(s.db1.Info(uid), s.db2.Info(uid));
      && a.IsDelete()
      && BackendOf(b1, b2, a.OnSide1()).acceptsDelete(Source(s, a), uid)
      && uid !in Destination(s, a).records
    ensures var o := Step(whatnow, b1, b2, s, uid, false);
      && Status(o.stores.db1.Info(uid)) == Absent
      && Status(o.stores.db2.Info(uid)) == Absent
      && Step(whatnow, b1, b2, o.stores, uid, false) == Outcome(Ignore, o.stores, false)
  {
    DeleteEffect(whatnow, b1, b2, s, uid);
  }
}
