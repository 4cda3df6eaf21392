/**
  One calendar database as the sync driver sees it: its records, the sync
  information it keeps per UID, and the four calls the driver makes on it
  (`syncinfo`, `get`, `delete`, `put`) plus `mark_synced` on sync information.
  The concrete backends are not part of this model; what a backend decides
  (whether a delete or a put succeeds, which etag a put assigns) is a
  `Backend` value.
 */
module SyncStore {
  import opened Wrappers
  import opened UidOrder

  /** Fingerprint of one version of a record. */
  type Etag = string

  /** A calendar record: its UID, its current etag and a summary for diagnostics. */
  datatype Record = Record(uid: Uid, etag: Etag, summary: string)

  /**
    Sync information of one UID in one database: the etag of the record held now
    (`None` when there is none) and the etag recorded by the last sync (`ex_etag`,
    `None` when never synced or synced as deleted).
   */
  datatype SyncInfo = SyncInfo(etag: Option<Etag>, exEtag: Option<Etag>)

  /** The `sync_status` shown in the driver's diagnostics. */
  datatype SyncStatus = Absent | Created | Unmodified | Modified | Deleted

  function Status(i: SyncInfo): (st: SyncStatus)
    ensures st == Unmodified <==> i.etag.Some? && i.etag == i.exEtag
    ensures st == Absent <==> i.etag.None? && i.exEtag.None?
    ensures st == Deleted <==> i.etag.None? && i.exEtag.Some?
    ensures st == Created <==> i.etag.Some? && i.exEtag.None?
    ensures st == Modified <==> i.etag.Some? && i.exEtag.Some? && i.etag != i.exEtag
  {
    match (i.etag, i.exEtag)
    case (None, None) => Absent
    case (None, Some(_)) => Deleted
    case (Some(_), None) => Created
    case (Some(e), Some(x)) => if e == x then Unmodified else Modified
  }

  /**
    The decisions a backend takes on the driver's requests, as functions of the
    database's current contents and of the request.
   */
  datatype Backend = Backend(
    acceptsDelete: (Db, Uid) -> bool,
    assignsEtag: (Db, Record, bool) -> Option<Etag>)

  /**
    The contents of one database: its live records, and the last-synced etag it
    keeps for every UID it has sync information about (including deleted ones).
   */
  datatype Db = Db(records: map<Uid, Record>, synced: map<Uid, Option<Etag>>)
  {
    /** Every record is filed under its own UID. */
    ghost predicate Valid()
    {
      forall u :: u in records ==> records[u].uid == u
    }

    /** `syncinfo(uid)`: never fails; an unknown UID has no etags at all. */
    function Info(uid: Uid): (i: SyncInfo)
      ensures i.etag.Some? <==> uid in records
      ensures uid in records ==> i.etag.value == records[uid].etag
      ensures i.exEtag.Some? ==> uid in synced
      ensures uid in synced ==> i.exEtag == synced[uid]
      ensures uid !in Known() ==> i == SyncInfo(None, None)
    {
      SyncInfo(if uid in records then Some(records[uid].etag) else None,
               if uid in synced then synced[uid] else None)
    }

    /** The UIDs `uid_list` reports: live records and tombstones. */
    function Known(): set<Uid>
    {
      records.Keys + synced.Keys
    }

    /** The two databases hold the same record and the same sync entry for `u`. */
    ghost predicate SameAt(d: Db, u: Uid)
    {
      && (u in records <==> u in d.records)
      && (u in records ==> records[u] == d.records[u])
      && (u in synced <==> u in d.synced)
      && (u in synced ==> synced[u] == d.synced[u])
    }

    /** `syncinfo(uid).mark_synced(e)`: records `e` as the last-synced etag of `uid`. */
    function MarkSynced(uid: Uid, e: Option<Etag>): (d: Db)
      ensures d.records == records
      ensures d.Info(uid) == SyncInfo(Info(uid).etag, e)
      ensures forall u :: u != uid ==> SameAt(d, u)
    {
      this.(synced := synced[uid := e])
    }

    /**
      `delete(uid)`: on success the record is gone; sync information is never
      touched; on failure nothing changes.
     */
    function Delete(b: Backend, uid: Uid): (res: (bool, Db))
      ensures res.0 == b.acceptsDelete(this, uid)
      ensures res.1.synced == synced
      ensures res.0 ==> res.1.records == records - {uid}
      ensures !res.0 ==> res.1 == this
    {
      if b.acceptsDelete(this, uid) then (true, this.(records := records - {uid}))
      else (false, this)
    }

    /**
      `put(rec, overwrite)`: on success the record is stored under its UID with
      the etag the backend assigns, and the new sync information of that UID is
      returned; on failure (`nil`) nothing changes.
     */
    function Put(b: Backend, rec: Record, overwrite: bool): (res: (Option<SyncInfo>, Db))
      ensures res.1.synced == synced
      ensures b.assignsEtag(this, rec, overwrite).None? ==> res == (None, this)
      ensures b.assignsEtag(this, rec, overwrite).Some? ==>
        var t := b.assignsEtag(this, rec, overwrite).value;
        && res.1.records == records[rec.uid := rec.(etag := t)]
        && res.0 == Some(SyncInfo(Some(t), Info(rec.uid).exEtag))
    {
      match b.assignsEtag(this, rec, overwrite)
      case None => (None, this)
      case Some(t) =>
        var d := this.(records := records[rec.uid := rec.(etag := t)]);
        (Some(d.Info(rec.uid)), d)
    }
  }

  /** A database object; the driver changes it through the calls below only. */
  class Store {
    var records: map<Uid, Record>
    var synced: map<Uid, Option<Etag>>
    const backend: Backend

    function Value(): Db
      reads this
    {
      Db(records, synced)
    }

    constructor (backend: Backend, contents: Db)
      ensures Value() == contents && this.backend == backend
    {
      this.backend := backend;
      records := contents.records;
      synced := contents.synced;
    }

    method Delete(uid: Uid) returns (ok: bool)
      modifies this
      ensures (ok, Value()) == old(Value()).Delete(backend, uid)
    {
      ok := backend.acceptsDelete(Value(), uid);
      if ok {
        records := records - {uid};
      }
    }

    method Put(rec: Record, overwrite: bool) returns (info: Option<SyncInfo>)
      modifies this
      ensures (info, Value()) == old(Value()).Put(backend, rec, overwrite)
    {
      var granted := backend.assignsEtag(Value(), rec, overwrite);
      info := None;
      if granted.Some? {
        records := records[rec.uid := rec.(etag := granted.value)];
        info := Some(Value().Info(rec.uid));
      }
    }

    method MarkSynced(uid: Uid, e: Option<Etag>)
      modifies this
      ensures Value() == old(Value()).MarkSynced(uid, e)
    {
      synced := synced[uid := e];
    }

    /** `uid_list`: every UID this database knows, each once, in no particular order. */
    method UidList() returns (l: seq<Uid>)
      ensures Distinct(l)
      ensures forall u :: u in l <==> u in Value().Known()
    {
      var rest := records.Keys + synced.Keys;
      l := [];
      while rest != {}
        invariant Distinct(l)
        invariant forall u :: u in l ==> u !in rest
        invariant forall u :: u in Value().Known() <==> u in l || u in rest
        decreases rest
      {
        var u :| u in rest;
        l := l + [u];
        rest := rest - {u};
      }
    }
  }
}
