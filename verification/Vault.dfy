/**
 * A whole installation under any sequence of commands: backups with their purges, expiry, key rotations and restores
 * over one catalog and one bucket.
 */
module Vaults {
  import opened Common
  import opened ChunkFormat
  import opened Snapshots
  import Backup
  import Catalog
  import CatalogRestore
  import CatalogStore
  import EndToEnd
  import FastCdc
  import Keys
  import Pipeline
  import Restore

  type SnapshotId = Catalog.SnapshotId
  type Encoder = SnapshotId -> Bytes

  /** What a snapshot was taken of, and in how many chunks. */
  datatype Source = Source(data: Bytes, total: nat)

  function Row(encode: Encoder, s: SnapshotId, estado: SnapshotState, w: Wrapped): Restore.Snapshot {
    Restore.Snapshot(encode(s), estado, w)
  }

  /** Restoring this snapshot with this key yields its source. */
  ghost predicate Restores(suite: Suite, encode: Encoder, kek: Bytes, w: Wrapped, db: Catalog.Db,
                           objects: map<Catalog.Key, Bytes>, s: SnapshotId, source: Source)
  {
    && CatalogRestore.Bounds(db, s, source.total)
    && CatalogRestore.RestoredFrom(suite, kek, Row(encode, s, COMPLETED, w), db, objects, s, source.total)
       == Restore.Outcome(source.data, None)
  }

  /** The key in force opens every snapshot that counts, and every COMPLETED one restores to its own source. */
  ghost predicate Sound(suite: Suite, encode: Encoder, kek: Bytes, deks: map<SnapshotId, Wrapped>,
                        sources: map<SnapshotId, Source>, db: Catalog.Db, objects: map<Catalog.Key, Bytes>)
  {
    && suite.Lawful() && Catalog.Exact(db) && Backup.Addressed(suite, objects)
    && db.snapshots.Keys <= deks.Keys
    && (forall s | s in db.snapshots && db.snapshots[s] in {COMPLETED, EXPIRED} ::
          Unwrap(suite, kek, deks[s], encode(s)).Some?)
    && (forall s | s in db.snapshots && db.snapshots[s] == COMPLETED ::
          s in sources && Restores(suite, encode, kek, deks[s], db, objects, s, sources[s]))
  }

  lemma SameImageRestores(suite: Suite, encode: Encoder, kek: Bytes, w: Wrapped, db: Catalog.Db,
                          objects: map<Catalog.Key, Bytes>, db': Catalog.Db, objects': map<Catalog.Key, Bytes>,
                          s: SnapshotId, source: Source)
    requires Restores(suite, encode, kek, w, db, objects, s, source)
    requires Catalog.Image(db', objects', s) == Catalog.Image(db, objects, s)
    ensures Restores(suite, encode, kek, w, db', objects', s, source)
  {
    CatalogRestore.SameImageSameBounds(db, objects, db', objects', s, source.total);
    CatalogRestore.SameImageSameRestore(suite, kek, Row(encode, s, COMPLETED, w), db, objects, db', objects', s,
                                        source.total);
  }

  lemma SameKeyRestores(suite: Suite, encode: Encoder, kek: Bytes, w: Wrapped, newKek: Bytes, w': Wrapped,
                        db: Catalog.Db, objects: map<Catalog.Key, Bytes>, s: SnapshotId, source: Source)
    requires Restores(suite, encode, kek, w, db, objects, s, source)
    requires Unwrap(suite, newKek, w', encode(s)) == Unwrap(suite, kek, w, encode(s))
    ensures Restores(suite, encode, newKek, w', db, objects, s, source)
  {
  }

  /** A backup adds its snapshot and leaves the others as they were. */
  lemma SoundAfterBackup(suite: Suite, encode: Encoder, kek: Bytes, deks: map<SnapshotId, Wrapped>,
                         sources: map<SnapshotId, Source>, db: Catalog.Db, objects: map<Catalog.Key, Bytes>,
                         db': Catalog.Db, objects': map<Catalog.Key, Bytes>,
                         sid: SnapshotId, ok: bool, w: Wrapped, source: Source)
    requires Sound(suite, encode, kek, deks, sources, db, objects) && sid !in db.snapshots
    requires Catalog.Exact(db') && Backup.Addressed(suite, objects')
    requires db'.snapshots == db.snapshots[sid := if ok then COMPLETED else FAILED]
    requires EndToEnd.SameImages(sid, db, objects, db', objects')
    requires ok ==> Unwrap(suite, kek, w, encode(sid)).Some?
    requires ok ==> Restores(suite, encode, kek, w, db', objects', sid, source)
    ensures Sound(suite, encode, kek, deks[sid := w], sources[sid := source], db', objects')
  {
    forall s | s in db'.snapshots && db'.snapshots[s] == COMPLETED && s != sid
      ensures s in sources && Restores(suite, encode, kek, deks[s], db', objects', s, sources[s])
    {
      SameImageRestores(suite, encode, kek, deks[s], db, objects, db', objects', s, sources[s]);
    }
  }

  /** What a purge does to the states of snapshots. */
  ghost predicate PurgedStates(before: map<SnapshotId, SnapshotState>, after: map<SnapshotId, SnapshotState>) {
    && (forall t | t in before && before[t] != EXPIRED :: t in after && after[t] == before[t])
    && (forall t | t in after :: t in before && (before[t] == EXPIRED ==> after[t] == PURGE_FAILED))
  }

  lemma SoundAfterPurge(suite: Suite, encode: Encoder, kek: Bytes, deks: map<SnapshotId, Wrapped>,
                        sources: map<SnapshotId, Source>, db: Catalog.Db, objects: map<Catalog.Key, Bytes>,
                        db': Catalog.Db, objects': map<Catalog.Key, Bytes>)
    requires Sound(suite, encode, kek, deks, sources, db, objects)
    requires Catalog.Exact(db') && CatalogStore.Shrunk(objects, objects')
    requires EndToEnd.LiveKept(db, objects, db', objects') && PurgedStates(db.snapshots, db'.snapshots)
    ensures Sound(suite, encode, kek, deks, sources, db', objects')
  {
    Backup.ShrunkAddressed(suite, objects, objects');
    forall s | s in db'.snapshots && db'.snapshots[s] == COMPLETED
      ensures s in sources && Restores(suite, encode, kek, deks[s], db', objects', s, sources[s])
    {
      SameImageRestores(suite, encode, kek, deks[s], db, objects, db', objects', s, sources[s]);
    }
  }

  lemma SoundAfterExpiry(suite: Suite, encode: Encoder, kek: Bytes, deks: map<SnapshotId, Wrapped>,
                         sources: map<SnapshotId, Source>, db: Catalog.Db, objects: map<Catalog.Key, Bytes>,
                         sid: SnapshotId)
    requires Sound(suite, encode, kek, deks, sources, db, objects)
    requires sid in db.snapshots && db.snapshots[sid] == COMPLETED
    ensures Sound(suite, encode, kek, deks, sources, Catalog.Apply(db, Catalog.SetState(sid, EXPIRED)), objects)
  {
    var db' := Catalog.Apply(db, Catalog.SetState(sid, EXPIRED));
    Catalog.ApplyExact(db, Catalog.SetState(sid, EXPIRED));
    forall s | s in db'.snapshots && db'.snapshots[s] == COMPLETED
      ensures Restores(suite, encode, kek, deks[s], db', objects, s, sources[s])
    {
      Catalog.SameImage(db, objects, db', objects, s);
      SameImageRestores(suite, encode, kek, deks[s], db, objects, db', objects, s, sources[s]);
    }
  }

  /** Every snapshot that counts is wrapped anew around the same data key, and no other. */
  ghost predicate WrappedAnew(suite: Suite, encode: Encoder, kek: Bytes, deks: map<SnapshotId, Wrapped>,
                              newKek: Bytes, deks': map<SnapshotId, Wrapped>, db: Catalog.Db)
    requires db.snapshots.Keys <= deks.Keys
  {
    && deks'.Keys == deks.Keys
    && forall s | s in db.snapshots ::
         if db.snapshots[s] in {COMPLETED, EXPIRED} then
           Unwrap(suite, newKek, deks'[s], encode(s)) == Unwrap(suite, kek, deks[s], encode(s))
         else deks'[s] == deks[s]
  }

  lemma SoundAfterRotation(suite: Suite, encode: Encoder, kek: Bytes, deks: map<SnapshotId, Wrapped>,
                           newKek: Bytes, deks': map<SnapshotId, Wrapped>,
                           sources: map<SnapshotId, Source>, db: Catalog.Db, objects: map<Catalog.Key, Bytes>)
    requires Sound(suite, encode, kek, deks, sources, db, objects)
    requires WrappedAnew(suite, encode, kek, deks, newKek, deks', db)
    ensures Sound(suite, encode, newKek, deks', sources, db, objects)
  {
    forall s | s in db.snapshots && db.snapshots[s] == COMPLETED
      ensures Restores(suite, encode, newKek, deks'[s], db, objects, s, sources[s])
    {
      SameKeyRestores(suite, encode, kek, deks[s], newKek, deks'[s], db, objects, s, sources[s]);
    }
  }

  // ---------- the table that a rotation reads and writes ----------

  ghost predicate Lists(ids: seq<SnapshotId>, all: set<SnapshotId>) {
    && (forall s :: s in ids <==> s in all)
    && (forall i, j | 0 <= i < j < |ids| :: ids[i] != ids[j])
  }

  method ListIds(all: set<SnapshotId>) returns (ids: seq<SnapshotId>)
    ensures Lists(ids, all)
  {
    ids := [];
    var todo := all;
    while todo != {}
      invariant todo <= all && Lists(ids, all - todo)
      decreases todo
    {
      var s :| s in todo;
      ids := ids + [s];
      todo := todo - {s};
    }
  }

  function TableOf(encode: Encoder, ids: seq<SnapshotId>, states: map<SnapshotId, SnapshotState>,
                   deks: map<SnapshotId, Wrapped>): (rows: seq<Restore.Snapshot>)
    requires forall s | s in ids :: s in states && s in deks
    ensures |rows| == |ids|
    ensures forall i | 0 <= i < |ids| :: rows[i] == Row(encode, ids[i], states[ids[i]], deks[ids[i]])
  {
    seq(|ids|, i requires 0 <= i < |ids| => Row(encode, ids[i], states[ids[i]], deks[ids[i]]))
  }

  method WriteBack(ids: seq<SnapshotId>, rows: seq<Restore.Snapshot>, deks: map<SnapshotId, Wrapped>)
    returns (written: map<SnapshotId, Wrapped>)
    requires |rows| == |ids| && forall i, j | 0 <= i < j < |ids| :: ids[i] != ids[j]
    requires forall i | 0 <= i < |ids| :: ids[i] in deks
    ensures written.Keys == deks.Keys
    ensures forall i | 0 <= i < |ids| :: written[ids[i]] == rows[i].dek
  {
    written := deks;
    for i := 0 to |ids|
      invariant written.Keys == deks.Keys
      invariant forall j | 0 <= j < i :: written[ids[j]] == rows[j].dek
    {
      written := written[ids[i] := rows[i].dek];
    }
  }

  /** Rewrapping the table rewraps the map it was read from. */
  lemma TableRewrapped(suite: Suite, encode: Encoder, kek: Bytes, newKek: Bytes, ids: seq<SnapshotId>, db: Catalog.Db,
                       deks: map<SnapshotId, Wrapped>, rows: seq<Restore.Snapshot>, deks': map<SnapshotId, Wrapped>)
    requires db.snapshots.Keys <= deks.Keys && deks'.Keys == deks.Keys && Lists(ids, db.snapshots.Keys)
    requires Keys.Rewrapped(suite, kek, newKek, TableOf(encode, ids, db.snapshots, deks), rows)
    requires forall i | 0 <= i < |ids| :: deks'[ids[i]] == rows[i].dek
    ensures WrappedAnew(suite, encode, kek, deks, newKek, deks', db)
  {
    var table := TableOf(encode, ids, db.snapshots, deks);
    forall s | s in db.snapshots
      ensures if db.snapshots[s] in {COMPLETED, EXPIRED} then
                Unwrap(suite, newKek, deks'[s], encode(s)) == Unwrap(suite, kek, deks[s], encode(s))
              else deks'[s] == deks[s]
    {
      var i :| 0 <= i < |ids| && ids[i] == s;
      assert Keys.RowRewrapped(suite, kek, newKek, table[i], rows[i]);
    }
  }

  lemma TableOpens(suite: Suite, encode: Encoder, kek: Bytes, ids: seq<SnapshotId>, deks: map<SnapshotId, Wrapped>,
                   sources: map<SnapshotId, Source>, db: Catalog.Db, objects: map<Catalog.Key, Bytes>)
    requires Sound(suite, encode, kek, deks, sources, db, objects) && Lists(ids, db.snapshots.Keys)
    ensures Keys.OpensAll(suite, kek, TableOf(encode, ids, db.snapshots, deks))
  {
    var table := TableOf(encode, ids, db.snapshots, deks);
    forall r | r in table && Keys.Rotatable(r) ensures Keys.DekUnder(suite, kek, r).Some? {
      var i :| 0 <= i < |table| && table[i] == r;
      assert ids[i] in ids;
    }
  }

  // ---------- the installation ----------

  /**
   * Whatever commands are given, in whatever order, every COMPLETED snapshot restores to its own source: this is
   * `Valid`, which holds of a new installation and which every command keeps.
   */
  class Vault {
    const suite: Suite
    const encode: Encoder
    const catalog: CatalogStore.ChunkCatalog
    const store: CatalogStore.ObjectStore
    var deks: map<SnapshotId, Wrapped>
    ghost var kek: Bytes
    ghost var sources: map<SnapshotId, Source>

    ghost predicate Valid()
      reads this, catalog, store
    {
      Sound(suite, encode, kek, deks, sources, catalog.View(), store.objects)
    }

    constructor (suite: Suite, encode: Encoder, ghost kek: Bytes)
      requires suite.Lawful()
      ensures Valid() && this.kek == kek && this.suite == suite && this.encode == encode
      ensures fresh(catalog) && fresh(store) && catalog.snapshots == map[]
    {
      this.suite, this.encode, this.kek := suite, encode, kek;
      catalog := new CatalogStore.ChunkCatalog();
      store := new CatalogStore.ObjectStore();
      deks, sources := map[], map[];
    }

    /**
     * The backup command: snapshot row, pipeline, uploads, purge. No lost hash may be among its chunks: each hash has
     * a row that forces a put, no row, or a stored object.
     */
    method RunBackup(p: FastCdc.Params, parts: seq<Bytes>, last: Bytes, run: seq<Pipeline.Event>,
                     key: Bytes, dek: Bytes, dekNonce: Bytes, prefix: Bytes, sid: SnapshotId,
                     replies: seq<Catalog.Reply>, batchSize: nat, glitches: seq<CatalogStore.Glitch>)
      returns (ok: bool)
      requires Valid() && key == kek && sid !in catalog.snapshots && |prefix| == 4
      requires p.Valid() && EndToEnd.CompleteRun(EndToEnd.SourceChunks(p, parts, last), run)
      requires Backup.AllReady(suite, dek, encode(sid), prefix, EndToEnd.SourceChunks(p, parts, last), catalog.View(),
                               store.objects)
      requires EndToEnd.NoneForgeable(suite, dek, encode(sid), prefix, EndToEnd.SourceChunks(p, parts, last))
      requires |catalog.snapshots| < |replies| && |catalog.snapshots| < |glitches|
      modifies this, catalog, store
      ensures Valid() && kek == old(kek)
      ensures ok <==> Backup.AllFit(suite, EndToEnd.SourceChunks(p, parts, last))
      ensures sources == old(sources)[sid := Source(Flatten(parts) + last, |EndToEnd.SourceChunks(p, parts, last)|)]
      ensures ok ==> sid in catalog.snapshots && catalog.snapshots[sid] == COMPLETED
      ensures PurgedStates(old(catalog.snapshots)[sid := if ok then COMPLETED else FAILED], catalog.snapshots)
    {
      ok := TakeBackup(p, parts, last, run, key, dek, dekNonce, prefix, sid);
      Purge(replies, batchSize, glitches);
    }

    /** The backup command up to its purge. */
    method TakeBackup(p: FastCdc.Params, parts: seq<Bytes>, last: Bytes, run: seq<Pipeline.Event>,
                      key: Bytes, dek: Bytes, dekNonce: Bytes, prefix: Bytes, sid: SnapshotId)
      returns (ok: bool)
      requires Valid() && key == kek && sid !in catalog.snapshots && |prefix| == 4
      requires p.Valid() && EndToEnd.CompleteRun(EndToEnd.SourceChunks(p, parts, last), run)
      requires Backup.AllReady(suite, dek, encode(sid), prefix, EndToEnd.SourceChunks(p, parts, last), catalog.View(),
                               store.objects)
      requires EndToEnd.NoneForgeable(suite, dek, encode(sid), prefix, EndToEnd.SourceChunks(p, parts, last))
      modifies this, catalog, store
      ensures Valid() && kek == old(kek)
      ensures ok <==> Backup.AllFit(suite, EndToEnd.SourceChunks(p, parts, last))
      ensures sources == old(sources)[sid := Source(Flatten(parts) + last, |EndToEnd.SourceChunks(p, parts, last)|)]
      ensures catalog.snapshots == old(catalog.snapshots)[sid := if ok then COMPLETED else FAILED]
      ensures deks == old(deks)[sid := Wrap(suite, key, dek, dekNonce, encode(sid))]
      ensures |catalog.snapshots| <= |old(catalog.snapshots)| + 1
    {
      ghost var db, objects := catalog.View(), store.objects;
      var w := Wrap(suite, key, dek, dekNonce, encode(sid));
      UnwrapWrap(suite, key, dek, dekNonce, encode(sid));
      var total;
      ok, total := EndToEnd.RunBackup(p, parts, last, run, suite, dek, encode(sid), prefix, sid, catalog, store);
      ghost var source := Source(Flatten(parts) + last, total);
      if ok {
        EndToEnd.BackedRestores(p, parts, last, suite, key, Row(encode, sid, COMPLETED, w), dek, prefix, sid,
                                catalog.View(), store.objects);
      }
      SoundAfterBackup(suite, encode, kek, deks, sources, db, objects, catalog.View(), store.objects, sid, ok, w,
                       source);
      deks := deks[sid := w];
      sources := sources[sid := source];
    }

    method Purge(replies: seq<Catalog.Reply>, batchSize: nat, glitches: seq<CatalogStore.Glitch>)
      requires Valid() && |catalog.snapshots| <= |replies| && |catalog.snapshots| <= |glitches|
      modifies catalog, store
      ensures Valid() && PurgedStates(old(catalog.snapshots), catalog.snapshots)
      ensures
        var expired := set t | t in old(catalog.snapshots) && old(catalog.snapshots[t]) == EXPIRED;
        (forall i | 0 <= i < |old(catalog.snapshots)| ::
           CatalogStore.AllGoesWell(old(catalog.pool), replies[i], batchSize, glitches[i])) ==>
          CatalogStore.IsSwept(old(catalog.View()), old(store.objects), expired, catalog.View(), store.objects)
    {
      ghost var db, objects := catalog.View(), store.objects;
      catalog.PurgeExpiredSnapshots(store, replies, batchSize, glitches);
      SoundAfterPurge(suite, encode, kek, deks, sources, db, objects, catalog.View(), store.objects);
    }

    /** A retention run marks a snapshot. */
    method Expire(sid: SnapshotId)
      requires Valid() && sid in catalog.snapshots && catalog.snapshots[sid] == COMPLETED
      modifies catalog
      ensures Valid() && catalog.snapshots == old(catalog.snapshots)[sid := EXPIRED]
    {
      SoundAfterExpiry(suite, encode, kek, deks, sources, catalog.View(), store.objects, sid);
      catalog.SetEstado(sid, EXPIRED);
    }

    /** The rotation command: with the key in force it always succeeds, and the new key is in force. */
    method RotateKek(key: Bytes, newKek: Bytes, random: nat -> Bytes)
      requires Valid() && key == kek
      modifies this
      ensures Valid() && kek == newKek && sources == old(sources)
      ensures WrappedAnew(suite, encode, key, old(deks), newKek, deks, catalog.View())
    {
      var ids := ListIds(catalog.snapshots.Keys);
      var table := TableOf(encode, ids, catalog.snapshots, deks);
      TableOpens(suite, encode, kek, ids, deks, sources, catalog.View(), store.objects);
      var rows, count := Keys.RewrapAll(suite, key, newKek, table, random);
      var written := WriteBack(ids, rows, deks);
      TableRewrapped(suite, encode, key, newKek, ids, catalog.View(), deks, rows, written);
      SoundAfterRotation(suite, encode, key, deks, newKek, written, sources, catalog.View(), store.objects);
      deks, kek := written, newKek;
    }

    /** The restore command yields the source of a COMPLETED snapshot, in whatever order the rows come, and refuses
        any other. */
    method RestoreSnapshot(key: Bytes, sid: SnapshotId, shuffle: seq<Backup.Bloque> -> seq<Backup.Bloque>)
      returns (restored: Bytes, error: Option<Restore.RestoreError>)
      requires Valid() && key == kek
      requires forall rows :: multiset(shuffle(rows)) == multiset(rows)
      ensures if sid in catalog.snapshots && catalog.snapshots[sid] == COMPLETED
              then sid in sources && restored == sources[sid].data && error.None?
              else restored == [] && error == Some(Restore.NotCompleted)
    {
      if sid !in catalog.snapshots || catalog.snapshots[sid] != COMPLETED {
        return [], Some(Restore.NotCompleted);
      }
      var snapshot := Row(encode, sid, COMPLETED, deks[sid]);
      assert Restores(suite, encode, kek, deks[sid], catalog.View(), store.objects, sid, sources[sid]);
      restored, error := EndToEnd.RestoreCommand(suite, key, snapshot, sid, sources[sid].total, catalog, store,
                                                 shuffle);
    }
  }

  /**
   * Backing up, purging, rotating the key and restoring is the identity: for every source, every way it arrives, every
   * schedule of the pipeline, in every reachable installation with whatever snapshots it holds, whatever the purge of
   * the expired ones meets, and every order of the rows, what is restored is the source.
   */
  method BackupPurgeRotateRestore(vault: Vault, p: FastCdc.Params, parts: seq<Bytes>, last: Bytes,
                                  run: seq<Pipeline.Event>, key: Bytes, newKek: Bytes, dek: Bytes, dekNonce: Bytes,
                                  prefix: Bytes, sid: SnapshotId, replies: seq<Catalog.Reply>, batchSize: nat,
                                  glitches: seq<CatalogStore.Glitch>, random: nat -> Bytes,
                                  shuffle: seq<Backup.Bloque> -> seq<Backup.Bloque>)
    returns (ok: bool, restored: Bytes, error: Option<Restore.RestoreError>)
    requires vault.Valid() && key == vault.kek && sid !in vault.catalog.snapshots && |prefix| == 4
    requires p.Valid() && EndToEnd.CompleteRun(EndToEnd.SourceChunks(p, parts, last), run)
    requires Backup.AllReady(vault.suite, dek, vault.encode(sid), prefix, EndToEnd.SourceChunks(p, parts, last),
                             vault.catalog.View(), vault.store.objects)
    requires EndToEnd.NoneForgeable(vault.suite, dek, vault.encode(sid), prefix, EndToEnd.SourceChunks(p, parts, last))
    requires |vault.catalog.snapshots| < |replies| && |vault.catalog.snapshots| < |glitches|
    requires forall rows :: multiset(shuffle(rows)) == multiset(rows)
    modifies vault, vault.catalog, vault.store
    ensures vault.Valid() && vault.kek == newKek
    ensures ok <==> Backup.AllFit(vault.suite, EndToEnd.SourceChunks(p, parts, last))
    ensures ok ==> restored == Flatten(parts) + last && error.None?
  {
    restored, error := [], None;
    ok := vault.RunBackup(p, parts, last, run, key, dek, dekNonce, prefix, sid, replies, batchSize, glitches);
    vault.RotateKek(key, newKek, random);
    if ok {
      restored, error := vault.RestoreSnapshot(newKek, sid, shuffle);
    }
  }
}
