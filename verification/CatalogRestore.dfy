/** What the catalog has to do with restoring: the rows it lists, and what a purge leaves of them. */
module CatalogRestore {
  import opened Common
  import opened ChunkFormat
  import opened Backup
  import opened Catalog
  import opened CatalogStore
  import opened Restore
  import opened Snapshots

  /** The rows of a snapshot in the order of their sequence numbers below n, each with its pool entry's key. */
  function Bloques(db: Db, sid: SnapshotId, n: nat): (rows: seq<Bloque>)
    ensures |rows| <= n
    ensures forall i | 0 <= i < |rows| :: rows[i].chunkSeq < n
  {
    if n == 0 then []
    else
      var k := LinkId(sid, n - 1);
      Bloques(db, sid, n - 1) +
      if k in db.links && db.links[k] in db.pool
      then [Bloque(n - 1, db.links[k], db.pool[db.links[k]].key)] else []
  }

  lemma {:induction false} BloquesAscend(db: Db, sid: SnapshotId, n: nat)
    ensures Ascending(Bloques(db, sid, n))
  {
    if n > 0 {
      BloquesAscend(db, sid, n - 1);
    }
  }

  /** No link of the snapshot has this number or a greater one. */
  ghost predicate Bounds(db: Db, sid: SnapshotId, n: nat) {
    forall k | k in db.links && k.snapshot == sid :: k.seqNo < n
  }

  /** Beyond its last link a snapshot has no more rows. */
  lemma {:induction false} BloquesBeyond(db: Db, sid: SnapshotId, n: nat, m: nat)
    requires Bounds(db, sid, n) && n <= m
    ensures Bloques(db, sid, m) == Bloques(db, sid, n)
    decreases m
  {
    if n < m {
      BloquesBeyond(db, sid, n, m - 1);
      assert LinkId(sid, m - 1) !in db.links;
    }
  }

  method LinkBound(db: Db, sid: SnapshotId) returns (n: nat)
    ensures Bounds(db, sid, n)
  {
    n := 0;
    var todo := LinksOf(db.links, sid);
    while todo != {}
      invariant todo <= LinksOf(db.links, sid)
      invariant forall k | k in LinksOf(db.links, sid) && k !in todo :: k.seqNo < n
      decreases todo
    {
      var k :| k in todo;
      n := Max(n, k.seqNo + 1);
      todo := todo - {k};
    }
    assert forall k | k in db.links && k.snapshot == sid :: k in LinksOf(db.links, sid);
  }

  /** A download reads the object that is stored under the key. */
  function Bucket(objects: map<Key, Bytes>): Downloads {
    (i, key) => if key in objects then Some(objects[key]) else None
  }

  /** Both buckets answer every row alike. */
  ghost predicate SameAnswers(rows: seq<Bloque>, objects: map<Key, Bytes>, objects': map<Key, Bytes>) {
    forall i: nat | i < |rows| :: Bucket(objects')(i, rows[i].storageKey) == Bucket(objects)(i, rows[i].storageKey)
  }

  /** Equal images list equal rows, with equal objects behind them. */
  lemma {:induction false} SameImageSameRows(db: Db, objects: map<Key, Bytes>, db': Db, objects': map<Key, Bytes>,
                                             sid: SnapshotId, n: nat)
    requires Image(db', objects', sid) == Image(db, objects, sid)
    ensures Bloques(db', sid, n) == Bloques(db, sid, n) && SameAnswers(Bloques(db, sid, n), objects, objects')
  {
    if n > 0 {
      SameImageSameRows(db, objects, db', objects', sid, n - 1);
      var k := LinkId(sid, n - 1);
      assert k in db'.links <==> k in Image(db', objects', sid);
      assert k in db.links <==> k in Image(db, objects, sid);
      if k in db.links {
        assert Image(db', objects', sid)[k] == Image(db, objects, sid)[k];
      }
    }
  }

  lemma {:induction false} SameAnswersSameReplay(suite: Suite, dek: Bytes, id: Bytes, rows: seq<Bloque>,
                                                 objects: map<Key, Bytes>, objects': map<Key, Bytes>, k: nat,
                                                 pending: Bytes)
    requires k <= |rows| && SameAnswers(rows, objects, objects')
    ensures Replay(suite, dek, id, rows, Bucket(objects'), k, pending)
         == Replay(suite, dek, id, rows, Bucket(objects), k, pending)
    decreases |rows| - k
  {
    if k < |rows| {
      var answer := Bucket(objects)(k, rows[k].storageKey);
      assert Bucket(objects')(k, rows[k].storageKey) == answer;
      var frame := Opened(suite, dek, id, rows[k], answer);
      if frame.Ok? {
        var decoded := suite.write(pending, frame.value);
        SameAnswersSameReplay(suite, dek, id, rows, objects, objects', k + 1, decoded.pending);
      }
    }
  }

  /** What restoring a snapshot from this catalog and this bucket gives, however its rows are presented. */
  function RestoredFrom(suite: Suite, kek: Bytes, snapshot: Snapshot, db: Db, objects: map<Key, Bytes>, sid: SnapshotId,
                        n: nat): Outcome
  {
    Restored(suite, kek, snapshot, Bloques(db, sid, n), false, Bucket(objects))
  }

  lemma RestoredHoweverPresented(suite: Suite, kek: Bytes, snapshot: Snapshot, db: Db, objects: map<Key, Bytes>,
                                 sid: SnapshotId, n: nat, rows: seq<Bloque>, isList: bool)
    requires Presents(rows, isList, Bloques(db, sid, n))
    ensures Restored(suite, kek, snapshot, rows, isList, Bucket(objects))
         == RestoredFrom(suite, kek, snapshot, db, objects, sid, n)
  {
    BloquesAscend(db, sid, n);
    PresentedInOrder(rows, isList, Bloques(db, sid, n));
  }

  /** Equal images have the same last link. */
  lemma SameImageSameBounds(db: Db, objects: map<Key, Bytes>, db': Db, objects': map<Key, Bytes>, sid: SnapshotId,
                            n: nat)
    requires Image(db', objects', sid) == Image(db, objects, sid)
    ensures Bounds(db', sid, n) <==> Bounds(db, sid, n)
  {
    forall k: LinkId | k.snapshot == sid ensures k in db'.links <==> k in db.links {
      assert k in db'.links <==> k in Image(db', objects', sid);
      assert k in db.links <==> k in Image(db, objects, sid);
    }
  }

  /** Equal images restore to the same outcome, under every key and for every snapshot row. */
  lemma SameImageSameRestore(suite: Suite, kek: Bytes, snapshot: Snapshot, db: Db, objects: map<Key, Bytes>, db': Db,
                             objects': map<Key, Bytes>, sid: SnapshotId, n: nat)
    requires Image(db', objects', sid) == Image(db, objects, sid)
    ensures RestoredFrom(suite, kek, snapshot, db', objects', sid, n)
         == RestoredFrom(suite, kek, snapshot, db, objects, sid, n)
  {
    SameImageSameRows(db, objects, db', objects', sid, n);
    if Unwrap(suite, kek, snapshot.dek, snapshot.id).Some? {
      var dek := Unwrap(suite, kek, snapshot.dek, snapshot.id).value;
      SameAnswersSameReplay(suite, dek, snapshot.id, Bloques(db, sid, n), objects, objects', 0, []);
    }
  }

  /** One step of the purge loop, whatever its bulk delete does, leaves every other snapshot's restore unchanged. */
  lemma PurgeKeepsRestore(suite: Suite, kek: Bytes, snapshot: Snapshot, db: Db, objects: map<Key, Bytes>, s: SnapshotId,
                          chosen: set<Hash>, wiped: set<Key>, after: map<Hash, ChunkRow>, sid: SnapshotId, n: nat)
    requires Exact(db) && s != sid && AllOrphans(Dropped(db, s).pool, chosen)
    requires wiped <= KeysOf(Dropped(db, s).pool, chosen) && PurgeOutcome(Dropped(db, s).pool, chosen, after)
    ensures RestoredFrom(suite, kek, snapshot, Dropped(db, s).(pool := after), objects - wiped, sid, n)
         == RestoredFrom(suite, kek, snapshot, db, objects, sid, n)
  {
    PurgeStepKeepsImage(db, objects, s, chosen, wiped, after, sid);
    SameImageSameRestore(suite, kek, snapshot, db, objects, Dropped(db, s).(pool := after), objects - wiped, sid, n);
  }

  /** The whole purge, then a restore: the outcome is the one before the purge. */
  method PurgeThenRestore(catalog: ChunkCatalog, store: ObjectStore, replies: seq<Reply>, batchSize: nat,
                          glitches: seq<Glitch>, suite: Suite, kek: Bytes, snapshot: Snapshot, sid: SnapshotId, n: nat,
                          output: OutputStream)
    returns (error: Option<RestoreError>)
    requires Exact(catalog.View()) && |catalog.snapshots| <= |replies| && |catalog.snapshots| <= |glitches|
    requires sid in catalog.snapshots && catalog.snapshots[sid] != EXPIRED
    modifies catalog, store, output
    ensures
      var outcome := RestoredFrom(suite, kek, snapshot, old(catalog.View()), old(store.objects), sid, n);
      output.contents == old(output.contents) + outcome.written && error == outcome.error
  {
    ghost var db, objects := catalog.View(), store.objects;
    catalog.PurgeExpiredSnapshots(store, replies, batchSize, glitches);
    SameImageSameRestore(suite, kek, snapshot, db, objects, catalog.View(), store.objects, sid, n);
    var rows, bucket := Bloques(catalog.View(), sid, n), Bucket(store.objects);
    error := RestoreSnapshot(suite, kek, snapshot, rows, false, bucket, output);
  }

  // ---------- a recorded backup ----------

  /** The catalog lists the rows of a recorded backup. */
  lemma {:induction false} RecordedBloques(db: Db, objects: map<Key, Bytes>, sid: SnapshotId, rows: seq<Bloque>, n: nat)
    requires Exact(db) && Recorded(db, objects, sid, rows) && n <= |rows|
    ensures Bloques(db, sid, n) == rows[..n]
  {
    if n > 0 {
      RecordedBloques(db, objects, sid, rows, n - 1);
      assert rows[..n] == rows[..n - 1] + [rows[n - 1]];
      assert LinkId(sid, n - 1) in db.links;
    }
  }

  /** A backup that the catalog and the bucket hold restores to its chunks. */
  lemma RecordedRestores(suite: Suite, kek: Bytes, snapshot: Snapshot, dek: Bytes, prefix: Bytes, chunks: seq<Bytes>,
                         db: Db, objects: map<Key, Bytes>, sid: SnapshotId)
    requires snapshot.estado == COMPLETED && Unwrap(suite, kek, snapshot.dek, snapshot.id) == Some(dek)
    requires Intact(suite, dek, snapshot.id, prefix, chunks) && Exact(db) && Addressed(suite, objects)
    requires Recorded(db, objects, sid, Rows(suite, dek, snapshot.id, prefix, chunks))
    ensures RestoredFrom(suite, kek, snapshot, db, objects, sid, |chunks|) == Outcome(Flatten(chunks), None)
  {
    var rows := Rows(suite, dek, snapshot.id, prefix, chunks);
    RecordedBloques(db, objects, sid, rows, |rows|);
    assert rows[..|rows|] == rows;
    RecordedHolds(suite, db, objects, sid, rows);
    RoundTrip(suite, kek, snapshot, dek, prefix, chunks, rows, false, objects, Bucket(objects));
  }
}
