/** The whole way of the data: source, chunker, pipeline, catalog and bucket, purge, rotation of keys, restore. */
module EndToEnd {
  import opened Common
  import opened ChunkFormat
  import opened Snapshots
  import Backup
  import Catalog
  import CatalogRestore
  import CatalogStore
  import FastCdc
  import Keys
  import Pipeline
  import Restore

  /** No payload of this backup is forgeable. */
  ghost predicate NoneForgeable(suite: Suite, dek: Bytes, id: Bytes, prefix: Bytes, chunks: seq<Bytes>) {
    forall i | 0 <= i < |chunks| :: Restore.Unforgeable(suite, Backup.Payload(suite, dek, id, prefix, i, chunks[i]))
  }

  const Q := Pipeline.PIPELINE_QUEUE_MAXSIZE
  const S := Pipeline.MAX_CONCURRENT_UPLOADS

  /** The pipeline can take these steps, and is done after them. */
  ghost predicate CompleteRun(chunks: seq<Bytes>, run: seq<Pipeline.Event>) {
    var start := Pipeline.Initial(chunks);
    Pipeline.Possible(Q, S, start, run) && Pipeline.Done(Pipeline.After(Q, S, start, run))
  }

  /** The chunks of a source that arrives in these parts. */
  function SourceChunks(p: FastCdc.Params, parts: seq<Bytes>, last: Bytes): seq<Bytes>
    requires p.Valid()
  {
    FastCdc.Chunks(p, Flatten(parts) + last)
  }

  lemma SourceOf(p: FastCdc.Params, parts: seq<Bytes>, last: Bytes)
    requires p.Valid()
    ensures Flatten(SourceChunks(p, parts, last)) == Flatten(parts) + last
  {
    FastCdc.ChunksPartition(p, Flatten(parts) + last);
  }

  /** One complete run of the pipeline over a source that arrives in these parts. */
  method RunPipeline(p: FastCdc.Params, parts: seq<Bytes>, last: Bytes, run: seq<Pipeline.Event>)
    returns (uploads: seq<Bytes>)
    requires p.Valid() && CompleteRun(SourceChunks(p, parts, last), run)
    ensures uploads == SourceChunks(p, parts, last)
  {
    var chunks := FastCdc.ChunkStream(p, parts, last);
    Pipeline.EveryRun(Q, S, chunks, run);
    uploads := Pipeline.After(Q, S, Pipeline.Initial(chunks), run).started;
  }

  /** What a backup finds: an exact catalog that does not know its snapshot, content-addressed objects, and for each of
      its hashes a row that forces a put, no row, or a stored object. */
  ghost predicate BeforeBackup(suite: Suite, dek: Bytes, id: Bytes, prefix: Bytes, chunks: seq<Bytes>,
                               sid: Catalog.SnapshotId, db: Catalog.Db, objects: map<Catalog.Key, Bytes>)
  {
    && |prefix| == 4 && Catalog.Exact(db) && Backup.Addressed(suite, objects) && sid !in db.snapshots
    && Backup.AllReady(suite, dek, id, prefix, chunks, db, objects)
  }

  /** After the last upload the catalog and the bucket hold the whole snapshot. */
  ghost predicate Backed(suite: Suite, dek: Bytes, id: Bytes, prefix: Bytes, chunks: seq<Bytes>,
                         sid: Catalog.SnapshotId, db: Catalog.Db, objects: map<Catalog.Key, Bytes>)
  {
    && Catalog.Exact(db) && Backup.Addressed(suite, objects)
    && Backup.Recorded(db, objects, sid, Backup.Rows(suite, dek, id, prefix, chunks))
  }

  ghost predicate SameImages(sid: Catalog.SnapshotId, db: Catalog.Db, objects: map<Catalog.Key, Bytes>,
                             db': Catalog.Db, objects': map<Catalog.Key, Bytes>)
  {
    forall t | t != sid :: Catalog.Image(db', objects', t) == Catalog.Image(db, objects, t)
  }

  /** Every snapshot that had not expired restores from what it did before. */
  ghost predicate LiveKept(db: Catalog.Db, objects: map<Catalog.Key, Bytes>,
                           db': Catalog.Db, objects': map<Catalog.Key, Bytes>)
  {
    forall t | t in db.snapshots && db.snapshots[t] != EXPIRED ::
      Catalog.Image(db', objects', t) == Catalog.Image(db, objects, t)
  }

  /** Registering the snapshot is all that is needed before the first upload. */
  lemma Registered(suite: Suite, dek: Bytes, id: Bytes, prefix: Bytes, chunks: seq<Bytes>, sid: Catalog.SnapshotId,
                   db: Catalog.Db, objects: map<Catalog.Key, Bytes>)
    requires BeforeBackup(suite, dek, id, prefix, chunks, sid, db, objects)
    ensures
      Backup.Uploading(suite, dek, id, prefix, chunks, sid, 0, Catalog.Apply(db, Catalog.AddSnapshot(sid)), objects)
  {
    var db' := Catalog.Apply(db, Catalog.AddSnapshot(sid));
    Catalog.ApplyExact(db, Catalog.AddSnapshot(sid));
    assert chunks[..0] == [];
    forall i | 0 <= i < |chunks|
      ensures Backup.Ready(db', objects, Backup.Row(suite, dek, id, prefix, i, chunks[i]).hash)
    {
      assert Backup.Ready(db, objects, Backup.Row(suite, dek, id, prefix, i, chunks[i]).hash);
    }
  }

  /** Uploads between registering a snapshot and setting its state touch no image but its own. */
  lemma OnlyItsOwnImage(sid: Catalog.SnapshotId, estado: SnapshotState,
                        db: Catalog.Db, objects: map<Catalog.Key, Bytes>,
                        db': Catalog.Db, objects': map<Catalog.Key, Bytes>)
    requires Backup.OthersKept(sid, Catalog.Apply(db, Catalog.AddSnapshot(sid)), objects, db', objects')
    requires sid !in db.snapshots
    ensures Catalog.Apply(db', Catalog.SetState(sid, estado)).snapshots == db.snapshots[sid := estado]
    ensures SameImages(sid, db, objects, Catalog.Apply(db', Catalog.SetState(sid, estado)), objects')
  {
    var started := Catalog.Apply(db, Catalog.AddSnapshot(sid));
    var ended := Catalog.Apply(db', Catalog.SetState(sid, estado));
    assert db.snapshots[sid := RUNNING][sid := estado] == db.snapshots[sid := estado];
    forall t | t != sid ensures Catalog.Image(ended, objects', t) == Catalog.Image(db, objects, t) {
      Catalog.SameImage(started, objects, db, objects, t);
      Catalog.SameImage(db', objects', ended, objects', t);
      assert Catalog.Image(db', objects', t) == Catalog.Image(started, objects, t);
    }
  }

  lemma Completed(suite: Suite, dek: Bytes, id: Bytes, prefix: Bytes, chunks: seq<Bytes>, sid: Catalog.SnapshotId,
                  db: Catalog.Db, objects: map<Catalog.Key, Bytes>)
    requires Backup.Uploading(suite, dek, id, prefix, chunks, sid, |chunks|, db, objects)
    ensures Backed(suite, dek, id, prefix, chunks, sid, Catalog.Apply(db, Catalog.SetState(sid, COMPLETED)), objects)
  {
    assert chunks[..|chunks|] == chunks;
    Catalog.ApplyExact(db, Catalog.SetState(sid, COMPLETED));
  }

  lemma FitOrNot(suite: Suite, chunks: seq<Bytes>, sent: nat)
    requires sent <= |chunks| && Backup.AllFit(suite, chunks[..sent])
    requires sent < |chunks| ==> !Backup.Fits(suite, sent, chunks[sent])
    ensures Backup.AllFit(suite, chunks) <==> sent == |chunks|
  {
    if sent == |chunks| {
      assert chunks[..sent] == chunks;
    }
  }

  /** The snapshot's row goes in as RUNNING, its chunks are uploaded, and its state is set. */
  method UploadSnapshot(suite: Suite, dek: Bytes, id: Bytes, prefix: Bytes, chunks: seq<Bytes>, sid: Catalog.SnapshotId,
                        catalog: CatalogStore.ChunkCatalog, store: CatalogStore.ObjectStore)
    returns (ok: bool)
    requires BeforeBackup(suite, dek, id, prefix, chunks, sid, catalog.View(), store.objects)
    modifies catalog, store
    ensures ok <==> Backup.AllFit(suite, chunks)
    ensures ok ==> Backed(suite, dek, id, prefix, chunks, sid, catalog.View(), store.objects)
    ensures Catalog.Exact(catalog.View()) && Backup.Addressed(suite, store.objects)
    ensures catalog.snapshots == old(catalog.snapshots)[sid := if ok then COMPLETED else FAILED]
    ensures SameImages(sid, old(catalog.View()), old(store.objects), catalog.View(), store.objects)
  {
    ghost var db, objects := catalog.View(), store.objects;
    Registered(suite, dek, id, prefix, chunks, sid, db, objects);
    catalog.StartSnapshot(sid);
    var sent;
    sent, ok := Backup.CompressEncryptUpload(suite, dek, id, prefix, chunks, sid, catalog, store);
    FitOrNot(suite, chunks, sent);
    var estado := if ok then COMPLETED else FAILED;
    if ok {
      Completed(suite, dek, id, prefix, chunks, sid, catalog.View(), store.objects);
    }
    Catalog.ApplyExact(catalog.View(), Catalog.SetState(sid, estado));
    OnlyItsOwnImage(sid, estado, db, objects, catalog.View(), store.objects);
    catalog.SetEstado(sid, estado);
  }

  /** The backup command up to its purge. Every other snapshot keeps its state, its links and its objects. */
  method RunBackup(p: FastCdc.Params, parts: seq<Bytes>, last: Bytes, run: seq<Pipeline.Event>, suite: Suite,
                   dek: Bytes, id: Bytes, prefix: Bytes, sid: Catalog.SnapshotId,
                   catalog: CatalogStore.ChunkCatalog, store: CatalogStore.ObjectStore)
    returns (ok: bool, total: nat)
    requires p.Valid() && CompleteRun(SourceChunks(p, parts, last), run)
    requires BeforeBackup(suite, dek, id, prefix, SourceChunks(p, parts, last), sid,
                          catalog.View(), store.objects)
    modifies catalog, store
    ensures ok <==> Backup.AllFit(suite, SourceChunks(p, parts, last))
    ensures total == |SourceChunks(p, parts, last)|
    ensures ok ==> Backed(suite, dek, id, prefix, SourceChunks(p, parts, last), sid,
                          catalog.View(), store.objects)
    ensures Catalog.Exact(catalog.View()) && Backup.Addressed(suite, store.objects)
    ensures catalog.snapshots == old(catalog.snapshots)[sid := if ok then COMPLETED else FAILED]
    ensures SameImages(sid, old(catalog.View()), old(store.objects), catalog.View(), store.objects)
    ensures |catalog.snapshots| <= |old(catalog.snapshots)| + 1
  {
    assert (old(catalog.snapshots)[sid := COMPLETED]).Keys == old(catalog.snapshots).Keys + {sid};
    assert (old(catalog.snapshots)[sid := FAILED]).Keys == old(catalog.snapshots).Keys + {sid};
    var chunks := RunPipeline(p, parts, last, run);
    total := |chunks|;
    ok := UploadSnapshot(suite, dek, id, prefix, chunks, sid, catalog, store);
  }

  /** A snapshot that was backed up restores to its source. */
  lemma BackedRestores(p: FastCdc.Params, parts: seq<Bytes>, last: Bytes, suite: Suite, kek: Bytes,
                       snapshot: Restore.Snapshot, dek: Bytes, prefix: Bytes, sid: Catalog.SnapshotId,
                       db: Catalog.Db, objects: map<Catalog.Key, Bytes>)
    requires p.Valid() && suite.Lawful() && |prefix| == 4
    requires snapshot.estado == COMPLETED && Unwrap(suite, kek, snapshot.dek, snapshot.id) == Some(dek)
    requires Backup.AllFit(suite, SourceChunks(p, parts, last))
    requires NoneForgeable(suite, dek, snapshot.id, prefix, SourceChunks(p, parts, last))
    requires Backed(suite, dek, snapshot.id, prefix, SourceChunks(p, parts, last), sid, db, objects)
    ensures CatalogRestore.RestoredFrom(suite, kek, snapshot, db, objects, sid, |SourceChunks(p, parts, last)|)
         == Restore.Outcome(Flatten(parts) + last, None)
    ensures CatalogRestore.Bounds(db, sid, |SourceChunks(p, parts, last)|)
  {
    var chunks := SourceChunks(p, parts, last);
    CatalogRestore.RecordedRestores(suite, kek, snapshot, dek, prefix, chunks, db, objects, sid);
    SourceOf(p, parts, last);
  }

  /** The restore command, with the rows as the database happens to return them. */
  method RestoreCommand(suite: Suite, kek: Bytes, snapshot: Restore.Snapshot, sid: Catalog.SnapshotId, ghost n: nat,
                        catalog: CatalogStore.ChunkCatalog, store: CatalogStore.ObjectStore,
                        shuffle: seq<Backup.Bloque> -> seq<Backup.Bloque>)
    returns (restored: Bytes, error: Option<Restore.RestoreError>)
    requires forall rows :: multiset(shuffle(rows)) == multiset(rows)
    requires CatalogRestore.Bounds(catalog.View(), sid, n)
    ensures Restore.Outcome(restored, error)
         == CatalogRestore.RestoredFrom(suite, kek, snapshot, catalog.View(), store.objects, sid, n)
  {
    var output := new Restore.OutputStream();
    var m := CatalogRestore.LinkBound(catalog.View(), sid);
    CatalogRestore.BloquesBeyond(catalog.View(), sid, m, Max(m, n));
    CatalogRestore.BloquesBeyond(catalog.View(), sid, n, Max(m, n));
    var rows := shuffle(CatalogRestore.Bloques(catalog.View(), sid, m));
    var bucket := CatalogRestore.Bucket(store.objects);
    CatalogRestore.RestoredHoweverPresented(suite, kek, snapshot, catalog.View(), store.objects, sid, n, rows, true);
    error := Restore.RestoreSnapshot(suite, kek, snapshot, rows, true, bucket, output);
    restored := output.contents;
  }

  lemma {:induction false} SizedNotEmpty(p: FastCdc.Params, chunks: seq<Bytes>)
    requires FastCdc.SizesOk(p, chunks)
    ensures Restore.NoneEmpty(chunks)
  {
    if chunks != [] {
      SizedNotEmpty(p, chunks[1..]);
      forall i | 0 <= i < |chunks| ensures chunks[i] != [] {
        assert i > 0 ==> chunks[1..][i - 1] == chunks[i];
      }
    }
  }

  /** Of the rows of a backup none can be spared: what restores is the source exactly when all of them are there. */
  lemma SourceIffAllRows(p: FastCdc.Params, data: Bytes, suite: Suite, kek: Bytes, snapshot: Restore.Snapshot,
                         dek: Bytes, prefix: Bytes, picks: seq<nat>, rows: seq<Backup.Bloque>, isList: bool,
                         objects: map<string, Bytes>, answers: Restore.Downloads)
    requires p.Valid() && snapshot.estado == COMPLETED
    requires Unwrap(suite, kek, snapshot.dek, snapshot.id) == Some(dek)
    requires Restore.Intact(suite, dek, snapshot.id, prefix, FastCdc.Chunks(p, data))
    requires Restore.Increasing(picks, |FastCdc.Chunks(p, data)|)
    requires
      var left := Restore.At(Backup.Rows(suite, dek, snapshot.id, prefix, FastCdc.Chunks(p, data)), picks);
      && Restore.Presents(rows, isList, left)
      && Backup.Holds(suite, objects, left) && Restore.Serves(answers, objects)
    ensures
      var outcome := Restore.Restored(suite, kek, snapshot, rows, isList, answers);
      outcome.error.None? && (outcome.written == data <==> |picks| == |FastCdc.Chunks(p, data)|)
  {
    var chunks := FastCdc.Chunks(p, data);
    FastCdc.ChunksSizes(p, data);
    SizedNotEmpty(p, chunks);
    FastCdc.ChunksPartition(p, data);
    Restore.RestoresSourceIff(suite, kek, snapshot, dek, prefix, chunks, picks, rows, isList, objects, answers);
  }
}
