/** Writing a snapshot: every chunk is compressed, sealed under its header and stored by its digest. */
module Backup {
  import opened Common
  import opened ChunkFormat
  import opened Catalog
  import opened CatalogStore

  /** A row of snapshot_chunks with the storage key of its pool entry. */
  datatype Bloque = Bloque(chunkSeq: nat, hash: Hash, storageKey: Key)

  /** The limits of the two 32-bit header fields. */
  predicate Fits(suite: Suite, i: nat, chunk: Bytes) {
    i < Pow256(4) && |suite.compress(chunk)| + 16 < Pow256(4)
  }

  ghost predicate AllFit(suite: Suite, chunks: seq<Bytes>) {
    forall i | 0 <= i < |chunks| :: Fits(suite, i, chunks[i])
  }

  /** What is stored for chunk `i`: its header, and its frame sealed with that header and the snapshot id. */
  function Payload(suite: Suite, dek: Bytes, id: Bytes, prefix: Bytes, i: nat, chunk: Bytes): (r: Bytes)
    ensures |r| >= HEADER_SIZE
  {
    var compressed := suite.compress(chunk);
    var nonce := NonceAt(prefix, i);
    var header := Pack(Header(i, nonce, |compressed| + 16));
    header + suite.encrypt(dek, nonce, compressed, Aad(header, id))
  }

  function Row(suite: Suite, dek: Bytes, id: Bytes, prefix: Bytes, i: nat, chunk: Bytes): Bloque {
    var hash := suite.digest(Payload(suite, dek, id, prefix, i, chunk));
    Bloque(i, hash, StorageKey(hash))
  }

  /** The rows of a complete snapshot, numbered from zero. */
  function Rows(suite: Suite, dek: Bytes, id: Bytes, prefix: Bytes, chunks: seq<Bytes>): (r: seq<Bloque>)
    ensures |r| == |chunks|
    ensures forall i | 0 <= i < |chunks| :: r[i] == Row(suite, dek, id, prefix, i, chunks[i])
  {
    if chunks == [] then []
    else
      var n := |chunks| - 1;
      Rows(suite, dek, id, prefix, chunks[..n]) + [Row(suite, dek, id, prefix, n, chunks[n])]
  }

  // ---------- the catalog and the bucket under uploads ----------

  /** Every chunk object lies under the key of its own digest. */
  ghost predicate Addressed(suite: Suite, objects: map<Key, Bytes>) {
    forall h: Hash | StorageKey(h) in objects :: suite.digest(objects[StorageKey(h)]) == h
  }

  /** If the row of this hash forces no put, its object is there. */
  ghost predicate Ready(db: Db, objects: map<Key, Bytes>, h: Hash) {
    h in db.pool && !NeedsUpload(db, h) ==> StorageKey(h) in objects
  }

  /** Exactly these rows are linked for the snapshot, and their objects are there. */
  ghost predicate Recorded(db: Db, objects: map<Key, Bytes>, sid: SnapshotId, rows: seq<Bloque>) {
    && (forall k | k in db.links && k.snapshot == sid :: k.seqNo < |rows|)
    && (forall i | 0 <= i < |rows| ::
          && LinkId(sid, i) in db.links && db.links[LinkId(sid, i)] == rows[i].hash
          && rows[i].chunkSeq == i && rows[i].storageKey == StorageKey(rows[i].hash)
          && rows[i].storageKey in objects)
  }

  /** The object behind each row has the recorded digest. */
  ghost predicate Holds(suite: Suite, objects: map<Key, Bytes>, rows: seq<Bloque>) {
    forall i | 0 <= i < |rows| ::
      rows[i].storageKey in objects && suite.digest(objects[rows[i].storageKey]) == rows[i].hash
  }

  lemma RecordedHolds(suite: Suite, db: Db, objects: map<Key, Bytes>, sid: SnapshotId, rows: seq<Bloque>)
    requires Addressed(suite, objects) && Recorded(db, objects, sid, rows)
    ensures Holds(suite, objects, rows)
  {
  }

  /** The catalog after one upload callback. */
  function Uploaded(db: Db, id: LinkId, h: Hash): Db {
    Linked(Prepared(db, h), id, h)
  }

  /** The bucket after it: the object is put only if the row is new or was caught in PURGING_S3. */
  function Put(db: Db, objects: map<Key, Bytes>, h: Hash, payload: Bytes): map<Key, Bytes> {
    if NeedsUpload(db, h) then objects[StorageKey(h) := payload] else objects
  }

  lemma PutAddressed(suite: Suite, db: Db, objects: map<Key, Bytes>, payload: Bytes)
    requires Addressed(suite, objects)
    ensures Addressed(suite, Put(db, objects, suite.digest(payload), payload))
  {
    var objects' := Put(db, objects, suite.digest(payload), payload);
    forall h: Hash | StorageKey(h) in objects' ensures suite.digest(objects'[StorageKey(h)]) == h {
      if StorageKey(h) == StorageKey(suite.digest(payload)) {
        StorageKeysDiffer(h, suite.digest(payload));
      }
    }
  }

  lemma UploadExact(db: Db, id: LinkId, h: Hash)
    requires Exact(db)
    ensures Exact(Uploaded(db, id, h))
  {
    PrepareExact(db, h);
    LinkExact(Prepared(db, h), id, h);
  }

  lemma UploadRecords(db: Db, objects: map<Key, Bytes>, sid: SnapshotId, rows: seq<Bloque>, h: Hash, payload: Bytes)
    requires Recorded(db, objects, sid, rows) && sid in db.snapshots && Ready(db, objects, h)
    ensures Recorded(Uploaded(db, LinkId(sid, |rows|), h), Put(db, objects, h, payload), sid,
                     rows + [Bloque(|rows|, h, StorageKey(h))])
  {
    var id := LinkId(sid, |rows|);
    assert id !in db.links;
    assert Uploaded(db, id, h).links == db.links[id := h];
  }

  lemma UploadKeepsReady(db: Db, objects: map<Key, Bytes>, id: LinkId, h: Hash, payload: Bytes, g: Hash)
    requires Ready(db, objects, h) && Ready(db, objects, g)
    ensures Ready(Uploaded(db, id, h), Put(db, objects, h, payload), g)
  {
  }

  /** An upload changes nothing about the object of an ACTIVE row. */
  lemma UploadKeepsStored(db: Db, objects: map<Key, Bytes>, id: LinkId, h: Hash, payload: Bytes, g: Hash)
    requires g in db.pool && db.pool[g].state == ACTIVE && db.pool[g].key == StorageKey(g)
    ensures Stored(Uploaded(db, id, h), Put(db, objects, h, payload), g) == Stored(db, objects, g)
  {
    if g != h && StorageKey(g) == StorageKey(h) {
      StorageKeysDiffer(g, h);
    }
  }

  /** A put replaces no object that a link leads to. */
  lemma UploadKeepsImage(db: Db, objects: map<Key, Bytes>, id: LinkId, h: Hash, payload: Bytes, t: SnapshotId)
    requires Exact(db) && t != id.snapshot
    ensures Image(Uploaded(db, id, h), Put(db, objects, h, payload), t) == Image(db, objects, t)
  {
    var db', objects' := Uploaded(db, id, h), Put(db, objects, h, payload);
    ExactMeans(db);
    forall k | k in db.links && k.snapshot == t
      ensures Stored(db', objects', db.links[k]) == Stored(db, objects, db.links[k])
    {
      UploadKeepsStored(db, objects, id, h, payload, db.links[k]);
    }
    SameImage(db, objects, db', objects', t);
  }

  lemma ShrunkAddressed(suite: Suite, before: map<Key, Bytes>, after: map<Key, Bytes>)
    requires Addressed(suite, before) && Shrunk(before, after)
    ensures Addressed(suite, after)
  {
  }

  /** The upload callback of one chunk: prepare, put if the row asks for it, link. A put that raises ends it, with the
      row prepared and nothing linked. */
  method UploadChunk(suite: Suite, sid: SnapshotId, seqNo: nat, payload: Bytes, h: Hash,
                     catalog: ChunkCatalog, store: ObjectStore, put: PutResult)
    returns (ok: bool)
    requires Exact(catalog.View())
    modifies catalog, store
    ensures Exact(catalog.View())
    ensures
      var needed := h !in old(catalog.pool) || old(catalog.pool)[h].state == PURGING_S3;
      && store.objects == (if needed && put != RaisedUnstored then old(store.objects)[StorageKey(h) := payload]
                           else old(store.objects))
      && if needed && put != PutDone then
           !ok && catalog.View() == Prepared(old(catalog.View()), h)
         else
           && (ok <==> LinkId(sid, seqNo) !in old(catalog.links) && sid in old(catalog.snapshots))
           && catalog.View() == Uploaded(old(catalog.View()), LinkId(sid, seqNo), h)
  {
    PrepareExact(catalog.View(), h);
    UploadExact(catalog.View(), LinkId(sid, seqNo), h);
    var key, needsUpload := catalog.CheckAndPrepare(h);
    if needsUpload {
      var raised := store.Put(key, payload, put);
      if raised {
        return false;
      }
    }
    ok := catalog.SaveChunkRef(LinkId(sid, seqNo), h);
  }

  /** One turn of the consumer: the payload of a chunk under a given nonce. */
  method Seal(suite: Suite, dek: Bytes, id: Bytes, ghost prefix: Bytes, i: nat, nonce: Bytes, chunk: Bytes)
    returns (payload: Option<Bytes>)
    requires nonce == NonceAt(prefix, i)
    ensures payload == if Fits(suite, i, chunk) then Some(Payload(suite, dek, id, prefix, i, chunk)) else None
  {
    var compressed := suite.compress(chunk);
    var header := CreateChunkHeader(i, nonce, |compressed| + 16);
    if header.Err? {
      return None;
    }
    payload := Some(header.value + suite.encrypt(dek, nonce, compressed, Aad(header.value, id)));
  }

  lemma AllFitSnoc(suite: Suite, chunks: seq<Bytes>, n: nat)
    requires n < |chunks| && AllFit(suite, chunks[..n]) && Fits(suite, n, chunks[n])
    ensures AllFit(suite, chunks[..n + 1]) && n < Pow256(4)
  {
    assert forall i | 0 <= i < n :: chunks[..n + 1][i] == chunks[..n][i];
  }

  lemma CounterHasRoom(n: nat)
    requires n <= Pow256(4)
    ensures n < Pow256(8)
  {
    Widths();
  }

  lemma RowsSnoc(suite: Suite, dek: Bytes, id: Bytes, prefix: Bytes, chunks: seq<Bytes>, n: nat)
    requires n < |chunks|
    ensures Rows(suite, dek, id, prefix, chunks[..n + 1])
         == Rows(suite, dek, id, prefix, chunks[..n]) + [Row(suite, dek, id, prefix, n, chunks[n])]
  {
    assert chunks[..n + 1][..n] == chunks[..n] && chunks[..n + 1][n] == chunks[n];
  }

  /** Every chunk of the backup is ready to be uploaded. */
  ghost predicate AllReady(suite: Suite, dek: Bytes, id: Bytes, prefix: Bytes, chunks: seq<Bytes>, db: Db,
                           objects: map<Key, Bytes>)
  {
    forall i | 0 <= i < |chunks| :: Ready(db, objects, Row(suite, dek, id, prefix, i, chunks[i]).hash)
  }

  lemma AllStayReady(suite: Suite, dek: Bytes, id: Bytes, prefix: Bytes, chunks: seq<Bytes>, db: Db,
                     objects: map<Key, Bytes>, link: LinkId, h: Hash, payload: Bytes)
    requires AllReady(suite, dek, id, prefix, chunks, db, objects) && Ready(db, objects, h)
    ensures AllReady(suite, dek, id, prefix, chunks, Uploaded(db, link, h), Put(db, objects, h, payload))
  {
    forall i | 0 <= i < |chunks|
      ensures Ready(Uploaded(db, link, h), Put(db, objects, h, payload), Row(suite, dek, id, prefix, i, chunks[i]).hash)
    {
      UploadKeepsReady(db, objects, link, h, payload, Row(suite, dek, id, prefix, i, chunks[i]).hash);
    }
  }

  /** Every other snapshot is left as it was. */
  ghost predicate OthersKept(sid: SnapshotId, db: Db, objects: map<Key, Bytes>, db': Db, objects': map<Key, Bytes>) {
    db'.snapshots == db.snapshots && forall t: SnapshotId | t != sid :: Image(db', objects', t) == Image(db, objects, t)
  }

  lemma UploadKeepsOthers(sid: SnapshotId, db0: Db, objects0: map<Key, Bytes>, db: Db, objects: map<Key, Bytes>,
                          seqNo: nat, h: Hash, payload: Bytes)
    requires Exact(db) && OthersKept(sid, db0, objects0, db, objects)
    ensures OthersKept(sid, db0, objects0, Uploaded(db, LinkId(sid, seqNo), h), Put(db, objects, h, payload))
  {
    forall t: SnapshotId | t != sid
      ensures Image(Uploaded(db, LinkId(sid, seqNo), h), Put(db, objects, h, payload), t) == Image(db0, objects0, t)
    {
      UploadKeepsImage(db, objects, LinkId(sid, seqNo), h, payload, t);
    }
  }

  /** The catalog and the bucket between two uploads of a backup. */
  ghost predicate Uploading(suite: Suite, dek: Bytes, id: Bytes, prefix: Bytes, chunks: seq<Bytes>, sid: SnapshotId,
                            sent: nat, db: Db, objects: map<Key, Bytes>)
    requires sent <= |chunks|
  {
    && Exact(db) && Addressed(suite, objects) && sid in db.snapshots
    && AllReady(suite, dek, id, prefix, chunks, db, objects)
    && Recorded(db, objects, sid, Rows(suite, dek, id, prefix, chunks[..sent]))
  }

  lemma UploadOneMore(suite: Suite, dek: Bytes, id: Bytes, prefix: Bytes, chunks: seq<Bytes>, sid: SnapshotId,
                      sent: nat, db: Db, objects: map<Key, Bytes>)
    requires sent < |chunks| && Uploading(suite, dek, id, prefix, chunks, sid, sent, db, objects)
    ensures
      var payload := Payload(suite, dek, id, prefix, sent, chunks[sent]);
      var h := suite.digest(payload);
      Uploading(suite, dek, id, prefix, chunks, sid, sent + 1, Uploaded(db, LinkId(sid, sent), h),
                Put(db, objects, h, payload))
  {
    var payload := Payload(suite, dek, id, prefix, sent, chunks[sent]);
    var h := suite.digest(payload);
    assert h == Row(suite, dek, id, prefix, sent, chunks[sent]).hash;
    UploadExact(db, LinkId(sid, sent), h);
    PutAddressed(suite, db, objects, payload);
    AllStayReady(suite, dek, id, prefix, chunks, db, objects, LinkId(sid, sent), h, payload);
    RowsSnoc(suite, dek, id, prefix, chunks, sent);
    UploadRecords(db, objects, sid, Rows(suite, dek, id, prefix, chunks[..sent]), h, payload);
  }

  /**
   * The consumer loop: numbers the chunks and uploads each, and stops with an error at the first that the header cannot
   * describe. The catalog then links exactly the uploaded chunks, and every other snapshot is as it was.
   */
  method CompressEncryptUpload(suite: Suite, dek: Bytes, id: Bytes, prefix: Bytes, chunks: seq<Bytes>,
                               sid: SnapshotId, catalog: ChunkCatalog, store: ObjectStore)
    returns (sent: nat, ok: bool)
    requires |prefix| == 4
    requires Uploading(suite, dek, id, prefix, chunks, sid, 0, catalog.View(), store.objects)
    modifies catalog, store
    ensures sent <= |chunks| && (ok <==> sent == |chunks|)
    ensures AllFit(suite, chunks[..sent])
    ensures !ok ==> !Fits(suite, sent, chunks[sent])
    ensures Uploading(suite, dek, id, prefix, chunks, sid, sent, catalog.View(), store.objects)
    ensures OthersKept(sid, old(catalog.View()), old(store.objects), catalog.View(), store.objects)
  {
    var nonces := new NonceGenerator(prefix);
    sent := 0;
    while sent < |chunks|
      invariant sent <= |chunks| && nonces.counter == sent <= Pow256(4) && nonces.prefix == prefix
      invariant AllFit(suite, chunks[..sent])
      invariant Uploading(suite, dek, id, prefix, chunks, sid, sent, catalog.View(), store.objects)
      invariant OthersKept(sid, old(catalog.View()), old(store.objects), catalog.View(), store.objects)
    {
      CounterHasRoom(sent);
      var nonce := nonces.Next();
      var payload := Seal(suite, dek, id, prefix, sent, nonce.value, chunks[sent]);
      if payload.None? {
        return sent, false;
      }
      AllFitSnoc(suite, chunks, sent);
      ghost var h := suite.digest(payload.value);
      UploadOneMore(suite, dek, id, prefix, chunks, sid, sent, catalog.View(), store.objects);
      UploadKeepsOthers(sid, old(catalog.View()), old(store.objects), catalog.View(), store.objects, sent, h,
                        payload.value);
      var _ := UploadChunk(suite, sid, sent, payload.value, suite.digest(payload.value), catalog, store, PutDone);
      sent := sent + 1;
    }
    ok := true;
  }

  /** What the reader finds in a payload: the header, and behind it the frame sealed with that header and the id, of the
      length that the header gives. */
  lemma PayloadParts(suite: Suite, dek: Bytes, id: Bytes, prefix: Bytes, i: nat, chunk: Bytes)
    requires |prefix| == 4 && Fits(suite, i, chunk)
    ensures
      var payload := Payload(suite, dek, id, prefix, i, chunk);
      var nonce := NonceAt(prefix, i);
      && ParseChunkHeader(payload[..26]) == Ok(Header(i, nonce, |suite.compress(chunk)| + 16))
      && payload[26..] == suite.encrypt(dek, nonce, suite.compress(chunk), payload[..26] + id)
      && (suite.Lawful() ==> ParseChunkHeader(payload[..26]).value.ciphertextLen == |payload[26..]|)
  {
    var nonce := NonceAt(prefix, i);
    var len := |suite.compress(chunk)| + 16;
    var header := Pack(Header(i, nonce, len));
    var sealed := suite.encrypt(dek, nonce, suite.compress(chunk), Aad(header, id));
    HeaderRoundTrip(i, nonce, len);
    assert (header + sealed)[..26] == header && (header + sealed)[26..] == sealed;
  }

  /** No two chunks of a snapshot are sealed under the same nonce. */
  lemma NoncesOfASnapshotDiffer(suite: Suite, dek: Bytes, id: Bytes, prefix: Bytes, i: nat, c: Bytes, j: nat, d: Bytes)
    requires |prefix| == 4 && Fits(suite, i, c) && Fits(suite, j, d) && i != j
    ensures
      var h := ParseChunkHeader(Payload(suite, dek, id, prefix, i, c)[..26]);
      var g := ParseChunkHeader(Payload(suite, dek, id, prefix, j, d)[..26]);
      h.Ok? && g.Ok? && h.value.nonce != g.value.nonce
  {
    PayloadParts(suite, dek, id, prefix, i, c);
    PayloadParts(suite, dek, id, prefix, j, d);
    Widths();
    if NonceAt(prefix, i) == NonceAt(prefix, j) {
      NoncesDiffer(prefix, i, j);
    }
  }
}
