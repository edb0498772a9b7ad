/** The chunk catalog: pool rows, snapshot links, the triggers that keep them in step, and the two-phase purge. */
module Catalog {
  import opened Common
  import opened Snapshots

  type Hash = string
  type Key = string
  type SnapshotId = string

  datatype ChunkState = ACTIVE | PENDING_DELETE | PURGING_S3 | CORRUPT

  datatype ChunkRow = ChunkRow(key: Key, refCount: int, state: ChunkState, purgeScheduled: bool)

  /** The primary key of snapshot_chunks. */
  datatype LinkId = LinkId(snapshot: SnapshotId, seqNo: nat)

  datatype Db = Db(pool: map<Hash, ChunkRow>, links: map<LinkId, Hash>, snapshots: map<SnapshotId, SnapshotState>)

  function StorageKey(h: Hash): Key {
    "chunks/" + h + ".bin"
  }

  lemma StorageKeysDiffer(g: Hash, h: Hash)
    requires StorageKey(g) == StorageKey(h)
    ensures g == h
  {
    var a, b := StorageKey(g), StorageKey(h);
    assert |g| == |h|;
    assert a[7..7 + |g|] == g && b[7..7 + |h|] == h;
  }

  // ---------- the triggers ----------

  /** After inserting a link. */
  function Referenced(r: ChunkRow): ChunkRow {
    r.(refCount := r.refCount + 1, state := ACTIVE, purgeScheduled := false)
  }

  /** After deleting a link, with the clamp at zero; every right-hand side sees the old count. */
  function Unreferenced(r: ChunkRow): ChunkRow {
    r.(refCount := if r.refCount > 0 then r.refCount - 1 else 0,
       state := if r.refCount - 1 == 0 then PENDING_DELETE else r.state,
       purgeScheduled := if r.refCount - 1 == 0 then true else r.purgeScheduled)
  }

  /** Whatever the row, the trigger takes one link off its count and never goes below zero. */
  lemma CountClamped(r: ChunkRow)
    ensures Unreferenced(r).refCount == Max(0, r.refCount - 1)
  {
  }

  // ---------- exactness ----------

  function LinksTo(links: map<LinkId, Hash>, h: Hash): set<LinkId> {
    set k | k in links && links[k] == h
  }

  /** Counts are exact, a referenced chunk is ACTIVE, an ACTIVE one is not scheduled for deletion, links point to
      existing rows, and keys are those of the hashes. */
  ghost predicate Exact(db: Db) {
    && (forall h | h in db.pool ::
          && db.pool[h].refCount == |LinksTo(db.links, h)|
          && (db.pool[h].refCount > 0 ==> db.pool[h].state == ACTIVE)
          && (db.pool[h].state == ACTIVE ==> !db.pool[h].purgeScheduled)
          && db.pool[h].key == StorageKey(h))
    && (forall k | k in db.links :: db.links[k] in db.pool && k.snapshot in db.snapshots)
  }

  /** In an exact catalog a row that is being deleted has no links, and no link sees the clamp of its trigger. */
  lemma ExactMeans(db: Db)
    requires Exact(db)
    ensures forall h | h in db.pool && db.pool[h].state in {PENDING_DELETE, PURGING_S3} :: LinksTo(db.links, h) == {}
    ensures forall k | k in db.links :: db.pool[db.links[k]].refCount >= 1
    ensures forall g, h | g in db.pool && h in db.pool && db.pool[g].key == db.pool[h].key :: g == h
  {
    forall h | h in db.pool && db.pool[h].refCount == 0 ensures LinksTo(db.links, h) == {} {
      assert |LinksTo(db.links, h)| == 0;
    }
    forall k | k in db.links ensures db.pool[db.links[k]].refCount >= 1 {
      assert k in LinksTo(db.links, db.links[k]);
      SubsetSize({k}, LinksTo(db.links, db.links[k]));
    }
    forall g, h | g in db.pool && h in db.pool && db.pool[g].key == db.pool[h].key ensures g == h {
      StorageKeysDiffer(g, h);
    }
  }

  // ---------- transactions ----------

  datatype Tx =
    | AddSnapshot(snapshot: SnapshotId)
    | SetState(snapshot: SnapshotId, state: SnapshotState)
    | Prepare(hash: Hash)
    | Link(id: LinkId, linked: Hash)
    | Unlink(gone: LinkId)
    | DeleteSnapshot(snapshot: SnapshotId)
    | Phase1(chosen: set<Hash>)
    | Phase2Confirm(chosen: set<Hash>)
    | Phase2Revert(chosen: set<Hash>)

  function Prepared(db: Db, h: Hash): Db {
    if h !in db.pool then
      db.(pool := db.pool[h := ChunkRow(StorageKey(h), 0, ACTIVE, false)])
    else if db.pool[h].state in {PENDING_DELETE, PURGING_S3} then
      db.(pool := db.pool[h := db.pool[h].(state := ACTIVE, purgeScheduled := false)])
    else db
  }

  /** Whether the uploader must put the object after `Prepare`. */
  predicate NeedsUpload(db: Db, h: Hash) {
    h !in db.pool || db.pool[h].state == PURGING_S3
  }

  /** The insert fails on a duplicate primary key or a missing foreign key. */
  function Linked(db: Db, id: LinkId, h: Hash): Db {
    if id in db.links || h !in db.pool || id.snapshot !in db.snapshots then db
    else db.(pool := db.pool[h := Referenced(db.pool[h])], links := db.links[id := h])
  }

  function Unlinked(db: Db, id: LinkId): Db {
    if id !in db.links then db
    else
      var h := db.links[id];
      db.(pool := if h in db.pool then db.pool[h := Unreferenced(db.pool[h])] else db.pool, links := db.links - {id})
  }

  /** The trigger aborts deleting a snapshot while it is COMPLETED or RUNNING. */
  predicate SnapshotDeletable(db: Db, s: SnapshotId) {
    s in db.snapshots && db.snapshots[s] !in {COMPLETED, RUNNING}
  }

  predicate Orphan(r: ChunkRow) {
    r.refCount == 0 && r.state == PENDING_DELETE
  }

  function Phase1Pool(pool: map<Hash, ChunkRow>, chosen: set<Hash>): map<Hash, ChunkRow> {
    map h | h in pool :: if h in chosen && pool[h].refCount == 0 then pool[h].(state := PURGING_S3) else pool[h]
  }

  predicate Deleted(r: ChunkRow) {
    r.state == PURGING_S3 && r.refCount == 0
  }

  function ConfirmPool(pool: map<Hash, ChunkRow>, chosen: set<Hash>): map<Hash, ChunkRow> {
    map h | h in pool && !(h in chosen && Deleted(pool[h])) :: pool[h]
  }

  function RevertPool(pool: map<Hash, ChunkRow>, chosen: set<Hash>): map<Hash, ChunkRow> {
    map h | h in pool ::
      if h in chosen && pool[h].state == PURGING_S3 then pool[h].(state := PENDING_DELETE) else pool[h]
  }

  function Apply(db: Db, tx: Tx): Db {
    match tx
    case AddSnapshot(s) => if s in db.snapshots then db else db.(snapshots := db.snapshots[s := RUNNING])
    case SetState(s, state) => if s in db.snapshots then db.(snapshots := db.snapshots[s := state]) else db
    case Prepare(h) => Prepared(db, h)
    case Link(id, h) => Linked(db, id, h)
    case Unlink(id) => Unlinked(db, id)
    case DeleteSnapshot(s) => if SnapshotDeletable(db, s) then Dropped(db, s) else db
    case Phase1(chosen) => db.(pool := Phase1Pool(db.pool, chosen))
    case Phase2Confirm(chosen) => db.(pool := ConfirmPool(db.pool, chosen))
    case Phase2Revert(chosen) => db.(pool := RevertPool(db.pool, chosen))
  }

  lemma LinksToMore(links: map<LinkId, Hash>, id: LinkId, h: Hash, g: Hash)
    requires id !in links
    ensures |LinksTo(links[id := h], g)| == |LinksTo(links, g)| + if g == h then 1 else 0
  {
    assert LinksTo(links[id := h], g) == LinksTo(links, g) + if g == h then {id} else {};
    assert id !in LinksTo(links, g);
  }

  lemma LinkExact(db: Db, id: LinkId, h: Hash)
    requires Exact(db)
    ensures Exact(Linked(db, id, h))
  {
    var db' := Linked(db, id, h);
    if id !in db.links {
      forall g | g in db'.pool
        ensures |LinksTo(db.links[id := h], g)| == |LinksTo(db.links, g)| + if g == h then 1 else 0
      {
        LinksToMore(db.links, id, h, g);
      }
    }
  }

  lemma UnlinkExact(db: Db, id: LinkId)
    requires Exact(db)
    ensures Exact(Unlinked(db, id))
  {
    var db' := Unlinked(db, id);
    if db' != db {
      var h := db.links[id];
      assert id in LinksTo(db.links, h);
      assert LinksTo(db'.links, h) == LinksTo(db.links, h) - {id};
      forall g | g in db.pool && g != h ensures LinksTo(db'.links, g) == LinksTo(db.links, g) {
      }
    }
  }

  /** What phase 2 deletes has no links and is not ACTIVE, so the trigger that protects rows in use never aborts it. */
  lemma ConfirmExact(db: Db, chosen: set<Hash>)
    requires Exact(db)
    ensures Exact(db.(pool := ConfirmPool(db.pool, chosen)))
    ensures forall k | k in db.links :: db.links[k] in ConfirmPool(db.pool, chosen)
    ensures forall h | h in db.pool && h !in ConfirmPool(db.pool, chosen) ::
      db.pool[h].refCount == 0 && db.pool[h].state != ACTIVE
  {
    ExactMeans(db);
  }

  /** Changing only the states of unreferenced rows keeps the catalog exact. */
  lemma RestatedExact(db: Db, pool: map<Hash, ChunkRow>)
    requires Exact(db) && pool.Keys == db.pool.Keys
    requires forall h | h in pool :: pool[h].refCount == db.pool[h].refCount && pool[h].key == db.pool[h].key
    requires forall h | h in pool && pool[h].refCount > 0 :: pool[h].state == db.pool[h].state
    requires forall h | h in pool && pool[h].state == ACTIVE :: !pool[h].purgeScheduled
    ensures Exact(db.(pool := pool))
  {
  }

  lemma PrepareExact(db: Db, h: Hash)
    requires Exact(db)
    ensures Exact(Prepared(db, h))
  {
    if h in db.pool {
      RestatedExact(db, Prepared(db, h).pool);
    } else {
      assert LinksTo(db.links, h) == {};
    }
  }

  /** After preparing a chunk its row is there and is not being deleted; only a new row or one that was being deleted
      has changed. */
  lemma PreparedIs(db: Db, h: Hash)
    ensures
      var db' := Prepared(db, h);
      && db'.links == db.links && db'.snapshots == db.snapshots && db'.pool - {h} == db.pool - {h}
      && h in db'.pool && db'.pool[h].state !in {PENDING_DELETE, PURGING_S3}
      && if h in db.pool && db.pool[h].state !in {PENDING_DELETE, PURGING_S3} then db' == db
         else db'.pool[h].state == ACTIVE && (h in db.pool ==> db'.pool[h].refCount == db.pool[h].refCount)
  {
  }

  /** A new link makes its chunk ACTIVE from any state; a duplicate key or a missing foreign key changes nothing. */
  lemma LinkedIs(db: Db, id: LinkId, h: Hash)
    requires Exact(db)
    ensures
      var db' := Linked(db, id, h);
      if id !in db.links && h in db.pool && id.snapshot in db.snapshots then
        && db'.links == db.links[id := h] && db'.snapshots == db.snapshots && db'.pool - {h} == db.pool - {h}
        && h in db'.pool && db'.pool[h].state == ACTIVE && db'.pool[h].refCount == |LinksTo(db.links, h)| + 1
      else db' == db
  {
  }

  /** Deleting a link schedules its chunk for deletion exactly when no other link to it is left. */
  lemma UnlinkedIs(db: Db, id: LinkId)
    requires Exact(db) && id in db.links
    ensures
      var db', h := Unlinked(db, id), db.links[id];
      && db'.links == db.links - {id} && db'.snapshots == db.snapshots && db'.pool - {h} == db.pool - {h}
      && h in db'.pool && db'.pool[h].refCount == |LinksTo(db'.links, h)|
      && (if LinksTo(db'.links, h) == {} then db'.pool[h].state == PENDING_DELETE && db'.pool[h].purgeScheduled
          else db'.pool[h].state == ACTIVE && !db'.pool[h].purgeScheduled)
  {
    var h := db.links[id];
    assert id in LinksTo(db.links, h);
    assert LinksTo(Unlinked(db, id).links, h) == LinksTo(db.links, h) - {id};
    assert db.pool[h].refCount == |LinksTo(db.links, h)|;
  }

  lemma SnapshotTxExact(db: Db, tx: Tx)
    requires Exact(db) && (tx.AddSnapshot? || tx.SetState?)
    ensures Exact(Apply(db, tx))
  {
  }

  /** Every transaction keeps the catalog exact; none relies on another to have run. */
  lemma ApplyExact(db: Db, tx: Tx)
    requires Exact(db)
    ensures Exact(Apply(db, tx))
  {
    match tx
    case Prepare(h) => PrepareExact(db, h);
    case Link(id, h) => LinkExact(db, id, h);
    case Unlink(id) => UnlinkExact(db, id);
    case DeleteSnapshot(s) => DroppedExact(db, s);
    case Phase1(chosen) => RestatedExact(db, Phase1Pool(db.pool, chosen));
    case Phase2Confirm(chosen) => ConfirmExact(db, chosen);
    case Phase2Revert(chosen) => RestatedExact(db, RevertPool(db.pool, chosen));
    case _ => SnapshotTxExact(db, tx);
  }

  /** Which transaction a snapshot does not survive: its deletion, unless it is COMPLETED or RUNNING. */
  lemma SnapshotGoneIff(db: Db, tx: Tx, s: SnapshotId)
    requires s in db.snapshots
    ensures s !in Apply(db, tx).snapshots <==>
      tx == DeleteSnapshot(s) && db.snapshots[s] != COMPLETED && db.snapshots[s] != RUNNING
  {
  }

  function Run(db: Db, txs: seq<Tx>): Db
    decreases |txs|
  {
    if txs == [] then db else Run(Apply(db, txs[0]), txs[1..])
  }

  lemma {:induction false} RunExact(db: Db, txs: seq<Tx>)
    requires Exact(db)
    ensures Exact(Run(db, txs))
    decreases |txs|
  {
    if txs != [] {
      ApplyExact(db, txs[0]);
      RunExact(Apply(db, txs[0]), txs[1..]);
    }
  }

  const EMPTY := Db(map[], map[], map[])

  /** Every interleaving of prepare, link, unlink, snapshot and purge transactions on a new catalog leaves it exact. */
  lemma EveryInterleavingExact(txs: seq<Tx>)
    ensures Exact(Run(EMPTY, txs))
  {
    RunExact(EMPTY, txs);
  }

  // ---------- removing the links of a whole snapshot ----------

  function LinksOf(links: map<LinkId, Hash>, s: SnapshotId): set<LinkId> {
    set k | k in links && k.snapshot == s
  }

  /** A pool row once the links in `gone` are deleted: its count is what remains; if nothing does, it is scheduled. */
  function RowWithout(r: ChunkRow, links: map<LinkId, Hash>, gone: set<LinkId>, h: Hash): ChunkRow {
    var left := |LinksTo(links - gone, h)|;
    if LinksTo(links, h) !! gone then r
    else if left == 0 then r.(refCount := 0, state := PENDING_DELETE, purgeScheduled := true)
    else r.(refCount := left)
  }

  function PoolWithout(pool: map<Hash, ChunkRow>, links: map<LinkId, Hash>, gone: set<LinkId>): map<Hash, ChunkRow> {
    map h | h in pool :: RowWithout(pool[h], links, gone, h)
  }

  function Without(db: Db, gone: set<LinkId>): Db {
    Db(PoolWithout(db.pool, db.links, gone), db.links - gone, db.snapshots)
  }

  lemma LinksToWithout(links: map<LinkId, Hash>, gone: set<LinkId>, h: Hash)
    ensures LinksTo(links - gone, h) == LinksTo(links, h) - gone
  {
  }

  lemma LinksOneLess(links: map<LinkId, Hash>, gone: set<LinkId>, k: LinkId, h: Hash)
    requires k in links && k !in gone && links[k] == h
    ensures |LinksTo(links - gone, h)| == |LinksTo(links - (gone + {k}), h)| + 1
  {
    LinksToWithout(links, gone, h);
    LinksToWithout(links, gone + {k}, h);
    TakeAway(LinksTo(links, h), gone, k);
  }

  lemma TakeAway<T>(all: set<T>, gone: set<T>, k: T)
    requires k in all && k !in gone
    ensures |all - gone| == |all - (gone + {k})| + 1
  {
    assert all - (gone + {k}) == (all - gone) - {k};
  }

  lemma RowOneLess(db: Db, gone: set<LinkId>, k: LinkId)
    requires Exact(db) && k in db.links && k !in gone
    ensures Unreferenced(RowWithout(db.pool[db.links[k]], db.links, gone, db.links[k])) ==
      RowWithout(db.pool[db.links[k]], db.links, gone + {k}, db.links[k])
  {
    var h := db.links[k];
    LinksOneLess(db.links, gone, k, h);
    assert k in LinksTo(db.links, h);
    if LinksTo(db.links, h) !! gone {
      LinksToWithout(db.links, gone, h);
    }
  }

  lemma OtherRowSame(db: Db, gone: set<LinkId>, k: LinkId, g: Hash)
    requires k in db.links && g in db.pool && g != db.links[k]
    ensures RowWithout(db.pool[g], db.links, gone + {k}, g) == RowWithout(db.pool[g], db.links, gone, g)
  {
    assert LinksTo(db.links - gone, g) == LinksTo(db.links - (gone + {k}), g);
  }

  lemma PoolOneLess(db: Db, gone: set<LinkId>, k: LinkId)
    requires Exact(db) && k in db.links && k !in gone
    ensures
      var h, pool := db.links[k], Without(db, gone).pool;
      h in pool && pool[h := Unreferenced(pool[h])] == Without(db, gone + {k}).pool
  {
    var h, pool, pool' := db.links[k], Without(db, gone).pool, Without(db, gone + {k}).pool;
    RowOneLess(db, gone, k);
    forall g | g in db.pool && g != h ensures pool[g] == pool'[g] {
      OtherRowSame(db, gone, k, g);
    }
    assert pool[h := Unreferenced(pool[h])] == pool';
  }

  /** The per-row triggers of a bulk delete add up to that, in any order. */
  lemma WithoutOneMore(db: Db, gone: set<LinkId>, k: LinkId)
    requires Exact(db) && k in db.links && k !in gone
    ensures Unlinked(Without(db, gone), k) == Without(db, gone + {k})
  {
    assert (db.links - gone) - {k} == db.links - (gone + {k});
    PoolOneLess(db, gone, k);
  }

  lemma WithoutNone(db: Db)
    ensures Without(db, {}) == db
  {
    assert Without(db, {}).pool == db.pool;
  }

  lemma {:induction false} WithoutExact(db: Db, gone: set<LinkId>)
    requires Exact(db) && gone <= db.links.Keys
    ensures Exact(Without(db, gone))
  {
    if gone == {} {
      WithoutNone(db);
    } else {
      var k :| k in gone;
      WithoutExact(db, gone - {k});
      WithoutOneMore(db, gone - {k}, k);
      assert gone - {k} + {k} == gone;
      UnlinkExact(Without(db, gone - {k}), k);
    }
  }

  /** What one bulk delete request does: which of the requested keys vanish, and whether it raises. A request that
      raises may have deleted objects, and one that returns may have left some. */
  datatype Reply = Reply(deleted: set<Key>, raises: bool)

  // ---------- what a restore reads ----------

  /** For each link of a snapshot: its hash, its storage key and the stored bytes, if present. */
  function Image(db: Db, objects: map<Key, Bytes>, s: SnapshotId): map<LinkId, (Hash, Option<(Key, Option<Bytes>)>)> {
    map k | k in db.links && k.snapshot == s :: (db.links[k], Stored(db, objects, db.links[k]))
  }

  function Stored(db: Db, objects: map<Key, Bytes>, h: Hash): Option<(Key, Option<Bytes>)> {
    if h !in db.pool then None
    else Some((db.pool[h].key, if db.pool[h].key in objects then Some(objects[db.pool[h].key]) else None))
  }

  function KeysOf(pool: map<Hash, ChunkRow>, chosen: set<Hash>): set<Key> {
    set h | h in chosen && h in pool :: pool[h].key
  }

  predicate AllOrphans(pool: map<Hash, ChunkRow>, chosen: set<Hash>) {
    forall h | h in chosen :: h in pool && pool[h].refCount == 0
  }

  lemma SameImage(db: Db, objects: map<Key, Bytes>, db': Db, objects': map<Key, Bytes>, s: SnapshotId)
    requires forall k: LinkId | k.snapshot == s :: k in db.links <==> k in db'.links
    requires forall k | k in db.links && k.snapshot == s ::
      db'.links[k] == db.links[k] && Stored(db', objects', db.links[k]) == Stored(db, objects, db.links[k])
    ensures Image(db', objects', s) == Image(db, objects, s)
  {
  }

  /** Rows without links: no link leads to them, and no linked row shares a key with them. */
  lemma OrphansUnlinked(db: Db, chosen: set<Hash>)
    requires Exact(db) && AllOrphans(db.pool, chosen)
    ensures forall k | k in db.links :: db.links[k] !in chosen && db.pool[db.links[k]].key !in KeysOf(db.pool, chosen)
  {
    ExactMeans(db);
    forall k | k in db.links ensures db.links[k] !in chosen {
      assert db.pool[db.links[k]].refCount >= 1;
    }
  }

  /** What the pool can look like after the marking transaction, the confirmation or the reversion. */
  predicate PurgeOutcome(pool: map<Hash, ChunkRow>, chosen: set<Hash>, after: map<Hash, ChunkRow>) {
    var marked := Phase1Pool(pool, chosen);
    after == marked || after == RevertPool(marked, chosen) || after == ConfirmPool(marked, chosen)
  }

  lemma PurgeKeepsExact(db: Db, chosen: set<Hash>, after: map<Hash, ChunkRow>)
    requires Exact(db) && PurgeOutcome(db.pool, chosen, after)
    ensures Exact(db.(pool := after))
  {
    var marked := db.(pool := Phase1Pool(db.pool, chosen));
    RestatedExact(db, marked.pool);
    if after == RevertPool(marked.pool, chosen) {
      RestatedExact(marked, after);
    } else if after == ConfirmPool(marked.pool, chosen) {
      ConfirmExact(marked, chosen);
    }
  }

  /** The whole purge, after any S3 outcome and up to any point, leaves every image alone. */
  lemma PurgeKeepsImage(db: Db, objects: map<Key, Bytes>, chosen: set<Hash>, wiped: set<Key>,
                        after: map<Hash, ChunkRow>, s: SnapshotId)
    requires Exact(db) && AllOrphans(db.pool, chosen) && wiped <= KeysOf(db.pool, chosen)
    requires PurgeOutcome(db.pool, chosen, after)
    ensures Image(db.(pool := after), objects - wiped, s) == Image(db, objects, s)
  {
    OrphansUnlinked(db, chosen);
    forall k | k in db.links && k.snapshot == s
      ensures Stored(db.(pool := after), objects - wiped, db.links[k]) == Stored(db, objects, db.links[k])
    {
      assert after[db.links[k]] == db.pool[db.links[k]];
    }
    SameImage(db, objects, db.(pool := after), objects - wiped, s);
  }

  /** Without a snapshot: its row goes, and the cascade deletes its links, each with its trigger. */
  function Dropped(db: Db, s: SnapshotId): Db {
    Db(PoolWithout(db.pool, db.links, LinksOf(db.links, s)), db.links - LinksOf(db.links, s), db.snapshots - {s})
  }

  lemma DroppedExact(db: Db, s: SnapshotId)
    requires Exact(db)
    ensures Exact(Dropped(db, s))
  {
    var mid := Without(db, LinksOf(db.links, s));
    WithoutExact(db, LinksOf(db.links, s));
    forall k | k in mid.links ensures k.snapshot in db.snapshots - {s} {
      assert k in db.links && k !in LinksOf(db.links, s);
    }
  }

  lemma DroppedKeepsImage(db: Db, objects: map<Key, Bytes>, s: SnapshotId, t: SnapshotId)
    requires s != t
    ensures Image(Dropped(db, s), objects, t) == Image(db, objects, t)
  {
    SameImage(db, objects, Dropped(db, s), objects, t);
  }

  /** Dropping a snapshot and then purging orphans: one step of the purge loop. */
  lemma PurgeStepKeepsImage(db: Db, objects: map<Key, Bytes>, s: SnapshotId, chosen: set<Hash>, wiped: set<Key>,
                            after: map<Hash, ChunkRow>, t: SnapshotId)
    requires Exact(db) && s != t && AllOrphans(Dropped(db, s).pool, chosen)
    requires wiped <= KeysOf(Dropped(db, s).pool, chosen) && PurgeOutcome(Dropped(db, s).pool, chosen, after)
    ensures Image(Dropped(db, s).(pool := after), objects - wiped, t) == Image(db, objects, t)
  {
    DroppedExact(db, s);
    DroppedKeepsImage(db, objects, s, t);
    PurgeKeepsImage(Dropped(db, s), objects, chosen, wiped, after, t);
  }

  // ---------- what a purge leaves ----------

  /** Nothing needs this chunk once these snapshots are gone: all its links are theirs, or it had none and was waiting
      to be deleted. */
  predicate Unneeded(db: Db, dead: set<SnapshotId>, h: Hash)
    requires h in db.pool
  {
    if LinksTo(db.links, h) == {} then db.pool[h].state == PENDING_DELETE
    else forall k | k in LinksTo(db.links, h) :: k.snapshot in dead
  }

  function UnneededOf(db: Db, dead: set<SnapshotId>): set<Hash> {
    set h | h in db.pool && Unneeded(db, dead, h)
  }

  /** The links of the other snapshots. */
  function LinksBut(links: map<LinkId, Hash>, dead: set<SnapshotId>): map<LinkId, Hash> {
    map k | k in links && k.snapshot !in dead :: links[k]
  }

  /** The catalog without these snapshots and whatever nothing needs without them; the other rows count the links that
      are left. Without a snapshot to purge, nothing is purged. */
  function Swept(db: Db, dead: set<SnapshotId>): Db {
    if dead == {} then db
    else
      Db(map h | h in db.pool && !Unneeded(db, dead, h) ::
           db.pool[h].(refCount := |LinksTo(LinksBut(db.links, dead), h)|),
         LinksBut(db.links, dead), db.snapshots - dead)
  }

  function KeysFor(hashes: set<Hash>): set<Key> {
    set h | h in hashes :: StorageKey(h)
  }

  lemma KeysOfExact(db: Db, pool: map<Hash, ChunkRow>, chosen: set<Hash>)
    requires Exact(db.(pool := pool)) && chosen <= pool.Keys
    ensures KeysOf(pool, chosen) == KeysFor(chosen)
  {
  }

  function SweptKeys(db: Db, dead: set<SnapshotId>): set<Key> {
    if dead == {} then {} else KeysFor(UnneededOf(db, dead))
  }

  lemma LinksButOne(links: map<LinkId, Hash>, s: SnapshotId)
    ensures links - LinksOf(links, s) == LinksBut(links, {s})
  {
  }

  /** The row of one chunk when one snapshot is dropped. */
  lemma DroppedRow(db: Db, s: SnapshotId, h: Hash)
    requires Exact(db) && h in db.pool
    ensures
      var r := Dropped(db, s).pool[h];
      && r.refCount == |LinksTo(LinksBut(db.links, {s}), h)|
      && (Orphan(r) <==> Unneeded(db, {s}, h))
      && (!Unneeded(db, {s}, h) ==> r == db.pool[h].(refCount := r.refCount))
      && (Unneeded(db, {s}, h) ==> r.state == PENDING_DELETE)
  {
    var gone := LinksOf(db.links, s);
    LinksButOne(db.links, s);
    LinksToWithout(db.links, gone, h);
    var left := LinksTo(db.links - gone, h);
    if LinksTo(db.links, h) !! gone {
      assert left == LinksTo(db.links, h);
    } else {
      if k :| k in left {
        assert k in LinksTo(db.links, h) && k.snapshot != s;
      } else {
        forall k | k in LinksTo(db.links, h) ensures k in gone {
          assert k !in gone ==> k in left;
        }
      }
    }
  }

  lemma DroppedStates(db: Db, s: SnapshotId)
    requires Exact(db)
    ensures forall h | h in db.pool ::
      Dropped(db, s).pool[h].state == if Unneeded(db, {s}, h) then PENDING_DELETE else db.pool[h].state
  {
    forall h | h in db.pool
      ensures Dropped(db, s).pool[h].state == if Unneeded(db, {s}, h) then PENDING_DELETE else db.pool[h].state
    {
      DroppedRow(db, s, h);
    }
  }

  lemma OrphansAreUnneeded(db: Db, s: SnapshotId)
    requires Exact(db)
    ensures (set h | h in Dropped(db, s).pool && Orphan(Dropped(db, s).pool[h])) == UnneededOf(db, {s})
  {
    forall h | h in db.pool ensures Orphan(Dropped(db, s).pool[h]) <==> Unneeded(db, {s}, h) {
      DroppedRow(db, s, h);
    }
  }

  /** A purge of one snapshot that nothing interrupts sweeps it. */
  lemma SweepOne(db: Db, s: SnapshotId)
    requires Exact(db)
    ensures
      var dropped, chosen := Dropped(db, s), UnneededOf(db, {s});
      dropped.(pool := ConfirmPool(Phase1Pool(dropped.pool, chosen), chosen)) == Swept(db, {s})
  {
    var dropped, chosen := Dropped(db, s), UnneededOf(db, {s});
    var pool := ConfirmPool(Phase1Pool(dropped.pool, chosen), chosen);
    LinksButOne(db.links, s);
    forall h | h in db.pool
      ensures h in pool <==> !Unneeded(db, {s}, h)
      ensures h in pool ==> pool[h] == db.pool[h].(refCount := |LinksTo(LinksBut(db.links, {s}), h)|)
    {
      DroppedRow(db, s, h);
    }
    assert pool == Swept(db, {s}).pool;
  }

  lemma SweepNone(db: Db)
    ensures Swept(db, {}) == db && SweptKeys(db, {}) == {}
  {
  }

  lemma LinksButMore(links: map<LinkId, Hash>, dead: set<SnapshotId>, s: SnapshotId)
    ensures LinksBut(LinksBut(links, dead), {s}) == LinksBut(links, dead + {s})
  {
  }

  lemma UnneededLater(db: Db, dead: set<SnapshotId>, s: SnapshotId, h: Hash)
    requires Exact(db) && h in db.pool
    ensures Unneeded(db, dead + {s}, h) <==>
      h !in Swept(db, dead).pool || Unneeded(Swept(db, dead), {s}, h)
  {
    var now := LinksTo(Swept(db, dead).links, h);
    assert dead != {} ==> forall k :: k in now <==> k in LinksTo(db.links, h) && k.snapshot !in dead;
    if h in Swept(db, dead).pool && LinksTo(db.links, h) != {} && dead != {} {
      var k :| k in LinksTo(db.links, h) && k.snapshot !in dead;
      assert k in now;
    }
  }

  /** What is left of one row does not depend on when the snapshots went. */
  lemma RowLater(db: Db, dead: set<SnapshotId>, s: SnapshotId, h: Hash)
    requires Exact(db) && h in db.pool
    ensures
      var twice, once := Swept(Swept(db, dead), {s}).pool, Swept(db, dead + {s}).pool;
      (h in twice <==> h in once) && (h in once ==> twice[h] == once[h])
  {
    LinksButMore(db.links, dead, s);
    UnneededLater(db, dead, s, h);
    if dead == {} {
      assert dead + {s} == {s};
    }
  }

  lemma RowsLater(db: Db, dead: set<SnapshotId>, s: SnapshotId)
    requires Exact(db)
    ensures Swept(Swept(db, dead), {s}).pool == Swept(db, dead + {s}).pool
  {
    var twice, once := Swept(Swept(db, dead), {s}).pool, Swept(db, dead + {s}).pool;
    forall h | h in db.pool ensures (h in twice <==> h in once) && (h in once ==> twice[h] == once[h]) {
      RowLater(db, dead, s, h);
    }
    SameRows(twice, once, db.pool.Keys);
  }

  lemma SameRows(a: map<Hash, ChunkRow>, b: map<Hash, ChunkRow>, all: set<Hash>)
    requires a.Keys <= all && b.Keys <= all
    requires forall h | h in all :: (h in a <==> h in b) && (h in b ==> a[h] == b[h])
    ensures a == b
  {
  }

  /** Sweeping one snapshot after others is sweeping them all at once. */
  lemma SweepMore(db: Db, dead: set<SnapshotId>, s: SnapshotId)
    requires Exact(db)
    ensures Swept(Swept(db, dead), {s}) == Swept(db, dead + {s})
  {
    RowsLater(db, dead, s);
    LinksButMore(db.links, dead, s);
    assert Swept(Swept(db, dead), {s}).snapshots == db.snapshots - (dead + {s});
    assert dead == {} ==> dead + {s} == {s};
  }

  lemma KeysForBoth(a: set<Hash>, b: set<Hash>)
    ensures KeysFor(a) + KeysFor(b) == KeysFor(a + b)
  {
  }

  lemma SweepMoreKeys(db: Db, dead: set<SnapshotId>, s: SnapshotId)
    requires Exact(db)
    ensures SweptKeys(db, dead) + SweptKeys(Swept(db, dead), {s}) == SweptKeys(db, dead + {s})
  {
    var mid := Swept(db, dead);
    var before, rest := if dead == {} then {} else UnneededOf(db, dead), UnneededOf(mid, {s});
    forall h | h in db.pool ensures h in UnneededOf(db, dead + {s}) <==> h in before + rest {
      UnneededLater(db, dead, s, h);
    }
    assert before + rest == UnneededOf(db, dead + {s});
    KeysForBoth(before, rest);
    assert KeysFor({}) == {};
  }
}
