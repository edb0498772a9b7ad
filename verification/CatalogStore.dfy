/** The catalog and the object store as they are updated in place: the upload callback's transactions and the purge. */
module CatalogStore {
  import opened Common
  import opened Snapshots
  import opened Catalog

  /** What one put request does; one that raises may have stored the object. */
  datatype PutResult = PutDone | RaisedStored | RaisedUnstored

  /** Nothing was added or changed. */
  ghost predicate Shrunk(before: map<Key, Bytes>, after: map<Key, Bytes>) {
    forall k | k in after :: k in before && after[k] == before[k]
  }

  class ObjectStore {
    var objects: map<Key, Bytes>

    constructor ()
      ensures objects == map[]
    {
      objects := map[];
    }

    method Put(key: Key, data: Bytes, result: PutResult) returns (raised: bool)
      modifies this
      ensures objects == (if result == RaisedUnstored then old(objects) else old(objects)[key := data])
      ensures raised <==> result != PutDone
    {
      if result != RaisedUnstored {
        objects := objects[key := data];
      }
      raised := result != PutDone;
    }

    method DeleteObjects(keys: set<Key>, reply: Reply) returns (raised: bool)
      modifies this
      ensures objects == old(objects) - (keys * reply.deleted) && raised == reply.raises
    {
      objects := objects - (keys * reply.deleted);
      raised := reply.raises;
    }
  }

  /** A database error that interrupts the purge of one snapshot. */
  datatype Glitch = NoGlitch | UnlinkFails | ConfirmFails

  /** Nothing goes wrong in the purge of one snapshot: no error, a bulk delete that deletes all it is asked to, and a
      batch that has room for every chunk. */
  predicate AllGoesWell(pool: map<Hash, ChunkRow>, reply: Reply, batchSize: nat, glitch: Glitch) {
    glitch == NoGlitch && !reply.raises && |pool| <= batchSize && forall h | h in pool :: StorageKey(h) in reply.deleted
  }

  /** The pool after the two phases. */
  function Settled(pool: map<Hash, ChunkRow>, chosen: set<Hash>, reply: Reply, glitch: Glitch): map<Hash, ChunkRow> {
    var marked := Phase1Pool(pool, chosen);
    if glitch == ConfirmFails then marked
    else if reply.raises then RevertPool(marked, chosen)
    else ConfirmPool(marked, chosen)
  }

  /** What the purge of one snapshot does to the pool, given the chunks it chose: their rows are gone if the bulk delete
      returns, PENDING_DELETE if it raises, and PURGING_S3 if the last transaction fails. */
  ghost predicate PurgedPool(db: Db, s: SnapshotId, chosen: set<Hash>, reply: Reply, glitch: Glitch,
                             pool: map<Hash, ChunkRow>)
  {
    && chosen <= UnneededOf(db, {s})
    && pool.Keys == db.pool.Keys - (if glitch != ConfirmFails && !reply.raises then chosen else {})
    && (forall h | h in pool && h in chosen ::
          pool[h].state == if glitch == ConfirmFails then PURGING_S3 else PENDING_DELETE)
    && (forall h | h in pool && h !in chosen ::
          pool[h].state == if Unneeded(db, {s}, h) then PENDING_DELETE else db.pool[h].state)
  }

  /** What the two phases make of the chosen orphans, and that they leave the other rows alone. */
  lemma SettledIs(pool: map<Hash, ChunkRow>, chosen: set<Hash>, reply: Reply, glitch: Glitch)
    requires forall h | h in chosen :: h in pool && Orphan(pool[h])
    ensures
      var after := Settled(pool, chosen, reply, glitch);
      && after.Keys == pool.Keys - (if glitch != ConfirmFails && !reply.raises then chosen else {})
      && (forall h | h in after && h in chosen ::
            after[h].state == if glitch == ConfirmFails then PURGING_S3 else PENDING_DELETE)
      && (forall h | h in after && h !in chosen :: after[h] == pool[h])
  {
  }

  lemma DroppedSettledIs(db: Db, s: SnapshotId, chosen: set<Hash>, reply: Reply, glitch: Glitch)
    requires Exact(db) && chosen <= UnneededOf(db, {s})
    ensures PurgedPool(db, s, chosen, reply, glitch, Settled(Dropped(db, s).pool, chosen, reply, glitch))
  {
    OrphansAreUnneeded(db, s);
    DroppedStates(db, s);
    forall h | h in chosen ensures h in Dropped(db, s).pool && Orphan(Dropped(db, s).pool[h]) {
      assert h in UnneededOf(db, {s});
    }
    SettledIs(Dropped(db, s).pool, chosen, reply, glitch);
  }

  lemma StillGoesWell(db: Db, dead: set<SnapshotId>, reply: Reply, batchSize: nat, glitch: Glitch)
    requires AllGoesWell(db.pool, reply, batchSize, glitch)
    ensures AllGoesWell(Swept(db, dead).pool, reply, batchSize, glitch)
  {
    SubsetSize(Swept(db, dead).pool.Keys, db.pool.Keys);
  }

  /** If nothing goes wrong, all that nothing needs is chosen, and the purge of one snapshot sweeps it. */
  lemma GoesWellSweeps(db: Db, s: SnapshotId, chosen: set<Hash>, reply: Reply, batchSize: nat, glitch: Glitch)
    requires Exact(db) && AllGoesWell(db.pool, reply, batchSize, glitch) && chosen <= UnneededOf(db, {s})
    requires |chosen| == Min(batchSize, |UnneededOf(db, {s})|)
    ensures Dropped(db, s).(pool := Settled(Dropped(db, s).pool, chosen, reply, glitch)) == Swept(db, {s})
    ensures KeysFor(chosen) * reply.deleted == SweptKeys(db, {s})
  {
    SubsetSize(UnneededOf(db, {s}), db.pool.Keys);
    SameSize(chosen, UnneededOf(db, {s}));
    SweepOne(db, s);
  }

  /** The swept catalog, and all objects but those of the chunks that went. */
  ghost predicate IsSwept(db: Db, objects: map<Key, Bytes>, dead: set<SnapshotId>, db': Db, objects': map<Key, Bytes>) {
    db' == Swept(db, dead) && objects' == objects - SweptKeys(db, dead)
  }

  /** The links of the other snapshots to one chunk. */
  function OtherLinks(links: map<LinkId, Hash>, dead: set<SnapshotId>, h: Hash): set<LinkId> {
    set k | k in links && links[k] == h && k.snapshot !in dead
  }

  lemma SweptObject(db: Db, dead: set<SnapshotId>, h: Hash)
    requires h in db.pool
    ensures StorageKey(h) in SweptKeys(db, dead) <==> dead != {} && Unneeded(db, dead, h)
  {
    if StorageKey(h) in SweptKeys(db, dead) {
      var g :| g in UnneededOf(db, dead) && StorageKey(g) == StorageKey(h);
      StorageKeysDiffer(g, h);
    }
  }

  /** What that means for a linked chunk: if every link it had was of a purged snapshot, its row and object are gone; if
      another snapshot links it, both stay, and the row counts the links that are left. */
  lemma SweptMeans(db: Db, objects: map<Key, Bytes>, dead: set<SnapshotId>, db': Db, objects': map<Key, Bytes>, h: Hash)
    requires Exact(db) && IsSwept(db, objects, dead, db', objects') && LinksTo(db.links, h) != {}
    ensures OtherLinks(db.links, dead, h) == {} ==> h !in db'.pool && StorageKey(h) !in objects'
    ensures OtherLinks(db.links, dead, h) != {} ==>
      && h in db'.pool && db'.pool[h].state == ACTIVE && db'.pool[h].refCount == |OtherLinks(db.links, dead, h)|
      && (StorageKey(h) in objects' <==> StorageKey(h) in objects)
      && (StorageKey(h) in objects ==> objects'[StorageKey(h)] == objects[StorageKey(h)])
  {
    var k :| k in LinksTo(db.links, h);
    assert k in db.links && db.links[k] in db.pool;
    var others := OtherLinks(db.links, dead, h);
    ExactMeans(db);
    SweptObject(db, dead, h);
    assert others == LinksTo(if dead == {} then db.links else LinksBut(db.links, dead), h);
    if others == {} {
      assert k !in others;
      assert forall l | l in LinksTo(db.links, h) :: l !in others;
    } else {
      var l :| l in others;
      assert l in LinksTo(db.links, h);
    }
  }

  lemma SweepNext(db: Db, objects: map<Key, Bytes>, done: set<SnapshotId>, s: SnapshotId, mid: Db,
                  objects1: map<Key, Bytes>, db': Db, objects2: map<Key, Bytes>)
    requires Exact(db) && IsSwept(db, objects, done, mid, objects1) && IsSwept(mid, objects1, {s}, db', objects2)
    ensures IsSwept(db, objects, done + {s}, db', objects2)
  {
    SweepMore(db, done, s);
    SweepMoreKeys(db, done, s);
    assert objects - SweptKeys(db, done) - SweptKeys(mid, {s}) == objects - (SweptKeys(db, done) + SweptKeys(mid, {s}));
  }

  /** The purge of these expired snapshots is under way, with those in `todo` still to come: every other snapshot is as
      it was, and those done are gone or set aside. */
  ghost predicate Purging(db: Db, objects: map<Key, Bytes>, expired: set<SnapshotId>, todo: set<SnapshotId>,
                          db': Db, objects': map<Key, Bytes>)
  {
    && todo <= expired && Shrunk(objects, objects')
    && (forall t | t in todo :: t in db'.snapshots && db'.snapshots[t] == EXPIRED)
    && (forall t | t in db'.snapshots ::
          && t in db.snapshots && (db'.snapshots[t] == EXPIRED ==> t in todo)
          && (t in expired && t !in todo ==> db'.snapshots[t] == PURGE_FAILED))
    && (forall t | t in db.snapshots && t !in expired :: t in db'.snapshots && db'.snapshots[t] == db.snapshots[t])
    && (forall t: SnapshotId | t !in expired :: Image(db', objects', t) == Image(db, objects, t))
  }

  lemma PurgingNext(db: Db, objects: map<Key, Bytes>, expired: set<SnapshotId>, todo: set<SnapshotId>, s: SnapshotId,
                    mid: Db, objects1: map<Key, Bytes>, db': Db, objects2: map<Key, Bytes>)
    requires Purging(db, objects, expired, todo, mid, objects1) && s in todo && Shrunk(objects1, objects2)
    requires db'.snapshots == mid.snapshots[s := PURGE_FAILED] || db'.snapshots == mid.snapshots - {s}
    requires forall t: SnapshotId | t != s :: Image(db', objects2, t) == Image(mid, objects1, t)
    ensures Purging(db, objects, expired, todo - {s}, db', objects2)
  {
  }

  lemma PurgingStarts(db: Db, objects: map<Key, Bytes>, expired: set<SnapshotId>)
    requires expired == set t | t in db.snapshots && db.snapshots[t] == EXPIRED
    ensures Purging(db, objects, expired, expired, db, objects)
    ensures IsSwept(db, objects, expired - expired, db, objects)
  {
    SweepNone(db);
    assert expired - expired == {};
  }

  lemma PurgingEnds(db: Db, objects: map<Key, Bytes>, expired: set<SnapshotId>, db': Db, objects': map<Key, Bytes>)
    requires Purging(db, objects, expired, {}, db', objects')
    requires expired == set t | t in db.snapshots && db.snapshots[t] == EXPIRED
    ensures forall t | t in db.snapshots && db.snapshots[t] != EXPIRED ::
      t in db'.snapshots && db'.snapshots[t] == db.snapshots[t] && Image(db', objects', t) == Image(db, objects, t)
    ensures forall t | t in db'.snapshots ::
      && t in db.snapshots
      && if db.snapshots[t] == EXPIRED then db'.snapshots[t] == PURGE_FAILED else db'.snapshots[t] != EXPIRED
    ensures expired - {} == expired
  {
  }

  lemma SameSize<T>(a: set<T>, b: set<T>)
    requires a <= b && |a| == |b|
    ensures a == b
  {
    assert b == a + (b - a);
  }

  lemma TakeOne<T>(all: set<T>, todo: set<T>, k: T)
    requires todo <= all && k in todo
    ensures (all - todo) + {k} == all - (todo - {k})
  {
  }

  class ChunkCatalog {
    var pool: map<Hash, ChunkRow>
    var links: map<LinkId, Hash>
    var snapshots: map<SnapshotId, SnapshotState>

    function View(): Db
      reads this
    {
      Db(pool, links, snapshots)
    }

    constructor ()
      ensures View() == Db(map[], map[], map[]) && Exact(View())
    {
      pool, links, snapshots := map[], map[], map[];
    }

    /** The command inserts its snapshot as RUNNING. */
    method StartSnapshot(s: SnapshotId)
      modifies `snapshots
      ensures View() == Apply(old(View()), AddSnapshot(s))
    {
      if s !in snapshots {
        snapshots := snapshots[s := RUNNING];
      }
    }

    method SetEstado(s: SnapshotId, estado: SnapshotState)
      modifies `snapshots
      ensures View() == Apply(old(View()), SetState(s, estado))
    {
      if s in snapshots {
        snapshots := snapshots[s := estado];
      }
    }

    /** The upload callback's first transaction: find or create the pool row, revive it if it is being deleted. */
    method CheckAndPrepare(h: Hash) returns (key: Key, needsUpload: bool)
      modifies `pool
      ensures View() == Apply(old(View()), Prepare(h))
      ensures needsUpload <==> h !in old(pool) || old(pool)[h].state == PURGING_S3
      ensures h in pool && pool[h].key == key && (h !in old(pool) ==> key == "chunks/" + h + ".bin")
    {
      if h !in pool {
        key := StorageKey(h);
        pool := pool[h := ChunkRow(key, 0, ACTIVE, false)];
        needsUpload := true;
      } else {
        needsUpload := pool[h].state == PURGING_S3;
        if pool[h].state == PENDING_DELETE || pool[h].state == PURGING_S3 {
          pool := pool[h := pool[h].(state := ACTIVE, purgeScheduled := false)];
        }
        key := pool[h].key;
      }
    }

    /** The upload callback's second transaction: insert the link; the insert trigger counts it. */
    method SaveChunkRef(id: LinkId, h: Hash) returns (ok: bool)
      modifies `pool, `links
      ensures View() == Apply(old(View()), Link(id, h))
      ensures ok <==> id !in old(links) && h in old(pool) && id.snapshot in old(snapshots)
    {
      if id in links || h !in pool || id.snapshot !in snapshots {
        return false;
      }
      links := links[id := h];
      pool := pool[h := Referenced(pool[h])];
      return true;
    }

    /** Deletes one link; the delete trigger updates the row it pointed to. */
    method DeleteLink(k: LinkId)
      requires k in links
      modifies `pool, `links
      ensures View() == Unlinked(old(View()), k)
    {
      var h := links[k];
      links := links - {k};
      if h in pool {
        pool := pool[h := Unreferenced(pool[h])];
      }
    }

    method DeleteOneMore(ghost db: Db, ghost gone: set<LinkId>, k: LinkId)
      requires Exact(db) && k in db.links && k !in gone && View() == Without(db, gone)
      modifies `pool, `links
      ensures View() == Without(db, gone + {k})
    {
      WithoutOneMore(db, gone, k);
      DeleteLink(k);
    }

    /** Deletes the links of a snapshot, row by row. */
    method UnlinkSnapshot(s: SnapshotId)
      requires Exact(View())
      modifies `pool, `links
      ensures View() == Without(old(View()), LinksOf(old(links), s)) && Exact(View())
    {
      ghost var db := View();
      ghost var all := LinksOf(links, s);
      var todo := LinksOf(links, s);
      WithoutNone(db);
      assert all - todo == {};
      while todo != {}
        invariant todo <= all
        invariant View() == Without(db, all - todo)
        decreases todo
      {
        var k :| k in todo;
        DeleteOneMore(db, all - todo, k);
        TakeOne(all, todo, k);
        todo := todo - {k};
      }
      assert all - todo == all;
      WithoutExact(db, all);
    }

    /** Phase 1: mark up to `batchSize` orphans, in one transaction. */
    method MarkOrphans(batchSize: nat) returns (chosen: set<Hash>)
      modifies `pool
      ensures forall h | h in chosen :: h in old(pool) && Orphan(old(pool)[h])
      ensures |chosen| == Min(batchSize, |set h | h in old(pool) && Orphan(old(pool)[h])|)
      ensures pool == Phase1Pool(old(pool), chosen)
    {
      var orphans := set h | h in pool && Orphan(pool[h]);
      chosen := {};
      while |chosen| < batchSize && chosen != orphans
        invariant chosen <= orphans && |chosen| <= batchSize
        decreases orphans - chosen
      {
        assert |orphans| == |chosen| + |orphans - chosen| by {
          assert orphans == chosen + (orphans - chosen);
        }
        var h :| h in orphans - chosen;
        chosen := chosen + {h};
      }
      assert |chosen| <= |orphans| by {
        SubsetSize(chosen, orphans);
      }
      pool := Phase1Pool(pool, chosen);
    }

    /** The two-phase purge around one bulk delete, whatever that delete does. */
    method ExecuteTwoPhasePurge(store: ObjectStore, reply: Reply, batchSize: nat, glitch: Glitch)
      returns (purged: nat, ghost chosen: set<Hash>)
      modifies `pool, store
      ensures forall h | h in chosen :: h in old(pool) && Orphan(old(pool)[h])
      ensures |chosen| == Min(batchSize, |set h | h in old(pool) && Orphan(old(pool)[h])|)
      ensures store.objects == old(store.objects) - (KeysOf(old(pool), chosen) * reply.deleted)
      ensures PurgeOutcome(old(pool), chosen, pool) && Shrunk(old(store.objects), store.objects)
      ensures pool == Settled(old(pool), chosen, reply, glitch)
      ensures purged == if reply.raises || glitch == ConfirmFails then 0 else |chosen|
    {
      var orphans := MarkOrphans(batchSize);
      chosen := orphans;
      if orphans == {} {
        assert KeysOf(old(pool), {}) == {};
        assert pool == old(pool) == RevertPool(pool, {}) == ConfirmPool(pool, {});
        return 0, chosen;
      }
      var keys := KeysOf(pool, orphans);
      var raised := store.DeleteObjects(keys, reply);
      if glitch == ConfirmFails {
        return 0, chosen;
      }
      if raised {
        pool := RevertPool(pool, orphans);
        return 0, chosen;
      }
      pool := ConfirmPool(pool, orphans);
      return |orphans|, chosen;
    }

    /** Marks the snapshot PURGING, deletes its links and then its row, which the delete trigger allows by then. */
    method DropSnapshot(s: SnapshotId)
      requires Exact(View()) && s in snapshots
      modifies this
      ensures View() == Dropped(old(View()), s) && Exact(View())
    {
      ghost var db := View();
      SnapshotTxExact(db, SetState(s, PURGING));
      DroppedExact(db, s);
      snapshots := snapshots[s := PURGING];
      UnlinkSnapshot(s);
      assert SnapshotDeletable(View(), s);
      snapshots := snapshots - {s};
      assert snapshots == db.snapshots - {s};
    }

    /** The exception handler: the unlinking transaction is rolled back and the snapshot is set aside. */
    method MarkPurgeFailed(s: SnapshotId, store: ObjectStore)
      requires Exact(View()) && s in snapshots
      modifies `snapshots
      ensures Exact(View()) && snapshots == old(snapshots)[s := PURGE_FAILED]
      ensures forall t: SnapshotId :: Image(View(), store.objects, t) == old(Image(View(), store.objects, t))
    {
      ApplyExact(View(), SetState(s, PURGE_FAILED));
      snapshots := snapshots[s := PURGING];
      snapshots := snapshots[s := PURGE_FAILED];
    }

    /** The unlinking transaction and the two-phase purge, which chooses as many of the chunks that nothing needs any
        more as the batch allows. */
    method DropAndPurge(s: SnapshotId, store: ObjectStore, reply: Reply, batchSize: nat, glitch: Glitch)
      returns (ghost chosen: set<Hash>)
      requires Exact(View()) && s in snapshots
      modifies this, store
      ensures Exact(View()) && snapshots == old(snapshots) - {s} && links == LinksBut(old(links), {s})
      ensures forall t: SnapshotId | t != s :: Image(View(), store.objects, t) == old(Image(View(), store.objects, t))
      ensures PurgedPool(old(View()), s, chosen, reply, glitch, pool)
      ensures |chosen| == Min(batchSize, |UnneededOf(old(View()), {s})|)
      ensures store.objects == old(store.objects) - (KeysFor(chosen) * reply.deleted)
      ensures pool == Settled(Dropped(old(View()), s).pool, chosen, reply, glitch)
    {
      ghost var db, objects := View(), store.objects;
      DropSnapshot(s);
      ghost var dropped := View();
      var _, orphans := ExecuteTwoPhasePurge(store, reply, batchSize, glitch);
      chosen := orphans;
      OrphansAreUnneeded(db, s);
      DroppedSettledIs(db, s, chosen, reply, glitch);
      KeysOfExact(dropped, dropped.pool, chosen);
      LinksButOne(db.links, s);
      ghost var wiped := KeysOf(dropped.pool, chosen) * reply.deleted;
      PurgeKeepsExact(dropped, chosen, pool);
      forall t: SnapshotId | t != s ensures Image(View(), store.objects, t) == Image(db, objects, t) {
        PurgeStepKeepsImage(db, objects, s, chosen, wiped, pool, t);
      }
    }

    /**
     * The purge of one expired snapshot. Its links and row go, and of the chunks that nothing else needs as many as the
     * batch allows; nothing else that a restore reads changes, whatever the bulk delete does and wherever a database
     * error strikes. With room for all, a delete that obeys and no error, exactly the swept catalog is left.
     */
    method PurgeSnapshot(s: SnapshotId, store: ObjectStore, reply: Reply, batchSize: nat, glitch: Glitch)
      returns (ghost chosen: set<Hash>)
      requires Exact(View()) && s in snapshots && snapshots[s] == EXPIRED
      modifies this, store
      ensures Exact(View())
      ensures forall t: SnapshotId | t != s :: Image(View(), store.objects, t) == old(Image(View(), store.objects, t))
      ensures snapshots == if glitch == UnlinkFails then old(snapshots)[s := PURGE_FAILED] else old(snapshots) - {s}
      ensures glitch == UnlinkFails ==> chosen == {} && pool == old(pool) && links == old(links)
      ensures glitch != UnlinkFails ==>
        && links == LinksBut(old(links), {s}) && PurgedPool(old(View()), s, chosen, reply, glitch, pool)
        && |chosen| == Min(batchSize, |UnneededOf(old(View()), {s})|)
      ensures store.objects == old(store.objects) - (KeysFor(chosen) * reply.deleted)
      ensures AllGoesWell(old(pool), reply, batchSize, glitch) ==>
        IsSwept(old(View()), old(store.objects), {s}, View(), store.objects)
    {
      ghost var db := View();
      if glitch == UnlinkFails {
        MarkPurgeFailed(s, store);
        chosen := {};
      } else {
        chosen := DropAndPurge(s, store, reply, batchSize, glitch);
        if AllGoesWell(db.pool, reply, batchSize, glitch) {
          GoesWellSweeps(db, s, chosen, reply, batchSize, glitch);
          LinksButOne(db.links, s);
        }
      }
    }

    /** One turn of the loop of `PurgeExpiredSnapshots`; `well` says that nothing has gone wrong so far. */
    method PurgeNext(s: SnapshotId, store: ObjectStore, reply: Reply, batchSize: nat, glitch: Glitch, ghost db: Db,
                     ghost objects: map<Key, Bytes>, ghost expired: set<SnapshotId>, ghost todo: set<SnapshotId>,
                     ghost well: bool)
      requires Exact(View()) && Exact(db) && Purging(db, objects, expired, todo, View(), store.objects) && s in todo
      requires well ==> IsSwept(db, objects, expired - todo, View(), store.objects)
      modifies this, store
      ensures Exact(View()) && Purging(db, objects, expired, todo - {s}, View(), store.objects)
      ensures well && AllGoesWell(db.pool, reply, batchSize, glitch) ==>
        IsSwept(db, objects, expired - (todo - {s}), View(), store.objects)
    {
      ghost var mid, before := View(), store.objects;
      if AllGoesWell(db.pool, reply, batchSize, glitch) {
        StillGoesWell(db, expired - todo, reply, batchSize, glitch);
      }
      var _ := PurgeSnapshot(s, store, reply, batchSize, glitch);
      PurgingNext(db, objects, expired, todo, s, mid, before, View(), store.objects);
      if well && AllGoesWell(db.pool, reply, batchSize, glitch) {
        SweepNext(db, objects, expired - todo, s, mid, before, View(), store.objects);
        TakeOne(expired, todo, s);
      }
    }

    /**
     * A sequential purge of all expired snapshots. It preserves meaning: whatever each bulk delete does and wherever
     * database errors strike, the state and the restore input of every other snapshot are left unchanged. And it
     * purges: if nothing goes wrong, exactly the swept catalog and the objects of its rows are left.
     */
    method PurgeExpiredSnapshots(store: ObjectStore, replies: seq<Reply>, batchSize: nat, glitches: seq<Glitch>)
      requires Exact(View()) && |snapshots| <= |replies| && |snapshots| <= |glitches|
      modifies this, store
      ensures Exact(View())
      ensures forall t | t in old(snapshots) && old(snapshots[t]) != EXPIRED ::
        && t in snapshots && snapshots[t] == old(snapshots[t])
        && Image(View(), store.objects, t) == old(Image(View(), store.objects, t))
      ensures forall t | t in snapshots ::
        && t in old(snapshots)
        && (if old(snapshots[t]) == EXPIRED then snapshots[t] == PURGE_FAILED else snapshots[t] != EXPIRED)
      ensures Shrunk(old(store.objects), store.objects)
      ensures
        var expired := set t | t in old(snapshots) && old(snapshots[t]) == EXPIRED;
        (forall i | 0 <= i < |old(snapshots)| :: AllGoesWell(old(pool), replies[i], batchSize, glitches[i])) ==>
          IsSwept(old(View()), old(store.objects), expired, View(), store.objects)
    {
      ghost var db, objects := View(), store.objects;
      var todo := set s | s in snapshots && snapshots[s] == EXPIRED;
      ghost var expired := todo;
      SubsetSize(expired, snapshots.Keys);
      PurgingStarts(db, objects, expired);
      var i := 0;
      while todo != {}
        invariant Exact(View()) && i + |todo| == |expired|
        invariant Purging(db, objects, expired, todo, View(), store.objects)
        invariant (forall j | 0 <= j < i :: AllGoesWell(db.pool, replies[j], batchSize, glitches[j])) ==>
          IsSwept(db, objects, expired - todo, View(), store.objects)
        decreases todo
      {
        var s :| s in todo;
        PurgeNext(s, store, replies[i], batchSize, glitches[i], db, objects, expired, todo,
                  forall j | 0 <= j < i :: AllGoesWell(db.pool, replies[j], batchSize, glitches[j]));
        todo := todo - {s};
        i := i + 1;
      }
      PurgingEnds(db, objects, expired, View(), store.objects);
    }
  }
}
