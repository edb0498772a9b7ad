/** The backup command's schedule, uploads first and purge afterwards, over the catalog and the object store. */
module CliSchedule {
  import opened Common
  import opened Snapshots
  import opened Catalog

  /** How far the two-phase purge in progress has come, and how its bulk delete was answered. */
  datatype Purge = Idle | Marked(chosen: set<Hash>) | Wiped(chosen: set<Hash>, reply: Reply)

  /** `upload` is the upload callback in progress: its hash, and whether its object is still to be put.
      `lost` is history: the hashes whose last put was due and left no object, because it failed or the process died
      before it, or whose object a raising delete removed before it put their rows back to PENDING_DELETE; a successful
      put takes a hash off again. */
  datatype Cli = Cli(db: Db, objects: set<Key>, upload: Option<(Hash, bool)>, lost: set<Hash>, purge: Purge)

  const START: Cli := Cli(EMPTY, {}, None, {}, Idle)

  datatype Event =
    | NewSnapshot(s: SnapshotId)
    | SetEstado(s: SnapshotId, estado: SnapshotState)
    | Present(h: Hash)
    | PutOk
    | SaveRef(id: LinkId)
    | UploadStops(stored: bool)  // the put raises, having stored the object or not; the link fails; the process dies
    | Drop(s: SnapshotId)
    | Mark(chosen: set<Hash>)
    | Wipe(reply: Reply)
    | Settle
    | PurgeDies                  // the process dies between the phases

  /** In the CLI's schedule (`serial`) the purge starts when no upload is running and no upload starts before it has
      ended. Without it, purge and uploads interleave freely. */
  predicate Legal(serial: bool, c: Cli, e: Event) {
    match e
    case NewSnapshot(_) => true
    case SetEstado(_, _) => true
    case Present(h) => c.upload.None? && (serial ==> c.purge.Idle?)
    case PutOk => c.upload.Some? && c.upload.value.1
    case SaveRef(_) => c.upload.Some? && !c.upload.value.1
    case UploadStops(_) => c.upload.Some?
    case Drop(s) => serial ==> c.upload.None?
    case Mark(chosen) =>
      && c.purge.Idle? && (serial ==> c.upload.None?)
      && forall h | h in chosen :: h in c.db.pool && Orphan(c.db.pool[h])
    case Wipe(_) => c.purge.Marked?
    case Settle => c.purge.Wiped?
    case PurgeDies => !c.purge.Idle?
  }

  /** A put that was due and failed, or never came: the object is there if this or an earlier put stored it. */
  function PutFailed(c: Cli, h: Hash, stored: bool): Cli {
    var objects := if stored then c.objects + {StorageKey(h)} else c.objects;
    c.(objects := objects, upload := None,
       lost := if StorageKey(h) in objects then c.lost - {h} else c.lost + {h})
  }

  function Settled(c: Cli, chosen: set<Hash>, reply: Reply): Cli {
    if reply.raises then
      c.(db := c.db.(pool := RevertPool(c.db.pool, chosen)), purge := Idle,
         lost := c.lost + set h | h in chosen && StorageKey(h) in reply.deleted)
    else
      c.(db := c.db.(pool := ConfirmPool(c.db.pool, chosen)), purge := Idle)
  }

  function Next(serial: bool, c: Cli, e: Event): Cli
    requires Legal(serial, c, e)
  {
    match e
    case NewSnapshot(s) => c.(db := Apply(c.db, AddSnapshot(s)))
    case SetEstado(s, estado) => c.(db := Apply(c.db, SetState(s, estado)))
    case Present(h) => c.(db := Prepared(c.db, h), upload := Some((h, NeedsUpload(c.db, h))))
    case PutOk =>
      var h := c.upload.value.0;
      c.(objects := c.objects + {StorageKey(h)}, upload := Some((h, false)), lost := c.lost - {h})
    case SaveRef(id) => c.(db := Linked(c.db, id, c.upload.value.0), upload := None)
    case UploadStops(stored) =>
      if c.upload.value.1 then PutFailed(c, c.upload.value.0, stored) else c.(upload := None)
    case Drop(s) => c.(db := Dropped(c.db, s))
    case Mark(chosen) => c.(db := c.db.(pool := Phase1Pool(c.db.pool, chosen)), purge := Marked(chosen))
    case Wipe(reply) =>
      c.(objects := c.objects - (KeysOf(c.db.pool, c.purge.chosen) * reply.deleted),
         purge := Wiped(c.purge.chosen, reply))
    case Settle => Settled(c, c.purge.chosen, c.purge.reply)
    case PurgeDies => c.(purge := Idle)
  }

  predicate LegalRun(serial: bool, c: Cli, run: seq<Event>)
    decreases |run|
  {
    run == [] || (Legal(serial, c, run[0]) && LegalRun(serial, Next(serial, c, run[0]), run[1..]))
  }

  function After(serial: bool, c: Cli, run: seq<Event>): Cli
    requires LegalRun(serial, c, run)
    decreases |run|
  {
    if run == [] then c else After(serial, Next(serial, c, run[0]), run[1..])
  }

  /** No link points to a missing object. */
  ghost predicate NoDangling(c: Cli) {
    forall k | k in c.db.links :: c.db.links[k] in c.db.pool && c.db.pool[c.db.links[k]].key in c.objects
  }

  /** A row that does not force a put has its object exactly when its hash is not lost. */
  ghost predicate Tracked(c: Cli) {
    forall h | h in c.db.pool ::
      && c.db.pool[h].state != CORRUPT
      && (c.db.pool[h].state != PURGING_S3 && c.upload != Some((h, true)) ==>
            (StorageKey(h) in c.objects <==> h !in c.lost))
  }

  ghost predicate LinksSafe(c: Cli) {
    forall k | k in c.db.links :: c.db.links[k] !in c.lost && c.upload != Some((c.db.links[k], true))
  }

  ghost predicate UploadOk(c: Cli) {
    c.upload.Some? ==> c.purge.Idle? && c.upload.value.0 in c.db.pool && c.db.pool[c.upload.value.0].state == ACTIVE
  }

  ghost predicate PurgeOk(c: Cli) {
    !c.purge.Idle? ==> forall h | h in c.purge.chosen ::
      && h in c.db.pool && Deleted(c.db.pool[h])
      && (StorageKey(h) in c.objects <==> h !in c.lost && (c.purge.Wiped? ==> StorageKey(h) !in c.purge.reply.deleted))
  }

  ghost predicate Inv(c: Cli) {
    Exact(c.db) && Tracked(c) && LinksSafe(c) && UploadOk(c) && PurgeOk(c)
  }

  lemma InvMeansNoDangling(c: Cli)
    requires Inv(c)
    ensures NoDangling(c)
  {
    ExactMeans(c.db);
  }

  // ---------- the steps of the schedule ----------

  /** A link is inserted for a lost hash. */
  predicate BadSave(c: Cli, e: Event) {
    && e.SaveRef? && c.upload.Some? && c.upload.value.0 in c.lost
    && c.upload.value.0 in c.db.pool && e.id !in c.db.links && e.id.snapshot in c.db.snapshots
  }

  lemma BadSaveDangles(c: Cli, e: Event)
    requires Inv(c) && Legal(true, c, e) && BadSave(c, e)
    ensures !NoDangling(Next(true, c, e))
  {
    var c' := Next(true, c, e);
    assert c'.db.links[e.id] == c.upload.value.0;
    assert c'.db.pool[c'.db.links[e.id]].key == StorageKey(c.upload.value.0);
  }

  lemma SnapshotStep(c: Cli, e: Event)
    requires Inv(c) && Legal(true, c, e) && (e.NewSnapshot? || e.SetEstado?)
    ensures Inv(Next(true, c, e))
  {
    SnapshotTxExact(c.db, if e.NewSnapshot? then AddSnapshot(e.s) else SetState(e.s, e.estado));
  }

  lemma PresentTracked(c: Cli, h: Hash)
    requires Inv(c) && Legal(true, c, Present(h))
    ensures Tracked(Next(true, c, Present(h))) && LinksSafe(Next(true, c, Present(h)))
  {
    ExactMeans(c.db);
  }

  lemma PresentStep(c: Cli, h: Hash)
    requires Inv(c) && Legal(true, c, Present(h))
    ensures Inv(Next(true, c, Present(h)))
  {
    PrepareExact(c.db, h);
    PresentTracked(c, h);
  }

  lemma SaveRefStep(c: Cli, e: Event)
    requires Inv(c) && Legal(true, c, e) && e.SaveRef? && !BadSave(c, e)
    ensures Inv(Next(true, c, e))
  {
    LinkExact(c.db, e.id, c.upload.value.0);
  }

  /** The object of one hash was put or not; no other hash is stored under its key. */
  lemma OneKeyChanged(c: Cli, h: Hash, objects: set<Key>)
    requires objects == c.objects || objects == c.objects + {StorageKey(h)}
    ensures forall g | g != h :: StorageKey(g) in objects <==> StorageKey(g) in c.objects
  {
    forall g | g != h ensures StorageKey(g) in objects <==> StorageKey(g) in c.objects {
      if StorageKey(g) == StorageKey(h) {
        StorageKeysDiffer(g, h);
      }
    }
  }

  lemma PutStep(c: Cli, e: Event)
    requires Inv(c) && Legal(true, c, e) && (e.PutOk? || e.UploadStops?)
    ensures Inv(Next(true, c, e))
  {
    var c' := Next(true, c, e);
    OneKeyChanged(c, c.upload.value.0, c'.objects);
  }

  lemma DropStep(c: Cli, s: SnapshotId)
    requires Inv(c) && Legal(true, c, Drop(s))
    ensures Inv(Next(true, c, Drop(s)))
  {
    DroppedExact(c.db, s);
    var c' := Next(true, c, Drop(s));
    forall h | h in c'.db.pool && c'.db.pool[h] != c.db.pool[h]
      ensures c.db.pool[h].state == ACTIVE && c'.db.pool[h].state in {ACTIVE, PENDING_DELETE}
    {
      var k :| k in LinksTo(c.db.links, h) && k in LinksOf(c.db.links, s);
      ExactMeans(c.db);
    }
    if !c.purge.Idle? {
      forall h | h in c.purge.chosen ensures c'.db.pool[h] == c.db.pool[h] {
      }
    }
  }

  lemma MarkStep(c: Cli, chosen: set<Hash>)
    requires Inv(c) && Legal(true, c, Mark(chosen))
    ensures Inv(Next(true, c, Mark(chosen)))
  {
    RestatedExact(c.db, Phase1Pool(c.db.pool, chosen));
  }

  /** Whatever a bulk delete removes, it removes only objects of the rows it was asked for. */
  lemma WipedKeys(c: Cli, reply: Reply, h: Hash)
    requires Inv(c) && c.purge.Marked? && h in c.db.pool
    ensures
      StorageKey(h) in c.objects - (KeysOf(c.db.pool, c.purge.chosen) * reply.deleted) <==>
      StorageKey(h) in c.objects && !(h in c.purge.chosen && StorageKey(h) in reply.deleted)
  {
    if StorageKey(h) in KeysOf(c.db.pool, c.purge.chosen) {
      var g :| g in c.purge.chosen && g in c.db.pool && c.db.pool[g].key == StorageKey(h);
      StorageKeysDiffer(g, h);
    }
    if h in c.purge.chosen {
      assert c.db.pool[h].key in KeysOf(c.db.pool, c.purge.chosen);
    }
  }

  lemma WipeStep(c: Cli, reply: Reply)
    requires Inv(c) && Legal(true, c, Wipe(reply))
    ensures Inv(Next(true, c, Wipe(reply)))
  {
    var c' := Next(true, c, Wipe(reply));
    forall h | h in c.db.pool
      ensures StorageKey(h) in c'.objects <==>
        StorageKey(h) in c.objects && !(h in c.purge.chosen && StorageKey(h) in reply.deleted)
    {
      WipedKeys(c, reply, h);
    }
  }

  lemma SettleStep(c: Cli)
    requires Inv(c) && Legal(true, c, Settle)
    ensures Inv(Next(true, c, Settle))
  {
    if c.purge.reply.raises {
      RestatedExact(c.db, RevertPool(c.db.pool, c.purge.chosen));
      OrphansUnlinked(c.db, c.purge.chosen);
    } else {
      ConfirmExact(c.db, c.purge.chosen);
    }
  }

  lemma StepKeepsInv(c: Cli, e: Event)
    requires Inv(c) && Legal(true, c, e) && !BadSave(c, e)
    ensures Inv(Next(true, c, e))
  {
    match e
    case NewSnapshot(_) => SnapshotStep(c, e);
    case SetEstado(_, _) => SnapshotStep(c, e);
    case Present(h) => PresentStep(c, h);
    case PutOk => PutStep(c, e);
    case UploadStops(_) => PutStep(c, e);
    case SaveRef(_) => SaveRefStep(c, e);
    case Drop(s) => DropStep(c, s);
    case Mark(chosen) => MarkStep(c, chosen);
    case Wipe(reply) => WipeStep(c, reply);
    case Settle => SettleStep(c);
    case PurgeDies =>
  }

  // ---------- when exactly nothing dangles ----------

  ghost predicate NeverDangles(c: Cli, run: seq<Event>)
    requires LegalRun(true, c, run)
    decreases |run|
  {
    NoDangling(c) && (run != [] ==> NeverDangles(Next(true, c, run[0]), run[1..]))
  }

  predicate CleanSaves(c: Cli, run: seq<Event>)
    requires LegalRun(true, c, run)
    decreases |run|
  {
    run != [] ==> !BadSave(c, run[0]) && CleanSaves(Next(true, c, run[0]), run[1..])
  }

  lemma {:induction false} CleanSavesIff(c: Cli, run: seq<Event>)
    requires Inv(c) && LegalRun(true, c, run)
    ensures NeverDangles(c, run) <==> CleanSaves(c, run)
    decreases |run|
  {
    InvMeansNoDangling(c);
    if run != [] {
      if BadSave(c, run[0]) {
        BadSaveDangles(c, run[0]);
        assert !NeverDangles(Next(true, c, run[0]), run[1..]);
      } else {
        StepKeepsInv(c, run[0]);
        CleanSavesIff(Next(true, c, run[0]), run[1..]);
      }
    }
  }

  /**
   * In the CLI's schedule, whatever puts, deletes and processes do: no link ever dangles if and only if no link is
   * saved for a hash whose last put was due and left no object, because it failed or the process died before it, or
   * whose object a raising delete removed before it reverted the row, unless it was put again since. A process that
   * dies during the purge, a delete that returns but leaves objects behind, and a row revived from either purge state
   * do no harm by themselves.
   */
  lemma CliDanglesIff(run: seq<Event>)
    requires LegalRun(true, START, run)
    ensures NeverDangles(START, run) <==> CleanSaves(START, run)
  {
    CleanSavesIff(START, run);
  }

  /** Between uploads, a row that forces no put has its object exactly when its hash is not lost. */
  lemma ReadyIff(run: seq<Event>, h: Hash)
    requires LegalRun(true, START, run) && CleanSaves(START, run)
    requires After(true, START, run).upload.None?
    requires h in After(true, START, run).db.pool && !NeedsUpload(After(true, START, run).db, h)
    ensures StorageKey(h) in After(true, START, run).objects <==> h !in After(true, START, run).lost
  {
    CleanRunKeepsInv(START, run);
  }

  lemma {:induction false} CleanRunKeepsInv(c: Cli, run: seq<Event>)
    requires Inv(c) && LegalRun(true, c, run) && CleanSaves(c, run)
    ensures Inv(After(true, c, run))
    decreases |run|
  {
    if run != [] {
      StepKeepsInv(c, run[0]);
      CleanRunKeepsInv(Next(true, c, run[0]), run[1..]);
    }
  }

  /** A lost hash is not presented again. */
  predicate NoneLostPresented(c: Cli, run: seq<Event>)
    requires LegalRun(true, c, run)
    decreases |run|
  {
    run != [] ==>
      && (run[0].Present? ==> run[0].h !in c.lost)
      && NoneLostPresented(Next(true, c, run[0]), run[1..])
  }

  lemma {:induction false} NotPresentedNotSaved(c: Cli, run: seq<Event>)
    requires LegalRun(true, c, run) && NoneLostPresented(c, run)
    requires c.upload.Some? ==> c.purge.Idle? && (c.upload.value.1 || c.upload.value.0 !in c.lost)
    ensures CleanSaves(c, run)
    decreases |run|
  {
    if run != [] {
      NotPresentedNotSaved(Next(true, c, run[0]), run[1..]);
    }
  }

  /** In particular nothing dangles as long as lost hashes are not presented again. */
  lemma CliNeverDangles(run: seq<Event>)
    requires LegalRun(true, START, run) && NoneLostPresented(START, run)
    ensures NeverDangles(START, run)
  {
    NotPresentedNotSaved(START, run);
    CliDanglesIff(run);
  }

  // ---------- runs that end with a dangling link ----------

  ghost predicate Dangles(serial: bool, c: Cli, run: seq<Event>) {
    LegalRun(serial, c, run) && !NoDangling(After(serial, c, run))
  }

  lemma OneStepEarlier(serial: bool, c: Cli, e: Event, c': Cli, run: seq<Event>)
    requires Legal(serial, c, e) && Next(serial, c, e) == c' && Dangles(serial, c', run)
    ensures Dangles(serial, c, [e] + run)
  {
    assert ([e] + run)[1..] == run;
  }

  function Row(h: Hash, refCount: int, state: ChunkState, scheduled: bool): map<Hash, ChunkRow> {
    map[h := ChunkRow(StorageKey(h), refCount, state, scheduled)]
  }

  function DeletesAll(h: Hash): Reply {
    Reply({StorageKey(h)}, false)
  }

  lemma OrphanIsGood(h: Hash, snaps: map<SnapshotId, SnapshotState>)
    ensures Inv(Cli(Db(Row(h, 0, PENDING_DELETE, true), map[], snaps), {StorageKey(h)}, None, {}, Idle))
  {
    assert LinksTo(map[], h) == {};
  }

  lemma SingleLinkIsGood(h: Hash, id: LinkId, snaps: map<SnapshotId, SnapshotState>)
    requires id.snapshot in snaps
    ensures Inv(Cli(Db(Row(h, 1, ACTIVE, false), map[id := h], snaps), {StorageKey(h)}, None, {}, Idle))
  {
    assert LinksTo(map[id := h], h) == {id};
  }

  lemma DropSingleLink(h: Hash, id: LinkId, snaps: map<SnapshotId, SnapshotState>)
    ensures Dropped(Db(Row(h, 1, ACTIVE, false), map[id := h], snaps), id.snapshot) ==
      Db(Row(h, 0, PENDING_DELETE, true), map[], snaps - {id.snapshot})
  {
    var links := map[id := h];
    assert LinksTo(links, h) == {id} == LinksOf(links, id.snapshot);
    assert links - {id} == map[] && LinksTo(map[], h) == {};
  }

  lemma MissingObject(c: Cli, id: LinkId)
    requires id in c.db.links && c.db.links[id] in c.db.pool && c.db.pool[c.db.links[id]].key !in c.objects
    ensures Dangles(false, c, []) && Dangles(true, c, [])
  {
  }

  lemma WipeThenSave(h: Hash, s: SnapshotId, snaps: map<SnapshotId, SnapshotState>)
    requires s in snaps
    ensures Dangles(false, Cli(Db(Row(h, 0, ACTIVE, false), map[], snaps), {StorageKey(h)}, Some((h, false)), {},
                               Marked({h})),
                    [Wipe(DeletesAll(h)), SaveRef(LinkId(s, 0))])
  {
    var c := Cli(Db(Row(h, 0, ACTIVE, false), map[], snaps), {StorageKey(h)}, Some((h, false)), {}, Marked({h}));
    var wiped := c.(objects := {}, purge := Wiped({h}, DeletesAll(h)));
    var saved := wiped.(db := Db(Row(h, 1, ACTIVE, false), map[LinkId(s, 0) := h], snaps), upload := None);
    assert KeysOf(c.db.pool, {h}) == {StorageKey(h)};
    MissingObject(saved, LinkId(s, 0));
    OneStepEarlier(false, wiped, SaveRef(LinkId(s, 0)), saved, []);
    OneStepEarlier(false, c, Wipe(DeletesAll(h)), wiped, [SaveRef(LinkId(s, 0))]);
  }

  /** Phase 1, prepare, put, S3 delete, link: from a good state, the delete removes the object that was just put. */
  lemma PurgeOvertakesPut(h: Hash, s: SnapshotId, snaps: map<SnapshotId, SnapshotState>)
    requires s in snaps
    ensures
      var c := Cli(Db(Row(h, 0, PENDING_DELETE, true), map[], snaps), {StorageKey(h)}, None, {}, Idle);
      Inv(c) && Dangles(false, c, [Mark({h}), Present(h), PutOk, Wipe(DeletesAll(h)), SaveRef(LinkId(s, 0))])
  {
    OrphanIsGood(h, snaps);
    WipeThenSave(h, s, snaps);
    var c := Cli(Db(Row(h, 0, PENDING_DELETE, true), map[], snaps), {StorageKey(h)}, None, {}, Idle);
    var marked := Cli(Db(Row(h, 0, PURGING_S3, true), map[], snaps), {StorageKey(h)}, None, {}, Marked({h}));
    var prepared := Cli(Db(Row(h, 0, ACTIVE, false), map[], snaps), {StorageKey(h)}, Some((h, true)), {}, Marked({h}));
    var put := prepared.(upload := Some((h, false)));
    var run := [Wipe(DeletesAll(h)), SaveRef(LinkId(s, 0))];
    OneStepEarlier(false, prepared, PutOk, put, run);
    OneStepEarlier(false, marked, Present(h), prepared, [PutOk] + run);
    OneStepEarlier(false, c, Mark({h}), marked, [Present(h)] + ([PutOk] + run));
    assert [Mark({h})] + ([Present(h)] + ([PutOk] + run)) ==
      [Mark({h}), Present(h), PutOk, Wipe(DeletesAll(h)), SaveRef(LinkId(s, 0))];
  }

  lemma SaveThenWipe(h: Hash, s: SnapshotId, snaps: map<SnapshotId, SnapshotState>)
    requires s in snaps
    ensures Dangles(false, Cli(Db(Row(h, 0, PURGING_S3, true), map[], snaps), {StorageKey(h)}, Some((h, false)), {},
                               Marked({h})),
                    [SaveRef(LinkId(s, 0)), Wipe(DeletesAll(h))])
  {
    var c := Cli(Db(Row(h, 0, PURGING_S3, true), map[], snaps), {StorageKey(h)}, Some((h, false)), {}, Marked({h}));
    var saved := c.(db := Db(Row(h, 1, ACTIVE, false), map[LinkId(s, 0) := h], snaps), upload := None);
    var wiped := saved.(objects := {}, purge := Wiped({h}, DeletesAll(h)));
    assert KeysOf(saved.db.pool, {h}) == {StorageKey(h)};
    MissingObject(wiped, LinkId(s, 0));
    OneStepEarlier(false, saved, Wipe(DeletesAll(h)), wiped, []);
    OneStepEarlier(false, c, SaveRef(LinkId(s, 0)), saved, [Wipe(DeletesAll(h))]);
  }

  /** Prepare, unlink, phase 1, link, S3 delete: from a good state, the chunk needed no put when it was prepared, and
      its object is deleted once it is linked. */
  lemma PurgeOvertakesLink(h: Hash, last: LinkId, s: SnapshotId, snaps: map<SnapshotId, SnapshotState>)
    requires s in snaps && last.snapshot in snaps && last.snapshot != s
    ensures
      var c := Cli(Db(Row(h, 1, ACTIVE, false), map[last := h], snaps), {StorageKey(h)}, None, {}, Idle);
      var run := [Present(h), Drop(last.snapshot), Mark({h}), SaveRef(LinkId(s, 0)), Wipe(DeletesAll(h))];
      Inv(c) && Dangles(false, c, run)
  {
    var snaps' := snaps - {last.snapshot};
    SingleLinkIsGood(h, last, snaps);
    DropSingleLink(h, last, snaps);
    SaveThenWipe(h, s, snaps');
    var c := Cli(Db(Row(h, 1, ACTIVE, false), map[last := h], snaps), {StorageKey(h)}, None, {}, Idle);
    var prepared := c.(upload := Some((h, false)));
    var dropped := Cli(Db(Row(h, 0, PENDING_DELETE, true), map[], snaps'), {StorageKey(h)}, Some((h, false)), {}, Idle);
    var marked := dropped.(db := Db(Row(h, 0, PURGING_S3, true), map[], snaps'), purge := Marked({h}));
    var run := [SaveRef(LinkId(s, 0)), Wipe(DeletesAll(h))];
    OneStepEarlier(false, dropped, Mark({h}), marked, run);
    OneStepEarlier(false, prepared, Drop(last.snapshot), dropped, [Mark({h})] + run);
    OneStepEarlier(false, c, Present(h), prepared, [Drop(last.snapshot)] + ([Mark({h})] + run));
    assert [Present(h)] + ([Drop(last.snapshot)] + ([Mark({h})] + run)) ==
      [Present(h), Drop(last.snapshot), Mark({h}), SaveRef(LinkId(s, 0)), Wipe(DeletesAll(h))];
  }

  /** Within the schedule: a put that fails, and a second presentation of the same hash. The row exists, so nothing is
      put, and the link dangles. */
  lemma FailedPutPresentedAgain(h: Hash, s: SnapshotId)
    ensures Dangles(true, START, [NewSnapshot(s), Present(h), UploadStops(false), Present(h), SaveRef(LinkId(s, 0))])
  {
    var id, snaps := LinkId(s, 0), map[s := RUNNING];
    var c := START.(db := Db(map[], map[], snaps));
    var prepared := Cli(Db(Row(h, 0, ACTIVE, false), map[], snaps), {}, Some((h, true)), {}, Idle);
    var stopped := prepared.(upload := None, lost := {h});
    var again := stopped.(upload := Some((h, false)));
    var saved := stopped.(db := Db(Row(h, 1, ACTIVE, false), map[id := h], snaps));
    MissingObject(saved, id);
    OneStepEarlier(true, again, SaveRef(id), saved, []);
    OneStepEarlier(true, stopped, Present(h), again, [SaveRef(id)]);
    OneStepEarlier(true, prepared, UploadStops(false), stopped, [Present(h), SaveRef(id)]);
    OneStepEarlier(true, c, Present(h), prepared, [UploadStops(false), Present(h), SaveRef(id)]);
    OneStepEarlier(true, START, NewSnapshot(s), c, [Present(h), UploadStops(false), Present(h), SaveRef(id)]);
  }

  lemma RevivedThenSaved(h: Hash, s: SnapshotId, snaps: map<SnapshotId, SnapshotState>)
    requires s in snaps
    ensures Dangles(true, Cli(Db(Row(h, 0, PENDING_DELETE, true), map[], snaps), {}, None, {h}, Idle),
                    [Present(h), SaveRef(LinkId(s, 0))])
  {
    var id := LinkId(s, 0);
    var settled := Cli(Db(Row(h, 0, PENDING_DELETE, true), map[], snaps), {}, None, {h}, Idle);
    var again := settled.(db := Db(Row(h, 0, ACTIVE, false), map[], snaps), upload := Some((h, false)));
    var saved := settled.(db := Db(Row(h, 1, ACTIVE, false), map[id := h], snaps));
    MissingObject(saved, id);
    OneStepEarlier(true, again, SaveRef(id), saved, []);
    OneStepEarlier(true, settled, Present(h), again, [SaveRef(id)]);
  }

  lemma RaisingDeleteReverts(h: Hash, snaps: map<SnapshotId, SnapshotState>)
    ensures
      var reply := Reply({StorageKey(h)}, true);
      var marked := Cli(Db(Row(h, 0, PURGING_S3, true), map[], snaps), {StorageKey(h)}, None, {}, Marked({h}));
      var wiped := marked.(objects := {}, purge := Wiped({h}, reply));
      && Next(true, marked, Wipe(reply)) == wiped
      && Next(true, wiped, Settle) == Cli(Db(Row(h, 0, PENDING_DELETE, true), map[], snaps), {}, None, {h}, Idle)
  {
    assert KeysOf(Row(h, 0, PURGING_S3, true), {h}) == {StorageKey(h)};
    assert RevertPool(Row(h, 0, PURGING_S3, true), {h}) == Row(h, 0, PENDING_DELETE, true);
  }

  /** Within the schedule: a bulk delete that removes the object and still raises. The row is reverted, so the next
      backup finds nothing to put, and its link dangles. */
  lemma RaisingDeleteRevived(h: Hash, s: SnapshotId, snaps: map<SnapshotId, SnapshotState>)
    requires s in snaps
    ensures
      var c := Cli(Db(Row(h, 0, PENDING_DELETE, true), map[], snaps), {StorageKey(h)}, None, {}, Idle);
      var reply := Reply({StorageKey(h)}, true);
      Inv(c) && Dangles(true, c, [Mark({h}), Wipe(reply), Settle, Present(h), SaveRef(LinkId(s, 0))])
  {
    OrphanIsGood(h, snaps);
    RevivedThenSaved(h, s, snaps);
    RaisingDeleteReverts(h, snaps);
    var reply, run := Reply({StorageKey(h)}, true), [Present(h), SaveRef(LinkId(s, 0))];
    var c := Cli(Db(Row(h, 0, PENDING_DELETE, true), map[], snaps), {StorageKey(h)}, None, {}, Idle);
    var marked := Cli(Db(Row(h, 0, PURGING_S3, true), map[], snaps), {StorageKey(h)}, None, {}, Marked({h}));
    var wiped := marked.(objects := {}, purge := Wiped({h}, reply));
    OneStepEarlier(true, wiped, Settle, Next(true, wiped, Settle), run);
    OneStepEarlier(true, marked, Wipe(reply), wiped, [Settle] + run);
    OneStepEarlier(true, c, Mark({h}), marked, [Wipe(reply)] + ([Settle] + run));
    assert [Mark({h})] + ([Wipe(reply)] + ([Settle] + run)) ==
      [Mark({h}), Wipe(reply), Settle, Present(h), SaveRef(LinkId(s, 0))];
  }

  // ---------- a failed put that does no harm ----------

  ghost predicate Reaches(c: Cli, run: seq<Event>, end: Cli) {
    LegalRun(true, c, run) && After(true, c, run) == end
  }

  lemma OneStepMore(c: Cli, e: Event, c': Cli, run: seq<Event>, end: Cli)
    requires Legal(true, c, e) && Next(true, c, e) == c' && Reaches(c', run, end)
    ensures Reaches(c, [e] + run, end)
  {
    assert ([e] + run)[1..] == run;
  }

  lemma PresentedAndSaved(h: Hash, id: LinkId, snaps: map<SnapshotId, SnapshotState>)
    requires id.snapshot in snaps
    ensures Reaches(Cli(Db(Row(h, 0, ACTIVE, false), map[], snaps), {StorageKey(h)}, None, {}, Idle),
                    [Present(h), SaveRef(id)],
                    Cli(Db(Row(h, 1, ACTIVE, false), map[id := h], snaps), {StorageKey(h)}, None, {}, Idle))
  {
    var active := Cli(Db(Row(h, 0, ACTIVE, false), map[], snaps), {StorageKey(h)}, None, {}, Idle);
    var end := active.(db := Db(Row(h, 1, ACTIVE, false), map[id := h], snaps));
    OneStepMore(active.(upload := Some((h, false))), SaveRef(id), end, [], end);
    OneStepMore(active, Present(h), active.(upload := Some((h, false))), [SaveRef(id)], end);
  }

  /** That a put failed is not enough to lose a hash: if the process that marked the row died before it deleted, the
      object is still there, and presenting the hash again links a stored object. */
  lemma FailedPutOverStoredObject(h: Hash, id: LinkId, snaps: map<SnapshotId, SnapshotState>)
    requires id.snapshot in snaps
    ensures
      var c := Cli(Db(Row(h, 0, PENDING_DELETE, true), map[], snaps), {StorageKey(h)}, None, {}, Idle);
      var end := Cli(Db(Row(h, 1, ACTIVE, false), map[id := h], snaps), {StorageKey(h)}, None, {}, Idle);
      var run := [Mark({h})] + ([PurgeDies] + ([Present(h)] + ([UploadStops(false)] + [Present(h), SaveRef(id)])));
      && Reaches(c, run, end)
      && NoDangling(end)
  {
    PresentedAndSaved(h, id, snaps);
    var c := Cli(Db(Row(h, 0, PENDING_DELETE, true), map[], snaps), {StorageKey(h)}, None, {}, Idle);
    var left := c.(db := Db(Row(h, 0, PURGING_S3, true), map[], snaps));
    var active := c.(db := Db(Row(h, 0, ACTIVE, false), map[], snaps));
    var end := c.(db := Db(Row(h, 1, ACTIVE, false), map[id := h], snaps));
    var run := [Present(h), SaveRef(id)];
    OneStepMore(active.(upload := Some((h, true))), UploadStops(false), active, run, end);
    OneStepMore(left, Present(h), active.(upload := Some((h, true))), [UploadStops(false)] + run, end);
    var run' := [Present(h)] + ([UploadStops(false)] + run);
    OneStepMore(left.(purge := Marked({h})), PurgeDies, left, run', end);
    OneStepMore(c, Mark({h}), left.(purge := Marked({h})), [PurgeDies] + run', end);
  }
}
