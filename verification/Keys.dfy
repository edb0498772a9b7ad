/** Rotation of the key that wraps the data keys: all of them in one transaction, or none. */
module Keys {
  import opened Common
  import opened ChunkFormat
  import opened Snapshots
  import Backup
  import Restore

  /** The snapshots whose data keys a rotation rewraps. */
  predicate Rotatable(s: Restore.Snapshot) {
    s.estado in {COMPLETED, EXPIRED}
  }

  function DekUnder(suite: Suite, kek: Bytes, s: Restore.Snapshot): Option<Bytes> {
    Unwrap(suite, kek, s.dek, s.id)
  }

  /** Every snapshot that counts can be opened with this key. */
  ghost predicate OpensAll(suite: Suite, kek: Bytes, snapshots: seq<Restore.Snapshot>) {
    forall s | s in snapshots && Rotatable(s) :: DekUnder(suite, kek, s).Some?
  }

  /** What a rotation does to one row: same snapshot, same data key, another wrapping. */
  predicate RowRewrapped(suite: Suite, oldKek: Bytes, newKek: Bytes, s: Restore.Snapshot, t: Restore.Snapshot) {
    if Rotatable(s) then
      t.id == s.id && t.estado == s.estado && DekUnder(suite, oldKek, s).Some?
      && DekUnder(suite, newKek, t) == DekUnder(suite, oldKek, s)
    else t == s
  }

  ghost predicate Rewrapped(suite: Suite, oldKek: Bytes, newKek: Bytes, before: seq<Restore.Snapshot>,
                            after: seq<Restore.Snapshot>)
  {
    |after| == |before| && forall i | 0 <= i < |before| :: RowRewrapped(suite, oldKek, newKek, before[i], after[i])
  }

  function RotatableCount(snapshots: seq<Restore.Snapshot>): nat {
    if snapshots == [] then 0
    else RotatableCount(snapshots[..|snapshots| - 1]) + if Rotatable(snapshots[|snapshots| - 1]) then 1 else 0
  }

  lemma WrapRewraps(suite: Suite, oldKek: Bytes, newKek: Bytes, s: Restore.Snapshot, dek: Bytes, nonce: Bytes)
    requires suite.Lawful() && Rotatable(s) && DekUnder(suite, oldKek, s) == Some(dek)
    ensures RowRewrapped(suite, oldKek, newKek, s, s.(dek := Wrap(suite, newKek, dek, nonce, s.id)))
  {
    UnwrapWrap(suite, newKek, dek, nonce, s.id);
  }

  lemma RewrapOne(suite: Suite, oldKek: Bytes, newKek: Bytes, before: seq<Restore.Snapshot>,
                  session: seq<Restore.Snapshot>, i: nat, t: Restore.Snapshot)
    requires i < |before| == |session| && session[i..] == before[i..]
    requires Rewrapped(suite, oldKek, newKek, before[..i], session[..i]) && OpensAll(suite, oldKek, before[..i])
    requires RowRewrapped(suite, oldKek, newKek, before[i], t)
    ensures Rewrapped(suite, oldKek, newKek, before[..i + 1], session[i := t][..i + 1])
    ensures session[i := t][i + 1..] == before[i + 1..]
    ensures OpensAll(suite, oldKek, before[..i + 1])
    ensures RotatableCount(before[..i + 1]) == RotatableCount(before[..i]) + if Rotatable(before[i]) then 1 else 0
  {
    assert before[..i + 1] == before[..i] + [before[i]];
    assert session[i := t][..i + 1] == session[..i] + [t];
    assert session[i := t][i + 1..] == session[i..][1..] == before[i..][1..] == before[i + 1..];
    forall k | 0 <= k < i ensures RowRewrapped(suite, oldKek, newKek, before[k], session[k]) {
      assert RowRewrapped(suite, oldKek, newKek, before[..i][k], session[..i][k]);
    }
  }

  /** The loop over the session's rows; `random(i)` is the nonce drawn for row i. */
  method RewrapAll(suite: Suite, oldKek: Bytes, newKek: Bytes, rows: seq<Restore.Snapshot>, random: nat -> Bytes)
    returns (session: seq<Restore.Snapshot>, count: Option<nat>)
    requires suite.Lawful()
    ensures count.Some? <==> OpensAll(suite, oldKek, rows)
    ensures count.Some? ==> Rewrapped(suite, oldKek, newKek, rows, session) && count.value == RotatableCount(rows)
    ensures count.Some? ==> forall j: nat | j < |rows| && Rotatable(rows[j]) :: session[j].dek.nonce == random(j)
  {
    session := rows;
    var n, i := 0, 0;
    while i < |rows|
      invariant i <= |rows| == |session|
      invariant Rewrapped(suite, oldKek, newKek, rows[..i], session[..i])
      invariant session[i..] == rows[i..]
      invariant OpensAll(suite, oldKek, rows[..i])
      invariant n == RotatableCount(rows[..i])
      invariant forall j: nat | j < i && Rotatable(rows[j]) :: session[j].dek.nonce == random(j)
    {
      var s := session[i];
      assert s == session[i..][0] == rows[i];
      var t := s;
      if Rotatable(s) {
        var dek := Unwrap(suite, oldKek, s.dek, s.id);
        if dek.None? {
          assert s in rows && DekUnder(suite, oldKek, s).None?;
          return session, None;
        }
        WrapRewraps(suite, oldKek, newKek, s, dek.value, random(i));
        t := s.(dek := Wrap(suite, newKek, dek.value, random(i), s.id));
        n := n + 1;
      }
      RewrapOne(suite, oldKek, newKek, rows, session, i, t);
      session := session[i := t];
      i := i + 1;
    }
    assert rows[..i] == rows && session[..i] == session;
    count := Some(n);
  }

  class Database {
    var snapshots: seq<Restore.Snapshot>
    var salt: Option<string>

    constructor (snapshots: seq<Restore.Snapshot>, salt: Option<string>)
      ensures this.snapshots == snapshots && this.salt == salt
    {
      this.snapshots, this.salt := snapshots, salt;
    }

    /** The session works on its own copy, so an unwrapping that fails leaves the database as it was. */
    method RotateKek(suite: Suite, oldKek: Bytes, newKek: Bytes, newSalt: Option<string>, random: nat -> Bytes)
      returns (count: Option<nat>)
      requires suite.Lawful()
      modifies this
      ensures count.Some? <==> OpensAll(suite, oldKek, old(snapshots))
      ensures count.None? ==> snapshots == old(snapshots) && salt == old(salt)
      ensures count.Some? ==> Rewrapped(suite, oldKek, newKek, old(snapshots), snapshots)
      ensures count.Some? ==> count.value == RotatableCount(old(snapshots))
      ensures count.Some? ==>
        forall i: nat | i < |old(snapshots)| && Rotatable(old(snapshots)[i]) :: snapshots[i].dek.nonce == random(i)
      ensures count.Some? ==>
        salt == (if newSalt.Some? && newSalt.value != "" && old(salt).Some? then newSalt else old(salt))
    {
      var session;
      session, count := RewrapAll(suite, oldKek, newKek, snapshots, random);
      if count.Some? {
        snapshots := session;
        if newSalt.Some? && newSalt.value != "" && salt.Some? {
          salt := newSalt;
        }
      }
    }
  }

  // ---------- sequences of rotations ----------

  /** After a rotation the new key opens everything the old one did. */
  lemma NewKeyOpensAll(suite: Suite, oldKek: Bytes, newKek: Bytes, before: seq<Restore.Snapshot>,
                       after: seq<Restore.Snapshot>)
    requires Rewrapped(suite, oldKek, newKek, before, after)
    ensures OpensAll(suite, newKek, after)
  {
    forall t | t in after && Rotatable(t) ensures DekUnder(suite, newKek, t).Some? {
      var i :| 0 <= i < |after| && after[i] == t;
      assert RowRewrapped(suite, oldKek, newKek, before[i], after[i]);
    }
  }

  /** What happens to the table of snapshots: an attempted rotation, a snapshot that changes state, a new snapshot. */
  datatype Step =
    | Rotate(newKek: Bytes, succeeded: bool)
    | SetEstado(row: nat, estado: SnapshotState)
    | Add(snapshot: Restore.Snapshot)

  function KekAfter(kek: Bytes, steps: seq<Step>): Bytes
    decreases |steps|
  {
    if steps == [] then kek
    else KekAfter(if steps[0].Rotate? && steps[0].succeeded then steps[0].newKek else kek, steps[1..])
  }

  /** One step from `before` to `after` with `kek` in force. */
  ghost predicate Stepped(suite: Suite, kek: Bytes, step: Step, before: seq<Restore.Snapshot>,
                          after: seq<Restore.Snapshot>)
  {
    match step
    case Rotate(newKek, true) => Rewrapped(suite, kek, newKek, before, after)
    case Rotate(_, false) => after == before
    case SetEstado(row, estado) => row < |before| && after == before[row := before[row].(estado := estado)]
    case Add(snapshot) => after == before + [snapshot]
  }

  /** `states[k]` is the table before the k-th step. */
  ghost predicate History(suite: Suite, kek: Bytes, steps: seq<Step>, states: seq<seq<Restore.Snapshot>>)
    decreases |steps|
  {
    && |states| == |steps| + 1
    && (steps == [] ||
        (Stepped(suite, kek, steps[0], states[0], states[1])
         && History(suite, KekAfter(kek, steps[..1]), steps[1..], states[1..])))
  }

  /** Row i was COMPLETED or EXPIRED at every rotation that succeeded. */
  predicate AlwaysRotatable(steps: seq<Step>, states: seq<seq<Restore.Snapshot>>, i: nat)
    requires |states| == |steps| + 1
    decreases |steps|
  {
    steps != [] ==>
      && (steps[0].Rotate? && steps[0].succeeded ==> i < |states[0]| && Rotatable(states[0][i]))
      && AlwaysRotatable(steps[1..], states[1..], i)
  }

  /** No later key opens a wrapping of row i that a rotation passed over. */
  predicate RejectsStale(suite: Suite, steps: seq<Step>, states: seq<seq<Restore.Snapshot>>, i: nat)
    requires |states| == |steps| + 1
    decreases |steps|
  {
    steps != [] ==>
      && (steps[0].Rotate? && steps[0].succeeded && i < |states[0]| && !Rotatable(states[0][i]) ==>
            DekUnder(suite, steps[0].newKek, states[0][i]).None?)
      && RejectsStale(suite, steps[1..], states[1..], i)
  }

  lemma KekAfterOne(kek: Bytes, steps: seq<Step>)
    requires steps != []
    ensures KekAfter(kek, steps) == KekAfter(KekAfter(kek, steps[..1]), steps[1..])
  {
    var next := if steps[0].Rotate? && steps[0].succeeded then steps[0].newKek else kek;
    assert steps[..1][0] == steps[0] && steps[..1][1..] == [];
    assert KekAfter(kek, steps[..1]) == KekAfter(next, []) == next;
  }

  /** One step keeps the id of row i, and its data key unless a rotation passes it over. */
  lemma StepKeepsKey(suite: Suite, kek: Bytes, step: Step, before: seq<Restore.Snapshot>, after: seq<Restore.Snapshot>,
                     i: nat)
    requires Stepped(suite, kek, step, before, after) && i < |before|
    ensures i < |after| && after[i].id == before[i].id
    ensures
      var next := KekAfter(kek, [step]);
      if step.Rotate? && step.succeeded then
        RowRewrapped(suite, kek, next, before[i], after[i])
      else next == kek && after[i].dek == before[i].dek
  {
    assert [step][1..] == [];
    assert KekAfter(kek, [step]) == KekAfter(if step.Rotate? && step.succeeded then step.newKek else kek, []);
  }

  /** The data key of row i stays the same under the key in force as long as no rotation passes it over. */
  lemma {:induction false} KeyKept(suite: Suite, kek: Bytes, steps: seq<Step>, states: seq<seq<Restore.Snapshot>>,
                                   i: nat)
    requires History(suite, kek, steps, states) && i < |states[0]| && AlwaysRotatable(steps, states, i)
    ensures var last := states[|steps|];
      i < |last| && last[i].id == states[0][i].id
      && DekUnder(suite, KekAfter(kek, steps), last[i]) == DekUnder(suite, kek, states[0][i])
    decreases |steps|
  {
    if steps != [] {
      assert steps[..1] == [steps[0]];
      StepKeepsKey(suite, kek, steps[0], states[0], states[1], i);
      KekAfterOne(kek, steps);
      KeyKept(suite, KekAfter(kek, steps[..1]), steps[1..], states[1..], i);
      assert states[1..][|steps| - 1] == states[|steps|];
    }
  }

  /** A row that the key in force does not open stays closed: a rotation that would have to rewrap it cannot succeed. */
  lemma {:induction false} StaysClosed(suite: Suite, kek: Bytes, steps: seq<Step>, states: seq<seq<Restore.Snapshot>>,
                                       i: nat)
    requires History(suite, kek, steps, states) && i < |states[0]| && RejectsStale(suite, steps, states, i)
    requires DekUnder(suite, kek, states[0][i]).None?
    ensures var last := states[|steps|];
      i < |last| && last[i].id == states[0][i].id && DekUnder(suite, KekAfter(kek, steps), last[i]).None?
    decreases |steps|
  {
    if steps != [] {
      assert steps[..1] == [steps[0]];
      StepKeepsKey(suite, kek, steps[0], states[0], states[1], i);
      KekAfterOne(kek, steps);
      StaysClosed(suite, KekAfter(kek, steps[..1]), steps[1..], states[1..], i);
      assert states[1..][|steps| - 1] == states[|steps|];
    }
  }

  /** Once a rotation has passed row i over, the key in force no longer opens it. */
  lemma {:induction false} PassedOverCloses(suite: Suite, kek: Bytes, steps: seq<Step>,
                                            states: seq<seq<Restore.Snapshot>>, i: nat)
    requires History(suite, kek, steps, states) && i < |states[0]| && RejectsStale(suite, steps, states, i)
    requires !AlwaysRotatable(steps, states, i)
    ensures var last := states[|steps|];
      i < |last| && last[i].id == states[0][i].id && DekUnder(suite, KekAfter(kek, steps), last[i]).None?
    decreases |steps|
  {
    assert steps[..1] == [steps[0]];
    StepKeepsKey(suite, kek, steps[0], states[0], states[1], i);
    KekAfterOne(kek, steps);
    assert states[1..][|steps| - 1] == states[|steps|];
    if steps[0].Rotate? && steps[0].succeeded && !Rotatable(states[0][i]) {
      StaysClosed(suite, KekAfter(kek, steps[..1]), steps[1..], states[1..], i);
    } else {
      PassedOverCloses(suite, KekAfter(kek, steps[..1]), steps[1..], states[1..], i);
    }
  }

  /** What restoring row i once it is COMPLETED gives. */
  function RestoredRow(suite: Suite, kek: Bytes, s: Restore.Snapshot, rows: seq<Backup.Bloque>, isList: bool,
                       answers: Restore.Downloads): Restore.Outcome
  {
    Restore.Restored(suite, kek, s.(estado := COMPLETED), rows, isList, answers)
  }

  /**
   * Over any history of rotations, failed ones included, of completions and of new snapshots: a snapshot that is
   * COMPLETED in the end restores under the key in force to exactly what it held at first, for all rows and downloads,
   * provided it was COMPLETED or EXPIRED at every rotation that succeeded.
   */
  lemma RotationsPreserveRestores(
      suite: Suite, kek: Bytes, steps: seq<Step>, states: seq<seq<Restore.Snapshot>>, i: nat,
      rows: seq<Backup.Bloque>, isList: bool, answers: Restore.Downloads)
    requires History(suite, kek, steps, states) && i < |states[0]| && AlwaysRotatable(steps, states, i)
    ensures var last := states[|steps|];
      && i < |last|
      && (last[i].estado == COMPLETED ==>
            Restore.Restored(suite, KekAfter(kek, steps), last[i], rows, isList, answers)
            == RestoredRow(suite, kek, states[0][i], rows, isList, answers))
  {
    KeyKept(suite, kek, steps, states, i);
  }

  /**
   * And only then: when no later key opens a stale wrapping, a snapshot that the first key opened and that is
   * COMPLETED in the end restores as before if and only if it was COMPLETED or EXPIRED at every rotation that
   * succeeded. One that was RUNNING then is rejected for good.
   */
  lemma RestoresAfterRotationsIff(
      suite: Suite, kek: Bytes, steps: seq<Step>, states: seq<seq<Restore.Snapshot>>, i: nat,
      rows: seq<Backup.Bloque>, isList: bool, answers: Restore.Downloads)
    requires History(suite, kek, steps, states) && i < |states[0]| && RejectsStale(suite, steps, states, i)
    requires DekUnder(suite, kek, states[0][i]).Some?
    ensures var last := states[|steps|];
      && i < |last|
      && (last[i].estado == COMPLETED ==>
            var outcome := Restore.Restored(suite, KekAfter(kek, steps), last[i], rows, isList, answers);
            if AlwaysRotatable(steps, states, i) then
              outcome == RestoredRow(suite, kek, states[0][i], rows, isList, answers)
            else
              outcome == Restore.Outcome([], Some(Restore.KeyRejected))
              && outcome != RestoredRow(suite, kek, states[0][i], rows, isList, answers))
  {
    if AlwaysRotatable(steps, states, i) {
      KeyKept(suite, kek, steps, states, i);
    } else {
      PassedOverCloses(suite, kek, steps, states, i);
      Restore.OpenKeyNotRejected(suite, kek, states[0][i].(estado := COMPLETED), rows, isList, answers);
    }
  }

  /** A snapshot that was passed over and then COMPLETED also makes every further rotation fail. */
  lemma PassedOverBlocksRotation(suite: Suite, kek: Bytes, steps: seq<Step>, states: seq<seq<Restore.Snapshot>>, i: nat)
    requires History(suite, kek, steps, states) && i < |states[0]| && RejectsStale(suite, steps, states, i)
    requires !AlwaysRotatable(steps, states, i)
    requires i < |states[|steps|]| && Rotatable(states[|steps|][i])
    ensures !OpensAll(suite, KekAfter(kek, steps), states[|steps|])
  {
    PassedOverCloses(suite, kek, steps, states, i);
    assert states[|steps|][i] in states[|steps|];
  }

  /** The key that the command line derives from a passphrase and the stored salt opens every snapshot. */
  ghost predicate Unlocks(suite: Suite, derive: (string, string) -> Bytes, passphrase: string, salt: Option<string>,
                          snapshots: seq<Restore.Snapshot>)
  {
    salt.Some? && OpensAll(suite, derive(passphrase, salt.value), snapshots)
  }

  /**
   * The rotation command. With a passphrase that unlocks the database it always succeeds, and then the new passphrase
   * unlocks it with the salt now stored; with one that does not, nothing changes.
   */
  method RotateCommand(db: Database, suite: Suite, derive: (string, string) -> Bytes, oldPassphrase: string,
                       newPassphrase: string, newSalt: string, random: nat -> Bytes)
    returns (count: Option<nat>)
    requires suite.Lawful() && newSalt != ""
    modifies db
    ensures count.Some? <==> Unlocks(suite, derive, oldPassphrase, old(db.salt), old(db.snapshots))
    ensures count.Some? ==> Unlocks(suite, derive, newPassphrase, db.salt, db.snapshots) && db.salt == Some(newSalt)
    ensures count.Some? ==> Rewrapped(suite, derive(oldPassphrase, old(db.salt).value), derive(newPassphrase, newSalt),
                                      old(db.snapshots), db.snapshots)
    ensures count.None? ==> db.snapshots == old(db.snapshots) && db.salt == old(db.salt)
  {
    if db.salt.None? {
      return None;
    }
    var oldKek, newKek := derive(oldPassphrase, db.salt.value), derive(newPassphrase, newSalt);
    ghost var before := db.snapshots;
    count := db.RotateKek(suite, oldKek, newKek, Some(newSalt), random);
    if count.Some? {
      NewKeyOpensAll(suite, oldKek, newKek, before, db.snapshots);
    }
  }
}
