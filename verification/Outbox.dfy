/** The transactional outbox: staged files, lease-based claims, retries and dead letters. */
module Outbox {
  import opened Common

  datatype RowState = PENDING | DRAINING | PROCESSED | DEAD_LETTER

  type Path = nat

  // Times are whole seconds.
  const LEASE: int := 15 * 60
  const MAX_ATTEMPTS: nat := 10
  const MAX_BACKOFF: int := 3600

  /** A row of the outbox table; its id is its position, as rows are only appended.
      `original` is not a column: it records, for the specification, what `enqueue` was given. */
  datatype Row = Row(path: Path, state: RowState, attempts: nat, updatedAt: int, nextRetryAt: int, original: Bytes)

  function NewRow(path: Path, payload: Bytes, now: int): Row {
    Row(path, PENDING, 0, now, now, payload)
  }

  predicate Eligible(r: Row, now: int) {
    (r.state == PENDING && r.nextRetryAt <= now) || (r.state == DRAINING && r.updatedAt <= now - LEASE)
  }

  function Claimed(r: Row, now: int): Row {
    r.(state := DRAINING, updatedAt := now)
  }

  function Confirmed(r: Row, now: int): Row {
    r.(state := PROCESSED, updatedAt := now)
  }

  /** The failure update; `attempts` is the count read when the row was claimed. */
  function Retried(r: Row, attempts: nat, now: int): Row {
    r.(state := if attempts + 1 >= MAX_ATTEMPTS then DEAD_LETTER else PENDING,
       attempts := attempts + 1,
       nextRetryAt := now + Min(MAX_BACKOFF, Pow2(attempts + 1)),
       updatedAt := now)
  }

  // ---------- what the table, the staging directory and the provider have in common ----------

  /** No row is lost: unless it is PROCESSED its staged file holds the original payload,
      and if it is PROCESSED the provider accepted that payload. */
  ghost predicate Durable(rows: seq<Row>, files: map<Path, Bytes>, accepted: map<nat, Bytes>) {
    forall i | 0 <= i < |rows| ::
      if rows[i].state == PROCESSED then i in accepted && accepted[i] == rows[i].original
      else rows[i].path in files && files[rows[i].path] == rows[i].original
  }

  /** Attempts never exceed ten, ten means dead letter, and the retry delay is 2^attempts, at most 512 seconds. */
  ghost predicate RetriesOk(rows: seq<Row>) {
    forall i | 0 <= i < |rows| ::
      && rows[i].attempts <= 10
      && (rows[i].state == DEAD_LETTER <==> rows[i].attempts == 10)
      && (rows[i].state == PENDING && rows[i].attempts > 0 ==>
            rows[i].nextRetryAt - rows[i].updatedAt == Pow2(rows[i].attempts) <= 512)
  }

  ghost predicate DistinctPaths(rows: seq<Row>) {
    forall i, j | 0 <= i < j < |rows| :: rows[i].path != rows[j].path
  }

  /** The cap of 3600 seconds never binds: a row that stays PENDING waits 2^attempts <= 512 seconds. */
  lemma BackoffBelowCap(attempts: nat)
    requires attempts + 1 < MAX_ATTEMPTS
    ensures Min(MAX_BACKOFF, Pow2(attempts + 1)) == Pow2(attempts + 1) <= 512
  {
    if attempts + 1 < 9 {
      Pow2Grows(attempts + 1, 9);
    }
    assert Pow2(4) == 16;
    assert Pow2(9) == 512;
  }

  lemma RetriedOk(r: Row, attempts: nat, now: int)
    requires attempts < MAX_ATTEMPTS
    ensures RetriesOk([Retried(r, attempts, now)])
  {
    if attempts + 1 < MAX_ATTEMPTS {
      BackoffBelowCap(attempts);
    }
  }

  // ---------- many drainers, crashes included ----------

  datatype Phase = InHand | Uploaded | Committed

  /** One claimed row still being worked on by a drainer, with the attempts it read when claiming. */
  datatype Ticket = Ticket(drainer: nat, row: nat, claimedAt: int, attempts: nat, phase: Phase)

  datatype System = System(
    rows: seq<Row>,
    files: map<Path, Bytes>,
    staged: map<Path, Bytes>,     // files written by an enqueue that has not inserted its row yet
    accepted: map<nat, Bytes>,    // what the provider last accepted for each row
    tickets: set<Ticket>,
    clock: int)

  datatype Event =
    | Stage(path: Path, payload: Bytes)
    | Insert(path: Path)
    | InsertFails(path: Path)
    | EnqueueDies(path: Path)
    | Tick(to: int)
    | Claim(drainer: nat, chosen: set<nat>)
    | Upload(t: Ticket)
    | Commit(t: Ticket)
    | Unlink(t: Ticket)
    | Fail(t: Ticket)
    | DrainerDies(drainer: nat)

  predicate Legal(s: System, e: Event) {
    match e
    case Stage(path, _) =>
      // exclusive creation, and a fresh identifier in the name
      path !in s.files && path !in s.staged && forall i | 0 <= i < |s.rows| :: s.rows[i].path != path
    case Insert(path) => path in s.staged
    case InsertFails(path) => path in s.staged
    case EnqueueDies(path) => path in s.staged
    case Tick(to) =>
      // the lease assumption: a drainer has finished its batch, or died, before its claim is 15 minutes old
      to >= s.clock && forall t | t in s.tickets :: to < t.claimedAt + LEASE
    case Claim(drainer, chosen) =>
      (forall t | t in s.tickets :: t.drainer != drainer) &&
      (forall i | i in chosen :: i < |s.rows| && Eligible(s.rows[i], s.clock))
    case Upload(t) => t in s.tickets && t.phase == InHand && t.row < |s.rows| && s.rows[t.row].path in s.files
    case Commit(t) => t in s.tickets && t.phase == Uploaded && t.row < |s.rows|
    case Unlink(t) => t in s.tickets && t.phase == Committed && t.row < |s.rows|
    case Fail(t) => t in s.tickets && t.row < |s.rows|
    case DrainerDies(_) => true
  }

  function ClaimRows(rows: seq<Row>, chosen: set<nat>, now: int): (r: seq<Row>)
    ensures |r| == |rows|
    ensures forall i: nat | i < |rows| :: r[i] == if i in chosen then Claimed(rows[i], now) else rows[i]
  {
    seq(|rows|, (i: nat) requires i < |rows| => if i in chosen then Claimed(rows[i], now) else rows[i])
  }

  function Next(s: System, e: Event): System
    requires Legal(s, e)
  {
    match e
    case Stage(path, payload) => s.(files := s.files[path := payload], staged := s.staged[path := payload])
    case Insert(path) =>
      s.(rows := s.rows + [NewRow(path, s.staged[path], s.clock)], staged := s.staged - {path})
    case InsertFails(path) => s.(files := s.files - {path}, staged := s.staged - {path})
    case EnqueueDies(path) => s.(staged := s.staged - {path})
    case Tick(to) => s.(clock := to)
    case Claim(drainer, chosen) =>
      s.(rows := ClaimRows(s.rows, chosen, s.clock),
         tickets := s.tickets + set i | i in chosen :: Ticket(drainer, i, s.clock, s.rows[i].attempts, InHand))
    case Upload(t) =>
      s.(accepted := s.accepted[t.row := s.files[s.rows[t.row].path]],
         tickets := s.tickets - {t} + {t.(phase := Uploaded)})
    case Commit(t) =>
      s.(rows := s.rows[t.row := Confirmed(s.rows[t.row], s.clock)],
         tickets := s.tickets - {t} + {t.(phase := Committed)})
    case Unlink(t) => s.(files := s.files - {s.rows[t.row].path}, tickets := s.tickets - {t})
    case Fail(t) =>
      s.(rows := s.rows[t.row := Retried(s.rows[t.row], t.attempts, s.clock)], tickets := s.tickets - {t})
    case DrainerDies(drainer) => s.(tickets := set t | t in s.tickets && t.drainer != drainer)
  }

  /** No two drainers (nor one drainer twice) work on the same row. */
  ghost predicate Exclusive(s: System) {
    forall t, u | t in s.tickets && u in s.tickets && t.row == u.row :: t == u
  }

  /** A ticket's row is as its drainer left it, its lease is running and its staged file is still there. */
  ghost predicate TicketOk(s: System, t: Ticket) {
    && t.row < |s.rows|
    && var r := s.rows[t.row];
    && t.claimedAt <= s.clock < t.claimedAt + LEASE
    && r.attempts == t.attempts < MAX_ATTEMPTS
    && r.path in s.files && s.files[r.path] == r.original
    && (if t.phase == Committed then r.state == PROCESSED else r.state == DRAINING && r.updatedAt == t.claimedAt)
    && (t.phase != InHand ==> t.row in s.accepted && s.accepted[t.row] == r.original)
  }

  ghost predicate StagedOk(s: System) {
    forall path | path in s.staged ::
      && path in s.files && s.files[path] == s.staged[path]
      && forall i | 0 <= i < |s.rows| :: s.rows[i].path != path
  }

  ghost predicate Inv(s: System) {
    && Durable(s.rows, s.files, s.accepted)
    && RetriesOk(s.rows)
    && DistinctPaths(s.rows)
    && Exclusive(s)
    && StagedOk(s)
    && forall t | t in s.tickets :: TicketOk(s, t)
  }

  lemma ClaimKeepsTickets(s: System, drainer: nat, chosen: set<nat>)
    requires Inv(s) && Legal(s, Claim(drainer, chosen))
    ensures Exclusive(Next(s, Claim(drainer, chosen)))
    ensures forall t | t in Next(s, Claim(drainer, chosen)).tickets :: TicketOk(Next(s, Claim(drainer, chosen)), t)
  {
    var s' := Next(s, Claim(drainer, chosen));
    forall t | t in s.tickets ensures t.row !in chosen {
      assert TicketOk(s, t);
    }
    forall t | t in s'.tickets ensures TicketOk(s', t) {
      if t in s.tickets {
        assert TicketOk(s, t);
      }
    }
  }

  /** No row of a running drainer is eligible, so a claim takes none. */
  lemma ClaimKeepsInv(s: System, drainer: nat, chosen: set<nat>)
    requires Inv(s) && Legal(s, Claim(drainer, chosen))
    ensures Inv(Next(s, Claim(drainer, chosen)))
  {
    ClaimedValid(s.rows, s.files, s.accepted, chosen, s.clock);
    ClaimKeepsTickets(s, drainer, chosen);
  }

  lemma FailKeepsInv(s: System, t: Ticket)
    requires Inv(s) && Legal(s, Fail(t))
    ensures Inv(Next(s, Fail(t)))
  {
    var s' := Next(s, Fail(t));
    assert TicketOk(s, t);
    RetriedOk(s.rows[t.row], t.attempts, s.clock);
    assert RetriesOk([s'.rows[t.row]]) && [s'.rows[t.row]][0] == s'.rows[t.row];
    forall u | u in s'.tickets ensures TicketOk(s', u) {
      assert TicketOk(s, u);
      assert u.row != t.row;
    }
  }

  lemma UploadKeepsInv(s: System, t: Ticket)
    requires Inv(s) && Legal(s, Upload(t))
    ensures Inv(Next(s, Upload(t)))
  {
    var s' := Next(s, Upload(t));
    assert TicketOk(s, t);
    forall u | u in s'.tickets ensures TicketOk(s', u) {
      if u in s.tickets {
        assert TicketOk(s, u);
      }
    }
  }

  lemma CommitKeepsInv(s: System, t: Ticket)
    requires Inv(s) && Legal(s, Commit(t))
    ensures Inv(Next(s, Commit(t)))
  {
    var s' := Next(s, Commit(t));
    assert TicketOk(s, t);
    forall u | u in s'.tickets ensures TicketOk(s', u) {
      if u in s.tickets {
        assert TicketOk(s, u);
      }
    }
  }

  lemma UnlinkKeepsInv(s: System, t: Ticket)
    requires Inv(s) && Legal(s, Unlink(t))
    ensures Inv(Next(s, Unlink(t)))
  {
    var s' := Next(s, Unlink(t));
    assert TicketOk(s, t);
    forall u | u in s'.tickets ensures TicketOk(s', u) {
      assert TicketOk(s, u);
      assert u.row != t.row;
    }
  }

  lemma EnqueueKeepsInv(s: System, e: Event)
    requires Inv(s) && Legal(s, e) && (e.Stage? || e.Insert? || e.InsertFails? || e.EnqueueDies?)
    ensures Inv(Next(s, e))
  {
    var s' := Next(s, e);
    forall t | t in s'.tickets ensures TicketOk(s', t) {
      assert TicketOk(s, t);
    }
  }

  lemma OtherKeepsInv(s: System, e: Event)
    requires Inv(s) && Legal(s, e) && (e.Tick? || e.DrainerDies?)
    ensures Inv(Next(s, e))
  {
    var s' := Next(s, e);
    forall t | t in s'.tickets ensures TicketOk(s', t) {
      assert TicketOk(s, t);
    }
  }

  lemma StepKeepsInv(s: System, e: Event)
    requires Inv(s) && Legal(s, e)
    ensures Inv(Next(s, e))
  {
    match e
    case Claim(drainer, chosen) => ClaimKeepsInv(s, drainer, chosen);
    case Upload(t) => UploadKeepsInv(s, t);
    case Commit(t) => CommitKeepsInv(s, t);
    case Unlink(t) => UnlinkKeepsInv(s, t);
    case Fail(t) => FailKeepsInv(s, t);
    case Tick(_) => OtherKeepsInv(s, e);
    case DrainerDies(_) => OtherKeepsInv(s, e);
    case _ => EnqueueKeepsInv(s, e);
  }

  predicate LegalRun(s: System, run: seq<Event>)
    decreases |run|
  {
    run == [] || (Legal(s, run[0]) && LegalRun(Next(s, run[0]), run[1..]))
  }

  function After(s: System, run: seq<Event>): System
    requires LegalRun(s, run)
    decreases |run|
  {
    if run == [] then s else After(Next(s, run[0]), run[1..])
  }

  /** Every run of enqueues, drainers, failures and crashes keeps the invariant. */
  lemma {:induction false} RunKeepsInv(s: System, run: seq<Event>)
    requires Inv(s) && LegalRun(s, run)
    ensures Inv(After(s, run))
    decreases |run|
  {
    if run != [] {
      StepKeepsInv(s, run[0]);
      RunKeepsInv(Next(s, run[0]), run[1..]);
    }
  }

  function Empty(now: int): System {
    System([], map[], map[], map[], {}, now)
  }

  /** Durability, exclusive work and bounded retries hold after every run of a new outbox. */
  lemma EveryRunIsDurable(now: int, run: seq<Event>)
    requires LegalRun(Empty(now), run)
    ensures var s := After(Empty(now), run);
      Durable(s.rows, s.files, s.accepted) && RetriesOk(s.rows) && Exclusive(s) && Inv(s)
  {
    RunKeepsInv(Empty(now), run);
  }

  // ---------- no staged file is left behind ----------

  /** The row still needs its file, or its drainer is about to remove it. */
  ghost predicate InUse(s: System, i: nat)
    requires i < |s.rows|
  {
    s.rows[i].state != PROCESSED || exists t :: t in s.tickets && t.row == i && t.phase == Committed
  }

  ghost predicate Owned(s: System, path: Path) {
    path in s.staged || exists i: nat :: i < |s.rows| && s.rows[i].path == path && InUse(s, i)
  }

  ghost predicate NoStrays(s: System) {
    forall path | path in s.files :: Owned(s, path)
  }

  /** A row that is in use and keeps its file stays in use. */
  lemma StaysInUse(s: System, e: Event, i: nat)
    requires Inv(s) && Legal(s, e) && !e.DrainerDies? && i < |s.rows| && InUse(s, i)
    ensures i < |Next(s, e).rows| && Next(s, e).rows[i].path == s.rows[i].path
    ensures InUse(Next(s, e), i) || (e.Unlink? && e.t.row == i)
  {
    var s' := Next(s, e);
    if s'.rows[i].state == PROCESSED {
      if s.rows[i].state != PROCESSED {
        assert e.t.(phase := Committed) in s'.tickets;
      } else {
        var t :| t in s.tickets && t.row == i && t.phase == Committed;
        assert t in s'.tickets || e.t == t;
      }
    }
  }

  lemma StepLeavesNoStrays(s: System, e: Event)
    requires Inv(s) && NoStrays(s) && Legal(s, e) && !e.DrainerDies? && !e.EnqueueDies?
    ensures NoStrays(Next(s, e))
  {
    var s' := Next(s, e);
    forall path | path in s'.files ensures Owned(s', path) {
      if path in s.files && path !in s'.staged {
        if path in s.staged {
          assert s'.rows[|s.rows|].path == path && InUse(s', |s.rows|);
        } else {
          var i: nat :| i < |s.rows| && s.rows[i].path == path && InUse(s, i);
          StaysInUse(s, e, i);
        }
      }
    }
  }

  lemma {:induction false} RunLeavesNoStrays(s: System, run: seq<Event>)
    requires Inv(s) && NoStrays(s) && LegalRun(s, run)
    requires forall i | 0 <= i < |run| :: !run[i].DrainerDies? && !run[i].EnqueueDies?
    ensures NoStrays(After(s, run))
    decreases |run|
  {
    if run != [] {
      StepKeepsInv(s, run[0]);
      StepLeavesNoStrays(s, run[0]);
      forall i | 0 <= i < |run[1..]| ensures !run[1..][i].DrainerDies? && !run[1..][i].EnqueueDies? {
        assert run[1..][i] == run[i + 1];
      }
      RunLeavesNoStrays(Next(s, run[0]), run[1..]);
    }
  }

  /** In a run in which no process dies, every file in the staging directory belongs to an enqueue under way, to a row
      that was not processed, or to one whose drainer is about to remove it. */
  lemma NothingLeftBehind(now: int, run: seq<Event>)
    requires LegalRun(Empty(now), run)
    requires forall i | 0 <= i < |run| :: !run[i].DrainerDies? && !run[i].EnqueueDies?
    ensures NoStrays(After(Empty(now), run))
  {
    RunLeavesNoStrays(Empty(now), run);
  }

  // ---------- drains that neither crash nor overlap, and their progress ----------

  predicate Live(r: Row) {
    r.state == PENDING || r.state == DRAINING
  }

  /** Attempts left for a row that is still live. */
  function WorkOf(r: Row): int {
    if Live(r) then MAX_ATTEMPTS - r.attempts else 0
  }

  function Work(rows: seq<Row>): int {
    if rows == [] then 0 else Work(rows[..|rows| - 1]) + WorkOf(rows[|rows| - 1])
  }

  lemma {:induction false} WorkUpdate(rows: seq<Row>, i: nat, r: Row)
    requires i < |rows|
    ensures Work(rows[i := r]) == Work(rows) - WorkOf(rows[i]) + WorkOf(r)
  {
    var n := |rows| - 1;
    if i < n {
      assert rows[i := r][..n] == rows[..n][i := r];
      WorkUpdate(rows[..n], i, r);
    } else {
      assert rows[i := r][..n] == rows[..n];
    }
  }

  lemma {:induction false} WorkBound(rows: seq<Row>)
    requires RetriesOk(rows)
    ensures 0 <= Work(rows) <= MAX_ATTEMPTS * |rows|
  {
    if rows != [] {
      WorkBound(rows[..|rows| - 1]);
    }
  }

  /** Claiming costs no attempts. */
  lemma {:induction false} ClaimedWork(rows: seq<Row>, chosen: set<nat>, now: int)
    requires forall i | i in chosen && i < |rows| :: Eligible(rows[i], now)
    ensures Work(ClaimRows(rows, chosen, now)) == Work(rows)
  {
    if rows != [] {
      var n := |rows| - 1;
      ClaimedWork(rows[..n], chosen, now);
      assert ClaimRows(rows, chosen, now)[..n] == ClaimRows(rows[..n], chosen, now);
    }
  }

  /** The claim query: the first `limit` eligible rows in creation order. */
  function FirstEligible(rows: seq<Row>, now: int, limit: nat, from: nat): (batch: seq<nat>)
    requires from <= |rows|
    ensures |batch| <= limit
    ensures forall k | 0 <= k < |batch| :: from <= batch[k] < |rows| && Eligible(rows[batch[k]], now)
    ensures forall j, k | 0 <= j < k < |batch| :: batch[j] < batch[k]
    ensures forall i | from <= i < |rows| && Eligible(rows[i], now) && i !in batch ::
      |batch| == limit && forall k | 0 <= k < |batch| :: batch[k] < i
    decreases |rows| - from
  {
    if from == |rows| || limit == 0 then []
    else if Eligible(rows[from], now) then [from] + FirstEligible(rows, now, limit - 1, from + 1)
    else FirstEligible(rows, now, limit, from + 1)
  }

  lemma ClaimedValid(rows: seq<Row>, files: map<Path, Bytes>, accepted: map<nat, Bytes>, chosen: set<nat>, now: int)
    requires Durable(rows, files, accepted) && RetriesOk(rows) && DistinctPaths(rows)
    requires forall i | i in chosen && i < |rows| :: Eligible(rows[i], now)
    ensures
      var rows' := ClaimRows(rows, chosen, now);
      Durable(rows', files, accepted) && RetriesOk(rows') && DistinctPaths(rows')
  {
  }

  /** How the work on one claimed row ends; removing the staged file can fail after the row was confirmed. */
  datatype Try = Completed | UploadFails | UnlinkFails

  /** The row after one try. */
  function Handled(r: Row, t: Try, now: int): Row {
    if t == Completed then Confirmed(r, now) else Retried(r, r.attempts, now)
  }

  lemma HandledValid(rows: seq<Row>, files: map<Path, Bytes>, accepted: map<nat, Bytes>, i: nat, t: Try, now: int)
    requires Durable(rows, files, accepted) && RetriesOk(rows) && DistinctPaths(rows)
    requires i < |rows| && rows[i].state == DRAINING
    ensures rows[i].path in files
    ensures
      var rows' := rows[i := Handled(rows[i], t, now)];
      && RetriesOk(rows') && DistinctPaths(rows') && Work(rows') < Work(rows)
      && Durable(rows', if t == Completed then files - {rows[i].path} else files,
                 if t == UploadFails then accepted else accepted[i := files[rows[i].path]])
  {
    var r := Handled(rows[i], t, now);
    RetriedOk(rows[i], rows[i].attempts, now);
    var retried := Retried(rows[i], rows[i].attempts, now);
    assert RetriesOk([retried]) && [retried][0].attempts > 0;
    WorkUpdate(rows, i, r);
  }

  /** A batch lists rows in table order. */
  ghost predicate Increasing(batch: seq<nat>) {
    forall i, j | 0 <= i < j < |batch| :: batch[i] < batch[j]
  }

  lemma RetriedAfterConfirmed(rows: seq<Row>, i: nat, attempts: nat, now: int)
    requires i < |rows|
    ensures
      var confirmed := rows[i := Confirmed(rows[i], now)];
      confirmed[i := Retried(confirmed[i], attempts, now)] == rows[i := Retried(rows[i], attempts, now)]
  {
  }

  /** The table after the first k rows of the batch. */
  function HandledRows(rows: seq<Row>, batch: seq<nat>, tries: seq<Try>, times: seq<int>, k: nat): (r: seq<Row>)
    requires k <= |batch| && |batch| <= |tries| && |batch| <= |times|
    requires forall j | 0 <= j < |batch| :: batch[j] < |rows|
    ensures |r| == |rows|
  {
    if k == 0 then rows
    else
      var before := HandledRows(rows, batch, tries, times, k - 1);
      before[batch[k - 1] := Handled(before[batch[k - 1]], tries[k - 1], times[k - 1])]
  }

  /** Each row of the batch is handled once, with its own outcome; the others stay as they were. */
  lemma {:induction false} HandledOnce(rows: seq<Row>, batch: seq<nat>, tries: seq<Try>, times: seq<int>, k: nat)
    requires k <= |batch| && |batch| <= |tries| && |batch| <= |times|
    requires forall j | 0 <= j < |batch| :: batch[j] < |rows|
    requires Increasing(batch)
    ensures
      var r := HandledRows(rows, batch, tries, times, k);
      && (forall j | 0 <= j < k :: r[batch[j]] == Handled(rows[batch[j]], tries[j], times[j]))
      && (forall j | k <= j < |batch| :: r[batch[j]] == rows[batch[j]])
      && (forall i | 0 <= i < |rows| && i !in batch :: r[i] == rows[i])
  {
    if k > 0 {
      HandledOnce(rows, batch, tries, times, k - 1);
    }
  }

  lemma StillDraining(rows: seq<Row>, batch: seq<nat>, tries: seq<Try>, times: seq<int>, k: nat)
    requires k < |batch| && |batch| <= |tries| && |batch| <= |times|
    requires forall j | 0 <= j < |batch| :: batch[j] < |rows|
    requires Increasing(batch)
    ensures HandledRows(rows, batch, tries, times, k)[batch[k]] == rows[batch[k]]
  {
    HandledOnce(rows, batch, tries, times, k);
  }

  function IdSet(batch: seq<nat>): (ids: set<nat>)
    ensures forall i :: i in ids <==> i in batch
  {
    set i | i in batch
  }

  /** How many of the first k tries complete. */
  function Successes(tries: seq<Try>, k: nat): nat
    requires k <= |tries|
  {
    if k == 0 then 0 else Successes(tries, k - 1) + if tries[k - 1] == Completed then 1 else 0
  }

  method CountUp(processed: nat, tries: seq<Try>, k: nat) returns (processed': nat)
    requires k < |tries| && processed == Successes(tries, k)
    ensures processed' == Successes(tries, k + 1)
  {
    processed' := processed;
    if tries[k] == Completed {
      processed' := processed' + 1;
    }
  }

  /** The table after a whole drain. */
  function Drained(rows: seq<Row>, now: int, limit: nat, tries: seq<Try>, times: seq<int>): (r: seq<Row>)
    requires limit <= |tries| && limit <= |times|
    ensures |r| == |rows|
  {
    var batch := FirstEligible(rows, now, limit, 0);
    HandledRows(ClaimRows(rows, IdSet(batch), now), batch, tries, times, |batch|)
  }

  /** A drain touches the first eligible rows, each once and with its own outcome, and no other row. */
  lemma DrainedRows(rows: seq<Row>, now: int, limit: nat, tries: seq<Try>, times: seq<int>)
    requires limit <= |tries| && limit <= |times|
    ensures
      var batch, r := FirstEligible(rows, now, limit, 0), Drained(rows, now, limit, tries, times);
      && (forall k | 0 <= k < |batch| :: r[batch[k]] == Handled(Claimed(rows[batch[k]], now), tries[k], times[k]))
      && (forall i | 0 <= i < |rows| && i !in batch :: r[i] == rows[i])
  {
    var batch := FirstEligible(rows, now, limit, 0);
    HandledOnce(ClaimRows(rows, IdSet(batch), now), batch, tries, times, |batch|);
  }

  /** The rows that differ between two tables. */
  function Changed(rows: seq<Row>, rows': seq<Row>): set<nat>
    requires |rows'| == |rows|
  {
    set i: nat | i < |rows| && rows'[i] != rows[i]
  }

  /** Of two tables, before and after a drain: at most `limit` rows were taken. They were PENDING with their retry time
      reached, or DRAINING for 15 minutes, and a row like that is left alone only behind `limit` taken ones. */
  ghost predicate TakesTheDue(rows: seq<Row>, rows': seq<Row>, now: int, limit: nat)
    requires |rows'| == |rows|
  {
    var taken := Changed(rows, rows');
    && |taken| <= limit
    && forall i: nat | i < |rows| ::
         var due := || (rows[i].state == PENDING && rows[i].nextRetryAt <= now)
                    || (rows[i].state == DRAINING && rows[i].updatedAt + 900 <= now);
         if i in taken then due else due ==> |set j | j in taken && j < i| == limit
  }

  lemma {:induction false} IdSetSize(batch: seq<nat>)
    requires Increasing(batch)
    ensures |IdSet(batch)| == |batch|
  {
    if batch != [] {
      var n := |batch| - 1;
      IdSetSize(batch[..n]);
      assert IdSet(batch) == IdSet(batch[..n]) + {batch[n]};
    }
  }

  lemma HandledDiffers(r: Row, t: Try, claimed: int, ended: int)
    requires r.state != PROCESSED
    ensures Handled(Claimed(r, claimed), t, ended) != r
  {
  }

  lemma TakenIsBatch(rows: seq<Row>, now: int, limit: nat, tries: seq<Try>, times: seq<int>)
    requires limit <= |tries| && limit <= |times|
    ensures Changed(rows, Drained(rows, now, limit, tries, times)) == IdSet(FirstEligible(rows, now, limit, 0))
  {
    var batch, r := FirstEligible(rows, now, limit, 0), Drained(rows, now, limit, tries, times);
    DrainedRows(rows, now, limit, tries, times);
    forall i: nat ensures i in Changed(rows, r) <==> i in IdSet(batch) {
      if i in batch {
        var k :| 0 <= k < |batch| && batch[k] == i;
        HandledDiffers(rows[i], tries[k], now, times[k]);
      }
    }
  }

  lemma DrainTakesTheDue(rows: seq<Row>, now: int, limit: nat, tries: seq<Try>, times: seq<int>)
    requires limit <= |tries| && limit <= |times|
    ensures TakesTheDue(rows, Drained(rows, now, limit, tries, times), now, limit)
    ensures |Changed(rows, Drained(rows, now, limit, tries, times))| == |FirstEligible(rows, now, limit, 0)|
  {
    var batch := FirstEligible(rows, now, limit, 0);
    var taken := IdSet(batch);
    TakenIsBatch(rows, now, limit, tries, times);
    IdSetSize(batch);
    forall i: nat | i < |rows| && Eligible(rows[i], now) && i !in taken
      ensures |set j | j in taken && j < i| == limit
    {
      assert (set j | j in taken && j < i) == taken;
    }
  }

  /** The rows that became PROCESSED. */
  function Delivered(rows: seq<Row>, rows': seq<Row>): set<nat>
    requires |rows'| == |rows|
  {
    set i: nat | i < |rows| && rows'[i].state == PROCESSED && rows[i].state != PROCESSED
  }

  function CompletedIds(batch: seq<nat>, tries: seq<Try>, k: nat): set<nat>
    requires k <= |batch| && k <= |tries|
  {
    set j: nat | j < k && tries[j] == Completed :: batch[j]
  }

  lemma {:induction false} CompletedSize(batch: seq<nat>, tries: seq<Try>, k: nat)
    requires Increasing(batch) && k <= |batch| && k <= |tries|
    ensures |CompletedIds(batch, tries, k)| == Successes(tries, k)
  {
    if k > 0 {
      CompletedSize(batch, tries, k - 1);
      var before := CompletedIds(batch, tries, k - 1);
      assert CompletedIds(batch, tries, k) == before + if tries[k - 1] == Completed then {batch[k - 1]} else {};
      assert batch[k - 1] !in before;
    }
  }

  /** The rows whose tries complete are the rows that become PROCESSED. */
  lemma DeliveredCount(rows: seq<Row>, now: int, limit: nat, tries: seq<Try>, times: seq<int>)
    requires limit <= |tries| && limit <= |times|
    ensures Delivered(rows, Drained(rows, now, limit, tries, times))
         == CompletedIds(FirstEligible(rows, now, limit, 0), tries, |FirstEligible(rows, now, limit, 0)|)
    ensures |Delivered(rows, Drained(rows, now, limit, tries, times))|
         == Successes(tries, |FirstEligible(rows, now, limit, 0)|)
  {
    var batch, r := FirstEligible(rows, now, limit, 0), Drained(rows, now, limit, tries, times);
    DrainedRows(rows, now, limit, tries, times);
    CompletedSize(batch, tries, |batch|);
    forall i ensures i in Delivered(rows, r) <==> i in CompletedIds(batch, tries, |batch|) {
      if i in Delivered(rows, r) {
        assert i in batch;
        var k :| 0 <= k < |batch| && batch[k] == i;
      }
    }
    assert Delivered(rows, r) == CompletedIds(batch, tries, |batch|);
  }

  // ---------- retries wait for their time ----------

  /** A row that rests stays as it is until its time has come; a dead letter stays for good. */
  lemma {:induction false} Undisturbed(s: System, i: nat, run: seq<Event>)
    requires Inv(s) && LegalRun(s, run) && i < |s.rows|
    requires s.rows[i].state == DEAD_LETTER
          || (s.rows[i].state == PENDING && After(s, run).clock < s.rows[i].nextRetryAt)
    ensures i < |After(s, run).rows| && After(s, run).rows[i] == s.rows[i]
    decreases |run|
  {
    if run != [] {
      var s' := Next(s, run[0]);
      StepKeepsInv(s, run[0]);
      ClockGoesOn(s', run[1..]);
      forall t | t in s.tickets ensures t.row != i {
        assert TicketOk(s, t);
      }
      assert s'.rows[i] == s.rows[i];
      Undisturbed(s', i, run[1..]);
    }
  }

  lemma {:induction false} ClockGoesOn(s: System, run: seq<Event>)
    requires LegalRun(s, run)
    ensures s.clock <= After(s, run).clock
    decreases |run|
  {
    if run != [] {
      ClockGoesOn(Next(s, run[0]), run[1..]);
    }
  }

  /**
   * What a failure means for the rest of the run. After the tenth the row is a dead letter for good. After an earlier
   * one, the n-th, the row is left alone for 2^n seconds, and as long as it still is, a drainer without other work may
   * claim it exactly once these are over.
   */
  lemma RetryWaits(s: System, t: Ticket, run: seq<Event>, drainer: nat)
    requires Inv(s) && Legal(s, Fail(t)) && LegalRun(Next(s, Fail(t)), run)
    requires forall u | u in After(Next(s, Fail(t)), run).tickets :: u.drainer != drainer
    ensures
      var failed := Next(s, Fail(t));
      var s', n := After(failed, run), t.attempts + 1;
      && n <= 10 && failed.rows[t.row].attempts == n && t.row < |s'.rows|
      && (n == 10 ==> s'.rows[t.row] == failed.rows[t.row] && s'.rows[t.row].state == DEAD_LETTER)
      && (n < 10 && s'.clock < s.clock + Pow2(n) ==> s'.rows[t.row] == failed.rows[t.row])
      && (n < 10 && s'.rows[t.row] == failed.rows[t.row] ==>
            (Legal(s', Claim(drainer, {t.row})) <==> s'.clock >= s.clock + Pow2(n)))
  {
    var failed, n := Next(s, Fail(t)), t.attempts + 1;
    FailKeepsInv(s, t);
    assert TicketOk(s, t);
    RowsStay(failed, run);
    if n < 10 {
      BackoffBelowCap(t.attempts);
    }
    if n == 10 || After(failed, run).clock < s.clock + Pow2(n) {
      Undisturbed(failed, t.row, run);
    }
  }

  lemma {:induction false} RowsStay(s: System, run: seq<Event>)
    requires LegalRun(s, run)
    ensures |s.rows| <= |After(s, run).rows|
    decreases |run|
  {
    if run != [] {
      RowsStay(Next(s, run[0]), run[1..]);
    }
  }

  // ---------- the end of the queue ----------

  predicate NoneLive(rows: seq<Row>) {
    forall i | 0 <= i < |rows| :: !Live(rows[i])
  }

  /** Every live row may be claimed now. */
  predicate AllDue(rows: seq<Row>, now: int) {
    forall i | 0 <= i < |rows| && Live(rows[i]) :: Eligible(rows[i], now)
  }

  lemma RetriedDue(r: Row, t: Try, claimed: int, ended: int, later: int)
    requires Live(r) && r.attempts < MAX_ATTEMPTS && ended + 512 <= later
    ensures Live(Handled(Claimed(r, claimed), t, ended)) ==> Eligible(Handled(Claimed(r, claimed), t, ended), later)
  {
    if r.attempts + 1 < MAX_ATTEMPTS {
      BackoffBelowCap(r.attempts);
    }
  }

  /** A drain leaves every live row due 512 seconds after its last try. */
  lemma DrainedAllDue(rows: seq<Row>, now: int, limit: nat, tries: seq<Try>, times: seq<int>, later: int)
    requires limit <= |tries| && limit <= |times| && RetriesOk(rows) && AllDue(rows, now) && now <= later
    requires forall k | 0 <= k < limit :: times[k] + 512 <= later
    ensures AllDue(Drained(rows, now, limit, tries, times), later)
  {
    var batch, r := FirstEligible(rows, now, limit, 0), Drained(rows, now, limit, tries, times);
    DrainedRows(rows, now, limit, tries, times);
    forall i | 0 <= i < |rows| && Live(r[i]) ensures Eligible(r[i], later) {
      if i in batch {
        var k :| 0 <= k < |batch| && batch[k] == i;
        RetriedDue(rows[i], tries[k], now, times[k], later);
      }
    }
  }

  lemma {:induction false} LiveMeansWork(rows: seq<Row>)
    requires RetriesOk(rows) && !NoneLive(rows)
    ensures Work(rows) >= 1
  {
    var n := |rows| - 1;
    WorkBound(rows[..n]);
    if !Live(rows[n]) {
      var i :| 0 <= i < |rows| && Live(rows[i]);
      assert rows[..n][i] == rows[i];
      LiveMeansWork(rows[..n]);
    }
  }

  /** With a live row there is something to drain, and without one nothing changes that. */
  lemma DrainedOrDone(rows: seq<Row>, now: int, limit: nat, tries: seq<Try>, times: seq<int>)
    requires 1 <= limit <= |tries| && limit <= |times| && AllDue(rows, now)
    ensures NoneLive(rows) ==> NoneLive(Drained(rows, now, limit, tries, times))
    ensures !NoneLive(rows) ==> |FirstEligible(rows, now, limit, 0)| >= 1
  {
    DrainedRows(rows, now, limit, tries, times);
    var batch := FirstEligible(rows, now, limit, 0);
    if !NoneLive(rows) {
      var i :| 0 <= i < |rows| && Live(rows[i]);
      assert batch == [] ==> i in batch;
    }
  }

  function PathsOf(rows: seq<Row>, ids: set<nat>): set<Path> {
    set i | i in ids && i < |rows| :: rows[i].path
  }

  /** The staging directory after the first k rows of the batch. */
  function Cleared(files: map<Path, Bytes>, rows: seq<Row>, batch: seq<nat>, tries: seq<Try>, k: nat): map<Path, Bytes>
    requires k <= |batch| && k <= |tries|
  {
    files - PathsOf(rows, CompletedIds(batch, tries, k))
  }

  lemma ClearedMore(files: map<Path, Bytes>, rows: seq<Row>, batch: seq<nat>, tries: seq<Try>, k: nat)
    requires k < |batch| && k < |tries| && batch[k] < |rows|
    ensures Cleared(files, rows, batch, tries, k + 1) ==
      Cleared(files, rows, batch, tries, k) - if tries[k] == Completed then {rows[batch[k]].path} else {}
  {
    var done := CompletedIds(batch, tries, k);
    assert CompletedIds(batch, tries, k + 1) == done + if tries[k] == Completed then {batch[k]} else {};
    assert PathsOf(rows, done + {batch[k]}) == PathsOf(rows, done) + {rows[batch[k]].path};
  }

  lemma ClearedNone(files: map<Path, Bytes>, rows: seq<Row>, batch: seq<nat>, tries: seq<Try>)
    ensures Cleared(files, rows, batch, tries, 0) == files
  {
    assert PathsOf(rows, CompletedIds(batch, tries, 0)) == {};
  }

  lemma ClaimingKeepsPaths(rows: seq<Row>, chosen: set<nat>, now: int, ids: set<nat>)
    ensures PathsOf(ClaimRows(rows, chosen, now), ids) == PathsOf(rows, ids)
  {
    forall i: nat | i < |rows| ensures ClaimRows(rows, chosen, now)[i].path == rows[i].path {
    }
  }

  class TransactionalOutbox {
    var rows: seq<Row>
    var files: map<Path, Bytes>
    ghost var accepted: map<nat, Bytes>

    ghost predicate Valid()
      reads this
    {
      Durable(rows, files, accepted) && RetriesOk(rows) && DistinctPaths(rows)
    }

    constructor ()
      ensures Valid() && rows == [] && files == map[]
    {
      rows, files, accepted := [], map[], map[];
    }

    /** Stages the payload, then inserts its row; if the insert fails, the staged file is taken back. */
    method EnqueueChunk(path: Path, payload: Bytes, now: int, insertFails: bool) returns (ok: bool)
      requires Valid() && forall i | 0 <= i < |rows| :: rows[i].path != path
      modifies this
      ensures Valid() && accepted == old(accepted)
      ensures ok <==> path !in old(files) && !insertFails
      ensures rows == if ok then old(rows) + [Row(path, PENDING, 0, now, now, payload)] else old(rows)
      ensures files == if ok then old(files)[path := payload] else old(files)
    {
      if path in files {
        return false;
      }
      files := files[path := payload];
      if insertFails {
        files := files - {path};
        assert files == old(files);
        return false;
      }
      rows := rows + [NewRow(path, payload, now)];
      return true;
    }

    /** One claimed row: upload, confirm, remove the file; a failure of any of these is counted. The staged file is
        always there, so the missing-file error cannot arise. */
    method HandleRow(i: nat, attempts: nat, t: Try, now: int)
      requires Valid() && i < |rows| && rows[i].state == DRAINING && rows[i].attempts == attempts
      modifies this
      ensures Valid() && old(rows)[i].path in old(files)
      ensures rows == old(rows)[i := Handled(old(rows)[i], t, now)]
      ensures files == if t == Completed then old(files) - {old(rows)[i].path} else old(files)
      ensures t != UploadFails ==> accepted == old(accepted)[i := old(files)[old(rows)[i].path]]
      ensures Work(rows) < Work(old(rows))
    {
      HandledValid(rows, files, accepted, i, t, now);
      RetriedAfterConfirmed(rows, i, attempts, now);
      var path := rows[i].path;
      if t == UploadFails {
        rows := rows[i := Retried(rows[i], attempts, now)];
        return;
      }
      accepted := accepted[i := files[path]];
      rows := rows[i := Confirmed(rows[i], now)];
      if t == Completed {
        files := files - {path};
      } else {
        rows := rows[i := Retried(rows[i], attempts, now)];
      }
    }

    /** The claim transaction. */
    method ClaimBatch(now: int, limit: nat) returns (batch: seq<nat>)
      requires Valid()
      modifies `rows
      ensures Valid() && batch == FirstEligible(old(rows), now, limit, 0)
      ensures rows == ClaimRows(old(rows), IdSet(batch), now) && Work(rows) == Work(old(rows))
    {
      batch := FirstEligible(rows, now, limit, 0);
      ClaimedWork(rows, IdSet(batch), now);
      ClaimedValid(rows, files, accepted, IdSet(batch), now);
      rows := ClaimRows(rows, IdSet(batch), now);
    }

    /** The k-th row of the batch, with the attempts it had when the batch was fetched. */
    method HandleNext(fetched: seq<Row>, batch: seq<nat>, tries: seq<Try>, times: seq<int>, k: nat)
      requires Valid() && k < |batch| && |batch| <= |tries| && |batch| <= |times|
      requires forall j | 0 <= j < |batch| :: batch[j] < |fetched|
      requires Increasing(batch)
      requires fetched[batch[k]].state == DRAINING && rows == HandledRows(fetched, batch, tries, times, k)
      modifies this
      ensures Valid() && rows == HandledRows(fetched, batch, tries, times, k + 1) && Work(rows) < Work(old(rows))
      ensures files == old(files) - if tries[k] == Completed then {fetched[batch[k]].path} else {}
    {
      StillDraining(fetched, batch, tries, times, k);
      HandleRow(batch[k], fetched[batch[k]].attempts, tries[k], times[k]);
    }

    /** The loop over the claimed rows. `tries[k]` says how the k-th row fares, and `times[k]` when that ends. */
    method HandleBatch(batch: seq<nat>, tries: seq<Try>, times: seq<int>) returns (processed: nat)
      requires Valid() && |batch| <= |tries| && |batch| <= |times|
      requires forall j | 0 <= j < |batch| :: batch[j] < |rows| && rows[batch[j]].state == DRAINING
      requires Increasing(batch)
      modifies this
      ensures Valid() && processed == Successes(tries, |batch|)
      ensures rows == HandledRows(old(rows), batch, tries, times, |batch|)
      ensures Work(rows) + |batch| <= Work(old(rows))
      ensures files == Cleared(old(files), old(rows), batch, tries, |batch|)
    {
      var fetched := rows;
      processed := 0;
      ClearedNone(files, rows, batch, tries);
      for k := 0 to |batch|
        invariant Valid() && processed == Successes(tries, k)
        invariant rows == HandledRows(fetched, batch, tries, times, k)
        invariant Work(rows) + k <= Work(fetched)
        invariant files == Cleared(old(files), fetched, batch, tries, k)
      {
        ClearedMore(old(files), fetched, batch, tries, k);
        HandleNext(fetched, batch, tries, times, k);
        processed := CountUp(processed, tries, k);
      }
    }

    /** A whole drain: claim a batch, then handle its rows one by one. Each row handled uses up at least one attempt,
        and the staged files of exactly the rows that become PROCESSED are removed. */
    method Drain(now: int, limit: nat, tries: seq<Try>, times: seq<int>) returns (processed: nat, handled: nat)
      requires Valid() && limit <= |tries| && limit <= |times|
      modifies this
      ensures Valid() && rows == Drained(old(rows), now, limit, tries, times)
      ensures TakesTheDue(old(rows), rows, now, limit)
      ensures files == old(files) - PathsOf(old(rows), Delivered(old(rows), rows))
      ensures handled == |Changed(old(rows), rows)| && processed == |Delivered(old(rows), rows)|
      ensures Work(rows) + handled <= Work(old(rows))
    {
      DrainTakesTheDue(rows, now, limit, tries, times);
      DeliveredCount(rows, now, limit, tries, times);
      var batch := ClaimBatch(now, limit);
      ClaimingKeepsPaths(old(rows), IdSet(batch), now, CompletedIds(batch, tries, |batch|));
      processed := HandleBatch(batch, tries, times);
      handled := |batch|;
    }
  }

  /** However often the outbox is drained, at most ten tries per row are ever made. */
  method DrainRepeatedly(outbox: TransactionalOutbox, clocks: seq<int>, limit: nat,
                         tries: seq<seq<Try>>, times: seq<seq<int>>) returns (made: nat)
    requires outbox.Valid() && |tries| == |times| == |clocks|
    requires forall k | 0 <= k < |clocks| :: |tries[k]| >= limit && |times[k]| >= limit
    modifies outbox
    ensures outbox.Valid() && |outbox.rows| == |old(outbox.rows)|
    ensures made + Work(outbox.rows) <= Work(old(outbox.rows)) && made <= 10 * |outbox.rows|
  {
    made := 0;
    for k := 0 to |clocks|
      invariant outbox.Valid() && |outbox.rows| == |old(outbox.rows)|
      invariant made + Work(outbox.rows) <= Work(old(outbox.rows))
    {
      var _, handled := outbox.Drain(clocks[k], limit, tries[k], times[k]);
      made := made + handled;
    }
    WorkBound(outbox.rows);
    WorkBound(old(outbox.rows));
  }

  /** Each drain starts 512 seconds after the tries of the one before. */
  predicate SpacedOut(clocks: seq<int>, times: seq<seq<int>>, limit: nat)
    requires |times| == |clocks| && forall k | 0 <= k < |clocks| :: |times[k]| >= limit
  {
    forall k | 0 <= k < |clocks| - 1 ::
      clocks[k] <= clocks[k + 1] && forall j | 0 <= j < limit :: times[k][j] + 512 <= clocks[k + 1]
  }

  /**
   * The queue comes to an end: drains that are spaced out, the first of them once every live row is due, leave no row
   * PENDING or DRAINING after ten times as many drains as there are rows, whatever the uploads do.
   */
  method DrainToTheEnd(outbox: TransactionalOutbox, clocks: seq<int>, limit: nat,
                       tries: seq<seq<Try>>, times: seq<seq<int>>)
    requires outbox.Valid() && |tries| == |times| == |clocks| && limit >= 1
    requires forall k | 0 <= k < |clocks| :: |tries[k]| >= limit && |times[k]| >= limit
    requires |clocks| >= 10 * |outbox.rows| && SpacedOut(clocks, times, limit)
    requires clocks != [] ==> AllDue(outbox.rows, clocks[0])
    modifies outbox
    ensures outbox.Valid() && |outbox.rows| == |old(outbox.rows)| && NoneLive(outbox.rows)
  {
    WorkBound(outbox.rows);
    for k := 0 to |clocks|
      invariant outbox.Valid() && |outbox.rows| == |old(outbox.rows)|
      invariant k < |clocks| ==> AllDue(outbox.rows, clocks[k])
      invariant NoneLive(outbox.rows) || Work(outbox.rows) + k <= Work(old(outbox.rows))
    {
      DrainOneOfMany(outbox, clocks, limit, tries, times, k);
    }
    if !NoneLive(outbox.rows) {
      LiveMeansWork(outbox.rows);
    }
  }

  method DrainOneOfMany(outbox: TransactionalOutbox, clocks: seq<int>, limit: nat,
                        tries: seq<seq<Try>>, times: seq<seq<int>>, k: nat)
    requires outbox.Valid() && |tries| == |times| == |clocks| && limit >= 1 && k < |clocks|
    requires forall k | 0 <= k < |clocks| :: |tries[k]| >= limit && |times[k]| >= limit
    requires SpacedOut(clocks, times, limit) && AllDue(outbox.rows, clocks[k])
    modifies outbox
    ensures outbox.Valid() && |outbox.rows| == |old(outbox.rows)|
    ensures k + 1 < |clocks| ==> AllDue(outbox.rows, clocks[k + 1])
    ensures if NoneLive(old(outbox.rows)) then NoneLive(outbox.rows) else Work(outbox.rows) < Work(old(outbox.rows))
  {
    DrainedOrDone(outbox.rows, clocks[k], limit, tries[k], times[k]);
    if k + 1 < |clocks| {
      DrainedAllDue(outbox.rows, clocks[k], limit, tries[k], times[k], clocks[k + 1]);
    }
    var _, _ := outbox.Drain(clocks[k], limit, tries[k], times[k]);
  }
}
