/** Reading a snapshot back, block by block, with every check the format allows. */
module Restore {
  import opened Common
  import opened ChunkFormat
  import opened Backup
  import opened Snapshots
  import Sorting

  datatype Snapshot = Snapshot(id: Bytes, estado: SnapshotState, dek: Wrapped)

  datatype RestoreError =
    NotCompleted | KeyRejected | DownloadFailed | Truncated | HashMismatch | HeaderRejected | SequenceMismatch
    | SealBroken | FrameBroken

  datatype Outcome = Outcome(written: Bytes, error: Option<RestoreError>)

  /** The answer to the i-th download; None when the callback raises. Answers need not be consistent with each other. */
  type Downloads = (nat, string) -> Option<Bytes>

  class OutputStream {
    var contents: Bytes

    constructor ()
      ensures contents == []
    {
      contents := [];
    }

    method Write(data: Bytes)
      modifies this
      ensures contents == old(contents) + data
    {
      contents := contents + data;
    }
  }

  // ---------- what the reader computes ----------

  /** The compressed frame behind one row, or why it is rejected. */
  function Opened(suite: Suite, dek: Bytes, id: Bytes, row: Bloque, answer: Option<Bytes>)
    : Result<Bytes, RestoreError>
  {
    if answer.None? then Err(DownloadFailed) else
    var raw := answer.value;
    if |raw| < 26 then Err(Truncated)
    else if suite.digest(raw) != row.hash then Err(HashMismatch) else
    var header := ParseChunkHeader(raw[..26]);
    if header.Err? then Err(HeaderRejected)
    else if header.value.seqNo != row.chunkSeq then Err(SequenceMismatch) else
    var frame := suite.decrypt(dek, header.value.nonce, raw[26..], Aad(raw[..26], id));
    if frame.None? then Err(SealBroken) else Ok(frame.value)
  }

  /** The outcome over the rows from `k` on, with an unfinished frame pending; one left at the end is no error. */
  function Replay(suite: Suite, dek: Bytes, id: Bytes, rows: seq<Bloque>, answers: Downloads, k: nat, pending: Bytes)
    : Outcome
    requires k <= |rows|
    decreases |rows| - k
  {
    if k == |rows| then Outcome([], None) else
    var frame := Opened(suite, dek, id, rows[k], answers(k, rows[k].storageKey));
    if frame.Err? then Outcome([], Some(frame.error)) else
    var decoded := suite.write(pending, frame.value);
    if !decoded.ok then Outcome(decoded.output, Some(FrameBroken)) else
    var rest := Replay(suite, dek, id, rows, answers, k + 1, decoded.pending);
    Outcome(decoded.output + rest.written, rest.error)
  }

  function ChunkSeq(row: Bloque): int {
    row.chunkSeq
  }

  /** A list is sorted by sequence number first; any other iterable is consumed as it comes. */
  function InOrder(rows: seq<Bloque>, isList: bool): seq<Bloque> {
    if isList then Sorting.SortBy(rows, ChunkSeq) else rows
  }

  function Restored(suite: Suite, kek: Bytes, snapshot: Snapshot, rows: seq<Bloque>, isList: bool,
                    answers: Downloads): Outcome
  {
    if snapshot.estado != COMPLETED then Outcome([], Some(NotCompleted)) else
    var dek := Unwrap(suite, kek, snapshot.dek, snapshot.id);
    if dek.None? then Outcome([], Some(KeyRejected))
    else Replay(suite, dek.value, snapshot.id, InOrder(rows, isList), answers, 0, [])
  }

  /** Blocks are never rejected with the error of the key. */
  lemma {:induction false} ReplayNeverRejectsKey(suite: Suite, dek: Bytes, id: Bytes, rows: seq<Bloque>,
                                                 answers: Downloads, k: nat, pending: Bytes)
    requires k <= |rows|
    ensures Replay(suite, dek, id, rows, answers, k, pending).error != Some(KeyRejected)
    decreases |rows| - k
  {
    if k < |rows| {
      var frame := Opened(suite, dek, id, rows[k], answers(k, rows[k].storageKey));
      if frame.Ok? {
        ReplayNeverRejectsKey(suite, dek, id, rows, answers, k + 1, suite.write(pending, frame.value).pending);
      }
    }
  }

  lemma OpenKeyNotRejected(suite: Suite, kek: Bytes, snapshot: Snapshot, rows: seq<Bloque>, isList: bool,
                           answers: Downloads)
    requires Unwrap(suite, kek, snapshot.dek, snapshot.id).Some?
    ensures Restored(suite, kek, snapshot, rows, isList, answers).error != Some(KeyRejected)
  {
    var dek := Unwrap(suite, kek, snapshot.dek, snapshot.id).value;
    ReplayNeverRejectsKey(suite, dek, snapshot.id, InOrder(rows, isList), answers, 0, []);
  }

  // ---------- the reader ----------

  method OpenBlock(suite: Suite, dek: Bytes, id: Bytes, row: Bloque, answer: Option<Bytes>)
    returns (frame: Result<Bytes, RestoreError>)
    ensures frame == Opened(suite, dek, id, row, answer)
  {
    if answer.None? {
      return Err(DownloadFailed);
    }
    var raw := answer.value;
    if |raw| < 26 {
      return Err(Truncated);
    }
    if suite.digest(raw) != row.hash {
      return Err(HashMismatch);
    }
    var header := ParseChunkHeader(raw[..26]);
    if header.Err? {
      return Err(HeaderRejected);
    }
    if header.value.seqNo != row.chunkSeq {
      return Err(SequenceMismatch);
    }
    var plain := suite.decrypt(dek, header.value.nonce, raw[26..], Aad(raw[..26], id));
    frame := if plain.Some? then Ok(plain.value) else Err(SealBroken);
  }

  method RestoreSnapshot(suite: Suite, kek: Bytes, snapshot: Snapshot, rows: seq<Bloque>, isList: bool,
                         answers: Downloads, output: OutputStream)
    returns (error: Option<RestoreError>)
    modifies output
    ensures
      var outcome := Restored(suite, kek, snapshot, rows, isList, answers);
      output.contents == old(output.contents) + outcome.written && error == outcome.error
    ensures snapshot.estado != COMPLETED ==> error == Some(NotCompleted) && output.contents == old(output.contents)
    ensures snapshot.estado == COMPLETED && Unwrap(suite, kek, snapshot.dek, snapshot.id).None? ==>
      error == Some(KeyRejected) && output.contents == old(output.contents)
  {
    if snapshot.estado != COMPLETED {
      return Some(NotCompleted);
    }
    var dek := Unwrap(suite, kek, snapshot.dek, snapshot.id);
    if dek.None? {
      return Some(KeyRejected);
    }
    var ordered := InOrder(rows, isList);
    error := WriteBlocks(suite, dek.value, snapshot.id, ordered, answers, output);
  }

  method WriteBlocks(suite: Suite, dek: Bytes, id: Bytes, rows: seq<Bloque>, answers: Downloads, output: OutputStream)
    returns (error: Option<RestoreError>)
    modifies output
    ensures
      var outcome := Replay(suite, dek, id, rows, answers, 0, []);
      output.contents == old(output.contents) + outcome.written && error == outcome.error
  {
    ghost var outcome := Replay(suite, dek, id, rows, answers, 0, []);
    var pending: Bytes := [];
    var k := 0;
    while k < |rows|
      invariant k <= |rows|
      invariant
        var rest := Replay(suite, dek, id, rows, answers, k, pending);
        outcome.error == rest.error && output.contents + rest.written == old(output.contents) + outcome.written
    {
      var frame := OpenBlock(suite, dek, id, rows[k], answers(k, rows[k].storageKey));
      if frame.Err? {
        assert output.contents + [] == output.contents;
        return Some(frame.error);
      }
      var decoded := suite.write(pending, frame.value);
      ghost var before := output.contents;
      output.Write(decoded.output);
      if !decoded.ok {
        return Some(FrameBroken);
      }
      ghost var rest := Replay(suite, dek, id, rows, answers, k + 1, decoded.pending).written;
      assert before + (decoded.output + rest) == (before + decoded.output) + rest;
      pending := decoded.pending;
      k := k + 1;
    }
    assert output.contents + [] == output.contents;
    error := None;
  }

  // ---------- fail-safe ----------

  /** No other byte string has the digest of this payload. */
  ghost predicate Unforgeable(suite: Suite, payload: Bytes) {
    forall raw | suite.digest(raw) == suite.digest(payload) :: raw == payload
  }

  /** Why an answer is rejected that is not what was recorded. */
  function WhyRejected(answer: Option<Bytes>): RestoreError {
    match answer
    case None => DownloadFailed
    case Some(raw) => if |raw| < 26 then Truncated else HashMismatch
  }

  /** The recorded payloads of a snapshot that was written without error, none of them forgeable. */
  ghost predicate Intact(suite: Suite, dek: Bytes, id: Bytes, prefix: Bytes, chunks: seq<Bytes>) {
    && suite.Lawful() && |prefix| == 4 && AllFit(suite, chunks)
    && forall i | 0 <= i < |chunks| :: Unforgeable(suite, Payload(suite, dek, id, prefix, i, chunks[i]))
  }

  /** A recorded row accepts exactly its own payload, and reads its own chunk's frame from it. Any other answer is
      reported as a failed download, as too short, or as having the wrong digest. */
  lemma OpenedIff(suite: Suite, dek: Bytes, id: Bytes, prefix: Bytes, i: nat, chunk: Bytes, answer: Option<Bytes>)
    requires suite.Lawful() && |prefix| == 4 && Fits(suite, i, chunk)
    requires Unforgeable(suite, Payload(suite, dek, id, prefix, i, chunk))
    ensures
      var result := Opened(suite, dek, id, Row(suite, dek, id, prefix, i, chunk), answer);
      if answer == Some(Payload(suite, dek, id, prefix, i, chunk)) then result == Ok(suite.compress(chunk))
      else result == Err(WhyRejected(answer))
  {
    PayloadParts(suite, dek, id, prefix, i, chunk);
  }

  /** A row that was given the payload of another chunk is rejected by its number. */
  lemma SwappedRowRejected(suite: Suite, dek: Bytes, id: Bytes, prefix: Bytes, i: nat, chunk: Bytes, row: Bloque)
    requires |prefix| == 4 && Fits(suite, i, chunk) && row.chunkSeq != i
    requires row.hash == suite.digest(Payload(suite, dek, id, prefix, i, chunk))
    ensures Opened(suite, dek, id, row, Some(Payload(suite, dek, id, prefix, i, chunk))) == Err(SequenceMismatch)
  {
    PayloadParts(suite, dek, id, prefix, i, chunk);
  }

  /** A row taken from another snapshot, under whatever data key, is rejected if the cipher rejects what was sealed with
      another key or other associated data. */
  lemma ForeignRowRejected(suite: Suite, dek: Bytes, id: Bytes, prefix: Bytes, i: nat, chunk: Bytes, dek': Bytes,
                           id': Bytes)
    requires |prefix| == 4 && Fits(suite, i, chunk)
    requires
      var payload := Payload(suite, dek, id, prefix, i, chunk);
      suite.decrypt(dek', NonceAt(prefix, i), payload[26..], payload[..26] + id').None?
    ensures Opened(suite, dek', id', Row(suite, dek, id, prefix, i, chunk),
                   Some(Payload(suite, dek, id, prefix, i, chunk))) == Err(SealBroken)
  {
    PayloadParts(suite, dek, id, prefix, i, chunk);
  }

  /** The i-th download delivers what was recorded for the i-th chunk. */
  predicate Delivers(suite: Suite, dek: Bytes, id: Bytes, prefix: Bytes, chunks: seq<Bytes>, answers: Downloads, i: nat)
    requires i < |chunks|
  {
    var payload := Payload(suite, dek, id, prefix, i, chunks[i]);
    answers(i, Row(suite, dek, id, prefix, i, chunks[i]).storageKey) == Some(payload)
  }

  function FirstBad(good: nat -> bool, k: nat, n: nat): (r: nat)
    requires k <= n
    ensures k <= r <= n
    decreases n - k
  {
    if k == n || !good(k) then k else FirstBad(good, k + 1, n)
  }

  lemma {:induction false} FirstBadIs(good: nat -> bool, k: nat, n: nat, i: nat)
    requires k <= i < n && i <= FirstBad(good, k, n)
    ensures good(i) <==> i < FirstBad(good, k, n)
    decreases i - k
  {
    if k < i {
      FirstBadIs(good, k + 1, n, i);
    }
  }

  /** The number of downloads before the first that does not deliver what was recorded. */
  function GoodPrefix(suite: Suite, dek: Bytes, id: Bytes, prefix: Bytes, chunks: seq<Bytes>, answers: Downloads)
    : (n: nat)
    ensures n <= |chunks|
  {
    FirstBad((i: nat) => i < |chunks| && Delivers(suite, dek, id, prefix, chunks, answers, i), 0, |chunks|)
  }

  lemma GoodPrefixIs(suite: Suite, dek: Bytes, id: Bytes, prefix: Bytes, chunks: seq<Bytes>, answers: Downloads, i: nat)
    requires i < |chunks| && i <= GoodPrefix(suite, dek, id, prefix, chunks, answers)
    ensures Delivers(suite, dek, id, prefix, chunks, answers, i)
       <==> i < GoodPrefix(suite, dek, id, prefix, chunks, answers)
  {
    FirstBadIs((i: nat) => i < |chunks| && Delivers(suite, dek, id, prefix, chunks, answers, i), 0, |chunks|, i);
  }

  function OpenedAt(suite: Suite, dek: Bytes, id: Bytes, rows: seq<Bloque>, answers: Downloads, i: nat)
    : Result<Bytes, RestoreError>
    requires i < |rows|
  {
    Opened(suite, dek, id, rows[i], answers(i, rows[i].storageKey))
  }

  predicate OpensAs(suite: Suite, dek: Bytes, id: Bytes, rows: seq<Bloque>, answers: Downloads, i: nat, chunk: Bytes)
    requires i < |rows|
  {
    OpenedAt(suite, dek, id, rows, answers, i) == Ok(suite.compress(chunk))
  }

  /** From row k on, exactly the chunks before the n-th are written, and an n-th row ends it with its error. */
  predicate ReplaysTo(suite: Suite, dek: Bytes, id: Bytes, rows: seq<Bloque>, answers: Downloads, chunks: seq<Bytes>,
                      k: nat, n: nat)
    requires k <= n <= |rows| == |chunks|
  {
    var outcome := Replay(suite, dek, id, rows, answers, k, []);
    && outcome.written == Flatten(chunks[k..n])
    && if n == |rows| then outcome.error.None?
       else var opens := OpenedAt(suite, dek, id, rows, answers, n); opens.Err? && outcome.error == Some(opens.error)
  }

  lemma ReplayChunk(suite: Suite, dek: Bytes, id: Bytes, rows: seq<Bloque>, answers: Downloads, chunks: seq<Bytes>,
                    k: nat, n: nat)
    requires suite.Lawful() && k < n <= |rows| == |chunks| && OpensAs(suite, dek, id, rows, answers, k, chunks[k])
    requires ReplaysTo(suite, dek, id, rows, answers, chunks, k + 1, n)
    ensures ReplaysTo(suite, dek, id, rows, answers, chunks, k, n)
  {
    assert suite.write([], suite.compress(chunks[k])) == Decoded([], chunks[k], true);
    assert chunks[k..n] == [chunks[k]] + chunks[k + 1..n];
  }

  /** Replaying writes the chunks of the rows before the first that is rejected. */
  lemma {:induction false} ReplayUntil(suite: Suite, dek: Bytes, id: Bytes, rows: seq<Bloque>, answers: Downloads,
                                       chunks: seq<Bytes>, k: nat, n: nat)
    requires suite.Lawful() && k <= n <= |rows| == |chunks|
    requires forall i: nat | k <= i < n :: OpensAs(suite, dek, id, rows, answers, i, chunks[i])
    requires n < |rows| ==> OpenedAt(suite, dek, id, rows, answers, n).Err?
    ensures ReplaysTo(suite, dek, id, rows, answers, chunks, k, n)
    decreases n - k
  {
    if k < n {
      ReplayUntil(suite, dek, id, rows, answers, chunks, k + 1, n);
      ReplayChunk(suite, dek, id, rows, answers, chunks, k, n);
    }
  }

  lemma OpenedAtIff(suite: Suite, dek: Bytes, id: Bytes, prefix: Bytes, chunks: seq<Bytes>, answers: Downloads, i: nat)
    requires Intact(suite, dek, id, prefix, chunks) && i < |chunks|
    ensures
      var result := OpenedAt(suite, dek, id, Rows(suite, dek, id, prefix, chunks), answers, i);
      if Delivers(suite, dek, id, prefix, chunks, answers, i) then
        OpensAs(suite, dek, id, Rows(suite, dek, id, prefix, chunks), answers, i, chunks[i])
      else result == Err(WhyRejected(answers(i, Row(suite, dek, id, prefix, i, chunks[i]).storageKey)))
  {
    var row := Row(suite, dek, id, prefix, i, chunks[i]);
    OpenedIff(suite, dek, id, prefix, i, chunks[i], answers(i, row.storageKey));
  }

  /** Why the n-th download is wrong, if there is one. */
  function WhyStopped(suite: Suite, dek: Bytes, id: Bytes, prefix: Bytes, chunks: seq<Bytes>, answers: Downloads,
                      n: nat)
    : Option<RestoreError>
    requires n <= |chunks|
  {
    if n == |chunks| then None
    else Some(WhyRejected(answers(n, Row(suite, dek, id, prefix, n, chunks[n]).storageKey)))
  }

  /** Replaying recorded rows writes exactly the chunks before the first bad download, and reports what is wrong with
      it. */
  lemma ReplayFailsSafe(suite: Suite, dek: Bytes, id: Bytes, prefix: Bytes, chunks: seq<Bytes>, answers: Downloads)
    requires Intact(suite, dek, id, prefix, chunks)
    ensures
      var outcome := Replay(suite, dek, id, Rows(suite, dek, id, prefix, chunks), answers, 0, []);
      var n := GoodPrefix(suite, dek, id, prefix, chunks, answers);
      && outcome.written == Flatten(chunks[..n])
      && outcome.error == WhyStopped(suite, dek, id, prefix, chunks, answers, n)
  {
    var rows, n := Rows(suite, dek, id, prefix, chunks), GoodPrefix(suite, dek, id, prefix, chunks, answers);
    forall i: nat | i <= n && i < |chunks|
      ensures if i < n then OpensAs(suite, dek, id, rows, answers, i, chunks[i])
              else OpenedAt(suite, dek, id, rows, answers, i)
                   == Err(WhyRejected(answers(i, Row(suite, dek, id, prefix, i, chunks[i]).storageKey)))
    {
      OpenedAtIff(suite, dek, id, prefix, chunks, answers, i);
      GoodPrefixIs(suite, dek, id, prefix, chunks, answers, i);
    }
    ReplayUntil(suite, dek, id, rows, answers, chunks, 0, n);
    assert chunks[0..n] == chunks[..n];
  }

  ghost predicate Ascending(rows: seq<Bloque>) {
    forall i, j | 0 <= i < j < |rows| :: rows[i].chunkSeq < rows[j].chunkSeq
  }

  lemma {:induction false} AscendingSorted(rows: seq<Bloque>, k: nat)
    requires Ascending(rows) && k <= |rows|
    ensures Sorting.SortedBy(rows[k..], ChunkSeq)
    decreases |rows| - k
  {
    if k < |rows| {
      AscendingSorted(rows, k + 1);
      assert rows[k..][1..] == rows[k + 1..];
    }
  }

  /** Sorting undoes any rearrangement of ascending rows. */
  lemma AnyOrderIsSorted(recorded: seq<Bloque>, rows: seq<Bloque>)
    requires Ascending(recorded) && multiset(rows) == multiset(recorded)
    ensures InOrder(rows, true) == recorded
  {
    Sorting.SortBySorts(rows, ChunkSeq);
    AscendingSorted(recorded, 0);
    assert recorded[0..] == recorded;
    assert Sorting.DistinctKeys(recorded, ChunkSeq);
    Sorting.SortedUnique(Sorting.SortBy(rows, ChunkSeq), recorded, ChunkSeq);
  }

  /** These rows, in any order as a list or in order as a stream. */
  ghost predicate Presents(rows: seq<Bloque>, isList: bool, recorded: seq<Bloque>) {
    if isList then multiset(rows) == multiset(recorded) else rows == recorded
  }

  lemma PresentedInOrder(rows: seq<Bloque>, isList: bool, recorded: seq<Bloque>)
    requires Ascending(recorded) && Presents(rows, isList, recorded)
    ensures InOrder(rows, isList) == recorded
  {
    if isList {
      AnyOrderIsSorted(recorded, rows);
    }
  }

  /**
   * Whatever is downloaded, restoring intact rows writes the chunks before the first download that differs from what
   * was recorded, and nothing else; it succeeds exactly when there is no such download, and otherwise reports it as
   * failed, as too short, or as having the wrong digest.
   */
  lemma FailSafe(suite: Suite, kek: Bytes, snapshot: Snapshot, dek: Bytes, prefix: Bytes, chunks: seq<Bytes>,
                 rows: seq<Bloque>, isList: bool, answers: Downloads)
    requires snapshot.estado == COMPLETED && Unwrap(suite, kek, snapshot.dek, snapshot.id) == Some(dek)
    requires Intact(suite, dek, snapshot.id, prefix, chunks)
    requires Presents(rows, isList, Rows(suite, dek, snapshot.id, prefix, chunks))
    ensures
      var outcome := Restored(suite, kek, snapshot, rows, isList, answers);
      var n := GoodPrefix(suite, dek, snapshot.id, prefix, chunks, answers);
      && outcome.written == Flatten(chunks[..n])
      && outcome.error == WhyStopped(suite, dek, snapshot.id, prefix, chunks, answers, n)
  {
    PresentedInOrder(rows, isList, Rows(suite, dek, snapshot.id, prefix, chunks));
    ReplayFailsSafe(suite, dek, snapshot.id, prefix, chunks, answers);
  }

  /** The bucket answers every download of a recorded row from its objects. */
  ghost predicate Serves(answers: Downloads, objects: map<string, Bytes>) {
    forall i: nat, key | key in objects :: answers(i, key) == Some(objects[key])
  }

  lemma ServedAt(suite: Suite, dek: Bytes, id: Bytes, prefix: Bytes, chunks: seq<Bytes>,
                 objects: map<string, Bytes>, answers: Downloads, i: nat)
    requires i < |chunks| && Unforgeable(suite, Payload(suite, dek, id, prefix, i, chunks[i]))
    requires Holds(suite, objects, Rows(suite, dek, id, prefix, chunks)) && Serves(answers, objects)
    ensures Delivers(suite, dek, id, prefix, chunks, answers, i)
  {
    var row := Rows(suite, dek, id, prefix, chunks)[i];
    assert suite.digest(objects[row.storageKey]) == row.hash;
  }

  /** A bucket that holds the recorded rows delivers every payload. */
  lemma ServedInFull(suite: Suite, dek: Bytes, id: Bytes, prefix: Bytes, chunks: seq<Bytes>,
                     objects: map<string, Bytes>, answers: Downloads)
    requires Intact(suite, dek, id, prefix, chunks)
    requires Holds(suite, objects, Rows(suite, dek, id, prefix, chunks)) && Serves(answers, objects)
    ensures GoodPrefix(suite, dek, id, prefix, chunks, answers) == |chunks|
  {
    var n := GoodPrefix(suite, dek, id, prefix, chunks, answers);
    if n < |chunks| {
      GoodPrefixIs(suite, dek, id, prefix, chunks, answers, n);
      ServedAt(suite, dek, id, prefix, chunks, objects, answers, n);
    }
  }

  /** Restoring what was backed up, from a bucket that still holds it, yields the chunks in order. */
  lemma RoundTrip(suite: Suite, kek: Bytes, snapshot: Snapshot, dek: Bytes, prefix: Bytes, chunks: seq<Bytes>,
                  rows: seq<Bloque>, isList: bool, objects: map<string, Bytes>, answers: Downloads)
    requires snapshot.estado == COMPLETED && Unwrap(suite, kek, snapshot.dek, snapshot.id) == Some(dek)
    requires Intact(suite, dek, snapshot.id, prefix, chunks)
    requires Presents(rows, isList, Rows(suite, dek, snapshot.id, prefix, chunks))
    requires Holds(suite, objects, Rows(suite, dek, snapshot.id, prefix, chunks)) && Serves(answers, objects)
    ensures Restored(suite, kek, snapshot, rows, isList, answers) == Outcome(Flatten(chunks), None)
  {
    FailSafe(suite, kek, snapshot, dek, prefix, chunks, rows, isList, answers);
    ServedInFull(suite, dek, snapshot.id, prefix, chunks, objects, answers);
    assert chunks[..|chunks|] == chunks;
  }

  // ---------- missing rows ----------

  ghost predicate Increasing(picks: seq<nat>, n: nat) {
    && (forall i | 0 <= i < |picks| :: picks[i] < n)
    && (forall i, j | 0 <= i < j < |picks| :: picks[i] < picks[j])
  }

  function At<T>(s: seq<T>, picks: seq<nat>): (r: seq<T>)
    requires forall i | 0 <= i < |picks| :: picks[i] < |s|
    ensures |r| == |picks| && forall i | 0 <= i < |picks| :: r[i] == s[picks[i]]
  {
    seq(|picks|, i requires 0 <= i < |picks| => s[picks[i]])
  }

  lemma PickedOpens(suite: Suite, dek: Bytes, id: Bytes, prefix: Bytes, chunks: seq<Bytes>, picks: seq<nat>,
                    objects: map<string, Bytes>, answers: Downloads, i: nat)
    requires Intact(suite, dek, id, prefix, chunks) && i < |picks| && forall k | 0 <= k < |picks| :: picks[k] < |chunks|
    requires Holds(suite, objects, At(Rows(suite, dek, id, prefix, chunks), picks)) && Serves(answers, objects)
    ensures
      var rows := At(Rows(suite, dek, id, prefix, chunks), picks);
      OpensAs(suite, dek, id, rows, answers, i, At(chunks, picks)[i])
  {
    var row, k := At(Rows(suite, dek, id, prefix, chunks), picks)[i], picks[i];
    assert row == Row(suite, dek, id, prefix, k, chunks[k]);
    assert suite.digest(objects[row.storageKey]) == row.hash;
    assert Unforgeable(suite, Payload(suite, dek, id, prefix, k, chunks[k]));
    OpenedIff(suite, dek, id, prefix, k, chunks[k], answers(i, row.storageKey));
  }

  /**
   * A stream is taken as it comes: recorded rows in whatever order, left out or repeated, restore without an error to
   * their chunks in that order. Only a list is sorted.
   */
  lemma StreamIsTakenAsItComes(suite: Suite, kek: Bytes, snapshot: Snapshot, dek: Bytes, prefix: Bytes,
                               chunks: seq<Bytes>, picks: seq<nat>, objects: map<string, Bytes>, answers: Downloads)
    requires snapshot.estado == COMPLETED && Unwrap(suite, kek, snapshot.dek, snapshot.id) == Some(dek)
    requires Intact(suite, dek, snapshot.id, prefix, chunks) && forall i | 0 <= i < |picks| :: picks[i] < |chunks|
    requires Holds(suite, objects, At(Rows(suite, dek, snapshot.id, prefix, chunks), picks)) && Serves(answers, objects)
    ensures Restored(suite, kek, snapshot, At(Rows(suite, dek, snapshot.id, prefix, chunks), picks), false, answers)
         == Outcome(Flatten(At(chunks, picks)), None)
  {
    var rows, n := At(Rows(suite, dek, snapshot.id, prefix, chunks), picks), |picks|;
    forall i: nat | i < n ensures OpensAs(suite, dek, snapshot.id, rows, answers, i, At(chunks, picks)[i]) {
      PickedOpens(suite, dek, snapshot.id, prefix, chunks, picks, objects, answers, i);
    }
    ReplayUntil(suite, dek, snapshot.id, rows, answers, At(chunks, picks), 0, n);
    assert At(chunks, picks)[0..n] == At(chunks, picks);
  }

  /**
   * Rows missing anywhere go unnoticed: whichever of the recorded rows are left, restoring succeeds and writes the
   * chunks of exactly these.
   */
  lemma MissingRowsGoUnnoticed(suite: Suite, kek: Bytes, snapshot: Snapshot, dek: Bytes, prefix: Bytes,
                               chunks: seq<Bytes>, picks: seq<nat>, rows: seq<Bloque>, isList: bool,
                               objects: map<string, Bytes>, answers: Downloads)
    requires snapshot.estado == COMPLETED && Unwrap(suite, kek, snapshot.dek, snapshot.id) == Some(dek)
    requires Intact(suite, dek, snapshot.id, prefix, chunks) && Increasing(picks, |chunks|)
    requires Presents(rows, isList, At(Rows(suite, dek, snapshot.id, prefix, chunks), picks))
    requires Holds(suite, objects, At(Rows(suite, dek, snapshot.id, prefix, chunks), picks)) && Serves(answers, objects)
    ensures Restored(suite, kek, snapshot, rows, isList, answers) == Outcome(Flatten(At(chunks, picks)), None)
  {
    PresentedInOrder(rows, isList, At(Rows(suite, dek, snapshot.id, prefix, chunks), picks));
    StreamIsTakenAsItComes(suite, kek, snapshot, dek, prefix, chunks, picks, objects, answers);
  }

  ghost predicate NoneEmpty(chunks: seq<Bytes>) {
    forall i | 0 <= i < |chunks| :: chunks[i] != []
  }

  lemma FlattenLast(chunks: seq<Bytes>, n: nat)
    requires |chunks| == n + 1
    ensures |Flatten(chunks)| == |Flatten(chunks[..n])| + |chunks[n]|
  {
    assert chunks == chunks[..n] + [chunks[n]];
    FlattenSnoc(chunks[..n], chunks[n]);
  }

  lemma LastPicked<T>(s: seq<T>, picks: seq<nat>, n: nat, m: nat)
    requires |s| == n + 1 && |picks| == m + 1 && Increasing(picks, n + 1) && picks[m] == n
    ensures Increasing(picks[..m], n) && At(s, picks) == At(s[..n], picks[..m]) + [s[n]]
  {
  }

  lemma LastNotPicked<T>(s: seq<T>, picks: seq<nat>, n: nat)
    requires |s| == n + 1 && Increasing(picks, n + 1) && (picks != [] ==> picks[|picks| - 1] != n)
    ensures Increasing(picks, n) && At(s, picks) == At(s[..n], picks)
  {
    forall i | 0 <= i < |picks| ensures picks[i] < n {
      assert picks[i] <= picks[|picks| - 1] < n;
    }
  }

  /** Leaving out a non-empty chunk makes the concatenation shorter. */
  lemma {:induction false} FewerIsShorter(chunks: seq<Bytes>, picks: seq<nat>)
    requires NoneEmpty(chunks) && Increasing(picks, |chunks|)
    ensures |picks| <= |chunks| && |Flatten(At(chunks, picks))| <= |Flatten(chunks)|
    ensures |picks| < |chunks| ==> |Flatten(At(chunks, picks))| < |Flatten(chunks)|
    decreases |chunks|
  {
    if chunks == [] {
      assert picks == [];
    } else {
      var n := |chunks| - 1;
      FlattenLast(chunks, n);
      if picks != [] && picks[|picks| - 1] == n {
        var m := |picks| - 1;
        LastPicked(chunks, picks, n, m);
        FewerIsShorter(chunks[..n], picks[..m]);
        FlattenSnoc(At(chunks[..n], picks[..m]), chunks[n]);
      } else {
        LastNotPicked(chunks, picks, n);
        FewerIsShorter(chunks[..n], picks);
      }
    }
  }

  lemma {:induction false} AllPicked(picks: seq<nat>, n: nat)
    requires Increasing(picks, n) && |picks| == n
    ensures forall i | 0 <= i < n :: picks[i] == i
  {
    if n > 0 {
      var rest := picks[..n - 1];
      forall i | 0 <= i < n - 1 ensures rest[i] < n - 1 {
        assert picks[i] < picks[n - 1];
      }
      AllPicked(rest, n - 1);
      if n > 1 {
        assert picks[n - 2] == rest[n - 2] == n - 2;
      }
    }
  }

  lemma SameIffAllPicked(chunks: seq<Bytes>, picks: seq<nat>)
    requires NoneEmpty(chunks) && Increasing(picks, |chunks|)
    ensures Flatten(At(chunks, picks)) == Flatten(chunks) <==> |picks| == |chunks|
  {
    FewerIsShorter(chunks, picks);
    if |picks| == |chunks| {
      AllPicked(picks, |chunks|);
      assert At(chunks, picks) == chunks;
    }
  }

  /** Restoring what is left of the rows yields the source exactly when none is missing. */
  lemma RestoresSourceIff(suite: Suite, kek: Bytes, snapshot: Snapshot, dek: Bytes, prefix: Bytes,
                          chunks: seq<Bytes>, picks: seq<nat>, rows: seq<Bloque>, isList: bool,
                          objects: map<string, Bytes>, answers: Downloads)
    requires snapshot.estado == COMPLETED && Unwrap(suite, kek, snapshot.dek, snapshot.id) == Some(dek)
    requires Intact(suite, dek, snapshot.id, prefix, chunks) && NoneEmpty(chunks) && Increasing(picks, |chunks|)
    requires Presents(rows, isList, At(Rows(suite, dek, snapshot.id, prefix, chunks), picks))
    requires Holds(suite, objects, At(Rows(suite, dek, snapshot.id, prefix, chunks), picks)) && Serves(answers, objects)
    ensures
      var outcome := Restored(suite, kek, snapshot, rows, isList, answers);
      outcome.error.None? && (outcome.written == Flatten(chunks) <==> |picks| == |chunks|)
  {
    MissingRowsGoUnnoticed(suite, kek, snapshot, dek, prefix, chunks, picks, rows, isList, objects, answers);
    SameIffAllPicked(chunks, picks);
  }
}
