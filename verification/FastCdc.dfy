/** Content-defined chunking: the Gear rolling hash, the resumable boundary scan and the streamer. */
module FastCdc {
  import opened Common

  const WORD: nat := 0x1_0000_0000_0000_0000

  /** The sizes, the widths of the two masks (a mask is 2^width - 1) and the 256-entry Gear table. */
  datatype Params = Params(min: nat, avg: nat, max: nat, strictBits: nat, laxBits: nat, gear: seq<nat>) {
    ghost predicate Valid() {
      min < avg < max && 1 <= strictBits <= 64 && 1 <= laxBits <= 64 && |gear| == 256
    }
  }

  /** The deployed sizes and masks, for whatever table the seed hash produces. */
  function Deployed(gear: seq<nat>): (p: Params)
    requires |gear| == 256
    ensures p.Valid()
  {
    Params(0x10_0000, 0x20_0000, 0x40_0000, 22, 20, gear)
  }

  // ---------- the rolling hash ----------

  /** One Gear step on a 64-bit word: shift left, add the table entry, drop the overflow. */
  function Shift(p: Params, fp: nat, b: Byte): nat
    requires p.Valid()
  {
    (2 * fp + p.gear[b]) % WORD
  }

  /** The fingerprint after rolling fp over d[lo..hi]. */
  function Roll(p: Params, d: Bytes, lo: nat, fp: nat, hi: nat): nat
    requires p.Valid() && hi <= |d|
    decreases hi
  {
    if hi <= lo then fp else Shift(p, Roll(p, d, lo, fp, hi - 1), d[hi - 1])
  }

  /** Rolling may be suspended anywhere and resumed from the stored fingerprint. */
  lemma {:induction false} RollResume(p: Params, d: Bytes, lo: nat, fp: nat, mid: nat, hi: nat)
    requires p.Valid() && lo <= mid <= hi <= |d|
    ensures Roll(p, d, mid, Roll(p, d, lo, fp, mid), hi) == Roll(p, d, lo, fp, hi)
    decreases hi
  {
    if mid < hi {
      RollResume(p, d, lo, fp, mid, hi - 1);
    }
  }

  lemma SliceOfSlice<T>(s: seq<T>, lo: nat, n: nat, k: nat)
    requires k <= n && lo + n <= |s|
    ensures s[lo..lo + n][..k] == s[lo..lo + k]
  {
  }

  /** The hash of a stretch of bytes does not depend on where the stretch lies. */
  lemma {:induction false} RollMoves(p: Params, d: Bytes, lo: nat, e: Bytes, lo': nat, fp: nat, n: nat)
    requires p.Valid() && lo + n <= |d| && lo' + n <= |e|
    requires d[lo..lo + n] == e[lo'..lo' + n]
    ensures Roll(p, d, lo, fp, lo + n) == Roll(p, e, lo', fp, lo' + n)
    decreases n
  {
    if n > 0 {
      SliceOfSlice(d, lo, n, n - 1);
      SliceOfSlice(e, lo', n, n - 1);
      assert d[lo..lo + n][n - 1] == e[lo'..lo' + n][n - 1];
      RollMoves(p, d, lo, e, lo', fp, n - 1);
    }
  }

  // ---------- where a chunk ends ----------

  /** `fp & (2^k - 1) == 0`, bit by bit. */
  predicate LowBitsZero(fp: nat, k: nat) {
    k == 0 || (fp % 2 == 0 && LowBitsZero(fp / 2, k - 1))
  }

  function MaskBits(p: Params, i: nat): nat {
    if i < p.avg then p.strictBits else p.laxBits
  }

  /** The mask test at offset i: strict below the average size, lax from there on. */
  predicate CutTest(p: Params, i: nat, fp: nat) {
    LowBitsZero(fp, MaskBits(p, i))
  }

  /** Offset i passes the mask test when fp is rolled over d[lo] to d[i]. */
  predicate CutFrom(p: Params, d: Bytes, lo: nat, fp: nat, i: nat)
    requires p.Valid() && lo <= i < |d|
  {
    CutTest(p, i, Roll(p, d, lo, fp, i + 1))
  }

  /** Offset i of the chunk that starts at d[0] is a content-defined cut. */
  predicate IsCut(p: Params, d: Bytes, i: nat)
    requires p.Valid() && p.min <= i < |d|
  {
    CutFrom(p, d, p.min, 0, i)
  }

  predicate NoCut(p: Params, d: Bytes, to: nat)
    requires p.Valid() && to <= |d|
  {
    forall i: nat | p.min <= i < to :: !IsCut(p, d, i)
  }

  /** A chunk end that no later byte can move. */
  predicate HardEnd(p: Params, d: Bytes, n: nat)
    requires p.Valid()
  {
    p.min < n <= |d| && n <= p.max && NoCut(p, d, n - 1) && (n == p.max || IsCut(p, d, n - 1))
  }

  /** The end of the first chunk of a complete stream d: the first cut, the cap, or the end of the data. */
  predicate ChunkEnd(p: Params, d: Bytes, n: nat)
    requires p.Valid()
  {
    HardEnd(p, d, n) || (0 < n == |d| < p.max && NoCut(p, d, |d|))
  }

  lemma ChunkEndUnique(p: Params, d: Bytes, m: nat, n: nat)
    requires p.Valid() && ChunkEnd(p, d, m) && ChunkEnd(p, d, n)
    ensures m == n
  {
    // the smaller end is a hard one, so its last offset is a cut that the larger end excludes
  }

  lemma IsCutExtends(p: Params, d: Bytes, t: Bytes, i: nat)
    requires p.Valid() && p.min <= i < |d|
    ensures IsCut(p, d + t, i) == IsCut(p, d, i)
  {
    assert (d + t)[p.min..i + 1] == d[p.min..i + 1];
    RollMoves(p, d + t, p.min, d, p.min, 0, i + 1 - p.min);
  }

  lemma HardEndExtends(p: Params, d: Bytes, t: Bytes, n: nat)
    requires p.Valid() && HardEnd(p, d, n)
    ensures HardEnd(p, d + t, n)
  {
    forall i: nat | p.min <= i < n ensures IsCut(p, d + t, i) == IsCut(p, d, i) {
      IsCutExtends(p, d, t, i);
    }
  }

  // ---------- the one-shot chunker ----------

  function FirstEnd(p: Params, d: Bytes, i: nat): (n: nat)
    requires p.Valid() && d != [] && p.min <= i <= |d| && i <= p.max && NoCut(p, d, i)
    ensures ChunkEnd(p, d, n)
    decreases |d| - i
  {
    if i == p.max || i == |d| then i
    else if IsCut(p, d, i) then i + 1
    else FirstEnd(p, d, i + 1)
  }

  /** The chunks of a whole byte string, computed in one go. */
  function Chunks(p: Params, d: Bytes): seq<Bytes>
    requires p.Valid()
    decreases |d|
  {
    if d == [] then []
    else
      var n := if |d| < p.min then |d| else FirstEnd(p, d, p.min);
      assert ChunkEnd(p, d, n);
      [d[..n]] + Chunks(p, d[n..])
  }

  lemma ChunksFirst(p: Params, d: Bytes, n: nat)
    requires p.Valid() && ChunkEnd(p, d, n)
    ensures n <= |d| && Chunks(p, d) == [d[..n]] + Chunks(p, d[n..])
  {
    var m := if |d| < p.min then |d| else FirstEnd(p, d, p.min);
    ChunkEndUnique(p, d, m, n);
  }

  lemma {:induction false} ChunksPartition(p: Params, d: Bytes)
    requires p.Valid()
    ensures Flatten(Chunks(p, d)) == d
    decreases |d|
  {
    if d != [] {
      var n := if |d| < p.min then |d| else FirstEnd(p, d, p.min);
      ChunksFirst(p, d, n);
      ChunksPartition(p, d[n..]);
      assert d[..n] + d[n..] == d;
    }
  }

  /** Every chunk but the last has size in (min, max], and the last one in [1, max]. */
  ghost predicate SizesOk(p: Params, chunks: seq<Bytes>) {
    chunks == [] || (
      && 1 <= |chunks[0]| <= p.max
      && (|chunks| > 1 ==> p.min < |chunks[0]|)
      && SizesOk(p, chunks[1..]))
  }

  lemma {:induction false} ChunksSizes(p: Params, d: Bytes)
    requires p.Valid()
    ensures SizesOk(p, Chunks(p, d)) && (d == [] <==> Chunks(p, d) == [])
    decreases |d|
  {
    if d != [] {
      var n := if |d| < p.min then |d| else FirstEnd(p, d, p.min);
      ChunksFirst(p, d, n);
      ChunksSizes(p, d[n..]);
      assert Chunks(p, d)[1..] == Chunks(p, d[n..]);
      if !HardEnd(p, d, n) {
        assert d[n..] == [];
      }
    }
  }

  // ---------- settled chunks: what a streamer has emitted so far ----------

  /** Cutting s yields exactly `chunks`, each at an end no later byte can move, and leaves `rest`. */
  ghost predicate Emits(p: Params, s: Bytes, chunks: seq<Bytes>, rest: Bytes)
    requires p.Valid()
    decreases |chunks|
  {
    if chunks == [] then s == rest
    else
      var n := |chunks[0]|;
      HardEnd(p, s, n) && chunks[0] == s[..n] && Emits(p, s[n..], chunks[1..], rest)
  }

  lemma {:induction false} EmitsMore(p: Params, s: Bytes, chunks: seq<Bytes>, rest: Bytes, n: nat)
    requires p.Valid() && Emits(p, s, chunks, rest) && HardEnd(p, rest, n)
    ensures Emits(p, s, chunks + [rest[..n]], rest[n..])
    decreases |chunks|
  {
    var all := chunks + [rest[..n]];
    if chunks == [] {
      assert all[1..] == [];
    } else {
      assert all[1..] == chunks[1..] + [rest[..n]];
      EmitsMore(p, s[|chunks[0]|..], chunks[1..], rest, n);
    }
  }

  lemma {:induction false} EmitsExtends(p: Params, s: Bytes, chunks: seq<Bytes>, rest: Bytes, t: Bytes)
    requires p.Valid() && Emits(p, s, chunks, rest)
    ensures Emits(p, s + t, chunks, rest + t)
    decreases |chunks|
  {
    if chunks != [] {
      var n := |chunks[0]|;
      HardEndExtends(p, s, t, n);
      assert (s + t)[..n] == s[..n] && (s + t)[n..] == s[n..] + t;
      EmitsExtends(p, s[n..], chunks[1..], rest, t);
    }
  }

  lemma HeadThenTail<T>(a: seq<T>, b: seq<T>)
    requires a != []
    ensures [a[0]] + (a[1..] + b) == a + b
  {
  }

  /** Emitted chunks are the first chunks of the one-shot chunker, whatever bytes follow. */
  lemma {:induction false} EmitsPrefix(p: Params, s: Bytes, chunks: seq<Bytes>, rest: Bytes)
    requires p.Valid() && Emits(p, s, chunks, rest)
    ensures Chunks(p, s) == chunks + Chunks(p, rest)
    decreases |chunks|
  {
    if chunks != [] {
      var n := |chunks[0]|;
      ChunksFirst(p, s, n);
      EmitsPrefix(p, s[n..], chunks[1..], rest);
      HeadThenTail(chunks, Chunks(p, rest));
    }
  }

  /** What is true of the bytes fed so far and the chunks emitted: either they are settled, or the stream is over. */
  ghost predicate Delivered(p: Params, s: Bytes, chunks: seq<Bytes>, rest: Bytes, eof: bool)
    requires p.Valid()
  {
    Emits(p, s, chunks, rest) || (eof && rest == [] && Chunks(p, s) == chunks)
  }

  lemma DeliverChunk(p: Params, s: Bytes, chunks: seq<Bytes>, buf: Bytes, n: nat, eof: bool)
    requires p.Valid() && buf != [] && Delivered(p, s, chunks, buf, eof)
    requires ChunkEnd(p, buf, n) && (!eof ==> HardEnd(p, buf, n))
    ensures n <= |buf| && Delivered(p, s, chunks + [buf[..n]], buf[n..], eof)
  {
    if HardEnd(p, buf, n) {
      EmitsMore(p, s, chunks, buf, n);
    } else {
      EmitsPrefix(p, s, chunks, buf);
      ChunksFirst(p, buf, n);
    }
  }

  lemma DeliveredAll(p: Params, s: Bytes, chunks: seq<Bytes>)
    requires p.Valid() && Delivered(p, s, chunks, [], true)
    ensures Chunks(p, s) == chunks
  {
    if Emits(p, s, chunks, []) {
      EmitsPrefix(p, s, chunks, []);
    }
  }

  // ---------- where the chunks end, in terms of the bytes ----------

  /** The table entries of d[lo..hi], each weighted by how often the hash is shifted after it. */
  function GearSum(p: Params, d: Bytes, lo: nat, hi: nat): nat
    requires p.Valid() && hi <= |d|
    decreases hi - lo
  {
    if hi <= lo then 0 else p.gear[d[lo]] * Pow2(hi - 1 - lo) + GearSum(p, d, lo + 1, hi)
  }

  lemma Doubled(a: nat, q: int)
    ensures (2 * a) * q == 2 * (a * q)
  {
  }

  lemma WeightDoubles(entry: nat, k: nat)
    ensures entry * Pow2(k + 1) == 2 * (entry * Pow2(k))
  {
    var w := Pow2(k);
    assert Pow2(k + 1) == 2 * w;
  }

  lemma {:induction false} GearSumSnoc(p: Params, d: Bytes, lo: nat, hi: nat)
    requires p.Valid() && lo <= hi < |d|
    ensures GearSum(p, d, lo, hi + 1) == 2 * GearSum(p, d, lo, hi) + p.gear[d[hi]]
    decreases hi - lo
  {
    if lo < hi {
      GearSumSnoc(p, d, lo + 1, hi);
      WeightDoubles(p.gear[d[lo]], hi - 1 - lo);
    } else {
      assert GearSum(p, d, lo + 1, hi + 1) == 0 && Pow2(0) == 1;
    }
  }

  /** Adding a multiple of m does not change the remainder. */
  lemma SameRemainder(a: nat, b: nat, m: nat, q: int)
    requires m >= 1 && a == b + m * q
    ensures a % m == b % m
  {
    var u, v := a / m, b / m;
    var t := v + q - u;
    assert m * t == m * v + m * q - m * u;
    assert a % m - b % m == m * t;
    SmallMultiple(m, t);
  }

  lemma ShiftTruncated(x: nat, entry: nat)
    ensures (2 * (x % WORD) + entry) % WORD == (2 * x + entry) % WORD
  {
    var u := x / WORD;
    assert x == WORD * u + x % WORD;
    SameRemainder(2 * x + entry, 2 * (x % WORD) + entry, WORD, 2 * u);
  }

  /** The rolling hash is that sum, cut to a word. */
  lemma {:induction false} RollIsSum(p: Params, d: Bytes, lo: nat, hi: nat)
    requires p.Valid() && lo <= hi <= |d|
    ensures Roll(p, d, lo, 0, hi) == GearSum(p, d, lo, hi) % WORD
    decreases hi
  {
    if lo < hi {
      RollIsSum(p, d, lo, hi - 1);
      GearSumSnoc(p, d, lo, hi - 1);
      ShiftTruncated(GearSum(p, d, lo, hi - 1), p.gear[d[hi - 1]]);
    }
  }

  lemma Pow2At64()
    ensures Pow2(64) == WORD
  {
    assert Pow2(4) == 16;
    Pow2Sum(4, 4);
    assert Pow2(8) == 0x100;
    Pow2Sum(8, 8);
    assert Pow2(16) == 0x1_0000;
    Pow2Sum(16, 16);
    assert Pow2(32) == 0x1_0000_0000;
    Pow2Sum(32, 32);
  }

  lemma HalvesIff(fp: nat, m: nat)
    requires m >= 1
    ensures fp % (2 * m) == 0 <==> fp % 2 == 0 && (fp / 2) % m == 0
  {
    if fp % (2 * m) == 0 {
      var q := fp / (2 * m);
      Doubled(m, q);
      SameRemainder(fp / 2, 0, m, q);
    } else if fp % 2 == 0 && (fp / 2) % m == 0 {
      var q := fp / 2 / m;
      Doubled(m, q);
      SameRemainder(fp, 0, 2 * m, q);
    }
  }

  lemma {:induction false} LowBitsZeroIff(fp: nat, k: nat)
    ensures LowBitsZero(fp, k) <==> fp % Pow2(k) == 0
  {
    if k > 0 {
      LowBitsZeroIff(fp / 2, k - 1);
      HalvesIff(fp, Pow2(k - 1));
    }
  }

  lemma RemainderOfRemainder(x: nat, m: nat, w: nat, n: nat)
    requires m >= 1 && n >= 1 && n == m * w
    ensures (x % n) % m == x % m
  {
    var u := x / n;
    Regrouped(m, w, u);
    SameRemainder(x, x % n, m, w * u);
  }

  lemma SumLowBits(p: Params, d: Bytes, lo: nat, i: nat, k: nat)
    requires p.Valid() && lo <= i < |d| && k <= 64
    ensures LowBitsZero(Roll(p, d, lo, 0, i + 1), k) <==> GearSum(p, d, lo, i + 1) % Pow2(k) == 0
  {
    RollIsSum(p, d, lo, i + 1);
    LowBitsZeroIff(Roll(p, d, lo, 0, i + 1), k);
    Pow2At64();
    Pow2Sum(k, 64 - k);
    RemainderOfRemainder(GearSum(p, d, lo, i + 1), Pow2(k), Pow2(64 - k), WORD);
  }

  /** Which offsets are cuts: those where the sum from the minimum on is a multiple of 2^strict below the average
      size, and of 2^lax from there on. */
  lemma CutIff(p: Params, d: Bytes, i: nat)
    requires p.Valid() && p.min <= i < |d|
    ensures i < p.avg ==> (IsCut(p, d, i) <==> GearSum(p, d, p.min, i + 1) % Pow2(p.strictBits) == 0)
    ensures i >= p.avg ==> (IsCut(p, d, i) <==> GearSum(p, d, p.min, i + 1) % Pow2(p.laxBits) == 0)
  {
    SumLowBits(p, d, p.min, i, p.strictBits);
    SumLowBits(p, d, p.min, i, p.laxBits);
  }

  lemma DeployedMasks()
    ensures Pow2(20) == 1_048_576 && Pow2(22) == 4_194_304
  {
    assert Pow2(5) == 32;
    Pow2Sum(5, 5);
    Pow2Sum(10, 10);
    assert Pow2(22) == 2 * Pow2(21);
  }

  /** With the deployed constants: 22 zero bits from 1 MiB on, 20 from 2 MiB on, and at most 4 MiB. */
  lemma DeployedCutIff(gear: seq<nat>, d: Bytes, i: nat)
    requires |gear| == 256 && 1_048_576 <= i < |d|
    ensures Deployed(gear).min == 1_048_576 && Deployed(gear).max == 4_194_304
    ensures
      var sum := GearSum(Deployed(gear), d, 1_048_576, i + 1);
      IsCut(Deployed(gear), d, i) <==> sum % (if i < 2_097_152 then 4_194_304 else 1_048_576) == 0
  {
    DeployedMasks();
    CutIff(Deployed(gear), d, i);
  }

  ghost predicate SumCuts(p: Params, d: Bytes, i: nat)
    requires p.Valid() && p.min <= i < |d|
  {
    if i < p.avg then GearSum(p, d, p.min, i + 1) % Pow2(p.strictBits) == 0
    else GearSum(p, d, p.min, i + 1) % Pow2(p.laxBits) == 0
  }

  /** The chunks partition d, and each but the last ends right behind the first offset at which the sum cuts, or has
      the maximal size if there is none before; nor does the sum cut inside the last one. */
  ghost predicate CutBySum(p: Params, d: Bytes, chunks: seq<Bytes>)
    requires p.Valid()
    decreases |chunks|
  {
    if d == [] then chunks == []
    else
      && chunks != []
      && var n := |chunks[0]|;
      && 0 < n <= |d| && n <= p.max && chunks[0] == d[..n]
      && (forall i: nat | p.min <= i < n - 1 :: !SumCuts(p, d, i))
      && (n < |d| ==> p.min < n && (n == p.max || SumCuts(p, d, n - 1)))
      && CutBySum(p, d[n..], chunks[1..])
  }

  lemma ChunkEndIff(p: Params, d: Bytes, n: nat)
    requires p.Valid() && 0 < n <= |d|
    ensures ChunkEnd(p, d, n) <==>
      && n <= p.max
      && (forall i: nat | p.min <= i < n - 1 :: !SumCuts(p, d, i))
      && (n < |d| ==> p.min < n && (n == p.max || SumCuts(p, d, n - 1)))
  {
    forall i: nat | p.min <= i < n ensures IsCut(p, d, i) <==> SumCuts(p, d, i) {
      CutIff(p, d, i);
    }
  }

  /** The one-shot chunker yields the one list of chunks that the sums describe. */
  lemma {:induction false} ChunksIff(p: Params, d: Bytes, chunks: seq<Bytes>)
    requires p.Valid()
    ensures chunks == Chunks(p, d) <==> CutBySum(p, d, chunks)
    decreases |d|
  {
    if d != [] {
      var n := if |d| < p.min then |d| else FirstEnd(p, d, p.min);
      ChunksFirst(p, d, n);
      ChunkEndIff(p, d, n);
      if chunks != [] {
        var m := |chunks[0]|;
        if 0 < m <= |d| {
          ChunkEndIff(p, d, m);
          if ChunkEnd(p, d, m) {
            ChunkEndUnique(p, d, m, n);
          }
          ChunksIff(p, d[m..], chunks[1..]);
        }
        assert chunks == [chunks[0]] + chunks[1..];
      }
    }
  }

  // ---------- the resumable scan ----------

  /** The outcome of a boundary search after `steps` iterations: the first offset that passes the test,
      or else the cap, the end of the data, or 0 for "no boundary yet". */
  ghost predicate ScanResult(p: Params, buf: Bytes, start: nat, maxOffset: nat, fp: nat, eof: bool,
                             boundary: nat, fp': nat, scanned: nat, steps: nat)
    requires p.Valid()
  {
    if |buf| < p.min then
      boundary == (if eof then |buf| else 0) && fp' == fp && scanned == 0 && steps == 0
    else
      var lo, hi := Max(p.min, start), Min(Min(|buf|, maxOffset), p.max);
      && steps <= Max(0, hi - lo)
      && (if steps == 0 then fp' == fp else fp' == Roll(p, buf, lo, fp, lo + steps))
      && (forall i: nat | lo <= i < lo + steps - 1 :: !CutFrom(p, buf, lo, fp, i))
      && if steps > 0 && CutTest(p, lo + steps - 1, fp') then
           boundary == scanned == lo + steps
         else
           && steps == Max(0, hi - lo)
           && scanned == (if hi < p.max && eof && |buf| > 0 then |buf| else hi)
           && boundary == (if hi < p.max && !(eof && |buf| > 0) then 0 else scanned)
  }

  /** The scan loop: rolls the hash over buf[lo..limit] until an offset passes the test. */
  method Scan(p: Params, buf: Bytes, lo: nat, limit: nat, fp: nat) returns (cut: bool, fp': nat, steps: nat)
    requires p.Valid() && limit <= |buf|
    ensures steps <= Max(0, limit - lo)
    ensures if steps == 0 then fp' == fp else fp' == Roll(p, buf, lo, fp, lo + steps)
    ensures forall i: nat | lo <= i < lo + steps - 1 :: !CutFrom(p, buf, lo, fp, i)
    ensures cut == (steps > 0 && CutTest(p, lo + steps - 1, fp'))
    ensures !cut ==> steps == Max(0, limit - lo)
  {
    if limit <= lo {
      return false, fp, 0;
    }
    fp' := fp;
    for i := lo to limit
      invariant fp' == Roll(p, buf, lo, fp, i)
      invariant forall j: nat | lo <= j < i :: !CutFrom(p, buf, lo, fp, j)
    {
      fp' := Shift(p, fp', buf[i]);
      cut := CutTest(p, i, fp');
      assert cut == CutFrom(p, buf, lo, fp, i);
      if cut {
        return true, fp', i + 1 - lo;
      }
    }
    assert !CutFrom(p, buf, lo, fp, limit - 1);
    return false, fp', limit - lo;
  }

  /** Resumable boundary search. `steps` counts the iterations of the scan. */
  method FindBoundary(p: Params, buf: Bytes, start: nat, maxOffset: nat, fp: nat, eof: bool)
    returns (boundary: nat, fp': nat, scanned: nat, steps: nat)
    requires p.Valid()
    ensures ScanResult(p, buf, start, maxOffset, fp, eof, boundary, fp', scanned, steps)
  {
    if |buf| < p.min {
      return if eof then |buf| else 0, fp, 0, 0;
    }
    var limit := Min(Min(|buf|, maxOffset), p.max);
    var lo := Max(p.min, start);
    var cut: bool;
    cut, fp', steps := Scan(p, buf, lo, limit, fp);
    boundary := if cut then lo + steps else if limit >= p.max then p.max else if eof && |buf| > 0 then |buf| else 0;
    scanned := if boundary > 0 then boundary else limit;
  }

  /** What the streamer stores between calls: the hash of buf[min..scanned], which holds no cut. */
  ghost predicate Resumable(p: Params, buf: Bytes, scanned: nat, fp: nat)
    requires p.Valid()
  {
    if scanned == 0 then fp == 0
    else p.min <= scanned <= |buf| && fp == Roll(p, buf, p.min, 0, scanned) && NoCut(p, buf, scanned)
  }

  /** Continuing from the stored fingerprint computes the same hashes as starting over. */
  lemma ResumedRoll(p: Params, buf: Bytes, scanned: nat, fp: nat, hi: nat)
    requires p.Valid() && Resumable(p, buf, scanned, fp)
    requires Max(p.min, scanned) <= hi <= |buf|
    ensures Roll(p, buf, Max(p.min, scanned), fp, hi) == Roll(p, buf, p.min, 0, hi)
  {
    if scanned != 0 {
      RollResume(p, buf, p.min, 0, scanned, hi);
    }
  }

  lemma ResumableExtends(p: Params, buf: Bytes, scanned: nat, fp: nat, t: Bytes)
    requires p.Valid() && Resumable(p, buf, scanned, fp)
    ensures Resumable(p, buf + t, scanned, fp)
  {
    if scanned != 0 {
      assert (buf + t)[p.min..scanned] == buf[p.min..scanned];
      RollMoves(p, buf, p.min, buf + t, p.min, 0, scanned - p.min);
      forall i: nat | p.min <= i < scanned ensures !IsCut(p, buf + t, i) {
        IsCutExtends(p, buf, t, i);
      }
    }
  }

  /** A resumed search has no cut before its last visited offset, and tests that one as a fresh search would. */
  lemma ScanIsFresh(p: Params, buf: Bytes, scanned0: nat, fp: nat, lo: nat, hi: nat, fp': nat, steps: nat)
    requires p.Valid() && Resumable(p, buf, scanned0, fp) && lo == Max(p.min, scanned0)
    requires 0 < steps && lo + steps <= hi <= |buf| && fp' == Roll(p, buf, lo, fp, lo + steps)
    requires forall i: nat | lo <= i < lo + steps - 1 :: !CutFrom(p, buf, lo, fp, i)
    ensures NoCut(p, buf, lo + steps - 1) && fp' == Roll(p, buf, p.min, 0, lo + steps)
    ensures IsCut(p, buf, lo + steps - 1) == CutTest(p, lo + steps - 1, fp')
  {
    ResumedRoll(p, buf, scanned0, fp, lo + steps);
    forall i: nat | p.min <= i < lo + steps - 1 ensures !IsCut(p, buf, i) {
      if lo <= i {
        ResumedRoll(p, buf, scanned0, fp, i + 1);
        assert !CutFrom(p, buf, lo, fp, i);
      }
    }
  }

  /** A scan up to hi that met no cut: the buffer is cut at the cap or the end of the data, or resumes at hi. */
  lemma ScanFoundNothing(p: Params, buf: Bytes, scanned0: nat, fp: nat, fp': nat, hi: nat)
    requires p.Valid() && p.min <= |buf| && Resumable(p, buf, scanned0, fp) && scanned0 < p.max
    requires hi == Min(|buf|, p.max)
    requires Max(p.min, scanned0) == hi ==> fp' == fp
    requires Max(p.min, scanned0) < hi ==> NoCut(p, buf, hi) && fp' == Roll(p, buf, p.min, 0, hi)
    ensures NoCut(p, buf, hi)
    ensures hi == p.max ==> HardEnd(p, buf, hi)
    ensures hi < p.max ==> Resumable(p, buf, hi, fp')
  {
  }

  /** What one boundary search over the whole buffer means for the stream. */
  lemma ScanOutcome(p: Params, buf: Bytes, scanned0: nat, fp: nat, eof: bool,
                    boundary: nat, fp': nat, scanned: nat, steps: nat)
    requires p.Valid() && buf != [] && Resumable(p, buf, scanned0, fp) && scanned0 < p.max
    requires ScanResult(p, buf, scanned0, |buf|, fp, eof, boundary, fp', scanned, steps)
    ensures boundary == 0 ==> !eof && |buf| < p.max && Resumable(p, buf, scanned, fp') && scanned0 + steps <= scanned
    ensures boundary != 0 ==> ChunkEnd(p, buf, boundary) && scanned0 + steps <= boundary
    ensures boundary != 0 && !eof ==> HardEnd(p, buf, boundary)
  {
    if |buf| >= p.min {
      var lo, hi := Max(p.min, scanned0), Min(|buf|, p.max);
      if steps > 0 {
        ScanIsFresh(p, buf, scanned0, fp, lo, hi, fp', steps);
      }
      if steps == 0 || !CutTest(p, lo + steps - 1, fp') {
        ScanFoundNothing(p, buf, scanned0, fp, fp', hi);
      }
    }
  }

  // ---------- the streamer ----------

  class Streamer {
    const p: Params
    var buffer: Bytes
    var scanned: nat
    var fingerprint: nat

    // Bytes fed and chunks emitted since construction or the last end of stream, and over the whole life.
    ghost var stream: Bytes
    ghost var emitted: seq<Bytes>
    ghost var bytesFed: nat
    ghost var scanSteps: nat

    ghost predicate Valid()
      reads this
    {
      && p.Valid()
      && |buffer| < p.max
      && scanned <= |buffer|
      && Resumable(p, buffer, scanned, fingerprint)
      && Emits(p, stream, emitted, buffer)
      && scanSteps + |buffer| <= bytesFed + scanned
    }

    constructor (p: Params)
      requires p.Valid()
      ensures Valid() && this.p == p
      ensures stream == [] && emitted == [] && bytesFed == 0 && scanSteps == 0
    {
      this.p := p;
      buffer, scanned, fingerprint := [], 0, 0;
      stream, emitted, bytesFed, scanSteps := [], [], 0, 0;
    }

    /** The invariant while a call drains the buffer, which may still hold several chunks. */
    ghost predicate Draining(eof: bool)
      reads this
    {
      && p.Valid()
      && scanned <= |buffer| && scanned < p.max
      && Resumable(p, buffer, scanned, fingerprint)
      && Delivered(p, stream, emitted, buffer, eof)
      && scanSteps + |buffer| <= bytesFed + scanned
    }

    /** One turn of the loop of `Feed`: search for a boundary and cut the chunk off, or remember the scan. */
    method NextChunk(eof: bool) returns (chunk: Option<Bytes>)
      requires Draining(eof) && buffer != []
      modifies `buffer, `scanned, `fingerprint, `emitted, `scanSteps
      ensures Draining(eof) && old(scanSteps) <= scanSteps
      ensures chunk.None? ==> !eof && buffer == old(buffer) && |buffer| < p.max && emitted == old(emitted)
      ensures chunk.Some? ==>
        && old(buffer) == chunk.value + buffer && |buffer| < |old(buffer)|
        && emitted == old(emitted) + [chunk.value]
    {
      var boundary, fp', newScanned, steps := FindBoundary(p, buffer, scanned, |buffer|, fingerprint, eof);
      ScanOutcome(p, buffer, scanned, fingerprint, eof, boundary, fp', newScanned, steps);
      fingerprint, scanSteps := fp', scanSteps + steps;
      if boundary == 0 {
        scanned := newScanned;
        return None;
      }
      DeliverChunk(p, stream, emitted, buffer, boundary, eof);
      var head, rest := buffer[..boundary], buffer[boundary..];
      assert buffer == head + rest;
      buffer, scanned, fingerprint := rest, 0, 0;
      emitted := emitted + [head];
      chunk := Some(head);
    }

    /** Feeds `data` and drains every chunk it completes. `peak` is the largest the buffer grew. */
    method Feed(data: Bytes, eof: bool) returns (chunks: seq<Bytes>, ghost peak: nat)
      requires Valid()
      modifies this
      ensures Valid()
      ensures bytesFed == old(bytesFed) + |data| && old(scanSteps) <= scanSteps <= bytesFed
      ensures peak < p.max + |data|
      ensures !eof ==> stream == old(stream) + data && emitted == old(emitted) + chunks
      ensures eof ==>
        && Chunks(p, old(stream) + data) == old(emitted) + chunks
        && stream == buffer == [] && emitted == [] && scanned == 0 && fingerprint == 0
    {
      chunks := [];
      ResumableExtends(p, buffer, scanned, fingerprint, data);
      EmitsExtends(p, stream, emitted, buffer, data);
      buffer := buffer + data;
      stream, bytesFed, peak := stream + data, bytesFed + |data|, |buffer|;
      while true
        invariant Draining(eof) && |buffer| <= peak
        invariant stream == old(stream) + data && bytesFed == old(bytesFed) + |data|
        invariant emitted == old(emitted) + chunks && old(scanSteps) <= scanSteps
        decreases |buffer|
      {
        if buffer == [] {
          break;
        }
        var chunk := NextChunk(eof);
        if chunk.None? {
          break;
        }
        chunks := chunks + [chunk.value];
        if !eof && |buffer| < p.min {
          break;
        }
      }
      if eof {
        DeliveredAll(p, stream, emitted);
        stream, emitted := [], [];
      }
    }
  }

  /** Feeding invariance: however the stream is split into calls, the chunks are the one-shot ones, and each ends where
      the sums over the bytes of the whole stream say. */
  method ChunkStream(p: Params, parts: seq<Bytes>, last: Bytes) returns (chunks: seq<Bytes>)
    requires p.Valid()
    ensures chunks == Chunks(p, Flatten(parts) + last)
    ensures CutBySum(p, Flatten(parts) + last, chunks)
  {
    var streamer := new Streamer(p);
    chunks := [];
    for k := 0 to |parts|
      invariant streamer.Valid() && streamer.p == p && fresh(streamer)
      invariant streamer.stream == Flatten(parts[..k]) && streamer.emitted == chunks
    {
      var out, _ := streamer.Feed(parts[k], false);
      chunks := chunks + out;
      assert parts[..k + 1] == parts[..k] + [parts[k]];
      FlattenSnoc(parts[..k], parts[k]);
    }
    assert parts[..|parts|] == parts;
    var out, _ := streamer.Feed(last, true);
    chunks := chunks + out;
    ChunksIff(p, Flatten(parts) + last, chunks);
  }

  // ---------- content locality and resynchronisation ----------

  lemma {:induction false} GearSumSplits(p: Params, d: Bytes, lo: nat, mid: nat, hi: nat)
    requires p.Valid() && lo <= mid <= hi <= |d|
    ensures GearSum(p, d, lo, hi) == GearSum(p, d, mid, hi) + Pow2(hi - mid) * GearSum(p, d, lo, mid)
    decreases hi
  {
    if mid < hi {
      GearSumSplits(p, d, lo, mid, hi - 1);
      GearSumSnoc(p, d, lo, hi - 1);
      GearSumSnoc(p, d, mid, hi - 1);
      Doubled(Pow2(hi - 1 - mid), GearSum(p, d, lo, mid));
    } else {
      assert Pow2(0) == 1;
    }
  }

  /** Content locality: once the hashed region is as long as the mask is wide (22 bytes strict, 20 lax),
      the cut test at an offset depends only on that many last bytes. */
  lemma CutIsLocal(p: Params, d: Bytes, i: nat, k: nat)
    requires p.Valid() && p.min <= i < |d| && k == (if i < p.avg then p.strictBits else p.laxBits)
    requires p.min + k <= i + 1
    ensures IsCut(p, d, i) <==> GearSum(p, d, i + 1 - k, i + 1) % Pow2(k) == 0
  {
    CutIff(p, d, i);
    LastBytesDecide(p, d, p.min, i + 1, k);
  }

  lemma LastBytesDecide(p: Params, d: Bytes, lo: nat, hi: nat, k: nat)
    requires p.Valid() && lo + k <= hi <= |d|
    ensures GearSum(p, d, lo, hi) % Pow2(k) == GearSum(p, d, hi - k, hi) % Pow2(k)
  {
    GearSumSplits(p, d, lo, hi - k, hi);
    SameRemainder(GearSum(p, d, lo, hi), GearSum(p, d, hi - k, hi), Pow2(k), GearSum(p, d, lo, hi - k));
  }

  /** If two streams agree on those last bytes and the offsets lie in the same mask region, both cut or neither does. */
  lemma SameTailSameCut(p: Params, d: Bytes, i: nat, e: Bytes, j: nat, k: nat)
    requires p.Valid() && p.min <= i < |d| && p.min <= j < |e| && (i < p.avg <==> j < p.avg)
    requires k == (if i < p.avg then p.strictBits else p.laxBits) && p.min + k <= i + 1 && p.min + k <= j + 1
    requires d[i + 1 - k..i + 1] == e[j + 1 - k..j + 1]
    ensures IsCut(p, d, i) == IsCut(p, e, j)
  {
    CutIsLocal(p, d, i, k);
    CutIsLocal(p, e, j, k);
    RollMoves(p, d, i + 1 - k, e, j + 1 - k, 0, k);
    SumLowBits(p, d, i + 1 - k, i, k);
    SumLowBits(p, e, j + 1 - k, j, k);
  }

  /** The chunk list after a boundary is the chunk list of the bytes after it. */
  lemma {:induction false} ChunksAfterBoundary(p: Params, d: Bytes, k: nat)
    requires p.Valid() && k <= |Chunks(p, d)|
    ensures |Flatten(Chunks(p, d)[..k])| <= |d|
    ensures Chunks(p, d)[k..] == Chunks(p, d[|Flatten(Chunks(p, d)[..k])|..])
    decreases k
  {
    var all := Chunks(p, d);
    if k > 0 {
      var n := |all[0]|;
      assert all == [d[..n]] + Chunks(p, d[n..]);
      assert all[1..] == Chunks(p, d[n..]);
      assert all[..k][1..] == all[1..][..k - 1];
      ChunksAfterBoundary(p, d[n..], k - 1);
      var m := |Flatten(all[1..][..k - 1])|;
      assert Flatten(all[..k]) == all[0] + Flatten(all[1..][..k - 1]);
      assert d[n..][m..] == d[n + m..];
      assert all[k..] == all[1..][k - 1..];
    } else {
      assert all[..0] == [];
      assert d[0..] == d;
    }
  }

  /** Resynchronisation: a boundary exactly before s makes the chunks of s the same in both streams. */
  lemma Resynchronise(p: Params, x: Bytes, y: Bytes, s: Bytes, j: nat, k: nat)
    requires p.Valid()
    requires j <= |Chunks(p, x + s)| && Flatten(Chunks(p, x + s)[..j]) == x
    requires k <= |Chunks(p, y + s)| && Flatten(Chunks(p, y + s)[..k]) == y
    ensures Chunks(p, x + s)[j..] == Chunks(p, y + s)[k..] == Chunks(p, s)
  {
    ChunksAfterBoundary(p, x + s, j);
    ChunksAfterBoundary(p, y + s, k);
    assert (x + s)[|x|..] == s == (y + s)[|y|..];
  }
}
