/**
 * The Merkle root of a manifest, computed bottom-up with the last node of an odd level doubled, against the tree hash
 * of section 2.1 of RFC 6962. Both hash a tree; comparing the trees separates the hash function from the shape.
 */
module Manifest {
  import opened Common

  type Sha = Bytes -> Bytes

  datatype Tree = Leaf(data: Bytes) | Node(left: Tree, right: Tree)

  /** Leaves are hashed behind 0x00 and inner nodes behind 0x01. */
  function HashOf(sha: Sha, t: Tree): Bytes {
    match t
    case Leaf(d) => sha([0x00] + d)
    case Node(l, r) => sha([0x01] + HashOf(sha, l) + HashOf(sha, r))
  }

  function HashAll(sha: Sha, ts: seq<Tree>): seq<Bytes> {
    if ts == [] then [] else [HashOf(sha, ts[0])] + HashAll(sha, ts[1..])
  }

  // ---------- the bottom-up root ----------

  function Leaves(data: seq<Bytes>): (ts: seq<Tree>)
    ensures |ts| == |data| && forall i | 0 <= i < |data| :: ts[i] == Leaf(data[i])
  {
    seq(|data|, i requires 0 <= i < |data| => Leaf(data[i]))
  }

  /** The next level: neighbours are joined, and a last node without neighbour is joined with itself. */
  function PairUp(ts: seq<Tree>): (r: seq<Tree>)
    ensures |r| == (|ts| + 1) / 2
  {
    if ts == [] then [] else [Node(ts[0], if |ts| > 1 then ts[1] else ts[0])] + PairUp(ts[Min(2, |ts|)..])
  }

  function BottomUp(ts: seq<Tree>): Tree
    requires ts != []
    decreases |ts|
  {
    if |ts| == 1 then ts[0] else BottomUp(PairUp(ts))
  }

  function MerkleRoot(sha: Sha, data: seq<Bytes>): Bytes {
    if data == [] then sha([]) else HashOf(sha, BottomUp(Leaves(data)))
  }

  lemma {:induction false} HashAllAt(sha: Sha, ts: seq<Tree>, i: nat)
    requires i < |ts|
    ensures |HashAll(sha, ts)| == |ts| && HashAll(sha, ts)[i] == HashOf(sha, ts[i])
  {
    if |ts| > 1 {
      HashAllAt(sha, ts[1..], if i > 0 then i - 1 else 0);
    }
  }

  lemma {:induction false} HashAllSize(sha: Sha, ts: seq<Tree>)
    ensures |HashAll(sha, ts)| == |ts|
  {
    if ts != [] {
      HashAllAt(sha, ts, 0);
    }
  }

  /** What the inner loop still has to produce when it stands at node i. */
  function Rest(sha: Sha, ts: seq<Tree>, i: nat): seq<Bytes> {
    HashAll(sha, PairUp(ts[Min(i, |ts|)..]))
  }

  /** One step of the inner loop consumes two nodes of the level and hashes one of the next. */
  lemma PairStep(sha: Sha, ts: seq<Tree>, i: nat)
    requires i < |ts|
    ensures Rest(sha, ts, i)
         == [HashOf(sha, Node(ts[i], if i + 1 < |ts| then ts[i + 1] else ts[i]))] + Rest(sha, ts, i + 2)
  {
    var rest := ts[i..];
    assert rest[Min(2, |rest|)..] == ts[Min(i + 2, |ts|)..];
    var right := if i + 1 < |ts| then ts[i + 1] else ts[i];
    assert PairUp(rest) == [Node(ts[i], right)] + PairUp(ts[Min(i + 2, |ts|)..]);
  }

  lemma RestEnds(sha: Sha, ts: seq<Tree>, i: nat)
    ensures Rest(sha, ts, 0) == HashAll(sha, PairUp(ts))
    ensures i >= |ts| ==> Rest(sha, ts, i) == []
  {
    assert ts[0..] == ts;
  }

  method HashPair(sha: Sha, current: seq<Bytes>, i: nat, ghost ts: seq<Tree>) returns (combined: Bytes)
    requires current == HashAll(sha, ts) && |current| == |ts| && i < |ts|
    ensures Rest(sha, ts, i) == [combined] + Rest(sha, ts, i + 2)
  {
    var left := current[i];
    var right := if i + 1 < |current| then current[i + 1] else left;
    HashAllAt(sha, ts, i);
    HashAllAt(sha, ts, if i + 1 < |ts| then i + 1 else i);
    PairStep(sha, ts, i);
    combined := sha([0x01] + left + right);
  }

  method HashLevel(sha: Sha, current: seq<Bytes>, ghost ts: seq<Tree>) returns (next: seq<Bytes>)
    requires current == HashAll(sha, ts)
    ensures next == HashAll(sha, PairUp(ts))
  {
    HashAllSize(sha, ts);
    RestEnds(sha, ts, 0);
    next := [];
    var i := 0;
    while i < |current|
      invariant next + Rest(sha, ts, i) == HashAll(sha, PairUp(ts))
    {
      var combined := HashPair(sha, current, i, ts);
      ghost var rest := Rest(sha, ts, i + 2);
      assert next + ([combined] + rest) == (next + [combined]) + rest;
      next := next + [combined];
      i := i + 2;
    }
    RestEnds(sha, ts, i);
  }

  method ComputeMerkleRoot(sha: Sha, chunkHashes: seq<Bytes>) returns (root: Bytes)
    ensures root == MerkleRoot(sha, chunkHashes)
  {
    if chunkHashes == [] {
      return sha([]);
    }
    var current := [];
    for i := 0 to |chunkHashes|
      invariant |current| == i && forall k | 0 <= k < i :: current[k] == sha([0x00] + chunkHashes[k])
    {
      current := current + [sha([0x00] + chunkHashes[i])];
    }
    ghost var ts := Leaves(chunkHashes);
    HashAllSize(sha, ts);
    forall k | 0 <= k < |ts| ensures current[k] == HashAll(sha, ts)[k] {
      HashAllAt(sha, ts, k);
    }
    assert current == HashAll(sha, ts);
    while |current| > 1
      invariant ts != [] && current == HashAll(sha, ts) && |current| == |ts|
      invariant BottomUp(ts) == BottomUp(Leaves(chunkHashes))
    {
      current := HashLevel(sha, current, ts);
      ts := PairUp(ts);
      HashAllSize(sha, ts);
    }
    HashAllAt(sha, ts, 0);
    root := current[0];
  }

  // ---------- binding ----------

  /** Everything that is hashed on the way to the root of a tree. */
  function Inputs(sha: Sha, t: Tree): set<Bytes> {
    match t
    case Leaf(d) => {[0x00] + d}
    case Node(l, r) => {[0x01] + HashOf(sha, l) + HashOf(sha, r)} + Inputs(sha, l) + Inputs(sha, r)
  }

  /** No two of these inputs collide; digests have 32 bytes. */
  ghost predicate CollisionFree(sha: Sha, inputs: set<Bytes>) {
    && (forall x :: |sha(x)| == 32)
    && (forall x, y | x in inputs && y in inputs && sha(x) == sha(y) :: x == y)
  }

  /** The two prefixes keep the hashes of leaves and inner nodes apart. */
  lemma LeafIsNotNode(sha: Sha, t: Tree, u: Tree)
    requires t.Leaf? && u.Node? && CollisionFree(sha, Inputs(sha, t) + Inputs(sha, u))
    ensures HashOf(sha, t) != HashOf(sha, u)
  {
    var x, y := [0x00] + t.data, [0x01] + HashOf(sha, u.left) + HashOf(sha, u.right);
    assert x[0] != y[0];
    assert x in Inputs(sha, t) && y in Inputs(sha, u);
  }

  /** Under collision-freedom on what was hashed, the root determines the whole tree. */
  lemma {:induction false} HashBinds(sha: Sha, t: Tree, u: Tree)
    requires CollisionFree(sha, Inputs(sha, t) + Inputs(sha, u)) && HashOf(sha, t) == HashOf(sha, u)
    ensures t == u
    decreases t
  {
    match (t, u) {
      case (Leaf(d), Leaf(e)) =>
        assert ([0x00] + d)[1..] == d && ([0x00] + e)[1..] == e;
      case (Node(l, r), Node(l', r')) =>
        var x, y := [0x01] + HashOf(sha, l) + HashOf(sha, r), [0x01] + HashOf(sha, l') + HashOf(sha, r');
        assert x[1..33] == HashOf(sha, l) && x[33..] == HashOf(sha, r);
        assert y[1..33] == HashOf(sha, l') && y[33..] == HashOf(sha, r');
        HashBinds(sha, l, l');
        HashBinds(sha, r, r');
      case (Leaf(_), Node(_, _)) => LeafIsNotNode(sha, t, u);
      case (Node(_, _), Leaf(_)) => LeafIsNotNode(sha, u, t);
    }
  }

  lemma {:induction false} PairUpInjective(a: seq<Tree>, b: seq<Tree>)
    requires |a| == |b| && PairUp(a) == PairUp(b)
    ensures a == b
    decreases |a|
  {
    if a != [] {
      var k := Min(2, |a|);
      assert PairUp(a)[0] == PairUp(b)[0];
      assert PairUp(a)[1..] == PairUp(a[k..]) && PairUp(b)[1..] == PairUp(b[k..]);
      PairUpInjective(a[k..], b[k..]);
      assert a == a[..k] + a[k..] && b == b[..k] + b[k..];
    }
  }

  lemma {:induction false} BottomUpInjective(a: seq<Tree>, b: seq<Tree>)
    requires |a| == |b| > 0 && BottomUp(a) == BottomUp(b)
    ensures a == b
    decreases |a|
  {
    if |a| > 1 {
      BottomUpInjective(PairUp(a), PairUp(b));
      PairUpInjective(a, b);
    }
  }

  /** The part of a manifest that commits to the chunks. */
  datatype Commitment = Commitment(merkleRoot: Bytes, totalChunks: nat)

  function Commit(sha: Sha, chunkHashes: seq<Bytes>): Commitment {
    Commitment(MerkleRoot(sha, chunkHashes), |chunkHashes|)
  }

  ghost function RootInputs(sha: Sha, data: seq<Bytes>): set<Bytes> {
    if data == [] then {[]} else Inputs(sha, BottomUp(Leaves(data)))
  }

  /** Root and number of chunks together bind the list of chunk hashes. */
  lemma RootAndCountBind(sha: Sha, a: seq<Bytes>, b: seq<Bytes>)
    requires CollisionFree(sha, RootInputs(sha, a) + RootInputs(sha, b)) && Commit(sha, a) == Commit(sha, b)
    ensures a == b
  {
    if a != [] {
      HashBinds(sha, BottomUp(Leaves(a)), BottomUp(Leaves(b)));
      BottomUpInjective(Leaves(a), Leaves(b));
      forall i | 0 <= i < |a| ensures a[i] == b[i] {
        assert Leaves(a)[i] == Leaf(a[i]) && Leaves(b)[i] == Leaf(b[i]);
      }
    }
  }

  /** The root alone does not: repeating the last entry of an odd list of three or more keeps it. */
  lemma {:induction false} LastCanBeDoubled(ts: seq<Tree>)
    requires |ts| % 2 == 1
    ensures PairUp(ts + [ts[|ts| - 1]]) == PairUp(ts)
    decreases |ts|
  {
    var last := ts[|ts| - 1];
    if |ts| > 1 {
      LastCanBeDoubled(ts[2..]);
      assert (ts + [last])[2..] == ts[2..] + [last];
    }
  }

  lemma RootAloneDoesNotBind(sha: Sha, data: seq<Bytes>)
    requires |data| % 2 == 1 && |data| >= 3
    ensures MerkleRoot(sha, data + [data[|data| - 1]]) == MerkleRoot(sha, data)
  {
    var ts, last := Leaves(data), data[|data| - 1];
    assert Leaves(data + [last]) == ts + [ts[|ts| - 1]];
    LastCanBeDoubled(ts);
  }

  // ---------- RFC 6962 ----------

  /** The exponent of the least power of two that is at least n. */
  function Height(n: nat): (h: nat)
    requires n >= 1
    ensures n <= Pow2(h) && (h > 0 ==> Pow2(h - 1) < n)
  {
    if n == 1 then 0 else 1 + Height((n + 1) / 2)
  }

  /** The largest power of two smaller than n. */
  function SplitPoint(n: nat): (k: nat)
    requires n > 1
    ensures k < n <= 2 * k && exists j: nat :: k == Pow2(j)
  {
    Pow2(Height(n) - 1)
  }

  /** The tree of section 2.1: split at the largest power of two smaller than the length. */
  function TopDown(ts: seq<Tree>): Tree
    requires ts != []
    decreases |ts|
  {
    if |ts| == 1 then ts[0] else
    var k := SplitPoint(|ts|);
    Node(TopDown(ts[..k]), TopDown(ts[k..]))
  }

  function JoinHashes(sha: Sha, left: Bytes, right: Bytes): Bytes {
    sha([0x01] + left + right)
  }

  /** MTH of RFC 6962, word for word. */
  function TreeHash(sha: Sha, data: seq<Bytes>): Bytes
    decreases |data|
  {
    if data == [] then sha([])
    else if |data| == 1 then sha([0x00] + data[0])
    else
      var k := SplitPoint(|data|);
      JoinHashes(sha, TreeHash(sha, data[..k]), TreeHash(sha, data[k..]))
  }

  lemma LeavesSplit(data: seq<Bytes>, k: nat)
    requires k <= |data|
    ensures Leaves(data)[..k] == Leaves(data[..k]) && Leaves(data)[k..] == Leaves(data[k..])
  {
  }

  lemma TopDownOf(ts: seq<Tree>, l: seq<Tree>, r: seq<Tree>, k: nat)
    requires |ts| > 1 && k == SplitPoint(|ts|) && l == ts[..k] && r == ts[k..]
    ensures l != [] && r != [] && TopDown(ts) == Node(TopDown(l), TopDown(r))
  {
  }

  lemma TreeHashOf(sha: Sha, data: seq<Bytes>, k: nat)
    requires |data| > 1 && k == SplitPoint(|data|)
    ensures TreeHash(sha, data) == JoinHashes(sha, TreeHash(sha, data[..k]), TreeHash(sha, data[k..]))
  {
  }

  /** It is the hash of the tree. */
  predicate HashesTree(sha: Sha, data: seq<Bytes>)
    requires data != []
  {
    TreeHash(sha, data) == HashOf(sha, TopDown(Leaves(data)))
  }

  lemma HalvesHashTree(sha: Sha, data: seq<Bytes>, l: seq<Bytes>, r: seq<Bytes>, k: nat)
    requires |data| > 1 && k == SplitPoint(|data|) && l == data[..k] && r == data[k..] && l != [] && r != []
    requires HashesTree(sha, l) && HashesTree(sha, r)
    ensures HashesTree(sha, data)
  {
    LeavesSplit(data, k);
    TopDownOf(Leaves(data), Leaves(l), Leaves(r), k);
    TreeHashOf(sha, data, k);
  }

  lemma {:induction false} TreeHashIs(sha: Sha, data: seq<Bytes>)
    requires data != []
    ensures HashesTree(sha, data)
    decreases |data|
  {
    if |data| > 1 {
      var k := SplitPoint(|data|);
      TreeHashIs(sha, data[..k]);
      TreeHashIs(sha, data[k..]);
      HalvesHashTree(sha, data, data[..k], data[k..], k);
    }
  }

  /** The bottom-up tree seen from its root: 2^j leaves, where a half that would be empty repeats the other. */
  function Padded(ts: seq<Tree>, j: nat): Tree
    requires 1 <= |ts| <= Pow2(j)
    decreases j
  {
    if j == 0 then ts[0] else
    var k := Pow2(j - 1);
    if |ts| <= k then Node(Padded(ts, j - 1), Padded(ts, j - 1))
    else Node(Padded(ts[..k], j - 1), Padded(ts[k..], j - 1))
  }

  lemma {:induction false} PairUpSplits(ts: seq<Tree>, k: nat)
    requires 2 * k <= |ts|
    ensures PairUp(ts)[..k] == PairUp(ts[..2 * k]) && PairUp(ts)[k..] == PairUp(ts[2 * k..])
    decreases k
  {
    if k > 0 {
      PairUpSplits(ts[2..], k - 1);
      assert ts[..2 * k][2..] == ts[2..][..2 * (k - 1)];
      assert ts[2..][2 * (k - 1)..] == ts[2 * k..];
      assert PairUp(ts)[1..] == PairUp(ts[2..]);
      assert PairUp(ts)[..k] == [PairUp(ts)[0]] + PairUp(ts)[1..][..k - 1];
      assert PairUp(ts)[k..] == PairUp(ts)[1..][k - 1..];
    } else {
      assert ts[0..] == ts;
    }
  }

  /** One level less, one halving less. */
  predicate PairsAgree(ts: seq<Tree>, j: nat)
    requires j >= 1 && 1 <= |ts| <= Pow2(j)
  {
    Padded(ts, j) == Padded(PairUp(ts), j - 1)
  }

  lemma PairsOfFew(ts: seq<Tree>)
    requires 1 <= |ts| <= Pow2(1)
    ensures PairsAgree(ts, 1)
  {
    assert Pow2(0) == 1;
    assert Padded(PairUp(ts), 0) == PairUp(ts)[0];
  }

  lemma PairsOfSmall(ts: seq<Tree>, j: nat)
    requires j >= 2 && 1 <= |ts| <= Pow2(j - 1) && PairsAgree(ts, j - 1)
    ensures PairsAgree(ts, j)
  {
    assert Pow2(j - 1) == 2 * Pow2(j - 2);
  }

  lemma PairsOfHalves(ts: seq<Tree>, j: nat) returns (l: seq<Tree>, r: seq<Tree>)
    requires j >= 2 && Pow2(j - 1) < |ts| <= Pow2(j)
    ensures |l| == Pow2(j - 1) && 1 <= |r| <= Pow2(j - 1)
    ensures PairsAgree(l, j - 1) && PairsAgree(r, j - 1) ==> PairsAgree(ts, j)
  {
    var k := Pow2(j - 2);
    assert Pow2(j - 1) == 2 * k;
    PairUpSplits(ts, k);
    l, r := ts[..2 * k], ts[2 * k..];
  }

  lemma {:induction false} PaddedOfPairs(ts: seq<Tree>, j: nat)
    requires j >= 1 && 1 <= |ts| <= Pow2(j)
    ensures PairsAgree(ts, j)
    decreases j
  {
    if j == 1 {
      PairsOfFew(ts);
    } else if |ts| <= Pow2(j - 1) {
      PaddedOfPairs(ts, j - 1);
      PairsOfSmall(ts, j);
    } else {
      var l, r := PairsOfHalves(ts, j);
      PaddedOfPairs(l, j - 1);
      PaddedOfPairs(r, j - 1);
    }
  }

  /** The loop builds the padded tree. */
  predicate BuildsPadded(ts: seq<Tree>)
    requires ts != []
  {
    BottomUp(ts) == Padded(ts, Height(|ts|))
  }

  lemma BottomUpOf(ts: seq<Tree>, us: seq<Tree>)
    requires |ts| > 1 && us == PairUp(ts)
    ensures BottomUp(ts) == BottomUp(us) && Height(|ts|) == 1 + Height(|us|)
  {
  }

  lemma PaddedOfPairsIs(ts: seq<Tree>, us: seq<Tree>, h: nat)
    requires 1 <= |ts| <= Pow2(h + 1) && us == PairUp(ts)
    ensures Padded(ts, h + 1) == Padded(us, h)
  {
    PaddedOfPairs(ts, h + 1);
    assert PairsAgree(ts, h + 1);
  }

  lemma OneLevelMore(ts: seq<Tree>, us: seq<Tree>, h: nat)
    requires |ts| > 1 && us == PairUp(ts) && h == Height(|us|) && BuildsPadded(us)
    ensures BuildsPadded(ts)
  {
    BottomUpOf(ts, us);
    PaddedOfPairsIs(ts, us, h);
  }

  lemma {:induction false} BottomUpIsPadded(ts: seq<Tree>)
    requires ts != []
    ensures BuildsPadded(ts)
    decreases |ts|
  {
    if |ts| > 1 {
      BottomUpIsPadded(PairUp(ts));
      OneLevelMore(ts, PairUp(ts), Height(|PairUp(ts)|));
    }
  }

  lemma Pow2Ordered(a: nat, b: nat)
    requires Pow2(a) < Pow2(b)
    ensures a < b
  {
    if b < a {
      Pow2Grows(b, a);
    }
  }

  lemma HeightAtMost(n: nat, h: nat)
    requires 1 <= n <= Pow2(h)
    ensures Height(n) <= h
  {
    var m := Height(n);
    if m > 0 {
      Pow2Ordered(m - 1, h);
    }
  }

  lemma HeightUnique(n: nat, h: nat)
    requires n >= 1 && n <= Pow2(h) && (h > 0 ==> Pow2(h - 1) < n)
    ensures Height(n) == h
  {
    HeightAtMost(n, h);
    if h > 0 {
      Pow2Ordered(h - 1, Height(n));
    }
  }

  lemma SplitPointIs(n: nat, j: nat)
    requires j >= 1 && Pow2(j - 1) < n <= Pow2(j)
    ensures n > 1 && SplitPoint(n) == Pow2(j - 1)
  {
    HeightUnique(n, j);
  }

  lemma TopDownSplits(ts: seq<Tree>, j: nat)
    requires j >= 1 && Pow2(j - 1) < |ts| <= Pow2(j)
    ensures TopDown(ts) == Node(TopDown(ts[..Pow2(j - 1)]), TopDown(ts[Pow2(j - 1)..]))
  {
    SplitPointIs(|ts|, j);
    TopDownOf(ts, ts[..Pow2(j - 1)], ts[Pow2(j - 1)..], Pow2(j - 1));
  }

  /** The standard's tree and the padded tree of height j coincide. */
  predicate Agree(ts: seq<Tree>, j: nat)
    requires 1 <= |ts| <= Pow2(j)
  {
    TopDown(ts) == Padded(ts, j)
  }

  lemma FullHalves(ts: seq<Tree>, j: nat) returns (l: seq<Tree>, r: seq<Tree>)
    requires j >= 1 && |ts| == Pow2(j)
    ensures |l| == |r| == Pow2(j - 1)
    ensures Agree(l, j - 1) && Agree(r, j - 1) ==> Agree(ts, j)
  {
    TopDownSplits(ts, j);
    l, r := ts[..Pow2(j - 1)], ts[Pow2(j - 1)..];
  }

  lemma {:induction false} FullTreesAgree(ts: seq<Tree>, j: nat)
    requires |ts| == Pow2(j)
    ensures Agree(ts, j)
    decreases j
  {
    if j > 0 {
      var l, r := FullHalves(ts, j);
      FullTreesAgree(l, j - 1);
      FullTreesAgree(r, j - 1);
    }
  }

  ghost predicate AllLeaves(ts: seq<Tree>) {
    forall i | 0 <= i < |ts| :: ts[i].Leaf?
  }

  lemma PaddedLeft(us: seq<Tree>, j: nat)
    requires j >= 1 && 1 <= |us| <= Pow2(j)
    ensures Padded(us, j).Node?
    ensures Padded(us, j).left == Padded(if |us| <= Pow2(j - 1) then us else us[..Pow2(j - 1)], j - 1)
  {
  }

  /** One step down the left spines of both trees. */
  lemma SpineStep(ts: seq<Tree>, h: nat, us: seq<Tree>, j: nat) returns (left: seq<Tree>, usLeft: seq<Tree>)
    requires AllLeaves(ts) && h >= 1 && Pow2(h - 1) < |ts| <= Pow2(h)
    requires j >= 1 && 1 <= |us| <= Pow2(j)
    ensures AllLeaves(left) && |left| == Pow2(h - 1)
    ensures 1 <= |usLeft| <= Pow2(j - 1)
    ensures TopDown(ts) == Padded(us, j) ==> TopDown(left) == Padded(usLeft, j - 1)
  {
    TopDownSplits(ts, h);
    PaddedLeft(us, j);
    left := ts[..Pow2(h - 1)];
    usLeft := if |us| <= Pow2(j - 1) then us else us[..Pow2(j - 1)];
  }

  lemma LeafAbovePadding(ts: seq<Tree>, us: seq<Tree>, j: nat)
    requires AllLeaves(ts) && |ts| == 1 && j >= 1 && 1 <= |us| <= Pow2(j)
    ensures TopDown(ts) != Padded(us, j)
  {
    PaddedLeft(us, j);
  }

  /** A tree of the standard is never a padded tree of greater height: its left spine is shorter. */
  lemma {:induction false} HeightsDiffer(ts: seq<Tree>, h: nat, us: seq<Tree>, j: nat)
    requires AllLeaves(ts) && 1 <= |ts| <= Pow2(h) && (h > 0 ==> Pow2(h - 1) < |ts|)
    requires 1 <= |us| <= Pow2(j) && h < j
    ensures TopDown(ts) != Padded(us, j)
    decreases j
  {
    if h == 0 {
      LeafAbovePadding(ts, us, j);
    } else {
      var left, usLeft := SpineStep(ts, h, us, j);
      if h > 1 {
        Pow2Grows(h - 2, h - 1);
      }
      HeightsDiffer(left, h - 1, usLeft, j - 1);
    }
  }

  lemma SmallTreesDisagree(ts: seq<Tree>, j: nat)
    requires AllLeaves(ts) && j >= 1 && 1 <= |ts| <= Pow2(j - 1)
    ensures |ts| <= Pow2(j) && !Agree(ts, j)
  {
    HeightAtMost(|ts|, j - 1);
    HeightsDiffer(ts, Height(|ts|), ts, j);
  }

  lemma RightHalvesAgree(ts: seq<Tree>, j: nat) returns (right: seq<Tree>)
    requires AllLeaves(ts) && j >= 1 && Pow2(j - 1) < |ts| <= Pow2(j) && Agree(ts, j)
    ensures AllLeaves(right) && 1 <= |right| <= Pow2(j - 1) && |ts| == Pow2(j - 1) + |right|
    ensures Agree(right, j - 1)
  {
    TopDownSplits(ts, j);
    right := ts[Pow2(j - 1)..];
  }

  /** A padded tree of height j is the standard's tree only when nothing had to be padded. */
  lemma {:induction false} AgreeOnlyWhenFull(ts: seq<Tree>, j: nat)
    requires AllLeaves(ts) && 1 <= |ts| <= Pow2(j) && Agree(ts, j)
    ensures |ts| == Pow2(j)
    decreases j
  {
    if j > 0 {
      if |ts| <= Pow2(j - 1) {
        SmallTreesDisagree(ts, j);
      } else {
        var right := RightHalvesAgree(ts, j);
        AgreeOnlyWhenFull(right, j - 1);
      }
    }
  }

  /** The two trees coincide exactly on lengths that are powers of two. */
  lemma TreesAgreeIff(ts: seq<Tree>)
    requires AllLeaves(ts) && ts != []
    ensures BottomUp(ts) == TopDown(ts) <==> exists k: nat :: |ts| == Pow2(k)
  {
    BottomUpIsPadded(ts);
    if BottomUp(ts) == TopDown(ts) {
      AgreeOnlyWhenFull(ts, Height(|ts|));
    }
    if k: nat :| |ts| == Pow2(k) {
      if k > 0 {
        Pow2Grows(k - 1, k);
      }
      HeightUnique(|ts|, k);
      FullTreesAgree(ts, k);
    }
  }

  /**
   * Agreement with the standard, exactly: the computed root is the tree hash of RFC 6962 if and only if the list is
   * empty or its length is a power of two.
   */
  lemma AgreesWithRfc6962Iff(sha: Sha, data: seq<Bytes>)
    requires data != [] ==> CollisionFree(sha, Inputs(sha, BottomUp(Leaves(data))) + Inputs(sha, TopDown(Leaves(data))))
    ensures MerkleRoot(sha, data) == TreeHash(sha, data) <==> (data == [] || exists k: nat :: |data| == Pow2(k))
  {
    if data != [] {
      TreeHashIs(sha, data);
      TreesAgreeIff(Leaves(data));
      if MerkleRoot(sha, data) == TreeHash(sha, data) {
        HashBinds(sha, BottomUp(Leaves(data)), TopDown(Leaves(data)));
      }
    }
  }

  // ---------- when exactly two roots are equal ----------

  /** The list that the padded tree really hashes: 2^j entries, where a half that would be empty repeats the other. */
  function PadList<T>(l: seq<T>, j: nat): (r: seq<T>)
    requires 1 <= |l| <= Pow2(j)
    ensures |r| == Pow2(j)
    decreases j
  {
    if j == 0 then l else
    var k := Pow2(j - 1);
    if |l| <= k then PadList(l, j - 1) + PadList(l, j - 1) else PadList(l[..k], j - 1) + PadList(l[k..], j - 1)
  }

  /** A list stands for its padded list. */
  predicate PadsAlike(ts: seq<Tree>, j: nat)
    requires 1 <= |ts| <= Pow2(j)
  {
    Padded(ts, j) == Padded(PadList(ts, j), j)
  }

  lemma FullSplit(l: seq<Tree>, r: seq<Tree>, j: nat)
    requires j >= 1 && |l| == |r| == Pow2(j - 1)
    ensures Padded(l + r, j) == Node(Padded(l, j - 1), Padded(r, j - 1))
  {
    assert (l + r)[..Pow2(j - 1)] == l && (l + r)[Pow2(j - 1)..] == r;
  }

  lemma {:induction false} PaddedOfPadList(ts: seq<Tree>, j: nat)
    requires 1 <= |ts| <= Pow2(j)
    ensures PadsAlike(ts, j)
    decreases j
  {
    if j > 0 {
      var k := Pow2(j - 1);
      var l, r := if |ts| <= k then ts else ts[..k], if |ts| <= k then ts else ts[k..];
      PaddedOfPadList(l, j - 1);
      PaddedOfPadList(r, j - 1);
      FullSplit(PadList(l, j - 1), PadList(r, j - 1), j);
    }
  }

  lemma SplitOf(ts: seq<Tree>, j: nat) returns (l: seq<Tree>, r: seq<Tree>)
    requires j >= 1 && |ts| == Pow2(j)
    ensures ts == l + r && |l| == |r| == Pow2(j - 1)
    ensures Padded(ts, j) == Node(Padded(l, j - 1), Padded(r, j - 1))
  {
    l, r := ts[..Pow2(j - 1)], ts[Pow2(j - 1)..];
  }

  /** A perfect tree has one list of leaves. */
  lemma {:induction false} FullTreesDiffer(ts: seq<Tree>, us: seq<Tree>, j: nat)
    requires |ts| == |us| == Pow2(j) && Padded(ts, j) == Padded(us, j)
    ensures ts == us
    decreases j
  {
    if j > 0 {
      var l, r := SplitOf(ts, j);
      var l', r' := SplitOf(us, j);
      FullTreesDiffer(l, l', j - 1);
      FullTreesDiffer(r, r', j - 1);
    }
  }

  /** Padded trees of different heights differ: their left spines end at different depths. */
  lemma {:induction false} PaddedHeightsDiffer(ts: seq<Tree>, i: nat, us: seq<Tree>, j: nat)
    requires AllLeaves(ts) && 1 <= |ts| <= Pow2(i) && 1 <= |us| <= Pow2(j) && i < j
    ensures Padded(ts, i) != Padded(us, j)
    decreases i
  {
    PaddedLeft(us, j);
    if i > 0 {
      PaddedLeft(ts, i);
      PaddedHeightsDiffer(if |ts| <= Pow2(i - 1) then ts else ts[..Pow2(i - 1)], i - 1,
                          if |us| <= Pow2(j - 1) then us else us[..Pow2(j - 1)], j - 1);
    }
  }

  lemma BuildsFromPadList(ts: seq<Tree>, i: nat)
    requires ts != [] && i == Height(|ts|)
    ensures BottomUp(ts) == Padded(ts, i) == Padded(PadList(ts, i), i)
  {
    BottomUpIsPadded(ts);
    PaddedOfPadList(ts, i);
    assert BuildsPadded(ts) && PadsAlike(ts, i);
  }

  lemma DifferentHeights(ts: seq<Tree>, i: nat, us: seq<Tree>, j: nat)
    requires AllLeaves(ts) && 1 <= |ts| <= Pow2(i) && 1 <= |us| <= Pow2(j) && i < j
    ensures Padded(ts, i) != Padded(us, j) && PadList(ts, i) != PadList(us, j)
  {
    PaddedHeightsDiffer(ts, i, us, j);
    Pow2Grows(i, j);
  }

  /** The bottom-up trees of two lists of leaves coincide exactly when the lists pad to the same list. */
  lemma BottomUpSameIff(ts: seq<Tree>, us: seq<Tree>, i: nat, j: nat)
    requires AllLeaves(ts) && AllLeaves(us) && ts != [] && us != [] && i == Height(|ts|) && j == Height(|us|)
    ensures BottomUp(ts) == BottomUp(us) <==> PadList(ts, i) == PadList(us, j)
  {
    BuildsFromPadList(ts, i);
    BuildsFromPadList(us, j);
    if i < j {
      DifferentHeights(ts, i, us, j);
    } else if j < i {
      DifferentHeights(us, j, ts, i);
    } else if BottomUp(ts) == BottomUp(us) {
      FullTreesDiffer(PadList(ts, i), PadList(us, i), i);
    }
  }

  lemma LeavesAppend(a: seq<Bytes>, b: seq<Bytes>)
    ensures Leaves(a + b) == Leaves(a) + Leaves(b)
  {
  }

  /** Padding the leaves is padding the data. */
  predicate LeavesPad(data: seq<Bytes>, j: nat)
    requires 1 <= |data| <= Pow2(j)
  {
    Leaves(PadList(data, j)) == PadList(Leaves(data), j)
  }

  lemma SmallLeavesPad(data: seq<Bytes>, j: nat)
    requires j >= 1 && 1 <= |data| <= Pow2(j - 1) && LeavesPad(data, j - 1)
    ensures LeavesPad(data, j)
  {
    LeavesAppend(PadList(data, j - 1), PadList(data, j - 1));
  }

  lemma SplitLeavesPad(l: seq<Bytes>, r: seq<Bytes>, j: nat)
    requires j >= 1 && |l| == Pow2(j - 1) && 1 <= |r| <= Pow2(j - 1) && LeavesPad(l, j - 1) && LeavesPad(r, j - 1)
    ensures LeavesPad(l + r, j)
  {
    LeavesAppend(l, r);
    assert (l + r)[..|l|] == l && (l + r)[|l|..] == r;
    assert (Leaves(l) + Leaves(r))[..|l|] == Leaves(l) && (Leaves(l) + Leaves(r))[|l|..] == Leaves(r);
    LeavesAppend(PadList(l, j - 1), PadList(r, j - 1));
  }

  lemma {:induction false} LeavesOfPadList(data: seq<Bytes>, j: nat)
    requires 1 <= |data| <= Pow2(j)
    ensures LeavesPad(data, j)
    decreases j
  {
    if j > 0 {
      var k := Pow2(j - 1);
      if |data| <= k {
        LeavesOfPadList(data, j - 1);
        SmallLeavesPad(data, j);
      } else {
        LeavesOfPadList(data[..k], j - 1);
        LeavesOfPadList(data[k..], j - 1);
        SplitLeavesPad(data[..k], data[k..], j);
        assert data[..k] + data[k..] == data;
      }
    }
  }

  lemma SameLeaves(a: seq<Bytes>, b: seq<Bytes>)
    ensures Leaves(a) == Leaves(b) <==> a == b
  {
    if Leaves(a) == Leaves(b) {
      assert |a| == |Leaves(a)| == |Leaves(b)| == |b|;
      forall i | 0 <= i < |a| ensures a[i] == b[i] {
        assert Leaves(a)[i] == Leaf(a[i]) && Leaves(b)[i] == Leaf(b[i]);
      }
    }
  }

  lemma LeavesOfPadListAre(data: seq<Bytes>, j: nat)
    requires 1 <= |data| <= Pow2(j)
    ensures PadList(Leaves(data), j) == Leaves(PadList(data, j))
  {
    LeavesOfPadList(data, j);
    assert LeavesPad(data, j);
  }

  lemma SameTreesIff(a: seq<Bytes>, b: seq<Bytes>, i: nat, j: nat)
    requires a != [] && b != [] && i == Height(|a|) && j == Height(|b|)
    ensures BottomUp(Leaves(a)) == BottomUp(Leaves(b)) <==> PadList(a, i) == PadList(b, j)
  {
    BottomUpSameIff(Leaves(a), Leaves(b), i, j);
    LeavesOfPadListAre(a, i);
    LeavesOfPadListAre(b, j);
    SameLeaves(PadList(a, i), PadList(b, j));
  }

  lemma SameRootsSameTrees(sha: Sha, a: seq<Bytes>, b: seq<Bytes>)
    requires a != [] && b != [] && CollisionFree(sha, RootInputs(sha, a) + RootInputs(sha, b))
    ensures MerkleRoot(sha, a) == MerkleRoot(sha, b) <==> BottomUp(Leaves(a)) == BottomUp(Leaves(b))
  {
    if MerkleRoot(sha, a) == MerkleRoot(sha, b) {
      HashBinds(sha, BottomUp(Leaves(a)), BottomUp(Leaves(b)));
    }
  }

  /**
   * What a root alone binds, exactly: two non-empty lists have the same root if and only if they pad to the same list,
   * each to the least power of two that is at least its length.
   */
  lemma SameRootIff(sha: Sha, a: seq<Bytes>, b: seq<Bytes>)
    requires a != [] && b != [] && CollisionFree(sha, RootInputs(sha, a) + RootInputs(sha, b))
    ensures MerkleRoot(sha, a) == MerkleRoot(sha, b) <==> PadList(a, Height(|a|)) == PadList(b, Height(|b|))
  {
    SameRootsSameTrees(sha, a, b);
    SameTreesIff(a, b, Height(|a|), Height(|b|));
  }
}
