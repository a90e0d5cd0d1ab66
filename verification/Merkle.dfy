/** Merkle roots: the parallel and the two sequential computations, what they
    agree on, and how far a root binds the transaction ids. */
module Merkle {
  import opened Bytes

  /** All ids fill the 32 bytes that the tree copies of them. */
  predicate Long(hs: seq<seq<byte>>) {
    forall i | 0 <= i < |hs| :: |hs[i]| >= 32
  }

  // ---- The tree ----

  /** The 64 bytes hashed for node `j`: its two children, the last one doubled
      when it has no sibling. */
  function NodeInput(hs: seq<seq<byte>>, j: nat): seq<byte>
    requires Long(hs) && 2 * j < |hs|
  {
    var right := if 2 * j + 1 < |hs| then 2 * j + 1 else 2 * j;
    hs[2 * j][..32] + hs[right][..32]
  }

  function NodeHash(H: Hasher, hs: seq<seq<byte>>, j: nat): (d: seq<byte>)
    requires Long(hs) && 2 * j < |hs|
    ensures |d| == 32
  {
    H(NodeInput(hs, j))
  }

  function NextLevel(H: Hasher, hs: seq<seq<byte>>): (r: seq<seq<byte>>)
    requires Long(hs)
    ensures |r| == (|hs| + 1) / 2
    ensures Long(r) && forall j | 0 <= j < |r| :: r[j] == NodeHash(H, hs, j)
  {
    seq((|hs| + 1) / 2, j requires 0 <= j < (|hs| + 1) / 2 => NodeHash(H, hs, j))
  }

  function Fold(H: Hasher, hs: seq<seq<byte>>): seq<byte>
    requires Long(hs) && hs != []
    decreases |hs|
  {
    if |hs| == 1 then hs[0] else Fold(H, NextLevel(H, hs))
  }

  function Root(H: Hasher, txids: seq<seq<byte>>): seq<byte>
    requires Long(txids)
  {
    if txids == [] then ZERO32
    else if |txids| == 1 then H(txids[0])
    else Fold(H, txids)
  }

  // ---- The tree as computed through one reused 64-byte buffer ----

  /** `copy` into one half of the buffer: a short source leaves stale bytes. */
  function Copied(buf: seq<byte>, at: nat, src: seq<byte>): (r: seq<byte>)
    requires |buf| == 64 && at <= 32
    ensures |r| == 64
  {
    var n := if |src| < 32 then |src| else 32;
    buf[..at] + src[..n] + buf[at + n..]
  }

  function Loaded(buf: seq<byte>, hs: seq<seq<byte>>, j: nat): (r: seq<byte>)
    requires |buf| == 64 && 2 * j < |hs|
    ensures |r| == 64
    ensures Long(hs) ==> r == NodeInput(hs, j)
  {
    var right := if 2 * j + 1 < |hs| then 2 * j + 1 else 2 * j;
    Copied(Copied(buf, 0, hs[2 * j]), 32, hs[right])
  }

  /** The first `n` nodes of the next level, and the buffer they leave. */
  function LevelUpTo(H: Hasher, buf: seq<byte>, hs: seq<seq<byte>>, n: nat): (r: (seq<seq<byte>>, seq<byte>))
    requires |buf| == 64 && n <= (|hs| + 1) / 2
    ensures |r.0| == n && |r.1| == 64
    ensures forall j | 0 <= j < n :: |r.0[j]| == 32
    ensures Long(hs) ==> forall j | 0 <= j < n :: r.0[j] == NodeHash(H, hs, j)
  {
    if n == 0 then ([], buf)
    else
      var (done, b) := LevelUpTo(H, buf, hs, n - 1);
      var loaded := Loaded(b, hs, n - 1);
      (done + [H(loaded)], loaded)
  }

  function BufferedFold(H: Hasher, buf: seq<byte>, hs: seq<seq<byte>>): seq<byte>
    requires |buf| == 64 && hs != []
    decreases |hs|
  {
    if |hs| == 1 then hs[0]
    else
      var (next, b) := LevelUpTo(H, buf, hs, (|hs| + 1) / 2);
      BufferedFold(H, b, next)
  }

  /** The sequential computation on ids of any length. */
  function SequentialRoot(H: Hasher, txids: seq<seq<byte>>): seq<byte> {
    if txids == [] then ZERO32
    else if |txids| == 1 then H(txids[0])
    else BufferedFold(H, ZeroBytes(64), txids)
  }

  lemma {:induction false} BufferedFoldIsFold(H: Hasher, buf: seq<byte>, hs: seq<seq<byte>>)
    requires |buf| == 64 && hs != [] && Long(hs)
    ensures BufferedFold(H, buf, hs) == Fold(H, hs)
    decreases |hs|
  {
    if |hs| > 1 {
      var (next, b) := LevelUpTo(H, buf, hs, (|hs| + 1) / 2);
      assert next == NextLevel(H, hs);
      BufferedFoldIsFold(H, b, next);
    }
  }

  lemma SequentialIsRoot(H: Hasher, txids: seq<seq<byte>>)
    requires Long(txids)
    ensures SequentialRoot(H, txids) == Root(H, txids)
  {
    if |txids| > 1 {
      BufferedFoldIsFold(H, ZeroBytes(64), txids);
    }
  }

  lemma {:induction false} FoldIsDigest(H: Hasher, buf: seq<byte>, hs: seq<seq<byte>>)
    requires |buf| == 64 && hs != [] && (|hs| == 1 ==> |hs[0]| == 32)
    ensures |BufferedFold(H, buf, hs)| == 32
    decreases |hs|
  {
    if |hs| > 1 {
      var (next, b) := LevelUpTo(H, buf, hs, (|hs| + 1) / 2);
      FoldIsDigest(H, b, next);
    }
  }

  lemma RootIsDigest(H: Hasher, txids: seq<Text>)
    ensures |SequentialRoot(H, txids)| == 32
  {
    if |txids| > 1 {
      FoldIsDigest(H, ZeroBytes(64), txids);
    }
  }

  /** The roots of small lists, written out: thirty-two zeros, the hash of a single id, and
      trees whose left child is the earlier one and whose last child is doubled when alone. */
  lemma SmallRoots(H: Hasher, a: seq<byte>, b: seq<byte>, c: seq<byte>)
    requires |a| >= 32 && |b| >= 32 && |c| >= 32
    ensures Root(H, []) == seq(32, _ => 0)
    ensures Root(H, [a]) == H(a)
    ensures Root(H, [a, b]) == H(a[..32] + b[..32])
    ensures Root(H, [a, b, c]) == H(H(a[..32] + b[..32]) + H(c[..32] + c[..32]))
  {
    var two, three := NextLevel(H, [a, b]), NextLevel(H, [a, b, c]);
    var l: seq<byte>, r: seq<byte> := H(a[..32] + b[..32]), H(c[..32] + c[..32]);
    assert two == [l] && three == [l, r] && Fold(H, [a, b]) == Fold(H, two);
    assert l[..32] == l && r[..32] == r;
    var top: seq<seq<byte>> := [H(l + r)];
    assert NextLevel(H, three) == top;
    assert Fold(H, three) == Fold(H, top);
  }

  /** Short ids, through the reused buffer: two fill it up with zeros; of three, the last
      one overwrites only the front of both halves. */
  lemma ShortRoots(H: Hasher, a: seq<byte>, b: seq<byte>, c: seq<byte>)
    requires |a| <= 32 && |b| <= 32 && |c| <= 32
    ensures var left, right := a + ZeroBytes(32 - |a|), b + ZeroBytes(32 - |b|);
            && SequentialRoot(H, []) == seq(32, _ => 0)
            && SequentialRoot(H, [a]) == H(a)
            && SequentialRoot(H, [a, b]) == H(left + right)
            && SequentialRoot(H, [a, b, c]) == H(H(left + right) + H((c + left[|c|..]) + (c + right[|c|..])))
  {
    hide ZeroBytes, BufferedFold, Copied;
    var left, right := a + ZeroBytes(32 - |a|), b + ZeroBytes(32 - |b|);
    FilledUp(a, b);
    TwoLeaves(H, ZeroBytes(64), [a, b]);
    CopiedHalves(left, right, c, c);
    ThreeLeaves(H, ZeroBytes(64), [a, b, c], left + right, (c + left[|c|..]) + (c + right[|c|..]));
  }

  lemma FilledUp(a: seq<byte>, b: seq<byte>)
    requires |a| <= 32 && |b| <= 32
    ensures Copied(Copied(ZeroBytes(64), 0, a), 32, b) == (a + ZeroBytes(32 - |a|)) + (b + ZeroBytes(32 - |b|))
  {
    hide *;
    var zeros := ZeroBytes(32);
    ZeroSplit(32 - |a|);
    ZeroSplit(32 - |b|);
    CopiedHalves(zeros, zeros, a, b);
  }

  lemma CopiedHalves(left: seq<byte>, right: seq<byte>, a: seq<byte>, b: seq<byte>)
    requires |left| == 32 && |right| == 32 && |a| <= 32 && |b| <= 32
    ensures Copied(Copied(left + right, 0, a), 32, b) == (a + left[|a|..]) + (b + right[|b|..])
  {
    assert Copied(left + right, 0, a) == a + left[|a|..] + right;
  }

  lemma ZeroSplit(n: nat)
    requires n <= 32
    ensures ZeroBytes(64) == ZeroBytes(32) + ZeroBytes(32) && ZeroBytes(32)[32 - n..] == ZeroBytes(n)
  {
    hide ZeroBytes;
  }

  lemma TwoLeaves(H: Hasher, buf: seq<byte>, hs: seq<seq<byte>>)
    requires |buf| == 64 && |hs| == 2
    ensures BufferedFold(H, buf, hs) == H(Copied(Copied(buf, 0, hs[0]), 32, hs[1]))
  {
    hide Copied;
    var loaded := Copied(Copied(buf, 0, hs[0]), 32, hs[1]);
    assert Loaded(buf, hs, 0) == loaded && LevelUpTo(H, buf, hs, 0) == ([], buf);
    assert LevelUpTo(H, buf, hs, 1) == ([] + [H(loaded)], loaded);
    assert BufferedFold(H, loaded, [H(loaded)]) == H(loaded);
  }

  lemma ThreeLeaves(H: Hasher, buf: seq<byte>, hs: seq<seq<byte>>, first: seq<byte>, second: seq<byte>)
    requires |buf| == 64 && |hs| == 3 && |first| == 64 && |second| == 64
    requires first == Copied(Copied(buf, 0, hs[0]), 32, hs[1])
    requires second == Copied(Copied(first, 0, hs[2]), 32, hs[2])
    ensures BufferedFold(H, buf, hs) == H(H(first) + H(second))
  {
    hide Copied;
    assert Loaded(buf, hs, 0) == first && Loaded(first, hs, 1) == second && LevelUpTo(H, buf, hs, 0) == ([], buf);
    assert LevelUpTo(H, buf, hs, 1) == ([] + [H(first)], first);
    assert LevelUpTo(H, buf, hs, 2) == ([] + [H(first)] + [H(second)], second);
    TwoLeaves(H, second, [H(first), H(second)]);
    WholeBuffer(second, H(first), H(second));
  }

  lemma WholeBuffer(buf: seq<byte>, l: Digest, r: Digest)
    requires |buf| == 64
    ensures Copied(Copied(buf, 0, l), 32, r) == l + r
  {
  }

  // ---- The algorithms ----

  method Copy(buf: array<byte>, at: nat, src: seq<byte>)
    requires buf.Length == 64 && at <= 32
    modifies buf
    ensures buf[..] == Copied(old(buf[..]), at, src)
  {
    var n := if |src| < 32 then |src| else 32;
    for i := 0 to n
      invariant forall k | at <= k < at + i :: buf[k] == src[k - at]
      invariant forall k | 0 <= k < 64 && !(at <= k < at + i) :: buf[k] == old(buf[k])
    {
      buf[at + i] := src[i];
    }
  }

  method HashNode(H: Hasher, hashes: seq<seq<byte>>, i: nat, buf: array<byte>) returns (hash: seq<byte>)
    requires buf.Length == 64 && i < |hashes| && i % 2 == 0
    modifies buf
    ensures buf[..] == Loaded(old(buf[..]), hashes, i / 2)
    ensures |hash| == 32 && hash == H(buf[..])
    ensures Long(hashes) ==> hash == NodeHash(H, hashes, i / 2)
  {
    Copy(buf, 0, hashes[i]);
    if i + 1 < |hashes| {
      Copy(buf, 32, hashes[i + 1]);
    } else {
      Copy(buf, 32, hashes[i]);
    }
    hash := H(buf[..]);
  }

  method HashLevel(H: Hasher, hashes: seq<seq<byte>>, buf: array<byte>) returns (next: seq<seq<byte>>)
    requires buf.Length == 64
    modifies buf
    ensures (next, buf[..]) == LevelUpTo(H, old(buf[..]), hashes, (|hashes| + 1) / 2)
  {
    hide Loaded, Long;
    next := [];
    var i := 0;
    while i < |hashes|
      invariant i % 2 == 0 && i <= |hashes| + 1
      invariant (next, buf[..]) == LevelUpTo(H, old(buf[..]), hashes, i / 2)
    {
      var hash := HashNode(H, hashes, i, buf);
      next := next + [hash];
      i := i + 2;
    }
  }

  /** Folds level after level through one buffer. */
  method FoldLevels(H: Hasher, leaves: seq<seq<byte>>) returns (root: seq<byte>)
    requires leaves != []
    ensures root == BufferedFold(H, ZeroBytes(64), leaves)
  {
    hide LevelUpTo, ZeroBytes;
    var hashes := leaves;
    var buf := new byte[64](_ => 0);
    assert buf[..] == ZeroBytes(64);
    while |hashes| > 1
      invariant hashes != []
      invariant BufferedFold(H, buf[..], hashes) == BufferedFold(H, ZeroBytes(64), leaves)
      decreases |hashes|
    {
      hashes := HashLevel(H, hashes, buf);
    }
    root := hashes[0];
  }

  /** A worker's buffer once it has loaded nodes `first` to `j`. */
  function ChunkBuffer(hs: seq<seq<byte>>, first: nat, j: nat): (r: seq<byte>)
    requires 2 * j < |hs|
    ensures |r| == 64
    ensures Long(hs) ==> r == NodeInput(hs, j)
  {
    if j <= first then Loaded(ZeroBytes(64), hs, j) else Loaded(ChunkBuffer(hs, first, j - 1), hs, j)
  }

  function ChunkHash(H: Hasher, hs: seq<seq<byte>>, first: nat, j: nat): (d: seq<byte>)
    requires 2 * j < |hs|
    ensures |d| == 32
    ensures Long(hs) ==> d == NodeHash(H, hs, j)
  {
    H(ChunkBuffer(hs, first, j))
  }

  /** Nodes `from` to `upto` are hashed by one worker and the others as before. */
  ghost predicate Hashed(H: Hasher, hashes: seq<seq<byte>>, before: seq<seq<byte>>, after: seq<seq<byte>>, from: nat,
                         upto: nat)
    requires |before| == |after| == (|hashes| + 1) / 2
  {
    forall j | 0 <= j < |after| ::
      if from <= j < upto then after[j] == ChunkHash(H, hashes, from, j) else after[j] == before[j]
  }

  /** Hashes the pairs from position `start` on, through a buffer of its own. */
  method HashPairs(H: Hasher, hashes: seq<seq<byte>>, start: nat, end: nat, nextLevel: array<seq<byte>>,
                   ghost first: nat)
    requires nextLevel.Length == (|hashes| + 1) / 2 && start == 2 * first && end <= |hashes|
    modifies nextLevel
    ensures Hashed(H, hashes, old(nextLevel[..]), nextLevel[..], first, (end + 1) / 2)
  {
    hide Loaded, Long, NodeHash, ZeroBytes;
    var buf := new byte[64](_ => 0);
    assert buf[..] == ZeroBytes(64);
    var i := start;
    ghost var j := first;
    while i < end
      invariant i == 2 * j && first <= j
      invariant j <= (end + 1) / 2 || j == first
      invariant buf[..] == if j == first then ZeroBytes(64) else ChunkBuffer(hashes, first, j - 1)
      invariant Hashed(H, hashes, old(nextLevel[..]), nextLevel[..], first, j)
    {
      var hash := HashNode(H, hashes, i, buf);
      assert i / 2 == j;
      assert buf[..] == ChunkBuffer(hashes, first, j);
      nextLevel[i / 2] := hash;
      i, j := i + 2, j + 1;
    }
  }

  /** Worker `w` of the parallel first level: it owns `chunkSize` nodes. */
  method RunWorker(H: Hasher, hashes: seq<seq<byte>>, w: nat, chunkSize: nat, nextLevel: array<seq<byte>>)
    requires nextLevel.Length == (|hashes| + 1) / 2
    modifies nextLevel
    ensures Hashed(H, hashes, old(nextLevel[..]), nextLevel[..], w * chunkSize, w * chunkSize + chunkSize)
  {
    hide ChunkHash;
    var n := |hashes|;
    ghost var first := w * chunkSize;
    var start := w * chunkSize * 2;
    assert start == 2 * first;
    var end := start + chunkSize * 2;
    if end > n {
      end := n;
    }
    HashPairs(H, hashes, start, end, nextLevel, first);
  }

  /** The worker whose chunk holds node `j`. */
  function Owner(j: nat, chunkSize: nat): nat
    requires chunkSize > 0
  {
    j / chunkSize
  }

  lemma ChunksBefore(a: nat, b: nat, chunkSize: nat)
    requires a < b
    ensures a * chunkSize + chunkSize <= b * chunkSize
  {
    assert b * chunkSize == a * chunkSize + chunkSize + (b - a - 1) * chunkSize;
  }

  lemma OwnerOf(j: nat, chunkSize: nat, w: nat)
    requires chunkSize > 0
    ensures w * chunkSize <= j < w * chunkSize + chunkSize <==> Owner(j, chunkSize) == w
  {
    var q := j / chunkSize;
    assert q * chunkSize <= j < q * chunkSize + chunkSize;
    if q < w {
      ChunksBefore(q, w, chunkSize);
    } else if w < q {
      ChunksBefore(w, q, chunkSize);
    }
  }

  lemma Scaled(a: int, b: int, c: nat)
    ensures a <= b ==> a * c <= b * c
  {
    if a <= b {
      assert (b - a) * c >= 0;
    }
  }

  lemma Cancel(a: int, b: int, c: nat)
    requires a * c < b * c
    ensures a < b
  {
    Scaled(b, a, c);
  }

  lemma ChunksCover(n: nat, workers: nat, j: nat)
    requires workers >= 1 && j < n
    ensures (n + workers - 1) / workers > 0
    ensures Owner(j, (n + workers - 1) / workers) < workers
  {
    var c := (n + workers - 1) / workers;
    assert n + workers - 1 == c * workers + (n + workers - 1) % workers;
    assert n <= c * workers;
    Cancel(0, c, workers);
    OwnerOf(j, c, j / c);
    Cancel(j / c, workers, c);
  }

  function ChunkSize(n: nat, workers: nat): nat
    requires workers >= 1
  {
    (n + workers - 1) / workers
  }

  /** Node `j` as the worker that owns it computes it. */
  function OwnedHash(H: Hasher, hs: seq<seq<byte>>, chunkSize: nat, j: nat): (d: seq<byte>)
    requires 2 * j < |hs| && chunkSize > 0
    ensures |d| == 32
    ensures Long(hs) ==> d == NodeHash(H, hs, j)
  {
    ChunkHash(H, hs, Owner(j, chunkSize) * chunkSize, j)
  }

  /** The first level as the workers share it, for ids of any length. */
  function SharedLevel(H: Hasher, hs: seq<seq<byte>>, chunkSize: nat): (r: seq<seq<byte>>)
    requires chunkSize > 0
    ensures |r| == (|hs| + 1) / 2 && forall j | 0 <= j < |r| :: r[j] == OwnedHash(H, hs, chunkSize, j)
  {
    seq((|hs| + 1) / 2, j requires 0 <= j < (|hs| + 1) / 2 => OwnedHash(H, hs, chunkSize, j))
  }

  lemma SharedIsNext(H: Hasher, hs: seq<seq<byte>>, chunkSize: nat)
    requires chunkSize > 0 && Long(hs)
    ensures SharedLevel(H, hs, chunkSize) == NextLevel(H, hs)
  {
  }

  /** The first level by `numWorkers` workers that run in any order. */
  method ParallelLevel(H: Hasher, hashes: seq<seq<byte>>, numWorkers: nat, order: seq<nat>)
      returns (next: seq<seq<byte>>)
    requires hashes != [] && numWorkers >= 1 && (forall w | 0 <= w < numWorkers :: w in order)
    ensures var chunkSize := (|hashes| + numWorkers - 1) / numWorkers;
            chunkSize > 0 && next == SharedLevel(H, hashes, chunkSize)
    ensures Long(hashes) ==> next == NextLevel(H, hashes)
  {
    hide ChunkHash, Long, Owner, OwnedHash, NextLevel;
    var n := |hashes|;
    var chunkSize := (n + numWorkers - 1) / numWorkers;
    ChunksCover(n, numWorkers, 0);
    if Long(hashes) {
      SharedIsNext(H, hashes, chunkSize);
    }
    var nextLevel := new seq<byte>[(n + 1) / 2](_ => []);
    for k := 0 to |order|
      invariant forall j | 0 <= j < nextLevel.Length ::
                  Owner(j, chunkSize) in order[..k] ==> nextLevel[j] == OwnedHash(H, hashes, chunkSize, j)
    {
      ghost var before := nextLevel[..];
      RunWorker(H, hashes, order[k], chunkSize, nextLevel);
      assert order[..k + 1] == order[..k] + [order[k]];
      forall j | 0 <= j < nextLevel.Length && Owner(j, chunkSize) in order[..k + 1]
        ensures nextLevel[j] == OwnedHash(H, hashes, chunkSize, j)
      {
        OwnerOf(j, chunkSize, order[k]);
        OwnedIsChunk(H, hashes, chunkSize, j);
        assert nextLevel[j] == nextLevel[..][j]
               && (Owner(j, chunkSize) in order[..k] ==> before[j] == OwnedHash(H, hashes, chunkSize, j));
      }
    }
    assert order[..|order|] == order;
    forall j | 0 <= j < nextLevel.Length ensures nextLevel[j] == OwnedHash(H, hashes, chunkSize, j) {
      ChunksCover(n, numWorkers, j);
    }
    next := nextLevel[..];
  }

  lemma OwnedIsChunk(H: Hasher, hs: seq<seq<byte>>, chunkSize: nat, j: nat)
    requires 2 * j < |hs| && chunkSize > 0
    ensures OwnedHash(H, hs, chunkSize, j) == ChunkHash(H, hs, Owner(j, chunkSize) * chunkSize, j)
  {
  }

  /** The workers share the first level in stretches of `chunkSize` nodes: each stretch starts
      with a clean buffer, and within it every node is loaded over the one before. */
  lemma StretchesOfNodes(H: Hasher, hs: seq<seq<byte>>, chunkSize: nat, w: nat, k: nat)
    requires k < chunkSize && 2 * (w * chunkSize + k) < |hs|
    ensures var j := w * chunkSize + k;
            && SharedLevel(H, hs, chunkSize)[j] == H(ChunkBuffer(hs, w * chunkSize, j))
            && ChunkBuffer(hs, w * chunkSize, j) ==
                 Loaded(if k == 0 then ZeroBytes(64) else ChunkBuffer(hs, w * chunkSize, j - 1), hs, j)
  {
    OwnerOf(w * chunkSize + k, chunkSize, w);
    hide Owner, Loaded, ZeroBytes;
  }

  /** The ordering service's root of ids of any length. */
  ghost function RootBy(H: Hasher, txids: seq<seq<byte>>, numWorkers: nat): seq<byte>
    requires numWorkers >= 1
  {
    if |txids| <= 1000 then SequentialRoot(H, txids)
    else
      var chunkSize := ChunkSize(|txids|, numWorkers);
      if chunkSize == 0 then [] else BufferedFold(H, ZeroBytes(64), SharedLevel(H, txids, chunkSize))
  }

  lemma FoldStep(H: Hasher, hs: seq<seq<byte>>)
    requires Long(hs) && |hs| > 1
    ensures Fold(H, hs) == Fold(H, NextLevel(H, hs))
  {
  }

  /** The ordering service's root. */
  method ComputeMerkleRoot(H: Hasher, txids: seq<seq<byte>>, numWorkers: nat, order: seq<nat>) returns (root: seq<byte>)
    requires numWorkers >= 1 && (forall w | 0 <= w < numWorkers :: w in order)
    ensures |root| == 32 && root == RootBy(H, txids, numWorkers)
    ensures |txids| <= 1000 ==> root == SequentialRoot(H, txids)
    ensures Long(txids) ==> root == Root(H, txids)
  {
    hide SharedLevel, NextLevel, Long, Fold, ZeroBytes, BufferedFold;
    var n := |txids|;
    if Long(txids) {
      SequentialIsRoot(H, txids);
    }
    if n == 0 {
      return ZERO32;
    }
    if n == 1 {
      return H(txids[0]);
    }
    var hashes := txids;
    if n > 1000 {
      hashes := ParallelLevel(H, hashes, numWorkers, order);
    }
    if Long(txids) {
      assert Long(hashes);
      FoldStep(H, txids);
      BufferedFoldIsFold(H, ZeroBytes(64), hashes);
    }
    FoldIsDigest(H, ZeroBytes(64), hashes);
    root := FoldLevels(H, hashes);
  }

  /** The commit peer's root, as text. */
  method PeerMerkleRoot(H: Hasher, txids: seq<seq<byte>>) returns (root: Text)
    ensures root == HexOf(SequentialRoot(H, txids))
    ensures Long(txids) ==> root == HexOf(Root(H, txids))
  {
    if Long(txids) {
      SequentialIsRoot(H, txids);
    }
    var n := |txids|;
    if n == 0 {
      return HexOf(ZERO32);
    }
    if n == 1 {
      return HexOf(H(txids[0]));
    }
    var r := FoldLevels(H, txids);
    root := HexOf(r);
  }

  // ---- Binding ----

  /** No two of the given inputs share a hash. */
  ghost predicate CollisionFree(H: Hasher, inputs: set<seq<byte>>) {
    forall x, y | x in inputs && y in inputs && H(x) == H(y) :: x == y
  }

  /** Everything hashed inside the tree over `hs`. */
  function TreeInputs(H: Hasher, hs: seq<seq<byte>>): set<seq<byte>>
    requires Long(hs)
    decreases |hs|
  {
    if |hs| <= 1 then {}
    else (set j | 0 <= j < (|hs| + 1) / 2 :: NodeInput(hs, j)) + TreeInputs(H, NextLevel(H, hs))
  }

  predicate SameHeads(hs: seq<seq<byte>>, gs: seq<seq<byte>>)
    requires Long(hs) && Long(gs) && |hs| == |gs|
  {
    forall i | 0 <= i < |hs| :: hs[i][..32] == gs[i][..32]
  }

  lemma SameNodesSameHeads(hs: seq<seq<byte>>, gs: seq<seq<byte>>)
    requires Long(hs) && Long(gs) && |hs| == |gs|
    requires forall j | 0 <= j < (|hs| + 1) / 2 :: NodeInput(hs, j) == NodeInput(gs, j)
    ensures SameHeads(hs, gs)
  {
    forall i | 0 <= i < |hs| ensures hs[i][..32] == gs[i][..32] {
      var x, y := NodeInput(hs, i / 2), NodeInput(gs, i / 2);
      if i % 2 == 0 {
        assert hs[i][..32] == x[..32] == y[..32] == gs[i][..32];
      } else {
        assert hs[i][..32] == x[32..] == y[32..] == gs[i][..32];
      }
    }
  }

  lemma OneSameHead(hs: seq<seq<byte>>, gs: seq<seq<byte>>)
    requires Long(hs) && Long(gs) && |hs| == |gs| == 1 && hs == gs
    ensures SameHeads(hs, gs)
  {
  }

  /** Equal hashes of a level have equal inputs. */
  lemma NodeBinds(H: Hasher, hs: seq<seq<byte>>, gs: seq<seq<byte>>, j: nat)
    requires Long(hs) && Long(gs) && |hs| == |gs| > 1 && 2 * j < |hs|
    requires CollisionFree(H, TreeInputs(H, hs) + TreeInputs(H, gs))
    requires SameHeads(NextLevel(H, hs), NextLevel(H, gs))
    ensures NodeInput(hs, j) == NodeInput(gs, j)
  {
    hide NodeInput;
    var h, g := NextLevel(H, hs), NextLevel(H, gs);
    assert h[j][..32] == h[j] && g[j][..32] == g[j];
    assert NodeInput(hs, j) in TreeInputs(H, hs) && NodeInput(gs, j) in TreeInputs(H, gs);
  }

  lemma {:induction false} FoldBinds(H: Hasher, hs: seq<seq<byte>>, gs: seq<seq<byte>>)
    requires Long(hs) && Long(gs) && |hs| == |gs| > 0
    requires CollisionFree(H, TreeInputs(H, hs) + TreeInputs(H, gs))
    requires |hs| == 1 ==> |hs[0]| == 32 && |gs[0]| == 32
    requires Fold(H, hs) == Fold(H, gs)
    ensures SameHeads(hs, gs)
    decreases |hs|
  {
    hide NodeInput, SameHeads;
    if |hs| > 1 {
      var h, g := NextLevel(H, hs), NextLevel(H, gs);
      FoldBinds(H, h, g);
      forall j | 0 <= j < (|hs| + 1) / 2 ensures NodeInput(hs, j) == NodeInput(gs, j) {
        NodeBinds(H, hs, gs, j);
      }
      SameNodesSameHeads(hs, gs);
    } else {
      assert SameHeads(hs, gs) by { OneSameHead(hs, gs); }
    }
  }

  lemma SameHeadsSameRoot(H: Hasher, hs: seq<seq<byte>>, gs: seq<seq<byte>>)
    requires Long(hs) && Long(gs) && |hs| == |gs| >= 2 && SameHeads(hs, gs)
    ensures Fold(H, hs) == Fold(H, gs)
  {
    assert NextLevel(H, hs) == NextLevel(H, gs);
  }

  /** For lists of one length n >= 2: equal roots exactly when every id agrees on
      the 32 bytes the tree copies, odd levels included. */
  lemma RootBinds(H: Hasher, s: seq<seq<byte>>, t: seq<seq<byte>>)
    requires Long(s) && Long(t) && |s| == |t| >= 2
    requires CollisionFree(H, TreeInputs(H, s) + TreeInputs(H, t))
    ensures Root(H, s) == Root(H, t) <==> SameHeads(s, t)
  {
    if Root(H, s) == Root(H, t) {
      FoldBinds(H, s, t);
    } else if SameHeads(s, t) {
      SameHeadsSameRoot(H, s, t);
    }
  }

  /** The length matters: repeating the last of an odd number of ids, at least
      three, keeps the root, whatever the hash. */
  lemma RepeatedTailKeepsRoot(H: Hasher, txids: seq<seq<byte>>)
    requires Long(txids) && |txids| >= 3 && |txids| % 2 == 1
    ensures Long(txids + [txids[|txids| - 1]])
    ensures Root(H, txids + [txids[|txids| - 1]]) == Root(H, txids)
  {
    var longer := txids + [txids[|txids| - 1]];
    forall j | 0 <= j < (|txids| + 1) / 2 ensures NodeInput(longer, j) == NodeInput(txids, j) {
    }
    assert NextLevel(H, longer) == NextLevel(H, txids);
  }
}
