/** A sync cycle of a follower: fetch, verify, install. */
module CatchUp {
  import opened Wrappers
  import opened Bytes
  import opened Merkle
  import opened Blocks
  import opened Chains
  import opened Nodes
  import opened Sync

  /** Commit index and hash that the discovery phase settled on. */
  datatype Target = Target(commitIndex: int, commitHash: seq<byte>)

  datatype Outcome = IsLeader | NoTarget | UpToDate | FetchFailed | ChainRejected | Panicked | Installed

  /** The chain check meets a hash that has no place in the header. */
  ghost predicate Overlong(H: Hasher, start: seq<byte>, blocks: seq<Block>) {
    exists i: nat :: StopsAt(H, start, blocks, i) && blocks[i].prevHash == PrevOf(start, blocks, i) && !Fits(blocks[i])
  }

  /** What one cycle does to a node's committed chain. */
  ghost function Synced(H: Hasher, n: Node, target: Option<Target>, link: Link, sources: nat, shardSize: int)
      : (Node, Outcome)
    requires shardSize >= 1
  {
    if n.isLeader then (n, IsLeader)
    else if target.None? then (n, NoTarget)
    else if |n.chain| >= target.value.commitIndex then (n, UpToDate)
    else
      match ParallelFetch(link, |n.chain| + 1, target.value.commitIndex, sources, shardSize)
      case Err(_) => (n, FetchFailed)
      case Ok(blocks) =>
        if Overlong(H, n.lastHash, blocks) then (n, Panicked)
        else if !Accepts(H, n.lastHash, blocks, target.value.commitHash) then (n, ChainRejected)
        else (n.(chain := n.chain + blocks, lastHash := target.value.commitHash), Installed)
  }

  lemma OverlongExactly(H: Hasher, start: seq<byte>, blocks: seq<Block>, target: seq<byte>, r: Result<(), ChainError>)
    requires r.Ok? <==> Accepts(H, start, blocks, target)
    requires r == Err(FinalMismatch) <==> blocks != [] && Linked(H, start, blocks) && Tip(start, blocks) != target
    requires r.Err? && !r.error.FinalMismatch? ==>
               && StopsAt(H, start, blocks, r.error.i)
               && (r.error.Panics? <==>
                 blocks[r.error.i].prevHash == PrevOf(start, blocks, r.error.i) && !Fits(blocks[r.error.i]))
    ensures Overlong(H, start, blocks) <==> r.Err? && r.error.Panics?
  {
    hide Follows;
    if Overlong(H, start, blocks) {
      var i: nat :| StopsAt(H, start, blocks, i) && blocks[i].prevHash == PrevOf(start, blocks, i) && !Fits(blocks[i]);
      LinkedStep(H, start, blocks, i);
      if r.Err? && !r.error.FinalMismatch? {
        StopsOnce(H, start, blocks, i, r.error.i);
      }
    }
  }

  method StartSync(rn: RaftNode, target: Option<Target>, link: Link, sources: nat, shardSize: int) returns (o: Outcome)
    requires shardSize >= 1 && rn.Valid()
    modifies rn, rn.orderingBlock
    ensures (rn.State(), o) == Synced(rn.H, old(rn.State()), target, link, sources, shardSize)
  {
    hide Accepts, ParallelFetch, Overlong, StopsAt, Follows, Linked, Fits;
    if rn.isLeader {
      return IsLeader;
    }
    if target.None? {
      return NoTarget;
    }
    var localCommit := |rn.orderingBlock.Blocks|;
    if localCommit >= target.value.commitIndex {
      return UpToDate;
    }
    var fetched := FetchBlocksParallel(link, localCommit + 1, target.value.commitIndex, sources, shardSize);
    if fetched.Err? {
      return FetchFailed;
    }
    var blocks := fetched.value;
    var verified := VerifyHashChain(rn.H, rn.lastCommittedHash, blocks, target.value.commitHash);
    OverlongExactly(rn.H, rn.lastCommittedHash, blocks, target.value.commitHash, verified);
    if verified.Err? {
      return if verified.error.Panics? then Panicked else ChainRejected;
    }
    for i := 0 to |blocks|
      invariant rn.State() == old(rn.State()).(chain := old(rn.orderingBlock.Blocks) + blocks[..i])
    {
      assert blocks[..i + 1] == blocks[..i] + [blocks[i]];
      rn.orderingBlock.AppendBlock(blocks[i]);
    }
    assert blocks[..|blocks|] == blocks;
    rn.lastCommittedHash := target.value.commitHash;
    o := Installed;
  }

  // ---- Safety against any source ----

  lemma FetchedCount(link: Link, from: int, upto: int, n: nat, size: int)
    requires size >= 1 && from <= upto
    ensures var r := ParallelFetch(link, from, upto, n, size); r.Ok? ==> |r.value| == upto - from + 1
  {
  }

  /** Whatever the sources send: a cycle either leaves the committed chain alone or
      extends a hash-linked chain to a hash-linked one that has the target's length
      and ends in the target's hash. */
  lemma SyncKeepsChainLinked(H: Hasher, n: Node, target: Option<Target>, link: Link, sources: nat, shardSize: int)
    requires shardSize >= 1 && Linked(H, [], n.chain) && n.lastHash == Tip([], n.chain)
    ensures var (m, o) := Synced(H, n, target, link, sources, shardSize);
            && n.chain <= m.chain && m == n.(chain := m.chain, lastHash := m.lastHash)
            && Linked(H, [], m.chain) && m.lastHash == Tip([], m.chain)
            && (o != Installed ==> m == n)
            && (o == Installed ==>
              target.Some? && |m.chain| == target.value.commitIndex && m.lastHash == target.value.commitHash)
  {
    hide ParallelFetch, Linked, Overlong;
    var (m, o) := Synced(H, n, target, link, sources, shardSize);
    if o == Installed {
      var from, upto := |n.chain| + 1, target.value.commitIndex;
      FetchedCount(link, from, upto, sources, shardSize);
      LinkedConcat(H, [], n.chain, ParallelFetch(link, from, upto, sources, shardSize).value);
    }
  }

  /** Two nodes with the same chain that install up to the same target, from
      whatever sources, carry the same links at every position. */
  lemma SyncedAlike(H: Hasher, n: Node, target: Option<Target>, link: Link, link': Link,
                    sources: nat, sources': nat, shardSize: int, shardSize': int, i: nat)
    requires shardSize >= 1 && shardSize' >= 1 && Linked(H, [], n.chain) && n.lastHash == Tip([], n.chain)
    requires Synced(H, n, target, link, sources, shardSize).1 == Installed
    requires Synced(H, n, target, link', sources', shardSize').1 == Installed
    requires var a, b := Synced(H, n, target, link, sources, shardSize).0.chain,
                         Synced(H, n, target, link', sources', shardSize').0.chain;
             && (forall x | x in a :: Fits(x)) && (forall x | x in b :: Fits(x))
             && CollisionFree(H, Headers(a) + Headers(b))
    requires i < |Synced(H, n, target, link, sources, shardSize).0.chain|
    ensures var a, b := Synced(H, n, target, link, sources, shardSize).0.chain,
                        Synced(H, n, target, link', sources', shardSize').0.chain;
            |a| == |b| && SameLinks(a[i], b[i])
  {
    SyncKeepsChainLinked(H, n, target, link, sources, shardSize);
    SyncKeepsChainLinked(H, n, target, link', sources', shardSize');
    hide Synced, Linked, CollisionFree, SameLinks;
    var a, b := Synced(H, n, target, link, sources, shardSize).0.chain,
                Synced(H, n, target, link', sources', shardSize').0.chain;
    NoFork(H, [], a, b, i);
  }

  // ---- Liveness with honest sources ----

  lemma ContinuesChain(H: Hasher, chain: seq<Block>, d: nat, k: nat)
    requires Linked(H, [], chain) && d < k <= |chain|
    ensures var start, blocks := PrevOf([], chain, d), chain[d..k];
            && Linked(H, start, blocks) && Tip(start, blocks) == chain[k - 1].hash
            && chain[..d] + blocks == chain[..k]
            && blocks[0].prevHash == start
  {
    hide Linked, Follows;
    LinkedPrefix(H, [], chain, k);
    LinkedSuffix(H, [], chain[..k], d);
    assert PrevOf([], chain[..k], d) == PrevOf([], chain, d);
    assert chain[..k][d..] == chain[d..k];
    LinkedStep(H, [], chain, d);
    FollowsPrev(H, PrevOf([], chain, d), chain[d]);
  }

  lemma FollowsPrev(H: Hasher, prev: seq<byte>, b: Block)
    requires Follows(H, prev, b)
    ensures b.prevHash == prev
  {
    hide BlockHash, Fits;
  }

  /** Blocks that are linked anywhere fit their headers. */
  lemma LinkedNotOverlong(H: Hasher, start: seq<byte>, prev: seq<byte>, blocks: seq<Block>)
    requires Linked(H, prev, blocks)
    ensures !Overlong(H, start, blocks)
  {
    forall i | 0 <= i < |blocks| ensures Fits(blocks[i]) {
      assert Follows(H, PrevOf(prev, blocks, i), blocks[i]);
    }
  }

  /** A list that starts from another hash is not accepted. */
  lemma WrongStart(H: Hasher, start: seq<byte>, blocks: seq<Block>)
    requires blocks != [] && blocks[0].prevHash != start
    ensures !Linked(H, start, blocks)
  {
    assert !Follows(H, PrevOf(start, blocks, 0), blocks[0]);
  }

  /** With sources that hold beginnings of one hash-linked chain, a cycle towards a
      block of that chain has exactly three outcomes: some shard was not answered in
      full and nothing changes; the follower's tip is not the chain's block at its
      height, and nothing changes; or the missing blocks are appended, which makes
      a follower that held a prefix hold the chain up to the target. */
  lemma HonestSyncExactly(H: Hasher, n: Node, chain: seq<Block>, k: nat, link: Link, sources: nat, shardSize: int)
    requires shardSize >= 1 && sources > 0 && !n.isLeader
    requires Linked(H, [], chain) && |n.chain| < k <= |chain|
    requires Honest(link, chain, |n.chain| + 1, k, sources, shardSize)
    ensures var (m, o) := Synced(H, n, Some(Target(k, chain[k - 1].hash)), link, sources, shardSize);
            var full := AllFull(link, |n.chain| + 1, k, sources, shardSize, NumShards(k - |n.chain|, shardSize));
            && (o == FetchFailed <==> !full)
            && (o == ChainRejected <==> full && n.lastHash != PrevOf([], chain, |n.chain|))
            && (o == Installed <==> full && n.lastHash == PrevOf([], chain, |n.chain|))
            && (o != Installed ==> m == n)
            && (o == Installed ==> m == n.(chain := n.chain + chain[|n.chain|..k], lastHash := chain[k - 1].hash))
            && (o == Installed && n.chain <= chain ==> m.chain == chain[..k])
  {
    hide ParallelFetch, Linked, Honest, AllFull, NumShards, Overlong;
    FetchReassembles(link, chain, |n.chain| + 1, k, sources, shardSize);
    ContinuesChain(H, chain, |n.chain|, k);
    LinkedNotOverlong(H, n.lastHash, PrevOf([], chain, |n.chain|), chain[|n.chain|..k]);
    if n.lastHash != PrevOf([], chain, |n.chain|) {
      WrongStart(H, n.lastHash, chain[|n.chain|..k]);
    }
    assert n.chain <= chain ==> n.chain == chain[..|n.chain|];
  }
}
