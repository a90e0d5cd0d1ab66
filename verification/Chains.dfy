/** Hash chains: what the check of a fetched list of blocks establishes. */
module Chains {
  import opened Wrappers
  import opened Bytes
  import opened Merkle
  import opened Blocks

  /** Hash that the block at position `i` has to point to. */
  function PrevOf(start: seq<byte>, blocks: seq<Block>, i: nat): seq<byte>
    requires i <= |blocks|
  {
    if i == 0 then start else blocks[i - 1].hash
  }

  function Tip(start: seq<byte>, blocks: seq<Block>): seq<byte> {
    PrevOf(start, blocks, |blocks|)
  }

  predicate Follows(H: Hasher, prev: seq<byte>, b: Block) {
    Fits(b) && b.prevHash == prev && b.hash == BlockHash(H, b)
  }

  predicate Linked(H: Hasher, start: seq<byte>, blocks: seq<Block>) {
    forall i {:trigger PrevOf(start, blocks, i)} | 0 <= i < |blocks| :: Follows(H, PrevOf(start, blocks, i), blocks[i])
  }

  predicate Accepts(H: Hasher, start: seq<byte>, blocks: seq<Block>, target: seq<byte>) {
    blocks == [] || (Linked(H, start, blocks) && Tip(start, blocks) == target)
  }

  /** `Panics`: a hash has no place in the header. */
  datatype ChainError = PrevMismatch(i: nat) | Panics(i: nat) | WrongHash(i: nat) | FinalMismatch

  lemma LinkedStep(H: Hasher, start: seq<byte>, blocks: seq<Block>, i: nat)
    requires i < |blocks|
    ensures Linked(H, start, blocks[..i + 1]) <==>
              Linked(H, start, blocks[..i]) && Follows(H, PrevOf(start, blocks, i), blocks[i])
    ensures Linked(H, start, blocks) ==> Follows(H, PrevOf(start, blocks, i), blocks[i])
    ensures i == 0 ==> Linked(H, start, blocks[..i])
  {
    hide Follows;
    var a, b := blocks[..i], blocks[..i + 1];
    assert forall j {:trigger PrevOf(start, a, j)} {:trigger PrevOf(start, b, j)} | 0 <= j < i ::
        a[j] == b[j] && PrevOf(start, a, j) == PrevOf(start, b, j);
    assert b[i] == blocks[i] && PrevOf(start, b, i) == PrevOf(start, blocks, i);
  }

  /** The check stops at block `i`, because its links do not follow. */
  predicate StopsAt(H: Hasher, start: seq<byte>, blocks: seq<Block>, i: nat) {
    i < |blocks| && Linked(H, start, blocks[..i]) && !Follows(H, PrevOf(start, blocks, i), blocks[i])
  }

  method VerifyHashChain(H: Hasher, startHash: seq<byte>, blocks: seq<Block>, expectedFinalHash: seq<byte>)
    returns (r: Result<(), ChainError>)
    ensures r.Ok? <==> Accepts(H, startHash, blocks, expectedFinalHash)
    ensures r == Err(FinalMismatch) <==>
              blocks != [] && Linked(H, startHash, blocks) && Tip(startHash, blocks) != expectedFinalHash
    ensures r.Err? && !r.error.FinalMismatch? ==>
              && StopsAt(H, startHash, blocks, r.error.i)
              && (r.error.PrevMismatch? <==> blocks[r.error.i].prevHash != PrevOf(startHash, blocks, r.error.i))
              && (r.error.Panics? <==>
                blocks[r.error.i].prevHash == PrevOf(startHash, blocks, r.error.i) && !Fits(blocks[r.error.i]))
  {
    hide BlockHash, Linked;
    if |blocks| == 0 {
      return Ok(());
    }
    var prev := startHash;
    LinkedStep(H, startHash, blocks, 0);
    for i := 0 to |blocks|
      invariant prev == PrevOf(startHash, blocks, i)
      invariant Linked(H, startHash, blocks[..i])
    {
      var b := blocks[i];
      LinkedStep(H, startHash, blocks, i);
      if b.prevHash != prev {
        return Err(PrevMismatch(i));
      }
      if |b.prevHash| > 32 || |b.merkleRoot| > 32 {
        return Err(ChainError.Panics(i));
      }
      var recomputed := BlockHash(H, b);
      if recomputed != b.hash {
        return Err(WrongHash(i));
      }
      prev := b.hash;
    }
    assert blocks[..|blocks|] == blocks;
    if prev != expectedFinalHash {
      return Err(FinalMismatch);
    }
    r := Ok(());
  }

  lemma BeforeStop(H: Hasher, start: seq<byte>, blocks: seq<Block>, i: nat, j: nat)
    requires StopsAt(H, start, blocks, j) && i < j
    ensures Follows(H, PrevOf(start, blocks, i), blocks[i])
  {
    assert Follows(H, PrevOf(start, blocks[..j], i), blocks[..j][i]);
  }

  /** The check stops at one block only. */
  lemma StopsOnce(H: Hasher, start: seq<byte>, blocks: seq<Block>, i: nat, j: nat)
    requires StopsAt(H, start, blocks, i) && StopsAt(H, start, blocks, j)
    ensures i == j
  {
    hide Follows;
    if i < j {
      BeforeStop(H, start, blocks, i, j);
    } else if j < i {
      BeforeStop(H, start, blocks, j, i);
    }
  }

  // ---- Composition ----

  lemma LinkedPrefix(H: Hasher, start: seq<byte>, blocks: seq<Block>, n: nat)
    requires Linked(H, start, blocks) && n <= |blocks|
    ensures Linked(H, start, blocks[..n]) && Tip(start, blocks[..n]) == PrevOf(start, blocks, n)
  {
    hide Follows;
    var a := blocks[..n];
    assert forall i | 0 <= i < n :: a[i] == blocks[i] && PrevOf(start, a, i) == PrevOf(start, blocks, i);
  }

  lemma LinkedSuffix(H: Hasher, start: seq<byte>, blocks: seq<Block>, n: nat)
    requires Linked(H, start, blocks) && n <= |blocks|
    ensures Linked(H, PrevOf(start, blocks, n), blocks[n..])
    ensures Tip(PrevOf(start, blocks, n), blocks[n..]) == Tip(start, blocks)
  {
    hide Follows;
    var mid, rest := PrevOf(start, blocks, n), blocks[n..];
    forall i | 0 <= i < |rest| ensures Follows(H, PrevOf(mid, rest, i), rest[i]) {
      assert Follows(H, PrevOf(start, blocks, n + i), blocks[n + i]);
    }
  }

  lemma LinkedAppend(H: Hasher, start: seq<byte>, blocks: seq<Block>, b: Block)
    requires Linked(H, start, blocks) && Follows(H, Tip(start, blocks), b)
    ensures Linked(H, start, blocks + [b])
  {
    hide Linked, Follows;
    var c := blocks + [b];
    assert c[..|blocks|] == blocks && c[..|blocks| + 1] == c;
    LinkedStep(H, start, c, |blocks|);
  }

  /** Appending a list that continues the chain keeps it linked. */
  lemma LinkedConcat(H: Hasher, start: seq<byte>, a: seq<Block>, b: seq<Block>)
    requires Linked(H, start, a) && Linked(H, Tip(start, a), b)
    ensures Linked(H, start, a + b) && Tip(start, a + b) == Tip(Tip(start, a), b)
  {
    hide Follows;
    var c := a + b;
    forall i | 0 <= i < |c| ensures Follows(H, PrevOf(start, c, i), c[i]) {
      if i < |a| {
        assert Follows(H, PrevOf(start, a, i), a[i]);
      } else {
        assert Follows(H, PrevOf(Tip(start, a), b, i - |a|), b[i - |a|]);
      }
    }
  }

  // ---- Fork-freeness ----

  function Headers(blocks: seq<Block>): set<seq<byte>>
    requires forall b | b in blocks :: Fits(b)
  {
    set i | 0 <= i < |blocks| :: HeaderOf(blocks[i])
  }

  /** The blocks agree in their header and in the hashes they carry. */
  predicate SameLinks(a: Block, b: Block)
    requires Fits(a) && Fits(b)
  {
    SameHeader(a, b) && a.prevHash == b.prevHash && a.hash == b.hash
  }

  /** From the common target back to the start, no two lists can part. */
  lemma {:induction false} NoFork(H: Hasher, start: seq<byte>, a: seq<Block>, b: seq<Block>, i: nat)
    requires Linked(H, start, a) && Linked(H, start, b) && |a| == |b| && i < |a|
    requires Tip(start, a) == Tip(start, b)
    requires (forall x | x in a :: Fits(x)) && (forall x | x in b :: Fits(x))
    requires CollisionFree(H, Headers(a) + Headers(b))
    ensures SameLinks(a[i], b[i])
    decreases |a| - i
  {
    hide HeaderOf, SameHeader, BlockHash;
    assert Follows(H, PrevOf(start, a, i), a[i]) && Follows(H, PrevOf(start, b, i), b[i]);
    if i < |a| - 1 {
      NoFork(H, start, a, b, i + 1);
      assert PrevOf(start, a, i + 1) == a[i].hash && PrevOf(start, b, i + 1) == b[i].hash;
    }
    assert a[i].hash == b[i].hash;
    assert HeaderOf(a[i]) in Headers(a) && HeaderOf(b[i]) in Headers(b);
    SameHashSameLinks(H, a[i], b[i]);
    if i > 0 {
      assert Follows(H, PrevOf(start, a, i - 1), a[i - 1]) && Follows(H, PrevOf(start, b, i - 1), b[i - 1]);
    }
  }

  lemma SameHashSameLinks(H: Hasher, x: Block, y: Block)
    requires Fits(x) && Fits(y) && x.hash == BlockHash(H, x) && y.hash == BlockHash(H, y) && x.hash == y.hash
    requires CollisionFree(H, {HeaderOf(x), HeaderOf(y)})
    ensures SameHeader(x, y)
    ensures |x.prevHash| == |y.prevHash| ==> x.prevHash == y.prevHash
  {
    HeaderDetermines(x, y);
    if |x.prevHash| == |y.prevHash| && SameHeader(x, y) {
      PadInjective(x.prevHash, y.prevHash);
    }
  }

  lemma SameLinksAccepted(H: Hasher, start: seq<byte>, a: seq<Block>, b: seq<Block>)
    requires a != [] && |a| == |b| && Linked(H, start, a)
    requires (forall x | x in a :: Fits(x)) && (forall x | x in b :: Fits(x))
    requires forall i | 0 <= i < |a| :: SameLinks(a[i], b[i])
    ensures Linked(H, start, b) && Tip(start, b) == Tip(start, a)
  {
    hide HeaderOf, SameHeader;
    forall i | 0 <= i < |b| ensures Follows(H, PrevOf(start, b, i), b[i]) {
      assert Follows(H, PrevOf(start, a, i), a[i]);
      assert SameLinks(a[i], b[i]);
      HeaderDetermines(a[i], b[i]);
      if i > 0 {
        assert SameLinks(a[i - 1], b[i - 1]);
      }
    }
    assert SameLinks(a[|a| - 1], b[|b| - 1]);
  }

  /** Given one accepted list, another of the same length is accepted for the same
      start and target exactly when it carries the same links at every position:
      timestamps and nonces modulo 2^32; transactions are not looked at. */
  lemma AcceptedExactly(H: Hasher, start: seq<byte>, a: seq<Block>, b: seq<Block>, target: seq<byte>)
    requires a != [] && |a| == |b|
    requires (forall x | x in a :: Fits(x)) && (forall x | x in b :: Fits(x))
    requires CollisionFree(H, Headers(a) + Headers(b))
    requires Accepts(H, start, a, target)
    ensures Accepts(H, start, b, target) <==> forall i | 0 <= i < |a| :: SameLinks(a[i], b[i])
  {
    hide Linked, SameLinks, CollisionFree;
    if Accepts(H, start, b, target) {
      forall i | 0 <= i < |a| ensures SameLinks(a[i], b[i]) {
        NoFork(H, start, a, b, i);
      }
    }
    if forall i | 0 <= i < |a| :: SameLinks(a[i], b[i]) {
      SameLinksAccepted(H, start, a, b);
    }
  }

  /** Two accepted chains of intact blocks with equally many ids per block carry
      the same ids, as far as the tree copies them. */
  lemma SameChainSameIds(H: Hasher, start: seq<byte>, a: seq<Block>, b: seq<Block>, target: seq<byte>, i: nat)
    requires |a| == |b| && i < |a|
    requires Accepts(H, start, a, target) && Accepts(H, start, b, target)
    requires (forall x | x in a :: Fits(x)) && (forall x | x in b :: Fits(x))
    requires CollisionFree(H, Headers(a) + Headers(b))
    requires Intact(H, a[i]) && Intact(H, b[i])
    requires |a[i].transactions| == |b[i].transactions| >= 2
    requires var s, t := TxIds(a[i].transactions), TxIds(b[i].transactions);
             Long(s) && Long(t) && CollisionFree(H, TreeInputs(H, s) + TreeInputs(H, t))
    ensures SameHeads(TxIds(a[i].transactions), TxIds(b[i].transactions))
  {
    NoFork(H, start, a, b, i);
    var s, t := TxIds(a[i].transactions), TxIds(b[i].transactions);
    RootIsDigest(H, s);
    RootIsDigest(H, t);
    PadInjective(a[i].merkleRoot, b[i].merkleRoot);
    SequentialIsRoot(H, s);
    SequentialIsRoot(H, t);
    RootBinds(H, s, t);
  }
}
