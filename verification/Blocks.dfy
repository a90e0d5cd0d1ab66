/** Blocks, their headers and hashes, and the commit peer's integrity check. */
module Blocks {
  import opened Wrappers
  import opened Bytes
  import opened Transactions
  import opened Merkle

  datatype Block = Block(timestamp: int, transactions: seq<Transaction>, prevHash: seq<byte>, hash: seq<byte>,
                         nonce: int, merkleRoot: seq<byte>, size: nat)

  function TxIds(txs: seq<Transaction>): (r: seq<Text>)
    ensures |r| == |txs| && forall i | 0 <= i < |txs| :: r[i] == txs[i].txid
  {
    seq(|txs|, i requires 0 <= i < |txs| => txs[i].txid)
  }

  function TotalSize(txs: seq<Transaction>): nat {
    if txs == [] then 0 else TotalSize(txs[..|txs| - 1]) + SizeOf(txs[|txs| - 1])
  }

  function BlockID(b: Block): Text {
    HexOf(b.hash)
  }

  /** The header has 32 bytes for each of the two hashes. */
  predicate Fits(b: Block) {
    |b.prevHash| <= 32 && |b.merkleRoot| <= 32
  }

  function Header(prevHash: seq<byte>, merkleRoot: seq<byte>, timestamp: int, nonce: int): seq<byte>
    requires |prevHash| <= 32 && |merkleRoot| <= 32
  {
    LE(1, 4) + Pad32(prevHash) + Pad32(merkleRoot)
      + LE(ToUint32(timestamp), 4) + LE(0, 4) + LE(ToUint32(nonce), 4)
  }

  function HeaderOf(b: Block): seq<byte>
    requires Fits(b)
  {
    Header(b.prevHash, b.merkleRoot, b.timestamp, b.nonce)
  }

  function BlockHash(H: Hasher, b: Block): (d: seq<byte>)
    requires Fits(b)
    ensures |d| == 32
  {
    H(HeaderOf(b))
  }

  /** Timestamps and nonces count modulo 2^32. */
  predicate SameHeader(a: Block, b: Block)
    requires Fits(a) && Fits(b)
  {
    && Pad32(a.prevHash) == Pad32(b.prevHash)
    && Pad32(a.merkleRoot) == Pad32(b.merkleRoot)
    && ToUint32(a.timestamp) == ToUint32(b.timestamp)
    && ToUint32(a.nonce) == ToUint32(b.nonce)
  }

  /** Where the 80 header bytes hold what; a version of one, no difficulty bits. */
  lemma HeaderLayout(b: Block)
    requires Fits(b)
    ensures var h := HeaderOf(b);
            && |h| == 80
            && FromLE(h[..4]) == 1
            && h[4..36] == Pad32(b.prevHash)
            && h[36..68] == Pad32(b.merkleRoot)
            && FromLE(h[68..72]) == ToUint32(b.timestamp)
            && FromLE(h[72..76]) == 0
            && FromLE(h[76..]) == ToUint32(b.nonce)
  {
    hide LE, FromLE, Pow256, Pad32;
    Widths();
    LERoundTrip(1, 4);
    LERoundTrip(0, 4);
    LERoundTrip(ToUint32(b.timestamp), 4);
    LERoundTrip(ToUint32(b.nonce), 4);
    var h := HeaderOf(b);
    assert h[..4] == LE(1, 4) && h[72..76] == LE(0, 4);
    assert h[68..72] == LE(ToUint32(b.timestamp), 4) && h[76..] == LE(ToUint32(b.nonce), 4);
  }

  /** The header bytes determine the header, and nothing more. */
  lemma HeaderDetermines(a: Block, b: Block)
    requires Fits(a) && Fits(b)
    ensures HeaderOf(a) == HeaderOf(b) <==> SameHeader(a, b)
  {
    HeaderLayout(a);
    HeaderLayout(b);
    hide LE, FromLE, Pad32;
  }

  /** What `NewBlock` builds.  Above 1000 ids shorter than 32 bytes the root
      depends on how the workers share the list. */
  ghost predicate IsNewBlock(H: Hasher, b: Block, txs: seq<Transaction>, prevHash: seq<byte>, now: int) {
    && b.transactions == txs && b.prevHash == prevHash && b.timestamp == now && b.nonce == 0
    && b.size == TotalSize(txs)
    && |b.merkleRoot| == 32
    && (|txs| <= 1000 ==> b.merkleRoot == SequentialRoot(H, TxIds(txs)))
    && (Long(TxIds(txs)) ==> b.merkleRoot == Root(H, TxIds(txs)))
    && Fits(b) && b.hash == BlockHash(H, b)
  }

  /** The header of a new block: version, previous hash, root, time, no difficulty, and a
      nonce of zero. */
  lemma NewHeader(b: Block)
    requires Fits(b) && |b.merkleRoot| == 32 && b.nonce == 0
    ensures HeaderOf(b) == LE(1, 4) + ZeroBytes(32 - |b.prevHash|) + b.prevHash + b.merkleRoot
                           + LE(ToUint32(b.timestamp), 4) + LE(0, 4) + LE(0, 4)
  {
    hide LE, ZeroBytes;
    assert Pad32(b.merkleRoot) == b.merkleRoot;
    assert Pad32(b.prevHash) == ZeroBytes(32 - |b.prevHash|) + b.prevHash;
  }

  /** A previous hash of more than 32 bytes has no place in the header: the original
      panics. */
  method NewBlock(H: Hasher, txs: seq<Transaction>, prevHash: seq<byte>, now: int, numWorkers: nat, order: seq<nat>)
    returns (r: Option<Block>)
    requires numWorkers >= 1 && forall w | 0 <= w < numWorkers :: w in order
    ensures r.None? <==> |prevHash| > 32
    ensures r.Some? ==> IsNewBlock(H, r.value, txs, prevHash, now)
    ensures r.Some? ==>
              && r.value.transactions == txs && r.value.prevHash == prevHash && r.value.timestamp == now
              && r.value.nonce == 0 && |r.value.merkleRoot| == 32
              && r.value.hash == H(LE(1, 4) + ZeroBytes(32 - |prevHash|) + prevHash + r.value.merkleRoot
                                   + LE(ToUint32(now), 4) + LE(0, 4) + LE(0, 4))
  {
    hide LE, Pad32, SizeOf, SequentialRoot, Long, Root, HeaderOf, ZeroBytes;
    var size := 0;
    for i := 0 to |txs|
      invariant size == TotalSize(txs[..i])
    {
      assert txs[..i + 1][..i] == txs[..i];
      size := size + SizeOf(txs[i]);
    }
    assert txs[..|txs|] == txs;
    var root := ComputeMerkleRoot(H, TxIds(txs), numWorkers, order);
    if |prevHash| > 32 {
      return None;
    }
    var b := Block(now, txs, prevHash, [], 0, root, size);
    NewHeader(b);
    r := Some(b.(hash := BlockHash(H, b)));
    assert HeaderOf(r.value) == HeaderOf(b) by { HeaderDetermines(r.value, b); }
  }

  // ---- The commit peer's copy ----

  /** The peer hashes the header from the hex texts of the two hashes.  A text of more
      than 32 bytes has no place in the header: the original panics. */
  method HashBlock(H: Hasher, timestamp: int, nonce: int, prevHashHex: Text, merkleRootHex: Text)
      returns (r: Option<Text>)
    ensures var prev, mr := FromHex(prevHashHex).0, FromHex(merkleRootHex).0;
            r == if |prev| <= 32 && |mr| <= 32 then Some(HexOf(H(Header(prev, mr, timestamp, nonce)))) else None
  {
    var prev, mr := ZERO32, ZERO32;
    if prevHashHex != [] {
      var prevBytes := FromHex(prevHashHex).0;
      if |prevBytes| > 32 {
        return None;
      }
      prev := Pad32(prevBytes);
    }
    if merkleRootHex != [] {
      var mrBytes := FromHex(merkleRootHex).0;
      if |mrBytes| > 32 {
        return None;
      }
      mr := Pad32(mrBytes);
    }
    assert ZERO32 == Pad32([]);
    var buf := LE(1, 4) + prev + mr + LE(ToUint32(timestamp), 4) + LE(0, 4) + LE(ToUint32(nonce), 4);
    r := Some(HexOf(H(buf)));
  }

  datatype IntegrityError = MissingHash | MerkleMismatch | HashMismatch | Panics

  /** Root and hash are what the peer recomputes from ids and header. */
  predicate Intact(H: Hasher, b: Block) {
    && Fits(b)
    && b.merkleRoot == SequentialRoot(H, TxIds(b.transactions))
    && b.hash == BlockHash(H, b)
  }

  method VerifyBlockIntegrity(H: Hasher, b: Block) returns (r: Result<(), IntegrityError>)
    ensures r.Ok? <==> Intact(H, b)
    ensures r == Err(MissingHash) <==> b.merkleRoot == [] || b.hash == []
    ensures r == Err(MerkleMismatch) <==>
              b.merkleRoot != [] && b.hash != [] && b.merkleRoot != SequentialRoot(H, TxIds(b.transactions))
    ensures r == Err(Panics) <==>
              b.hash != [] && b.merkleRoot == SequentialRoot(H, TxIds(b.transactions)) && |b.prevHash| > 32
  {
    RootIsDigest(H, TxIds(b.transactions));
    hide LE, Pad32, HexOf, FromHex, SequentialRoot, Long;
    if |b.merkleRoot| == 0 || |b.hash| == 0 {
      return Err(MissingHash);
    }
    var txids := TxIds(b.transactions);
    var computed := PeerMerkleRoot(H, txids);
    var merkleRootHex := HexOf(b.merkleRoot);
    if computed != merkleRootHex {
      return Err(MerkleMismatch);
    }
    HexInjective(b.merkleRoot, SequentialRoot(H, txids));
    var prevHashHex := HexOf(b.prevHash);
    HexRoundTrip(b.prevHash);
    HexRoundTrip(b.merkleRoot);
    var hashHex := HashBlock(H, b.timestamp, b.nonce, prevHashHex, merkleRootHex);
    if hashHex.None? {
      return Err(Panics);
    }
    if hashHex.value != HexOf(b.hash) {
      return Err(HashMismatch);
    }
    HexInjective(b.hash, H(HeaderOf(b)));
    r := Ok(());
  }

  /** The peer accepts every block that the ordering service builds from ids of
      at least 32 bytes, or from at most 1000 ids of any length. */
  lemma NewBlockIsIntact(H: Hasher, b: Block, txs: seq<Transaction>, prevHash: seq<byte>, now: int)
    requires IsNewBlock(H, b, txs, prevHash, now)
    requires |txs| <= 1000 || Long(TxIds(txs))
    ensures Intact(H, b) && b.merkleRoot != [] && b.hash != []
  {
    if Long(TxIds(txs)) {
      SequentialIsRoot(H, TxIds(txs));
    }
  }
}
