/** Exactly when two lists of ids have the same Merkle root, for any two lengths. */
module Roots {
  import opened Bytes
  import opened Transactions
  import opened Merkle
  import opened Blocks

  /** Levels between the ids and the root. */
  function Depth(n: nat): nat {
    if n <= 1 then 0 else 1 + Depth((n + 1) / 2)
  }

  function Pow2(d: nat): nat {
    if d == 0 then 1 else 2 * Pow2(d - 1)
  }

  /** Doubling the odd tail of every level fills a complete tree of depth `d`; this is
      the id that stands at leaf `p` of it. */
  function LeafAt(n: nat, d: nat, p: nat): (i: nat)
    requires n >= 1
    ensures i < n
    decreases d
  {
    if d == 0 then 0
    else
      var q := LeafAt((n + 1) / 2, d - 1, p / 2);
      if 2 * q + p % 2 < n then 2 * q + p % 2 else 2 * q
  }

  /** The hashes `k` levels above the ids. */
  function Level(H: Hasher, hs: seq<seq<byte>>, k: nat): (r: seq<seq<byte>>)
    requires Long(hs) && hs != []
    ensures Long(r) && r != []
    decreases k
  {
    if k == 0 then hs else Level(H, NextLevel(H, hs), k - 1)
  }

  function LeafHead(hs: seq<seq<byte>>, d: nat, p: nat): seq<byte>
    requires Long(hs) && hs != []
  {
    hs[LeafAt(|hs|, d, p)][..32]
  }

  /** The complete trees of depth `d` over both lists agree leaf by leaf, on the 32
      bytes that are copied. */
  predicate SameLeaves(hs: seq<seq<byte>>, gs: seq<seq<byte>>, d: nat)
    requires Long(hs) && Long(gs) && hs != [] && gs != []
  {
    forall p: nat | p < Pow2(d) :: LeafHead(hs, d, p) == LeafHead(gs, d, p)
  }

  lemma LeafNode(hs: seq<seq<byte>>, d: nat, q: nat)
    requires Long(hs) && hs != [] && d > 0
    ensures 2 * LeafAt((|hs| + 1) / 2, d - 1, q) < |hs|
    ensures NodeInput(hs, LeafAt((|hs| + 1) / 2, d - 1, q)) == LeafHead(hs, d, 2 * q) + LeafHead(hs, d, 2 * q + 1)
  {
    assert (2 * q) / 2 == q && (2 * q) % 2 == 0 && (2 * q + 1) / 2 == q && (2 * q + 1) % 2 == 1;
  }

  /** Two lists whose complete trees agree below agree one level up, and the other way
      round if no two nodes collide. */
  lemma LeavesUp(H: Hasher, hs: seq<seq<byte>>, gs: seq<seq<byte>>, d: nat)
    requires Long(hs) && Long(gs) && hs != [] && gs != [] && d > 0
    ensures SameLeaves(hs, gs, d) ==> SameLeaves(NextLevel(H, hs), NextLevel(H, gs), d - 1)
    ensures CollisionFree(H, LevelInputs(hs) + LevelInputs(gs))
              && SameLeaves(NextLevel(H, hs), NextLevel(H, gs), d - 1) ==>
              SameLeaves(hs, gs, d)
  {
    hide LeafAt;
    var h, g, e := NextLevel(H, hs), NextLevel(H, gs), (d - 1) as nat;
    if SameLeaves(hs, gs, d) {
      forall q: nat | q < Pow2(e) ensures LeafHead(h, e, q) == LeafHead(g, e, q) {
        LeafNode(hs, d, q);
        LeafNode(gs, d, q);
        assert LeafHead(hs, d, 2 * q) == LeafHead(gs, d, 2 * q);
        assert LeafHead(hs, d, 2 * q + 1) == LeafHead(gs, d, 2 * q + 1);
      }
    }
    if CollisionFree(H, LevelInputs(hs) + LevelInputs(gs)) && SameLeaves(h, g, d - 1) {
      forall p: nat | p < Pow2(d) ensures LeafHead(hs, d, p) == LeafHead(gs, d, p) {
        LeafBack(H, hs, gs, d, p);
      }
    }
  }

  function LevelInputs(hs: seq<seq<byte>>): set<seq<byte>>
    requires Long(hs)
  {
    set j | 0 <= j < (|hs| + 1) / 2 :: NodeInput(hs, j)
  }

  lemma LeafBack(H: Hasher, hs: seq<seq<byte>>, gs: seq<seq<byte>>, d: nat, p: nat)
    requires Long(hs) && Long(gs) && hs != [] && gs != [] && d > 0 && p < Pow2(d)
    requires CollisionFree(H, LevelInputs(hs) + LevelInputs(gs))
               && SameLeaves(NextLevel(H, hs), NextLevel(H, gs), d - 1)
    ensures LeafHead(hs, d, p) == LeafHead(gs, d, p)
  {
    hide LeafAt;
    var q := p / 2;
    var h, g := NextLevel(H, hs), NextLevel(H, gs);
    var j, k := LeafAt(|h|, d - 1, q), LeafAt(|g|, d - 1, q);
    LeafNode(hs, d, q);
    LeafNode(gs, d, q);
    assert LeafHead(h, d - 1, q) == LeafHead(g, d - 1, q);
    assert h[j][..32] == h[j] && g[k][..32] == g[k];
    assert NodeInput(hs, j) in LevelInputs(hs) && NodeInput(gs, k) in LevelInputs(gs);
    var x, y := NodeInput(hs, j), NodeInput(gs, k);
    assert x == y;
    assert LeafHead(hs, d, 2 * q) == x[..32] && LeafHead(gs, d, 2 * q) == y[..32];
    assert LeafHead(hs, d, 2 * q + 1) == x[32..] && LeafHead(gs, d, 2 * q + 1) == y[32..];
    assert p == 2 * q || p == 2 * q + 1;
  }

  lemma InputsOfTree(H: Hasher, hs: seq<seq<byte>>)
    requires Long(hs) && |hs| > 1
    ensures TreeInputs(H, hs) == LevelInputs(hs) + TreeInputs(H, NextLevel(H, hs))
  {
  }

  /** Lists of one depth: equal complete trees give equal roots, whatever the hash. */
  lemma {:induction false} SameLeavesSameFold(H: Hasher, hs: seq<seq<byte>>, gs: seq<seq<byte>>, d: nat)
    requires Long(hs) && Long(gs) && hs != [] && gs != [] && Depth(|hs|) == d == Depth(|gs|)
    requires d == 0 ==> |hs[0]| == 32 == |gs[0]|
    requires SameLeaves(hs, gs, d)
    ensures Fold(H, hs) == Fold(H, gs)
    decreases d
  {
    if d == 0 {
      assert LeafHead(hs, 0, 0) == LeafHead(gs, 0, 0);
      assert hs[0][..32] == hs[0] && gs[0][..32] == gs[0];
    } else {
      LeavesUp(H, hs, gs, d);
      SameLeavesSameFold(H, NextLevel(H, hs), NextLevel(H, gs), d - 1);
    }
  }

  /** And without collisions, equal roots come from equal complete trees only. */
  lemma {:induction false} SameFoldSameLeaves(H: Hasher, hs: seq<seq<byte>>, gs: seq<seq<byte>>, d: nat)
    requires Long(hs) && Long(gs) && hs != [] && gs != [] && Depth(|hs|) == d == Depth(|gs|)
    requires d == 0 ==> |hs[0]| == 32 == |gs[0]|
    requires CollisionFree(H, TreeInputs(H, hs) + TreeInputs(H, gs)) && Fold(H, hs) == Fold(H, gs)
    ensures SameLeaves(hs, gs, d)
    decreases d
  {
    hide Depth, Fold, TreeInputs, CollisionFree, SameLeaves, NextLevel;
    OneLevel(H, hs);
    OneLevel(H, gs);
    if d == 0 {
      SameRootSameLeaf(hs, gs);
    } else {
      var all := TreeInputs(H, hs) + TreeInputs(H, gs);
      Fewer(H, TreeInputs(H, NextLevel(H, hs)) + TreeInputs(H, NextLevel(H, gs)), all);
      SameFoldSameLeaves(H, NextLevel(H, hs), NextLevel(H, gs), d - 1);
      Fewer(H, LevelInputs(hs) + LevelInputs(gs), all);
      LeavesUp(H, hs, gs, d);
    }
  }

  /** One level up: shallower by one, the same root, fewer nodes. */
  lemma OneLevel(H: Hasher, hs: seq<seq<byte>>)
    requires Long(hs) && hs != []
    ensures Depth(|hs|) == 0 <==> |hs| == 1
    ensures |hs| == 1 ==> Fold(H, hs) == hs[0]
    ensures |hs| > 1 ==>
              var h := NextLevel(H, hs);
              && h != [] && Depth(|h|) == Depth(|hs|) - 1 && Fold(H, hs) == Fold(H, h)
              && (forall i | 0 <= i < |h| :: |h[i]| == 32)
              && TreeInputs(H, hs) == LevelInputs(hs) + TreeInputs(H, h)
  {
  }

  lemma SameRootSameLeaf(hs: seq<seq<byte>>, gs: seq<seq<byte>>)
    requires Long(hs) && Long(gs) && hs != [] && gs != [] && hs[0] == gs[0]
    ensures SameLeaves(hs, gs, 0)
  {
  }

  lemma Fewer(H: Hasher, some: set<seq<byte>>, all: set<seq<byte>>)
    requires some <= all && CollisionFree(H, all)
    ensures CollisionFree(H, some)
  {
  }

  // ---- Lists of different depths ----

  lemma {:induction false} LevelKeepsFold(H: Hasher, hs: seq<seq<byte>>, k: nat)
    requires Long(hs) && hs != [] && k <= Depth(|hs|)
    ensures Fold(H, Level(H, hs, k)) == Fold(H, hs)
    ensures Depth(|Level(H, hs, k)|) == Depth(|hs|) - k
    ensures TreeInputs(H, Level(H, hs, k)) <= TreeInputs(H, hs)
    ensures k > 0 ==> forall i | 0 <= i < |Level(H, hs, k)| :: |Level(H, hs, k)[i]| == 32
    decreases k
  {
    hide Depth, Fold, TreeInputs, NextLevel;
    if k > 0 {
      OneLevel(H, hs);
      var h := NextLevel(H, hs);
      LevelKeepsFold(H, h, k - 1);
    }
  }

  /** For any two lists of at least two ids, the second at least as deep: the roots are
      equal if and only if the first list's complete tree is that of the level of the
      second one's tree at which the remaining depth is the same. */
  lemma RootsEqualExactly(H: Hasher, s: seq<seq<byte>>, t: seq<seq<byte>>)
    requires Long(s) && Long(t) && |s| >= 2 && |t| >= 2 && Depth(|s|) <= Depth(|t|)
    requires CollisionFree(H, TreeInputs(H, s) + TreeInputs(H, t))
    ensures Root(H, s) == Root(H, t) <==> SameLeaves(s, Level(H, t, Depth(|t|) - Depth(|s|)), Depth(|s|))
  {
    var d, k := Depth(|s|), Depth(|t|) - Depth(|s|);
    LevelKeepsFold(H, t, k);
    var l := Level(H, t, k);
    assert d >= 1;
    hide Level, SameLeaves, CollisionFree, TreeInputs, Depth, Fold;
    Fewer(H, TreeInputs(H, s) + TreeInputs(H, l), TreeInputs(H, s) + TreeInputs(H, t));
    if SameLeaves(s, l, d) {
      SameLeavesSameFold(H, s, l, d);
    }
    if Root(H, s) == Root(H, t) {
      SameFoldSameLeaves(H, s, l, d);
    }
  }

  /** Against a list of one id, which is hashed as it is: the other list's topmost node
      must read like that id. */
  lemma RootOfOneExactly(H: Hasher, id: seq<byte>, t: seq<seq<byte>>)
    requires |id| >= 32 && Long(t) && |t| >= 2
    requires CollisionFree(H, TreeInputs(H, t) + {id})
    ensures var l := Level(H, t, Depth(|t|) - 1);
            |l| == 2 && (Root(H, [id]) == Root(H, t) <==> id == l[0][..32] + l[1][..32])
  {
    var k := Depth(|t|) - 1;
    LevelKeepsFold(H, t, k);
    var l := Level(H, t, k);
    DepthOne(|l|);
    InputsOfTree(H, l);
    assert NodeInput(l, 0) == l[0][..32] + l[1][..32];
    assert NodeInput(l, 0) in LevelInputs(l);
    assert Fold(H, l) == Fold(H, NextLevel(H, l)) == NodeHash(H, l, 0);
  }

  lemma DepthOne(n: nat)
    ensures Depth(n) == 1 <==> n == 2
  {
    if n >= 3 {
      assert Depth((n + 1) / 2) >= 1;
    } else if n == 2 {
      assert Depth(1) == 0;
    }
  }

  // ---- Families of different lists with one root, whatever the hash ----

  /** Six ids have the root of those six followed by the last two again. */
  lemma SixAndEight(H: Hasher, t: seq<seq<byte>>)
    requires Long(t) && |t| == 6
    ensures Long(t + t[4..]) && Root(H, t + t[4..]) == Root(H, t)
  {
    var u := t + t[4..];
    Depths();
    forall p: nat | p < Pow2(3) ensures LeafHead(t, 3, p) == LeafHead(u, 3, p) {
      SmallLeaves(p);
    }
    SameLeavesSameFold(H, t, u, 3);
  }

  lemma Depths()
    ensures Depth(6) == 3 == Depth(8) && Pow2(3) == 8
  {
    assert Depth(3) == 1 + Depth(2) && Depth(4) == 1 + Depth(2) && Depth(2) == 1 + Depth(1);
  }

  lemma SmallLeaves(p: nat)
    requires p < 8
    ensures LeafAt(8, 3, p) == p && LeafAt(6, 3, p) == if p < 6 then p else p - 2
  {
    var q := p / 2;
    var r := q / 2;
    assert LeafAt(1, 0, r / 2) == 0;
    assert LeafAt(2, 1, r) == r;
    assert LeafAt(4, 2, q) == q;
    assert LeafAt(3, 2, q) == if q < 3 then q else 2;
  }

  // ---- What the commit peer's integrity check pins down ----

  lemma SameHeaderBytes(b: Block, txs: seq<Transaction>)
    requires Fits(b)
    ensures HeaderOf(b.(transactions := txs)) == HeaderOf(b)
  {
  }

  /** Given one intact block, its header over other transactions is intact if and only
      if their ids make the same complete tree. */
  lemma IntactExactly(H: Hasher, b: Block, txs: seq<Transaction>)
    requires Intact(H, b)
    requires Long(TxIds(b.transactions)) && Long(TxIds(txs)) && |b.transactions| >= 2 && |txs| >= 2
    requires CollisionFree(H, TreeInputs(H, TxIds(b.transactions)) + TreeInputs(H, TxIds(txs)))
    ensures var s, t := TxIds(b.transactions), TxIds(txs);
            Intact(H, b.(transactions := txs)) <==>
              if Depth(|s|) <= Depth(|t|) then SameLeaves(s, Level(H, t, Depth(|t|) - Depth(|s|)), Depth(|s|))
              else SameLeaves(t, Level(H, s, Depth(|s|) - Depth(|t|)), Depth(|t|))
  {
    hide Root, SameLeaves, Level, SequentialRoot, TreeInputs, CollisionFree, Depth, HeaderOf, Long, TxIds;
    var s, t := TxIds(b.transactions), TxIds(txs);
    assert |s| == |b.transactions| && |t| == |txs|;
    SequentialIsRoot(H, s);
    SequentialIsRoot(H, t);
    SameHeaderBytes(b, txs);
    assert TreeInputs(H, s) + TreeInputs(H, t) == TreeInputs(H, t) + TreeInputs(H, s);
    if Depth(|s|) <= Depth(|t|) {
      RootsEqualExactly(H, s, t);
    } else {
      RootsEqualExactly(H, t, s);
    }
  }
}
