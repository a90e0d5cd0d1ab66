/** Exactly when the ordering service is a FIFO queue, and a run in which it is not. */
module Queues {
  import opened Wrappers
  import opened Bytes
  import opened Transactions
  import opened Blocks
  import opened Chains
  import opened Nodes
  import opened Replication
  import opened Delivery
  import opened Notices

  // ---- Exactly when the queue keeps its order ----

  /** If the step committed a block, the pool's later ids were apart from its ids. */
  ghost predicate CommitApart(c: Cluster, d: Cluster) {
    |d.committed| > |c.committed| ==>
      var txs := d.committed[|d.committed| - 1].block.transactions;
      |txs| <= |c.leader.pool| && IdsApart(c.leader.pool, txs)
  }

  lemma CommitFifoExactly(c: Cluster)
    requires Fifo(c) && (c.pending.Some? ==> c.pending.value.block.transactions <= c.leader.pool)
    ensures Fifo(CommitIfMajority(c)) <==> CommitApart(c, CommitIfMajority(c))
  {
    hide Fifo, IdsApart;
    if c.pending.Some? {
      CommitKeepsFifoExactly(c, c.pending.value);
    }
  }

  lemma StepFifoExactly(H: Hasher, c: Cluster, step: Step)
    requires LeaderChainOk(H, c) && Enabled(H, c, step) && Fifo(c)
    ensures Fifo(Next(H, c, step)) <==> CommitApart(c, Next(H, c, step))
  {
    hide Linked, Follows, OnProposal, OnCommit, IsNewBlock, CommitIfMajority, HexOf, IdsApart;
    match step {
      case Propose(_, block, _) =>
        NewBlockHeadsPool(H, c, step);
        CommitFifoExactly(Proposing(c, block));
      case HearAck(k) => CommitFifoExactly(Heard(c, k));
      case _ =>
    }
  }

  /** For every run: the queue is in order in all states up to now if and only if no
      commit so far left a transaction in the pool that shares an id with its block. */
  lemma {:induction false} FifoExactly(H: Hasher, states: seq<Cluster>, steps: seq<Step>, n: nat)
    requires Run(H, states, steps) && n <= |steps|
    ensures (forall i | 0 <= i <= n :: Fifo(states[i])) <==>
              forall i | 0 <= i < n :: CommitApart(states[i], states[i + 1])
  {
    hide Next, Enabled, LeaderChainOk, Fifo, CommitApart;
    if n == 0 {
      StartIsFifo(states[0]);
    } else {
      FifoExactly(H, states, steps, n - 1);
      RunChainOk(H, states, steps, n - 1);
      if Fifo(states[n - 1]) {
        StepFifoExactly(H, states[n - 1], steps[n - 1]);
      }
    }
  }

  // ---- A run that loses a transaction ----

  function Alone(pool: seq<Transaction>, submitted: seq<Transaction>): Cluster {
    Cluster(Node("leader", true, 1, "leader", pool, [], [], []), map[], [], [], map[], None, {}, submitted, [])
  }

  lemma SubmitAlone(H: Hasher, txs: seq<Transaction>, tx: Transaction)
    ensures Next(H, Alone(txs, txs), Submit(tx)) == Alone(txs + [tx], txs + [tx])
  {
  }

  lemma NewBlockHolds(H: Hasher, b: Block, txs: seq<Transaction>, prevHash: seq<byte>, now: int)
    requires IsNewBlock(H, b, txs, prevHash, now)
    ensures b.transactions == txs
  {
  }

  /** A pool of two submissions with one id is emptied by committing the first. */
  lemma BothDropped(t: Transaction, u: Transaction)
    requires t.txid == u.txid
    ensures BatchOf([t, u], 1) == [t] && Remaining([t, u], IdSet([t])) == []
  {
    hide Remaining;
    RemainingIds([t, u], IdSet([t]));
    assert IdSet([t, u]) == {t.txid} == IdSet([t]);
    NoIds(Remaining([t, u], IdSet([t])));
  }

  lemma ProposedAlone(t: Transaction, u: Transaction, b: Block)
    requires t.txid == u.txid && b.transactions == [t]
    ensures var c := Proposing(Alone([t, u], [t, u]), b);
            c.pending.Some? && c.heard == Members(c) == {"leader"}
  {
  }

  lemma CommitAlone(H: Hasher, t: Transaction, u: Transaction, b: Block)
    requires t.txid == u.txid && IsNewBlock(H, b, [t], [], 0)
    ensures Enabled(H, Alone([t, u], [t, u]), Propose(1, b, 0))
    ensures var d := Next(H, Alone([t, u], [t, u]), Propose(1, b, 0));
            d.leader.chain == [b] && d.leader.pool == [] && d.submitted == [t, u]
  {
    hide IsNewBlock, HexOf, BatchOf, Remaining, IdSet, Members;
    NewBlockHolds(H, b, [t], [], 0);
    BothDropped(t, u);
    ProposedAlone(t, u, b);
    assert [] + [b] == [b];
  }

  /** A single node: two submissions share an id, the first is committed alone, and the
      second is neither committed nor pooled afterwards. */
  lemma LostTransactionRun(H: Hasher, t: Transaction, u: Transaction) returns (states: seq<Cluster>, steps: seq<Step>)
    requires t.txid == u.txid
    ensures Run(H, states, steps) && |steps| == 3 && states[3].submitted == [t, u]
    ensures Flat(states[3].leader.chain) == [t] && states[3].leader.pool == [] && !Fifo(states[3])
  {
    var b := OneTxBlock(H, t, []);
    OneTxBlockIsNew(H, t, []);
    assert b.transactions == [t];
    hide IsNewBlock, OneTxBlock;
    states, steps := LostWith(H, t, u, b);
  }

  lemma LostWith(H: Hasher, t: Transaction, u: Transaction, b: Block) returns (states: seq<Cluster>, steps: seq<Step>)
    requires t.txid == u.txid && b.transactions == [t] && IsNewBlock(H, b, [t], [], 0)
    ensures Run(H, states, steps) && |steps| == 3 && states[3].submitted == [t, u]
    ensures Flat(states[3].leader.chain) == [t] && states[3].leader.pool == [] && !Fifo(states[3])
  {
    hide IsNewBlock, Alone, Enabled, IsStart, Next, Flat;
    SubmitAlone(H, [], t);
    SubmitAlone(H, [t], u);
    assert [] + [t] == [t] && [t] + [u] == [t, u];
    CommitAlone(H, t, u, b);
    AloneStarts(H, t);
    AloneSubmits(H, [t], u);
    FlatAlone(b, t);
    assert [t] + [] == [t];
    var last := Next(H, Alone([t, u], [t, u]), Propose(1, b, 0));
    states := [Alone([], []), Alone([t], [t]), Alone([t, u], [t, u]), last];
    steps := [Submit(t), Submit(u), Propose(1, b, 0)];
    forall i | 0 <= i < 3 ensures Enabled(H, states[i], steps[i]) && states[i + 1] == Next(H, states[i], steps[i]) {
      assert i == 0 || i == 1 || i == 2;
    }
  }

  lemma FlatAlone(b: Block, t: Transaction)
    requires b.transactions == [t]
    ensures Flat([b]) == [t]
  {
    FlatOne([], b);
    assert [] + [b] == [b] && Flat([]) + [t] == [t];
  }

  lemma AloneStarts(H: Hasher, tx: Transaction)
    ensures IsStart(Alone([], [])) && Enabled(H, Alone([], []), Submit(tx))
  {
  }

  lemma AloneSubmits(H: Hasher, txs: seq<Transaction>, tx: Transaction)
    ensures Enabled(H, Alone(txs, txs), Submit(tx))
  {
  }
}
