/** The leader's side of one reign: its chain and pool are a FIFO queue, and its chain
    is hash-linked. */
module Delivery {
  import opened Bytes
  import opened Transactions
  import opened Blocks
  import opened Chains
  import opened Nodes
  import opened Replication

  // ---- The queue ----

  function Flat(chain: seq<Block>): seq<Transaction> {
    if chain == [] then [] else Flat(chain[..|chain| - 1]) + chain[|chain| - 1].transactions
  }

  predicate DistinctIds(txs: seq<Transaction>) {
    forall i, j | 0 <= i < j < |txs| :: txs[i].txid != txs[j].txid
  }

  /** Committed transactions, then pooled ones, are the submissions in order. */
  predicate Fifo(c: Cluster) {
    Flat(c.leader.chain) + c.leader.pool == c.submitted
  }

  /** No later pool transaction shares an id with the block. */
  predicate IdsApart(pool: seq<Transaction>, block: seq<Transaction>)
    requires |block| <= |pool|
  {
    forall i | |block| <= i < |pool| :: pool[i].txid !in IdSet(block)
  }

  lemma {:induction false} RemainingIds(pool: seq<Transaction>, ids: set<Text>)
    ensures IdSet(Remaining(pool, ids)) == IdSet(pool) - ids
  {
    if pool != [] {
      var front, tx := pool[..|pool| - 1], pool[|pool| - 1];
      RemainingIds(front, ids);
      assert IdSet(pool) == IdSet(front) + {tx.txid} by {
        assert pool == front + [tx];
      }
      if tx.txid !in ids {
        assert IdSet(Remaining(front, ids) + [tx]) == IdSet(Remaining(front, ids)) + {tx.txid};
      }
    }
  }

  lemma {:induction false} RemainingAll(pool: seq<Transaction>, ids: set<Text>)
    requires IdSet(pool) !! ids
    ensures Remaining(pool, ids) == pool
  {
    if pool != [] {
      var front, tx := pool[..|pool| - 1], pool[|pool| - 1];
      assert pool == front + [tx];
      RemainingAll(front, ids);
    }
  }

  lemma {:induction false} RemainingConcat(a: seq<Transaction>, b: seq<Transaction>, ids: set<Text>)
    ensures Remaining(a + b, ids) == Remaining(a, ids) + Remaining(b, ids)
  {
    if b == [] {
      assert a + b == a;
    } else {
      assert (a + b)[..|a + b| - 1] == a + b[..|b| - 1];
      RemainingConcat(a, b[..|b| - 1], ids);
    }
  }

  /** Filtering the pool by a block's ids drops the block and nothing else exactly
      when the ids of the rest are apart from the block's. */
  lemma FilterDropsBlockExactly(pool: seq<Transaction>, block: seq<Transaction>)
    requires block <= pool
    ensures Remaining(pool, IdSet(block)) == pool[|block|..] <==> IdsApart(pool, block)
  {
    hide Remaining;
    var rest, ids := pool[|block|..], IdSet(block);
    assert pool == block + rest;
    RemainingConcat(block, rest, ids);
    RemainingIds(block, ids);
    NoIds(Remaining(block, ids));
    RemainingIds(rest, ids);
    assert IdsApart(pool, block) <==> IdSet(rest) !! ids by {
      assert forall i | 0 <= i < |rest| :: rest[i] == pool[|block| + i];
      assert forall i | |block| <= i < |pool| :: pool[i] == rest[i - |block|];
    }
    if IdSet(rest) !! ids {
      RemainingAll(rest, ids);
    }
  }

  lemma NoIds(txs: seq<Transaction>)
    ensures IdSet(txs) == {} <==> txs == []
  {
    if txs != [] {
      assert txs[0].txid in IdSet(txs);
    }
  }

  lemma FlatOne(chain: seq<Block>, b: Block)
    ensures Flat(chain + [b]) == Flat(chain) + b.transactions
  {
    assert (chain + [b])[..|chain|] == chain;
  }

  /** Committing keeps the queue in order exactly under that condition: a pooled
      transaction that repeats a committed id is dropped without being committed. */
  lemma CommitKeepsFifoExactly(c: Cluster, entry: LogEntry)
    requires Fifo(c) && entry.block.transactions <= c.leader.pool
    ensures Fifo(Commit(c, entry)) <==> IdsApart(c.leader.pool, entry.block.transactions)
  {
    hide Flat, Remaining, IdSet, IdsApart, HexOf;
    var b, pool := entry.block, c.leader.pool;
    FlatOne(c.leader.chain, b);
    FilterDropsBlockExactly(pool, b.transactions);
    assert pool == b.transactions + pool[|b.transactions|..];
    var left := Remaining(pool, IdSet(b.transactions));
    var front := Flat(c.leader.chain) + b.transactions;
    assert c.submitted == front + pool[|b.transactions|..];
    if front + left == c.submitted {
      assert left == (front + left)[|front|..] == pool[|b.transactions|..];
    }
  }

  /** What single-flight proposing gives: the pending block heads the pool, and it
      continues the leader's chain. */
  ghost predicate LeaderChainOk(H: Hasher, c: Cluster) {
    && Linked(H, [], c.leader.chain)
    && c.leader.lastHash == Tip([], c.leader.chain) && |c.leader.lastHash| <= 32
    && |c.committed| == |c.leader.chain|
    && (forall i | 0 <= i < |c.committed| :: c.committed[i].block == c.leader.chain[i])
    && (c.pending.Some? ==>
          && c.pending.value.block.transactions <= c.leader.pool
          && Follows(H, c.leader.lastHash, c.pending.value.block))
  }

  lemma CommitChainOk(H: Hasher, c: Cluster)
    requires LeaderChainOk(H, c)
    ensures LeaderChainOk(H, CommitIfMajority(c))
  {
    hide Linked, HexOf, Members, Remaining, IdSet, BlockHash;
    if c.pending.Some? && |c.heard| >= Majority(|Members(c)|) {
      LinkedAppend(H, [], c.leader.chain, c.pending.value.block);
    }
  }

  lemma StepChainOk(H: Hasher, c: Cluster, step: Step)
    requires LeaderChainOk(H, c) && Enabled(H, c, step)
    ensures LeaderChainOk(H, Next(H, c, step))
  {
    hide Linked, BlockHash;
    match step {
      case Propose(_, block, _) => CommitChainOk(H, Proposing(c, block));
      case HearAck(k) => CommitChainOk(H, Heard(c, k));
      case _ =>
    }
  }

  lemma {:induction false} RunChainOk(H: Hasher, states: seq<Cluster>, steps: seq<Step>, n: nat)
    requires Run(H, states, steps) && n <= |steps|
    ensures LeaderChainOk(H, states[n])
  {
    hide Next, Enabled, Follows;
    if n > 0 {
      RunChainOk(H, states, steps, n - 1);
      StepChainOk(H, states[n - 1], steps[n - 1]);
    }
  }

  /** The leader's chain is hash-linked from the empty hash and ends at its tip. */
  lemma LeaderChainLinked(H: Hasher, states: seq<Cluster>, steps: seq<Step>, n: nat)
    requires Run(H, states, steps) && n <= |steps|
    ensures var l := states[n].leader; Linked(H, [], l.chain) && l.lastHash == Tip([], l.chain)
  {
    RunChainOk(H, states, steps, n);
  }

  lemma CommitFifo(c: Cluster)
    requires Fifo(c) && DistinctIds(c.submitted)
    requires c.pending.Some? ==> c.pending.value.block.transactions <= c.leader.pool
    ensures Fifo(CommitIfMajority(c))
  {
    if c.pending.Some? {
      var txs, pool, k := c.pending.value.block.transactions, c.leader.pool, |Flat(c.leader.chain)|;
      forall i | |txs| <= i < |pool| ensures pool[i].txid !in IdSet(txs) {
        forall j | 0 <= j < |txs| ensures txs[j].txid != pool[i].txid {
          assert pool[j] == txs[j] && c.submitted[k + j] == pool[j] && c.submitted[k + i] == pool[i];
        }
      }
      CommitKeepsFifoExactly(c, c.pending.value);
    }
  }

  lemma CommitSubmitsNothing(c: Cluster)
    ensures CommitIfMajority(c).submitted == c.submitted
  {
  }

  lemma NewBlockHeadsPool(H: Hasher, c: Cluster, step: Step)
    requires step.Propose? && Enabled(H, c, step)
    ensures step.block.transactions <= c.leader.pool
  {
  }

  lemma StepFifo(H: Hasher, c: Cluster, step: Step)
    requires LeaderChainOk(H, c) && Enabled(H, c, step)
    requires Fifo(c) && DistinctIds(Next(H, c, step).submitted)
    ensures Fifo(Next(H, c, step))
  {
    hide Linked, Follows, DistinctIds, OnProposal, OnCommit, IsNewBlock, CommitIfMajority, HexOf;
    match step {
      case Propose(_, block, _) =>
        NewBlockHeadsPool(H, c, step);
        CommitSubmitsNothing(Proposing(c, block));
        CommitFifo(Proposing(c, block));
      case HearAck(k) =>
        CommitSubmitsNothing(Heard(c, k));
        CommitFifo(Heard(c, k));
      case _ =>
    }
  }

  lemma StartIsFifo(c: Cluster)
    requires IsStart(c)
    ensures Fifo(c)
  {
  }

  lemma DistinctBefore(c: Cluster, d: Cluster)
    requires Grows(c, d) && DistinctIds(d.submitted)
    ensures DistinctIds(c.submitted)
  {
  }

  /** With distinct ids and any batch sizes, aborted and proposed-again blocks
      included: the ordering service is a FIFO queue. */
  lemma {:induction false} OrderingIsFifo(H: Hasher, states: seq<Cluster>, steps: seq<Step>, n: nat)
    requires Run(H, states, steps) && n <= |steps|
    requires DistinctIds(states[n].submitted)
    ensures Fifo(states[n])
  {
    hide Next, Enabled, LeaderChainOk, DistinctIds, Fifo, Grows;
    if n == 0 {
      StartIsFifo(states[0]);
    } else {
      RunGrows(H, states, steps, n - 1, n);
      DistinctBefore(states[n - 1], states[n]);
      OrderingIsFifo(H, states, steps, n - 1);
      RunChainOk(H, states, steps, n - 1);
      StepFifo(H, states[n - 1], steps[n - 1]);
    }
  }

  // ---- No id is lost ----

  lemma IdsOfConcat(a: seq<Transaction>, b: seq<Transaction>)
    ensures IdSet(a + b) == IdSet(a) + IdSet(b)
  {
  }

  predicate NoIdLost(c: Cluster) {
    IdSet(Flat(c.leader.chain)) + IdSet(c.leader.pool) == IdSet(c.submitted)
  }

  lemma CommitLosesNoId(c: Cluster)
    requires NoIdLost(c) && (c.pending.Some? ==> c.pending.value.block.transactions <= c.leader.pool)
    ensures NoIdLost(CommitIfMajority(c))
  {
    if c.pending.Some? {
      var txs, pool := c.pending.value.block.transactions, c.leader.pool;
      FlatOne(c.leader.chain, c.pending.value.block);
      IdsOfConcat(Flat(c.leader.chain), txs);
      RemainingIds(pool, IdSet(txs));
      IdsOfConcat(txs, pool[|txs|..]);
      assert pool == txs + pool[|txs|..];
    }
  }

  lemma StepLosesNoId(H: Hasher, c: Cluster, step: Step)
    requires LeaderChainOk(H, c) && Enabled(H, c, step) && NoIdLost(c)
    ensures NoIdLost(Next(H, c, step))
  {
    hide Linked, Follows, IdSet, Flat, Remaining;
    match step {
      case Propose(_, block, _) => CommitLosesNoId(Proposing(c, block));
      case HearAck(k) => CommitLosesNoId(Heard(c, k));
      case Submit(tx) =>
        IdsOfConcat(c.leader.pool, [tx]);
        IdsOfConcat(c.submitted, [tx]);
      case _ =>
    }
  }

  /** Repeated ids or not: in every state of every run, the ids of committed and
      pooled transactions are the submitted ids. */
  lemma {:induction false} RunLosesNoId(H: Hasher, states: seq<Cluster>, steps: seq<Step>, n: nat)
    requires Run(H, states, steps) && n <= |steps|
    ensures NoIdLost(states[n])
  {
    hide Next, Enabled, LeaderChainOk;
    if n > 0 {
      RunLosesNoId(H, states, steps, n - 1);
      RunChainOk(H, states, steps, n - 1);
      StepLosesNoId(H, states[n - 1], steps[n - 1]);
    }
  }
}
