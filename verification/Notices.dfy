/** Exactly what a follower commits, for every order of delivery: the leader's blocks
    at the indices of the commit notices it handled. */
module Notices {
  import opened Wrappers
  import opened Bytes
  import opened Transactions
  import opened Merkle
  import opened Blocks
  import opened Nodes
  import opened Replication
  import opened Delivery
  import opened Followers

  // ---- Indices ----

  predicate Increasing(s: seq<int>) {
    forall i, j | 0 <= i < j < |s| :: s[i] < s[j]
  }

  predicate Within(indices: seq<int>, log: seq<LogEntry>) {
    forall i | 0 <= i < |indices| :: 1 <= indices[i] <= |log|
  }

  predicate AllIn(a: seq<int>, all: set<int>) {
    forall i | 0 <= i < |a| :: a[i] in all
  }

  /** The leader's blocks at some log indices. */
  function BlocksAt(log: seq<LogEntry>, indices: seq<int>): (r: seq<Block>)
    requires Within(indices, log)
    ensures |r| == |indices| && forall i | 0 <= i < |r| :: r[i] == log[indices[i] - 1].block
  {
    seq(|indices|, i requires 0 <= i < |indices| => log[indices[i] - 1].block)
  }

  /** Indices of the entries the leader committed, in commit order. */
  function CommittedAt(c: Cluster): (r: seq<int>)
    ensures |r| == |c.committed| && forall i | 0 <= i < |r| :: r[i] == c.committed[i].index
  {
    seq(|c.committed|, i requires 0 <= i < |c.committed| => c.committed[i].index)
  }

  /** Indices of the commit notices that follower `f` handled while it held the entry,
      in the order it handled them. */
  ghost function Handled(states: seq<Cluster>, steps: seq<Step>, n: nat, f: PeerID): seq<int>
    requires n <= |steps| && n <= |states|
  {
    if n == 0 then []
    else
      var c, step, front := states[n - 1], steps[n - 1], Handled(states, steps, n - 1, f);
      if step.Deliver? && step.f == f && f in c.followers && step.i < |c.sent|
         && c.sent[step.i].CommitMsg? && c.sent[step.i].logIndex <= |c.followers[f].log|
      then front + [c.sent[step.i].logIndex]
      else front
  }

  /** Entries are committed in the order of their indices. */
  ghost predicate CommitsAscend(c: Cluster) {
    && Increasing(CommittedAt(c))
    && (c.pending.Some? ==> forall e | e in c.committed :: e.index < c.pending.value.index)
  }

  lemma CommitAscends(c: Cluster)
    requires CommitsAscend(c)
    ensures CommitsAscend(CommitIfMajority(c))
  {
    hide HexOf, Members, Committed;
  }

  lemma StepAscends(H: Hasher, c: Cluster, step: Step)
    requires Replicated(c) && CommitsAscend(c) && Enabled(H, c, step)
    ensures CommitsAscend(Next(H, c, step))
  {
    hide IsNewBlock, OnProposal, OnCommit;
    match step {
      case Propose(_, block, _) =>
        NewestEntry(c, block);
        hide Replicated;
        CommitAscends(Proposing(c, block));
      case HearAck(k) =>
        hide Replicated;
        CommitAscends(Heard(c, k));
      case _ =>
        hide Replicated;
    }
  }

  lemma NewestEntry(c: Cluster, block: Block)
    requires Replicated(c)
    ensures forall e | e in c.committed :: e.index < EntryFor(c.leader, block).index
  {
    forall e | e in c.committed ensures e.index < EntryFor(c.leader, block).index {
      assert Durable(c, e);
    }
  }

  lemma {:induction false} RunAscends(H: Hasher, states: seq<Cluster>, steps: seq<Step>, n: nat)
    requires Run(H, states, steps) && n <= |steps|
    ensures CommitsAscend(states[n])
  {
    hide Next, Enabled, Replicated;
    if n > 0 {
      RunAscends(H, states, steps, n - 1);
      RunReplicated(H, states, steps, n - 1);
      StepAscends(H, states[n - 1], steps[n - 1]);
    }
  }

  // ---- What a follower's chain is ----

  ghost predicate ChainIsHandled(c: Cluster, f: PeerID, handled: seq<int>)
    requires f in c.followers
  {
    && Within(handled, c.leader.log)
    && (forall i | 0 <= i < |handled| :: c.leader.log[handled[i] - 1] in c.committed)
    && c.followers[f].chain == BlocksAt(c.leader.log, handled)
  }

  lemma HandledStays(c: Cluster, d: Cluster, f: PeerID, handled: seq<int>)
    requires Grows(c, d) && f in c.followers && ChainIsHandled(c, f, handled)
               && d.followers[f].chain == c.followers[f].chain
    ensures ChainIsHandled(d, f, handled)
  {
    forall i | 0 <= i < |handled| ensures 1 <= handled[i] <= |d.leader.log|
      && d.leader.log[handled[i] - 1] in d.committed {
      assert d.leader.log[handled[i] - 1] == c.leader.log[handled[i] - 1];
    }
    assert BlocksAt(d.leader.log, handled) == BlocksAt(c.leader.log, handled);
  }

  lemma OneMoreBlock(log: seq<LogEntry>, indices: seq<int>, k: int)
    requires Within(indices, log) && 1 <= k <= |log|
    ensures Within(indices + [k], log) && BlocksAt(log, indices + [k]) == BlocksAt(log, indices) + [log[k - 1].block]
  {
  }

  /** What one delivery adds to the follower's chain. */
  lemma DeliverChain(c: Cluster, f: PeerID, i: nat)
    requires Replicated(c) && f in c.followers && i < |c.sent|
    ensures c.sent[i].CommitMsg? ==>
              1 <= c.sent[i].logIndex <= |c.leader.log| && c.leader.log[c.sent[i].logIndex - 1] in c.committed
    ensures var m, d := c.sent[i], Delivered(c, f, i);
            && f in d.followers && d.leader.log == c.leader.log && d.committed == c.committed
            && d.followers[f].chain ==
               if m.CommitMsg? && m.logIndex <= |c.followers[f].log|
               then c.followers[f].chain + [c.leader.log[m.logIndex - 1].block] else c.followers[f].chain
  {
    hide OnProposal, OnCommit, Replicated, HexOf, Numbered;
    ReplicatedAt(c, f, i);
    match c.sent[i]
    case ProposalMsg(entry) => OnProposalKeepsPrefix(c, f, entry);
    case CommitMsg(logIndex, blockID) => OnCommitAppends(c, f, logIndex, blockID);
  }

  lemma DeliverHandled(c: Cluster, f: PeerID, i: nat, handled: seq<int>)
    requires Replicated(c) && f in c.followers && f in c.next && i < |c.sent| && ChainIsHandled(c, f, handled)
    ensures f in Delivered(c, f, i).followers
    ensures var m := c.sent[i];
            var more := if m.CommitMsg? && m.logIndex <= |c.followers[f].log| then handled + [m.logIndex] else handled;
            ChainIsHandled(Delivered(c, f, i), f, more)
  {
    hide Delivered, Replicated, ChainIsHandled;
    var m := c.sent[i];
    DeliverChain(c, f, i);
    if m.CommitMsg? && m.logIndex <= |c.followers[f].log| {
      ExtendHandled(c, Delivered(c, f, i), f, handled, m.logIndex);
    } else {
      KeepHandled(c, Delivered(c, f, i), f, handled);
    }
  }

  lemma ExtendHandled(c: Cluster, d: Cluster, f: PeerID, handled: seq<int>, k: int)
    requires f in c.followers && f in d.followers && d.leader.log == c.leader.log && d.committed == c.committed
    requires ChainIsHandled(c, f, handled) && 1 <= k <= |c.leader.log| && c.leader.log[k - 1] in c.committed
    requires d.followers[f].chain == c.followers[f].chain + [c.leader.log[k - 1].block]
    ensures ChainIsHandled(d, f, handled + [k])
  {
    OneMoreBlock(c.leader.log, handled, k);
    hide BlocksAt;
  }

  lemma KeepHandled(c: Cluster, d: Cluster, f: PeerID, handled: seq<int>)
    requires f in c.followers && f in d.followers && d.leader.log == c.leader.log && d.committed == c.committed
    requires ChainIsHandled(c, f, handled) && d.followers[f].chain == c.followers[f].chain
    ensures ChainIsHandled(d, f, handled)
  {
  }

  /** In every state of every run a follower's chain is the leader's blocks at the
      indices of the notices it handled while holding the entry. */
  lemma {:induction false} ChainOfHandled(H: Hasher, states: seq<Cluster>, steps: seq<Step>, n: nat, f: PeerID)
    requires Run(H, states, steps) && n <= |steps| && f in states[n].followers
    ensures ChainIsHandled(states[n], f, Handled(states, steps, n, f))
  {
    hide Next, Enabled, Replicated;
    if n > 0 {
      RunReplicated(H, states, steps, n - 1);
      RunGrows(H, states, steps, n - 1, n);
      ChainOfHandled(H, states, steps, n - 1, f);
      StepHandled(H, states[n - 1], steps[n - 1], f, Handled(states, steps, n - 1, f));
    }
  }

  lemma StepHandled(H: Hasher, c: Cluster, step: Step, f: PeerID, handled: seq<int>)
    requires Replicated(c) && Enabled(H, c, step) && Grows(c, Next(H, c, step))
    requires f in c.followers && ChainIsHandled(c, f, handled)
    ensures var more :=
              if step.Deliver? && step.f == f && step.i < |c.sent|
                 && c.sent[step.i].CommitMsg? && c.sent[step.i].logIndex <= |c.followers[f].log|
              then handled + [c.sent[step.i].logIndex] else handled;
            f in Next(H, c, step).followers && ChainIsHandled(Next(H, c, step), f, more)
  {
    PendingAt(c);
    if step.Deliver? && step.f == f {
      DeliverHandled(c, f, step.i, handled);
    } else {
      OthersUntouched(H, c, step, f);
      HandledStays(c, Next(H, c, step), f, handled);
    }
  }

  // ---- Subsequences of increasing lists ----

  predicate IsSubsequence(a: seq<int>, b: seq<int>) {
    || a == []
    || (b != [] && IsSubsequence(a, b[..|b| - 1]))
    || (b != [] && a[|a| - 1] == b[|b| - 1] && IsSubsequence(a[..|a| - 1], b[..|b| - 1]))
  }

  ghost predicate Has(b: seq<int>, k: int) {
    exists j :: 0 <= j < |b| && b[j] == k
  }

  ghost predicate AmongThem(a: seq<int>, b: seq<int>) {
    forall i | 0 <= i < |a| :: Has(b, a[i])
  }

  /** A list of members of an increasing list is a subsequence of it if and only if it
      increases too. */
  lemma {:induction false} IncreasingIsSubsequence(a: seq<int>, b: seq<int>)
    requires Increasing(b) && AmongThem(a, b)
    ensures IsSubsequence(a, b) <==> Increasing(a)
  {
    if IsSubsequence(a, b) {
      SubsequenceIncreases(a, b);
    }
    if Increasing(a) {
      IncreasingEmbeds(a, b);
    }
  }

  lemma IncreasingFronts(s: seq<int>, n: nat)
    requires Increasing(s) && n <= |s|
    ensures Increasing(s[..n])
  {
  }

  lemma {:induction false} IncreasingEmbeds(a: seq<int>, b: seq<int>)
    requires Increasing(a) && Increasing(b) && AmongThem(a, b)
    ensures IsSubsequence(a, b)
  {
    hide Increasing;
    if a != [] {
      var m, n := |a| - 1, |b| - 1;
      assert Has(b, a[m]);
      var j :| 0 <= j < |b| && b[j] == a[m];
      IncreasingFronts(a, m);
      IncreasingFronts(b, n);
      if j == n {
        forall i | 0 <= i < m ensures Has(b[..n], a[..m][i]) {
          NotLater(a, i, m);
          EarlierHas(b, a[i], j);
        }
        IncreasingEmbeds(a[..m], b[..n]);
      } else {
        forall i | 0 <= i < |a| ensures Has(b[..n], a[i]) {
          NotLater(a, i, m);
          EarlierHas(b, a[i], j);
        }
        IncreasingEmbeds(a, b[..n]);
      }
    }
  }

  /** In an increasing list what is not above the entry at `j` stands no later. */
  lemma EarlierHas(b: seq<int>, k: int, j: nat)
    requires Increasing(b) && Has(b, k) && j < |b| && k <= b[j] && (j == |b| - 1 ==> k < b[j])
    ensures Has(b[..|b| - 1], k)
  {
    var i :| 0 <= i < |b| && b[i] == k;
    assert b[..|b| - 1][i] == k;
  }

  lemma NotLater(s: seq<int>, i: nat, j: nat)
    requires Increasing(s) && i <= j < |s|
    ensures s[i] <= s[j] && (i < j ==> s[i] < s[j])
  {
  }

  lemma {:induction false} SubsequenceMembers(a: seq<int>, b: seq<int>)
    requires IsSubsequence(a, b)
    ensures AmongThem(a, b)
  {
    if a != [] {
      var m, n := |a| - 1, |b| - 1;
      var front := b[..n];
      var rest := if IsSubsequence(a, front) then a else a[..m];
      SubsequenceMembers(rest, front);
      forall i | 0 <= i < |a| ensures Has(b, a[i]) {
        if i < |rest| {
          assert Has(front, rest[i]);
          var j :| 0 <= j < |front| && front[j] == rest[i];
          assert b[j] == a[i];
        } else {
          assert b[n] == a[i];
        }
      }
    }
  }

  lemma {:induction false} SubsequenceIncreases(a: seq<int>, b: seq<int>)
    requires Increasing(b) && IsSubsequence(a, b)
    ensures Increasing(a)
  {
    if a != [] {
      var m, n := |a| - 1, |b| - 1;
      var front := b[..n];
      if IsSubsequence(a, front) {
        SubsequenceIncreases(a, front);
      } else {
        SubsequenceIncreases(a[..m], front);
        SubsequenceMembers(a[..m], front);
        forall i | 0 <= i < m ensures a[i] < a[m] {
          assert a[..m][i] == a[i] && Has(front, a[..m][i]);
          var j :| 0 <= j < |front| && front[j] == a[..m][i];
          assert b[j] < b[n];
        }
        assert forall i, j | 0 <= i < j < m :: a[..m][i] < a[..m][j];
      }
    }
  }

  ghost predicate DistinctAt(log: seq<LogEntry>, indices: set<int>) {
    && (forall k | k in indices :: 1 <= k <= |log|)
    && (forall j, k | j in indices && k in indices && log[j - 1].block == log[k - 1].block :: j == k)
  }

  /** With distinct blocks, lists of blocks compare as their indices do. */
  lemma {:induction false} BlocksCompareAsIndices(log: seq<LogEntry>, a: seq<int>, b: seq<int>, all: set<int>)
    requires DistinctAt(log, all) && AllIn(a, all) && AllIn(b, all) && Within(a, log) && Within(b, log)
    ensures Subsequence(BlocksAt(log, a), BlocksAt(log, b)) <==> IsSubsequence(a, b)
  {
    if a != [] && b != [] {
      var x, y := BlocksAt(log, a), BlocksAt(log, b);
      var fa, fb := a[..|a| - 1], b[..|b| - 1];
      assert x[..|x| - 1] == BlocksAt(log, fa) && y[..|y| - 1] == BlocksAt(log, fb);
      assert x[|x| - 1] == y[|y| - 1] <==> a[|a| - 1] == b[|b| - 1];
      BlocksCompareAsIndices(log, a, fb, all);
      BlocksCompareAsIndices(log, fa, fb, all);
    }
  }

  lemma PrefixesCompareAsIndices(log: seq<LogEntry>, a: seq<int>, b: seq<int>, all: set<int>)
    requires DistinctAt(log, all) && AllIn(a, all) && AllIn(b, all) && Within(a, log) && Within(b, log)
    ensures BlocksAt(log, a) <= BlocksAt(log, b) <==> a <= b
  {
    if |a| <= |b| && BlocksAt(log, a) <= BlocksAt(log, b) {
      forall i | 0 <= i < |a| ensures a[i] == b[i] {
        assert BlocksAt(log, a)[i] == BlocksAt(log, b)[i];
        assert a[i] in all && b[i] in all;
      }
    }
  }

  // ---- Exactly what a follower's chain is ----

  predicate DistinctBlocks(chain: seq<Block>) {
    forall i, j | 0 <= i < j < |chain| :: chain[i] != chain[j]
  }

  lemma CommittedInLog(c: Cluster)
    requires Replicated(c)
    ensures forall i | 0 <= i < |c.committed| :: InLog(c, c.committed[i])
  {
    forall i | 0 <= i < |c.committed| ensures InLog(c, c.committed[i]) {
      assert Durable(c, c.committed[i]);
    }
  }

  lemma ChainOfCommitted(H: Hasher, c: Cluster)
    requires LeaderChainOk(H, c)
    ensures |c.committed| == |c.leader.chain| && forall i | 0 <= i < |c.committed| ::
              c.leader.chain[i] == c.committed[i].block
  {
  }

  lemma LeaderChainAtCommitted(H: Hasher, c: Cluster)
    requires Replicated(c) && LeaderChainOk(H, c)
    ensures Within(CommittedAt(c), c.leader.log) && c.leader.chain == BlocksAt(c.leader.log, CommittedAt(c))
    ensures forall e | e in c.committed :: Has(CommittedAt(c), e.index)
  {
    hide Replicated, LeaderChainOk;
    CommittedInLog(c);
    ChainOfCommitted(H, c);
    forall i | 0 <= i < |c.committed|
      ensures 1 <= CommittedAt(c)[i] <= |c.leader.log| && c.leader.log[CommittedAt(c)[i] - 1] == c.committed[i]
    {
      assert InLog(c, c.committed[i]);
    }
    forall e | e in c.committed ensures Has(CommittedAt(c), e.index) {
      var i :| 0 <= i < |c.committed| && c.committed[i] == e;
      assert CommittedAt(c)[i] == e.index;
    }
  }

  lemma CommittedDistinct(c: Cluster) returns (all: set<int>)
    requires Within(CommittedAt(c), c.leader.log)
    requires c.leader.chain == BlocksAt(c.leader.log, CommittedAt(c)) && DistinctBlocks(c.leader.chain)
    ensures DistinctAt(c.leader.log, all) && AllIn(CommittedAt(c), all)
    ensures forall i | 0 <= i < |CommittedAt(c)| :: CommittedAt(c)[i] in all
  {
    var indices := CommittedAt(c);
    all := set i | 0 <= i < |indices| :: indices[i];
    forall j, k | j in all && k in all && c.leader.log[j - 1].block == c.leader.log[k - 1].block ensures j == k {
      var x :| 0 <= x < |indices| && indices[x] == j;
      var y :| 0 <= y < |indices| && indices[y] == k;
      assert c.leader.chain[x] == c.leader.chain[y];
      assert x == y;
    }
  }

  lemma StateExactly(H: Hasher, c: Cluster, f: PeerID, handled: seq<int>)
    requires Replicated(c) && LeaderChainOk(H, c) && CommitsAscend(c)
    requires f in c.followers && ChainIsHandled(c, f, handled) && DistinctBlocks(c.leader.chain)
    ensures Subsequence(c.followers[f].chain, c.leader.chain) <==> Increasing(handled)
    ensures c.followers[f].chain <= c.leader.chain <==> handled <= CommittedAt(c)
  {
    hide Replicated, LeaderChainOk, Subsequence, IsSubsequence;
    LeaderChainAtCommitted(H, c);
    PendingAt(c);
    var all := CommittedDistinct(c);
    var committed := CommittedAt(c);
    forall i | 0 <= i < |handled|
      ensures handled[i] in all && Has(committed, handled[i])
    {
      var e := c.leader.log[handled[i] - 1];
      assert e in c.committed && e.index == handled[i] && Has(committed, e.index);
      var j :| 0 <= j < |committed| && committed[j] == e.index;
    }
    BlocksCompareAsIndices(c.leader.log, handled, committed, all);
    PrefixesCompareAsIndices(c.leader.log, handled, committed, all);
    IncreasingIsSubsequence(handled, committed);
  }

  /** For every run and every order of delivery, with distinct committed blocks: a
      follower's chain is a subsequence of the leader's if and only if the indices it
      handled increase, and a prefix if and only if they are the first indices the
      leader committed. */
  lemma FollowerChainExactly(H: Hasher, states: seq<Cluster>, steps: seq<Step>, n: nat, f: PeerID)
    requires Run(H, states, steps) && n <= |steps| && f in states[n].followers
    requires DistinctBlocks(states[n].leader.chain)
    ensures var c, handled := states[n], Handled(states, steps, n, f);
            && ChainIsHandled(c, f, handled)
            && (Subsequence(c.followers[f].chain, c.leader.chain) <==> Increasing(handled))
            && (c.followers[f].chain <= c.leader.chain <==> handled <= CommittedAt(c))
  {
    hide Next, Enabled, Replicated, LeaderChainOk, CommitsAscend, ChainIsHandled;
    RunReplicated(H, states, steps, n);
    RunChainOk(H, states, steps, n);
    RunAscends(H, states, steps, n);
    ChainOfHandled(H, states, steps, n, f);
    StateExactly(H, states[n], f, Handled(states, steps, n, f));
  }

  /** In-order delivery is needed: handling a commit notice again appends its block
      again, and the chain is no subsequence of the leader's any more. */
  lemma RepeatedNoticeRepeatsBlock(H: Hasher, states: seq<Cluster>, steps: seq<Step>, n: nat, f: PeerID, i: nat)
    requires Run(H, states, steps) && n < |steps| && steps[n] == Deliver(f, i)
    requires f in states[n].followers && i < |states[n].sent| && states[n].sent[i].CommitMsg?
    requires states[n].sent[i].logIndex in Handled(states, steps, n, f)
    requires states[n].sent[i].logIndex <= |states[n].followers[f].log|
    requires DistinctBlocks(states[n + 1].leader.chain)
    ensures f in states[n + 1].followers
    ensures !Subsequence(states[n + 1].followers[f].chain, states[n + 1].leader.chain)
  {
    hide Next, Enabled, Subsequence, DistinctBlocks;
    RunGrows(H, states, steps, n, n + 1);
    FollowerChainExactly(H, states, steps, n + 1, f);
    var k, before := states[n].sent[i].logIndex, Handled(states, steps, n, f);
    var after := Handled(states, steps, n + 1, f);
    assert after == before + [k];
    var j :| 0 <= j < |before| && before[j] == k;
    assert after[j] == after[|before|];
  }

  // ---- When committed blocks are distinct ----

  lemma {:induction false} InFlat(chain: seq<Block>, i: nat)
    requires i < |chain| && chain[i].transactions != []
    ensures chain[i].transactions[0] in Flat(chain)
  {
    if i < |chain| - 1 {
      InFlat(chain[..|chain| - 1], i);
    }
  }

  /** Distinct transaction ids in blocks that are not empty make distinct blocks. */
  lemma {:induction false} DistinctIdsDistinctBlocks(chain: seq<Block>)
    requires DistinctIds(Flat(chain)) && forall b | b in chain :: b.transactions != []
    ensures DistinctBlocks(chain)
  {
    if chain != [] {
      var front, last := chain[..|chain| - 1], chain[|chain| - 1];
      var flat := Flat(front);
      assert Flat(chain) == flat + last.transactions;
      assert DistinctIds(flat) by {
        assert forall i | 0 <= i < |flat| :: Flat(chain)[i] == flat[i];
      }
      assert forall b | b in front :: b in chain;
      DistinctIdsDistinctBlocks(front);
      forall i | 0 <= i < |front| ensures chain[i] != last {
        assert chain[i] in chain && last in chain;
        InFlat(front, i);
        var k :| 0 <= k < |flat| && flat[k] == front[i].transactions[0];
        assert Flat(chain)[k] == flat[k] && Flat(chain)[|flat|] == last.transactions[0];
      }
    }
  }

  // ---- A run with a repeated notice ----

  function OneTxBlock(H: Hasher, tx: Transaction, prevHash: seq<byte>): Block
    requires |prevHash| <= 32
  {
    RootIsDigest(H, TxIds([tx]));
    var b := Block(0, [tx], prevHash, [], 0, SequentialRoot(H, TxIds([tx])), SizeOf(tx));
    b.(hash := BlockHash(H, b))
  }

  lemma OneTxBlockIsNew(H: Hasher, tx: Transaction, prevHash: seq<byte>)
    requires |prevHash| <= 32
    ensures IsNewBlock(H, OneTxBlock(H, tx, prevHash), [tx], prevHash, 0)
  {
    RootIsDigest(H, TxIds([tx]));
    if Long(TxIds([tx])) {
      SequentialIsRoot(H, TxIds([tx]));
    }
    hide SequentialRoot, Root, SizeOf, HeaderOf;
    assert [tx][..0] == [];
    assert TotalSize([tx]) == TotalSize([]) + SizeOf(tx);
  }

  const FOLLOWER: PeerID := "follower"

  /** The run's states: submitted, proposed, acknowledged, committed, noticed, noticed. */
  function Stage(b: Block, tx: Transaction, k: nat): Cluster {
    var e := LogEntry(1, 0, 1, b);
    var held := if k < 3 then [] else [e];
    var copies := if k < 5 then [] else if k == 5 then [b] else [b, b];
    Cluster(
      Node("leader", true, 1, "leader", if 1 <= k < 4 then [tx] else [], if k < 2 then [] else [e],
           if k < 4 then [] else [b], if k < 4 then [] else b.hash),
      map[FOLLOWER := Node(FOLLOWER, false, 1, "leader", [], held, copies, if k < 5 then [] else b.hash)],
      if k < 2 then [] else if k < 4 then [ProposalMsg(e)] else [ProposalMsg(e), CommitMsg(1, BlockID(b))],
      if k < 3 then [] else [Ack(FOLLOWER, BlockID(b), 1, Accepted)],
      map[FOLLOWER := if k < 3 then 0 else if k < 5 then 1 else 2],
      if 2 <= k < 4 then Some(e) else None, if 2 <= k < 4 then {"leader"} else {},
      if k < 1 then [] else [tx], if k < 4 then [] else [e])
  }

  function StageStep(b: Block, tx: Transaction, k: nat): Step {
    if k == 0 then Submit(tx)
    else if k == 1 then Propose(1, b, 0)
    else if k == 2 then Deliver(FOLLOWER, 0)
    else if k == 3 then HearAck(0)
    else Deliver(FOLLOWER, 1)
  }

  ghost predicate Goes(H: Hasher, b: Block, tx: Transaction, k: nat) {
    && Enabled(H, Stage(b, tx, k), StageStep(b, tx, k))
    && Next(H, Stage(b, tx, k), StageStep(b, tx, k)) == Stage(b, tx, k + 1)
  }

  lemma Submits(H: Hasher, b: Block, tx: Transaction)
    ensures Goes(H, b, tx, 0)
  {
    hide HexOf;
    assert [] + [tx] == [tx];
  }

  lemma Proposes(H: Hasher, b: Block, tx: Transaction)
    requires IsNewBlock(H, b, [tx], [], 0)
    ensures Goes(H, b, tx, 1)
  {
    hide IsNewBlock, HexOf, CommitIfMajority, Proposing;
    assert BatchOf([tx], 1) == [tx];
    ProposeStep(H, Stage(b, tx, 1), b);
    assert [] + [ProposalMsg(LogEntry(1, 0, 1, b))] == [ProposalMsg(LogEntry(1, 0, 1, b))];
  }

  lemma Acknowledges(H: Hasher, b: Block, tx: Transaction)
    ensures Goes(H, b, tx, 2)
  {
    hide HexOf, Delivered;
    ProposalArrives(Stage(b, tx, 2), FOLLOWER, LogEntry(1, 0, 1, b), Ack(FOLLOWER, BlockID(b), 1, Accepted));
  }

  lemma Commits(H: Hasher, b: Block, tx: Transaction)
    requires b.transactions == [tx]
    ensures Goes(H, b, tx, 3)
  {
    hide HexOf, CommitIfMajority, Heard, Committed;
    var c, e := Stage(b, tx, 3), LogEntry(1, 0, 1, b);
    AckArrives(H, c, e, Ack(FOLLOWER, BlockID(b), 1, Accepted));
    CommitsOne(c, e);
    assert [] + [b] == [b] && [] + [e] == [e];
  }

  lemma HandlesNotice(H: Hasher, b: Block, tx: Transaction, k: nat)
    requires k == 4 || k == 5
    ensures Goes(H, b, tx, k)
  {
    hide HexOf, Delivered;
    NoticeArrives(Stage(b, tx, k), FOLLOWER, LogEntry(1, 0, 1, b));
    assert [] + [b] == [b] && [b] + [b] == [b, b];
  }

  lemma Proceeds(H: Hasher, b: Block, tx: Transaction, k: nat)
    requires k < 6 && IsNewBlock(H, b, [tx], [], 0)
    ensures Goes(H, b, tx, k)
  {
    assert b.transactions == [tx];
    hide IsNewBlock, Goes;
    if k == 0 {
      Submits(H, b, tx);
    } else if k == 1 {
      Proposes(H, b, tx);
    } else if k == 2 {
      Acknowledges(H, b, tx);
    } else if k == 3 {
      Commits(H, b, tx);
    } else {
      HandlesNotice(H, b, tx, k);
    }
  }

  lemma Ends(b: Block, tx: Transaction)
    ensures IsStart(Stage(b, tx, 0))
    ensures var c := Stage(b, tx, 6);
            && FOLLOWER in c.followers && c.leader.chain == [b]
            && c.followers[FOLLOWER].chain == [b, b]
  {
  }

  /** A leader and one follower.  The block is proposed, acknowledged and committed, and
      its commit notice is delivered twice: the follower's chain holds it twice, which
      is no subsequence of the leader's. */
  lemma RepeatedNoticeRun(H: Hasher, tx: Transaction) returns (states: seq<Cluster>, steps: seq<Step>)
    ensures Run(H, states, steps) && |steps| == 6
    ensures var c := states[6];
            && FOLLOWER in c.followers && |c.leader.chain| == 1
            && c.followers[FOLLOWER].chain == c.leader.chain + c.leader.chain
            && !Subsequence(c.followers[FOLLOWER].chain, c.leader.chain)
  {
    hide Enabled, Next, IsNewBlock, OneTxBlock, HexOf, Subsequence, Stage, StageStep, IsStart;
    var b := OneTxBlock(H, tx, []);
    OneTxBlockIsNew(H, tx, []);
    states := seq(7, k requires 0 <= k < 7 => Stage(b, tx, k));
    steps := seq(6, k requires 0 <= k < 6 => StageStep(b, tx, k));
    forall k | 0 <= k < 6 ensures Enabled(H, states[k], steps[k]) && states[k + 1] == Next(H, states[k], steps[k]) {
      Proceeds(H, b, tx, k);
    }
    Ends(b, tx);
    NotTwice(b);
    assert [b] + [b] == [b, b];
  }

  lemma CommitsOne(c: Cluster, e: LogEntry)
    requires c.leader.pool == e.block.transactions
    ensures Commit(c, e).leader == c.leader.(chain := c.leader.chain + [e.block], lastHash := e.block.hash, pool := [])
  {
    RemainingIds(c.leader.pool, IdSet(e.block.transactions));
    NoIds(Remaining(c.leader.pool, IdSet(e.block.transactions)));
  }

  ghost predicate TwoNodes(c: Cluster) {
    && c.leader.self == "leader" == c.leader.leader && c.leader.isLeader && c.leader.term == 1
    && c.followers.Keys == {"follower"} == c.next.Keys
    && c.followers["follower"] == Node("follower", false, 1, "leader", [], c.followers["follower"].log,
                                       c.followers["follower"].chain, c.followers["follower"].lastHash)
  }

  lemma ProposeStep(H: Hasher, c: Cluster, b: Block)
    requires TwoNodes(c) && c.leader.log == []
    ensures CommitIfMajority(Proposing(c, b)) ==
            c.(leader := c.leader.(log := [LogEntry(1, 0, 1, b)]), sent := c.sent + [ProposalMsg(LogEntry(1, 0, 1, b))],
               pending := Some(LogEntry(1, 0, 1, b)), heard := {"leader"})
  {
    assert Members(Proposing(c, b)) == {"leader", "follower"};
    assert [] + [LogEntry(1, 0, 1, b)] == [LogEntry(1, 0, 1, b)];
  }

  lemma ProposalArrives(c: Cluster, f: PeerID, e: LogEntry, ack: Ack)
    requires TwoNodes(c) && f == "follower" && e.index == 1 && e.prevLogIndex == 0 && c.sent == [ProposalMsg(e)]
    requires c.followers[f].log == [] && c.next[f] == 0 && c.acks == [] && ack == Ack(f, BlockID(e.block), 1, Accepted)
    ensures Delivered(c, f, 0) ==
            c.(followers := map[f := c.followers[f].(log := [e])], acks := [ack], next := map[f := 1])
  {
    hide HexOf;
    assert [] + [e] == [e] && [] + [ack] == [ack];
  }

  lemma AckArrives(H: Hasher, c: Cluster, e: LogEntry, ack: Ack)
    requires TwoNodes(c) && c.pending == Some(e) && c.heard == {"leader"} && c.acks == [ack]
    requires e.index == 1 && ack == Ack("follower", BlockID(e.block), 1, Accepted)
    ensures CommitIfMajority(Heard(c, 0)) == Commit(c, e)
  {
    hide HexOf, Committed;
    assert Members(Heard(c, 0)) == {"leader", "follower"} == Heard(c, 0).heard;
  }

  lemma NoticeArrives(c: Cluster, f: PeerID, e: LogEntry)
    requires TwoNodes(c) && f == "follower" && e.index == 1 && |c.sent| == 2
               && c.sent[1] == CommitMsg(1, BlockID(e.block))
    requires c.followers[f].log == [e]
    ensures Delivered(c, f, 1) ==
            c.(followers := map[f := c.followers[f].(chain := c.followers[f].chain + [e.block],
                                                     lastHash := e.block.hash)],
               next := map[f := if c.next[f] <= 1 then 2 else c.next[f]])
  {
    hide HexOf;
  }

  lemma NotTwice(b: Block)
    ensures !Subsequence([b, b], [b])
  {
    assert [b][..0] == [] && [b, b][..1] == [b];
    assert !Subsequence([b, b], []) && !Subsequence([b], []);
  }
}
