/** The followers' side of one reign: what their committed chains have in common with
    the leader's, depending on the links. */
module Followers {
  import opened Bytes
  import opened Blocks
  import opened Chains
  import opened Nodes
  import opened Replication
  import opened Delivery

  // ---- Followers' chains ----

  /** The blocks announced by the commit notices among `msgs`, in order. */
  function Announced(log: seq<LogEntry>, msgs: seq<Msg>): seq<Block> {
    if msgs == [] then []
    else
      var front, m := Announced(log, msgs[..|msgs| - 1]), msgs[|msgs| - 1];
      if m.CommitMsg? && 1 <= m.logIndex <= |log| then front + [log[m.logIndex - 1].block] else front
  }

  /** The entries proposed among `msgs`, in order. */
  function Proposals(msgs: seq<Msg>): seq<LogEntry> {
    if msgs == [] then []
    else
      var front, m := Proposals(msgs[..|msgs| - 1]), msgs[|msgs| - 1];
      if m.ProposalMsg? then front + [m.entry] else front
  }

  lemma {:induction false} AnnouncedPrefix(log: seq<LogEntry>, msgs: seq<Msg>, k: nat)
    requires k <= |msgs|
    ensures Announced(log, msgs[..k]) <= Announced(log, msgs)
  {
    if k < |msgs| {
      AnnouncedPrefix(log, msgs[..|msgs| - 1], k);
      assert msgs[..|msgs| - 1][..k] == msgs[..k];
    } else {
      assert msgs[..k] == msgs;
    }
  }

  ghost predicate InRange(log: seq<LogEntry>, msgs: seq<Msg>) {
    forall i | 0 <= i < |msgs| && msgs[i].CommitMsg? :: 1 <= msgs[i].logIndex <= |log|
  }

  /** What was announced does not change as the log grows. */
  lemma {:induction false} AnnouncedStable(log: seq<LogEntry>, longer: seq<LogEntry>, msgs: seq<Msg>)
    requires log <= longer && InRange(log, msgs)
    ensures Announced(longer, msgs) == Announced(log, msgs)
  {
    if msgs != [] {
      AnnouncedStable(log, longer, msgs[..|msgs| - 1]);
    }
  }

  lemma AnnouncedOne(log: seq<LogEntry>, msgs: seq<Msg>, m: Msg)
    ensures Announced(log, msgs + [m]) ==
            if m.CommitMsg? && 1 <= m.logIndex <= |log| then Announced(log, msgs) + [log[m.logIndex - 1].block]
            else Announced(log, msgs)
  {
    assert (msgs + [m])[..|msgs|] == msgs;
  }

  lemma ProposalsOne(msgs: seq<Msg>, m: Msg)
    ensures Proposals(msgs + [m]) == if m.ProposalMsg? then Proposals(msgs) + [m.entry] else Proposals(msgs)
  {
    assert (msgs + [m])[..|msgs|] == msgs;
  }

  /** The leader's broadcasts record its log and its chain: every entry is proposed
      once, in order, before it is committed. */
  ghost predicate Broadcasts(c: Cluster) {
    && c.leader.log == Proposals(c.sent)
    && c.leader.chain == Announced(c.leader.log, c.sent)
    && forall i | 0 <= i < |c.sent| && c.sent[i].CommitMsg? :: c.sent[i].logIndex <= |Proposals(c.sent[..i])|
  }

  lemma SentOneMore(c: Cluster, sent: seq<Msg>, m: Msg)
    requires forall i | 0 <= i < |sent| && sent[i].CommitMsg? :: sent[i].logIndex <= |Proposals(sent[..i])|
    requires m.CommitMsg? ==> m.logIndex <= |Proposals(sent)|
    ensures var t := sent + [m];
            forall i | 0 <= i < |t| && t[i].CommitMsg? :: t[i].logIndex <= |Proposals(t[..i])|
  {
    var t := sent + [m];
    forall i | 0 <= i < |t| && t[i].CommitMsg? ensures t[i].logIndex <= |Proposals(t[..i])| {
      assert t[..i] == sent[..i];
      assert sent[..|sent|] == sent;
    }
  }

  lemma CommitBroadcasts(c: Cluster)
    requires Replicated(c) && Broadcasts(c)
    ensures Broadcasts(CommitIfMajority(c))
  {
    hide Announced, Proposals, Replicated, Members, Remaining, IdSet, HexOf;
    PendingAt(c);
    if c.pending.Some? && |c.heard| >= Majority(|Members(c)|) {
      var e := c.pending.value;
      var m := CommitMsg(e.index, BlockID(e.block));
      AnnouncedOne(c.leader.log, c.sent, m);
      ProposalsOne(c.sent, m);
      SentOneMore(c, c.sent, m);
    }
  }

  lemma SentInRange(c: Cluster)
    requires Replicated(c)
    ensures InRange(c.leader.log, c.sent)
  {
    forall i | 0 <= i < |c.sent| && c.sent[i].CommitMsg? ensures 1 <= c.sent[i].logIndex <= |c.leader.log| {
      assert MsgOk(c, c.sent[i]);
    }
  }

  lemma ProposeBroadcasts(c: Cluster, block: Block)
    requires Replicated(c) && Broadcasts(c)
    ensures Broadcasts(Proposing(c, block))
  {
    hide Replicated, Announced, Proposals, InRange, EntryFor;
    var e := EntryFor(c.leader, block);
    var m := ProposalMsg(e);
    SentInRange(c);
    AnnouncedStable(c.leader.log, c.leader.log + [e], c.sent);
    AnnouncedOne(c.leader.log + [e], c.sent, m);
    ProposalsOne(c.sent, m);
    SentOneMore(c, c.sent, m);
  }

  lemma StepBroadcasts(H: Hasher, c: Cluster, step: Step)
    requires Replicated(c) && Broadcasts(c) && Enabled(H, c, step)
    ensures Broadcasts(Next(H, c, step))
  {
    hide IsNewBlock, Replicated, Announced, Proposals, Proposing, Delivered, CommitIfMajority, Heard;
    match step {
      case Propose(_, block, _) =>
        ProposeBroadcasts(c, block);
        ProposeReplicated(c, block);
        CommitBroadcasts(Proposing(c, block));
      case HearAck(k) =>
        HeardReplicated(c, k);
        HeardBroadcasts(c, k);
        CommitBroadcasts(Heard(c, k));
      case Deliver(f, i) =>
        DeliverHandles(c, f, i);
      case _ =>
    }
  }

  lemma HeardBroadcasts(c: Cluster, k: nat)
    requires Broadcasts(c) && c.pending.Some? && k < |c.acks|
    ensures Broadcasts(Heard(c, k))
  {
    hide Announced, Proposals;
  }

  lemma {:induction false} RunBroadcasts(H: Hasher, states: seq<Cluster>, steps: seq<Step>, n: nat)
    requires Run(H, states, steps) && n <= |steps|
    ensures Broadcasts(states[n])
  {
    hide Next, Enabled, Replicated;
    if n > 0 {
      RunBroadcasts(H, states, steps, n - 1);
      RunReplicated(H, states, steps, n - 1);
      StepBroadcasts(H, states[n - 1], steps[n - 1]);
    }
  }

  /** Links deliver every broadcast once and in order. */
  ghost predicate Lossless(states: seq<Cluster>, steps: seq<Step>) {
    forall i | 0 <= i < |steps| && i < |states| && steps[i].Deliver? ::
      steps[i].f in states[i].next && steps[i].i == states[i].next[steps[i].f]
  }

  /** Links deliver in order and at most once, but may lose. */
  ghost predicate InOrder(states: seq<Cluster>, steps: seq<Step>) {
    forall i | 0 <= i < |steps| && i < |states| && steps[i].Deliver? ::
      steps[i].f in states[i].next && steps[i].i >= states[i].next[steps[i].f]
  }

  ghost predicate FollowerExact(c: Cluster, f: PeerID)
    requires f in c.followers && f in c.next
  {
    var n, k := c.followers[f], c.next[f];
    && k <= |c.sent|
    && n.log == Proposals(c.sent[..k])
    && n.chain == Announced(c.leader.log, c.sent[..k])
    && n.lastHash == Tip([], n.chain)
  }

  lemma DeliverExact(c: Cluster, f: PeerID)
    requires Replicated(c) && Broadcasts(c) && f in c.followers && f in c.next
    requires c.next[f] < |c.sent| && FollowerExact(c, f)
    ensures FollowerExact(Delivered(c, f, c.next[f]), f)
  {
    hide Delivered, Announced, Proposals, Replicated, HexOf, Numbered;
    ReplicatedAt(c, f, c.next[f]);
    var k := c.next[f];
    var m := c.sent[k];
    DeliverHandles(c, f, k);
    if m.ProposalMsg? {
      ProposalAt(c, k);
    } else {
      assert m.logIndex <= |Proposals(c.sent[..k])|;
    }
    assert c.sent[..k + 1] == c.sent[..k] + [m];
    AnnouncedOne(c.leader.log, c.sent[..k], m);
    ProposalsOne(c.sent[..k], m);
  }

  /** The proposal at position `k` carries the next index. */
  lemma ProposalAt(c: Cluster, k: nat)
    requires Replicated(c) && Broadcasts(c) && k < |c.sent| && c.sent[k].ProposalMsg?
    ensures c.sent[k].entry.index == |Proposals(c.sent[..k])| + 1
  {
    hide Replicated, Proposals, Announced;
    PendingAt(c);
    assert c.sent[..k + 1] == c.sent[..k] + [c.sent[k]];
    ProposalsOne(c.sent[..k], c.sent[k]);
    ProposalsPrefix(c.sent, k + 1);
    var p := Proposals(c.sent[..k + 1]);
    assert p[|p| - 1] == c.sent[k].entry == c.leader.log[|p| - 1];
  }

  lemma {:induction false} ProposalsPrefix(msgs: seq<Msg>, k: nat)
    requires k <= |msgs|
    ensures Proposals(msgs[..k]) <= Proposals(msgs)
  {
    if k < |msgs| {
      ProposalsPrefix(msgs[..|msgs| - 1], k);
      assert msgs[..|msgs| - 1][..k] == msgs[..k];
    } else {
      assert msgs[..k] == msgs;
    }
  }

  /** Growth of the leader's side does not disturb a follower. */
  lemma ExactStays(c: Cluster, d: Cluster, f: PeerID)
    requires Replicated(c) && Grows(c, d) && f in c.followers && f in c.next && FollowerExact(c, f)
    requires f in d.next && d.next[f] == c.next[f] && d.followers[f] == c.followers[f]
    ensures FollowerExact(d, f)
  {
    var k := c.next[f];
    assert d.sent[..k] == c.sent[..k];
    forall i | 0 <= i < k && c.sent[..k][i].CommitMsg? ensures 1 <= c.sent[..k][i].logIndex <= |c.leader.log| {
      assert MsgOk(c, c.sent[i]);
    }
    AnnouncedStable(c.leader.log, d.leader.log, c.sent[..k]);
  }

  lemma OthersUntouched(H: Hasher, c: Cluster, step: Step, f: PeerID)
    requires LeaderOk(c) && Enabled(H, c, step) && f in c.followers && !(step.Deliver? && step.f == f)
    ensures var d := Next(H, c, step);
              f in d.next && d.next[f] == c.next[f] && f in d.followers && d.followers[f] == c.followers[f]
  {
  }

  lemma OthersUntouchedIf(H: Hasher, c: Cluster, step: Step, f: PeerID)
    requires LeaderOk(c) && Enabled(H, c, step) && f in c.followers
    ensures var d := Next(H, c, step);
            if step.Deliver? && step.f == f then f in d.next && f in d.followers
            else f in d.next && d.next[f] == c.next[f] && f in d.followers && d.followers[f] == c.followers[f]
  {
    if !(step.Deliver? && step.f == f) {
      OthersUntouched(H, c, step, f);
    }
  }

  lemma StepExact(H: Hasher, c: Cluster, step: Step, f: PeerID)
    requires Replicated(c) && Broadcasts(c) && Enabled(H, c, step) && Grows(c, Next(H, c, step))
    requires f in c.followers && f in c.next && FollowerExact(c, f)
    requires step.Deliver? ==> step.f in c.next && step.i == c.next[step.f]
    ensures var d := Next(H, c, step); f in d.followers && f in d.next && FollowerExact(d, f)
  {
    hide FollowerExact, Broadcasts, Replicated;
    PendingAt(c);
    OthersUntouchedIf(H, c, step, f);
    if step.Deliver? && step.f == f {
      DeliverExact(c, f);
    } else {
      ExactStays(c, Next(H, c, step), f);
    }
  }

  lemma {:induction false} RunExact(H: Hasher, states: seq<Cluster>, steps: seq<Step>, n: nat, f: PeerID)
    requires Run(H, states, steps) && Lossless(states, steps) && n <= |steps| && f in states[n].followers
    ensures f in states[n].next && FollowerExact(states[n], f)
  {
    hide Next, Enabled, Replicated, Broadcasts;
    if n > 0 {
      RunReplicated(H, states, steps, n - 1);
      RunBroadcasts(H, states, steps, n - 1);
      RunGrows(H, states, steps, n - 1, n);
      RunExact(H, states, steps, n - 1, f);
      hide FollowerExact;
      StepExact(H, states[n - 1], steps[n - 1], f);
    } else {
      assert states[0].sent[..0] == [];
    }
  }

  lemma ExactIsPrefix(H: Hasher, c: Cluster, f: PeerID)
    requires Broadcasts(c) && LeaderChainOk(H, c)
    requires f in c.followers && f in c.next && FollowerExact(c, f)
    ensures var r := c.followers[f];
            r.chain <= c.leader.chain && Linked(H, [], r.chain) && r.lastHash == Tip([], r.chain)
  {
    hide Linked, Announced, Proposals;
    AnnouncedPrefix(c.leader.log, c.sent, c.next[f]);
    assert c.followers[f].chain == c.leader.chain[..|c.followers[f].chain|];
    LinkedPrefix(H, [], c.leader.chain, |c.followers[f].chain|);
  }

  /** With in-order lossless links, every follower's chain is a prefix of the
      leader's, hash-linked, and its tip is the follower's last hash. */
  lemma FollowerChainIsPrefix(H: Hasher, states: seq<Cluster>, steps: seq<Step>, n: nat, f: PeerID)
    requires Run(H, states, steps) && Lossless(states, steps) && n <= |steps| && f in states[n].followers
    ensures var c := states[n]; var r := c.followers[f];
            r.chain <= c.leader.chain && Linked(H, [], r.chain) && r.lastHash == Tip([], r.chain)
  {
    hide Next, Enabled, FollowerExact, Broadcasts, LeaderChainOk;
    RunExact(H, states, steps, n, f);
    RunBroadcasts(H, states, steps, n);
    RunChainOk(H, states, steps, n);
    ExactIsPrefix(H, states[n], f);
  }

  // ---- Lossy links ----

  predicate Subsequence(a: seq<Block>, b: seq<Block>) {
    || a == []
    || (b != [] && Subsequence(a, b[..|b| - 1]))
    || (b != [] && a[|a| - 1] == b[|b| - 1] && Subsequence(a[..|a| - 1], b[..|b| - 1]))
  }

  lemma {:induction false} SubsequenceOfLonger(a: seq<Block>, b: seq<Block>, c: seq<Block>)
    requires Subsequence(a, b) && b <= c
    ensures Subsequence(a, c)
  {
    if |b| < |c| {
      SubsequenceOfLonger(a, b, c[..|c| - 1]);
    } else {
      assert b == c;
    }
  }

  lemma SubsequenceExtend(a: seq<Block>, b: seq<Block>, x: Block)
    requires Subsequence(a, b)
    ensures Subsequence(a + [x], b + [x])
  {
    assert (a + [x])[..|a|] == a && (b + [x])[..|b|] == b;
  }

  ghost predicate FollowerSubsequence(c: Cluster, f: PeerID)
    requires f in c.followers && f in c.next
  {
    c.next[f] <= |c.sent| && Subsequence(c.followers[f].chain, Announced(c.leader.log, c.sent[..c.next[f]]))
  }

  lemma DeliverSubsequence(c: Cluster, f: PeerID, i: nat)
    requires Replicated(c) && f in c.followers && c.next[f] <= i < |c.sent| && FollowerSubsequence(c, f)
    ensures FollowerSubsequence(Delivered(c, f, i), f)
  {
    hide Delivered, Announced, Replicated, MsgOk, Subsequence;
    ReplicatedAt(c, f, i);
    var m, n, log := c.sent[i], c.followers[f], c.leader.log;
    DeliverHandles(c, f, i);
    assert c.sent[..i + 1] == c.sent[..i] + [m];
    assert c.sent[..i][..c.next[f]] == c.sent[..c.next[f]];
    AnnouncedOne(log, c.sent[..i], m);
    AnnouncedPrefix(log, c.sent[..i], c.next[f]);
    var before := Announced(log, c.sent[..i]);
    SubsequenceOfLonger(n.chain, Announced(log, c.sent[..c.next[f]]), before);
    if m.CommitMsg? {
      var b := log[m.logIndex - 1].block;
      SubsequenceExtend(n.chain, before, b);
      SubsequenceOfLonger(n.chain, before, before + [b]);
    }
  }

  lemma SubsequenceStays(c: Cluster, d: Cluster, f: PeerID)
    requires Replicated(c) && Grows(c, d) && f in c.followers && f in c.next && FollowerSubsequence(c, f)
    requires f in d.next && d.next[f] == c.next[f] && d.followers[f] == c.followers[f]
    ensures FollowerSubsequence(d, f)
  {
    var k := c.next[f];
    assert d.sent[..k] == c.sent[..k];
    forall i | 0 <= i < k && c.sent[..k][i].CommitMsg? ensures 1 <= c.sent[..k][i].logIndex <= |c.leader.log| {
      assert MsgOk(c, c.sent[i]);
    }
    AnnouncedStable(c.leader.log, d.leader.log, c.sent[..k]);
  }

  lemma StepSubsequence(H: Hasher, c: Cluster, step: Step, f: PeerID)
    requires Replicated(c) && Enabled(H, c, step) && Grows(c, Next(H, c, step))
    requires f in c.followers && f in c.next && FollowerSubsequence(c, f)
    requires step.Deliver? ==> step.f in c.next && step.i >= c.next[step.f]
    ensures var d := Next(H, c, step); f in d.followers && f in d.next && FollowerSubsequence(d, f)
  {
    hide FollowerSubsequence, Replicated;
    PendingAt(c);
    OthersUntouchedIf(H, c, step, f);
    if step.Deliver? && step.f == f {
      DeliverSubsequence(c, f, step.i);
    } else {
      SubsequenceStays(c, Next(H, c, step), f);
    }
  }

  lemma {:induction false} RunSubsequence(H: Hasher, states: seq<Cluster>, steps: seq<Step>, n: nat, f: PeerID)
    requires Run(H, states, steps) && InOrder(states, steps) && n <= |steps| && f in states[n].followers
    ensures f in states[n].next && FollowerSubsequence(states[n], f)
  {
    hide Next, Enabled, Replicated;
    if n > 0 {
      RunReplicated(H, states, steps, n - 1);
      RunGrows(H, states, steps, n - 1, n);
      RunSubsequence(H, states, steps, n - 1, f);
      hide FollowerSubsequence;
      StepSubsequence(H, states[n - 1], steps[n - 1], f);
    }
  }

  /** With in-order links that lose messages, a follower that does not sync still
      commits a subsequence of the leader's chain. */
  lemma FollowerChainIsSubsequence(H: Hasher, states: seq<Cluster>, steps: seq<Step>, n: nat, f: PeerID)
    requires Run(H, states, steps) && InOrder(states, steps) && n <= |steps| && f in states[n].followers
    ensures Subsequence(states[n].followers[f].chain, states[n].leader.chain)
  {
    hide Next, Enabled, InOrder, Announced, Proposals;
    var c := states[n];
    RunSubsequence(H, states, steps, n, f);
    RunBroadcasts(H, states, steps, n);
    AnnouncedPrefix(c.leader.log, c.sent, c.next[f]);
    SubsequenceOfLonger(c.followers[f].chain, Announced(c.leader.log, c.sent[..c.next[f]]), c.leader.chain);
  }

  // ---- Arbitrary links ----

  ghost predicate OnlyCommitted(c: Cluster, f: PeerID)
    requires f in c.followers
  {
    forall b | b in c.followers[f].chain :: b in c.leader.chain
  }

  lemma DeliverOnlyCommitted(H: Hasher, c: Cluster, f: PeerID, i: nat)
    requires Replicated(c) && LeaderChainOk(H, c) && f in c.followers && i < |c.sent| && OnlyCommitted(c, f)
    ensures OnlyCommitted(Delivered(c, f, i), f)
  {
    hide Delivered, Replicated, Linked, Follows, BlockHash, HexOf;
    ReplicatedAt(c, f, i);
    DeliverHandles(c, f, i);
    var m := c.sent[i];
    if m.CommitMsg? {
      var e := c.leader.log[m.logIndex - 1];
      var k :| 0 <= k < |c.committed| && c.committed[k] == e;
      assert c.leader.chain[k] == e.block;
    }
  }

  lemma ChainGrows(H: Hasher, c: Cluster, step: Step)
    requires Enabled(H, c, step)
    ensures c.leader.chain <= Next(H, c, step).leader.chain
  {
    hide IsNewBlock, OnProposal, OnCommit, Remaining, IdSet, HexOf, Members, LastIndex, BatchOf;
  }

  lemma StepOnlyCommitted(H: Hasher, c: Cluster, step: Step, f: PeerID)
    requires Replicated(c) && LeaderChainOk(H, c) && Enabled(H, c, step) && f in c.followers && OnlyCommitted(c, f)
    ensures f in Next(H, c, step).followers && OnlyCommitted(Next(H, c, step), f)
  {
    ChainGrows(H, c, step);
    if step.Deliver? && step.f == f {
      DeliverOnlyCommitted(H, c, f, step.i);
    } else {
      OthersUntouched(H, c, step, f);
    }
  }

  /** Whatever the network does, a follower commits only committed blocks. */
  lemma {:induction false} FollowersCommitOnlyCommitted(H: Hasher, states: seq<Cluster>, steps: seq<Step>, n: nat,
                                                        f: PeerID)
    requires Run(H, states, steps) && n <= |steps| && f in states[n].followers
    ensures forall b | b in states[n].followers[f].chain :: b in states[n].leader.chain
  {
    hide Next, Enabled, Replicated, LeaderChainOk;
    if n > 0 {
      RunReplicated(H, states, steps, n - 1);
      RunGrows(H, states, steps, n - 1, n);
      RunChainOk(H, states, steps, n - 1);
      FollowersCommitOnlyCommitted(H, states, steps, n - 1, f);
      StepOnlyCommitted(H, states[n - 1], steps[n - 1], f);
    }
  }
}
