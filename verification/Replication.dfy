/** One leader's reign: a fixed leader, term and membership, and a network that
    may lose, repeat and reorder every message. */
module Replication {
  import opened Wrappers
  import opened Bytes
  import opened Transactions
  import opened Blocks
  import opened Nodes

  datatype Msg = ProposalMsg(entry: LogEntry) | CommitMsg(logIndex: int, blockID: Text)

  /** `sent` holds every broadcast in order and `acks` every acknowledgment; any
      of them may be delivered at any later time, any number of times.
      `next[f]` is one past the last broadcast that reached follower `f`. */
  datatype Cluster = Cluster(
    leader: Node, followers: map<PeerID, Node>,
    sent: seq<Msg>, acks: seq<Ack>, next: map<PeerID, nat>,
    pending: Option<LogEntry>, heard: set<PeerID>,
    submitted: seq<Transaction>, committed: seq<LogEntry>)

  datatype Step =
    | Submit(tx: Transaction)
    | Propose(batchSize: nat, block: Block, now: int)
    | Deliver(f: PeerID, i: nat)
    | HearAck(k: nat)
    | Timeout

  function Members(c: Cluster): set<PeerID> {
    {c.leader.self} + c.followers.Keys
  }

  function LogOf(c: Cluster, p: PeerID): seq<LogEntry>
    requires p in Members(c)
  {
    if p == c.leader.self then c.leader.log else c.followers[p].log
  }

  ghost predicate IsStart(c: Cluster) {
    && c.leader.self != "" && c.leader.self !in c.followers
    && c.leader == Node(c.leader.self, true, c.leader.term, c.leader.self, [], [], [], [])
    && (forall f | f in c.followers :: c.followers[f] == Node(f, false, c.leader.term, c.leader.self, [], [], [], []))
    && c.sent == [] && c.acks == [] && c.pending == None && c.heard == {}
    && c.next.Keys == c.followers.Keys && (forall f | f in c.next :: c.next[f] == 0)
    && c.submitted == [] && c.committed == []
  }

  /** A proposal resolves before the next one starts. */
  ghost predicate Enabled(H: Hasher, c: Cluster, step: Step) {
    match step
    case Submit(tx) => true
    case Propose(batchSize, block, now) =>
      && c.pending.None? && c.leader.pool != []
      && IsNewBlock(H, block, BatchOf(c.leader.pool, batchSize), c.leader.lastHash, now)
    case Deliver(f, i) => f in c.followers && f in c.next && i < |c.sent|
    case HearAck(k) => c.pending.Some? && k < |c.acks|
    case Timeout => c.pending.Some?
  }

  function Commit(c: Cluster, entry: LogEntry): Cluster {
    c.(leader := Committed(c.leader, entry.block),
       sent := c.sent + [CommitMsg(entry.index, BlockID(entry.block))],
       pending := None, heard := {}, committed := c.committed + [entry])
  }

  function CommitIfMajority(c: Cluster): Cluster {
    if c.pending.Some? && |c.heard| >= Majority(|Members(c)|) then Commit(c, c.pending.value) else c
  }

  function Proposing(c: Cluster, block: Block): Cluster {
    var entry := EntryFor(c.leader, block);
    c.(leader := c.leader.(log := c.leader.log + [entry]), sent := c.sent + [ProposalMsg(entry)],
       pending := Some(entry), heard := {c.leader.self})
  }

  function Delivered(c: Cluster, f: PeerID, i: nat): Cluster
    requires f in c.followers && f in c.next && i < |c.sent|
  {
    var d := c.(next := c.next[f := if c.next[f] <= i then i + 1 else c.next[f]]);
    match c.sent[i]
    case ProposalMsg(entry) =>
      var (n, reply) := OnProposal(c.followers[f], c.leader.self, c.leader.term, entry);
      d.(followers := c.followers[f := n], acks := if reply.Some? then c.acks + [reply.value] else c.acks)
    case CommitMsg(logIndex, blockID) =>
      d.(followers := c.followers[f := OnCommit(c.followers[f], c.leader.self, c.leader.term, logIndex, blockID).0])
  }

  function Heard(c: Cluster, k: nat): Cluster
    requires c.pending.Some? && k < |c.acks|
  {
    if Confirms(c.acks[k], c.pending.value) then c.(heard := c.heard + {c.acks[k].sender}) else c
  }

  ghost function Next(H: Hasher, c: Cluster, step: Step): Cluster
    requires Enabled(H, c, step)
  {
    match step
    case Submit(tx) => c.(leader := c.leader.(pool := c.leader.pool + [tx]), submitted := c.submitted + [tx])
    case Propose(_, block, _) => CommitIfMajority(Proposing(c, block))
    case Deliver(f, i) => Delivered(c, f, i)
    case HearAck(k) => CommitIfMajority(Heard(c, k))
    case Timeout => c.(pending := None, heard := {})
  }

  ghost predicate Run(H: Hasher, states: seq<Cluster>, steps: seq<Step>) {
    && |states| == |steps| + 1
    && IsStart(states[0])
    && forall i | 0 <= i < |steps| :: Enabled(H, states[i], steps[i]) && states[i + 1] == Next(H, states[i], steps[i])
  }

  // ---- Logs ----

  ghost predicate Numbered(log: seq<LogEntry>, term: int) {
    forall i | 0 <= i < |log| :: log[i].index == i + 1 && log[i].prevLogIndex == i && log[i].term == term
  }

  lemma {:induction false} FindNumbered(log: seq<LogEntry>, term: int, index: int, i: nat)
    requires Numbered(log, term) && i <= |log|
    ensures FindEntryFrom(log, index, i) == if i < index <= |log| then Some(log[index - 1]) else None
    decreases |log| - i
  {
    if i < |log| {
      FindNumbered(log, term, index, i + 1);
    }
  }

  /** Truncation keeps exactly the entries below the index. */
  lemma {:induction false} TruncatedExactly(log: seq<LogEntry>, index: int)
    requires forall i | 0 <= i < |log| - 1 :: log[i].index <= log[i + 1].index
    ensures Truncated(log, index) <= log
    ensures forall i | 0 <= i < |Truncated(log, index)| :: log[i].index < index
    ensures forall i | |Truncated(log, index)| <= i < |log| :: log[i].index >= index
  {
    if log != [] {
      TruncatedExactly(log[1..], index);
      if log[0].index >= index {
        AscendingFrom(log, 0);
      }
    }
  }

  lemma {:induction false} AscendingFrom(log: seq<LogEntry>, k: nat)
    requires k < |log| && forall i | 0 <= i < |log| - 1 :: log[i].index <= log[i + 1].index
    ensures forall i | k <= i < |log| :: log[k].index <= log[i].index
    decreases |log| - k
  {
    if k + 1 < |log| {
      AscendingFrom(log, k + 1);
    }
  }

  ghost predicate InLog(c: Cluster, entry: LogEntry) {
    1 <= entry.index <= |c.leader.log| && c.leader.log[entry.index - 1] == entry
  }

  ghost predicate LeaderOk(c: Cluster) {
    && c.leader.isLeader && c.leader.leader == c.leader.self != "" && c.leader.self !in c.followers
    && c.next.Keys == c.followers.Keys
    && Numbered(c.leader.log, c.leader.term)
  }

  ghost predicate MsgOk(c: Cluster, m: Msg) {
    match m
    case ProposalMsg(e) => InLog(c, e)
    case CommitMsg(logIndex, blockID) =>
      1 <= logIndex <= |c.leader.log| && blockID == BlockID(c.leader.log[logIndex - 1].block)
        && c.leader.log[logIndex - 1] in c.committed
  }

  ghost predicate FollowerOk(c: Cluster, f: PeerID)
    requires f in c.followers
  {
    var n := c.followers[f];
    n.self == f && !n.isLeader && n.term == c.leader.term && n.leader == c.leader.self && n.log <= c.leader.log
  }

  /** `f` still holds what it acknowledged. */
  ghost predicate AckOk(c: Cluster, a: Ack) {
    a.sender in c.followers && (a.verdict == Accepted ==> a.logIndex <= |c.followers[a.sender].log|)
  }

  /** The members heard from hold the pending entry, the last one of the log. */
  ghost predicate PendingOk(c: Cluster) {
    c.pending.Some? ==>
      && InLog(c, c.pending.value) && c.pending.value.index == |c.leader.log|
      && forall p | p in c.heard :: p in Members(c) && c.pending.value in LogOf(c, p)
  }

  function Holders(c: Cluster, entry: LogEntry): set<PeerID> {
    set p | p in Members(c) && entry in LogOf(c, p)
  }

  ghost predicate Durable(c: Cluster, entry: LogEntry) {
    InLog(c, entry) && |Holders(c, entry)| >= Majority(|Members(c)|)
  }

  ghost predicate Replicated(c: Cluster) {
    && LeaderOk(c)
    && (forall m | m in c.sent :: MsgOk(c, m))
    && (forall f | f in c.followers :: FollowerOk(c, f))
    && (forall a | a in c.acks :: AckOk(c, a))
    && PendingOk(c)
    && (forall e | e in c.committed :: Durable(c, e))
  }

  /** Between two states of a run, logs and the committed list only grow. */
  ghost predicate Grows(c: Cluster, d: Cluster) {
    && d.followers.Keys == c.followers.Keys && d.leader.self == c.leader.self && d.leader.term == c.leader.term
    && c.leader.log <= d.leader.log && c.sent <= d.sent && c.committed <= d.committed && c.submitted <= d.submitted
    && forall f | f in c.followers :: c.followers[f].log <= d.followers[f].log
  }

  lemma HoldersGrow(c: Cluster, d: Cluster, entry: LogEntry)
    requires Grows(c, d)
    ensures Members(d) == Members(c) && Holders(c, entry) <= Holders(d, entry)
    ensures |Holders(c, entry)| <= |Holders(d, entry)|
  {
    forall p | p in Holders(c, entry) ensures p in Holders(d, entry) {
      assert LogOf(c, p) <= LogOf(d, p);
    }
    SubsetSize(Holders(c, entry), Holders(d, entry));
  }

  lemma DurableGrows(c: Cluster, d: Cluster)
    requires Grows(c, d) && forall e | e in c.committed :: Durable(c, e)
    ensures forall e | e in c.committed :: Durable(d, e)
  {
    forall e | e in c.committed ensures Durable(d, e) {
      HoldersGrow(c, d, e);
    }
  }

  /** When those heard from form a majority, the pending entry is durable. */
  lemma CommitDurable(c: Cluster)
    requires Replicated(c) && c.pending.Some? && |c.heard| >= Majority(|Members(c)|)
    ensures var d := Commit(c, c.pending.value);
            Grows(c, d) && forall e | e in d.committed :: Durable(d, e)
  {
    var e, d := c.pending.value, Commit(c, c.pending.value);
    DurableGrows(c, d);
    assert c.heard <= Holders(d, e);
    SubsetSize(c.heard, Holders(d, e));
    assert Durable(d, e);
    hide Durable, Holders, HexOf;
  }

  /** Earlier messages stay true as logs grow. */
  lemma KeepsMsgs(c: Cluster, d: Cluster, more: seq<Msg>)
    requires Grows(c, d) && d.sent == c.sent + more
    requires (forall m | m in c.sent :: MsgOk(c, m)) && (forall m | m in more :: MsgOk(d, m))
    ensures forall m | m in d.sent :: MsgOk(d, m)
  {
    forall m | m in d.sent ensures MsgOk(d, m) {
      if m in c.sent {
        assert MsgOk(c, m);
      } else {
        assert m in more;
      }
    }
  }

  /** So do the followers' parts, when only the leader moves. */
  lemma KeepsFollowers(c: Cluster, d: Cluster)
    requires Grows(c, d) && d.followers == c.followers && d.acks == c.acks
    requires (forall f | f in c.followers :: FollowerOk(c, f)) && (forall a | a in c.acks :: AckOk(c, a))
    ensures (forall f | f in d.followers :: FollowerOk(d, f)) && (forall a | a in d.acks :: AckOk(d, a))
  {
    forall f | f in d.followers ensures FollowerOk(d, f) { assert FollowerOk(c, f); }
    forall a | a in d.acks ensures AckOk(d, a) { assert AckOk(c, a); }
  }

  lemma CommitParts(c: Cluster)
    requires Replicated(c) && c.pending.Some?
    ensures var e, d := c.pending.value, Commit(c, c.pending.value);
            LeaderOk(d) && PendingOk(d) && MsgOk(d, CommitMsg(e.index, BlockID(e.block)))
  {
    hide Durable, HexOf, Remaining, IdSet, FollowerOk, AckOk;
    assert c.pending.value in Commit(c, c.pending.value).committed;
  }

  lemma CommitReplicated(c: Cluster)
    requires Replicated(c)
    ensures Replicated(CommitIfMajority(c)) && Grows(c, CommitIfMajority(c))
  {
    hide Durable, HexOf, Remaining, IdSet, FollowerOk, AckOk, LeaderOk, PendingOk, MsgOk, Members;
    if c.pending.Some? && |c.heard| >= Majority(|Members(c)|) {
      var e, d := c.pending.value, CommitIfMajority(c);
      CommitDurable(c);
      CommitParts(c);
      KeepsMsgs(c, d, [CommitMsg(e.index, BlockID(e.block))]);
      KeepsFollowers(c, d);
    }
  }

  lemma ProposeReplicated(c: Cluster, block: Block)
    requires Replicated(c) && c.pending.None?
    ensures Replicated(Proposing(c, block)) && Grows(c, Proposing(c, block))
  {
    hide Durable, FollowerOk, AckOk;
    var e, d := EntryFor(c.leader, block), Proposing(c, block);
    DurableGrows(c, d);
    KeepsMsgs(c, d, [ProposalMsg(e)]);
    KeepsFollowers(c, d);
  }

  /** A proposal extends a follower's log only by the leader's next entry. */
  lemma OnProposalKeepsPrefix(c: Cluster, f: PeerID, entry: LogEntry)
    requires LeaderOk(c) && f in c.followers && FollowerOk(c, f) && InLog(c, entry)
    ensures var n, (m, reply) := c.followers[f], OnProposal(c.followers[f], c.leader.self, c.leader.term, entry);
            && m == n.(log := m.log) && n.log <= m.log <= c.leader.log
            && m.log == (if entry.index == |n.log| + 1 then n.log + [entry] else n.log)
            && (reply.Some? ==> reply.value.sender == f && reply.value.logIndex == entry.index)
            && (reply.Some? && reply.value.verdict == Accepted ==> entry.index <= |m.log|)
            && (entry.index == |n.log| + 1 ==> reply == Some(Ack(f, BlockID(entry.block), entry.index, Accepted)))
            && (entry.index != |n.log| + 1 ==> reply.Some? && reply.value.verdict != Accepted)
  {
    var n := c.followers[f];
    assert Numbered(n.log, c.leader.term);
    FindNumbered(n.log, c.leader.term, entry.prevLogIndex, 0);
    if entry.index == |n.log| + 1 {
      assert n.log + [entry] == c.leader.log[..entry.index];
    }
  }

  lemma OnCommitAppends(c: Cluster, f: PeerID, logIndex: int, blockID: Text)
    requires LeaderOk(c) && f in c.followers && FollowerOk(c, f)
    requires MsgOk(c, CommitMsg(logIndex, blockID))
    ensures var n, (m, sync) := c.followers[f],
              OnCommit(c.followers[f], c.leader.self, c.leader.term, logIndex, blockID);
            && sync == (logIndex > |n.log|)
            && m == (if logIndex > |n.log| then n
                     else n.(chain := n.chain + [c.leader.log[logIndex - 1].block],
                             lastHash := c.leader.log[logIndex - 1].block.hash))
  {
    var n := c.followers[f];
    assert Numbered(n.log, c.leader.term);
    FindNumbered(n.log, c.leader.term, logIndex, 0);
  }

  lemma ReplicatedAt(c: Cluster, f: PeerID, i: nat)
    requires Replicated(c) && f in c.followers && i < |c.sent|
    ensures LeaderOk(c) && FollowerOk(c, f) && MsgOk(c, c.sent[i]) && f in c.next
  {
  }

  lemma PendingAt(c: Cluster)
    requires Replicated(c)
    ensures c.pending.Some? ==> InLog(c, c.pending.value) && c.pending.value.index == |c.leader.log|
    ensures LeaderOk(c)
  {
  }

  lemma DeliverGrows(c: Cluster, f: PeerID, i: nat)
    requires Replicated(c) && f in c.followers && i < |c.sent|
    ensures var d := Delivered(c, f, i);
            && Grows(c, d) && LeaderOk(d) && FollowerOk(d, f)
            && (forall a | a in d.acks :: a in c.acks || AckOk(d, a))
            && d.leader == c.leader && d.sent == c.sent && d.pending == c.pending && d.heard == c.heard
            && d.committed == c.committed && d.followers == c.followers[f := d.followers[f]]
  {
    hide OnProposal, OnCommit, Replicated, HexOf, BlockID, MsgOk, Durable, PendingOk, Numbered, InLog;
    ReplicatedAt(c, f, i);
    match c.sent[i]
    case ProposalMsg(entry) =>
      OnProposalKeepsPrefix(c, f, entry);
      var reply := OnProposal(c.followers[f], c.leader.self, c.leader.term, entry).1;
      assert forall a | a in Delivered(c, f, i).acks :: a in c.acks || reply == Some(a);
    case CommitMsg(logIndex, blockID) => OnCommitAppends(c, f, logIndex, blockID);
  }

  /** The delivery of a proposal adds one acknowledgment, and it accepts exactly when the entry
      is the follower's next one; hearing it then adds the follower to the pending entry's. */
  lemma DeliveryIsAcknowledged(c: Cluster, f: PeerID, i: nat)
    requires Replicated(c) && f in c.followers && i < |c.sent| && c.sent[i].ProposalMsg?
    ensures var d, e := Delivered(c, f, i), c.sent[i].entry;
            && |d.acks| == |c.acks| + 1 && d.acks[..|c.acks|] == c.acks
            && (e.index == |c.followers[f].log| + 1 ==>
                  && d.acks[|c.acks|] == Ack(f, HexOf(e.block.hash), e.index, Accepted)
                  && (c.pending == Some(e) ==> f in Heard(d, |c.acks|).heard))
            && (e.index != |c.followers[f].log| + 1 ==> d.acks[|c.acks|].verdict != Accepted)
    ensures var d := Delivered(c, f, i); d.pending == c.pending
  {
    hide OnProposal, OnCommit, Replicated, HexOf, Numbered;
    ReplicatedAt(c, f, i);
    OnProposalKeepsPrefix(c, f, c.sent[i].entry);
  }

  /** What the delivery of one broadcast does to its follower. */
  ghost predicate HandlesMsg(log: seq<LogEntry>, n: Node, m: Msg, after: Node) {
    match m
    case ProposalMsg(e) =>
      after == (if e.index == |n.log| + 1 then n.(log := n.log + [e]) else n)
    case CommitMsg(logIndex, _) =>
      && 1 <= logIndex <= |log|
      && after == (if logIndex > |n.log| then n
                   else n.(chain := n.chain + [log[logIndex - 1].block], lastHash := log[logIndex - 1].block.hash))
  }

  lemma DeliverHandles(c: Cluster, f: PeerID, i: nat)
    requires Replicated(c) && f in c.followers && i < |c.sent|
    ensures c.followers[f].log <= c.leader.log && MsgOk(c, c.sent[i])
    ensures var d := Delivered(c, f, i);
            && d.leader == c.leader && d.sent == c.sent && d.followers.Keys == c.followers.Keys
            && d.next == c.next[f := if c.next[f] <= i then i + 1 else c.next[f]]
            && HandlesMsg(c.leader.log, c.followers[f], c.sent[i], d.followers[f])
  {
    hide OnProposal, OnCommit, Replicated, HexOf, Numbered;
    ReplicatedAt(c, f, i);
    match c.sent[i]
    case ProposalMsg(entry) => OnProposalKeepsPrefix(c, f, entry);
    case CommitMsg(logIndex, blockID) => OnCommitAppends(c, f, logIndex, blockID);
  }

  lemma DeliverReplicated(c: Cluster, f: PeerID, i: nat)
    requires Replicated(c) && f in c.followers && i < |c.sent|
    ensures Replicated(Delivered(c, f, i)) && Grows(c, Delivered(c, f, i))
  {
    hide Delivered;
    var d := Delivered(c, f, i);
    DeliverGrows(c, f, i);
    DurableGrows(c, d);
    forall m | m in d.sent ensures MsgOk(d, m) { assert MsgOk(c, m); }
    forall g | g in d.followers ensures FollowerOk(d, g) { assert FollowerOk(c, g); }
    forall a | a in d.acks ensures AckOk(d, a) {
      assert a in c.acks ==> AckOk(c, a);
    }
    if c.pending.Some? {
      forall p | p in d.heard ensures p in Members(d) && d.pending.value in LogOf(d, p) {
        assert LogOf(c, p) <= LogOf(d, p);
      }
    }
  }

  lemma HeardReplicated(c: Cluster, k: nat)
    requires Replicated(c) && c.pending.Some? && k < |c.acks|
    ensures Replicated(Heard(c, k)) && Grows(c, Heard(c, k))
  {
    var d, e := Heard(c, k), c.pending.value;
    var p := c.acks[k].sender;
    assert AckOk(c, c.acks[k]);
    if Confirms(c.acks[k], e) {
      assert FollowerOk(c, p);
      assert c.followers[p].log[e.index - 1] == e;
      assert p != c.leader.self;
    }
    DurableGrows(c, d);
    forall m | m in d.sent ensures MsgOk(d, m) { assert MsgOk(c, m); }
    forall f | f in d.followers ensures FollowerOk(d, f) { assert FollowerOk(c, f); }
    forall a | a in d.acks ensures AckOk(d, a) { assert AckOk(c, a); }
  }

  lemma StepReplicated(H: Hasher, c: Cluster, step: Step)
    requires Replicated(c) && Enabled(H, c, step)
    ensures Replicated(Next(H, c, step)) && Grows(c, Next(H, c, step))
  {
    var d := Next(H, c, step);
    match step {
      case Propose(_, block, _) =>
        ProposeReplicated(c, block);
        CommitReplicated(Proposing(c, block));
      case Deliver(f, i) =>
        DeliverReplicated(c, f, i);
      case HearAck(k) =>
        HeardReplicated(c, k);
        CommitReplicated(Heard(c, k));
      case _ =>
        DurableGrows(c, d);
        forall m | m in d.sent ensures MsgOk(d, m) { assert MsgOk(c, m); }
        forall f | f in d.followers ensures FollowerOk(d, f) { assert FollowerOk(c, f); }
        forall a | a in d.acks ensures AckOk(d, a) { assert AckOk(c, a); }
    }
  }

  lemma {:induction false} RunReplicated(H: Hasher, states: seq<Cluster>, steps: seq<Step>, n: nat)
    requires Run(H, states, steps) && n <= |steps|
    ensures Replicated(states[n])
  {
    hide Next, Enabled;
    if n > 0 {
      RunReplicated(H, states, steps, n - 1);
      StepReplicated(H, states[n - 1], steps[n - 1]);
    }
  }

  lemma {:induction false} RunGrows(H: Hasher, states: seq<Cluster>, steps: seq<Step>, m: nat, n: nat)
    requires Run(H, states, steps) && m <= n <= |steps|
    ensures Grows(states[m], states[n])
    decreases n
  {
    hide Next, Enabled, Replicated;
    if m < n {
      RunGrows(H, states, steps, m, n - 1);
      RunReplicated(H, states, steps, n - 1);
      StepReplicated(H, states[n - 1], steps[n - 1]);
    }
  }

  lemma MajoritiesMeet<T>(members: set<T>, a: set<T>, b: set<T>)
    requires a <= members && b <= members
    requires |a| >= Majority(|members|) && |b| >= Majority(|members|)
    ensures exists p :: p in a && p in b
  {
    SubsetSize(a + b, members);
    assert |a + b| + |a * b| == |a| + |b|;
    var p :| p in a * b;
  }

  /** Whatever the network does: every follower's log is a prefix of the leader's,
      and whatever was committed by the earlier of two states is, in the later,
      held by a majority, so any majority contains a holder of it. */
  lemma QuorumDurability(H: Hasher, states: seq<Cluster>, steps: seq<Step>, m: nat, n: nat)
    requires Run(H, states, steps) && m <= n <= |steps|
    ensures forall f | f in states[n].followers :: states[n].followers[f].log <= states[n].leader.log
    ensures forall e | e in states[m].committed ::
              e in states[n].leader.log && |Holders(states[n], e)| >= Majority(|Members(states[n])|)
    ensures forall e, quorum: set<PeerID> | e in states[m].committed
              && quorum <= Members(states[n]) && |quorum| >= Majority(|Members(states[n])|) ::
              exists p :: p in quorum && e in LogOf(states[n], p)
  {
    var d := states[n];
    RunReplicated(H, states, steps, n);
    RunGrows(H, states, steps, m, n);
    forall f | f in d.followers ensures d.followers[f].log <= d.leader.log {
      assert FollowerOk(d, f);
    }
    forall e | e in states[m].committed ensures Durable(d, e) {
      assert e in d.committed;
    }
    forall e, quorum: set<PeerID> | e in states[m].committed && quorum <= Members(d)
      && |quorum| >= Majority(|Members(d)|)
      ensures exists p :: p in quorum && e in LogOf(d, p)
    {
      assert Durable(d, e);
      MajoritiesMeet(Members(d), Holders(d, e), quorum);
      var p :| p in Holders(d, e) && p in quorum;
    }
  }
}
