/** When a proposed block is committed: at once when more than half of the members have
    been heard, and not before. */
module Quorums {
  import opened Wrappers
  import opened Bytes
  import opened Blocks
  import opened Nodes
  import opened Replication

  /** The entry that a step proposes. */
  function Proposed(c: Cluster, block: Block): LogEntry {
    var last := if c.leader.log == [] then 0 else c.leader.log[|c.leader.log| - 1].index;
    LogEntry(last + 1, last, c.leader.term, block)
  }

  /** Members heard once `ack` has been heard: its sender joins if it accepts just this
      block at just this index. */
  function HeardWith(heard: set<PeerID>, ack: Ack, e: LogEntry): set<PeerID> {
    if ack.verdict == Accepted && ack.blockID == HexOf(e.block.hash)
      && ack.logIndex == e.index then heard + {ack.sender}
    else heard
  }

  /** What the leader does with the pending entry once `heard` have been heard. */
  ghost predicate Decides(c: Cluster, e: LogEntry, heard: set<PeerID>, d: Cluster) {
    if 2 * |heard| > |{c.leader.self} + c.followers.Keys| then
      && d.committed == c.committed + [e] && d.pending == None
      && d.leader.chain == c.leader.chain + [e.block] && d.leader.lastHash == e.block.hash
      && d.sent != [] && d.sent[|d.sent| - 1] == CommitMsg(e.index, HexOf(e.block.hash))
    else d.committed == c.committed && d.leader.chain == c.leader.chain && d.pending == Some(e) && d.heard == heard
  }

  lemma CommitDecides(c: Cluster)
    requires c.pending.Some?
    ensures Decides(c, c.pending.value, c.heard, CommitIfMajority(c))
    ensures CommitIfMajority(c).leader.self == c.leader.self && CommitIfMajority(c).followers.Keys == c.followers.Keys
  {
    hide HexOf, Remaining, IdSet;
  }

  lemma ProposeDecides(c: Cluster, block: Block)
    ensures var d := CommitIfMajority(Proposing(c, block));
            Decides(c, Proposed(c, block), {c.leader.self}, d)
            && d.leader.self == c.leader.self && d.followers.Keys == c.followers.Keys
  {
    hide HexOf, CommitIfMajority;
    CommitDecides(Proposing(c, block));
  }

  lemma HearDecides(c: Cluster, k: nat)
    requires c.pending.Some? && k < |c.acks|
    ensures var d := CommitIfMajority(Heard(c, k));
            Decides(c, c.pending.value, HeardWith(c.heard, c.acks[k], c.pending.value), d)
            && d.leader.self == c.leader.self && d.followers.Keys == c.followers.Keys
  {
    hide HexOf, CommitIfMajority;
    CommitDecides(Heard(c, k));
  }

  lemma StepDecides(H: Hasher, c: Cluster, step: Step)
    requires Enabled(H, c, step)
    ensures var d := Next(H, c, step);
            match step
            case Propose(_, block, _) => Decides(c, Proposed(c, block), {c.leader.self}, d)
            case HearAck(k) => Decides(c, c.pending.value, HeardWith(c.heard, c.acks[k], c.pending.value), d)
            case Timeout => d == c.(pending := None, heard := {})
            case _ =>
              && d.committed == c.committed && d.leader.chain == c.leader.chain
              && d.pending == c.pending && d.heard == c.heard
    ensures Next(H, c, step).leader.self == c.leader.self && Next(H, c, step).followers.Keys == c.followers.Keys
  {
    hide IsNewBlock, Decides, CommitIfMajority, Proposing, Heard, HeardWith, OnProposal, OnCommit;
    match step
    case Propose(_, block, _) => ProposeDecides(c, block);
    case HearAck(k) => HearDecides(c, k);
    case _ =>
  }

  /** The distinct members heard since the proposal at step `m`, the leader included. */
  ghost function HeardSince(states: seq<Cluster>, steps: seq<Step>, e: LogEntry, m: nat, n: nat): set<PeerID>
    requires m < n <= |steps| < |states|
  {
    if n == m + 1 then {states[m].leader.self}
    else
      var front, s := HeardSince(states, steps, e, m, n - 1), steps[n - 1];
      if s.HearAck? && s.k < |states[n - 1].acks| then HeardWith(front, states[n - 1].acks[s.k], e) else front
  }

  /** While an entry waits, each further step decides it with those heard then. */
  lemma WaitingStep(H: Hasher, c: Cluster, step: Step, e: LogEntry)
    requires Enabled(H, c, step) && !step.Timeout? && c.pending == Some(e)
    requires 2 * |c.heard| <= |{c.leader.self} + c.followers.Keys|
    ensures var d := Next(H, c, step);
            && d.leader.self == c.leader.self && d.followers.Keys == c.followers.Keys
            && Decides(c, e, if step.HearAck? then HeardWith(c.heard, c.acks[step.k], e) else c.heard, d)
  {
    hide Next, IsNewBlock, HeardWith;
    StepDecides(H, c, step);
  }

  /** `d` stands to the state of the proposal as a decision does. */
  lemma DecidesOn(c: Cluster, d: Cluster, e: LogEntry, heard: set<PeerID>)
    requires Decides(c, e, heard, d) && 2 * |heard| <= |{c.leader.self} + c.followers.Keys|
    ensures d.pending == Some(e) && d.heard == heard
    ensures d.committed == c.committed && d.leader.chain == c.leader.chain
  {
  }

  lemma SameDecision(b: Cluster, c: Cluster, d: Cluster, e: LogEntry, heard: set<PeerID>)
    requires Decides(c, e, heard, d) && c.committed == b.committed && c.leader.chain == b.leader.chain
    requires c.leader.self == b.leader.self && c.followers.Keys == b.followers.Keys
    ensures Decides(b, e, heard, d)
  {
    hide HexOf;
  }

  /** No timeout, and no majority yet, after any step before step `n`. */
  ghost predicate Waits(states: seq<Cluster>, steps: seq<Step>, e: LogEntry, m: nat, n: nat)
    requires m < n <= |steps| < |states|
  {
    forall k | m < k < n ::
      !steps[k].Timeout?
      && 2 * |HeardSince(states, steps, e, m, k)| <= |{states[m].leader.self} + states[m].followers.Keys|
  }

  lemma RunStep(H: Hasher, states: seq<Cluster>, steps: seq<Step>, i: nat)
    requires Run(H, states, steps) && i < |steps|
    ensures |states| == |steps| + 1
    ensures Enabled(H, states[i], steps[i]) && states[i + 1] == Next(H, states[i], steps[i])
  {
    hide Enabled, Next, IsStart;
  }

  lemma WaitsBefore(states: seq<Cluster>, steps: seq<Step>, e: LogEntry, m: nat, n: nat)
    requires m + 1 < n <= |steps| < |states| && Waits(states, steps, e, m, n)
    ensures Waits(states, steps, e, m, n - 1) && !steps[n - 1].Timeout?
    ensures 2 * |HeardSince(states, steps, e, m, n - 1)| <= |{states[m].leader.self} + states[m].followers.Keys|
  {
    hide HeardSince;
  }

  lemma HeardOneMore(states: seq<Cluster>, steps: seq<Step>, e: LogEntry, m: nat, n: nat)
    requires m + 1 < n <= |steps| < |states|
    requires steps[n - 1].HearAck? ==> steps[n - 1].k < |states[n - 1].acks|
    ensures HeardSince(states, steps, e, m, n) ==
              var front, step := HeardSince(states, steps, e, m, n - 1), steps[n - 1];
              if step.HearAck? then HeardWith(front, states[n - 1].acks[step.k], e) else front
  {
    hide HeardWith;
  }

  /** In every run, unless it times out: a proposed entry is committed by the very step
      after which more than half of the members have been heard, and is pending until
      then. */
  lemma {:induction false} CommittedAtMajority(H: Hasher, states: seq<Cluster>, steps: seq<Step>, m: nat, n: nat)
    requires Run(H, states, steps) && m < n <= |steps| && steps[m].Propose?
    requires Waits(states, steps, Proposed(states[m], steps[m].block), m, n)
    ensures var c, e := states[m], Proposed(states[m], steps[m].block);
            && states[n].leader.self == c.leader.self && states[n].followers.Keys == c.followers.Keys
            && Decides(c, e, HeardSince(states, steps, e, m, n), states[n])
  {
    hide *;
    RunStep(H, states, steps, n - 1);
    var b, c, e := states[m], states[n - 1], Proposed(states[m], steps[m].block);
    if m == n - 1 {
      StepDecides(H, b, steps[m]);
      FirstHeard(states, steps, e, m);
    } else {
      WaitsBefore(states, steps, e, m, n);
      CommittedAtMajority(H, states, steps, m, n - 1);
      DecidesOn(b, c, e, HeardSince(states, steps, e, m, n - 1));
      AckIsThere(H, c, steps[n - 1]);
      HeardOneMore(states, steps, e, m, n);
      WaitingStep(H, c, steps[n - 1], e);
      SameDecision(b, c, states[n], e, HeardSince(states, steps, e, m, n));
    }
  }

  lemma FirstHeard(states: seq<Cluster>, steps: seq<Step>, e: LogEntry, m: nat)
    requires m < |steps| < |states|
    ensures HeardSince(states, steps, e, m, m + 1) == {states[m].leader.self}
  {
  }

  lemma AckIsThere(H: Hasher, c: Cluster, step: Step)
    requires Enabled(H, c, step)
    ensures step.HearAck? ==> step.k < |c.acks|
  {
  }
}
