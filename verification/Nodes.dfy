/** One node of the ordering service: its pool, log and committed chain, and what
    it does on each protocol event. */
module Nodes {
  import opened Wrappers
  import opened Bytes
  import opened Transactions
  import opened Blocks

  type PeerID = string

  datatype LogEntry = LogEntry(index: int, prevLogIndex: int, term: int, block: Block)

  datatype Verdict = Accepted | OldTerm | Discontinuity | MissingPrev | TermMismatch

  datatype Ack = Ack(sender: PeerID, blockID: Text, logIndex: int, verdict: Verdict)

  // ---- What each event does to a node ----

  /** A node's state as a value. */
  datatype Node = Node(self: PeerID, isLeader: bool, term: int, leader: PeerID,
                       pool: seq<Transaction>, log: seq<LogEntry>, chain: seq<Block>, lastHash: seq<byte>)

  function LastIndex(log: seq<LogEntry>): int {
    if log == [] then 0 else log[|log| - 1].index
  }

  /** Of the entries from position `from` on, the one at `j` is the first with the index. */
  predicate FirstAt(log: seq<LogEntry>, index: int, from: nat, j: nat) {
    from <= j < |log| && log[j].index == index && forall k | from <= k < j :: log[k].index != index
  }

  /** The first entry at or after position `i` that carries `index`. */
  function FindEntryFrom(log: seq<LogEntry>, index: int, i: nat): (r: Option<LogEntry>)
    requires i <= |log|
    ensures r.None? <==> forall j | i <= j < |log| :: log[j].index != index
    decreases |log| - i
  {
    if i == |log| then None
    else if log[i].index == index then Some(log[i])
    else FindEntryFrom(log, index, i + 1)
  }

  /** The entries before the first one whose index is at least `index`. */
  function Truncated(log: seq<LogEntry>, index: int): seq<LogEntry> {
    if log == [] || log[0].index >= index then [] else [log[0]] + Truncated(log[1..], index)
  }

  function IdSet(txs: seq<Transaction>): set<Text> {
    set tx | tx in txs :: tx.txid
  }

  /** The pool without the transactions whose id is among `ids`. */
  function Remaining(pool: seq<Transaction>, ids: set<Text>): seq<Transaction> {
    if pool == [] then []
    else
      var front := Remaining(pool[..|pool| - 1], ids);
      var tx := pool[|pool| - 1];
      if tx.txid in ids then front else front + [tx]
  }

  function BatchOf(pool: seq<Transaction>, batchSize: nat): seq<Transaction> {
    if batchSize <= |pool| then pool[..batchSize] else pool
  }

  function EntryFor(n: Node, block: Block): LogEntry {
    LogEntry(LastIndex(n.log) + 1, LastIndex(n.log), n.term, block)
  }

  function Committed(n: Node, block: Block): Node {
    n.(chain := n.chain + [block], lastHash := block.hash, pool := Remaining(n.pool, IdSet(block.transactions)))
  }

  function Reply(n: Node, entry: LogEntry, verdict: Verdict): Option<Ack> {
    if n.leader == "" then None else Some(Ack(n.self, BlockID(entry.block), entry.index, verdict))
  }

  function OnProposal(n: Node, sender: PeerID, msgTerm: int, entry: LogEntry): (Node, Option<Ack>) {
    if n.isLeader || sender != n.leader then (n, None)
    else if msgTerm < n.term then (n, Reply(n, entry, OldTerm))
    else if entry.prevLogIndex != LastIndex(n.log) then (n, Reply(n, entry, Discontinuity))
    else
      var prev := FindEntryFrom(n.log, entry.prevLogIndex, 0);
      if entry.prevLogIndex > 0 && prev.None? then (n, Reply(n, entry, MissingPrev))
      else if entry.prevLogIndex > 0 && prev.value.term != entry.term then
        (n.(log := Truncated(n.log, entry.prevLogIndex)), Reply(n, entry, TermMismatch))
      else (n.(log := n.log + [entry]), Reply(n, entry, Accepted))
  }

  /** The node after a commit notice, and whether it starts a sync. */
  function OnCommit(n: Node, sender: PeerID, msgTerm: int, logIndex: int, blockID: Text): (Node, bool) {
    if n.isLeader || sender != n.leader || msgTerm < n.term then (n, false)
    else
      match FindEntryFrom(n.log, logIndex, 0)
      case None => (n, true)
      case Some(entry) =>
        if BlockID(entry.block) != blockID then (n, false)
        else (n.(chain := n.chain + [entry.block], lastHash := entry.block.hash), false)
  }

  function Majority(total: nat): nat {
    total / 2 + 1
  }

  predicate Confirms(ack: Ack, entry: LogEntry) {
    ack.logIndex == entry.index && ack.blockID == BlockID(entry.block) && ack.verdict == Accepted
  }

  /** The distinct members that have acknowledged an entry, the proposer included. */
  function Voters(self: PeerID, entry: LogEntry, acks: seq<Ack>): set<PeerID> {
    {self} + set ack | ack in acks && Confirms(ack, entry) :: ack.sender
  }

  /** Who counts: the proposer, and every sender of an acknowledgment that accepts just
      this block at just this index. */
  lemma VotersExactly(self: PeerID, entry: LogEntry, acks: seq<Ack>)
    ensures forall p :: p in Voters(self, entry, acks) <==>
              p == self || exists i | 0 <= i < |acks| ::
                acks[i] == Ack(p, HexOf(entry.block.hash), entry.index, Accepted)
  {
    forall p | p in Voters(self, entry, acks) && p != self
      ensures exists i | 0 <= i < |acks| :: acks[i] == Ack(p, HexOf(entry.block.hash), entry.index, Accepted)
    {
      var a :| a in acks && Confirms(a, entry) && a.sender == p;
      var i :| 0 <= i < |acks| && acks[i] == a;
    }
    forall i, p | 0 <= i < |acks| && acks[i] == Ack(p, HexOf(entry.block.hash), entry.index, Accepted)
      ensures p in Voters(self, entry, acks)
    {
      assert acks[i] in acks && Confirms(acks[i], entry);
    }
  }

  // ---- What a follower does with any message ----

  /** A follower listens to its leader only. */
  predicate Listens(n: Node, sender: PeerID) {
    !n.isLeader && sender == n.leader
  }

  /** The entry continues the log of a node. */
  predicate Continues(log: seq<LogEntry>, entry: LogEntry) {
    && entry.prevLogIndex == (if log == [] then 0 else log[|log| - 1].index)
    && (entry.prevLogIndex > 0 ==>
          exists j | 0 <= j < |log| :: FirstAt(log, entry.prevLogIndex, 0, j) && log[j].term == entry.term)
  }

  /** Any node, any proposal: the log gains the entry exactly when it comes from the
      leader with a current term and continues the log, and exactly then, if the leader is
      known, the reply accepts.  Nothing but the log changes, and it only when the leader
      has spoken with a current term. */
  lemma OnProposalExactly(n: Node, sender: PeerID, msgTerm: int, entry: LogEntry)
    ensures var (m, reply) := OnProposal(n, sender, msgTerm, entry);
            && (m.log == n.log + [entry] <==> Listens(n, sender) && msgTerm >= n.term && Continues(n.log, entry))
            && (reply.Some? && reply.value.verdict == Accepted <==> m.log == n.log + [entry] && n.leader != "")
            && (reply.Some? <==> Listens(n, sender) && n.leader != "")
            && (reply.Some? ==> reply.value == Ack(n.self, HexOf(entry.block.hash), entry.index, reply.value.verdict))
            && m == n.(log := m.log) && (m.log == n.log + [entry] || m.log <= n.log)
            && (m.log != n.log ==> Listens(n, sender) && msgTerm >= n.term)
  {
    hide FindEntryFrom, Truncated, HexOf;
    TruncatedIsPrefix(n.log, entry.prevLogIndex);
    if FindEntryFrom(n.log, entry.prevLogIndex, 0).Some? {
      var k := FoundFrom(n.log, entry.prevLogIndex, 0);
      assert FirstAt(n.log, entry.prevLogIndex, 0, k);
    }
  }

  /** Which refusal a follower sends.  That the previous entry is missing is never one:
      the last entry carries the index. */
  lemma OnProposalRefuses(n: Node, sender: PeerID, msgTerm: int, entry: LogEntry)
    requires Listens(n, sender) && n.leader != ""
    ensures var (m, reply) := OnProposal(n, sender, msgTerm, entry);
            var last := if n.log == [] then 0 else n.log[|n.log| - 1].index;
            && reply.Some?
            && (reply.value.verdict == OldTerm <==> msgTerm < n.term)
            && (reply.value.verdict == Discontinuity <==> msgTerm >= n.term && entry.prevLogIndex != last)
            && reply.value.verdict != MissingPrev
            && (reply.value.verdict == TermMismatch ==> m.log == Truncated(n.log, entry.prevLogIndex))
            && (reply.value.verdict == TermMismatch <==>
                  && msgTerm >= n.term && entry.prevLogIndex == last > 0
                  && exists j | 0 <= j < |n.log| :: FirstAt(n.log, last, 0, j) && n.log[j].term != entry.term)
  {
    hide HexOf, FindEntryFrom, Truncated;
    var last := if n.log == [] then 0 else n.log[|n.log| - 1].index;
    if last > 0 {
      assert FindEntryFrom(n.log, last, 0).Some?;
      var k := FoundFrom(n.log, last, 0);
      forall j | 0 <= j < |n.log| && FirstAt(n.log, last, 0, j)
        ensures FindEntryFrom(n.log, last, 0) == Some(n.log[j])
      {
        FirstIsFound(n.log, last, j);
      }
    }
  }

  lemma {:induction false} TruncatedIsPrefix(log: seq<LogEntry>, index: int)
    ensures Truncated(log, index) <= log
  {
    if log != [] && log[0].index < index {
      TruncatedIsPrefix(log[1..], index);
    }
  }

  /** Any node, any commit notice: the chain gains the block of the first entry at the index
      exactly when the leader has spoken with a current term and that block has the id; a
      sync starts exactly when there is no such entry. */
  lemma OnCommitExactly(n: Node, sender: PeerID, msgTerm: int, logIndex: int, blockID: Text)
    ensures var (m, sync) := OnCommit(n, sender, msgTerm, logIndex, blockID);
            var heard := Listens(n, sender) && msgTerm >= n.term;
            && (sync <==> heard && forall j | 0 <= j < |n.log| :: n.log[j].index != logIndex)
            && (!heard || sync ==> m == n)
            && forall j | heard && 0 <= j < |n.log| && FirstAt(n.log, logIndex, 0, j) ::
                 m == if HexOf(n.log[j].block.hash) != blockID then n
                      else n.(chain := n.chain + [n.log[j].block], lastHash := n.log[j].block.hash)
  {
    hide HexOf, FindEntryFrom;
    var found := FindEntryFrom(n.log, logIndex, 0);
    forall j | 0 <= j < |n.log| && FirstAt(n.log, logIndex, 0, j) ensures found == Some(n.log[j]) {
      FirstIsFound(n.log, logIndex, j);
    }
  }

  lemma {:induction false} FoundFrom(log: seq<LogEntry>, index: int, i: nat) returns (j: nat)
    requires i <= |log| && FindEntryFrom(log, index, i).Some?
    ensures FirstAt(log, index, i, j) && FindEntryFrom(log, index, i).value == log[j]
    decreases |log| - i
  {
    if log[i].index == index {
      j := i;
    } else {
      j := FoundFrom(log, index, i + 1);
    }
  }

  lemma FirstIsFound(log: seq<LogEntry>, index: int, j: nat)
    requires FirstAt(log, index, 0, j)
    ensures FindEntryFrom(log, index, 0) == Some(log[j])
  {
    hide FindEntryFrom;
    assert FindEntryFrom(log, index, 0).Some?;
    var k := FoundFrom(log, index, 0);
    assert j == k;
  }

  // ---- The node as an object ----

  class RaftLog {
    var Entries: seq<LogEntry>

    constructor ()
      ensures Entries == []
    {
      Entries := [];
    }

    method AppendEntry(entry: LogEntry)
      modifies this
      ensures Entries == old(Entries) + [entry]
    {
      Entries := Entries + [entry];
    }

    method GetLastIndex() returns (index: int)
      ensures index == LastIndex(Entries)
    {
      if |Entries| == 0 {
        return 0;
      }
      index := Entries[|Entries| - 1].index;
    }

    method FindEntryByIndex(index: int) returns (r: Option<LogEntry>)
      ensures r == FindEntryFrom(Entries, index, 0)
    {
      hide FirstAt;
      for i := 0 to |Entries|
        invariant FindEntryFrom(Entries, index, 0) == FindEntryFrom(Entries, index, i)
      {
        if Entries[i].index == index {
          return Some(Entries[i]);
        }
      }
      r := None;
    }

    method RemoveFrom(fromIndex: int)
      modifies this
      ensures Entries == Truncated(old(Entries), fromIndex)
    {
      for i := 0 to |Entries|
        invariant Entries == old(Entries)
        invariant Entries[..i] + Truncated(Entries[i..], fromIndex) == Truncated(Entries, fromIndex)
      {
        if Entries[i].index >= fromIndex {
          Entries := Entries[..i];
          return;
        }
        assert Entries[i..][1..] == Entries[i + 1..];
      }
    }
  }

  class OrderingBlock {
    var Blocks: seq<Block>

    constructor ()
      ensures Blocks == []
    {
      Blocks := [];
    }

    method AppendBlock(block: Block)
      modifies this
      ensures Blocks == old(Blocks) + [block]
    {
      Blocks := Blocks + [block];
    }
  }

  /** The leader's pool: a slice of an array that is filtered in place. */
  class TxPool {
    var items: array<Transaction>
    var size: nat

    ghost predicate Valid()
      reads this
    {
      size <= items.Length
    }

    ghost function Contents(): (s: seq<Transaction>)
      reads this, items
      requires Valid()
    {
      items[..size]
    }

    constructor ()
      ensures Valid() && Contents() == [] && fresh(items)
    {
      items := new Transaction[0];
      size := 0;
    }

    /** Writes behind the last transaction, into a larger array if there is no room. */
    method Append(tx: Transaction)
      requires Valid()
      modifies this, items
      ensures Valid() && Contents() == old(Contents()) + [tx]
      ensures items == old(items) || fresh(items)
    {
      if size == items.Length {
        var kept := items[..size];
        items := new Transaction[2 * size + 1](i => if 0 <= i < |kept| then kept[i] else tx);
        assert items[..size] == kept;
      }
      items[size] := tx;
      size := size + 1;
    }

    /** Copies the first transactions. */
    method Take(count: nat) returns (batch: seq<Transaction>)
      requires Valid() && count <= size
      ensures batch == Contents()[..count]
    {
      batch := items[..count];
    }

    /** Moves the transactions to keep to the front of the same array; what lies behind
        them stays. */
    method FilterOut(ids: set<Text>)
      requires Valid()
      modifies this`size, items
      ensures Valid() && Contents() == Remaining(old(Contents()), ids)
      ensures forall j | size <= j < items.Length :: items[j] == old(items[j])
    {
      var kept := 0;
      for i := 0 to size
        invariant kept <= i && size == old(size)
        invariant items[..kept] == Remaining(old(items[..])[..i], ids)
        invariant forall j | kept <= j < items.Length :: items[j] == old(items[j])
      {
        assert old(items[..])[..i + 1][..i] == old(items[..])[..i];
        if items[i].txid !in ids {
          items[kept] := items[i];
          kept := kept + 1;
        }
      }
      assert old(items[..])[..size] == old(items[..size]);
      size := kept;
    }
  }

  datatype SubmitOutcome = Pooled | ForwardedTo(leader: PeerID) | Invalid | NoLeader | SendFailed

  datatype ProposeError = NotLeader | EmptyPool | HashTooLong

  class RaftNode {
    const self: PeerID
    const H: Hasher
    const raftLog: RaftLog
    const orderingBlock: OrderingBlock
    var isLeader: bool
    var currentTerm: int
    var currentLeaderID: PeerID
    const txPool: TxPool
    var lastCommittedHash: seq<byte>

    constructor (self: PeerID, H: Hasher, isLeader: bool, term: int, leader: PeerID)
      ensures Valid() && State() == Node(self, isLeader, term, leader, [], [], [], []) && this.H == H
      ensures fresh(raftLog) && fresh(orderingBlock) && fresh(txPool) && fresh(txPool.items)
    {
      this.self, this.H, this.isLeader, this.currentTerm, this.currentLeaderID := self, H, isLeader, term, leader;
      raftLog := new RaftLog();
      orderingBlock := new OrderingBlock();
      txPool := new TxPool();
      lastCommittedHash := [];
    }

    ghost predicate Valid()
      reads this, txPool
    {
      txPool.Valid()
    }

    ghost function State(): Node
      reads this, raftLog, orderingBlock, txPool, txPool.items
      requires Valid()
    {
      Node(self, isLeader, currentTerm, currentLeaderID, txPool.Contents(), raftLog.Entries, orderingBlock.Blocks,
           lastCommittedHash)
    }

    /** Checks a transaction, then pools it on the leader or sends it there. */
    method SubmitTransaction(tx: Transaction, sendFails: bool) returns (r: SubmitOutcome)
      requires Valid()
      modifies txPool, txPool.items
      ensures Valid()
      ensures r == Invalid <==>
                || tx.txid == []
                || (tx.payload != [] && tx.contractName != [] && tx.functionName != [] && tx.clientPubKey == [])
                || ((tx.payload == [] || tx.contractName == [] || tx.functionName == [])
                  && (tx.vin == [] || tx.vout == []))
      ensures r == Pooled <==> tx.Valid() && isLeader
      ensures r == NoLeader <==> tx.Valid() && !isLeader && currentLeaderID == ""
      ensures r == SendFailed <==> tx.Valid() && !isLeader && currentLeaderID != "" && sendFails
      ensures r.ForwardedTo? ==> r.leader == currentLeaderID
      ensures State() == if r == Pooled then old(State()).(pool := old(State()).pool + [tx]) else old(State())
    {
      if !tx.Valid() {
        return Invalid;
      }
      if !isLeader {
        if currentLeaderID == "" {
          return NoLeader;
        }
        return if sendFails then SendFailed else ForwardedTo(currentLeaderID);
      }
      ProcessTx(tx);
      r := Pooled;
    }

    method ProcessTx(tx: Transaction)
      requires Valid()
      modifies txPool, txPool.items
      ensures Valid() && State() == old(State()).(pool := old(State()).pool + [tx])
    {
      txPool.Append(tx);
    }

    method ProposeBlock(batchSize: nat, now: int, numWorkers: nat, order: seq<nat>)
      returns (r: Result<LogEntry, ProposeError>)
      requires Valid()
      requires numWorkers >= 1 && forall w | 0 <= w < numWorkers :: w in order
      modifies raftLog
      ensures !isLeader ==> r == Err(NotLeader)
      ensures isLeader && State().pool == [] ==> r == Err(EmptyPool)
      ensures isLeader && State().pool != [] && |lastCommittedHash| > 32 ==> r == Err(HashTooLong)
      ensures r.Err? ==> State() == old(State())
      ensures isLeader && State().pool != [] && |lastCommittedHash| <= 32 ==>
                && r.Ok? && r.value == EntryFor(old(State()), r.value.block)
                && (var last := if old(State()).log == [] then 0 else old(State()).log[|old(State()).log| - 1].index;
                    r.value == LogEntry(last + 1, last, currentTerm, r.value.block))
                && (var count := if batchSize < |State().pool| then batchSize else |State().pool|;
                    r.value.block.transactions == State().pool[..count])
                && IsNewBlock(H, r.value.block, BatchOf(State().pool, batchSize), lastCommittedHash, now)
                && State() == old(State()).(log := old(State()).log + [r.value])
    {
      hide IsNewBlock;
      if !isLeader {
        return Err(NotLeader);
      }
      if txPool.size == 0 {
        return Err(EmptyPool);
      }
      var count := batchSize;
      if count > txPool.size {
        count := txPool.size;
      }
      var blockTxs := txPool.Take(count);
      var block := NewBlock(H, blockTxs, lastCommittedHash, now, numWorkers, order);
      assert BatchOf(State().pool, batchSize) == blockTxs;
      if block.None? {
        return Err(HashTooLong);
      }
      var prevLogIndex := raftLog.GetLastIndex();
      var entry := LogEntry(prevLogIndex + 1, prevLogIndex, currentTerm, block.value);
      raftLog.AppendEntry(entry);
      r := Ok(entry);
    }

    method CommitBlock(block: Block)
      requires Valid()
      modifies this, orderingBlock, txPool, txPool.items
      ensures Valid() && State() == Committed(old(State()), block)
    {
      orderingBlock.AppendBlock(block);
      lastCommittedHash := block.hash;
      var committedIDs: set<Text> := {};
      for i := 0 to |block.transactions|
        invariant committedIDs == IdSet(block.transactions[..i])
      {
        committedIDs := committedIDs + {block.transactions[i].txid};
      }
      assert block.transactions[..|block.transactions|] == block.transactions;
      txPool.FilterOut(committedIDs);
    }

    /** Collects the acknowledgments that arrive before the timeout. */
    method WaitForBlockAcks(entry: LogEntry, arriving: seq<Ack>, totalCount: nat) returns (committed: bool)
      requires Valid()
      modifies this, orderingBlock, txPool, txPool.items
      ensures Valid()
      ensures committed <==> 2 * |Voters(self, entry, arriving)| > totalCount
      ensures State() == if committed then Committed(old(State()), entry.block) else old(State())
    {
      var acks := {self};
      var majority := totalCount / 2 + 1;
      assert Voters(self, entry, arriving[..0]) == acks;
      if |acks| >= majority {
        VotersGrow(self, entry, arriving, 0);
        CommitBlock(entry.block);
        return true;
      }
      for i := 0 to |arriving|
        invariant Valid() && State() == old(State())
        invariant acks == Voters(self, entry, arriving[..i]) && |acks| < majority
      {
        var ack := arriving[i];
        assert arriving[..i + 1] == arriving[..i] + [ack];
        if ack.logIndex == entry.index && ack.blockID == BlockID(entry.block) && ack.verdict == Accepted {
          acks := acks + {ack.sender};
          assert acks == Voters(self, entry, arriving[..i + 1]);
          if |acks| >= majority {
            VotersGrow(self, entry, arriving, i + 1);
            CommitBlock(entry.block);
            return true;
          }
        }
      }
      assert arriving[..|arriving|] == arriving;
      committed := false;
    }

    method HandleBlockProposal(sender: PeerID, msgTerm: int, entry: LogEntry) returns (reply: Option<Ack>)
      requires Valid()
      modifies raftLog
      ensures (State(), reply) == OnProposal(old(State()), sender, msgTerm, entry)
    {
      if isLeader {
        return None;
      }
      if sender != currentLeaderID {
        return None;
      }
      if msgTerm < currentTerm {
        return SendBlockProposalAck(entry, OldTerm);
      }
      var lastIndex := raftLog.GetLastIndex();
      if entry.prevLogIndex != lastIndex {
        return SendBlockProposalAck(entry, Discontinuity);
      }
      if entry.prevLogIndex > 0 {
        var prevEntry := raftLog.FindEntryByIndex(entry.prevLogIndex);
        if prevEntry.None? {
          return SendBlockProposalAck(entry, MissingPrev);
        }
        if prevEntry.value.term != entry.term {
          raftLog.RemoveFrom(entry.prevLogIndex);
          return SendBlockProposalAck(entry, TermMismatch);
        }
      }
      raftLog.AppendEntry(entry);
      reply := SendBlockProposalAck(entry, Accepted);
    }

    function SendBlockProposalAck(entry: LogEntry, verdict: Verdict): Option<Ack>
      reads this
    {
      if currentLeaderID == "" then None else Some(Ack(self, BlockID(entry.block), entry.index, verdict))
    }

    /** Tells whether the node has to start a sync. */
    method HandleBlockCommit(sender: PeerID, msgTerm: int, logIndex: int, blockID: Text) returns (startSync: bool)
      requires Valid()
      modifies this, orderingBlock
      ensures (State(), startSync) == OnCommit(old(State()), sender, msgTerm, logIndex, blockID)
    {
      if isLeader || sender != currentLeaderID || msgTerm < currentTerm {
        return false;
      }
      var entry := raftLog.FindEntryByIndex(logIndex);
      match entry {
        case None =>
          startSync := true;
        case Some(e) =>
          if BlockID(e.block) != blockID {
            return false;
          }
          orderingBlock.AppendBlock(e.block);
          lastCommittedHash := e.block.hash;
          startSync := false;
      }
    }
  }

  lemma VotersGrow(self: PeerID, entry: LogEntry, acks: seq<Ack>, i: nat)
    requires i <= |acks|
    ensures Voters(self, entry, acks[..i]) <= Voters(self, entry, acks)
    ensures |Voters(self, entry, acks[..i])| <= |Voters(self, entry, acks)|
  {
    var s, t := Voters(self, entry, acks[..i]), Voters(self, entry, acks);
    assert forall a | a in acks[..i] :: a in acks;
    SubsetSize(s, t);
  }

  lemma {:induction false} SubsetSize<T>(s: set<T>, t: set<T>)
    requires s <= t
    ensures |s| <= |t|
  {
    assert t == s + (t - s);
  }
}
