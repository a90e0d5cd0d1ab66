/** The commit peer's block loop: block heights, and why versions are fresh. */
module Peers {
  import opened Ledger
  import opened WorldStates
  import opened Histories

  /** Blocks on file, and the height of the last block handled. */
  datatype Counts = Counts(onFile: nat, height: int)

  /** What a peer goes through: a block that is kept on file or not, and applied or not,
      a new process over the old files, or an admin edit of the world state. */
  datatype Action =
    | Handle(txs: seq<Tx>, origins: seq<Origin>, kept: bool, applied: bool)
    | Restart
    | Edit(edit: Event)

  function Counted(c: Counts, kept: bool): Counts {
    if kept then Counts(c.onFile + 1, c.height + 1) else c
  }

  function Next(c: Counts, a: Action): Counts {
    match a
    case Handle(_, _, kept, _) => Counted(c, kept)
    case Restart => Counts(c.onFile, c.onFile)
    case Edit(_) => c
  }

  class CommittingPeer {
    /** Blocks in the chain file, which survives a restart. */
    var chain: seq<seq<Tx>>
    /** Height of the last block handled; zero until `Start` aligns it. */
    var blockCount: int
    const worldState: WorldState

    function Count(): Counts
      reads this
    {
      Counts(|chain|, blockCount)
    }

    /** Every block version in the world state belongs to a block on file. */
    ghost predicate Durable()
      reads this, worldState
    {
      worldState.db.WellFormed() && AllOlder([worldState.db], |chain| + 1)
    }

    ghost predicate Valid()
      reads this, worldState
    {
      Durable() && blockCount == |chain|
    }

    /** A new process over the files of an earlier one. */
    constructor (chain: seq<seq<Tx>>, worldState: WorldState)
      requires worldState.db.WellFormed() && AllOlder([worldState.db], |chain| + 1)
      ensures this.chain == chain && this.worldState == worldState && blockCount == 0 && Durable()
    {
      this.chain, this.worldState := chain, worldState;
      blockCount := 0;
    }

    /** Aligns the counter with the chain file. */
    method Start()
      requires Durable() && blockCount == 0
      modifies this`blockCount
      ensures Valid() && Count() == Next(old(Count()), Restart)
    {
      var n := |chain|;
      if n > 0 {
        blockCount := n;
      }
    }

    /** Appends an accepted block, then applies it under the next height.  When the
        application fails the block stays on file and its height stays used. */
    method HandleBlock(txs: seq<Tx>, accepted: bool, appendFails: bool, faults: Faults)
      requires Valid() && worldState as object != this
      modifies this, worldState
      ensures Valid()
      ensures Count() == Counted(old(Count()), accepted && !appendFails)
      ensures !accepted || appendFails ==> chain == old(chain) && worldState.db == old(worldState.db)
      ensures accepted && !appendFails ==>
                && chain == old(chain) + [txs]
                && AllOlder([old(worldState.db)], blockCount)
                && (|| worldState.db == old(worldState.db)
                    || (&& CommitBlock(old(worldState.db), txs, blockCount).Ok?
                        && worldState.db == CommitBlock(old(worldState.db), txs, blockCount).value.0))
    {
      if !accepted {
        return;
      }
      if appendFails {
        return;
      }
      chain := chain + [txs];
      blockCount := blockCount + 1;
      ghost var before := worldState.db;
      assert AllOlder([before], blockCount);
      var r := worldState.ApplyBlock(txs, blockCount, faults);
      if r.Ok? {
        HeightsStayBelow(before, txs, blockCount);
      } else {
        NextHeightIsNewer(before, blockCount);
      }
    }
  }

  lemma NextHeightIsNewer(s: Store, height: int)
    requires AllOlder([s], height)
    ensures AllOlder([s], height + 1)
  {
    forall i, k | 0 <= i < 1 ensures Older([s][i].GetVersion(k), height + 1) {
      assert Older([s][0].GetVersion(k), height);
    }
  }

  /** A block stamps its own height and no other. */
  lemma HeightsStayBelow(s: Store, txs: seq<Tx>, height: int)
    requires s.WellFormed() && AllOlder([s], height) && CommitBlock(s, txs, height).Ok?
    ensures var t := CommitBlock(s, txs, height).value.0; t.WellFormed() && AllOlder([t], height + 1)
  {
    var t := CommitBlock(s, txs, height).value.0;
    forall i, k | 0 <= i < 1 ensures Older([t][i].GetVersion(k), height + 1) {
      LiveEffect(s, txs, height, |txs|, k);
      assert Older([s][0].GetVersion(k), height);
    }
    LiveEffect(s, txs, height, |txs|, Balance(""));
  }

  // ---- Heights along the life of a peer ----

  function NextAll(c: Counts, actions: seq<Action>): Counts {
    if actions == [] then c
    else Next(NextAll(c, actions[..|actions| - 1]), actions[|actions| - 1])
  }

  /** What an action does to the world state, if anything. */
  function Emitted(c: Counts, a: Action): seq<Event> {
    match a
    case Handle(txs, origins, kept, applied) => if kept && applied then [Block(c.height + 1, txs, origins)] else []
    case Restart => []
    case Edit(e) => if e.Block? then [] else [e]
  }

  function EventsOf(c: Counts, actions: seq<Action>): seq<Event> {
    if actions == [] then []
    else
      var front := actions[..|actions| - 1];
      EventsOf(c, front) + Emitted(NextAll(c, front), actions[|actions| - 1])
  }

  /** The heights of the blocks grow from above `low` to at most `high`. */
  ghost predicate Between(low: int, events: seq<Event>, high: int) {
    && (forall i | 0 <= i < |events| && events[i].Block? :: low < events[i].height <= high)
    && (forall i, j | 0 <= i < j < |events| && events[i].Block? && events[j].Block? ::
      events[i].height < events[j].height)
  }

  lemma BetweenNext(low: int, events: seq<Event>, high: int, more: seq<Event>, top: int)
    requires Between(low, events, high) && low <= high <= top && |more| <= 1
    requires forall e | e in more && e.Block? :: high < e.height <= top
    ensures Between(low, events + more, top)
  {
    var all := events + more;
    forall i | 0 <= i < |all| ensures all[i] == if i < |events| then events[i] else more[0] {}
  }

  lemma {:induction false} HeightsBetween(c: Counts, actions: seq<Action>)
    requires c.height == c.onFile
    ensures var d := NextAll(c, actions);
            c.height <= d.height == d.onFile && Between(c.height, EventsOf(c, actions), d.height)
  {
    if actions != [] {
      var front, last := actions[..|actions| - 1], actions[|actions| - 1];
      HeightsBetween(c, front);
      var d := NextAll(c, front);
      BetweenNext(c.height, EventsOf(c, front), d.height, Emitted(d, last), Next(d, last).height);
    }
  }

  /** Blocks whose application failed, rejected blocks, restarts and admin edits between
      them or not: the heights of the blocks applied grow, and exceed every version of the
      state that the peer started from. */
  lemma HandledHeightsGrow(start: Store, c: Counts, actions: seq<Action>)
    requires c.height == c.onFile && AllOlder([start], c.onFile + 1)
    ensures HeightsGrow(start, EventsOf(c, actions))
  {
    HeightsBetween(c, actions);
    var events := EventsOf(c, actions);
    forall i | 0 <= i < |events| && events[i].Block? ensures AllOlder([start], events[i].height) {
      forall j, k | 0 <= j < 1 ensures Older([start][j].GetVersion(k), events[i].height) {
        assert Older([start][0].GetVersion(k), c.onFile + 1);
      }
    }
  }
}
