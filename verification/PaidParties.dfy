/** Exactly which parties a VALID payout pays as recorded. */
module PaidParties {
  import opened Wrappers
  import opened Ledger
  import opened RwSets
  import opened Simulation
  import opened WorldStates
  import opened Histories
  import opened Contracts
  import opened Effects
  import opened Footprints
  import opened DirectCalls
  import opened OneState
  import opened CallRuns
  import opened PaddedEscrows
  import opened Escrows
  import opened Trimming

  /** Every VALID payout of a stored record to `w` does what the record says. */
  ghost predicate PaidAsRecorded(done: seq<Done>, stops: seq<Store>, w: string)
    requires |stops| == |done| + 1
  {
    forall j: nat, id | j < |done| && IsPayOut(done[j].call, id) && EscrowAt(stops[j], id).Some?
      && PaidParty(done[j].call.escrow.value, EscrowAt(stops[j], id).value) == w ::
      Effect(done[j].call, stops[j], done[j].version) == Some(stops[j + 1])
  }

  /** Runs from a start without account names of other lengths and with escrow versions
      apart; their calls may name any accounts. */
  ghost predicate PlainStart(states: seq<Store>, events: seq<Event>, calls: seq<seq<Call>>) {
    CallRun(states, events, calls) && FullNames(states[0]) && EscrowsApart([states[0]])
  }

  ghost predicate RunPays(states: seq<Store>, events: seq<Event>, calls: seq<seq<Call>>, w: string)
    requires CallRun(states, events, calls)
  {
    StopsPair(states, events, calls, |events|);
    PaidAsRecorded(Trace(states, events, calls, |events|), Stops(states, events, calls, |events|), w)
  }

  lemma HarmlessIsSafe(start: Store, w: string)
    requires FullNames(start) && Harmless(w) && ByteLen(w) == 40
    ensures SafeParty(start, w)
  {
    TrimmedIsShorter(w);
  }

  lemma HarmlessIsPaid(states: seq<Store>, events: seq<Event>, calls: seq<seq<Call>>, w: string)
    requires PlainStart(states, events, calls) && Harmless(w)
    ensures RunPays(states, events, calls, w)
  {
    hide CallRun, Trace, Stops, FullNames, EscrowsApart, Harmless, Effect, SafeParty, ByteLen;
    RunShape(states, events, calls);
    StopsPair(states, events, calls, |events|);
    var done, stops := Trace(states, events, calls, |events|), Stops(states, events, calls, |events|);
    forall j: nat, id | j < |done| && IsPayOut(done[j].call, id) && EscrowAt(stops[j], id).Some?
      && PaidParty(done[j].call.escrow.value, EscrowAt(stops[j], id).value) == w
      ensures Effect(done[j].call, stops[j], done[j].version) == Some(stops[j + 1])
    {
      if !CleanText(id) {
        PaddedOnlyLocked(states, events, calls, |events|, done[j]);
      }
      HarmlessIsSafe(states[0], w);
      RunEscrowIsExact(states, events, calls, |events|, id, j);
    }
  }

  // ---- The run that pays the treasury's padded name ----

  function Release(b: string, y: string): Call {
    Escrow(y, Some(EscrowFields(DEAL, "release", b, "", 0, "")))
  }

  /** After the release that was simulated on `Middle`. */
  function Paid(a: string, b: string, w: string, x: string, y: string): Store {
    var v := AtBlock(2, 0);
    Middle(a, b, w, x).Put(Balance(w), Int(50), v).Put(EscrowOf(DEAL), Empty, v).Put(EscrowReceipt(DEAL), Raw(y), v)
  }

  lemma MiddleDeal(a: string, b: string, w: string, x: string, y: string)
    requires Names(a, b, w, x, y)
    ensures EscrowAt(Middle(a, b, w, x), DEAL) == Some(EscrowRec(b, w, 10)) && CleanText(DEAL)
  {
  }

  lemma ReleaseIsVerified(a: string, b: string, w: string, x: string, y: string)
    requires Names(a, b, w, x, y)
    ensures Verify(Release(b, y))
  {
  }

  lemma ReleaseWrites(s: Store, w: string, y: string)
    requires Serves(s, Balance(w), Int(40)) && CleanText(DEAL)
    ensures Readable(s.ServedValue(Balance(w)))
    ensures var rw, v := PayoutRW(s, y, DEAL, w, 10), AtBlock(2, 0);
            && ReadsMatch(rw.readSet, s) && FirstMalformed(rw.writeSet).None?
            && ApplyWrites(s, rw.writeSet, v) ==
               s.Put(Balance(w), Int(50), v).Put(EscrowOf(DEAL), Empty, v).Put(EscrowReceipt(DEAL), Raw(y), v)
  {
    hide ApplyWrites, FirstMalformed, TrimRight;
    ThreeWrites(s, PayoutRW(s, y, DEAL, w, 10).writeSet, AtBlock(2, 0));
  }

  lemma ReleaseBlock(feed: nat -> Store, a: string, b: string, w: string, x: string, y: string) returns (rw: RW)
    requires Names(a, b, w, x, y) && Constant(feed, Middle(a, b, w, x))
    ensures ExecuteSpec(Guests(Release(b, y)), feed, 16) == Ok(Some(rw))
    ensures CommitBlock(Middle(a, b, w, x), [Tx("", Some(rw))], 2) ==
            Ok((Paid(a, b, w, x, y), [TxApplyResult("", 0, Valid)]))
  {
    hide Names, Middle, Simulate, ExecuteSpec, CommitBlock, PayoutRW, Verify, Readable, ApplyWrites, FirstMalformed,
      Serves;
    var s := Middle(a, b, w, x);
    MiddleServes(a, b, w, x, y);
    MiddleDeal(a, b, w, x, y);
    ReleaseIsVerified(a, b, w, x, y);
    ReleaseWrites(s, w, y);
    rw := PayoutRW(s, y, DEAL, w, 10);
    SimulatePayout(y, Release(b, y).escrow.value, EscrowRec(b, w, 10), feed, s, 16);
    CommitOne(s, rw, 2);
  }

  lemma ReleaseStep(a: string, b: string, w: string, x: string, y: string) returns (e: Event)
    requires Names(a, b, w, x, y)
    ensures e.Block? && e.height == 2 && CallBlock(e, [Release(b, y)])
    ensures CommitBlock(Middle(a, b, w, x), e.txs, 2) == Ok((Paid(a, b, w, x, y), [TxApplyResult("", 0, Valid)]))
    ensures Step([Start(a, b, w), Middle(a, b, w, x)], e, Paid(a, b, w, x, y))
  {
    hide Start, Middle, Paid, ExecuteSpec, CommitBlock, Release, Names;
    var h, at := [Start(a, b, w), Middle(a, b, w, x)], (n: nat) => 1 as nat;
    MiddleWell(a, b, w, x, y);
    var rw := ReleaseBlock(Feed(h, at), a, b, w, x, y);
    var o := Origin(Guests(Release(b, y)), at, 16);
    e := Block(2, [Tx("", Some(rw))], [o]);
    assert Simulated(h, e.txs[0], o);
  }

  /** What the release should have done. */
  lemma ReleaseEffect(a: string, b: string, w: string, x: string, y: string)
    requires Names(a, b, w, x, y)
    ensures Effect(Release(b, y), Middle(a, b, w, x), AtBlock(2, 0)) != Some(Paid(a, b, w, x, y))
  {
    hide Names, Middle, Verify, TrimRight;
    MiddleSeen(a, b, w, x, y);
    MiddleDeal(a, b, w, x, y);
    ReleaseIsVerified(a, b, w, x, y);
    var e := Effect(Release(b, y), Middle(a, b, w, x), AtBlock(2, 0));
    assert e.Some? && e.value.Observe(Balance(w)) == Int(470);
    assert Paid(a, b, w, x, y).Observe(Balance(w)) == Int(50);
  }

  /** After a loyalty transfer to the treasury's padded name, releasing an escrow to it is
      VALID, and leaves it 50 instead of 470: the release was served the treasury's
      balance, under the version that both share. */
  lemma PaddedPartyRun(a: string, b: string, w: string, x: string, y: string)
    returns (states: seq<Store>, events: seq<Event>, calls: seq<seq<Call>>)
    requires Names(a, b, w, x, y)
    ensures PlainStart(states, events, calls) && |events| == 2 && |states| == 3
    ensures Trace(states, events, calls, 2) == [Done(Call1(a, w, x), AtBlock(1, 0)), Done(Release(b, y), AtBlock(2, 0))]
    ensures Stops(states, events, calls, 2) == [Start(a, b, w), Middle(a, b, w, x), Paid(a, b, w, x, y)]
  {
    hide CommitBlock, Step, Start, Middle, Paid, Call1, Release, CallBlock, CallRun, Trace, Stops, FullNames,
      EscrowsApart;
    var e1 := FirstStep(a, b, w, x, y);
    var e2 := ReleaseStep(a, b, w, x, y);
    states, events := [Start(a, b, w), Middle(a, b, w, x), Paid(a, b, w, x, y)], [e1, e2];
    calls := [[Call1(a, w, x)], [Release(b, y)]];
    StartOlder(a, b, w, 1);
    StartOlder(a, b, w, 2);
    StartServes(a, b, w, x, y);
    StartSuits(a, b, w, x, y);
    TwoCalls(states[0], states[1], states[2], e1, e2, Call1(a, w, x), Release(b, y));
  }

  lemma NotAsRecorded(done: seq<Done>, stops: seq<Store>, w: string, j: nat, id: string)
    requires |stops| == |done| + 1 && j < |done| && IsPayOut(done[j].call, id) && EscrowAt(stops[j], id).Some?
    requires PaidParty(done[j].call.escrow.value, EscrowAt(stops[j], id).value) == w
    requires Effect(done[j].call, stops[j], done[j].version) != Some(stops[j + 1])
    ensures !PaidAsRecorded(done, stops, w)
  {
    hide Effect, EscrowAt, PaidParty;
  }

  lemma ReleaseIsNotRecorded(a: string, b: string, w: string, x: string, y: string, done: seq<Done>, stops: seq<Store>)
    requires Names(a, b, w, x, y)
    requires done == [Done(Call1(a, w, x), AtBlock(1, 0)), Done(Release(b, y), AtBlock(2, 0))]
    requires stops == [Start(a, b, w), Middle(a, b, w, x), Paid(a, b, w, x, y)]
    ensures !PaidAsRecorded(done, stops, w)
  {
    hide Names, Middle, Paid, Start, Effect, EscrowAt, Call1, PaidAsRecorded;
    ReleaseEffect(a, b, w, x, y);
    MiddleDeal(a, b, w, x, y);
    NotAsRecorded(done, stops, w, 1, DEAL);
  }

  lemma PaddedPartyIsNotPaid(w: string) returns (states: seq<Store>, events: seq<Event>, calls: seq<seq<Call>>)
    requires !Harmless(w)
    ensures PlainStart(states, events, calls) && !RunPays(states, events, calls, w)
  {
    hide Names, Middle, Paid, Start, Trace, Stops, CallRun, FullNames, EscrowsApart, PayloadText, Call1, Release,
      PaidAsRecorded, ByteLen, TrimRight;
    SomeNames(w);
    var x, y := PayloadText(ALICE, w, "500"), PayloadText(BOB, w, "10");
    states, events, calls := PaddedPartyRun(ALICE, BOB, w, x, y);
    ReleaseIsNotRecorded(ALICE, BOB, w, x, y, Trace(states, events, calls, 2), Stops(states, events, calls, 2));
  }

  /** In all these runs every VALID payout to `w` pays what was recorded, if and only if
      `w` is not the treasury's name padded to 40 bytes. */
  lemma PaidPartyExactly(w: string)
    ensures Harmless(w) <==>
              forall states, events, calls | PlainStart(states, events, calls) :: RunPays(states, events, calls, w)
  {
    hide CallRun, FullNames, EscrowsApart, RunPays, Harmless;
    if Harmless(w) {
      forall states, events, calls | PlainStart(states, events, calls) ensures RunPays(states, events, calls, w) {
        HarmlessIsPaid(states, events, calls, w);
      }
    } else {
      var states, events, calls := PaddedPartyIsNotPaid(w);
    }
  }
}
