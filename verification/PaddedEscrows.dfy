/** Escrow ids that end in white space: an escrow can be locked under one, and is then
    never paid out. */
module PaddedEscrows {
  import opened Wrappers
  import opened Ledger
  import opened RwSets
  import opened Simulation
  import opened WorldStates
  import opened Histories
  import opened Serializability
  import opened Contracts
  import opened Effects
  import opened Footprints
  import opened DirectCalls
  import opened OneState
  import opened Supply
  import opened Outcomes
  import opened CallRuns

  // ---- Once locked, never touched again ----

  /** Once a padded id's key has been written, no transaction naming the id is VALID. */
  lemma WrittenPaddedIdConflicts(h: seq<Store>, tx: Tx, o: Origin, c: Call, live: Store, height: int, i: nat)
    requires AllWellFormed(h + [live]) && EscrowsApart(h + [live]) && Simulated(h, tx, o) && o.guests == Guests(c)
    requires !CleanText(IdOf(c)) && live.GetVersion(EscrowOf(IdOf(c))) != NoVersion
    ensures !IsValid(CommitTx(live, tx, height, i))
  {
    if IsValid(CommitTx(live, tx, height, i)) {
      var s1 := PaddedIdSawNothing(h, tx, o, c.raw, c.escrow.value, live, height, i);
    }
  }

  lemma TxKeepsPadded(h: seq<Store>, tx: Tx, o: Origin, c: Call, live: Store, height: int, i: nat, id: string)
    requires AllWellFormed(h + [live]) && EscrowsApart(h + [live]) && Simulated(h, tx, o) && o.guests == Guests(c)
    requires TxWithin(tx, Scope(IdOf(c), (w: string) => true)) && CommitTx(live, tx, height, i).Ok?
    requires !CleanText(id) && live.GetVersion(EscrowOf(id)) != NoVersion
    ensures SameAt(live, CommitTx(live, tx, height, i).value.0, EscrowOf(id))
  {
    if IdOf(c) == id {
      WrittenPaddedIdConflicts(h, tx, o, c, live, height, i);
      InvalidKeeps(live, tx, height, i);
    } else if tx.rw.Some? {
      ApplyWritesTouch(live, tx.rw.value.writeSet, AtBlock(height, i), Scope(IdOf(c), (w: string) => true),
                       EscrowOf(id));
    }
  }

  lemma MeetsApart(start: Store, h: seq<Store>, tx: Tx, o: Origin, c: Call, live: Store)
    requires Meets(start, h, tx, o, c, live) && EscrowsApart([start])
    ensures AllWellFormed(h + [live]) && EscrowsApart(h + [live]) && Simulated(h, tx, o) && o.guests == Guests(c)
    ensures TxWithin(tx, Scope(IdOf(c), (w: string) => true))
  {
    hide ApartSince, EscrowsApart, Simulated, Guests;
    ApartFromApartStart(start, h + [live]);
  }

  lemma {:induction false} BlockKeepsPadded(start: Store, h: seq<Store>, e: Event, calls: seq<Call>, n: nat, id: string)
    requires Joined(start, h, e, calls) && EscrowsApart([start])
    requires n <= |e.txs| && CommitUpTo(Last(h), e.txs, e.height, n).Ok?
    requires !CleanText(id) && Last(h).GetVersion(EscrowOf(id)) != NoVersion
    ensures SameAt(Last(h), CommitUpTo(Last(h), e.txs, e.height, n).value.0, EscrowOf(id))
  {
    hide EscrowsApart, ApartSince, Coherent, AllOlder, Guests, CommitTx, Simulated, Consistent, Meets;
    if n > 0 {
      BlockKeepsPadded(start, h, e, calls, n - 1, id);
      var live := CommitUpTo(Last(h), e.txs, e.height, n - 1).value.0;
      JoinedMeets(start, h, e, calls, n - 1);
      MeetsApart(start, h, e.txs[n - 1], e.origins[n - 1], calls[n - 1], live);
      TxKeepsPadded(h, e.txs[n - 1], e.origins[n - 1], calls[n - 1], live, e.height, n - 1, id);
    }
  }

  /** Along every run, whatever is simulated on whichever states: once the key of a
      padded id has been written, its value and version stay. */
  lemma {:induction false} PaddedEscrowStays(states: seq<Store>, events: seq<Event>, calls: seq<seq<Call>>, id: string,
                                             n: nat, m: nat)
    requires CallRun(states, events, calls) && EscrowsApart([states[0]]) && n <= m <= |events|
    requires !CleanText(id) && states[n].GetVersion(EscrowOf(id)) != NoVersion
    ensures SameAt(states[n], states[m], EscrowOf(id))
    decreases m
  {
    hide CallRun, EscrowsApart, Joined;
    RunShape(states, events, calls);
    if n < m {
      PaddedEscrowStays(states, events, calls, id, n, m - 1);
      RunJoined(states, events, calls, m - 1);
      var h, e := states[..m], events[m - 1];
      assert Last(h) == states[m - 1];
      BlockKeepsPadded(states[0], h, e, calls[m - 1], |e.txs|, id);
    }
  }

  // ---- Never paid out ----

  /** A VALID transaction that names a padded id is a lock. */
  lemma ValidPaddedIsLock(start: Store, h: seq<Store>, tx: Tx, o: Origin, c: Call, live: Store, height: int, i: nat)
    requires Meets(start, h, tx, o, c, live) && EscrowsApart([start]) && IsValid(CommitTx(live, tx, height, i))
    requires !CleanText(IdOf(c))
    ensures IsLock(c, IdOf(c))
  {
    hide EscrowsApart, Coherent, CommitTx, Guests;
    MeetsApart(start, h, tx, o, c, live);
    var s1 := PaddedIdSawNothing(h, tx, o, c.raw, c.escrow.value, live, height, i);
    EmptyIsNoEscrow(c.raw, c.escrow.value);
  }

  /** Along every run, whatever ids trimming leaves: the only VALID calls that name an
      escrow id with white space at its end are locks. */
  lemma PaddedOnlyLocked(states: seq<Store>, events: seq<Event>, calls: seq<seq<Call>>, n: nat, d: Done)
    requires CallRun(states, events, calls) && EscrowsApart([states[0]]) && n <= |events|
    requires d in Trace(states, events, calls, n) && !CleanText(IdOf(d.call))
    ensures IsLock(d.call, IdOf(d.call))
  {
    hide CallRun, EscrowsApart, Meets, Trace, Stops, IsLock, CommitTx;
    var j: nat :| j < |Trace(states, events, calls, n)| && Trace(states, events, calls, n)[j] == d;
    var m, tx, o := StopAt(states, events, calls, n, j);
    var stops := Stops(states, events, calls, n);
    assert Happened(states[0], states[..m + 1], tx, o, d, stops[j], stops[j + 1]);
    ValidPaddedIsLock(states[0], states[..m + 1], tx, o, d.call, stops[j], d.version.height, d.version.index);
  }

  // ---- Exactly when a payout is VALID ----

  /** Who may ask for the payout of the escrow `e`. */
  predicate Entitled(p: EscrowFields, e: Value)
    requires e.EscrowRec?
  {
    (p.action == "release" && (p.from == e.from || p.from == e.to)) || (p.action == "refund" && p.from == e.from)
  }

  function PaidParty(p: EscrowFields, e: Value): string
    requires e.EscrowRec?
  {
    if p.action == "release" then e.to else e.from
  }

  function PayoutRW(s: Store, raw: string, id: string, to: string, amount: int): RW
    requires Readable(s.ServedValue(Balance(to)))
  {
    var bal := AmountOf(s.ServedValue(Balance(to)));
    RW([ReadOf(s, EscrowOf(id)), ReadOf(s, Balance(to))],
       [KVWrite(Balance(to), Decoded(Int(Wrap64(bal + amount))), false),
        KVWrite(EscrowOf(id), Decoded(Empty), false),
        KVWrite(EscrowReceipt(id), Decoded(Raw(raw)), false)])
  }

  lemma SimPayOut(raw: string, p: EscrowFields, to: string, amount: int, feed: nat -> Store, s: Store, sim: Sim)
      returns (t: Sim)
    requires Constant(feed, s) && sim.gas >= 5 && Readable(s.ServedValue(Balance(to)))
    requires sim.rw == RW([ReadOf(s, EscrowOf(p.id))], [])
    ensures t.rw == PayoutRW(s, raw, p.id, to, amount)
    ensures Simulate(PayOut(raw, p, to, amount), feed, sim) == (true, t)
  {
    hide GetInt, Simulate, Wrap64, Readable, AmountOf;
    var newBal := Int(Wrap64(AmountOf(s.ServedValue(Balance(to))) + amount));
    var cont := (bal: int64) =>
      PutState(Balance(to), Int(Wrap64(bal + amount)),
        PutState(EscrowOf(p.id), Empty, EscrowEnd(raw, p.id)));
    var s1 := SimGetInt(Balance(to), cont, feed, s, sim);
    var s2 := SimPut(Balance(to), newBal, PutState(EscrowOf(p.id), Empty, EscrowEnd(raw, p.id)), feed, s1);
    var s3 := SimPut(EscrowOf(p.id), Empty, EscrowEnd(raw, p.id), feed, s2);
    t := SimPut(EscrowReceipt(p.id), Raw(raw), Halt(true), feed, s3);
    HaltSim(feed, t);
  }

  lemma SimulatePayout(raw: string, p: EscrowFields, e: Value, feed: nat -> Store, s: Store, gas: nat)
    requires Constant(feed, s) && gas >= 7 && Verify(Escrow(raw, Some(p))) && p.action != "lock" && CleanText(p.id)
    requires EscrowAt(s, p.id) == Some(e) && Entitled(p, e) && Readable(s.ServedValue(Balance(PaidParty(p, e))))
    ensures ExecuteSpec(Guests(Escrow(raw, Some(p))), feed, gas) ==
            Ok(Some(PayoutRW(s, raw, p.id, PaidParty(p, e), e.amount)))
  {
    hide Simulate, Fetch, PayOut, PayoutRW;
    var s0, act := Sim(RW([], []), 0, gas), (v: Value) => EscrowAction(raw, p, v);
    var s1 := SimFetch(EscrowOf(p.id), act, feed, s, s0);
    assert s1.rw == RW([ReadOf(s, EscrowOf(p.id))], []);
    assert act(Norm(s.ServedValue(EscrowOf(p.id)))) == PayOut(raw, p, PaidParty(p, e), e.amount);
    var t := SimPayOut(raw, p, PaidParty(p, e), e.amount, feed, s, s1);
    TwoGuests(Escrow(raw, Some(p)), feed, s0);
    assert PayoutRW(s, raw, p.id, PaidParty(p, e), e.amount).readSet != [] by { SomeReads(s, raw, p, e); }
  }

  lemma SomeReads(s: Store, raw: string, p: EscrowFields, e: Value)
    requires e.EscrowRec? && Readable(s.ServedValue(Balance(PaidParty(p, e))))
    ensures PayoutRW(s, raw, p.id, PaidParty(p, e), e.amount).readSet != []
  {
  }

  lemma CommitPayoutExactly(s: Store, txid: string, raw: string, id: string, to: string, amount: int, height: int,
                            i: nat)
    requires Readable(s.ServedValue(Balance(to))) && CleanText(id)
    ensures IsValid(CommitTx(s, Tx(txid, Some(PayoutRW(s, raw, id, to, amount))), height, i)) <==>
            s.ServedVersion(Balance(to)) == s.GetVersion(Balance(to))
  {
    var rw := PayoutRW(s, raw, id, to, amount);
    NoConflict(rw.readSet, s);
    FirstMalformedSplit(rw.writeSet, 3);
    assert rw.readSet[0] in rw.readSet && rw.readSet[1] in rw.readSet;
  }

  /** Each fetch sees the newest state. */
  ghost predicate Newest(h: seq<Store>, o: Origin) {
    h != [] && forall n: nat :: o.at(n) == |h| - 1
  }

  /** A payout of a live escrow, asked for by an entitled party and simulated on the
      newest state, is VALID if and only if it is within the limits of `verify_tx`, the id
      has no white space at its end, and the balance of the paid party is served under its
      own version. */
  lemma PayoutValidExactly(h: seq<Store>, raw: string, p: EscrowFields, e: Value, o: Origin, txid: string, height: int,
                           i: nat)
    requires Newest(h, o) && AllWellFormed(h) && EscrowsApart(h)
    requires o.guests == Guests(Escrow(raw, Some(p))) && o.gas >= 7
    requires EscrowAt(Last(h), p.id) == Some(e) && Entitled(p, e)
    requires Readable(Last(h).ServedValue(Balance(PaidParty(p, e))))
    ensures var s, r, k := Last(h), ExecuteSpec(o.guests, Feed(h, o.at), o.gas), Balance(PaidParty(p, e));
            r.Ok? && IsValid(CommitTx(s, Tx(txid, r.value), height, i)) <==>
            EscrowLimits(raw, p) && CleanText(p.id) && s.ServedVersion(k) == s.GetVersion(k)
  {
    hide EscrowsApart, Verify, Guests, PayoutRW, Readable, EscrowLimits;
    var s, r, c := Last(h), ExecuteSpec(o.guests, Feed(h, o.at), o.gas), Escrow(raw, Some(p));
    PayoutIsVerified(raw, p, e);
    if !EscrowLimits(raw, p) {
      TwoGuests(c, Feed(h, o.at), Sim(RW([], []), 0, o.gas));
    } else if CleanText(p.id) {
      SimulatePayout(raw, p, e, Feed(h, o.at), s, o.gas);
      CommitPayoutExactly(s, txid, raw, p.id, PaidParty(p, e), e.amount, height, i);
    } else if r.Ok? {
      TwiceApart(h);
      assert s.GetVersion(EscrowOf(p.id)) != NoVersion;
      WrittenPaddedIdConflicts(h, Tx(txid, r.value), o, c, s, height, i);
    }
  }

  lemma PayoutIsVerified(raw: string, p: EscrowFields, e: Value)
    requires e.EscrowRec? && Entitled(p, e)
    ensures Verify(Escrow(raw, Some(p))) <==> EscrowLimits(raw, p)
    ensures p.action != "lock"
  {
    hide ByteLen;
    NoBytes(p.id);
  }

  lemma TwiceApart(h: seq<Store>)
    requires h != [] && AllWellFormed(h) && EscrowsApart(h)
    ensures AllWellFormed(h + [Last(h)]) && EscrowsApart(h + [Last(h)])
  {
    var g := h + [Last(h)];
    assert forall a | 0 <= a < |g| :: g[a] == h[if a < |h| then a else |h| - 1];
  }

  lemma SoundIsReadable(s: Store, to: string)
    requires Sound(s.kv)
    ensures Readable(s.ServedValue(Balance(to)))
  {
    IntIsAmount(s, Balance(TrimRight(to)));
  }

  /** The same in every sound state of every run.  A party whose name has no white space
      at its end is served its own balance, so that only the id decides. */
  lemma RunPayoutValidExactly(states: seq<Store>, events: seq<Event>, calls: seq<seq<Call>>, n: nat, raw: string,
                              p: EscrowFields, e: Value, o: Origin, txid: string, height: int, i: nat)
    requires CallRun(states, events, calls) && EscrowsApart([states[0]]) && n <= |events| && Sound(states[n].kv)
    requires Newest(states[..n + 1], o) && o.guests == Guests(Escrow(raw, Some(p))) && o.gas >= 7
    requires EscrowAt(states[n], p.id) == Some(e) && Entitled(p, e)
    ensures var s, r, k := states[n], ExecuteSpec(o.guests, Feed(states[..n + 1], o.at), o.gas),
              Balance(PaidParty(p, e));
            r.Ok? && IsValid(CommitTx(s, Tx(txid, r.value), height, i)) <==>
            && EscrowLimits(raw, p) && CleanText(p.id)
            && (CleanText(PaidParty(p, e)) || s.ServedVersion(k) == s.GetVersion(k))
  {
    hide EscrowsApart, Sound, Verify, Guests, CommitTx, ExecuteSpec, HeightsGrow, Readable, Coherent;
    var h := states[..n + 1];
    assert Last(h) == states[n];
    RunPrefix(states, events, n);
    RunCoherent(h, events[..n]);
    ApartSoFar(states, events, calls, n);
    CoherentIsWellFormed(h);
    SoundIsReadable(states[n], PaidParty(p, e));
    PayoutValidExactly(h, raw, p, e, o, txid, height, i);
  }

  // ---- Locks of padded ids ----

  lemma MissingServesOwn(s: Store, id: string, k: Key)
    requires s.WellFormed() && EscrowOf(id) !in s.kv && EscrowOf(TrimRight(id)) !in s.kv
    requires MayRead(k, Scope(id, CleanText))
    ensures ServesOwn(s, k)
  {
    assert k.EscrowOf? || k.Clean();
  }

  lemma LockedWhenMissing(s: Store, raw: string, p: EscrowFields, version: Version)
    requires Verify(Escrow(raw, Some(p))) && p.action == "lock" && EscrowOf(p.id) !in s.kv
    requires IntAt(s, Balance(p.from)).Some? && IntAt(s, Balance(p.from)).value >= p.amount
    ensures var e := Effect(Escrow(raw, Some(p)), s, version);
            && e.Some? && EscrowAt(e.value, p.id) == Some(EscrowRec(p.from, p.to, p.amount))
            && e.value.GetVersion(EscrowOf(p.id)) == version
            && e.value.Observe(Balance(p.from)) == Int(IntAt(s, Balance(p.from)).value - p.amount)
  {
  }

  /** A lock simulated on the newest state is VALID and takes the money also when the id
      ends in white space, as long as neither that id nor the trimmed one is stored. */
  lemma PaddedLockIsValid(s: Store, raw: string, p: EscrowFields, feed: nat -> Store, gas: nat, txid: string,
                          height: int, i: nat)
    requires Constant(feed, s) && gas >= 16 && StoreUses(s, CleanText)
    requires EscrowLimits(raw, p) && ByteLen(p.to) == 40 && p.from != p.to && p.amount >= 1 && p.action == "lock"
    requires CleanText(p.from) && CleanText(p.to)
    requires EscrowOf(p.id) !in s.kv && EscrowOf(TrimRight(p.id)) !in s.kv
    requires IntAt(s, Balance(p.from)).Some? && IntAt(s, Balance(p.from)).value >= p.amount
    ensures var r := ExecuteSpec(Guests(Escrow(raw, Some(p))), feed, gas);
            && r.Ok? && IsValid(CommitTx(s, Tx(txid, r.value), height, i))
            && var t := CommitTx(s, Tx(txid, r.value), height, i).value.0;
               && EscrowAt(t, p.id) == Some(EscrowRec(p.from, p.to, p.amount))
               && t.GetVersion(EscrowOf(p.id)) == AtBlock(height, i)
               && t.Observe(Balance(p.from)) == Int(IntAt(s, Balance(p.from)).value - p.amount)
  {
    hide ExecuteSpec, CommitTx, Guests, MayRead, ServesOwn, EscrowAt, Effect, StoreUses, ByteLen;
    NoBytes(p.id);
    var c := Escrow(raw, Some(p));
    forall k | MayRead(k, Scope(p.id, CleanText)) ensures ServesOwn(s, k) {
      MissingServesOwn(s, p.id, k);
    }
    NewestExactly(s, c, CleanText, feed, gas, txid, height, i);
    LockedWhenMissing(s, raw, p, AtBlock(height, i));
  }
}
