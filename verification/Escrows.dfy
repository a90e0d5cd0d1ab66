/** What every run keeps of its escrows, whatever accounts its calls name: they pay at
    most once, and what was locked. */
module Escrows {
  import opened Wrappers
  import opened Ledger
  import opened Texts
  import opened RwSets
  import opened Simulation
  import opened WorldStates
  import opened Histories
  import opened Serializability
  import opened Contracts
  import opened Effects
  import opened Footprints
  import opened DirectCalls
  import opened Supply
  import opened CallRuns
  import opened PaddedEscrows

  // ---- What an accepted program leaves under a key ----

  /** When the program accepts, its last write of `k` is `v`; `written` says that this
      has been so before. */
  ghost predicate Leaves(p: Prog, k: Key, v: Value, written: bool, gas: nat)
    decreases gas
  {
    match p
    case Halt(ok) => ok ==> written
    case GetState(_, cont) => gas > 0 ==> forall u :: Leaves(cont(u), k, v, written, gas - 1)
    case PutState(key, value, next) => gas > 0 ==> Leaves(next, k, v, if key == k then value == v else written, gas - 1)
  }

  ghost predicate AlwaysLeaves(p: Prog, k: Key, v: Value, written: bool) {
    forall gas: nat :: Leaves(p, k, v, written, gas)
  }

  lemma PutInLookup(writeSet: seq<KVWrite>, key: Key, value: Value, k: Key)
    requires UniqueWrites(writeSet)
    ensures LookupIn(PutIn(writeSet, key, value), k) == if k == key then Written(value) else LookupIn(writeSet, k)
  {
    var out := PutIn(writeSet, key, value);
    var i, j := FindWrite(writeSet, k), FindWrite(out, k);
    UpsertKeepsUnique(writeSet, KVWrite(key, Decoded(value), false));
    if k == key {
      assert out[FindWrite(writeSet, key)].key == key;
    } else if i < |writeSet| {
      assert out[i].key == k;
    }
  }

  lemma {:induction false} SimulateLeaves(p: Prog, feed: nat -> Store, s: Sim, k: Key, v: Value, written: bool)
    requires Leaves(p, k, v, written, s.gas) && UniqueWrites(s.rw.writeSet)
    requires written ==> LookupIn(s.rw.writeSet, k) == Written(v)
    ensures var (ok, t) := Simulate(p, feed, s); ok ==> LookupIn(t.rw.writeSet, k) == Written(v)
    decreases s.gas
  {
    hide LookupIn, RecordIn, UniqueWrites;
    if p.GetState? && s.gas > 0 {
      var (u, t) := HostGet(feed, s, p.key);
      SimulateLeaves(p.cont(u), feed, t.(gas := s.gas - 1), k, v, written);
    } else if p.PutState? && s.gas > 0 {
      PutInLookup(s.rw.writeSet, p.key, p.value, k);
      UpsertKeepsUnique(s.rw.writeSet, KVWrite(p.key, Decoded(p.value), false));
      var u := s.(rw := s.rw.(writeSet := PutIn(s.rw.writeSet, p.key, p.value)), gas := s.gas - 1);
      SimulateLeaves(p.next, feed, u, k, v, if p.key == k then p.value == v else written);
    }
  }

  lemma GetLeaves(key: Key, cont: Value -> Prog, k: Key, v: Value, written: bool)
    requires forall u :: AlwaysLeaves(cont(u), k, v, written)
    ensures AlwaysLeaves(GetState(key, cont), k, v, written)
  {
    forall gas: nat ensures Leaves(GetState(key, cont), k, v, written, gas) {
      if gas > 0 {
        forall u ensures Leaves(cont(u), k, v, written, gas - 1) {
          assert AlwaysLeaves(cont(u), k, v, written);
        }
      }
    }
  }

  lemma PutLeaves(key: Key, value: Value, next: Prog, k: Key, v: Value, written: bool)
    requires AlwaysLeaves(next, k, v, if key == k then value == v else written)
    ensures AlwaysLeaves(PutState(key, value, next), k, v, written)
  {
  }

  lemma HaltLeaves(ok: bool, k: Key, v: Value, written: bool)
    requires ok ==> written
    ensures AlwaysLeaves(Halt(ok), k, v, written)
  {
  }

  lemma FetchLeaves(key: Key, cont: Value -> Prog, k: Key, v: Value, written: bool)
    requires forall u :: AlwaysLeaves(cont(u), k, v, written)
    ensures AlwaysLeaves(Fetch(key, cont), k, v, written)
  {
    hide Leaves, AlwaysLeaves;
    forall probe ensures AlwaysLeaves(if Size(probe) == 0 then cont(Empty)
      else GetState(key, (u: Value) => if Size(u) == 0 || Size(u) > Size(probe) then cont(Empty) else cont(u)),
      k, v, written)
    {
      GetLeaves(key, (u: Value) => if Size(u) == 0 || Size(u) > Size(probe) then cont(Empty)
        else cont(u), k, v, written);
    }
    GetLeaves(key, (probe: Value) =>
      if Size(probe) == 0 then cont(Empty)
      else GetState(key, (u: Value) => if Size(u) == 0 || Size(u) > Size(probe) then cont(Empty) else cont(u)),
      k, v, written);
  }

  lemma GetIntLeaves(key: Key, cont: int64 -> Prog, k: Key, v: Value, written: bool)
    requires forall n :: AlwaysLeaves(cont(n), k, v, written)
    ensures AlwaysLeaves(GetInt(key, cont), k, v, written)
  {
    hide Leaves, AlwaysLeaves;
    HaltLeaves(false, k, v, written);
    var parse := (u: Value) =>
      if u == Empty then cont(0)
      else match ParseInt(u)
        case Some(n) => cont(n)
        case None => Halt(false);
    forall u ensures AlwaysLeaves(parse(u), k, v, written) {
      assert AlwaysLeaves(cont(0), k, v, written);
      if ParseInt(u).Some? {
        assert AlwaysLeaves(cont(ParseInt(u).value), k, v, written);
      }
    }
    FetchLeaves(key, parse, k, v, written);
  }

  /** What an accepted escrow call leaves under its key. */
  function LeftBy(p: EscrowFields): Value {
    if p.action == "lock" then EscrowRec(p.from, p.to, p.amount) else Empty
  }

  lemma EndLeaves(raw: string, id: string, v: Value)
    ensures AlwaysLeaves(EscrowEnd(raw, id), EscrowOf(id), v, true)
  {
    hide Leaves, AlwaysLeaves;
    HaltLeaves(true, EscrowOf(id), v, true);
    PutLeaves(EscrowReceipt(id), Raw(raw), Halt(true), EscrowOf(id), v, true);
  }

  lemma PayOutLeaves(raw: string, p: EscrowFields, to: string, amount: int)
    ensures AlwaysLeaves(PayOut(raw, p, to, amount), EscrowOf(p.id), Empty, false)
  {
    hide Leaves, AlwaysLeaves, GetInt, EscrowEnd;
    var k := EscrowOf(p.id);
    EndLeaves(raw, p.id, Empty);
    PutLeaves(k, Empty, EscrowEnd(raw, p.id), k, Empty, false);
    var cont := (bal: int64) =>
      PutState(Balance(to), Int(Wrap64(bal + amount)), PutState(EscrowOf(p.id), Empty, EscrowEnd(raw, p.id)));
    forall bal: int64 ensures AlwaysLeaves(cont(bal), k, Empty, false) {
      PutLeaves(Balance(to), Int(Wrap64(bal + amount)), PutState(k, Empty, EscrowEnd(raw, p.id)), k, Empty, false);
    }
    GetIntLeaves(Balance(to), cont, k, Empty, false);
  }

  lemma LockLeaves(raw: string, p: EscrowFields)
    ensures var rest := (fromBal: int64) => if fromBal < p.amount then Halt(false) else LockFunds(raw, p, fromBal);
            AlwaysLeaves(GetInt(Balance(p.from), rest), EscrowOf(p.id), EscrowRec(p.from, p.to, p.amount), false)
  {
    hide Leaves, AlwaysLeaves, GetInt, EscrowEnd;
    var k, v := EscrowOf(p.id), EscrowRec(p.from, p.to, p.amount);
    HaltLeaves(false, k, v, false);
    EndLeaves(raw, p.id, v);
    PutLeaves(k, v, EscrowEnd(raw, p.id), k, v, false);
    var rest := (fromBal: int64) => if fromBal < p.amount then Halt(false) else LockFunds(raw, p, fromBal);
    forall fromBal: int64 ensures AlwaysLeaves(rest(fromBal), k, v, false) {
      PutLeaves(Balance(p.from), Int(Wrap64(fromBal - p.amount)), PutState(k, v, EscrowEnd(raw, p.id)), k, v, false);
    }
    GetIntLeaves(Balance(p.from), rest, k, v, false);
  }

  lemma ActionLeaves(raw: string, p: EscrowFields, stored: Value)
    ensures AlwaysLeaves(EscrowAction(raw, p, stored), EscrowOf(p.id), LeftBy(p), false)
  {
    hide Leaves, AlwaysLeaves, GetInt, PayOut, LockFunds;
    HaltLeaves(false, EscrowOf(p.id), LeftBy(p), false);
    LockLeaves(raw, p);
    if AsEscrow(stored).Some? {
      PayOutLeaves(raw, p, stored.to, stored.amount);
      PayOutLeaves(raw, p, stored.from, stored.amount);
    }
  }

  lemma EscrowLeaves(raw: string, p: EscrowFields)
    ensures AlwaysLeaves(ExecuteEscrow(raw, p), EscrowOf(p.id), LeftBy(p), false)
  {
    hide Leaves, AlwaysLeaves, Fetch, EscrowAction;
    HaltLeaves(false, EscrowOf(p.id), LeftBy(p), false);
    var act := (v: Value) => EscrowAction(raw, p, v);
    forall v ensures AlwaysLeaves(act(v), EscrowOf(p.id), LeftBy(p), false) {
      ActionLeaves(raw, p, v);
    }
    FetchLeaves(EscrowOf(p.id), act, EscrowOf(p.id), LeftBy(p), false);
  }

  // ---- What a VALID escrow call saw and left ----

  /** A fetch at the start of a simulation that passes the commit check, of a stable
      key, gives the live value. */
  lemma FetchIsLive(key: Key, cont: Value -> Prog, feed: nat -> Store, gas: nat, live: Store) returns (s1: Sim)
    requires WellFormedFeed(feed) && StableAt(feed, live, key)
    requires Simulate(Fetch(key, cont), feed, Sim(RW([], []), 0, gas)).0
    requires ReadsMatch(Simulate(Fetch(key, cont), feed, Sim(RW([], []), 0, gas)).1.rw.readSet, live)
    ensures s1.rw.writeSet == [] && Recorded(feed, s1) && s1.gas <= gas <= s1.gas + 2
    ensures Simulate(Fetch(key, cont), feed, Sim(RW([], []), 0, gas)) ==
            Simulate(cont(Norm(live.Observe(key))), feed, s1)
  {
    hide Fetch, AfterProbe, StableAt, Recorded, Simulate, Norm;
    FetchNeedsBudget(key, cont, feed, gas);
    s1 := FirstFetch(key, cont, feed, gas);
    var first := s1;
    assert first.rw.readSet[0] in first.rw.readSet;
    StableServes(feed, live, key, 0, 0);
    var v := live.Observe(key);
    NormIsZeroLength(v);
    if Size(v) == 0 {
      ProbeIsEmpty(key, cont, v);
    } else {
      StableServes(feed, live, key, 0, 1);
      s1 := SecondFetch(key, cont, v, feed, first);
    }
  }

  lemma FetchNeedsBudget(key: Key, cont: Value -> Prog, feed: nat -> Store, gas: nat)
    ensures Simulate(Fetch(key, cont), feed, Sim(RW([], []), 0, gas)).0 ==> gas > 0
  {
  }

  lemma ProbeIsEmpty(key: Key, cont: Value -> Prog, v: Value)
    ensures Size(v) == 0 ==> AfterProbe(key, cont, v) == cont(Empty)
  {
  }

  /** The second host call of a fetch, when it is served what the first one was. */
  lemma SecondFetch(key: Key, cont: Value -> Prog, v: Value, feed: nat -> Store, s1: Sim) returns (s2: Sim)
    requires WellFormedFeed(feed) && Recorded(feed, s1) && s1.fetches == 1 && s1.rw.writeSet == []
    requires |s1.rw.readSet| == 1 && s1.rw.readSet[0].key == key && feed(1).ServedValue(key) == v && Size(v) > 0
    requires Simulate(AfterProbe(key, cont, v), feed, s1).0
    ensures s2 == s1.(fetches := 2, gas := s2.gas) && s1.gas == s2.gas + 1 && Recorded(feed, s2)
    ensures Simulate(AfterProbe(key, cont, v), feed, s1) == Simulate(cont(v), feed, s2)
  {
    hide HostGet, Recorded, Size, AfterProbe, Simulate;
    HostGetRecorded(feed, s1, key);
    ReadAgain(feed, s1, key);
    SecondProbe(key, cont, v, feed, s1, s1.(fetches := 2));
    s2 := s1.(fetches := 2, gas := s1.gas - 1);
    RecordedWithGas(feed, s1.(fetches := 2), s2);
  }

  lemma SecondProbe(key: Key, cont: Value -> Prog, v: Value, feed: nat -> Store, s: Sim, t: Sim)
    requires Size(v) > 0 && HostGet(feed, s, key) == (v, t) && Simulate(AfterProbe(key, cont, v), feed, s).0
    ensures s.gas > 0
    ensures Simulate(AfterProbe(key, cont, v), feed, s) == Simulate(cont(v), feed, t.(gas := s.gas - 1))
  {
    hide HostGet, Size;
    var inner := (u: Value) => if Size(u) == 0 || Size(u) > Size(v) then cont(Empty) else cont(u);
    assert AfterProbe(key, cont, v) == GetState(key, inner);
    assert inner(v) == cont(v);
  }

  lemma ReadAgain(feed: nat -> Store, s1: Sim, key: Key)
    requires s1.rw.writeSet == [] && |s1.rw.readSet| == 1 && s1.rw.readSet[0].key == key
    ensures HostGet(feed, s1, key) == (feed(s1.fetches).ServedValue(key), s1.(fetches := s1.fetches + 1))
  {
    assert s1.rw.readSet[0] in s1.rw.readSet;
  }

  /** Every VALID escrow call, whatever it saw, leaves its record or clears it. */
  lemma EscrowLeft(h: seq<Store>, tx: Tx, o: Origin, raw: string, p: EscrowFields, live: Store, height: int, i: nat)
    requires AllWellFormed(h) && Simulated(h, tx, o) && o.guests == Guests(Escrow(raw, Some(p)))
    requires IsValid(CommitTx(live, tx, height, i))
    ensures Verify(Escrow(raw, Some(p)))
    ensures var after := CommitTx(live, tx, height, i).value.0;
            after.Observe(EscrowOf(p.id)) == LeftBy(p) && after.GetVersion(EscrowOf(p.id)) == AtBlock(height, i)
  {
    hide AlwaysLeaves, ExecuteEscrow, Recorded, Simulate, CommitTx, Guests, LookupIn, ApplyWrites;
    var c, feed, s0, k := Escrow(raw, Some(p)), Feed(h, o.at), Sim(RW([], []), 0, o.gas), EscrowOf(p.id);
    FeedWellFormed(h, o.at);
    TwoGuests(c, feed, s0);
    EscrowLeaves(raw, p);
    StartRecorded(feed, o.gas);
    LeavesWith(ExecuteEscrow(raw, p), k, LeftBy(p), o.gas);
    SimulateLeaves(ExecuteEscrow(raw, p), feed, s0, k, LeftBy(p), false);
    ReadsGrow(ExecuteEscrow(raw, p), feed, s0);
    ValidReadsMatch(tx, live, height, i);
    var t := Simulate(ExecuteEscrow(raw, p), feed, s0).1;
    RecordedWrites(feed, t);
    OverlayIsApplied(live, t.rw.writeSet, k, AtBlock(height, i));
    SomethingWritten(t.rw, k);
  }

  lemma StartRecorded(feed: nat -> Store, gas: nat)
    ensures Recorded(feed, Sim(RW([], []), 0, gas))
  {
  }

  lemma LeavesWith(p: Prog, k: Key, v: Value, gas: nat)
    requires AlwaysLeaves(p, k, v, false)
    ensures Leaves(p, k, v, false, gas)
  {
  }

  lemma RecordedWrites(feed: nat -> Store, t: Sim)
    requires Recorded(feed, t)
    ensures UniqueWrites(t.rw.writeSet) && PutsOnly(t.rw.writeSet)
  {
  }

  lemma SomethingWritten(rw: RW, k: Key)
    requires LookupIn(rw.writeSet, k).Written?
    ensures Attach(rw) == Some(rw)
  {
    assert rw.writeSet != [];
  }

  /** What the escrow's key held and what the escrow call saw there are the same. */
  lemma EscrowSaw(start: Store, h: seq<Store>, tx: Tx, o: Origin, raw: string, p: EscrowFields, live: Store,
                  height: int,
                  i: nat) returns (s1: Sim)
    requires Meets(start, h, tx, o, Escrow(raw, Some(p)), live) && CleanText(p.id)
    requires IsValid(CommitTx(live, tx, height, i))
    ensures Verify(Escrow(raw, Some(p))) && s1.rw.writeSet == [] && Recorded(Feed(h, o.at), s1)
    ensures var (ok, t) := Simulate(EscrowAction(raw, p, Norm(live.Observe(EscrowOf(p.id)))), Feed(h, o.at), s1);
            && ok && tx.rw == Attach(t.rw) && ReadsMatch(t.rw.readSet, live)
            && CommitTx(live, tx, height, i).value.0 == ApplyWrites(live, t.rw.writeSet, AtBlock(height, i))
  {
    hide EscrowAction, ApartSince, Recorded, Guests, CommitTx, Simulate, Norm, StableAt, TxWithin;
    var c, feed, s0 := Escrow(raw, Some(p)), Feed(h, o.at), Sim(RW([], []), 0, o.gas);
    var key, act := EscrowOf(p.id), (v: Value) => EscrowAction(raw, p, v);
    MeetsWellFormed(start, h, tx, o, c, live);
    FeedIsStable(h, o.at, live, key);
    TwoGuests(c, feed, s0);
    assert Execute(c) == Fetch(key, act);
    ValidReadsMatch(tx, live, height, i);
    s1 := FetchIsLive(key, act, feed, o.gas, live);
  }

  lemma MeetsWellFormed(start: Store, h: seq<Store>, tx: Tx, o: Origin, c: Call, live: Store)
    requires Meets(start, h, tx, o, c, live)
    ensures AllWellFormed(h) && live.WellFormed() && WellFormedFeed(Feed(h, o.at))
    ensures forall n: nat :: o.at(n) < |h|
  {
    hide ApartSince;
    assert (h + [live])[|h|] == live;
    WellFormedFront(h, live);
    FeedWellFormed(h, o.at);
  }

  /** A VALID call of a clean id locks an open escrow or, asked by an entitled party, pays
      out a live one. */
  lemma EscrowChanges(start: Store, h: seq<Store>, tx: Tx, o: Origin, raw: string, p: EscrowFields, live: Store,
                      height: int, i: nat)
    requires Meets(start, h, tx, o, Escrow(raw, Some(p)), live) && CleanText(p.id)
    requires IsValid(CommitTx(live, tx, height, i))
    ensures var after := CommitTx(live, tx, height, i).value.0;
            if p.action == "lock" then
              EscrowAt(live, p.id).None? && EscrowAt(after, p.id) == Some(EscrowRec(p.from, p.to, p.amount))
            else
              && EscrowAt(live, p.id).Some? && Entitled(p, EscrowAt(live, p.id).value)
              && EscrowAt(after, p.id).None?
  {
    hide Meets, CommitTx, GetInt, PayOut, LockFunds, LookupIn, ApplyWrites, Recorded;
    var s1 := EscrowSaw(start, h, tx, o, raw, p, live, height, i);
    MeetsShape(start, h, tx, o, Escrow(raw, Some(p)), live);
    EscrowLeft(h, tx, o, raw, p, live, height, i);
  }

  lemma MeetsShape(start: Store, h: seq<Store>, tx: Tx, o: Origin, c: Call, live: Store)
    requires Meets(start, h, tx, o, c, live)
    ensures AllWellFormed(h) && Simulated(h, tx, o) && o.guests == Guests(c)
    ensures TxWithin(tx, Scope(IdOf(c), (w: string) => true))
  {
    hide Simulated, Guests, ApartSince, TxWithin, Consistent;
    MeetsWellFormed(start, h, tx, o, c, live);
  }

  // ---- Along the stops of a run ----

  predicate Mentions(c: Call, id: string) {
    IsLock(c, id) || IsPayOut(c, id)
  }

  /** What an accepted call may do to the escrow of `id`. */
  ghost predicate Changes(s: Store, c: Call, t: Store, id: string) {
    if IsLock(c, id) then
      && EscrowAt(s, id).None?
      && EscrowAt(t, id) == Some(EscrowRec(c.escrow.value.from, c.escrow.value.to, c.escrow.value.amount))
    else if IsPayOut(c, id) then
      && EscrowAt(s, id).Some? && Entitled(c.escrow.value, EscrowAt(s, id).value)
      && EscrowAt(t, id).None?
    else EscrowAt(t, id) == EscrowAt(s, id)
  }

  lemma SameEscrow(s: Store, t: Store, id: string)
    requires SameAt(s, t, EscrowOf(id))
    ensures EscrowAt(t, id) == EscrowAt(s, id)
  {
  }

  /** Calls that do not name an escrow leave its entry alone. */
  lemma OtherCallKeeps(start: Store, h: seq<Store>, tx: Tx, o: Origin, d: Done, s: Store, t: Store, id: string)
    requires Happened(start, h, tx, o, d, s, t) && !Mentions(d.call, id)
    ensures SameAt(s, t, EscrowOf(id))
  {
    hide Meets;
    MeetsShape(start, h, tx, o, d.call, s);
    ValidReadsMatch(tx, s, d.version.height, d.version.index);
    if tx.rw.Some? {
      ApplyWritesTouch(s, tx.rw.value.writeSet, d.version, Scope(IdOf(d.call), (w: string) => true), EscrowOf(id));
    }
  }

  /** The VALID calls of a run change the escrow of a clean id by locking it when it is
      open, or by paying it out to an entitled party when it is locked. */
  lemma RunChanges(states: seq<Store>, events: seq<Event>, calls: seq<seq<Call>>, n: nat, id: string, j: nat)
    requires CallRun(states, events, calls) && n <= |events| && CleanText(id)
    requires j < |Trace(states, events, calls, n)|
    ensures |Stops(states, events, calls, n)| == |Trace(states, events, calls, n)| + 1
    ensures Changes(Stops(states, events, calls, n)[j], Trace(states, events, calls, n)[j].call,
                    Stops(states, events, calls, n)[j + 1], id)
  {
    hide CallRun, Trace, Stops, Meets, CommitTx, EscrowAt, Entitled, AllOlder;
    var m, tx, o := StopAt(states, events, calls, n, j);
    var start, h, d := states[0], states[..m + 1], Trace(states, events, calls, n)[j];
    var s, t := Stops(states, events, calls, n)[j], Stops(states, events, calls, n)[j + 1];
    assert Happened(start, h, tx, o, d, s, t);
    if Mentions(d.call, id) {
      EscrowChanges(start, h, tx, o, d.call.raw, d.call.escrow.value, s, d.version.height, d.version.index);
    } else {
      OtherCallKeeps(start, h, tx, o, d, s, t, id);
      SameEscrow(s, t, id);
    }
  }

  /** Each of the calls leads from one store to the next. */
  ghost predicate Pairs(done: seq<Done>, stops: seq<Store>, id: string) {
    |stops| == |done| + 1 && forall j | 0 <= j < |done| :: Changes(stops[j], done[j].call, stops[j + 1], id)
  }

  lemma RunPairs(states: seq<Store>, events: seq<Event>, calls: seq<seq<Call>>, n: nat, id: string)
    requires CallRun(states, events, calls) && n <= |events| && CleanText(id)
    ensures Pairs(Trace(states, events, calls, n), Stops(states, events, calls, n), id)
  {
    hide CallRun, Trace, Stops, Changes;
    StopsPair(states, events, calls, n);
    forall j | 0 <= j < |Trace(states, events, calls, n)|
      ensures Changes(Stops(states, events, calls, n)[j], Trace(states, events, calls, n)[j].call,
                      Stops(states, events, calls, n)[j + 1], id)
    {
      RunChanges(states, events, calls, n, id, j);
    }
  }

  /** Without a lock in between, an open escrow stays open. */
  lemma {:induction false} StaysOpen(done: seq<Done>, stops: seq<Store>, id: string, i: nat, j: nat)
    requires Pairs(done, stops, id) && i <= j <= |done| && EscrowAt(stops[i], id).None?
    requires forall l | i <= l < j :: !IsLock(done[l].call, id)
    ensures EscrowAt(stops[j], id).None?
    decreases j
  {
    hide EscrowAt, IsLock, IsPayOut, Entitled;
    if i < j {
      StaysOpen(done, stops, id, i, j - 1);
      assert Changes(stops[j - 1], done[j - 1].call, stops[j], id);
    }
  }

  /** A locked escrow keeps its record until it is paid out. */
  lemma {:induction false} KeepsRecord(done: seq<Done>, stops: seq<Store>, id: string, l: nat, j: nat)
    requires Pairs(done, stops, id) && l < j <= |done| && IsLock(done[l].call, id)
    requires forall m | l < m < j :: !IsPayOut(done[m].call, id)
    ensures var p := done[l].call.escrow.value; EscrowAt(stops[j], id) == Some(EscrowRec(p.from, p.to, p.amount))
    decreases j
  {
    hide EscrowAt, Entitled;
    if l < j - 1 {
      KeepsRecord(done, stops, id, l, j - 1);
    }
    assert Changes(stops[j - 1], done[j - 1].call, stops[j], id);
  }

  // ---- Ids with white space at their end ----

  /** The escrow's key has been written since the start. */
  ghost predicate Marked(start: Store, s: Store, id: string) {
    var v := s.GetVersion(EscrowOf(id));
    v != NoVersion && v != start.GetVersion(EscrowOf(id))
  }

  lemma StampIsNew(start: Store, k: Key, version: Version)
    requires version.AtBlock? && AllOlder([start], version.height)
    ensures start.GetVersion(k) != version
  {
    assert Older([start][0].GetVersion(k), version.height);
  }

  /** A VALID call marks the escrow it names and leaves the other marks. */
  lemma HappenedMarks(start: Store, h: seq<Store>, tx: Tx, o: Origin, d: Done, s: Store, t: Store, id: string)
    requires Happened(start, h, tx, o, d, s, t) && (Mentions(d.call, id) || Marked(start, s, id))
    ensures Marked(start, t, id)
  {
    hide Meets, CommitTx, AllOlder;
    if Mentions(d.call, id) {
      MeetsShape(start, h, tx, o, d.call, s);
      EscrowLeft(h, tx, o, d.call.raw, d.call.escrow.value, s, d.version.height, d.version.index);
      StampIsNew(start, EscrowOf(id), d.version);
    } else {
      OtherCallKeeps(start, h, tx, o, d, s, t, id);
    }
  }

  /** A padded id that is marked is not named by a VALID call again: the first fetch
      would have been served the version of another escrow's key. */
  lemma MarkedIsClean(start: Store, h: seq<Store>, tx: Tx, o: Origin, d: Done, s: Store, t: Store, id: string)
    requires Happened(start, h, tx, o, d, s, t) && Mentions(d.call, id) && Marked(start, s, id)
    ensures CleanText(id)
  {
    hide CommitTx, AllOlder, Simulated, Guests, Coherent, Consistent, TxWithin;
    MeetsShape(start, h, tx, o, d.call, s);
    var s1 := EscrowReadIsCurrent(h, tx, o, d.call.raw, d.call.escrow.value, s, d.version.height, d.version.index);
    var g, a := h + [s], o.at(0);
    assert g[a] == h[a] && g[|h|] == s;
    assert g[|h|].GetVersion(EscrowOf(id)) == g[a].GetVersion(EscrowOf(TrimRight(id)));
  }

  lemma {:induction false} StaysMarked(states: seq<Store>, events: seq<Event>, calls: seq<seq<Call>>, n: nat,
                                       id: string,
                                       i: nat, j: nat)
    requires CallRun(states, events, calls) && n <= |events| && i < j <= |Trace(states, events, calls, n)|
    requires Mentions(Trace(states, events, calls, n)[i].call, id)
    ensures j < |Stops(states, events, calls, n)| && Marked(states[0], Stops(states, events, calls, n)[j], id)
    decreases j
  {
    hide CallRun, Trace, Stops, Marked, Meets, CommitTx, AllOlder;
    if i < j - 1 {
      StaysMarked(states, events, calls, n, id, i, j - 1);
    }
    var m, tx, o := StopAt(states, events, calls, n, j - 1);
    var stops, done := Stops(states, events, calls, n), Trace(states, events, calls, n);
    HappenedMarks(states[0], states[..m + 1], tx, o, done[j - 1], stops[j - 1], stops[j], id);
  }

  /** In every run: an id that two VALID calls name has no white space at its end. */
  lemma NamedTwiceIsClean(states: seq<Store>, events: seq<Event>, calls: seq<seq<Call>>, n: nat, id: string, i: nat,
                          j: nat)
    requires CallRun(states, events, calls) && n <= |events| && i < j < |Trace(states, events, calls, n)|
    requires Mentions(Trace(states, events, calls, n)[i].call, id)
               && Mentions(Trace(states, events, calls, n)[j].call, id)
    ensures CleanText(id)
  {
    hide CallRun, Trace, Stops, Marked, Meets, CommitTx, AllOlder;
    StaysMarked(states, events, calls, n, id, i, j);
    var m, tx, o := StopAt(states, events, calls, n, j);
    var stops, done := Stops(states, events, calls, n), Trace(states, events, calls, n);
    MarkedIsClean(states[0], states[..m + 1], tx, o, done[j], stops[j], stops[j + 1], id);
  }

  // ---- Paid at most once ----

  /** In every run, however many releases and refunds were simulated on the same state and
      ordered into the same block, and whatever accounts other calls name: between two
      VALID payouts of an id there is a VALID lock of it. */
  lemma EscrowPaysOnce(states: seq<Store>, events: seq<Event>, calls: seq<seq<Call>>, n: nat, id: string, i: nat,
                       j: nat)
    requires CallRun(states, events, calls) && n <= |events| && i < j < |Trace(states, events, calls, n)|
    requires IsPayOut(Trace(states, events, calls, n)[i].call, id)
               && IsPayOut(Trace(states, events, calls, n)[j].call, id)
    ensures exists l :: i < l < j && IsLock(Trace(states, events, calls, n)[l].call, id)
  {
    hide CallRun, Trace, Stops, EscrowAt, Entitled;
    NamedTwiceIsClean(states, events, calls, n, id, i, j);
    RunPairs(states, events, calls, n, id);
    var stops, done := Stops(states, events, calls, n), Trace(states, events, calls, n);
    assert Changes(stops[i], done[i].call, stops[i + 1], id) && Changes(stops[j], done[j].call, stops[j + 1], id);
    if forall l | i < l < j :: !IsLock(done[l].call, id) {
      StaysOpen(done, stops, id, i + 1, j);
    }
  }

  // ---- Paid exactly what was locked ----

  function Just(k: Key): Key -> bool {
    (j: Key) => j == k
  }

  /** A payout fetches the paid balance only. */
  lemma PayOutFetchesBalance(raw: string, p: EscrowFields, to: string, amount: int, gas: nat)
    ensures FetchesOnly(PayOut(raw, p, to, amount), Just(Balance(to)), gas)
  {
    var ok := Just(Balance(to));
    var cont := (bal: int64) =>
      PutState(Balance(to), Int(Wrap64(bal + amount)), PutState(EscrowOf(p.id), Empty, EscrowEnd(raw, p.id)));
    var parse := (v: Value) =>
      if v == Empty then cont(0)
      else match ParseInt(v)
        case Some(n) => cont(n)
        case None => Halt(false);
    forall v, g: nat ensures FetchesOnly(parse(v), ok, g) {
      forall n: int64 ensures FetchesOnly(cont(n), ok, g) {
        PayOutPutsOnly(raw, p, to, Int(Wrap64(n + amount)), ok, g);
      }
      assert FetchesOnly(Halt(false), ok, g);
    }
    FetchFetchesOnly(Balance(to), parse, ok, gas);
  }

  lemma PayOutPutsOnly(raw: string, p: EscrowFields, to: string, v: Value, ok: Key -> bool, gas: nat)
    ensures FetchesOnly(PutState(Balance(to), v, PutState(EscrowOf(p.id), Empty, EscrowEnd(raw, p.id))), ok, gas)
  {
    var end := EscrowEnd(raw, p.id);
    assert forall g: nat :: FetchesOnly(Halt(true), ok, g);
    assert forall g: nat :: FetchesOnly(end, ok, g);
    assert forall g: nat :: FetchesOnly(PutState(EscrowOf(p.id), Empty, end), ok, g);
  }

  /** A VALID payout of a clean id whose paid balance is stable has its effect on the
      state it met. */
  lemma PayOutIsExact(start: Store, h: seq<Store>, tx: Tx, o: Origin, raw: string, p: EscrowFields, live: Store,
                      height: int, i: nat)
    requires Meets(start, h, tx, o, Escrow(raw, Some(p)), live) && CleanText(p.id) && p.action != "lock"
    requires IsValid(CommitTx(live, tx, height, i)) && EscrowAt(live, p.id).Some?
    requires StableAt(Feed(h, o.at), live, Balance(PaidParty(p, EscrowAt(live, p.id).value)))
    ensures var e := EscrowAt(live, p.id).value;
            PayOutEffect(live, AtBlock(height, i), raw, p.id, PaidParty(p, e), e.amount) ==
            Some(CommitTx(live, tx, height, i).value.0)
  {
    hide CommitTx, GetInt, PayOut, LockFunds, ApplyWrites, Recorded, ApartSince, StableAt, PayOutEffect, Simulate,
      Direct;
    var e, version, feed := EscrowAt(live, p.id).value, AtBlock(height, i), Feed(h, o.at);
    var to := PaidParty(p, e);
    var s1 := EscrowSaw(start, h, tx, o, raw, p, live, height, i);
    ActionIsPayOut(raw, p, Norm(live.Observe(EscrowOf(p.id))), feed, s1);
    MeetsWellFormed(start, h, tx, o, Escrow(raw, Some(p)), live);
    PayOutFetchesBalance(raw, p, to, e.amount, s1.gas);
    NoWrites(live, [], version);
    assert s1.rw.writeSet == [][..0];
    SimulateIsDirectOn(PayOut(raw, p, to, e.amount), Just(Balance(to)), feed, s1, live, version);
    PayOutEffectHolds(raw, p, to, e.amount, version, Run(live, s1.gas));
  }

  /** An accepted action other than a lock is a payout of the stored escrow. */
  lemma ActionIsPayOut(raw: string, p: EscrowFields, stored: Value, feed: nat -> Store, s: Sim)
    requires p.action != "lock" && Simulate(EscrowAction(raw, p, stored), feed, s).0
    ensures AsEscrow(stored).Some?
    ensures EscrowAction(raw, p, stored) == PayOut(raw, p, PaidParty(p, stored), stored.amount)
  {
    hide PayOut;
  }

  /** A party whose name has no white space at its end, or whose name without it is not
      the treasury's nor that of a balance from the start. */
  predicate SafeParty(start: Store, name: string) {
    CleanText(name) || (TrimRight(name) != TREASURY && Balance(TrimRight(name)) !in start.kv)
  }

  /** No call ever writes an account whose name has not 40 bytes, but the treasury's. */
  lemma {:induction false} ShortNameStaysAway(states: seq<Store>, events: seq<Event>, calls: seq<seq<Call>>, n: nat,
                                              k: Key)
    requires CallRun(states, events, calls) && n <= |events| && k !in states[0].kv
    requires k.Balance? && ByteLen(Suffix(k)) != 40 && k != Balance(TREASURY)
    ensures k !in states[n].kv
  {
    hide ValidRun, CommitBlock, BlockWithin, Joined;
    RunShape(states, events, calls);
    if n > 0 {
      ShortNameStaysAway(states, events, calls, n - 1, k);
      RunJoined(states, events, calls, n - 1);
      AnyBlockIsWithin(states, events, calls, n - 1);
      BlockKeepsAway(states[n - 1], events[n - 1].txs, calls[n - 1], events[n - 1].height, k);
    }
  }

  lemma BlockKeepsAway(s: Store, txs: seq<Tx>, calls: seq<Call>, height: int, k: Key)
    requires BlockWithin(txs, calls, (w: string) => true) && CommitBlock(s, txs, height).Ok? && k !in s.kv
    requires k.Balance? && ByteLen(Suffix(k)) != 40 && k != Balance(TREASURY)
    ensures k !in CommitBlock(s, txs, height).value.0.kv
  {
    hide BlockWithin;
    CommitTouches(s, txs, calls, (w: string) => true, height, |txs|, k);
  }

  /** The balance of a safe party is stable wherever a VALID call fetches it. */
  lemma SafePartyIsStable(states: seq<Store>, events: seq<Event>, calls: seq<seq<Call>>, m: nat, tx: Tx, o: Origin,
                          c: Call, live: Store, to: string)
    requires CallRun(states, events, calls) && m < |events|
    requires Meets(states[0], states[..m + 1], tx, o, c, live)
    requires SafeParty(states[0], to) && ByteLen(to) == 40
    ensures StableAt(Feed(states[..m + 1], o.at), live, Balance(to))
  {
    hide ValidRun, ApartSince, Coherent, Consistent, Guests, TxWithin;
    RunShape(states, events, calls);
    var h, k := states[..m + 1], Balance(to);
    MeetsWellFormed(states[0], h, tx, o, c, live);
    if CleanText(to) {
      FeedIsStable(h, o.at, live, k);
    } else {
      TrimmedIsShorter(to);
      forall n: nat ensures h[o.at(n)].ServedValue(k) == Empty && h[o.at(n)].ServedVersion(k) == NoVersion {
        ShortNameStaysAway(states, events, calls, o.at(n), Balance(TrimRight(to)));
        assert h[o.at(n)].WellFormed();
      }
    }
  }

  /** The same for a VALID lock and the sender's balance. */
  lemma LockIsExact(start: Store, h: seq<Store>, tx: Tx, o: Origin, raw: string, p: EscrowFields, live: Store,
                    height: int, i: nat)
    requires Meets(start, h, tx, o, Escrow(raw, Some(p)), live) && CleanText(p.id) && p.action == "lock"
    requires IsValid(CommitTx(live, tx, height, i)) && EscrowAt(live, p.id).None?
    requires StableAt(Feed(h, o.at), live, Balance(p.from))
    ensures EscrowEffect(live, AtBlock(height, i), raw, p) == Some(CommitTx(live, tx, height, i).value.0)
  {
    hide CommitTx, ApplyWrites, Recorded, ApartSince, StableAt, Simulate, Direct, EscrowAction, EscrowEffect;
    var version, feed := AtBlock(height, i), Feed(h, o.at);
    var stored := Norm(live.Observe(EscrowOf(p.id)));
    var s1 := EscrowSaw(start, h, tx, o, raw, p, live, height, i);
    OpenIsEmpty(raw, p, stored);
    MeetsWellFormed(start, h, tx, o, Escrow(raw, Some(p)), live);
    LockFetchesBalance(raw, p, Just(Balance(p.from)), s1.gas);
    NoWrites(live, [], version);
    assert s1.rw.writeSet == [][..0];
    SimulateIsDirectOn(EscrowAction(raw, p, stored), Just(Balance(p.from)), feed, s1, live, version);
    LockEffectHolds(raw, p, version, Run(live, s1.gas));
  }

  lemma OpenIsEmpty(raw: string, p: EscrowFields, stored: Value)
    requires p.action == "lock" && AsEscrow(stored).None?
    ensures EscrowAction(raw, p, stored) == EscrowAction(raw, p, Empty)
  {
    hide GetInt, LockFunds;
  }

  /** The party whose balance an escrow call changes. */
  function ChangedParty(p: EscrowFields, s: Store): string {
    if p.action == "lock" || EscrowAt(s, p.id).None? then p.from else PaidParty(p, EscrowAt(s, p.id).value)
  }

  /** In every run: a VALID call that names a clean id has exactly its effect on the state
      it met, if the party whose balance it changes is safe. */
  lemma RunEscrowIsExact(states: seq<Store>, events: seq<Event>, calls: seq<seq<Call>>, n: nat, id: string, j: nat)
    requires CallRun(states, events, calls) && n <= |events| && j < |Trace(states, events, calls, n)|
    requires Mentions(Trace(states, events, calls, n)[j].call, id) && CleanText(id)
    ensures |Stops(states, events, calls, n)| == |Trace(states, events, calls, n)| + 1
    ensures var d, s := Trace(states, events, calls, n)[j], Stops(states, events, calls, n)[j];
            SafeParty(states[0], ChangedParty(d.call.escrow.value, s)) ==>
              Effect(d.call, s, d.version) == Some(Stops(states, events, calls, n)[j + 1])
  {
    hide CallRun, Trace, Stops, Meets, CommitTx, AllOlder, PayOutEffect, SafeParty, EscrowAt;
    RunShape(states, events, calls);
    RunChanges(states, events, calls, n, id, j);
    var m, tx, o := StopAt(states, events, calls, n, j);
    var d, s := Trace(states, events, calls, n)[j], Stops(states, events, calls, n)[j];
    var p, to := d.call.escrow.value, ChangedParty(d.call.escrow.value, s);
    MeetsShape(states[0], states[..m + 1], tx, o, d.call, s);
    EscrowLeft(states[..m + 1], tx, o, d.call.raw, p, s, d.version.height, d.version.index);
    if SafeParty(states[0], to) {
      ChangedIsAccount(d.call.raw, p, s);
      SafePartyIsStable(states, events, calls, m, tx, o, d.call, s, to);
      if p.action == "lock" {
        LockIsExact(states[0], states[..m + 1], tx, o, d.call.raw, p, s, d.version.height, d.version.index);
      } else {
        PayOutIsExact(states[0], states[..m + 1], tx, o, d.call.raw, p, s, d.version.height, d.version.index);
      }
    }
  }

  lemma ChangedIsAccount(raw: string, p: EscrowFields, s: Store)
    requires Verify(Escrow(raw, Some(p)))
    ensures ByteLen(ChangedParty(p, s)) == 40
  {
    hide ByteLen;
  }

  /** In every run, whatever else happens in it: a VALID payout credits exactly the amount
      of the lock it answers, to the recipient on release by either party and to the
      sender on refund by the sender, and changes no other balance.  Only the paid party
      must be safe. */
  lemma EscrowPaysLockedAmount(states: seq<Store>, events: seq<Event>, calls: seq<seq<Call>>, n: nat, id: string,
                               l: nat,
                               j: nat)
    requires CallRun(states, events, calls) && n <= |events| && l < j < |Trace(states, events, calls, n)|
    requires IsLock(Trace(states, events, calls, n)[l].call, id)
               && IsPayOut(Trace(states, events, calls, n)[j].call, id)
    requires forall m | l < m < j :: !IsPayOut(Trace(states, events, calls, n)[m].call, id)
    requires SafeParty(states[0], Payee(Trace(states, events, calls, n)[j].call.escrow.value,
                                        Trace(states, events, calls, n)[l].call.escrow.value))
    ensures |Stops(states, events, calls, n)| == |Trace(states, events, calls, n)| + 1
    ensures var lock := Trace(states, events, calls, n)[l].call.escrow.value;
            var pay := Trace(states, events, calls, n)[j].call.escrow.value;
            var before, after := Stops(states, events, calls, n)[j], Stops(states, events, calls, n)[j + 1];
            var k := Balance(Payee(pay, lock));
            && IntAt(before, k).Some? && after.Observe(k) == Int(Wrap64(IntAt(before, k).value + lock.amount))
            && (forall b: Key | b.Balance? && b != k :: after.Observe(b) == before.Observe(b))
            && EscrowAt(before, id) == Some(EscrowRec(lock.from, lock.to, lock.amount)) && EscrowAt(after, id).None?
            && (pay.from == lock.from || (pay.action == "release" && pay.from == lock.to))
            && (Sound(before.kv) && Total(before.kv) <= MAX_INT64 ==>
                  AmountAt(after.kv, k) == AmountAt(before.kv, k) + lock.amount)
  {
    hide CallRun, Trace, Stops, EscrowAt, SafeParty, Effect, Sound, Total, AmountAt, IntAt, Wrap64;
    NamedTwiceIsClean(states, events, calls, n, id, l, j);
    RunPairs(states, events, calls, n, id);
    var stops, done := Stops(states, events, calls, n), Trace(states, events, calls, n);
    KeepsRecord(done, stops, id, l, j);
    assert Changes(stops[j], done[j].call, stops[j + 1], id);
    RunEscrowIsExact(states, events, calls, n, id, j);
    PayOutMoves(done[j].call, stops[j], done[j].version, id, done[l].call.escrow.value);
  }

  /** What the effect of a payout is on the balances. */
  lemma PayOutMoves(c: Call, s: Store, version: Version, id: string, lock: EscrowFields)
    requires IsPayOut(c, id) && Effect(c, s, version).Some?
    requires EscrowAt(s, id) == Some(EscrowRec(lock.from, lock.to, lock.amount))
    ensures var after, k := Effect(c, s, version).value, Balance(Payee(c.escrow.value, lock));
            && IntAt(s, k).Some? && after.Observe(k) == Int(Wrap64(IntAt(s, k).value + lock.amount))
            && (forall b: Key | b.Balance? && b != k :: after.Observe(b) == s.Observe(b))
            && (Sound(s.kv) && Total(s.kv) <= MAX_INT64 ==> AmountAt(after.kv, k) == AmountAt(s.kv, k) + lock.amount)
  {
    hide Sound, Total, AmountAt, Wrap64, EscrowAt, IntAt, Effect, PayOutEffect;
    var pay := c.escrow.value;
    PayOutIsEffect(c, s, version, id, lock);
    PayOutCreditsOne(s, version, c.raw, id, Payee(pay, lock), lock.amount);
    if Sound(s.kv) && Total(s.kv) <= MAX_INT64 {
      PayOutStep(c, s, version, id, lock);
    }
  }

  lemma PayOutIsEffect(c: Call, s: Store, version: Version, id: string, lock: EscrowFields)
    requires IsPayOut(c, id) && Effect(c, s, version).Some?
    requires EscrowAt(s, id) == Some(EscrowRec(lock.from, lock.to, lock.amount))
    ensures Effect(c, s, version) == PayOutEffect(s, version, c.raw, id, Payee(c.escrow.value, lock), lock.amount)
  {
    hide PayOutEffect, EscrowAt, IntAt, Verify;
  }

  lemma PayOutCreditsOne(s: Store, version: Version, raw: string, id: string, to: string, amount: int)
    requires PayOutEffect(s, version, raw, id, to, amount).Some?
    ensures var after, k := PayOutEffect(s, version, raw, id, to, amount).value, Balance(to);
            && IntAt(s, k).Some? && after.Observe(k) == Int(Wrap64(IntAt(s, k).value + amount))
            && forall b: Key | b.Balance? && b != k :: after.Observe(b) == s.Observe(b)
  {
    hide IntAt, Wrap64;
  }
}
