/** When the simulation of a call has the effect of executing the call itself. */
module DirectCalls {
  import opened Wrappers
  import opened Ledger
  import opened Texts
  import opened RwSets
  import opened Simulation
  import opened WorldStates
  import opened Histories
  import opened Serializability
  import opened Contracts
  import opened Effects
  import opened Footprints

  // ---- Stable reads ----

  /** The states a simulation may have seen, with harmless accounts in use only. */
  ghost predicate Setting(h: seq<Store>, at: nat -> nat, live: Store, used: string -> bool) {
    && h != [] && Coherent(h + [live]) && Consistent(h, at)
    && (forall n: nat :: at(n) < |h|)
    && (Monotone(at) ==> forall k | k in Last(h).kv :: k in live.kv)
    && (forall a | 0 <= a < |h| :: Suits(h[a], used))
    && (forall w | used(w) :: Harmless(w))
  }

  /** An account that ends in white space is always served as missing. */
  lemma PaddedAccountIsStable(h: seq<Store>, at: nat -> nat, live: Store, used: string -> bool, k: Key)
    requires Setting(h, at, live, used)
    requires AccountKey(k) && used(Suffix(k)) && ByteLen(Suffix(k)) == 40 && !CleanText(Suffix(k))
    ensures StableAt(Feed(h, at), live, k)
  {
    assert (h + [live])[|h|].WellFormed();
    forall n: nat ensures h[at(n)].ServedValue(k) == Empty && h[at(n)].ServedVersion(k) == NoVersion {
      assert (h + [live])[at(n)].WellFormed();
      ServedAsMissing(h[at(n)], used, k);
    }
  }

  lemma RecordedAsMissing(h: seq<Store>, tx: Tx, o: Origin, used: string -> bool, r: KVRead)
    requires AllWellFormed(h) && Simulated(h, tx, o) && (forall a | 0 <= a < |h| :: Suits(h[a], used))
    requires AccountKey(r.key) && used(Suffix(r.key)) && ByteLen(Suffix(r.key)) == 40 && !CleanText(Suffix(r.key))
    requires tx.rw.Some? && r in tx.rw.value.readSet
    ensures r.version == NoVersion
  {
    hide Suits;
    var feed := Feed(h, o.at);
    FeedWellFormed(h, o.at);
    AllReadsGrow(o.guests, feed, Sim(RW([], []), 0, o.gas));
    var n: nat :| feed(n).ServedVersion(r.key) == r.version;
    ServedAsMissing(h[o.at(n)], used, r.key);
  }

  /** Once it holds anything, no transaction that reads it is VALID. */
  lemma PaddedAccountConflicts(h: seq<Store>, tx: Tx, o: Origin, used: string -> bool, k: Key, live: Store, height: int,
                               i: nat)
    requires AllWellFormed(h) && Simulated(h, tx, o) && (forall a | 0 <= a < |h| :: Suits(h[a], used))
    requires AccountKey(k) && used(Suffix(k)) && ByteLen(Suffix(k)) == 40 && !CleanText(Suffix(k))
    requires tx.rw.Some? && (exists r | r in tx.rw.value.readSet :: r.key == k) && live.GetVersion(k) != NoVersion
    ensures var committed := CommitTx(live, tx, height, i); committed.Ok? ==> !committed.value.1.Valid?
  {
    hide Suits, AllWellFormed, Simulated;
    var r :| r in tx.rw.value.readSet && r.key == k;
    RecordedAsMissing(h, tx, o, used, r);
    NoConflict(tx.rw.value.readSet, live);
  }

  lemma ServedAsMissing(s: Store, used: string -> bool, k: Key)
    requires s.WellFormed() && Suits(s, used)
    requires AccountKey(k) && used(Suffix(k)) && ByteLen(Suffix(k)) == 40 && !CleanText(Suffix(k))
    ensures s.ServedValue(k) == Empty && s.ServedVersion(k) == NoVersion
  {
    assert Unshadowed(s, Suffix(k));
  }

  lemma ReadIsStable(h: seq<Store>, at: nat -> nat, live: Store, sc: Scope, k: Key)
    requires Setting(h, at, live, sc.used) && MayRead(k, sc) && (k == EscrowOf(sc.id) ==> CleanText(sc.id))
    ensures StableAt(Feed(h, at), live, k)
  {
    if k.Clean() {
      FeedIsStable(h, at, live, k);
    } else {
      PaddedAccountIsStable(h, at, live, sc.used, k);
    }
  }

  // ---- Escrow ids with white space at their end ----

  /** What a fetch goes on with once it knows the size. */
  function AfterProbe(key: Key, cont: Value -> Prog, probe: Value): Prog {
    if Size(probe) == 0 then cont(Empty)
    else GetState(key, (v: Value) => if Size(v) == 0 || Size(v) > Size(probe) then cont(Empty) else cont(v))
  }

  /** The first host call of a fetch is recorded; served as missing, it is the only one. */
  lemma FirstFetch(key: Key, cont: Value -> Prog, feed: nat -> Store, gas: nat) returns (s1: Sim)
    requires WellFormedFeed(feed) && gas > 0
    ensures s1 == Sim(RW([KVRead(key, feed(0).ServedVersion(key), feed(0).ServedValue(key))], []), 1, gas - 1)
    ensures Recorded(feed, s1)
    ensures forall r | r in s1.rw.readSet ::
              r in Simulate(Fetch(key, cont), feed, Sim(RW([], []), 0, gas)).1.rw.readSet
    ensures Simulate(Fetch(key, cont), feed, Sim(RW([], []), 0, gas)) ==
            Simulate(AfterProbe(key, cont, feed(0).ServedValue(key)), feed, s1)
  {
    var s0, read := Sim(RW([], []), 0, gas), KVRead(key, feed(0).ServedVersion(key), feed(0).ServedValue(key));
    s1 := Sim(RW([read], []), 1, gas - 1);
    assert feed(0).WellFormed();
    assert LookupIn([], key) == NotWritten && RecordIn([], key, read.value, read.version) == [read];
    assert HostGet(feed, s0, key) == (read.value, s1.(gas := gas));
    var rest := AfterProbe(key, cont, read.value);
    assert Simulate(Fetch(key, cont), feed, s0) == Simulate(rest, feed, s1);
    ReadsGrow(rest, feed, s1);
  }

  lemma DirectMissing(key: Key, cont: Value -> Prog, version: Version, r: Run)
    requires r.store.Observe(key) == Empty && r.gas > 0
    ensures Direct(Fetch(key, cont), version, r) == Direct(cont(Empty), version, r.(gas := r.gas - 1))
  {
  }

  lemma FetchFetchesOnly(key: Key, cont: Value -> Prog, ok: Key -> bool, gas: nat)
    requires ok(key) && forall v, g: nat :: FetchesOnly(cont(v), ok, g)
    ensures FetchesOnly(Fetch(key, cont), ok, gas)
  {
    if gas > 0 {
      forall probe
        ensures FetchesOnly(if Size(probe) == 0 then cont(Empty)
          else GetState(key, (v: Value) => if Size(v) == 0 || Size(v) > Size(probe) then cont(Empty) else cont(v)),
          ok, gas - 1)
      {
      }
    }
  }

  lemma LockFundsFetchesNothing(raw: string, p: EscrowFields, fromBal: int64, ok: Key -> bool, gas: nat)
    ensures FetchesOnly(LockFunds(raw, p, fromBal), ok, gas)
  {
    var end := EscrowEnd(raw, p.id);
    assert forall g: nat :: FetchesOnly(Halt(true), ok, g);
    assert forall g: nat :: FetchesOnly(end, ok, g);
    assert forall g: nat :: FetchesOnly(PutState(EscrowOf(p.id), EscrowRec(p.from, p.to, p.amount), end), ok, g);
  }

  /** A lock of an escrow that is served as missing fetches the sender's balance only. */
  lemma LockFetchesBalance(raw: string, p: EscrowFields, ok: Key -> bool, gas: nat)
    requires p.action == "lock" && ok(Balance(p.from))
    ensures FetchesOnly(EscrowAction(raw, p, Empty), ok, gas)
  {
    var rest := (fromBal: int64) => if fromBal < p.amount then Halt(false) else LockFunds(raw, p, fromBal);
    var parse := (v: Value) =>
      if v == Empty then rest(0)
      else match ParseInt(v)
        case Some(n) => rest(n)
        case None => Halt(false);
    forall v, g: nat ensures FetchesOnly(parse(v), ok, g) {
      var n := if v == Empty then Some(0) else ParseInt(v);
      if n.Some? {
        assert parse(v) == rest(n.value);
        if n.value >= p.amount {
          LockFundsFetchesNothing(raw, p, n.value, ok, g);
        }
      }
    }
    FetchFetchesOnly(Balance(p.from), parse, ok, gas);
  }

  lemma ApartSeesNothing(h: seq<Store>, live: Store, a: nat, id: string)
    requires AllWellFormed(h + [live]) && EscrowsApart(h + [live]) && a < |h| && !CleanText(id)
    requires h[a].GetVersion(EscrowOf(TrimRight(id))) == live.GetVersion(EscrowOf(id))
    ensures live.GetVersion(EscrowOf(id)) == NoVersion && h[a].Observe(EscrowOf(TrimRight(id))) == Empty
  {
    var g := h + [live];
    assert g[a] == h[a] && g[|h|] == live && g[a].WellFormed();
    assert g[a].GetVersion(EscrowOf(TrimRight(id))) == g[|h|].GetVersion(EscrowOf(id));
  }

  /** The first fetch of a VALID escrow call was served the version that is current. */
  lemma EscrowReadIsCurrent(h: seq<Store>, tx: Tx, o: Origin, raw: string, p: EscrowFields, live: Store, height: int,
                            i: nat) returns (s1: Sim)
    requires AllWellFormed(h) && Simulated(h, tx, o) && o.guests == Guests(Escrow(raw, Some(p)))
    requires CommitTx(live, tx, height, i).Ok? && CommitTx(live, tx, height, i).value.1.Valid?
    ensures Verify(Escrow(raw, Some(p))) && o.gas > 0 && o.at(0) < |h|
    ensures h[o.at(0)].ServedVersion(EscrowOf(p.id)) == live.GetVersion(EscrowOf(p.id))
    ensures s1.rw.writeSet == [] && s1.gas == o.gas - 1 && Recorded(Feed(h, o.at), s1)
    ensures var (ok, t) := SimulateAll(o.guests, Feed(h, o.at), Sim(RW([], []), 0, o.gas));
            && ok && tx.rw == Some(t.rw)
            && (ok, t) == Simulate(AfterProbe(EscrowOf(p.id), (v: Value) => EscrowAction(raw, p, v),
                                              h[o.at(0)].ServedValue(EscrowOf(p.id))), Feed(h, o.at), s1)
  {
    hide EscrowAction, AllWellFormed, Recorded, Guests, CommitTx, AfterProbe;
    var c, feed, s0 := Escrow(raw, Some(p)), Feed(h, o.at), Sim(RW([], []), 0, o.gas);
    var key, act := EscrowOf(p.id), (v: Value) => EscrowAction(raw, p, v);
    FeedWellFormed(h, o.at);
    TwoGuests(c, feed, s0);
    assert Verify(c) && o.gas > 0;
    s1 := FirstFetch(key, act, feed, o.gas);
    ValidReadsMatch(tx, live, height, i);
    assert Execute(c) == Fetch(key, act);
    assert s1.rw.readSet[0] in SimulateAll(o.guests, feed, s0).1.rw.readSet;
  }

  /** What a VALID call of an escrow whose own id and trimmed id share no version saw:
      nothing under either of them. */
  lemma PaddedIdSawNothing(h: seq<Store>, tx: Tx, o: Origin, raw: string, p: EscrowFields, live: Store, height: int,
                           i: nat) returns (s1: Sim)
    requires AllWellFormed(h + [live]) && Simulated(h, tx, o) && EscrowsApart(h + [live])
    requires o.guests == Guests(Escrow(raw, Some(p))) && !CleanText(p.id)
    requires CommitTx(live, tx, height, i).Ok? && CommitTx(live, tx, height, i).value.1.Valid?
    ensures Verify(Escrow(raw, Some(p))) && o.gas > 0
    ensures live.GetVersion(EscrowOf(p.id)) == NoVersion
    ensures s1.rw.writeSet == [] && s1.gas == o.gas - 1 && Recorded(Feed(h, o.at), s1)
    ensures SimulateAll(o.guests, Feed(h, o.at), Sim(RW([], []), 0, o.gas)) ==
            Simulate(EscrowAction(raw, p, Empty), Feed(h, o.at), s1)
    ensures var (ok, t) := Simulate(EscrowAction(raw, p, Empty), Feed(h, o.at), s1); ok && tx.rw == Some(t.rw)
  {
    hide EscrowAction, EscrowsApart, AllWellFormed, Recorded, Guests, CommitTx, Simulated, SimulateAll, Simulate,
      Verify;
    WellFormedFront(h, live);
    s1 := EscrowReadIsCurrent(h, tx, o, raw, p, live, height, i);
    ApartSeesNothing(h, live, o.at(0), p.id);
  }

  lemma SuitUses(h: seq<Store>, used: string -> bool)
    requires forall a | 0 <= a < |h| :: Suits(h[a], used)
    ensures forall a | 0 <= a < |h| :: StoreUses(h[a], used)
  {
  }

  lemma EmptyIsNoEscrow(raw: string, p: EscrowFields)
    ensures p.action != "lock" ==> EscrowAction(raw, p, Empty) == Halt(false)
  {
  }

  lemma WellFormedFront(h: seq<Store>, live: Store)
    requires AllWellFormed(h + [live])
    ensures AllWellFormed(h)
  {
    forall a | 0 <= a < |h| ensures h[a].WellFormed() {
      assert (h + [live])[a] == h[a];
    }
  }

  function NotEscrow(id: string): Key -> bool {
    (k: Key) => k != EscrowOf(id)
  }

  /** Everything that a call reads but its escrow is stable. */
  lemma OtherReadsAreStable(h: seq<Store>, tx: Tx, o: Origin, c: Call, live: Store, used: string -> bool)
    requires Setting(h, o.at, live, used) && CallUses(c, used) && Simulated(h, tx, o) && o.guests == Guests(c)
    ensures tx.rw.Some? ==>
              StableFetches(tx.rw.value.readSet, NotEscrow(IdOf(c)), Feed(h, o.at), live)
  {
    hide Guests, CallUses, StableAt, MayRead;
    SuitUses(h, used);
    SimulatedWithin(h, tx, o, c, used);
    if tx.rw.Some? {
      forall r | r in tx.rw.value.readSet && r.key != EscrowOf(IdOf(c)) ensures StableAt(Feed(h, o.at), live, r.key) {
        ReadIsStable(h, o.at, live, Scope(IdOf(c), used), r.key);
      }
    }
  }

  /** A lock whose first fetch saw nothing, on a store where nothing is. */
  lemma LockIsDirect(raw: string, p: EscrowFields, feed: nat -> Store, s1: Sim, live: Store, version: Version)
    requires Verify(Escrow(raw, Some(p))) && p.action == "lock" && live.Observe(EscrowOf(p.id)) == Empty
    requires WellFormedFeed(feed) && Recorded(feed, s1) && s1.rw.writeSet == []
    requires var rw := Simulate(EscrowAction(raw, p, Empty), feed, s1).1.rw;
             ReadsMatch(rw.readSet, live) && StableFetches(rw.readSet, NotEscrow(p.id), feed, live)
    ensures var (ok, t) := Simulate(EscrowAction(raw, p, Empty), feed, s1);
            DirectAll(Guests(Escrow(raw, Some(p))), version, Run(live, s1.gas + 1)) == (ok, OnBase(live, t, version))
  {
    hide EscrowAction, Recorded, Direct, Guests, ReadsMatch, StableFetches;
    LockFetchesBalance(raw, p, NotEscrow(p.id), s1.gas);
    SimulateIsDirectOn(EscrowAction(raw, p, Empty), NotEscrow(p.id), feed, s1, live, version);
    DirectMissing(EscrowOf(p.id), (v: Value) => EscrowAction(raw, p, v), version, Run(live, s1.gas + 1));
    DirectGuests(Escrow(raw, Some(p)), version, Run(live, s1.gas + 1));
  }

  lemma MissingIsEmpty(h: seq<Store>, live: Store, k: Key)
    requires AllWellFormed(h + [live]) && live.GetVersion(k) == NoVersion
    ensures live.Observe(k) == Empty
  {
    assert (h + [live])[|h|].WellFormed();
  }

  lemma SettingIsWellFormed(h: seq<Store>, at: nat -> nat, live: Store, used: string -> bool)
    requires Setting(h, at, live, used)
    ensures h != [] && AllWellFormed(h + [live]) && WellFormedFeed(Feed(h, at))
  {
    WellFormedFront(h, live);
    FeedWellFormed(h, at);
  }

  lemma PaddedIdIsDirect(h: seq<Store>, tx: Tx, o: Origin, raw: string, p: EscrowFields, live: Store, height: int,
                         i: nat, used: string -> bool)
    requires Setting(h, o.at, live, used) && CallUses(Escrow(raw, Some(p)), used)
    requires Simulated(h, tx, o) && EscrowsApart(h + [live])
    requires o.guests == Guests(Escrow(raw, Some(p))) && !CleanText(p.id)
    ensures ActsDirectly(tx, o, live, height, i)
  {
    hide Setting, EscrowAction, EscrowsApart, Guests, Recorded, StableFetches, CallUses, CommitTx, DirectAll;
    SettingIsWellFormed(h, o.at, live, used);
    var committed, feed := CommitTx(live, tx, height, i), Feed(h, o.at);
    if committed.Ok? && committed.value.1.Valid? {
      var s1 := PaddedIdSawNothing(h, tx, o, raw, p, live, height, i);
      assert p.action == "lock" by { EmptyIsNoEscrow(raw, p); }
      hide Simulate, SimulateAll, Verify, AllWellFormed, Simulated;
      MissingIsEmpty(h, live, EscrowOf(p.id));
      ValidReadsMatch(tx, live, height, i);
      OtherReadsAreStable(h, tx, o, Escrow(raw, Some(p)), live, used);
      LockIsDirect(raw, p, feed, s1, live, AtBlock(height, i));
    }
  }

  /** A call in such a setting, found VALID against the live state, executes directly
      on it; a padded escrow id needs versions that no two escrow keys share. */
  lemma CallIsDirect(h: seq<Store>, tx: Tx, o: Origin, c: Call, live: Store, height: int, i: nat, used: string -> bool)
    requires Setting(h, o.at, live, used) && CallUses(c, used)
    requires Simulated(h, tx, o) && o.guests == Guests(c)
    requires CleanText(IdOf(c)) || EscrowsApart(h + [live])
    ensures ActsDirectly(tx, o, live, height, i)
  {
    hide Guests, EscrowsApart;
    var committed := CommitTx(live, tx, height, i);
    if !CleanText(IdOf(c)) {
      PaddedIdIsDirect(h, tx, o, c.raw, c.escrow.value, live, height, i, used);
    } else if committed.Ok? && committed.value.1.Valid? {
      WellFormedFront(h, live);
      SuitUses(h, used);
      SimulatedWithin(h, tx, o, c, used);
      if tx.rw.Some? {
        forall r | r in tx.rw.value.readSet ensures StableAt(Feed(h, o.at), live, r.key) {
          ReadIsStable(h, o.at, live, Scope(IdOf(c), used), r.key);
        }
      }
      StableTxIsDirect(h, tx, o, live, height, i);
    }
  }

  // ---- Calls simulated on the newest state ----

  ghost predicate Constant(feed: nat -> Store, s: Store) {
    s.WellFormed() && forall n: nat :: feed(n) == s
  }

  /** The state endpoint serves the key's own pair. */
  predicate ServesOwn(s: Store, k: Key) {
    s.Served(k) == s.GetKVWithVersion(k)
  }

  /** A call simulated on the newest state, every key in its scope being served its own
      pair, is rejected exactly when it has no effect there; otherwise it is VALID and
      its commit is that effect. */
  lemma NewestExactly(s: Store, c: Call, used: string -> bool, feed: nat -> Store, gas: nat, txid: string, height: int,
                      i: nat)
    requires Constant(feed, s) && gas >= 16 && StoreUses(s, used) && CallUses(c, used)
    requires forall k | MayRead(k, Scope(IdOf(c), used)) :: ServesOwn(s, k)
    ensures var r := ExecuteSpec(Guests(c), feed, gas);
            match Effect(c, s, AtBlock(height, i))
            case None => r.Err?
            case Some(t) => r.Ok? && CommitTx(s, Tx(txid, r.value), height, i) == Ok((t, Valid))
  {
    hide Guests, Effect, MayRead;
    var s0, version := Sim(RW([], []), 0, gas), AtBlock(height, i);
    var (ok, t) := SimulateAll(Guests(c), feed, s0);
    AllReadsGrow(Guests(c), feed, s0);
    GuestsWithin(c, feed, gas, used);
    forall r | r in t.rw.readSet ensures s.GetVersion(r.key) == r.version && StableAt(feed, s, r.key) {
      assert MayRead(r.key, Scope(IdOf(c), used)) && ServesOwn(s, r.key);
    }
    SimulateAllIsDirect(Guests(c), feed, s0, s, version);
    CallEffect(c, version, Run(s, gas));
    NoConflict(t.rw.readSet, s);
    FirstMalformedSplit(t.rw.writeSet, |t.rw.writeSet|);
  }

  /** On clean accounts and ids every key in scope is served its own pair. */
  lemma CleanNewestExactly(s: Store, c: Call, feed: nat -> Store, gas: nat, txid: string, height: int, i: nat)
    requires Constant(feed, s) && gas >= 16
    requires StoreUses(s, CleanText) && CallUses(c, CleanText) && CleanText(IdOf(c))
    ensures var r := ExecuteSpec(Guests(c), feed, gas);
            match Effect(c, s, AtBlock(height, i))
            case None => r.Err?
            case Some(t) => r.Ok? && CommitTx(s, Tx(txid, r.value), height, i) == Ok((t, Valid))
  {
    hide ExecuteSpec, CommitTx, Guests, Effect;
    forall k | MayRead(k, Scope(IdOf(c), CleanText)) ensures ServesOwn(s, k) {
      assert k.Clean();
    }
    NewestExactly(s, c, CleanText, feed, gas, txid, height, i);
  }
}
