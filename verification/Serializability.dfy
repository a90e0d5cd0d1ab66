/** Blocks of transactions simulated on stale states commit as if their contracts
    had been executed one after another. */
module Serializability {
  import opened Wrappers
  import opened Ledger
  import opened RwSets
  import opened Simulation
  import opened WorldStates
  import opened Histories

  /** One simulation reads one state of the run. */
  ghost predicate Snapshot(at: nat -> nat) {
    forall m: nat, n: nat :: at(m) == at(n)
  }

  /** Later fetches of one simulation see the same or later states. */
  ghost predicate Monotone(at: nat -> nat) {
    forall m: nat, n: nat | m <= n :: at(m) <= at(n)
  }

  /** No clean key that is missing at the end was missing, then visible, before. */
  ghost predicate NoFlicker(h: seq<Store>)
    requires h != []
  {
    forall a, b, k: Key {:trigger h[a].GetVersion(k), h[b].Observe(k)} |
      0 <= a <= b < |h| && k.Clean() && k !in h[a].kv && k !in Last(h).kv && h[a].GetVersion(k) == NoVersion ::
      h[b].Observe(k) == Empty
  }

  /** All keys that the transaction read are clean, so the state endpoint served
      their own pairs. */
  ghost predicate CleanTx(tx: Tx) {
    tx.rw.Some? ==> forall r | r in tx.rw.value.readSet :: r.key.Clean()
  }

  ghost predicate Consistent(h: seq<Store>, at: nat -> nat)
    requires h != []
  {
    Snapshot(at) || (Monotone(at) && NoFlicker(h))
  }

  /** Executes the contracts of the first `n` transactions of a block that are
      VALID, in order, on one store; false if one of them rejects. */
  function SerialUpTo(s: Store, origins: seq<Origin>, results: seq<TxApplyResult>, height: int, n: nat): (bool, Store)
    requires n <= |origins| && n <= |results|
  {
    if n == 0 then (true, s)
    else
      var (ok, t) := SerialUpTo(s, origins, results, height, n - 1);
      if !results[n - 1].code.Valid? then (ok, t)
      else
        var o := origins[n - 1];
        var (accepted, r) := DirectAll(o.guests, AtBlock(height, n - 1), Run(t, o.gas));
        (ok && accepted, r.store)
  }

  lemma FeedWellFormed(h: seq<Store>, at: nat -> nat)
    requires AllWellFormed(h) && forall n: nat :: at(n) < |h|
    ensures WellFormedFeed(Feed(h, at))
  {
    forall n: nat ensures Feed(h, at)(n).WellFormed() {
      assert h[at(n)].WellFormed();
    }
  }

  /** A clean key of a coherent history is stable against a live state. */
  lemma FeedIsStable(h: seq<Store>, at: nat -> nat, live: Store, k: Key)
    requires h != [] && Coherent(h + [live]) && Consistent(h, at) && k.Clean()
    requires forall n: nat :: at(n) < |h|
    requires Monotone(at) ==> forall k | k in Last(h).kv :: k in live.kv
    ensures StableAt(Feed(h, at), live, k)
  {
    var g, feed := h + [live], Feed(h, at);
    forall m: nat, n: nat {:trigger feed(m).ServedVersion(k), feed(n).ServedValue(k)} |
      m <= n && feed(m).ServedVersion(k) == live.GetVersion(k)
      ensures feed(n).ServedValue(k) == live.Observe(k)
    {
      var a, b := at(m), at(n);
      assert g[a] == h[a] && g[b] == h[b] && g[|h|] == live;
      assert a <= b;
      assert g[a].WellFormed() && live.WellFormed() && g[b].WellFormed();
      if live.GetVersion(k) != NoVersion {
        assert g[a].GetVersion(k) == g[|h|].GetVersion(k);
        assert g[b].GetVersion(k) == g[a].GetVersion(k);
        assert g[b].GetKV(k) == g[|h|].GetKV(k);
      } else if !Snapshot(at) {
        assert h[b].Observe(k) == Empty;
      }
    }
  }

  /** VALID means: every recorded version is still current. */
  lemma ValidReadsMatch(tx: Tx, live: Store, height: int, i: nat)
    requires CommitTx(live, tx, height, i).Ok? && CommitTx(live, tx, height, i).value.1.Valid?
    ensures tx.rw.Some? ==> ReadsMatch(tx.rw.value.readSet, live)
    ensures CommitTx(live, tx, height, i).value.0 ==
            if tx.rw.Some? then ApplyWrites(live, tx.rw.value.writeSet, AtBlock(height, i)) else live
  {
    if tx.rw.Some? {
      NoConflict(tx.rw.value.readSet, live);
    }
  }

  /** A transaction found VALID whose reads are stable executes directly. */
  lemma StableTxIsDirect(h: seq<Store>, tx: Tx, o: Origin, live: Store, height: int, i: nat)
    requires h != [] && Simulated(h, tx, o) && AllWellFormed(h)
    requires tx.rw.Some? ==> StableReads(tx.rw.value.readSet, Feed(h, o.at), live)
    requires CommitTx(live, tx, height, i).Ok? && CommitTx(live, tx, height, i).value.1.Valid?
    ensures var (ok, r) := DirectAll(o.guests, AtBlock(height, i), Run(live, o.gas));
            ok && r.store == CommitTx(live, tx, height, i).value.0
  {
    var feed, s0 := Feed(h, o.at), Sim(RW([], []), 0, o.gas);
    var (ok, t) := SimulateAll(o.guests, feed, s0);
    ValidReadsMatch(tx, live, height, i);
    assert ok && tx.rw == Attach(t.rw);
    assert ReadsMatch(t.rw.readSet, live) && StableReads(t.rw.readSet, feed, live);
    FeedWellFormed(h, o.at);
    SimulateAllIsDirect(o.guests, feed, s0, live, AtBlock(height, i));
  }

  /** A transaction on clean keys that is found VALID against the live state executes
      directly on it, is accepted, and leaves it exactly as the commit peer does. */
  lemma ValidTxIsDirect(h: seq<Store>, tx: Tx, o: Origin, live: Store, height: int, i: nat)
    requires h != [] && Simulated(h, tx, o) && Consistent(h, o.at) && CleanTx(tx)
    requires Coherent(h + [live])
    requires Monotone(o.at) ==> forall k | k in Last(h).kv :: k in live.kv
    requires CommitTx(live, tx, height, i).Ok? && CommitTx(live, tx, height, i).value.1.Valid?
    ensures var (ok, r) := DirectAll(o.guests, AtBlock(height, i), Run(live, o.gas));
            ok && r.store == CommitTx(live, tx, height, i).value.0
  {
    assert AllWellFormed(h) by {
      forall a | 0 <= a < |h| ensures h[a].WellFormed() { assert (h + [live])[a] == h[a]; }
    }
    if tx.rw.Some? {
      forall r | r in tx.rw.value.readSet ensures StableAt(Feed(h, o.at), live, r.key) {
        FeedIsStable(h, o.at, live, r.key);
      }
    }
    StableTxIsDirect(h, tx, o, live, height, i);
  }

  /** Simulated write sets hold no deletes, so no key disappears in a block. */
  lemma {:induction false} KeysStay(h: seq<Store>, txs: seq<Tx>, origins: seq<Origin>, height: int, n: nat)
    requires h != [] && AllWellFormed(h) && n <= |txs| == |origins|
    requires forall i | 0 <= i < |txs| :: Simulated(h, txs[i], origins[i])
    requires CommitUpTo(Last(h), txs, height, n).Ok?
    ensures forall k | k in Last(h).kv :: k in CommitUpTo(Last(h), txs, height, n).value.0.kv
  {
    if n > 0 {
      KeysStay(h, txs, origins, height, n - 1);
      var t := CommitUpTo(Last(h), txs, height, n - 1).value.0;
      var tx, o := txs[n - 1], origins[n - 1];
      assert Simulated(h, tx, o);
      if tx.rw.Some? && FirstConflict(tx.rw.value.readSet, t).None? {
        AllReadsGrow(o.guests, Feed(h, o.at), Sim(RW([], []), 0, o.gas));
        forall k | k in t.kv ensures k in ApplyWrites(t, tx.rw.value.writeSet, AtBlock(height, n - 1)).kv {
          ApplyWritesFrame(t, tx.rw.value.writeSet, AtBlock(height, n - 1), k);
        }
      }
    }
  }

  /** A VALID transaction has the effect of executing its contract directly. */
  ghost predicate ActsDirectly(tx: Tx, o: Origin, live: Store, height: int, i: nat) {
    var committed, (ok, r) := CommitTx(live, tx, height, i), DirectAll(o.guests, AtBlock(height, i), Run(live, o.gas));
    committed.Ok? && committed.value.1.Valid? ==> ok && r.store == committed.value.0
  }

  /** When each transaction acts directly on the state it meets, a block is serial. */
  lemma {:induction false} SerialIfDirect(s: Store, txs: seq<Tx>, origins: seq<Origin>, height: int, n: nat)
    requires n <= |txs| == |origins| && CommitUpTo(s, txs, height, n).Ok?
    requires forall i | 0 <= i < n && CommitUpTo(s, txs, height, i).Ok? ::
               ActsDirectly(txs[i], origins[i], CommitUpTo(s, txs, height, i).value.0, height, i)
    ensures var (t, results) := CommitUpTo(s, txs, height, n).value;
            |results| == n && SerialUpTo(s, origins, results, height, n) == (true, t)
  {
    hide ActsDirectly;
    if n > 0 {
      SerialIfDirect(s, txs, origins, height, n - 1);
      var (t, results) := CommitUpTo(s, txs, height, n - 1).value;
      assert ActsDirectly(txs[n - 1], origins[n - 1], t, height, n - 1);
      SerialStep(s, txs, origins, height, n);
    }
  }

  lemma SerialStep(s: Store, txs: seq<Tx>, origins: seq<Origin>, height: int, n: nat)
    requires 0 < n <= |txs| == |origins| && CommitUpTo(s, txs, height, n).Ok?
    requires var (t, results) := CommitUpTo(s, txs, height, n - 1).value;
             && |results| == n - 1 && SerialUpTo(s, origins, results, height, n - 1) == (true, t)
             && ActsDirectly(txs[n - 1], origins[n - 1], t, height, n - 1)
    ensures var (t, results) := CommitUpTo(s, txs, height, n).value;
            |results| == n && SerialUpTo(s, origins, results, height, n) == (true, t)
  {
    hide CommitTx, DirectAll;
    var (t, results) := CommitUpTo(s, txs, height, n - 1).value;
    var (t', results') := CommitUpTo(s, txs, height, n).value;
    SerialPrefix(s, origins, results, results', height, n - 1);
    if !results'[n - 1].code.Valid? {
      InvalidKeeps(t, txs[n - 1], height, n - 1);
    }
  }

  lemma InvalidKeeps(s: Store, tx: Tx, height: int, i: nat)
    ensures var c := CommitTx(s, tx, height, i); c.Ok? && !c.value.1.Valid? ==> c.value.0 == s
  {
  }

  lemma BlockPrefixIsSerial(h: seq<Store>, txs: seq<Tx>, origins: seq<Origin>, height: int, n: nat)
    requires h != [] && Coherent(h) && AllOlder(h, height) && n <= |txs| == |origins|
    requires forall i | 0 <= i < |txs| :: Simulated(h, txs[i], origins[i]) && Consistent(h, origins[i].at)
    requires forall tx | tx in txs :: CleanTx(tx)
    requires CommitUpTo(Last(h), txs, height, n).Ok?
    ensures var (t, results) := CommitUpTo(Last(h), txs, height, n).value;
            |results| == n && SerialUpTo(Last(h), origins, results, height, n) == (true, t)
  {
    forall i | 0 <= i < n && CommitUpTo(Last(h), txs, height, i).Ok?
      ensures ActsDirectly(txs[i], origins[i], CommitUpTo(Last(h), txs, height, i).value.0, height, i)
    {
      var live := CommitUpTo(Last(h), txs, height, i).value.0;
      var committed := CommitTx(live, txs[i], height, i);
      if committed.Ok? && committed.value.1.Valid? {
        KeysStay(h, txs, origins, height, i);
        BlockExtends(h, txs, height, i);
        assert Simulated(h, txs[i], origins[i]) && Consistent(h, origins[i].at);
        ValidTxIsDirect(h, txs[i], origins[i], live, height, i);
      }
    }
    SerialIfDirect(Last(h), txs, origins, height, n);
  }

  lemma {:induction false} SerialPrefix(s: Store, origins: seq<Origin>, r1: seq<TxApplyResult>, r2: seq<TxApplyResult>,
                                        height: int, n: nat)
    requires n <= |origins| && n <= |r1| && r1 <= r2
    ensures SerialUpTo(s, origins, r1, height, n) == SerialUpTo(s, origins, r2, height, n)
  {
    if n > 0 {
      SerialPrefix(s, origins, r1, r2, height, n - 1);
      assert r1[n - 1] == r2[n - 1];
    }
  }

  /** Serializability of one block of any run: the state after `ApplyBlock` is the
      one reached by executing exactly the VALID contracts in block order. */
  lemma BlockSerializable(states: seq<Store>, events: seq<Event>, n: nat)
    requires ValidRun(states, events) && n < |events| && events[n].Block?
    requires forall o | o in events[n].origins :: Consistent(states[..n + 1], o.at)
    requires forall tx | tx in events[n].txs :: CleanTx(tx)
    ensures var Block(height, txs, origins) := events[n];
            && CommitBlock(states[n], txs, height).Ok?
            && |CommitBlock(states[n], txs, height).value.1| == |txs| == |origins|
            && SerialUpTo(states[n], origins, CommitBlock(states[n], txs, height).value.1, height, |txs|) ==
              (true, states[n + 1])
  {
    var h, e := states[..n + 1], events[n];
    assert Step(h, e, states[n + 1]) && Last(h) == states[n];
    RunPrefix(states, events, n);
    RunCoherent(h, events[..n]);
    HeightIsNew(states, events, n);
    forall i | 0 <= i < |e.txs| ensures Simulated(h, e.txs[i], e.origins[i]) && Consistent(h, e.origins[i].at) {
      assert e.origins[i] in e.origins;
    }
    BlockPrefixIsSerial(h, e.txs, e.origins, e.height, |e.txs|);
  }

  // ---- Whole runs ----

  /** Replays a run on one store: VALID contracts and admin operations in order. */
  function Replay(s: Store, events: seq<Event>): Store
    requires forall e | e in events && e.Block? :: |e.origins| == |e.txs|
  {
    if events == [] then s
    else
      var n := |events| - 1;
      var t := Replay(s, events[..n]);
      match events[n]
      case Block(height, txs, origins) =>
        (match CommitBlock(t, txs, height)
         case Ok((_, results)) => if |results| == |txs| then SerialUpTo(t, origins, results, height, |txs|).1 else t
         case Err(_) => t)
      case AdminPut(key, value, version) => t.Put(key, value, version)
      case AdminDelete(key) => t.Delete(key)
  }

  ghost predicate CleanRun(events: seq<Event>) {
    forall e, tx | e in events && e.Block? && tx in e.txs :: CleanTx(tx)
  }

  ghost predicate ConsistentRun(states: seq<Store>, events: seq<Event>)
    requires |states| == |events| + 1
  {
    forall i, o | 0 <= i < |events| && events[i].Block? && o in events[i].origins :: Consistent(states[..i + 1], o.at)
  }

  /** Serializability of whole runs on clean keys. */
  lemma {:induction false} RunSerializable(states: seq<Store>, events: seq<Event>)
    requires ValidRun(states, events) && ConsistentRun(states, events) && CleanRun(events)
    ensures forall e | e in events && e.Block? :: |e.origins| == |e.txs|
    ensures states[|events|] == Replay(states[0], events)
  {
    forall e | e in events && e.Block? ensures |e.origins| == |e.txs| {
      var i :| 0 <= i < |events| && events[i] == e;
      assert Step(states[..i + 1], e, states[i + 1]);
    }
    if events != [] {
      var n := |events| - 1;
      RunPrefix(states, events, n);
      forall i, o | 0 <= i < n && events[i].Block? && o in events[i].origins
        ensures Consistent(states[..n + 1][..i + 1], o.at)
      {
        assert states[..n + 1][..i + 1] == states[..i + 1];
      }
      RunSerializable(states[..n + 1], events[..n]);
      assert Step(states[..n + 1], events[n], states[n + 1]);
      if events[n].Block? {
        BlockSerializable(states, events, n);
      }
    }
  }

  // ---- Without snapshots ----

  ghost predicate KeysPersist(h: seq<Store>) {
    forall i, j, k {:trigger k in h[i].kv, k in h[j].kv} | 0 <= i <= j < |h| && k in h[i].kv :: k in h[j].kv
  }

  /** Without deletes, no key ever disappears. */
  lemma {:induction false} NoDeletesKeysPersist(states: seq<Store>, events: seq<Event>)
    requires ValidRun(states, events)
    requires forall e | e in events :: !e.AdminDelete?
    ensures KeysPersist(states)
  {
    if events != [] {
      var n := |events| - 1;
      RunPrefix(states, events, n);
      NoDeletesKeysPersist(states[..n + 1], events[..n]);
      RunCoherent(states[..n + 1], events[..n]);
      var h := states[..n + 1];
      assert Step(h, events[n], states[n + 1]);
      if events[n].Block? {
        KeysStay(h, events[n].txs, events[n].origins, events[n].height, |events[n].txs|);
      }
      assert forall k | k in h[n].kv :: k in states[n + 1].kv;
      forall i, j, k {:trigger k in states[i].kv, k in states[j].kv} | 0 <= i <= j < |states| && k in states[i].kv
        ensures k in states[j].kv
      {
        if i <= n {
          assert k in h[i].kv;
          assert k in h[if j <= n then j else n].kv;
        }
      }
    }
  }

  lemma PersistentNoFlicker(h: seq<Store>)
    requires h != [] && KeysPersist(h)
    ensures NoFlicker(h)
  {
    forall a, b, k: Key {:trigger h[a].GetVersion(k), h[b].Observe(k)} |
      0 <= a <= b < |h| && k.Clean() && k !in h[a].kv && k !in Last(h).kv && h[a].GetVersion(k) == NoVersion
      ensures h[b].Observe(k) == Empty
    {
      var last := h[|h| - 1];
      assert k !in last.kv;
      assert k !in h[b].kv;
    }
  }

  /** Serializability without snapshots: with no deletes and clean keys, every
      `GetState` of a simulation may be answered by a different, later state. */
  lemma RunSerializableWithoutSnapshots(states: seq<Store>, events: seq<Event>)
    requires ValidRun(states, events) && CleanRun(events)
    requires forall e | e in events :: !e.AdminDelete?
    requires forall e, o | e in events && e.Block? && o in e.origins :: Monotone(o.at)
    ensures forall e | e in events && e.Block? :: |e.origins| == |e.txs|
    ensures states[|events|] == Replay(states[0], events)
  {
    forall i, o | 0 <= i < |events| && events[i].Block? && o in events[i].origins
      ensures Consistent(states[..i + 1], o.at)
    {
      RunPrefix(states, events, i);
      assert forall e | e in events[..i] :: e in events;
      NoDeletesKeysPersist(states[..i + 1], events[..i]);
      PersistentNoFlicker(states[..i + 1]);
      assert events[i] in events;
    }
    RunSerializable(states, events);
  }

  // ---- Exactly when simulations act directly ----

  /** If state `a` serves the version that `k` has at the end, state `b` serves the
      value that `k` has at the end. */
  ghost predicate TransparentAt(h: seq<Store>, a: nat, b: nat, k: Key)
    requires a < |h| && b < |h|
  {
    h[a].ServedVersion(k) == Last(h).GetVersion(k) ==> h[b].ServedValue(k) == Last(h).Observe(k)
  }

  /** Reads a key twice and writes `v` to it if the second read finds `v`. */
  function ReadTwice(key: Key, v: Value): Prog {
    GetState(key, (first: Value) =>
      GetState(key, (second: Value) =>
        if second != v then Halt(true) else PutState(key, v, Halt(true))))
  }

  /** The first read of a key that has not been written. */
  lemma FirstRead(feed: nat -> Store, key: Key)
    requires feed(0).WellFormed()
    ensures var read := KVRead(key, feed(0).ServedVersion(key), feed(0).ServedValue(key));
            HostGet(feed, Sim(RW([], []), 0, 3), key) == (read.value, Sim(RW([read], []), 1, 3))
  {
    assert RecordIn([], key, feed(0).ServedValue(key), feed(0).ServedVersion(key)) ==
           [KVRead(key, feed(0).ServedVersion(key), feed(0).ServedValue(key))];
  }

  /** A later read of it is answered by a new fetch and not recorded. */
  lemma SecondRead(feed: nat -> Store, read: KVRead)
    ensures HostGet(feed, Sim(RW([read], []), 1, 2), read.key) ==
            (feed(1).ServedValue(read.key), Sim(RW([read], []), 2, 2))
  {
    assert [read][0].key == read.key;
  }

  /** The read/write set of `ReadTwice` when state `b` serves `v` for the second read. */
  lemma ReadTwiceSimulated(h: seq<Store>, a: nat, b: nat, key: Key) returns (o: Origin, tx: Tx)
    requires AllWellFormed(h) && a <= b < |h|
    ensures Simulated(h, tx, o) && Monotone(o.at) && (a == b ==> Snapshot(o.at))
    ensures o.guests == [ReadTwice(key, h[b].ServedValue(key))] && o.gas == 3
    ensures tx.rw == Some(RW([KVRead(key, h[a].ServedVersion(key), h[a].ServedValue(key))],
                             [KVWrite(key, Decoded(h[b].ServedValue(key)), false)]))
  {
    hide HostGet, AllWellFormed;
    var v := h[b].ServedValue(key);
    o := Origin([ReadTwice(key, v)], n => if n == 0 then a else b, 3);
    var feed, read := Feed(h, o.at), KVRead(key, h[a].ServedVersion(key), h[a].ServedValue(key));
    assert feed(0) == h[a] && feed(1) == h[b] && h[a].WellFormed() by { OneWellFormed(h, a); }
    FirstRead(feed, key);
    SecondRead(feed, read);
    var s3 := Sim(RW([read], [KVWrite(key, Decoded(v), false)]), 2, 0);
    ReadTwiceRuns(feed, read, v);
    assert SimulateAll(o.guests, feed, Sim(RW([], []), 0, 3)) == (true, s3);
    tx := Tx("", Some(s3.rw));
  }

  lemma OneWellFormed(h: seq<Store>, a: nat)
    requires AllWellFormed(h) && a < |h|
    ensures h[a].WellFormed()
  {
  }

  lemma ReadTwiceRuns(feed: nat -> Store, read: KVRead, v: Value)
    requires HostGet(feed, Sim(RW([], []), 0, 3), read.key) == (read.value, Sim(RW([read], []), 1, 3))
    requires HostGet(feed, Sim(RW([read], []), 1, 2), read.key) == (v, Sim(RW([read], []), 2, 2))
    ensures Simulate(ReadTwice(read.key, v), feed, Sim(RW([], []), 0, 3)) ==
            (true, Sim(RW([read], [KVWrite(read.key, Decoded(v), false)]), 2, 0))
  {
    hide HostGet;
    var key := read.key;
    var second := (u: Value) => if u != v then Halt(true) else PutState(key, v, Halt(true));
    var s2 := Sim(RW([read], []), 2, 1);
    var s3 := Sim(RW([read], [KVWrite(key, Decoded(v), false)]), 2, 0);
    assert PutIn([], key, v) == s3.rw.writeSet;
    assert Simulate(PutState(key, v, Halt(true)), feed, s2) == (true, s3);
    assert Simulate(GetState(key, second), feed, Sim(RW([read], []), 1, 2)) == (true, s3);
  }

  /** On a store that holds another value under the key `ReadTwice` does nothing. */
  lemma ReadTwiceDirect(s: Store, key: Key, v: Value, version: Version)
    requires s.Observe(key) != v
    ensures DirectAll([ReadTwice(key, v)], version, Run(s, 3)) == (true, Run(s, 1))
  {
    var second := (u: Value) => if u != v then Halt(true) else PutState(key, v, Halt(true));
    assert Direct(GetState(key, second), version, Run(s, 2)) == (true, Run(s, 1));
    assert Direct(ReadTwice(key, v), version, Run(s, 3)) == (true, Run(s, 1));
  }

  /** Where transparency fails, some VALID transaction does what its contract does not. */
  lemma OpaqueBreaks(h: seq<Store>, height: int, a: nat, b: nat, key: Key) returns (o: Origin, tx: Tx)
    requires h != [] && AllWellFormed(h) && a <= b < |h| && !TransparentAt(h, a, b, key)
    ensures Simulated(h, tx, o) && Monotone(o.at) && (a == b ==> Snapshot(o.at)) && (key.Clean() ==> CleanTx(tx))
    ensures !ActsDirectly(tx, o, Last(h), height, 0)
  {
    o, tx := ReadTwiceSimulated(h, a, b, key);
    var live, v := Last(h), h[b].ServedValue(key);
    ReadTwiceDirect(live, key, v, AtBlock(height, 0));
    assert FirstConflict(tx.rw.value.readSet, live).None?;
    assert FirstMalformed(tx.rw.value.writeSet).None?;
    var w := tx.rw.value.writeSet;
    assert w[..0] == [];
    assert ApplyWrites(live, w, AtBlock(height, 0)).Observe(key) == v;
  }

  lemma TransparentActsDirectly(h: seq<Store>, height: int, tx: Tx, o: Origin)
    requires h != [] && AllWellFormed(h) && Simulated(h, tx, o)
    requires tx.rw.Some? ==> forall r, m: nat, n: nat | r in tx.rw.value.readSet && m <= n ::
               o.at(m) < |h| && o.at(n) < |h| && TransparentAt(h, o.at(m), o.at(n), r.key)
    ensures ActsDirectly(tx, o, Last(h), height, 0)
  {
    var committed, feed := CommitTx(Last(h), tx, height, 0), Feed(h, o.at);
    if committed.Ok? && committed.value.1.Valid? {
      if tx.rw.Some? {
        forall r | r in tx.rw.value.readSet ensures StableAt(feed, Last(h), r.key) {
          forall m: nat, n: nat {:trigger feed(m).ServedVersion(r.key), feed(n).ServedValue(r.key)} |
            m <= n && feed(m).ServedVersion(r.key) == Last(h).GetVersion(r.key)
            ensures feed(n).ServedValue(r.key) == Last(h).Observe(r.key)
          {
            assert TransparentAt(h, o.at(m), o.at(n), r.key);
          }
        }
      }
      StableTxIsDirect(h, tx, o, Last(h), height, 0);
    }
  }

  /** Every contract simulated on single states of the history acts directly if and
      only if each state serves the end's value of every key whose end version it
      serves; simulated on changing states, if and only if later states do so too. */
  lemma ActsDirectlyExactly(h: seq<Store>, height: int)
    requires h != [] && AllWellFormed(h)
    ensures (forall a: nat, k | a < |h| :: TransparentAt(h, a, a, k)) <==>
              forall tx, o :: Simulated(h, tx, o) && Snapshot(o.at) ==> ActsDirectly(tx, o, Last(h), height, 0)
    ensures (forall a: nat, b: nat, k | a <= b < |h| :: TransparentAt(h, a, b, k)) <==>
              forall tx, o :: Simulated(h, tx, o) && Monotone(o.at) ==> ActsDirectly(tx, o, Last(h), height, 0)
  {
    hide TransparentAt, ActsDirectly;
    if forall a: nat, k | a < |h| :: TransparentAt(h, a, a, k) {
      forall tx, o | Simulated(h, tx, o) && Snapshot(o.at) ensures ActsDirectly(tx, o, Last(h), height, 0) {
        TransparentActsDirectly(h, height, tx, o);
      }
    } else {
      var a: nat, k :| a < |h| && !TransparentAt(h, a, a, k);
      var o, tx := OpaqueBreaks(h, height, a, a, k);
    }
    if forall a: nat, b: nat, k | a <= b < |h| :: TransparentAt(h, a, b, k) {
      forall tx, o | Simulated(h, tx, o) && Monotone(o.at) ensures ActsDirectly(tx, o, Last(h), height, 0) {
        TransparentActsDirectly(h, height, tx, o);
      }
    } else {
      var a: nat, b: nat, k :| a <= b < |h| && !TransparentAt(h, a, b, k);
      var o, tx := OpaqueBreaks(h, height, a, b, k);
    }
  }

  /** On clean keys: fetching from different states is harmless for every contract if
      and only if no key that is missing now was missing and then visible before. */
  lemma SnapshotsUnneededExactly(h: seq<Store>, height: int)
    requires h != [] && Coherent(h)
    ensures NoFlicker(h) <==>
            forall tx, o :: Simulated(h, tx, o) && Monotone(o.at) && CleanTx(tx) ==>
              ActsDirectly(tx, o, Last(h), height, 0)
  {
    ExtendCoherent(h, Last(h));
    if NoFlicker(h) {
      forall tx, o | Simulated(h, tx, o) && Monotone(o.at) && CleanTx(tx)
        ensures ActsDirectly(tx, o, Last(h), height, 0)
      {
        var committed := CommitTx(Last(h), tx, height, 0);
        if committed.Ok? && committed.value.1.Valid? {
          ValidTxIsDirect(h, tx, o, Last(h), height, 0);
        }
      }
    } else {
      var a, b, k: Key :| 0 <= a <= b < |h| && k.Clean() && k !in h[a].kv && k !in Last(h).kv
        && h[b].Observe(k) != Empty;
      assert h[a].WellFormed() && Last(h).WellFormed();
      assert !TransparentAt(h, a, b, k);
      var o, tx := OpaqueBreaks(h, height, a, b, k);
    }
  }

  /** An admin delete can make a key flicker. */
  lemma DeleteFlickers(key: Key, n: int)
    requires key.Clean()
    ensures var s := EMPTY_STORE.Put(key, Int(n), Admin(0, 1));
            var states, events := [EMPTY_STORE, s, EMPTY_STORE], [AdminPut(key, Int(n), Admin(0, 1)), AdminDelete(key)];
            ValidRun(states, events) && !NoFlicker(states)
  {
    var s := EMPTY_STORE.Put(key, Int(n), Admin(0, 1));
    var states, events := [EMPTY_STORE, s, EMPTY_STORE], [AdminPut(key, Int(n), Admin(0, 1)), AdminDelete(key)];
    assert states[..1] == [EMPTY_STORE] && states[..2] == [EMPTY_STORE, s];
    assert s.Delete(key) == EMPTY_STORE;
    assert states[0].GetVersion(key) == NoVersion && states[1].Observe(key) == Int(n);
  }
}
