/** Runs of the commit peer's world state, and what versions say along them. */
module Histories {
  import opened Wrappers
  import opened Ledger
  import opened RwSets
  import opened Simulation
  import opened WorldStates

  /** How a transaction came about: its guest calls, the index of the run's state
      that answered each fetch, and the budget of host calls. */
  datatype Origin = Origin(guests: seq<Prog>, at: nat -> nat, gas: nat)

  datatype Event =
    | Block(height: int, txs: seq<Tx>, origins: seq<Origin>)
    | AdminPut(key: Key, value: Value, version: Version)
    | AdminDelete(key: Key)

  function Feed(states: seq<Store>, at: nat -> nat): nat -> Store {
    (n: nat) => if at(n) < |states| then states[at(n)] else EMPTY_STORE
  }

  /** The transaction's read/write set came from simulating its contract on
      states of the run that existed before the block. */
  ghost predicate Simulated(states: seq<Store>, tx: Tx, o: Origin) {
    && (forall n: nat :: o.at(n) < |states|)
    && ExecuteSpec(o.guests, Feed(states, o.at), o.gas) == Ok(tx.rw)
  }

  function Last(h: seq<Store>): Store
    requires h != []
  {
    h[|h| - 1]
  }

  ghost predicate Fresh(h: seq<Store>, key: Key, version: Version) {
    forall i | 0 <= i < |h| :: h[i].GetVersion(key) != version
  }

  ghost predicate Step(h: seq<Store>, e: Event, next: Store)
    requires h != []
  {
    match e
    case Block(height, txs, origins) =>
      && |origins| == |txs|
      && (forall i | 0 <= i < |txs| :: Simulated(h, txs[i], origins[i]))
      && CommitBlock(Last(h), txs, height).Ok?
      && next == CommitBlock(Last(h), txs, height).value.0
    case AdminPut(key, value, version) =>
      version.Admin? && Fresh(h, key, version) && next == Last(h).Put(key, value, version)
    case AdminDelete(key) =>
      next == Last(h).Delete(key)
  }

  ghost predicate Older(v: Version, height: int) {
    v.AtBlock? ==> v.height < height
  }

  ghost predicate AllOlder(h: seq<Store>, height: int) {
    forall i, k | 0 <= i < |h| :: Older(h[i].GetVersion(k), height)
  }

  /** Block heights grow along the run and exceed those of the start state. */
  ghost predicate HeightsGrow(start: Store, events: seq<Event>) {
    && (forall i | 0 <= i < |events| && events[i].Block? :: AllOlder([start], events[i].height))
    && (forall i, j | 0 <= i < j < |events| && events[i].Block? && events[j].Block? ::
      events[i].height < events[j].height)
  }

  ghost predicate ValidRun(states: seq<Store>, events: seq<Event>) {
    && |states| == |events| + 1
    && states[0].WellFormed()
    && HeightsGrow(states[0], events)
    && forall i | 0 <= i < |events| :: Step(states[..i + 1], events[i], states[i + 1])
  }

  lemma RunPrefix(states: seq<Store>, events: seq<Event>, n: nat)
    requires ValidRun(states, events) && n <= |events|
    ensures ValidRun(states[..n + 1], events[..n])
  {
    forall i | 0 <= i < n ensures Step(states[..n + 1][..i + 1], events[..n][i], states[..n + 1][i + 1]) {
      assert states[..n + 1][..i + 1] == states[..i + 1];
    }
  }

  // ---- Coherent histories ----

  ghost predicate AllWellFormed(h: seq<Store>) {
    forall i | 0 <= i < |h| :: h[i].WellFormed()
  }

  /** A non-empty version never returns once it has been overwritten. */
  ghost predicate NeverReturns(h: seq<Store>) {
    forall i, j, m, k {:trigger h[i].GetVersion(k), h[j].GetVersion(k), h[m].GetVersion(k)} |
      0 <= i <= j <= m < |h| && h[i].GetVersion(k) == h[m].GetVersion(k) != NoVersion ::
      h[j].GetVersion(k) == h[i].GetVersion(k)
  }

  /** Equal non-empty versions of a key go with equal values. */
  ghost predicate VersionsIdentify(h: seq<Store>) {
    forall i, j, k | 0 <= i < |h| && 0 <= j < |h| && h[i].GetVersion(k) == h[j].GetVersion(k) != NoVersion ::
      h[i].GetKV(k) == h[j].GetKV(k)
  }

  ghost predicate Coherent(h: seq<Store>) {
    AllWellFormed(h) && NeverReturns(h) && VersionsIdentify(h)
  }

  ghost predicate SameAt(s: Store, t: Store, k: Key) {
    s.GetVersion(k) == t.GetVersion(k) && s.GetKV(k) == t.GetKV(k)
  }

  /** Each key of the new state is as before, gone, or freshly stamped. */
  ghost predicate FreshStep(h: seq<Store>, next: Store)
    requires h != []
  {
    forall k :: SameAt(Last(h), next, k) || next.GetVersion(k) == NoVersion || Fresh(h, k, next.GetVersion(k))
  }

  lemma ExtendCoherent(h: seq<Store>, next: Store)
    requires h != [] && Coherent(h) && next.WellFormed() && FreshStep(h, next)
    ensures Coherent(h + [next])
  {
    var g, n := h + [next], |h|;
    forall i, j, m, k | 0 <= i <= j <= m < |g| && g[i].GetVersion(k) == g[m].GetVersion(k) != NoVersion
      ensures g[j].GetVersion(k) == g[i].GetVersion(k)
    {
      if m == n && i < n {
        assert !Fresh(h, k, next.GetVersion(k)) by { assert h[i].GetVersion(k) == next.GetVersion(k); }
        assert SameAt(Last(h), next, k);
        if j < n {
          assert h[i].GetVersion(k) == h[n - 1].GetVersion(k);
          assert h[j].GetVersion(k) == h[i].GetVersion(k);
        }
      } else if m < n {
        assert h[i].GetVersion(k) == h[m].GetVersion(k);
        assert h[j].GetVersion(k) == h[i].GetVersion(k);
      }
    }
    forall i, j, k | 0 <= i < |g| && 0 <= j < |g| && g[i].GetVersion(k) == g[j].GetVersion(k) != NoVersion
      ensures g[i].GetKV(k) == g[j].GetKV(k)
    {
      if i != j && (i == n || j == n) {
        var o := if i == n then j else i;
        assert !Fresh(h, k, next.GetVersion(k)) by { assert h[o].GetVersion(k) == next.GetVersion(k); }
        assert SameAt(Last(h), next, k);
        assert h[o].GetVersion(k) == h[n - 1].GetVersion(k);
      }
    }
  }

  /** What the first `n` transactions of a block may have done to one key. */
  lemma {:induction false} LiveEffect(s: Store, txs: seq<Tx>, height: int, n: nat, k: Key)
    requires n <= |txs| && CommitUpTo(s, txs, height, n).Ok?
    ensures var t := CommitUpTo(s, txs, height, n).value.0;
            && (s.WellFormed() ==> t.WellFormed())
            && (|| SameAt(s, t, k)
                || t.GetVersion(k) == NoVersion
                || (t.GetVersion(k).AtBlock? && t.GetVersion(k).height == height))
  {
    if n > 0 {
      LiveEffect(s, txs, height, n - 1, k);
      var tx := txs[n - 1];
      var t := CommitUpTo(s, txs, height, n - 1).value.0;
      if tx.rw.Some? && FirstConflict(tx.rw.value.readSet, t).None? {
        ApplyWritesFrame(t, tx.rw.value.writeSet, AtBlock(height, n - 1), k);
      }
    }
  }

  lemma BlockExtends(h: seq<Store>, txs: seq<Tx>, height: int, n: nat)
    requires h != [] && Coherent(h) && AllOlder(h, height)
    requires n <= |txs| && CommitUpTo(Last(h), txs, height, n).Ok?
    ensures Coherent(h + [CommitUpTo(Last(h), txs, height, n).value.0])
  {
    var t := CommitUpTo(Last(h), txs, height, n).value.0;
    forall k ensures t.WellFormed()
      ensures SameAt(Last(h), t, k) || t.GetVersion(k) == NoVersion || Fresh(h, k, t.GetVersion(k))
    {
      LiveEffect(Last(h), txs, height, n, k);
      forall i | 0 <= i < |h| ensures Older(h[i].GetVersion(k), height) {}
    }
    LiveEffect(Last(h), txs, height, n, Balance(""));
    ExtendCoherent(h, t);
  }

  lemma StepCoherent(h: seq<Store>, e: Event, next: Store)
    requires h != [] && Coherent(h) && Step(h, e, next)
    requires e.Block? ==> AllOlder(h, e.height)
    ensures Coherent(h + [next])
  {
    match e
    case Block(height, txs, origins) =>
      BlockExtends(h, txs, height, |txs|);
    case AdminPut(key, value, version) =>
      assert next.WellFormed();
      ExtendCoherent(h, next);
    case AdminDelete(key) =>
      assert next.WellFormed();
      ExtendCoherent(h, next);
  }

  /** All versions so far are older than any block still to come. */
  lemma {:induction false} VersionsOlder(states: seq<Store>, events: seq<Event>, n: nat, height: int)
    requires ValidRun(states, events) && n <= |events|
    requires AllOlder(states[..1], height)
    requires forall i | 0 <= i < n && events[i].Block? :: events[i].height < height
    ensures AllOlder(states[..n + 1], height)
  {
    if n > 0 {
      VersionsOlder(states, events, n - 1, height);
      var h, e := states[..n], events[n - 1];
      assert Step(h, e, states[n]);
      forall k ensures Older(states[n].GetVersion(k), height) {
        assert Older(h[n - 1].GetVersion(k), height);
        if e.Block? {
          LiveEffect(h[n - 1], e.txs, e.height, |e.txs|, k);
        }
      }
      var g := states[..n + 1];
      forall i, k | 0 <= i < n + 1 ensures Older(g[i].GetVersion(k), height) {
        assert i < n ==> Older(h[i].GetVersion(k), height);
      }
    }
  }

  lemma HeightIsNew(states: seq<Store>, events: seq<Event>, n: nat)
    requires ValidRun(states, events) && n < |events| && events[n].Block?
    ensures AllOlder(states[..n + 1], events[n].height)
  {
    assert [states[0]] == states[..1];
    VersionsOlder(states, events, n, events[n].height);
  }

  /** Along every run: a key has a version exactly when it has a value, no
      version returns once overwritten, and versions identify values. */
  lemma {:induction false} RunCoherent(states: seq<Store>, events: seq<Event>)
    requires ValidRun(states, events)
    ensures Coherent(states)
  {
    if events == [] {
      assert states == [states[0]];
    } else {
      var n := |events| - 1;
      RunPrefix(states, events, n);
      RunCoherent(states[..n + 1], events[..n]);
      if events[n].Block? {
        HeightIsNew(states, events, n);
      }
      StepCoherent(states[..n + 1], events[n], states[n + 1]);
      assert states[..n + 1] + [states[n + 1]] == states;
    }
  }
}
