/** Contracts as deterministic programs over the two host functions, their
    simulation against possibly stale states, and their direct execution. */
module Simulation {
  import opened Wrappers
  import opened Ledger
  import opened RwSets

  /** A contract entry point: it reads, writes, and accepts or rejects. */
  datatype Prog =
    | Halt(ok: bool)
    | GetState(key: Key, cont: Value -> Prog)
    | PutState(key: Key, value: Value, next: Prog)

  /** Simulation so far: the collected read/write set, the number of states
      fetched from the commit peer and the remaining budget of host calls. */
  datatype Sim = Sim(rw: RW, fetches: nat, gas: nat)

  /** One `GetState`: the overlay first, else fetch number `fetches`, recorded
      under the key as the guest gave it. */
  function HostGet(feed: nat -> Store, s: Sim, key: Key): (Value, Sim)
  {
    match LookupIn(s.rw.writeSet, key)
    case Deleted => (Empty, s)
    case Written(v) => (v, s)
    case NotWritten =>
      var (v, version, found) := feed(s.fetches).Served(key);
      (v, s.(rw := s.rw.(readSet := RecordIn(s.rw.readSet, key, v, version)), fetches := s.fetches + 1))
  }

  function Simulate(p: Prog, feed: nat -> Store, s: Sim): (bool, Sim)
    decreases s.gas
  {
    match p
    case Halt(ok) => (ok, s)
    case GetState(key, cont) =>
      if s.gas == 0 then (false, s)
      else
        var (v, t) := HostGet(feed, s, key);
        Simulate(cont(v), feed, t.(gas := s.gas - 1))
    case PutState(key, value, next) =>
      if s.gas == 0 then (false, s)
      else
        var w := PutIn(s.rw.writeSet, key, value);
        Simulate(next, feed, s.(rw := s.rw.(writeSet := w), gas := s.gas - 1))
  }

  /** The guest calls of one transaction, in order; the first rejection ends it. */
  function SimulateAll(guests: seq<Prog>, feed: nat -> Store, s: Sim): (bool, Sim)
  {
    if guests == [] then (true, s)
    else
      var (ok, t) := Simulate(guests[0], feed, s);
      if !ok then (false, t) else SimulateAll(guests[1..], feed, t)
  }

  /** A transaction that touched no key carries no read/write set. */
  function Attach(rw: RW): Option<RW> {
    if rw.writeSet == [] && rw.readSet == [] then None else Some(rw)
  }

  datatype ExecError = Rejected

  function ExecuteSpec(guests: seq<Prog>, feed: nat -> Store, gas: nat): Result<Option<RW>, ExecError> {
    var (ok, t) := SimulateAll(guests, feed, Sim(RW([], []), 0, gas));
    if ok then Ok(Attach(t.rw)) else Err(Rejected)
  }

  lemma ServedMissing(s: Store, key: Key)
    ensures !s.Served(key).2 ==> s.Served(key) == (Empty, NoVersion, false)
  {
  }

  /** A rejected transaction leaves no read/write set; an accepted one leaves what it read and
      wrote, unless that is nothing. */
  lemma ExecutedExactly(guests: seq<Prog>, feed: nat -> Store, gas: nat)
    ensures var (ok, t) := SimulateAll(guests, feed, Sim(RW([], []), 0, gas));
            var r := ExecuteSpec(guests, feed, gas);
            && (r == Err(Rejected) <==> !ok)
            && (r == Ok(None) <==> ok && t.rw.readSet == [] && t.rw.writeSet == [])
            && (forall rw :: r == Ok(Some(rw)) <==> ok && rw == t.rw && (t.rw.readSet != [] || t.rw.writeSet != []))
  {
  }

  /** Core's engine.  `feed(n)` is the commit peer's state that answers fetch `n`. */
  class WasmEngine {
    const feed: nat -> Store
    var fetches: nat
    var gas: nat

    constructor (feed: nat -> Store, gas: nat)
      ensures this.feed == feed && fetches == 0 && this.gas == gas
    {
      this.feed := feed;
      this.fetches, this.gas := 0, gas;
    }

    ghost function State(rw: RWSet): Sim
      reads this, rw
    {
      Sim(RW(rw.Reads, rw.Writes), fetches, gas)
    }

    method Get(rw: RWSet, key: Key) returns (v: Value)
      modifies this`fetches, rw`Reads
      ensures (v, State(rw)) == HostGet(feed, old(State(rw)), key)
    {
      hide LookupIn, RecordIn, Store.Served;
      ServedMissing(feed(fetches), key);
      var o := rw.LookupWrite(key);
      match o
      case Deleted => v := Empty;
      case Written(w) => v := w;
      case NotWritten =>
        var (remote, version, found) := feed(fetches).Served(key);
        fetches := fetches + 1;
        if found {
          rw.RecordRead(key, remote, version);
        } else {
          rw.RecordRead(key, Empty, NoVersion);
        }
        v := remote;
    }

    method CallGuest(p: Prog, rw: RWSet) returns (ok: bool)
      modifies this`fetches, this`gas, rw
      ensures (ok, State(rw)) == Simulate(p, feed, old(State(rw)))
    {
      var q := p;
      while !q.Halt?
        invariant Simulate(q, feed, State(rw)) == Simulate(p, feed, old(State(rw)))
        decreases gas
      {
        if gas == 0 {
          return false;
        }
        match q {
          case GetState(key, cont) =>
            var v := Get(rw, key);
            q := cont(v);
          case PutState(key, value, next) =>
            rw.PutWrite(key, value);
            q := next;
        }
        gas := gas - 1;
      }
      ok := q.ok;
    }

    /** Runs the guests of a transaction and collects its read/write set. */
    method Execute(guests: seq<Prog>) returns (r: Result<Option<RW>, ExecError>)
      requires fetches == 0
      modifies this`fetches, this`gas
      ensures r == ExecuteSpec(guests, feed, old(gas))
      ensures r.Ok? && r.value.Some? ==> r.value.value.readSet != [] || r.value.value.writeSet != []
    {
      var rw := new RWSet();
      var i := 0;
      while i < |guests|
        invariant i <= |guests|
        invariant SimulateAll(guests[i..], feed, State(rw)) == SimulateAll(guests, feed, Sim(RW([], []), 0, old(gas)))
        invariant fresh(rw)
      {
        var ok := CallGuest(guests[i], rw);
        assert guests[i..][1..] == guests[i + 1..];
        if !ok {
          return Err(Rejected);
        }
        i := i + 1;
      }
      r := if |rw.Writes| == 0 && |rw.Reads| == 0 then Ok(None) else Ok(Some(RW(rw.Reads, rw.Writes)));
    }
  }

  // ---- Direct execution ----

  /** Executing on a store itself: every write takes effect at once. */
  datatype Run = Run(store: Store, gas: nat)

  function Direct(p: Prog, version: Version, r: Run): (bool, Run)
    decreases r.gas
  {
    match p
    case Halt(ok) => (ok, r)
    case GetState(key, cont) =>
      if r.gas == 0 then (false, r)
      else Direct(cont(r.store.Observe(key)), version, r.(gas := r.gas - 1))
    case PutState(key, value, next) =>
      if r.gas == 0 then (false, r)
      else Direct(next, version, Run(r.store.Put(key, value, version), r.gas - 1))
  }

  function DirectAll(guests: seq<Prog>, version: Version, r: Run): (bool, Run)
  {
    if guests == [] then (true, r)
    else
      var (ok, t) := Direct(guests[0], version, r);
      if !ok then (false, t) else DirectAll(guests[1..], version, t)
  }

  // ---- Validated simulation is direct execution ----

  /** The commit check of a read set against a store. */
  ghost predicate ReadsMatch(readSet: seq<KVRead>, base: Store) {
    forall r | r in readSet :: base.GetVersion(r.key) == r.version
  }

  /** Once the version served by some fetch of `key` is the one current in `base`,
      that fetch and all later ones were served the value of `base`. */
  ghost predicate StableAt(feed: nat -> Store, base: Store, key: Key) {
    forall m: nat, n: nat {:trigger feed(m).ServedVersion(key), feed(n).ServedValue(key)} ::
      m <= n && feed(m).ServedVersion(key) == base.GetVersion(key) ==> feed(n).ServedValue(key) == base.Observe(key)
  }

  ghost predicate StableReads(readSet: seq<KVRead>, feed: nat -> Store, base: Store) {
    forall r | r in readSet :: StableAt(feed, base, r.key)
  }

  /** The program fetches only keys that satisfy `ok`. */
  ghost predicate FetchesOnly(p: Prog, ok: Key -> bool, gas: nat)
    decreases gas
  {
    match p
    case Halt(_) => true
    case GetState(key, cont) => ok(key) && (gas > 0 ==> forall v :: FetchesOnly(cont(v), ok, gas - 1))
    case PutState(_, _, next) => gas > 0 ==> FetchesOnly(next, ok, gas - 1)
  }

  ghost predicate StableFetches(readSet: seq<KVRead>, ok: Key -> bool, feed: nat -> Store, base: Store) {
    forall r | r in readSet && ok(r.key) :: StableAt(feed, base, r.key)
  }

  lemma {:induction false} FetchesAnything(p: Prog, gas: nat)
    ensures FetchesOnly(p, (k: Key) => true, gas)
    decreases gas
  {
    match p
    case Halt(_) =>
    case GetState(key, cont) =>
      if gas > 0 {
        forall v ensures FetchesOnly(cont(v), (k: Key) => true, gas - 1) {
          FetchesAnything(cont(v), gas - 1);
        }
      }
    case PutState(_, _, next) =>
      if gas > 0 {
        FetchesAnything(next, gas - 1);
      }
  }

  ghost predicate WellFormedFeed(feed: nat -> Store) {
    forall n: nat :: feed(n).WellFormed()
  }

  /** Every recorded version was the current one at some earlier fetch. */
  ghost predicate Recorded(feed: nat -> Store, s: Sim) {
    && UniqueWrites(s.rw.writeSet)
    && PutsOnly(s.rw.writeSet)
    && forall r | r in s.rw.readSet :: exists n: nat :: n < s.fetches && feed(n).ServedVersion(r.key) == r.version
  }

  lemma HostGetRecorded(feed: nat -> Store, s: Sim, key: Key)
    requires WellFormedFeed(feed) && Recorded(feed, s)
    ensures Recorded(feed, HostGet(feed, s, key).1)
    ensures forall r | r in s.rw.readSet :: r in HostGet(feed, s, key).1.rw.readSet
    ensures LookupIn(s.rw.writeSet, key).NotWritten? ==>
              exists r, n: nat :: r in HostGet(feed, s, key).1.rw.readSet && r.key == key
                && n <= s.fetches && feed(n).ServedVersion(key) == r.version
  {
    var (v, t) := HostGet(feed, s, key);
    if LookupIn(s.rw.writeSet, key).NotWritten? {
      var fetched := KVRead(key, feed(s.fetches).Served(key).1, v);
      assert feed(s.fetches).WellFormed();
      assert feed(s.fetches).ServedVersion(key) == fetched.version;
      forall r | r in t.rw.readSet
        ensures exists n: nat :: n < t.fetches && feed(n).ServedVersion(r.key) == r.version
      {
        if r in s.rw.readSet {
          var n: nat :| n < s.fetches && feed(n).ServedVersion(r.key) == r.version;
          assert n < t.fetches;
        } else {
          assert r == fetched;
        }
      }
      if exists r | r in s.rw.readSet :: r.key == key {
        var r :| r in s.rw.readSet && r.key == key;
        var n: nat :| n < s.fetches && feed(n).ServedVersion(r.key) == r.version;
      } else {
        assert fetched in t.rw.readSet;
      }
    }
  }

  /** Reads, once recorded, stay recorded to the end of the simulation. */
  lemma {:induction false} ReadsGrow(p: Prog, feed: nat -> Store, s: Sim)
    requires WellFormedFeed(feed) && Recorded(feed, s)
    ensures var t := Simulate(p, feed, s).1;
            Recorded(feed, t) && forall r | r in s.rw.readSet :: r in t.rw.readSet
    decreases s.gas
  {
    match p
    case Halt(_) =>
    case GetState(key, cont) =>
      if s.gas > 0 {
        HostGetRecorded(feed, s, key);
        var (v, t) := HostGet(feed, s, key);
        ReadsGrow(cont(v), feed, t.(gas := s.gas - 1));
      }
    case PutState(key, value, next) =>
      if s.gas > 0 {
        PutInIsPut(EMPTY_STORE, s.rw.writeSet, key, value, NoVersion);
        ReadsGrow(next, feed, s.(rw := s.rw.(writeSet := PutIn(s.rw.writeSet, key, value)), gas := s.gas - 1));
      }
  }

  /** A `GetState` whose record passes the commit check answers as `base` with
      the writes so far applied would. */
  lemma HostGetIsObserve(feed: nat -> Store, s: Sim, key: Key, ok: Key -> bool, base: Store, version: Version)
    requires WellFormedFeed(feed) && Recorded(feed, s) && ok(key)
    requires ReadsMatch(HostGet(feed, s, key).1.rw.readSet, base)
    requires StableFetches(HostGet(feed, s, key).1.rw.readSet, ok, feed, base)
    ensures HostGet(feed, s, key).0 == ApplyWrites(base, s.rw.writeSet, version).Observe(key)
  {
    hide LookupIn, ApplyWrites, RecordIn, StableAt, UniqueWrites, PutsOnly;
    OverlayIsApplied(base, s.rw.writeSet, key, version);
    HostGetRecorded(feed, s, key);
    if LookupIn(s.rw.writeSet, key).NotWritten? {
      var r, n: nat :| r in HostGet(feed, s, key).1.rw.readSet && r.key == key
        && n <= s.fetches && feed(n).ServedVersion(key) == r.version;
      assert StableAt(feed, base, key);
      StableServes(feed, base, key, n, s.fetches);
      FetchServes(feed, s, key);
    }
  }

  lemma StableServes(feed: nat -> Store, base: Store, key: Key, m: nat, n: nat)
    requires StableAt(feed, base, key) && m <= n && feed(m).ServedVersion(key) == base.GetVersion(key)
    ensures feed(n).ServedValue(key) == base.Observe(key)
  {
  }

  lemma FetchServes(feed: nat -> Store, s: Sim, key: Key)
    requires LookupIn(s.rw.writeSet, key).NotWritten?
    ensures HostGet(feed, s, key).0 == feed(s.fetches).ServedValue(key)
  {
    hide LookupIn;
  }

  /** The execution state that a simulation stands for. */
  ghost function OnBase(base: Store, s: Sim, version: Version): Run {
    Run(ApplyWrites(base, s.rw.writeSet, version), s.gas)
  }

  lemma GetSteps(p: Prog, feed: nat -> Store, s: Sim, version: Version, r: Run)
    requires p.GetState? && s.gas > 0 && r.gas == s.gas
    ensures var (v, t) := HostGet(feed, s, p.key);
            && t.rw.writeSet == s.rw.writeSet
            && Simulate(p, feed, s) == Simulate(p.cont(v), feed, t.(gas := s.gas - 1))
    ensures Direct(p, version, r) == Direct(p.cont(r.store.Observe(p.key)), version, r.(gas := s.gas - 1))
  {
  }

  lemma PutSteps(p: Prog, feed: nat -> Store, s: Sim, base: Store, version: Version) returns (u: Sim)
    requires p.PutState? && s.gas > 0 && Recorded(feed, s)
    ensures u.gas == s.gas - 1 && u.rw.readSet == s.rw.readSet && Recorded(feed, u)
    ensures Simulate(p, feed, s) == Simulate(p.next, feed, u)
    ensures Direct(p, version, OnBase(base, s, version)) == Direct(p.next, version, OnBase(base, u, version))
  {
    PutInIsPut(base, s.rw.writeSet, p.key, p.value, version);
    u := s.(rw := s.rw.(writeSet := PutIn(s.rw.writeSet, p.key, p.value)), gas := s.gas - 1);
  }

  /** A simulation that passes the commit check against `base`, and whose fetched keys
      are stable there, had the outcome and the effect of executing directly on `base`. */
  lemma {:induction false} SimulateIsDirectOn(p: Prog, ok: Key -> bool, feed: nat -> Store, s: Sim, base: Store,
                                              version: Version)
    requires WellFormedFeed(feed) && Recorded(feed, s) && FetchesOnly(p, ok, s.gas)
    requires ReadsMatch(Simulate(p, feed, s).1.rw.readSet, base)
    requires StableFetches(Simulate(p, feed, s).1.rw.readSet, ok, feed, base)
    ensures var (accepted, t) := Simulate(p, feed, s);
            Direct(p, version, OnBase(base, s, version)) == (accepted, OnBase(base, t, version))
    decreases s.gas
  {
    hide HostGet, Recorded, Simulate, Direct;
    if p.Halt? || s.gas == 0 {
      NoSteps(p, feed, s, version, OnBase(base, s, version));
    } else if p.GetState? {
      HostGetRecorded(feed, s, p.key);
      var (v, t) := HostGet(feed, s, p.key);
      var u := t.(gas := s.gas - 1);
      RecordedWithGas(feed, t, u);
      GetSteps(p, feed, s, version, OnBase(base, s, version));
      ReadsGrow(p.cont(v), feed, u);
      HostGetIsObserve(feed, s, p.key, ok, base, version);
      SimulateIsDirectOn(p.cont(v), ok, feed, u, base, version);
    } else {
      var u := PutSteps(p, feed, s, base, version);
      SimulateIsDirectOn(p.next, ok, feed, u, base, version);
    }
  }

  lemma NoSteps(p: Prog, feed: nat -> Store, s: Sim, version: Version, r: Run)
    requires (p.Halt? || s.gas == 0) && r.gas == s.gas
    ensures Simulate(p, feed, s) == (p.Halt? && p.ok, s)
    ensures Direct(p, version, r) == (p.Halt? && p.ok, r)
  {
  }

  lemma RecordedWithGas(feed: nat -> Store, s: Sim, u: Sim)
    requires Recorded(feed, s) && u.rw == s.rw && u.fetches == s.fetches
    ensures Recorded(feed, u)
  {
  }

  /** The same when all recorded keys are stable. */
  lemma SimulateIsDirect(p: Prog, feed: nat -> Store, s: Sim, base: Store, version: Version)
    requires WellFormedFeed(feed) && Recorded(feed, s)
    requires ReadsMatch(Simulate(p, feed, s).1.rw.readSet, base)
    requires StableReads(Simulate(p, feed, s).1.rw.readSet, feed, base)
    ensures var (accepted, t) := Simulate(p, feed, s);
            Direct(p, version, OnBase(base, s, version)) == (accepted, OnBase(base, t, version))
  {
    FetchesAnything(p, s.gas);
    SimulateIsDirectOn(p, (k: Key) => true, feed, s, base, version);
  }

  lemma {:induction false} SimulateAllIsDirect(guests: seq<Prog>, feed: nat -> Store, s: Sim, base: Store,
                                               version: Version)
    requires WellFormedFeed(feed) && Recorded(feed, s)
    requires ReadsMatch(SimulateAll(guests, feed, s).1.rw.readSet, base)
    requires StableReads(SimulateAll(guests, feed, s).1.rw.readSet, feed, base)
    ensures var (ok, t) := SimulateAll(guests, feed, s);
            DirectAll(guests, version, OnBase(base, s, version)) == (ok, OnBase(base, t, version))
  {
    if guests != [] {
      var (ok, t) := Simulate(guests[0], feed, s);
      ReadsGrow(guests[0], feed, s);
      if ok {
        AllReadsGrow(guests[1..], feed, t);
      }
      SimulateIsDirect(guests[0], feed, s, base, version);
      if ok {
        SimulateAllIsDirect(guests[1..], feed, t, base, version);
      }
    }
  }

  lemma {:induction false} AllReadsGrow(guests: seq<Prog>, feed: nat -> Store, s: Sim)
    requires WellFormedFeed(feed) && Recorded(feed, s)
    ensures var t := SimulateAll(guests, feed, s).1;
            Recorded(feed, t) && forall r | r in s.rw.readSet :: r in t.rw.readSet
  {
    if guests != [] {
      ReadsGrow(guests[0], feed, s);
      var (ok, t) := Simulate(guests[0], feed, s);
      if ok {
        AllReadsGrow(guests[1..], feed, t);
      }
    }
  }

  /** Simulation keeps both lists free of repeated keys. */
  lemma {:induction false} SimulateKeepsUnique(p: Prog, feed: nat -> Store, s: Sim)
    requires UniqueReads(s.rw.readSet) && UniqueWrites(s.rw.writeSet)
    ensures var t := Simulate(p, feed, s).1; UniqueReads(t.rw.readSet) && UniqueWrites(t.rw.writeSet)
    decreases s.gas
  {
    match p
    case Halt(_) =>
    case GetState(key, cont) =>
      if s.gas > 0 {
        var (v, t) := HostGet(feed, s, key);
        RecordKeepsUnique(s.rw.readSet, key, v, feed(s.fetches).Served(key).1);
        SimulateKeepsUnique(cont(v), feed, t.(gas := s.gas - 1));
      }
    case PutState(key, value, next) =>
      if s.gas > 0 {
        UpsertKeepsUnique(s.rw.writeSet, KVWrite(key, Decoded(value), false));
        SimulateKeepsUnique(next, feed,
                            s.(rw := s.rw.(writeSet := PutIn(s.rw.writeSet, key, value)), gas := s.gas - 1));
      }
  }

  lemma {:induction false} SimulateAllKeepsUnique(guests: seq<Prog>, feed: nat -> Store, s: Sim)
    requires UniqueReads(s.rw.readSet) && UniqueWrites(s.rw.writeSet)
    ensures var t := SimulateAll(guests, feed, s).1; UniqueReads(t.rw.readSet) && UniqueWrites(t.rw.writeSet)
  {
    if guests != [] {
      SimulateKeepsUnique(guests[0], feed, s);
      var (ok, t) := Simulate(guests[0], feed, s);
      if ok {
        SimulateAllKeepsUnique(guests[1..], feed, t);
      }
    }
  }

  /** The read/write set that a whole transaction leaves has no repeated keys. */
  lemma ExecutedIsUnique(guests: seq<Prog>, feed: nat -> Store, gas: nat)
    ensures var r := ExecuteSpec(guests, feed, gas);
            r.Ok? && r.value.Some? ==> UniqueReads(r.value.value.readSet) && UniqueWrites(r.value.value.writeSet)
  {
    SimulateAllKeepsUnique(guests, feed, Sim(RW([], []), 0, gas));
  }

  // ---- Which pair is served ----

  /** The state endpoint serves a key's own pair in every state exactly when the key
      has no white space at its end. */
  lemma OwnPairServedExactly(key: Key)
    ensures (forall s: Store :: s.WellFormed() ==> s.Served(key) == s.GetKVWithVersion(key)) <==> key.Clean()
  {
    if !key.Clean() {
      var s := EMPTY_STORE.Put(key, Empty, Admin(0, 0));
      assert s.WellFormed() && s.Served(key).2 != s.GetKVWithVersion(key).2;
    }
  }
}
