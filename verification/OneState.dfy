/** Contracts simulated on one state, host call by host call. */
module OneState {
  import opened Ledger
  import opened RwSets
  import opened Simulation
  import opened Contracts
  import opened Effects
  import opened DirectCalls

  /** An amount as a contract reads it. */
  predicate Readable(v: Value) {
    Norm(v) == Empty || ParseInt(v).Some?
  }

  function AmountOf(v: Value): int64
    requires Readable(v)
  {
    if Norm(v) == Empty then 0 else ParseInt(v).value
  }

  predicate NotTouched(rw: RW, key: Key) {
    && (forall r | r in rw.readSet :: r.key != key)
    && (forall i | 0 <= i < |rw.writeSet| :: rw.writeSet[i].key != key)
  }

  function ReadOf(s: Store, key: Key): KVRead {
    KVRead(key, s.ServedVersion(key), s.ServedValue(key))
  }

  lemma NotFound(writeSet: seq<KVWrite>, key: Key)
    requires forall i | 0 <= i < |writeSet| :: writeSet[i].key != key
    ensures FindWrite(writeSet, key) == |writeSet| && LookupIn(writeSet, key) == NotWritten
  {
  }

  lemma HostGetFirst(feed: nat -> Store, s: Store, sim: Sim, key: Key)
    requires Constant(feed, s) && NotTouched(sim.rw, key)
    ensures HostGet(feed, sim, key) ==
            (s.ServedValue(key),
             sim.(rw := sim.rw.(readSet := sim.rw.readSet + [ReadOf(s, key)]), fetches := sim.fetches + 1))
  {
    NotFound(sim.rw.writeSet, key);
  }

  lemma HostGetAgain(feed: nat -> Store, s: Store, sim: Sim, key: Key)
    requires Constant(feed, s) && (forall i | 0 <= i < |sim.rw.writeSet| :: sim.rw.writeSet[i].key != key)
               && ReadOf(s, key) in sim.rw.readSet
    ensures HostGet(feed, sim, key) == (s.ServedValue(key), sim.(fetches := sim.fetches + 1))
  {
    NotFound(sim.rw.writeSet, key);
  }

  /** A first `Fetch` of a key on one state. */
  lemma SimFetch(key: Key, cont: Value -> Prog, feed: nat -> Store, s: Store, sim: Sim) returns (t: Sim)
    requires Constant(feed, s) && NotTouched(sim.rw, key) && sim.gas >= 2
    ensures t.rw == sim.rw.(readSet := sim.rw.readSet + [ReadOf(s, key)]) && t.gas >= sim.gas - 2
    ensures Simulate(Fetch(key, cont), feed, sim) == Simulate(cont(Norm(s.ServedValue(key))), feed, t)
  {
    var v := s.ServedValue(key);
    NormIsZeroLength(v);
    var inner := (w: Value) => if Size(w) == 0 || Size(w) > Size(v) then cont(Empty) else cont(w);
    HostGetFirst(feed, s, sim, key);
    var first := HostGet(feed, sim, key).1.(gas := sim.gas - 1);
    assert ReadOf(s, key) in first.rw.readSet;
    if Size(v) == 0 {
      t := first;
    } else {
      HostGetAgain(feed, s, first, key);
      t := first.(fetches := first.fetches + 1, gas := first.gas - 1);
      assert Simulate(GetState(key, inner), feed, first) == Simulate(cont(v), feed, t);
    }
  }

  lemma SimGetInt(key: Key, cont: int64 -> Prog, feed: nat -> Store, s: Store, sim: Sim) returns (t: Sim)
    requires Constant(feed, s) && NotTouched(sim.rw, key) && sim.gas >= 2 && Readable(s.ServedValue(key))
    ensures t.rw == sim.rw.(readSet := sim.rw.readSet + [ReadOf(s, key)]) && t.gas >= sim.gas - 2
    ensures Simulate(GetInt(key, cont), feed, sim) == Simulate(cont(AmountOf(s.ServedValue(key))), feed, t)
  {
    var parse := (v: Value) =>
      if v == Empty then cont(0)
      else match ParseInt(v)
        case Some(n) => cont(n)
        case None => Halt(false);
    t := SimFetch(key, parse, feed, s, sim);
    ParsesAmount(s.ServedValue(key), cont);
  }

  lemma ParsesAmount(v: Value, cont: int64 -> Prog)
    requires Readable(v)
    ensures (if Norm(v) == Empty then cont(0)
             else match ParseInt(Norm(v))
               case Some(n) => cont(n)
               case None => Halt(false)) == cont(AmountOf(v))
  {
  }

  lemma SimPut(key: Key, value: Value, next: Prog, feed: nat -> Store, sim: Sim) returns (t: Sim)
    requires (forall i | 0 <= i < |sim.rw.writeSet| :: sim.rw.writeSet[i].key != key) && sim.gas >= 1
    ensures t.rw == sim.rw.(writeSet := sim.rw.writeSet + [KVWrite(key, Decoded(value), false)]) && t.gas == sim.gas - 1
    ensures Simulate(PutState(key, value, next), feed, sim) == Simulate(next, feed, t)
  {
    NotFound(sim.rw.writeSet, key);
    t := sim.(rw := sim.rw.(writeSet := PutIn(sim.rw.writeSet, key, value)), gas := sim.gas - 1);
  }

  lemma HaltSim(feed: nat -> Store, sim: Sim)
    ensures Simulate(Halt(true), feed, sim) == (true, sim)
  {
  }
}
