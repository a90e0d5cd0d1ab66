/** Read/write sets collected while a contract is simulated. */
module RwSets {
  import opened Wrappers
  import opened Ledger

  datatype KVRead = KVRead(key: Key, version: Version, value: Value)

  /** The hex text of a write: it decodes to a value or it is malformed. */
  datatype Hex = Decoded(value: Value) | Malformed

  datatype KVWrite = KVWrite(key: Key, value: Hex, isDelete: bool)

  datatype RW = RW(readSet: seq<KVRead>, writeSet: seq<KVWrite>)

  /** What the write-set overlay says about a key. */
  datatype Overlay = NotWritten | Deleted | Written(value: Value)

  ghost predicate UniqueWrites(writeSet: seq<KVWrite>) {
    forall i, j | 0 <= i < j < |writeSet| :: writeSet[i].key != writeSet[j].key
  }

  ghost predicate UniqueReads(readSet: seq<KVRead>) {
    forall i, j | 0 <= i < j < |readSet| :: readSet[i].key != readSet[j].key
  }

  /** The first position at or after `from` that writes `key`, or the length. */
  function FindWriteFrom(writeSet: seq<KVWrite>, key: Key, from: nat): (i: nat)
    requires from <= |writeSet|
    ensures from <= i <= |writeSet|
    ensures i < |writeSet| ==> writeSet[i].key == key
    ensures forall j | from <= j < i :: writeSet[j].key != key
    decreases |writeSet| - from
  {
    if from == |writeSet| || writeSet[from].key == key then from
    else FindWriteFrom(writeSet, key, from + 1)
  }

  function FindWrite(writeSet: seq<KVWrite>, key: Key): nat {
    FindWriteFrom(writeSet, key, 0)
  }

  function Upsert(writeSet: seq<KVWrite>, w: KVWrite): seq<KVWrite> {
    var i := FindWrite(writeSet, w.key);
    if i < |writeSet| then writeSet[i := w] else writeSet + [w]
  }

  function PutIn(writeSet: seq<KVWrite>, key: Key, value: Value): seq<KVWrite> {
    Upsert(writeSet, KVWrite(key, Decoded(value), false))
  }

  function DeleteIn(writeSet: seq<KVWrite>, key: Key): seq<KVWrite> {
    Upsert(writeSet, KVWrite(key, Decoded(Empty), true))
  }

  function LookupIn(writeSet: seq<KVWrite>, key: Key): Overlay {
    var i := FindWrite(writeSet, key);
    if i == |writeSet| then NotWritten
    else if writeSet[i].isDelete then Deleted
    else match writeSet[i].value
      case Decoded(v) => Written(v)
      case Malformed => NotWritten
  }

  function RecordIn(readSet: seq<KVRead>, key: Key, value: Value, version: Version): seq<KVRead> {
    if exists r | r in readSet :: r.key == key then readSet
    else readSet + [KVRead(key, version, value)]
  }

  /** The read/write set that the host functions fill during one simulation. */
  class RWSet {
    var Reads: seq<KVRead>
    var Writes: seq<KVWrite>

    constructor ()
      ensures Reads == [] && Writes == []
    {
      Reads, Writes := [], [];
    }

    /** Upserts by key: the last write wins, in the place of the first. */
    method PutWrite(key: Key, val: Value)
      modifies this`Writes
      ensures Writes == PutIn(old(Writes), key, val)
      ensures KVWrite(key, Decoded(val), false) in Writes
    {
      for i := 0 to |Writes|
        invariant Writes == old(Writes)
        invariant forall j | 0 <= j < i :: Writes[j].key != key
      {
        if Writes[i].key == key {
          Writes := Writes[i := Writes[i].(value := Decoded(val), isDelete := false)];
          assert Writes[i] == KVWrite(key, Decoded(val), false);
          return;
        }
      }
      Writes := Writes + [KVWrite(key, Decoded(val), false)];
    }

    method DeleteWrite(key: Key)
      modifies this`Writes
      ensures Writes == DeleteIn(old(Writes), key)
      ensures KVWrite(key, Decoded(Empty), true) in Writes
    {
      for i := 0 to |Writes|
        invariant Writes == old(Writes)
        invariant forall j | 0 <= j < i :: Writes[j].key != key
      {
        if Writes[i].key == key {
          Writes := Writes[i := Writes[i].(value := Decoded(Empty), isDelete := true)];
          assert Writes[i] == KVWrite(key, Decoded(Empty), true);
          return;
        }
      }
      Writes := Writes + [KVWrite(key, Decoded(Empty), true)];
    }

    method LookupWrite(key: Key) returns (o: Overlay)
      ensures o == LookupIn(Writes, key)
    {
      for i := 0 to |Writes|
        invariant forall j | 0 <= j < i :: Writes[j].key != key
      {
        if Writes[i].key != key {
          continue;
        }
        if Writes[i].isDelete {
          return Deleted;
        }
        match Writes[i].value
        case Decoded(v) => return Written(v);
        case Malformed => return NotWritten;
      }
      return NotWritten;
    }

    /** Keeps the first read of a key only. */
    method RecordRead(key: Key, val: Value, version: Version)
      modifies this`Reads
      ensures Reads == RecordIn(old(Reads), key, val, version)
      ensures (forall i | 0 <= i < |old(Reads)| :: old(Reads)[i].key != key) ==>
                Reads == old(Reads) + [KVRead(key, version, val)]
      ensures (exists i | 0 <= i < |old(Reads)| :: old(Reads)[i].key == key) ==> Reads == old(Reads)
    {
      for i := 0 to |Reads|
        invariant Reads == old(Reads)
        invariant forall j | 0 <= j < i :: Reads[j].key != key
      {
        if Reads[i].key == key {
          return;
        }
      }
      Reads := Reads + [KVRead(key, version, val)];
    }
  }

  lemma UpsertKeepsUnique(writeSet: seq<KVWrite>, w: KVWrite)
    requires UniqueWrites(writeSet)
    ensures UniqueWrites(Upsert(writeSet, w))
    ensures forall x | x in Upsert(writeSet, w) :: x == w || x in writeSet
  {
  }

  /** An upsert replaces the first write of its key where it stands; without one it goes to
      the end. */
  lemma UpsertPlaces(writeSet: seq<KVWrite>, w: KVWrite)
    ensures (forall x | x in writeSet :: x.key != w.key) ==> Upsert(writeSet, w) == writeSet + [w]
    ensures forall i | 0 <= i < |writeSet| && writeSet[i].key == w.key
                       && (forall j | 0 <= j < i :: writeSet[j].key != w.key) ::
              Upsert(writeSet, w) == writeSet[..i] + [w] + writeSet[i + 1..]
  {
    var k := FindWrite(writeSet, w.key);
    forall i | 0 <= i < |writeSet| && writeSet[i].key == w.key && (forall j | 0 <= j < i :: writeSet[j].key != w.key)
      ensures Upsert(writeSet, w) == writeSet[..i] + [w] + writeSet[i + 1..]
    {
      assert k == i;
    }
  }

  lemma RecordKeepsUnique(readSet: seq<KVRead>, key: Key, value: Value, version: Version)
    requires UniqueReads(readSet)
    ensures UniqueReads(RecordIn(readSet, key, value, version))
  {
  }

  // ---- Effect of a write set on a store ----

  function ApplyWrite(s: Store, w: KVWrite, version: Version): Store {
    if w.isDelete then s.Delete(w.key)
    else match w.value
      case Decoded(v) => s.Put(w.key, v, version)
      case Malformed => s
  }

  /** The writes in list order, each stamped with `version`. */
  function ApplyWrites(s: Store, writeSet: seq<KVWrite>, version: Version): Store {
    if writeSet == [] then s
    else
      var n := |writeSet| - 1;
      ApplyWrite(ApplyWrites(s, writeSet[..n], version), writeSet[n], version)
  }

  /** A store shows a write: its value with the stamp, or nothing after a delete. */
  predicate Shows(t: Store, w: KVWrite, version: Version) {
    && (w.isDelete ==> t.GetKV(w.key) == None && t.GetVersion(w.key) == NoVersion)
    && (!w.isDelete && w.value.Decoded? ==> t.GetKV(w.key) == Some(w.value.value) && t.GetVersion(w.key) == version)
  }

  predicate Alike(s: Store, t: Store, k: Key) {
    t.GetKV(k) == s.GetKV(k) && t.GetVersion(k) == s.GetVersion(k)
  }

  lemma OneWriteShows(s: Store, w: KVWrite, version: Version, k: Key)
    ensures Shows(ApplyWrite(s, w, version), w, version)
    ensures w.key != k ==> Alike(s, ApplyWrite(s, w, version), k)
  {
  }

  /** The last write of a key decides, and a key that is not written keeps what it had. */
  lemma {:induction false} LastWriteDecides(s: Store, writeSet: seq<KVWrite>, version: Version, k: Key)
    ensures (forall w | w in writeSet :: w.key != k) ==> Alike(s, ApplyWrites(s, writeSet, version), k)
    ensures forall i | 0 <= i < |writeSet| && writeSet[i].key == k
                       && (forall j | i < j < |writeSet| :: writeSet[j].key != k) ::
              Shows(ApplyWrites(s, writeSet, version), writeSet[i], version)
  {
    hide ApplyWrite, Store.GetKV, Store.GetVersion;
    if writeSet != [] {
      var n := |writeSet| - 1;
      LastWriteDecides(s, writeSet[..n], version, k);
      OneWriteShows(ApplyWrites(s, writeSet[..n], version), writeSet[n], version, k);
      forall i | 0 <= i < |writeSet| && writeSet[i].key == k && (forall j | i < j < |writeSet| :: writeSet[j].key != k)
        ensures Shows(ApplyWrites(s, writeSet, version), writeSet[i], version)
      {
        if i < n {
          assert writeSet[n].key != k && writeSet[..n][i] == writeSet[i];
        }
      }
    }
  }

  /** Writes produced by the simulation host: decodable, never a delete. */
  ghost predicate PutsOnly(writeSet: seq<KVWrite>) {
    forall w | w in writeSet :: !w.isDelete && w.value.Decoded?
  }

  lemma PutsCommute(s: Store, w: KVWrite, x: KVWrite, version: Version)
    requires w.key != x.key
    requires !w.isDelete && w.value.Decoded? && !x.isDelete && x.value.Decoded?
    ensures ApplyWrite(ApplyWrite(s, w, version), x, version) == ApplyWrite(ApplyWrite(s, x, version), w, version)
  {
    assert s.kv[w.key := w.value.value][x.key := x.value.value] == s.kv[x.key := x.value.value][w.key := w.value.value];
    assert s.ver[w.key := version][x.key := version] == s.ver[x.key := version][w.key := version];
  }

  lemma PutTwice(s: Store, w: KVWrite, x: KVWrite, version: Version)
    requires w.key == x.key
    requires !w.isDelete && w.value.Decoded? && !x.isDelete && x.value.Decoded?
    ensures ApplyWrite(ApplyWrite(s, x, version), w, version) == ApplyWrite(s, w, version)
  {
    assert s.kv[w.key := x.value.value][w.key := w.value.value] == s.kv[w.key := w.value.value];
    assert s.ver[w.key := version][w.key := version] == s.ver[w.key := version];
  }

  /** Overwriting in place has the effect of writing once more at the end. */
  lemma {:induction false} ReplaceIsAppend(s: Store, writeSet: seq<KVWrite>, i: nat, w: KVWrite, version: Version)
    requires UniqueWrites(writeSet) && PutsOnly(writeSet)
    requires i < |writeSet| && writeSet[i].key == w.key && !w.isDelete && w.value.Decoded?
    ensures ApplyWrites(s, writeSet[i := w], version) == ApplyWrite(ApplyWrites(s, writeSet, version), w, version)
  {
    hide ApplyWrite;
    var n := |writeSet| - 1;
    var front, last := writeSet[..n], writeSet[n];
    assert last in writeSet;
    var t := ApplyWrites(s, front, version);
    if i == n {
      assert writeSet[i := w][..n] == front;
      PutTwice(t, w, last, version);
    } else {
      assert PutsOnly(front) by { assert forall x | x in front :: x in writeSet; }
      ReplaceIsAppend(s, front, i, w, version);
      assert writeSet[i := w][..n] == front[i := w];
      PutsCommute(t, w, last, version);
    }
  }

  /** `PutWrite` on the list is `Put` on the store the list describes. */
  lemma PutInIsPut(s: Store, writeSet: seq<KVWrite>, key: Key, value: Value, version: Version)
    requires UniqueWrites(writeSet) && PutsOnly(writeSet)
    ensures UniqueWrites(PutIn(writeSet, key, value)) && PutsOnly(PutIn(writeSet, key, value))
    ensures ApplyWrites(s, PutIn(writeSet, key, value), version) ==
              ApplyWrites(s, writeSet, version).Put(key, value, version)
  {
    var w := KVWrite(key, Decoded(value), false);
    UpsertKeepsUnique(writeSet, w);
    var i := FindWrite(writeSet, key);
    if i < |writeSet| {
      ReplaceIsAppend(s, writeSet, i, w, version);
    } else {
      assert (writeSet + [w])[..|writeSet|] == writeSet;
    }
  }

  /** The overlay, seen from the last write. */
  lemma LookupLast(writeSet: seq<KVWrite>, key: Key)
    requires UniqueWrites(writeSet) && writeSet != []
    ensures var n := |writeSet| - 1;
            var w := writeSet[n];
            LookupIn(writeSet, key) ==
              if w.key != key then LookupIn(writeSet[..n], key)
              else if w.isDelete then Deleted
              else if w.value.Decoded? then Written(w.value.value)
              else NotWritten
  {
    var n := |writeSet| - 1;
    var i, j := FindWrite(writeSet, key), FindWrite(writeSet[..n], key);
    assert writeSet[n].key != key ==> (j < n <==> i < n + 1) && (j < n ==> i == j);
  }

  lemma FrontPutsOnly(writeSet: seq<KVWrite>)
    requires PutsOnly(writeSet) && writeSet != []
    ensures PutsOnly(writeSet[..|writeSet| - 1])
    ensures var w := writeSet[|writeSet| - 1]; !w.isDelete && w.value.Decoded?
  {
    assert forall x | x in writeSet[..|writeSet| - 1] :: x in writeSet;
  }

  /** The overlay answers exactly what the store with the writes applied would. */
  lemma {:induction false} OverlayIsApplied(s: Store, writeSet: seq<KVWrite>, key: Key, version: Version)
    requires UniqueWrites(writeSet) && PutsOnly(writeSet)
    ensures LookupIn(writeSet, key) != Deleted
    ensures var t := ApplyWrites(s, writeSet, version);
            match LookupIn(writeSet, key)
            case NotWritten =>
              && t.Observe(key) == s.Observe(key)
              && t.GetVersion(key) == s.GetVersion(key)
              && (key in t.kv <==> key in s.kv)
            case Deleted => true
            case Written(v) => t.Observe(key) == v && t.GetVersion(key) == version
  {
    hide LookupIn, ApplyWrite, UniqueWrites, PutsOnly;
    if writeSet == [] {
      assert LookupIn(writeSet, key) == NotWritten by { NothingWritten(key); }
    } else {
      var n := |writeSet| - 1;
      FrontPutsOnly(writeSet);
      FrontUnique(writeSet);
      LookupLast(writeSet, key);
      OverlayIsApplied(s, writeSet[..n], key, version);
      PutSeen(ApplyWrites(s, writeSet[..n], version), writeSet[n], key, version);
    }
  }

  lemma NothingWritten(key: Key)
    ensures LookupIn([], key) == NotWritten
  {
  }

  lemma FrontUnique(writeSet: seq<KVWrite>)
    requires UniqueWrites(writeSet) && writeSet != []
    ensures UniqueWrites(writeSet[..|writeSet| - 1])
  {
  }

  /** One write, seen by the store it is applied to. */
  lemma PutSeen(s: Store, w: KVWrite, key: Key, version: Version)
    requires !w.isDelete && w.value.Decoded?
    ensures w.key == key ==>
              ApplyWrite(s, w, version).Observe(key) == w.value.value
                && ApplyWrite(s, w, version).GetVersion(key) == version
    ensures w.key != key ==>
              var t := ApplyWrite(s, w, version);
              && t.Observe(key) == s.Observe(key) && t.GetVersion(key) == s.GetVersion(key)
              && (key in t.kv <==> key in s.kv)
  {
  }

  /** What a key may look like after writes stamped with `version`. */
  ghost predicate Framed(s: Store, t: Store, version: Version, key: Key) {
    || (t.GetKV(key) == s.GetKV(key) && t.GetVersion(key) == s.GetVersion(key))
    || t.GetVersion(key) == version
    || t.GetVersion(key) == NoVersion
  }

  lemma ApplyWriteFrame(s: Store, w: KVWrite, version: Version, key: Key)
    requires version != NoVersion
    ensures s.WellFormed() ==> ApplyWrite(s, w, version).WellFormed()
    ensures var t := ApplyWrite(s, w, version);
            if w.key != key then t.GetKV(key) == s.GetKV(key) && t.GetVersion(key) == s.GetVersion(key)
            else t == s || t.GetVersion(key) == version || t.GetVersion(key) == NoVersion
    ensures !w.isDelete && key in s.kv ==> key in ApplyWrite(s, w, version).kv
  {
  }

  /** Applying a write set changes only written keys, and stamps those. */
  lemma {:induction false} ApplyWritesFrame(s: Store, writeSet: seq<KVWrite>, version: Version, key: Key)
    requires version != NoVersion
    ensures s.WellFormed() ==> ApplyWrites(s, writeSet, version).WellFormed()
    ensures Framed(s, ApplyWrites(s, writeSet, version), version, key)
    ensures PutsOnly(writeSet) && key in s.kv ==> key in ApplyWrites(s, writeSet, version).kv
  {
    if writeSet != [] {
      var n := |writeSet| - 1;
      ApplyWritesFrame(s, writeSet[..n], version, key);
      ApplyWriteFrame(ApplyWrites(s, writeSet[..n], version), writeSet[n], version, key);
      if PutsOnly(writeSet) {
        FrontPutsOnly(writeSet);
      }
    }
  }
}
