/** The commit peer's world state: MVCC validation and application of blocks. */
module WorldStates {
  import opened Wrappers
  import opened Ledger
  import opened RwSets

  datatype Tx = Tx(txid: string, rw: Option<RW>)

  datatype Code = Valid | InvalidMVCC(conflict: Key)

  datatype TxApplyResult = TxApplyResult(txid: string, index: nat, code: Code)

  datatype BlockError = ReadFailed(key: Key) | BadHex(key: Key) | WriteFailed

  /** Database failures during one block: unreadable versions, failing batch write. */
  datatype Faults = Faults(unreadable: set<Key>, writeFails: bool)

  const NO_FAULTS := Faults({}, false)

  // ---- The simple form: one transaction at a time, on the store itself ----

  /** The first read whose version is not current. */
  function FirstConflict(readSet: seq<KVRead>, s: Store): Option<Key> {
    if readSet == [] then None
    else if s.GetVersion(readSet[0].key) != readSet[0].version then Some(readSet[0].key)
    else FirstConflict(readSet[1..], s)
  }

  function FirstMalformed(writeSet: seq<KVWrite>): Option<Key> {
    if writeSet == [] then None
    else if !writeSet[0].isDelete && writeSet[0].value.Malformed? then Some(writeSet[0].key)
    else FirstMalformed(writeSet[1..])
  }

  function CommitTx(s: Store, tx: Tx, height: int, i: nat): Result<(Store, Code), BlockError> {
    match tx.rw
    case None => Ok((s, Valid))
    case Some(rw) =>
      match FirstConflict(rw.readSet, s)
      case Some(key) => Ok((s, InvalidMVCC(key)))
      case None =>
        match FirstMalformed(rw.writeSet)
        case Some(key) => Err(BadHex(key))
        case None => Ok((ApplyWrites(s, rw.writeSet, AtBlock(height, i)), Valid))
  }

  /** The first `n` transactions of a block, checked and committed one by one. */
  function CommitUpTo(s: Store, txs: seq<Tx>, height: int, n: nat): Result<(Store, seq<TxApplyResult>), BlockError>
    requires n <= |txs|
  {
    if n == 0 then Ok((s, []))
    else
      match CommitUpTo(s, txs, height, n - 1)
      case Err(e) => Err(e)
      case Ok((t, results)) =>
        match CommitTx(t, txs[n - 1], height, n - 1)
        case Err(e) => Err(e)
        case Ok((u, code)) => Ok((u, results + [TxApplyResult(txs[n - 1].txid, n - 1, code)]))
  }

  function CommitBlock(s: Store, txs: seq<Tx>, height: int): Result<(Store, seq<TxApplyResult>), BlockError> {
    CommitUpTo(s, txs, height, |txs|)
  }

  // ---- What the results say ----

  /** The store after those of the first `n` transactions that are reported VALID. */
  function Applied(s: Store, txs: seq<Tx>, results: seq<TxApplyResult>, height: int, n: nat): Store
    requires n <= |txs| && n <= |results|
  {
    if n == 0 then s
    else
      var t := Applied(s, txs, results, height, n - 1);
      match txs[n - 1].rw
      case Some(rw) => if results[n - 1].code.Valid? then ApplyWrites(t, rw.writeSet, AtBlock(height, n - 1)) else t
      case None => t
  }

  /** VALID when every read version is current, or nothing was read or written; else the
      key of the first read that is not. */
  ghost predicate Judged(tx: Tx, live: Store, code: Code) {
    match code
    case Valid => tx.rw.Some? ==> forall r | r in tx.rw.value.readSet :: live.GetVersion(r.key) == r.version
    case InvalidMVCC(key) =>
      tx.rw.Some? && exists j | 0 <= j < |tx.rw.value.readSet| ::
        && tx.rw.value.readSet[j].key == key && live.GetVersion(key) != tx.rw.value.readSet[j].version
        && forall i | 0 <= i < j :: live.GetVersion(tx.rw.value.readSet[i].key) == tx.rw.value.readSet[i].version
  }

  /** Each transaction is reported once, in block order, under its own id and position,
      with the verdict on the state that the VALID ones before it left. */
  ghost predicate Reported(s: Store, txs: seq<Tx>, height: int, results: seq<TxApplyResult>) {
    && |results| <= |txs|
    && forall i | 0 <= i < |results| ::
         && results[i].txid == txs[i].txid && results[i].index == i
         && Judged(txs[i], Applied(s, txs, results, height, i), results[i].code)
  }

  lemma {:induction false} AppliedPrefix(s: Store, txs: seq<Tx>, r1: seq<TxApplyResult>, r2: seq<TxApplyResult>,
                                         height: int, n: nat)
    requires n <= |txs| && n <= |r1| && r1 <= r2
    ensures Applied(s, txs, r1, height, n) == Applied(s, txs, r2, height, n)
  {
    if n > 0 {
      AppliedPrefix(s, txs, r1, r2, height, n - 1);
    }
  }

  lemma {:induction false} FirstConflictIs(readSet: seq<KVRead>, s: Store) returns (j: nat)
    requires FirstConflict(readSet, s).Some?
    ensures j < |readSet| && readSet[j].key == FirstConflict(readSet, s).value
    ensures s.GetVersion(readSet[j].key) != readSet[j].version
    ensures forall i | 0 <= i < j :: s.GetVersion(readSet[i].key) == readSet[i].version
  {
    if s.GetVersion(readSet[0].key) != readSet[0].version {
      j := 0;
    } else {
      var k := FirstConflictIs(readSet[1..], s);
      j := k + 1;
      forall i | 0 <= i < j ensures s.GetVersion(readSet[i].key) == readSet[i].version {
        assert i > 0 ==> readSet[i] == readSet[1..][i - 1];
      }
    }
  }

  /** The verdict on one transaction, and what it leaves. */
  lemma CommitTxJudges(s: Store, tx: Tx, height: int, i: nat)
    requires CommitTx(s, tx, height, i).Ok?
    ensures var (t, code) := CommitTx(s, tx, height, i).value;
            && Judged(tx, s, code)
            && t == if code.Valid? && tx.rw.Some? then ApplyWrites(s, tx.rw.value.writeSet, AtBlock(height, i)) else s
  {
    if tx.rw.Some? {
      NoConflict(tx.rw.value.readSet, s);
      if FirstConflict(tx.rw.value.readSet, s).Some? {
        var j := FirstConflictIs(tx.rw.value.readSet, s);
      }
    }
  }

  lemma ReportOneMore(s: Store, txs: seq<Tx>, height: int, front: seq<TxApplyResult>, one: TxApplyResult)
    requires Reported(s, txs, height, front) && |front| < |txs|
    requires one.txid == txs[|front|].txid && one.index == |front|
    requires Judged(txs[|front|], Applied(s, txs, front, height, |front|), one.code)
    ensures Reported(s, txs, height, front + [one])
    ensures Applied(s, txs, front + [one], height, |front|) == Applied(s, txs, front, height, |front|)
  {
    hide Judged, Applied;
    var results := front + [one];
    forall i | 0 <= i <= |front| ensures Applied(s, txs, results, height, i) == Applied(s, txs, front, height, i) {
      AppliedPrefix(s, txs, front, results, height, i);
    }
  }

  lemma {:induction false} CommitReports(s: Store, txs: seq<Tx>, height: int, n: nat)
    requires n <= |txs| && CommitUpTo(s, txs, height, n).Ok?
    ensures var (t, results) := CommitUpTo(s, txs, height, n).value;
            |results| == n && Reported(s, txs, height, results) && t == Applied(s, txs, results, height, n)
  {
    hide CommitTx, Judged, Reported;
    if n == 0 {
      assert Reported(s, txs, height, []) by { NothingReported(s, txs, height); }
    } else {
      CommitReports(s, txs, height, n - 1);
      var (live, front) := CommitUpTo(s, txs, height, n - 1).value;
      CommitTxJudges(live, txs[n - 1], height, n - 1);
      var code := CommitTx(live, txs[n - 1], height, n - 1).value.1;
      ReportOneMore(s, txs, height, front, TxApplyResult(txs[n - 1].txid, n - 1, code));
    }
  }

  lemma NothingReported(s: Store, txs: seq<Tx>, height: int)
    ensures Reported(s, txs, height, [])
  {
  }

  lemma {:induction false} FirstMalformedIs(writeSet: seq<KVWrite>) returns (j: nat)
    requires FirstMalformed(writeSet).Some?
    ensures j < |writeSet| && writeSet[j].key == FirstMalformed(writeSet).value
    ensures !writeSet[j].isDelete && writeSet[j].value.Malformed?
    ensures forall i | 0 <= i < j :: writeSet[i].isDelete || writeSet[i].value.Decoded?
  {
    if !writeSet[0].isDelete && writeSet[0].value.Malformed? {
      j := 0;
    } else {
      var k := FirstMalformedIs(writeSet[1..]);
      j := k + 1;
      forall i | 0 <= i < j ensures writeSet[i].isDelete || writeSet[i].value.Decoded? {
        assert i > 0 ==> writeSet[i] == writeSet[1..][i - 1];
      }
    }
  }

  /** Some transaction whose reads are all current writes a value that is no hex text; the
      first such write of the first such transaction is the error. */
  ghost predicate Fails(s: Store, txs: seq<Tx>, height: int, results: seq<TxApplyResult>, error: BlockError) {
    && |results| < |txs| && Reported(s, txs, height, results)
    && var tx := txs[|results|];
       && Judged(tx, Applied(s, txs, results, height, |results|), Valid) && tx.rw.Some?
       && exists j | 0 <= j < |tx.rw.value.writeSet| ::
            && !tx.rw.value.writeSet[j].isDelete && tx.rw.value.writeSet[j].value.Malformed?
            && error == BadHex(tx.rw.value.writeSet[j].key)
            && forall i | 0 <= i < j :: tx.rw.value.writeSet[i].isDelete || tx.rw.value.writeSet[i].value.Decoded?
  }

  lemma {:induction false} CommitFails(s: Store, txs: seq<Tx>, height: int, n: nat)
      returns (results: seq<TxApplyResult>)
    requires n <= |txs| && CommitUpTo(s, txs, height, n).Err?
    ensures Fails(s, txs, height, results, CommitUpTo(s, txs, height, n).error)
  {
    hide Applied;
    if CommitUpTo(s, txs, height, n - 1).Err? {
      results := CommitFails(s, txs, height, n - 1);
    } else {
      results := CommitUpTo(s, txs, height, n - 1).value.1;
      CommitReports(s, txs, height, n - 1);
      var tx, live := txs[n - 1], CommitUpTo(s, txs, height, n - 1).value.0;
      NoConflict(tx.rw.value.readSet, live);
      var j := FirstMalformedIs(tx.rw.value.writeSet);
    }
  }

  lemma {:induction false} ErrorPersists(s: Store, txs: seq<Tx>, height: int, n: nat, m: nat)
    requires n <= m <= |txs| && CommitUpTo(s, txs, height, n).Err?
    ensures CommitUpTo(s, txs, height, m) == CommitUpTo(s, txs, height, n)
    decreases m
  {
    if n < m {
      ErrorPersists(s, txs, height, n, m - 1);
    }
  }

  // ---- The deferred batch ----

  datatype BatchOp = PutValue(key: Key, value: Value) | PutVersion(key: Key, version: Version)
                   | DeleteValue(key: Key) | DeleteVersion(key: Key)

  function ApplyOp(s: Store, op: BatchOp): Store {
    match op
    case PutValue(k, v) => s.(kv := s.kv[k := v])
    case PutVersion(k, v) => s.(ver := s.ver[k := v])
    case DeleteValue(k) => s.(kv := s.kv - {k})
    case DeleteVersion(k) => s.(ver := s.ver - {k})
  }

  function ApplyBatch(s: Store, batch: seq<BatchOp>): Store {
    if batch == [] then s
    else ApplyOp(ApplyBatch(s, batch[..|batch| - 1]), batch[|batch| - 1])
  }

  lemma BatchOne(s: Store, batch: seq<BatchOp>, a: BatchOp)
    ensures ApplyBatch(s, batch + [a]) == ApplyOp(ApplyBatch(s, batch), a)
  {
    hide ApplyOp;
    assert (batch + [a])[..|batch|] == batch;
  }

  lemma BatchPair(s: Store, batch: seq<BatchOp>, a: BatchOp, b: BatchOp)
    ensures ApplyBatch(s, batch + [a, b]) == ApplyOp(ApplyOp(ApplyBatch(s, batch), a), b)
  {
    hide ApplyOp, ApplyBatch;
    BatchOne(s, batch, a);
    BatchOne(s, batch + [a], b);
    assert batch + [a, b] == batch + [a] + [b];
  }

  lemma {:induction false} FirstConflictSplit(readSet: seq<KVRead>, s: Store, i: nat)
    requires i < |readSet| && forall j | 0 <= j < i :: s.GetVersion(readSet[j].key) == readSet[j].version
    ensures s.GetVersion(readSet[i].key) != readSet[i].version ==> FirstConflict(readSet, s) == Some(readSet[i].key)
  {
    if i > 0 {
      assert s.GetVersion(readSet[0].key) == readSet[0].version;
      FirstConflictSplit(readSet[1..], s, i - 1);
    }
  }

  lemma {:induction false} NoConflict(readSet: seq<KVRead>, s: Store)
    ensures FirstConflict(readSet, s).None? <==> forall r | r in readSet :: s.GetVersion(r.key) == r.version
  {
    if readSet != [] {
      NoConflict(readSet[1..], s);
      assert readSet == [readSet[0]] + readSet[1..];
    }
  }

  lemma {:induction false} FirstMalformedSplit(writeSet: seq<KVWrite>, i: nat)
    requires i <= |writeSet| && forall j | 0 <= j < i :: writeSet[j].isDelete || writeSet[j].value.Decoded?
    ensures i == |writeSet| ==> FirstMalformed(writeSet).None?
    ensures i < |writeSet| && !writeSet[i].isDelete && writeSet[i].value.Malformed? ==>
              FirstMalformed(writeSet) == Some(writeSet[i].key)
  {
    if i > 0 {
      assert writeSet[0].isDelete || writeSet[0].value.Decoded?;
      FirstMalformedSplit(writeSet[1..], i - 1);
    }
  }

  // ---- The memoised form ----

  /** The version overlay is right where it has an entry; elsewhere the database is. */
  ghost predicate LiveAgrees(live: map<Key, Version>, db: Store, cur: Store) {
    forall k: Key :: cur.GetVersion(k) == if k in live then live[k] else db.GetVersion(k)
  }

  lemma NoWrites(s: Store, writeSet: seq<KVWrite>, version: Version)
    ensures ApplyWrites(s, writeSet[..0], version) == s
  {
  }

  lemma WritesOneMore(s: Store, writeSet: seq<KVWrite>, version: Version, i: nat)
    requires i < |writeSet|
    ensures ApplyWrites(s, writeSet[..i + 1], version) ==
              ApplyWrite(ApplyWrites(s, writeSet[..i], version), writeSet[i], version)
  {
    hide ApplyWrite;
    assert writeSet[..i + 1][..i] == writeSet[..i];
  }

  lemma QueuesDelete(live: map<Key, Version>, db: Store, cur: Store, w: KVWrite, version: Version)
    requires w.isDelete && LiveAgrees(live, db, cur)
    ensures ApplyOp(ApplyOp(cur, DeleteValue(w.key)), DeleteVersion(w.key)) == ApplyWrite(cur, w, version)
    ensures LiveAgrees(live[w.key := NoVersion], db, ApplyWrite(cur, w, version))
  {
  }

  lemma QueuesPut(live: map<Key, Version>, db: Store, cur: Store, w: KVWrite, version: Version)
    requires !w.isDelete && w.value.Decoded? && LiveAgrees(live, db, cur)
    ensures ApplyOp(ApplyOp(cur, PutValue(w.key, w.value.value)), PutVersion(w.key, version)) ==
              ApplyWrite(cur, w, version)
    ensures LiveAgrees(live[w.key := version], db, ApplyWrite(cur, w, version))
  {
  }

  class WorldState {
    var db: Store

    constructor ()
      ensures db == EMPTY_STORE
    {
      db := EMPTY_STORE;
    }

    /** Current version through the overlay, which remembers what it read. */
    method GetVer(live: map<Key, Version>, key: Key, faults: Faults, ghost cur: Store)
      returns (r: Result<Version, BlockError>, live': map<Key, Version>)
      requires LiveAgrees(live, db, cur)
      ensures LiveAgrees(live', db, cur)
      ensures r.Ok? ==> r.value == cur.GetVersion(key)
      ensures r.Err? ==> key in faults.unreadable && r.error == ReadFailed(key)
    {
      if key in live {
        return Ok(live[key]), live;
      }
      if key in faults.unreadable {
        return Err(ReadFailed(key)), live;
      }
      var v := db.GetVersion(key);
      return Ok(v), live[key := v];
    }

    method CheckReadSet(readSet: seq<KVRead>, live: map<Key, Version>, faults: Faults, ghost cur: Store)
      returns (r: Result<Option<Key>, BlockError>, live': map<Key, Version>)
      requires LiveAgrees(live, db, cur)
      ensures LiveAgrees(live', db, cur)
      ensures r.Ok? ==> r.value == FirstConflict(readSet, cur)
      ensures r.Err? ==> faults.unreadable != {}
    {
      live' := live;
      for i := 0 to |readSet|
        invariant LiveAgrees(live', db, cur)
        invariant forall j | 0 <= j < i :: cur.GetVersion(readSet[j].key) == readSet[j].version
      {
        var v;
        v, live' := GetVer(live', readSet[i].key, faults, cur);
        match v {
          case Err(e) => return Err(e), live';
          case Ok(version) =>
            if version != readSet[i].version {
              FirstConflictSplit(readSet, cur, i);
              return Ok(Some(readSet[i].key)), live';
            }
        }
      }
      NoConflict(readSet, cur);
      r := Ok(None);
    }

    /** Queues the writes of one valid transaction and updates the overlay. */
    method QueueWrites(writeSet: seq<KVWrite>, version: Version, batch: seq<BatchOp>, live: map<Key, Version>,
                       ghost cur: Store)
      returns (r: Result<(), BlockError>, batch': seq<BatchOp>, live': map<Key, Version>)
      requires LiveAgrees(live, db, cur) && ApplyBatch(db, batch) == cur
      ensures r.Ok? ==>
                && FirstMalformed(writeSet).None?
                && LiveAgrees(live', db, ApplyWrites(cur, writeSet, version))
                && ApplyBatch(db, batch') == ApplyWrites(cur, writeSet, version)
      ensures r.Err? ==> FirstMalformed(writeSet).Some? && r.error == BadHex(FirstMalformed(writeSet).value)
    {
      hide ApplyBatch, ApplyWrites, ApplyWrite, ApplyOp, LiveAgrees;
      batch', live' := batch, live;
      NoWrites(cur, writeSet, version);
      for i := 0 to |writeSet|
        invariant forall j | 0 <= j < i :: writeSet[j].isDelete || writeSet[j].value.Decoded?
        invariant LiveAgrees(live', db, ApplyWrites(cur, writeSet[..i], version))
        invariant ApplyBatch(db, batch') == ApplyWrites(cur, writeSet[..i], version)
      {
        var w := writeSet[i];
        WritesOneMore(cur, writeSet, version, i);
        if w.isDelete {
          BatchPair(db, batch', DeleteValue(w.key), DeleteVersion(w.key));
          QueuesDelete(live', db, ApplyWrites(cur, writeSet[..i], version), w, version);
          batch' := batch' + [DeleteValue(w.key), DeleteVersion(w.key)];
          live' := live'[w.key := NoVersion];
          continue;
        }
        match w.value {
          case Malformed =>
            FirstMalformedSplit(writeSet, i);
            return Err(BadHex(w.key)), batch', live';
          case Decoded(raw) =>
            BatchPair(db, batch', PutValue(w.key, raw), PutVersion(w.key, version));
            QueuesPut(live', db, ApplyWrites(cur, writeSet[..i], version), w, version);
            batch' := batch' + [PutValue(w.key, raw), PutVersion(w.key, version)];
            live' := live'[w.key := version];
        }
      }
      FirstMalformedSplit(writeSet, |writeSet|);
      assert writeSet[..|writeSet|] == writeSet;
      r := Ok(());
    }

    /** MVCC for each transaction in order, one deferred batch, fresh versions. */
    method ApplyBlock(txs: seq<Tx>, height: int, faults: Faults) returns (r: Result<seq<TxApplyResult>, BlockError>)
      modifies this
      ensures r.Ok? ==> CommitBlock(old(db), txs, height) == Ok((db, r.value))
      ensures r.Ok? ==>
                && |r.value| == |txs| && Reported(old(db), txs, height, r.value)
                && db == Applied(old(db), txs, r.value, height, |txs|)
      ensures r.Err? && faults == NO_FAULTS ==> exists results :: Fails(old(db), txs, height, results, r.error)
      ensures r.Err? ==> db == old(db)
      ensures r.Err? && faults == NO_FAULTS ==> CommitBlock(old(db), txs, height) == Err(r.error)
    {
      var batch: seq<BatchOp> := [];
      var results: seq<TxApplyResult> := [];
      var live: map<Key, Version> := map[];
      ghost var cur := db;
      for i := 0 to |txs|
        invariant db == old(db)
        invariant CommitUpTo(db, txs, height, i) == Ok((cur, results))
        invariant LiveAgrees(live, db, cur) && ApplyBatch(db, batch) == cur
      {
        match txs[i].rw {
          case None =>
            results := results + [TxApplyResult(txs[i].txid, i, Valid)];
          case Some(rw) =>
            var conflict;
            conflict, live := CheckReadSet(rw.readSet, live, faults, cur);
            match conflict {
              case Err(e) => return Err(e);
              case Ok(Some(key)) =>
                results := results + [TxApplyResult(txs[i].txid, i, InvalidMVCC(key))];
              case Ok(None) =>
                var q;
                q, batch, live := QueueWrites(rw.writeSet, AtBlock(height, i), batch, live, cur);
                if q.Err? {
                  ErrorPersists(db, txs, height, i + 1, |txs|);
                  ghost var reported := CommitFails(db, txs, height, |txs|);
                  return Err(q.error);
                }
                cur := ApplyWrites(cur, rw.writeSet, AtBlock(height, i));
                results := results + [TxApplyResult(txs[i].txid, i, Valid)];
            }
        }
      }
      if faults.writeFails {
        return Err(WriteFailed);
      }
      CommitReports(db, txs, height, |txs|);
      db := ApplyBatch(db, batch);
      r := Ok(results);
    }

    /** Admin and mint path; `version` is the fresh "admin:<nanos>:<n>". */
    method PutKV(key: Key, value: Value, version: Version)
      modifies this
      ensures db == old(db).Put(key, value, version)
    {
      var batch := [PutValue(key, value), PutVersion(key, version)];
      BatchPair(db, [], batch[0], batch[1]);
      assert [] + batch == batch;
      db := ApplyBatch(db, batch);
    }

    method DeleteKV(key: Key)
      modifies this
      ensures db == old(db).Delete(key)
    {
      var batch := [DeleteValue(key), DeleteVersion(key)];
      BatchPair(db, [], batch[0], batch[1]);
      assert [] + batch == batch;
      db := ApplyBatch(db, batch);
    }
  }
}
