/** What the simulation of a call may read and write, and what that keeps of every
    state of a run. */
module Footprints {
  import opened Ledger
  import opened Texts
  import opened RwSets
  import opened Simulation
  import opened WorldStates
  import opened Histories
  import opened Contracts

  predicate CleanText(s: string) {
    TrimRight(s) == s
  }

  /** Names that no contract accepts for an account, or that are not the treasury's
      name with white space after it. */
  predicate Harmless(name: string) {
    ByteLen(name) == 40 ==> TrimRight(name) != TREASURY
  }

  predicate AccountKey(k: Key) {
    k.Balance? || k.Loyalty? || k.Discount?
  }

  /** The escrow id of a call, empty for other calls. */
  function IdOf(c: Call): string {
    match c
    case Escrow(_, Some(p)) => p.id
    case _ => ""
  }

  /** The account names in a call satisfy `used`. */
  predicate CallUses(c: Call, used: string -> bool) {
    match c
    case Transfer(_, Some(p)) => used(p.from) && used(p.to)
    case LoyaltyXfer(_, Some(p)) => used(p.from) && used(p.to)
    case DoubleCredit(_, Some(p)) => used(p.from) && used(p.to)
    case QtyCredit(_, Some(p)) => used(p.from) && used(p.to)
    case Escrow(_, Some(p)) => p.action == "lock" ==> used(p.from) && used(p.to)
    case _ => true
  }

  /** The parties of a stored escrow are accounts that a payout will read. */
  predicate ValueUses(v: Value, used: string -> bool) {
    v.EscrowRec? ==> used(v.from) && used(v.to)
  }

  ghost predicate StoreUses(s: Store, used: string -> bool) {
    forall k | k in s.kv :: ValueUses(s.kv[k], used)
  }

  /** A call's escrow id and the account names in use. */
  datatype Scope = Scope(id: string, used: string -> bool)

  predicate MayRead(k: Key, sc: Scope) {
    || (AccountKey(k) && sc.used(Suffix(k)) && ByteLen(Suffix(k)) == 40)
    || k == Balance(TREASURY)
    || k == EscrowOf(sc.id)
  }

  predicate MayWrite(k: Key, v: Value, sc: Scope) {
    && ValueUses(v, sc.used)
    && (AccountKey(k) ==> ByteLen(Suffix(k)) == 40 || k == Balance(TREASURY))
    && (k.EscrowOf? ==> k == EscrowOf(sc.id) && sc.id != "")
  }

  ghost predicate Within(rw: RW, sc: Scope) {
    && (forall r | r in rw.readSet :: MayRead(r.key, sc))
    && (forall i | 0 <= i < |rw.writeSet| :: WriteWithin(rw.writeSet[i], sc))
  }

  predicate WriteWithin(w: KVWrite, sc: Scope) {
    !w.isDelete && w.value.Decoded? && MayWrite(w.key, w.value.value, sc)
  }

  /** As long as it reads values of the scope, the program stays in the scope. */
  ghost predicate Keeps(p: Prog, sc: Scope, gas: nat)
    decreases gas
  {
    match p
    case Halt(_) => true
    case GetState(key, cont) =>
      MayRead(key, sc) && (gas > 0 ==> forall v | ValueUses(v, sc.used) :: Keeps(cont(v), sc, gas - 1))
    case PutState(key, value, next) => MayWrite(key, value, sc) && (gas > 0 ==> Keeps(next, sc, gas - 1))
  }

  ghost predicate Stays(p: Prog, sc: Scope) {
    forall gas: nat :: Keeps(p, sc, gas)
  }

  // ---- Simulations of such programs ----

  ghost predicate FeedUses(feed: nat -> Store, used: string -> bool) {
    forall n: nat :: StoreUses(feed(n), used)
  }

  lemma HostGetWithin(feed: nat -> Store, s: Sim, key: Key, sc: Scope)
    requires FeedUses(feed, sc.used) && Within(s.rw, sc) && MayRead(key, sc)
    ensures var (v, t) := HostGet(feed, s, key); ValueUses(v, sc.used) && Within(t.rw, sc)
  {
    assert StoreUses(feed(s.fetches), sc.used);
    var i := FindWrite(s.rw.writeSet, key);
    assert i < |s.rw.writeSet| ==> WriteWithin(s.rw.writeSet[i], sc);
  }

  lemma {:induction false} SimulateWithin(p: Prog, feed: nat -> Store, s: Sim, sc: Scope)
    requires FeedUses(feed, sc.used) && Within(s.rw, sc) && Keeps(p, sc, s.gas)
    ensures Within(Simulate(p, feed, s).1.rw, sc)
    decreases s.gas
  {
    match p
    case Halt(_) =>
    case GetState(key, cont) =>
      if s.gas > 0 {
        HostGetWithin(feed, s, key, sc);
        var (v, t) := HostGet(feed, s, key);
        SimulateWithin(cont(v), feed, t.(gas := s.gas - 1), sc);
      }
    case PutState(key, value, next) =>
      if s.gas > 0 {
        var w := KVWrite(key, Decoded(value), false);
        var u := s.(rw := s.rw.(writeSet := Upsert(s.rw.writeSet, w)), gas := s.gas - 1);
        assert WriteWithin(w, sc);
        SimulateWithin(next, feed, u, sc);
      }
  }

  // ---- The contracts are such programs ----

  lemma GetStays(key: Key, cont: Value -> Prog, sc: Scope)
    requires MayRead(key, sc) && forall v | ValueUses(v, sc.used) :: Stays(cont(v), sc)
    ensures Stays(GetState(key, cont), sc)
  {
    forall gas: nat ensures Keeps(GetState(key, cont), sc, gas) {
      if gas > 0 {
        forall v | ValueUses(v, sc.used) ensures Keeps(cont(v), sc, gas - 1) {
          assert Stays(cont(v), sc);
        }
      }
    }
  }

  lemma PutStays(key: Key, value: Value, next: Prog, sc: Scope)
    requires MayWrite(key, value, sc) && Stays(next, sc)
    ensures Stays(PutState(key, value, next), sc)
  {
  }

  lemma HaltStays(ok: bool, sc: Scope)
    ensures Stays(Halt(ok), sc)
  {
  }

  lemma FetchStays(key: Key, cont: Value -> Prog, sc: Scope)
    requires MayRead(key, sc) && forall v | ValueUses(v, sc.used) :: Stays(cont(v), sc)
    ensures Stays(Fetch(key, cont), sc)
  {
    hide Keeps, Stays, MayRead;
    forall probe | ValueUses(probe, sc.used)
      ensures Stays(if Size(probe) == 0 then cont(Empty)
        else GetState(key, (v: Value) => if Size(v) == 0 || Size(v) > Size(probe) then cont(Empty) else cont(v)), sc)
    {
      GetStays(key, (v: Value) => if Size(v) == 0 || Size(v) > Size(probe) then cont(Empty) else cont(v), sc);
    }
    GetStays(key, (probe: Value) =>
      if Size(probe) == 0 then cont(Empty)
      else GetState(key, (v: Value) => if Size(v) == 0 || Size(v) > Size(probe) then cont(Empty) else cont(v)), sc);
  }

  lemma GetIntStays(key: Key, cont: int64 -> Prog, sc: Scope)
    requires MayRead(key, sc) && forall n :: Stays(cont(n), sc)
    ensures Stays(GetInt(key, cont), sc)
  {
    hide Keeps, Stays, MayRead;
    HaltStays(false, sc);
    var parse := (v: Value) =>
      if v == Empty then cont(0)
      else match ParseInt(v)
        case Some(n) => cont(n)
        case None => Halt(false);
    forall v ensures Stays(parse(v), sc) {
      assert Stays(cont(0), sc);
      if ParseInt(v).Some? {
        assert Stays(cont(ParseInt(v).value), sc);
      }
    }
    FetchStays(key, parse, sc);
  }

  predicate Account(name: string, sc: Scope) {
    sc.used(name) && ByteLen(name) == 40
  }

  predicate Receipt(k: Key) {
    !AccountKey(k) && !k.EscrowOf?
  }

  lemma SettleStays(from: string, to: string, newFrom: int64, newTo: int64, receipt: Key, raw: string, sc: Scope)
    requires ByteLen(from) == ByteLen(to) == 40 && Receipt(receipt)
    ensures Stays(Settle(from, to, newFrom, newTo, receipt, raw), sc)
  {
    hide Keeps, Stays;
    HaltStays(true, sc);
    PutStays(receipt, Raw(raw), Halt(true), sc);
    PutStays(Balance(to), Int(newTo), PutState(receipt, Raw(raw), Halt(true)), sc);
    PutStays(Balance(from), Int(newFrom), PutState(Balance(to), Int(newTo), PutState(receipt, Raw(raw), Halt(true))),
             sc);
  }

  lemma MoveFundsStays(from: string, to: string, debit: int64, credit: int64, receipt: Key, raw: string, sc: Scope)
    requires Account(from, sc) && Account(to, sc) && Receipt(receipt)
    ensures Stays(MoveFunds(from, to, debit, credit, receipt, raw), sc)
  {
    hide Keeps, Stays, Settle, GetInt, CreditTo;
    HaltStays(false, sc);
    var cont := (fromBal: int64) =>
      if fromBal < debit then Halt(false)
      else CreditTo(from, to, Wrap64(fromBal - debit), credit, receipt, raw);
    forall fromBal: int64 ensures Stays(cont(fromBal), sc) {
      CreditToStays(from, to, Wrap64(fromBal - debit), credit, receipt, raw, sc);
    }
    GetIntStays(Balance(from), cont, sc);
  }

  lemma CreditToStays(from: string, to: string, newFrom: int64, credit: int64, receipt: Key, raw: string, sc: Scope)
    requires ByteLen(from) == 40 && Account(to, sc) && Receipt(receipt)
    ensures Stays(CreditTo(from, to, newFrom, credit, receipt, raw), sc)
  {
    hide Keeps, Stays, Settle, GetInt;
    var cont := (toBal: int64) => Settle(from, to, newFrom, Wrap64(toBal + credit), receipt, raw);
    forall toBal: int64 ensures Stays(cont(toBal), sc) {
      SettleStays(from, to, newFrom, Wrap64(toBal + credit), receipt, raw, sc);
    }
    GetIntStays(Balance(to), cont, sc);
  }

  lemma TransferStays(raw: string, p: TransferFields, sc: Scope)
    requires Account(p.from, sc) && Account(p.to, sc)
    ensures Stays(ExecuteTransfer(raw, p), sc)
  {
    hide Keeps, Stays, MoveFunds, Fetch;
    HaltStays(false, sc);
    if ByteLen(p.from) == 40 && ByteLen(p.to) == 40 && p.amount > 0 {
      forall v ensures Stays(MoveFunds(p.from, p.to, DiscountedDebit(p.amount, DiscountOf(v)), p.amount,
                                       TransferReceipt(p.to), raw), sc) {
        MoveFundsStays(p.from, p.to, DiscountedDebit(p.amount, DiscountOf(v)), p.amount, TransferReceipt(p.to), raw,
                       sc);
      }
      FetchStays(Discount(p.from), (v: Value) =>
        MoveFunds(p.from, p.to, DiscountedDebit(p.amount, DiscountOf(v)), p.amount, TransferReceipt(p.to), raw), sc);
    }
  }

  lemma LoyaltyPointsStays(raw: string, p: TransferFields, pts: int64, sc: Scope)
    requires Account(p.from, sc)
    ensures Stays(LoyaltyPoints(raw, p, pts), sc)
  {
    hide Keeps, Stays, GetInt;
    var (left, bonus) := Redeem(Wrap64(pts + p.amount / 10));
    HaltStays(true, sc);
    PutStays(LoyaltyReceipt(p.to), Raw(raw), Halt(true), sc);
    var cont := (fb: int64) => PutState(Balance(p.from), Int(Wrap64(fb + bonus)), LoyaltyEnd(raw, p));
    forall fb: int64 ensures Stays(cont(fb), sc) {
      PutStays(Balance(p.from), Int(Wrap64(fb + bonus)), LoyaltyEnd(raw, p), sc);
    }
    GetIntStays(Balance(p.from), cont, sc);
    PutStays(Loyalty(p.from), Int(left), if bonus > 0 then RewardSender(raw, p, bonus) else LoyaltyEnd(raw, p), sc);
  }

  lemma LoyaltyPayStays(raw: string, p: TransferFields, fromBal: int64, toBal: int64, treasBal: int64, sc: Scope)
    requires Account(p.from, sc) && ByteLen(p.to) == 40
    ensures Stays(LoyaltyPay(raw, p, fromBal, toBal, treasBal), sc)
  {
    hide Keeps, Stays, GetInt, LoyaltyPoints;
    var fee := CalcFee(p.amount);
    forall pts: int64 ensures Stays(LoyaltyPoints(raw, p, pts), sc) {
      LoyaltyPointsStays(raw, p, pts, sc);
    }
    GetIntStays(Loyalty(p.from), (pts: int64) => LoyaltyPoints(raw, p, pts), sc);
    var tail := LoyaltyTail(raw, p);
    hide LoyaltyTail;
    PutStays(Balance(TREASURY), Int(Wrap64(treasBal + fee)), tail, sc);
    var rest := if fee > 0 then PutState(Balance(TREASURY), Int(Wrap64(treasBal + fee)), tail) else tail;
    PutStays(Balance(p.to), Int(Wrap64(toBal + Wrap64(p.amount - fee))), rest, sc);
    PutStays(Balance(p.from), Int(Wrap64(fromBal - p.amount)),
             PutState(Balance(p.to), Int(Wrap64(toBal + Wrap64(p.amount - fee))), rest), sc);
  }

  lemma LoyaltyToStays(raw: string, p: TransferFields, fromBal: int64, sc: Scope)
    requires Account(p.from, sc) && Account(p.to, sc)
    ensures Stays(LoyaltyTo(raw, p, fromBal), sc)
  {
    hide Keeps, Stays, GetInt, LoyaltyPay;
    forall toBal: int64 ensures Stays(LoyaltyTreasury(raw, p, fromBal, toBal), sc) {
      forall treasBal: int64 ensures Stays(LoyaltyPay(raw, p, fromBal, toBal, treasBal), sc) {
        LoyaltyPayStays(raw, p, fromBal, toBal, treasBal, sc);
      }
      GetIntStays(Balance(TREASURY), (treasBal: int64) => LoyaltyPay(raw, p, fromBal, toBal, treasBal), sc);
    }
    hide LoyaltyTreasury;
    GetIntStays(Balance(p.to), (toBal: int64) => LoyaltyTreasury(raw, p, fromBal, toBal), sc);
  }

  lemma LoyaltyStays(raw: string, p: TransferFields, sc: Scope)
    requires Account(p.from, sc) && Account(p.to, sc)
    ensures Stays(ExecuteLoyalty(raw, p), sc)
  {
    hide Keeps, Stays, GetInt, LoyaltyTo;
    HaltStays(false, sc);
    forall fromBal: int64 ensures Stays(LoyaltyTo(raw, p, fromBal), sc) {
      LoyaltyToStays(raw, p, fromBal, sc);
    }
    GetIntStays(Balance(p.from), (fromBal: int64) =>
      if fromBal < p.amount then Halt(false) else LoyaltyTo(raw, p, fromBal), sc);
  }

  lemma PayOutStays(raw: string, p: EscrowFields, to: string, amount: int, sc: Scope)
    requires Account(to, sc) && p.id == sc.id != ""
    ensures Stays(PayOut(raw, p, to, amount), sc)
  {
    hide Keeps, Stays, GetInt;
    HaltStays(true, sc);
    PutStays(EscrowReceipt(p.id), Raw(raw), Halt(true), sc);
    PutStays(EscrowOf(p.id), Empty, EscrowEnd(raw, p.id), sc);
    var cont := (bal: int64) =>
      PutState(Balance(to), Int(Wrap64(bal + amount)), PutState(EscrowOf(p.id), Empty, EscrowEnd(raw, p.id)));
    forall bal: int64 ensures Stays(cont(bal), sc) {
      PutStays(Balance(to), Int(Wrap64(bal + amount)), PutState(EscrowOf(p.id), Empty, EscrowEnd(raw, p.id)), sc);
    }
    GetIntStays(Balance(to), cont, sc);
  }

  lemma LockStays(raw: string, p: EscrowFields, sc: Scope)
    requires Account(p.from, sc) && Account(p.to, sc) && p.id == sc.id != ""
    ensures Stays(GetInt(Balance(p.from), (fromBal: int64) =>
              if fromBal < p.amount then Halt(false) else LockFunds(raw, p, fromBal)), sc)
  {
    hide Keeps, Stays, GetInt;
    HaltStays(false, sc);
    HaltStays(true, sc);
    PutStays(EscrowReceipt(p.id), Raw(raw), Halt(true), sc);
    PutStays(EscrowOf(p.id), EscrowRec(p.from, p.to, p.amount), EscrowEnd(raw, p.id), sc);
    forall fromBal: int64 ensures Stays(LockFunds(raw, p, fromBal), sc) {
      PutStays(Balance(p.from), Int(Wrap64(fromBal - p.amount)),
               PutState(EscrowOf(p.id), EscrowRec(p.from, p.to, p.amount), EscrowEnd(raw, p.id)), sc);
    }
    hide LockFunds;
    GetIntStays(Balance(p.from), (fromBal: int64) =>
      if fromBal < p.amount then Halt(false) else LockFunds(raw, p, fromBal), sc);
  }

  lemma EscrowStays(raw: string, p: EscrowFields, sc: Scope)
    requires p.id == sc.id && (p.action == "lock" ==> Account(p.from, sc) && Account(p.to, sc))
    ensures Stays(ExecuteEscrow(raw, p), sc)
  {
    hide Keeps, Stays, Fetch, EscrowAction;
    HaltStays(false, sc);
    if p.id != "" {
      var act := (v: Value) => EscrowAction(raw, p, v);
      forall v | ValueUses(v, sc.used) ensures Stays(act(v), sc) {
        ActionStays(raw, p, v, sc);
      }
      FetchStays(EscrowOf(p.id), act, sc);
    }
  }

  lemma ActionStays(raw: string, p: EscrowFields, v: Value, sc: Scope)
    requires p.id == sc.id != "" && (p.action == "lock" ==> Account(p.from, sc) && Account(p.to, sc))
    requires ValueUses(v, sc.used)
    ensures Stays(EscrowAction(raw, p, v), sc)
  {
    hide Keeps, Stays, GetInt, PayOut;
    HaltStays(false, sc);
    if p.action == "lock" {
      LockStays(raw, p, sc);
    } else if AsEscrow(v).Some? {
      PayOutStays(raw, p, v.to, v.amount, sc);
      PayOutStays(raw, p, v.from, v.amount, sc);
    }
  }

  lemma CallStays(c: Call, sc: Scope)
    requires Verify(c) && CallUses(c, sc.used) && sc.id == IdOf(c)
    ensures Stays(Execute(c), sc)
  {
    hide Keeps, Stays, ExecuteTransfer, ExecuteLoyalty, ExecuteEscrow, MoveFunds;
    HaltStays(false, sc);
    match c {
      case Transfer(raw, Some(p)) => TransferStays(raw, p, sc);
      case LoyaltyXfer(raw, Some(p)) => LoyaltyStays(raw, p, sc);
      case DoubleCredit(raw, Some(p)) =>
        MoveFundsStays(p.from, p.to, p.amount, Wrap64(p.amount * 2), DoubleReceipt(p.to), raw, sc);
      case QtyCredit(raw, Some(p)) =>
        MoveFundsStays(p.from, p.to, p.amount, Wrap64(p.amount * p.quantity), QtyReceipt(p.to), raw, sc);
      case Escrow(raw, Some(p)) => EscrowStays(raw, p, sc);
      case _ =>
    }
  }

  /** A verified call is simulated as its `execute`. */
  lemma TwoGuests(c: Call, feed: nat -> Store, sim: Sim)
    ensures SimulateAll(Guests(c), feed, sim) == if Verify(c) then Simulate(Execute(c), feed, sim) else (false, sim)
  {
    hide Execute;
    var guests := Guests(c);
    var tail := guests[1..];
    assert tail == [Execute(c)] && tail[1..] == [];
    assert Simulate(guests[0], feed, sim) == (Verify(c), sim);
    if Verify(c) {
      assert SimulateAll(guests, feed, sim) == SimulateAll(tail, feed, sim);
      var (ok, t) := Simulate(Execute(c), feed, sim);
      assert SimulateAll(tail[1..], feed, t) == (true, t);
      assert SimulateAll(tail, feed, sim) == (ok, t);
    }
  }

  lemma GuestsWithin(c: Call, feed: nat -> Store, gas: nat, used: string -> bool)
    requires CallUses(c, used) && FeedUses(feed, used)
    ensures Within(SimulateAll(Guests(c), feed, Sim(RW([], []), 0, gas)).1.rw, Scope(IdOf(c), used))
  {
    hide Execute;
    var s0, sc := Sim(RW([], []), 0, gas), Scope(IdOf(c), used);
    TwoGuests(c, feed, s0);
    if Verify(c) {
      CallStays(c, sc);
      SimulateWithin(Execute(c), feed, s0, sc);
    }
  }

  ghost predicate TxWithin(tx: Tx, sc: Scope) {
    tx.rw.Some? ==> Within(tx.rw.value, sc)
  }

  /** The simulation of a call reads the balances, points and discount of accounts in
      use, the treasury's balance and its own escrow; it writes no other escrow and no
      account of another length. */
  lemma SimulatedWithin(h: seq<Store>, tx: Tx, o: Origin, c: Call, used: string -> bool)
    requires CallUses(c, used) && o.guests == Guests(c) && Simulated(h, tx, o)
    requires forall i | 0 <= i < |h| :: StoreUses(h[i], used)
    ensures TxWithin(tx, Scope(IdOf(c), used))
  {
    hide Guests;
    forall n: nat ensures StoreUses(Feed(h, o.at)(n), used) {
      assert o.at(n) < |h|;
    }
    GuestsWithin(c, Feed(h, o.at), o.gas, used);
  }

  // ---- What commits make of one key ----

  /** The key is as before, or written within the scope. */
  ghost predicate Touched(s: Store, t: Store, version: Version, sc: Scope, k: Key) {
    SameAt(s, t, k) || (k in t.kv && t.GetVersion(k) == version && MayWrite(k, t.kv[k], sc))
  }

  lemma {:induction false} ApplyWritesTouch(s: Store, writeSet: seq<KVWrite>, version: Version, sc: Scope, k: Key)
    requires forall i | 0 <= i < |writeSet| :: WriteWithin(writeSet[i], sc)
    ensures Touched(s, ApplyWrites(s, writeSet, version), version, sc, k)
  {
    hide MayWrite;
    if writeSet != [] {
      var n := |writeSet| - 1;
      ApplyWritesTouch(s, writeSet[..n], version, sc, k);
      assert WriteWithin(writeSet[n], sc);
    }
  }

  ghost predicate BlockWithin(txs: seq<Tx>, calls: seq<Call>, used: string -> bool) {
    |txs| == |calls| && forall i | 0 <= i < |txs| :: TxWithin(txs[i], Scope(IdOf(calls[i]), used))
  }

  /** After some transactions of a block a key is as before, or carries the stamp of a
      transaction whose call may write it. */
  ghost predicate LiveTouched(s: Store, t: Store, calls: seq<Call>, used: string -> bool, height: int, n: nat, k: Key)
    requires n <= |calls|
  {
    || SameAt(s, t, k)
    || exists i | 0 <= i < n ::
         k in t.kv && t.GetVersion(k) == AtBlock(height, i) && MayWrite(k, t.kv[k], Scope(IdOf(calls[i]), used))
  }

  lemma {:induction false} CommitTouches(s: Store, txs: seq<Tx>, calls: seq<Call>, used: string -> bool, height: int,
                                         n: nat, k: Key)
    requires BlockWithin(txs, calls, used) && n <= |txs| && CommitUpTo(s, txs, height, n).Ok?
    ensures LiveTouched(s, CommitUpTo(s, txs, height, n).value.0, calls, used, height, n, k)
  {
    hide MayWrite;
    if n > 0 {
      CommitTouches(s, txs, calls, used, height, n - 1, k);
      var t, tx := CommitUpTo(s, txs, height, n - 1).value.0, txs[n - 1];
      var sc := Scope(IdOf(calls[n - 1]), used);
      assert TxWithin(tx, sc);
      if tx.rw.Some? && FirstConflict(tx.rw.value.readSet, t).None? {
        ApplyWritesTouch(t, tx.rw.value.writeSet, AtBlock(height, n - 1), sc, k);
      }
    }
  }

  // ---- What every state of a run keeps ----

  /** No account key of the store has the name that `w` has without its white space. */
  ghost predicate Unshadowed(s: Store, w: string) {
    forall k | k in s.kv && AccountKey(k) :: Suffix(k) != TrimRight(w)
  }

  /** Stored escrows pay accounts in use, and the accounts in use that end in white
      space are not shadowed by shorter names. */
  ghost predicate Suits(s: Store, used: string -> bool) {
    && StoreUses(s, used)
    && forall w | used(w) && ByteLen(w) == 40 && !CleanText(w) :: Unshadowed(s, w)
  }

  lemma CommitSuits(s: Store, txs: seq<Tx>, calls: seq<Call>, used: string -> bool, height: int, n: nat)
    requires Suits(s, used) && (forall w | used(w) :: Harmless(w))
    requires BlockWithin(txs, calls, used) && n <= |txs| && CommitUpTo(s, txs, height, n).Ok?
    ensures Suits(CommitUpTo(s, txs, height, n).value.0, used)
  {
    var t := CommitUpTo(s, txs, height, n).value.0;
    forall k | k in t.kv
      ensures ValueUses(t.kv[k], used)
      ensures AccountKey(k) ==> k in s.kv || ByteLen(Suffix(k)) == 40 || k == Balance(TREASURY)
    {
      CommitTouches(s, txs, calls, used, height, n, k);
      assert SameAt(s, t, k) ==> s.GetKV(k) == t.GetKV(k);
    }
    forall w | used(w) && ByteLen(w) == 40 && !CleanText(w) ensures Unshadowed(t, w) {
      assert Unshadowed(s, w) && Harmless(w);
      TrimmedIsShorter(w);
    }
  }

  /** No two escrow keys ever carry the same version. */
  ghost predicate EscrowsApart(h: seq<Store>) {
    forall a, b, i, j {:trigger h[a].GetVersion(EscrowOf(i)), h[b].GetVersion(EscrowOf(j))} |
      0 <= a < |h| && 0 <= b < |h| && i != j && h[a].GetVersion(EscrowOf(i)) == h[b].GetVersion(EscrowOf(j)) ::
      h[a].GetVersion(EscrowOf(i)) == NoVersion
  }

  /** No two escrow keys ever carry the same version, unless from the start. */
  ghost predicate ApartSince(start: Store, h: seq<Store>) {
    forall a, b, i, j {:trigger h[a].GetVersion(EscrowOf(i)), h[b].GetVersion(EscrowOf(j))} |
      0 <= a < |h| && 0 <= b < |h| && i != j && h[a].GetVersion(EscrowOf(i)) == h[b].GetVersion(EscrowOf(j)) ::
      h[a].GetVersion(EscrowOf(i)) == NoVersion || h[a].GetVersion(EscrowOf(i)) == start.GetVersion(EscrowOf(i))
  }

  lemma ApartFromApartStart(start: Store, h: seq<Store>)
    requires ApartSince(start, h) && EscrowsApart([start])
    ensures EscrowsApart(h)
  {
    var s := [start];
    forall a, b, i, j | 0 <= a < |h| && 0 <= b < |h| && i != j
      && h[a].GetVersion(EscrowOf(i)) == h[b].GetVersion(EscrowOf(j))
      ensures h[a].GetVersion(EscrowOf(i)) == NoVersion
    {
      assert s[0].GetVersion(EscrowOf(i)) == s[0].GetVersion(EscrowOf(j)) ==> s[0].GetVersion(EscrowOf(i)) == NoVersion;
    }
  }

  /** Each transaction stamps at most one escrow key. */
  lemma CommitKeepsApart(start: Store, h: seq<Store>, txs: seq<Tx>, calls: seq<Call>, used: string -> bool, height: int,
                         n: nat)
    requires h != [] && ApartSince(start, h) && AllOlder(h, height)
    requires BlockWithin(txs, calls, used) && n <= |txs| && CommitUpTo(Last(h), txs, height, n).Ok?
    ensures ApartSince(start, h + [CommitUpTo(Last(h), txs, height, n).value.0])
  {
    var t := CommitUpTo(Last(h), txs, height, n).value.0;
    var g := h + [t];
    forall a, b, i, j | 0 <= a < |g| && 0 <= b < |g| && i != j
      && g[a].GetVersion(EscrowOf(i)) == g[b].GetVersion(EscrowOf(j))
      ensures g[a].GetVersion(EscrowOf(i)) == NoVersion || g[a].GetVersion(EscrowOf(i)) == start.GetVersion(EscrowOf(i))
    {
      StampOf(h, txs, calls, used, height, n, a, i);
      StampOf(h, txs, calls, used, height, n, b, j);
    }
  }

  /** Where the version of an escrow key in the extended history comes from. */
  lemma StampOf(h: seq<Store>, txs: seq<Tx>, calls: seq<Call>, used: string -> bool, height: int, n: nat, a: nat,
                id: string)
    requires h != [] && AllOlder(h, height) && a <= |h|
    requires BlockWithin(txs, calls, used) && n <= |txs| && CommitUpTo(Last(h), txs, height, n).Ok?
    ensures var v := (h + [CommitUpTo(Last(h), txs, height, n).value.0])[a].GetVersion(EscrowOf(id));
            || (Older(v, height) && exists b :: 0 <= b < |h| && h[b].GetVersion(EscrowOf(id)) == v)
            || (v.AtBlock? && v.height == height && 0 <= v.index < |calls| && id == IdOf(calls[v.index]))
  {
    if a == |h| {
      CommitTouches(Last(h), txs, calls, used, height, n, EscrowOf(id));
    }
    var b := if a == |h| then a - 1 else a;
    assert Older(h[b].GetVersion(EscrowOf(id)), height);
  }
}
