/** What an accepted contract call does to a store, free of host calls. */
module Effects {
  import opened Wrappers
  import opened Ledger
  import opened Simulation
  import opened Contracts

  /** Zero-length values count as missing. */
  function Norm(v: Value): Value {
    if v == Raw("") then Empty else v
  }

  lemma NormIsZeroLength(v: Value)
    ensures Size(v) == 0 <==> Norm(v) == Empty
    ensures Norm(v) == if Size(v) == 0 then Empty else v
  {
  }

  function IntAt(s: Store, key: Key): Option<int64> {
    var v := Norm(s.Observe(key));
    if v == Empty then Some(0) else ParseInt(v)
  }

  function DiscountAt(s: Store, from: string): real {
    DiscountOf(Norm(s.Observe(Discount(from))))
  }

  function EscrowAt(s: Store, id: string): Option<Value> {
    AsEscrow(Norm(s.Observe(EscrowOf(id))))
  }

  /** Moves `debit` out of one account and `credit` into another, with a receipt. */
  function MoveEffect(s: Store, version: Version, from: string, to: string, debit: int64, credit: int64,
                      receipt: Key, raw: string): Option<Store> {
    var f, t := IntAt(s, Balance(from)), IntAt(s, Balance(to));
    if f.None? || t.None? || f.value < debit then None
    else Some(s.Put(Balance(from), Int(Wrap64(f.value - debit)), version)
               .Put(Balance(to), Int(Wrap64(t.value + credit)), version)
               .Put(receipt, Raw(raw), version))
  }

  /** Points of the sender after the transfer, before redemption. */
  function EarnedPoints(pts: int64, amount: int64): int64 {
    Wrap64(pts + amount / 10)
  }

  /** Balances once sender, recipient and treasury have been written. */
  function PaidStore(s: Store, version: Version, p: TransferFields, fromBal: int64, toBal: int64,
                     treasBal: int64): Store {
    var fee := CalcFee(p.amount);
    var paid := s.Put(Balance(p.from), Int(Wrap64(fromBal - p.amount)), version)
                 .Put(Balance(p.to), Int(Wrap64(toBal + Wrap64(p.amount - fee))), version);
    if fee > 0 then paid.Put(Balance(TREASURY), Int(Wrap64(treasBal + fee)), version) else paid
  }

  /** The last part of `loyalty_xfer`: points, redemption bonus and receipt. */
  function PointsEffect(s: Store, version: Version, raw: string, p: TransferFields, pts: int64): Option<Store> {
    var (left, bonus) := Redeem(EarnedPoints(pts, p.amount));
    var pointed := s.Put(Loyalty(p.from), Int(left), version);
    var fb := IntAt(pointed, Balance(p.from));
    if bonus <= 0 then Some(pointed.Put(LoyaltyReceipt(p.to), Raw(raw), version))
    else if fb.None? then None
    else Some(pointed.Put(Balance(p.from), Int(Wrap64(fb.value + bonus)), version)
                     .Put(LoyaltyReceipt(p.to), Raw(raw), version))
  }

  function LoyaltyEffect(s: Store, version: Version, raw: string, p: TransferFields): Option<Store> {
    var f, t, y := IntAt(s, Balance(p.from)), IntAt(s, Balance(p.to)), IntAt(s, Balance(TREASURY));
    if f.None? || t.None? || y.None? || f.value < p.amount then None
    else
      var paid := PaidStore(s, version, p, f.value, t.value, y.value);
      var pts := IntAt(paid, Loyalty(p.from));
      if pts.None? then None else PointsEffect(paid, version, raw, p, pts.value)
  }

  function PayOutEffect(s: Store, version: Version, raw: string, id: string, to: string, amount: int): Option<Store> {
    var bal := IntAt(s, Balance(to));
    if bal.None? then None
    else Some(s.Put(Balance(to), Int(Wrap64(bal.value + amount)), version)
               .Put(EscrowOf(id), Empty, version)
               .Put(EscrowReceipt(id), Raw(raw), version))
  }

  function EscrowEffect(s: Store, version: Version, raw: string, p: EscrowFields): Option<Store> {
    var e, bal := EscrowAt(s, p.id), IntAt(s, Balance(p.from));
    if p.action == "lock" then
      if e.Some? || bal.None? || bal.value < p.amount then None
      else Some(s.Put(Balance(p.from), Int(Wrap64(bal.value - p.amount)), version)
                 .Put(EscrowOf(p.id), EscrowRec(p.from, p.to, p.amount), version)
                 .Put(EscrowReceipt(p.id), Raw(raw), version))
    else if e.None? then None
    else if p.action == "release" && (p.from == e.value.from || p.from == e.value.to) then
      PayOutEffect(s, version, raw, p.id, e.value.to, e.value.amount)
    else if p.action == "refund" && p.from == e.value.from then
      PayOutEffect(s, version, raw, p.id, e.value.from, e.value.amount)
    else None
  }

  function Effect(c: Call, s: Store, version: Version): Option<Store> {
    if !Verify(c) then None
    else match c
      case Transfer(raw, Some(p)) =>
        MoveEffect(s, version, p.from, p.to, DiscountedDebit(p.amount, DiscountAt(s, p.from)), p.amount,
                   TransferReceipt(p.to), raw)
      case LoyaltyXfer(raw, Some(p)) => LoyaltyEffect(s, version, raw, p)
      case DoubleCredit(raw, Some(p)) =>
        MoveEffect(s, version, p.from, p.to, p.amount, Wrap64(p.amount * 2), DoubleReceipt(p.to), raw)
      case QtyCredit(raw, Some(p)) =>
        MoveEffect(s, version, p.from, p.to, p.amount, Wrap64(p.amount * p.quantity), QtyReceipt(p.to), raw)
      case Escrow(raw, Some(p)) => EscrowEffect(s, version, raw, p)
  }

  // ---- Peeling host calls ----

  /** `a` says what `Direct(p, version, r)` does, unless the call budget ran out. */
  ghost predicate Does(p: Prog, version: Version, r: Run, needed: nat, a: (bool, Run)) {
    Direct(p, version, r).0 || r.gas >= needed ==> Direct(p, version, r) == a
  }

  lemma DirectFetch(key: Key, cont: Value -> Prog, version: Version, r: Run) returns (t: Run)
    ensures t.store == r.store && t.gas <= r.gas <= t.gas + 2
    ensures Does(Fetch(key, cont), version, r, 2, Direct(cont(Norm(r.store.Observe(key))), version, t))
  {
    var v := r.store.Observe(key);
    NormIsZeroLength(v);
    var inner := (w: Value) => if Size(w) == 0 || Size(w) > Size(v) then cont(Empty) else cont(w);
    if r.gas >= 2 && Size(v) > 0 {
      t := r.(gas := r.gas - 2);
      assert Direct(GetState(key, inner), version, r.(gas := r.gas - 1)) == Direct(cont(v), version, t);
    } else {
      t := r.(gas := if r.gas > 0 then r.gas - 1 else 0);
    }
  }

  lemma DirectGetInt(key: Key, cont: int64 -> Prog, version: Version, r: Run) returns (t: Run)
    ensures t.store == r.store && t.gas <= r.gas <= t.gas + 2
    ensures match IntAt(r.store, key)
            case Some(n) => Does(GetInt(key, cont), version, r, 2, Direct(cont(n), version, t))
            case None => !Direct(GetInt(key, cont), version, r).0
  {
    var k := (v: Value) =>
      if v == Empty then cont(0)
      else match ParseInt(v)
        case Some(n) => cont(n)
        case None => Halt(false);
    t := DirectFetch(key, k, version, r);
  }

  lemma DirectPut3(k1: Key, v1: Value, k2: Key, v2: Value, k3: Key, v3: Value, version: Version, r: Run)
    ensures var p := PutState(k1, v1, PutState(k2, v2, PutState(k3, v3, Halt(true))));
            var t := Run(r.store.Put(k1, v1, version).Put(k2, v2, version).Put(k3, v3, version),
                         if r.gas >= 3 then r.gas - 3 else 0);
            Does(p, version, r, 3, (true, t))
  {
    if r.gas >= 3 {
      var r1 := Run(r.store.Put(k1, v1, version), r.gas - 1);
      var r2 := Run(r1.store.Put(k2, v2, version), r.gas - 2);
      assert Direct(PutState(k3, v3, Halt(true)), version, r2) == (true, Run(r2.store.Put(k3, v3, version), r.gas - 3));
      assert Direct(PutState(k2, v2, PutState(k3, v3, Halt(true))), version, r1) ==
        (true, Run(r2.store.Put(k3, v3, version), r.gas - 3));
    } else if r.gas == 2 {
      var r1 := Run(r.store.Put(k1, v1, version), 1);
      assert !Direct(PutState(k2, v2, PutState(k3, v3, Halt(true))), version, r1).0;
    }
  }

  lemma DirectPut2(k1: Key, v1: Value, k2: Key, v2: Value, version: Version, r: Run)
    ensures var p := PutState(k1, v1, PutState(k2, v2, Halt(true)));
            var t := Run(r.store.Put(k1, v1, version).Put(k2, v2, version), if r.gas >= 2 then r.gas - 2 else 0);
            Does(p, version, r, 2, (true, t))
  {
    if r.gas >= 1 {
      var r1 := Run(r.store.Put(k1, v1, version), r.gas - 1);
      assert r1.gas >= 1 ==>
        Direct(PutState(k2, v2, Halt(true)), version, r1) == (true, Run(r1.store.Put(k2, v2, version), r.gas - 2));
      assert Direct(PutState(k1, v1, PutState(k2, v2, Halt(true))), version, r) ==
        Direct(PutState(k2, v2, Halt(true)), version, r1);
    }
  }

  /** Acceptance and resulting store of a program are those of an optional store. */
  ghost predicate Matches(p: Prog, version: Version, r: Run, needed: nat, e: Option<Store>) {
    && (Direct(p, version, r).0 ==> e == Some(Direct(p, version, r).1.store))
    && (r.gas >= needed && e.Some? ==> Direct(p, version, r).0)
  }

  lemma CreditToEffect(from: string, to: string, newFrom: int64, credit: int64, receipt: Key, raw: string,
                       version: Version, r: Run)
    ensures Matches(CreditTo(from, to, newFrom, credit, receipt, raw), version, r, 5,
                    match IntAt(r.store, Balance(to))
                    case None => None
                    case Some(toBal) =>
                      Some(r.store.Put(Balance(from), Int(newFrom), version)
                                  .Put(Balance(to), Int(Wrap64(toBal + credit)), version)
                                  .Put(receipt, Raw(raw), version)))
  {
    var t := DirectGetInt(Balance(to), (toBal: int64) =>
      Settle(from, to, newFrom, Wrap64(toBal + credit), receipt, raw), version, r);
    if IntAt(r.store, Balance(to)).Some? {
      var newTo := Wrap64(IntAt(r.store, Balance(to)).value + credit);
      assert Settle(from, to, newFrom, newTo, receipt, raw).PutState?;
      DirectPut3(Balance(from), Int(newFrom), Balance(to), Int(newTo), receipt, Raw(raw), version, t);
    }
  }

  lemma MoveFundsEffect(from: string, to: string, debit: int64, credit: int64, receipt: Key, raw: string,
                        version: Version, r: Run)
    ensures Matches(MoveFunds(from, to, debit, credit, receipt, raw), version, r, 7,
                    MoveEffect(r.store, version, from, to, debit, credit, receipt, raw))
  {
    hide CreditTo, GetInt, IntAt, Wrap64, Store.Put;
    var cont := (fromBal: int64) =>
      if fromBal < debit then Halt(false)
      else CreditTo(from, to, Wrap64(fromBal - debit), credit, receipt, raw);
    var t := DirectGetInt(Balance(from), cont, version, r);
    if IntAt(r.store, Balance(from)).Some? {
      var f := IntAt(r.store, Balance(from)).value;
      CreditToEffect(from, to, Wrap64(f - debit), credit, receipt, raw, version, t);
      assert f < debit ==> !Direct(cont(f), version, t).0;
    }
  }

  lemma TransferEffect(raw: string, p: TransferFields, version: Version, r: Run)
    requires PartiesValid(p.from, p.to, p.amount)
    ensures Matches(ExecuteTransfer(raw, p), version, r, 9,
                    MoveEffect(r.store, version, p.from, p.to, DiscountedDebit(p.amount, DiscountAt(r.store, p.from)),
                               p.amount, TransferReceipt(p.to), raw))
  {
    var t := DirectFetch(Discount(p.from), (v: Value) =>
      MoveFunds(p.from, p.to, DiscountedDebit(p.amount, DiscountOf(v)), p.amount, TransferReceipt(p.to), raw),
      version, r);
    MoveFundsEffect(p.from, p.to, DiscountedDebit(p.amount, DiscountAt(r.store, p.from)), p.amount,
                    TransferReceipt(p.to), raw, version, t);
  }

  lemma PayOutEffectHolds(raw: string, p: EscrowFields, to: string, amount: int, version: Version, r: Run)
    ensures Matches(PayOut(raw, p, to, amount), version, r, 5, PayOutEffect(r.store, version, raw, p.id, to, amount))
  {
    hide GetInt, IntAt, Wrap64, Store.Put, Direct;
    var cont := (bal: int64) =>
      PutState(Balance(to), Int(Wrap64(bal + amount)),
        PutState(EscrowOf(p.id), Empty, EscrowEnd(raw, p.id)));
    var t := DirectGetInt(Balance(to), cont, version, r);
    if IntAt(r.store, Balance(to)).Some? {
      var bal := IntAt(r.store, Balance(to)).value;
      assert EscrowEnd(raw, p.id) == PutState(EscrowReceipt(p.id), Raw(raw), Halt(true));
      assert cont(bal) == PutState(Balance(to), Int(Wrap64(bal + amount)),
                                   PutState(EscrowOf(p.id), Empty, EscrowEnd(raw, p.id)));
      DirectPut3(Balance(to), Int(Wrap64(bal + amount)), EscrowOf(p.id), Empty, EscrowReceipt(p.id), Raw(raw),
                 version, t);
    }
  }

  lemma LockEffectHolds(raw: string, p: EscrowFields, version: Version, r: Run)
    requires p.action == "lock" && EscrowAt(r.store, p.id).None?
    ensures Matches(EscrowAction(raw, p, Norm(r.store.Observe(EscrowOf(p.id)))), version, r, 5,
                    EscrowEffect(r.store, version, raw, p))
  {
    hide GetInt, IntAt, Wrap64, Store.Put, LockFunds;
    var cont := (fromBal: int64) => if fromBal < p.amount then Halt(false) else LockFunds(raw, p, fromBal);
    LockAction(raw, p, Norm(r.store.Observe(EscrowOf(p.id))));
    var t := DirectGetInt(Balance(p.from), cont, version, r);
    if IntAt(r.store, Balance(p.from)).Some? {
      var bal := IntAt(r.store, Balance(p.from)).value;
      LockFundsIs(raw, p, bal);
      DirectPut3(Balance(p.from), Int(Wrap64(bal - p.amount)), EscrowOf(p.id), EscrowRec(p.from, p.to, p.amount),
                 EscrowReceipt(p.id), Raw(raw), version, t);
      assert bal < p.amount ==> !Direct(cont(bal), version, t).0;
    }
  }

  lemma LockAction(raw: string, p: EscrowFields, stored: Value)
    requires p.action == "lock" && AsEscrow(stored).None?
    ensures EscrowAction(raw, p, stored) ==
            GetInt(Balance(p.from), (fromBal: int64) =>
              if fromBal < p.amount then Halt(false) else LockFunds(raw, p, fromBal))
  {
    hide GetInt, LockFunds;
  }

  lemma LockFundsIs(raw: string, p: EscrowFields, bal: int64)
    ensures LockFunds(raw, p, bal) ==
            PutState(Balance(p.from), Int(Wrap64(bal - p.amount)),
              PutState(EscrowOf(p.id), EscrowRec(p.from, p.to, p.amount),
                PutState(EscrowReceipt(p.id), Raw(raw), Halt(true))))
  {
  }

  lemma ActionEffectHolds(raw: string, p: EscrowFields, version: Version, r: Run)
    requires Verify(Escrow(raw, Some(p)))
    ensures Matches(EscrowAction(raw, p, Norm(r.store.Observe(EscrowOf(p.id)))), version, r, 5,
                    EscrowEffect(r.store, version, raw, p))
  {
    hide ByteLen, IntAt, GetInt, LockFunds, PayOut, PayOutEffect, Size;
    var e := EscrowAt(r.store, p.id);
    if p.action == "lock" && e.None? {
      LockEffectHolds(raw, p, version, r);
    } else if e.Some? {
      PayOutEffectHolds(raw, p, e.value.to, e.value.amount, version, r);
      PayOutEffectHolds(raw, p, e.value.from, e.value.amount, version, r);
    }
  }

  lemma EscrowEffectHolds(raw: string, p: EscrowFields, version: Version, r: Run)
    requires Verify(Escrow(raw, Some(p)))
    ensures Matches(ExecuteEscrow(raw, p), version, r, 7, EscrowEffect(r.store, version, raw, p))
  {
    hide EscrowAction, EscrowEffect, Norm, Fetch, Direct, ByteLen;
    var act := (v: Value) => EscrowAction(raw, p, v);
    var t := DirectFetch(EscrowOf(p.id), act, version, r);
    ActionEffectHolds(raw, p, version, t);
    assert ExecuteEscrow(raw, p) == Fetch(EscrowOf(p.id), act);
  }

  // ---- loyalty_xfer ----

  lemma RewardEffect(raw: string, p: TransferFields, bonus: int64, version: Version, r: Run)
    ensures Matches(RewardSender(raw, p, bonus), version, r, 4,
                    match IntAt(r.store, Balance(p.from))
                    case None => None
                    case Some(fb) =>
                      Some(r.store.Put(Balance(p.from), Int(Wrap64(fb + bonus)), version)
                                  .Put(LoyaltyReceipt(p.to), Raw(raw), version)))
  {
    var t := DirectGetInt(Balance(p.from), (fb: int64) =>
      PutState(Balance(p.from), Int(Wrap64(fb + bonus)), LoyaltyEnd(raw, p)), version, r);
    if IntAt(r.store, Balance(p.from)).Some? {
      var end, fb := LoyaltyEnd(raw, p), IntAt(r.store, Balance(p.from)).value;
      assert end == PutState(LoyaltyReceipt(p.to), Raw(raw), Halt(true));
      DirectPut2(Balance(p.from), Int(Wrap64(fb + bonus)), LoyaltyReceipt(p.to), Raw(raw), version, t);
    }
  }

  lemma PointsEffectHolds(raw: string, p: TransferFields, pts: int64, version: Version, r: Run)
    ensures Matches(LoyaltyPoints(raw, p, pts), version, r, 5, PointsEffect(r.store, version, raw, p, pts))
  {
    hide Redeem, IntAt, Wrap64, Store.Put;
    var (left, bonus) := Redeem(EarnedPoints(pts, p.amount));
    if r.gas > 0 {
      var t := Run(r.store.Put(Loyalty(p.from), Int(left), version), r.gas - 1);
      if bonus > 0 {
        RewardEffect(raw, p, bonus, version, t);
      } else {
        assert LoyaltyEnd(raw, p) == PutState(LoyaltyReceipt(p.to), Raw(raw), Halt(true));
        DirectPut2(Loyalty(p.from), Int(left), LoyaltyReceipt(p.to), Raw(raw), version, r);
      }
    }
  }

  lemma LoyaltyTailEffect(raw: string, p: TransferFields, version: Version, r: Run)
    ensures Matches(LoyaltyTail(raw, p), version, r, 7,
                    match IntAt(r.store, Loyalty(p.from))
                    case None => None
                    case Some(pts) => PointsEffect(r.store, version, raw, p, pts))
  {
    var t := DirectGetInt(Loyalty(p.from), (pts: int64) => LoyaltyPoints(raw, p, pts), version, r);
    if IntAt(r.store, Loyalty(p.from)).Some? {
      PointsEffectHolds(raw, p, IntAt(r.store, Loyalty(p.from)).value, version, t);
    }
  }

  lemma DirectPutOne(k: Key, v: Value, rest: Prog, version: Version, r: Run)
    ensures r.gas < 1 ==> !Direct(PutState(k, v, rest), version, r).0
    ensures r.gas >= 1 ==>
              Direct(PutState(k, v, rest), version, r) ==
                Direct(rest, version, Run(r.store.Put(k, v, version), r.gas - 1))
  {
  }

  /** Two writes, and then the rest. */
  lemma DirectPutTwo(k1: Key, v1: Value, k2: Key, v2: Value, rest: Prog, version: Version, r: Run)
    ensures var p := PutState(k1, v1, PutState(k2, v2, rest));
            && (r.gas < 2 ==> !Direct(p, version, r).0)
            && (r.gas >= 2 ==>
                  Direct(p, version, r) ==
                  Direct(rest, version, Run(r.store.Put(k1, v1, version).Put(k2, v2, version), r.gas - 2)))
  {
    hide Direct, Store.Put;
    DirectPutOne(k1, v1, PutState(k2, v2, rest), version, r);
    if r.gas > 0 {
      DirectPutOne(k2, v2, rest, version, Run(r.store.Put(k1, v1, version), r.gas - 1));
    }
  }

  /** The treasury's fee, if there is one, and then points. */
  lemma FeeEffect(raw: string, p: TransferFields, treasBal: int64, version: Version, r: Run)
    ensures var fee := CalcFee(p.amount);
            var paid := if fee > 0 then r.store.Put(Balance(TREASURY), Int(Wrap64(treasBal + fee)), version)
              else r.store;
            Matches(if fee > 0 then PutState(Balance(TREASURY), Int(Wrap64(treasBal + fee)), LoyaltyTail(raw, p))
                    else LoyaltyTail(raw, p), version, r, 8,
                    match IntAt(paid, Loyalty(p.from))
                    case None => None
                    case Some(pts) => PointsEffect(paid, version, raw, p, pts))
  {
    hide LoyaltyTail, PointsEffect, IntAt, Direct, CalcFee, Wrap64, Store.Put;
    var fee := CalcFee(p.amount);
    if fee > 0 {
      DirectPutOne(Balance(TREASURY), Int(Wrap64(treasBal + fee)), LoyaltyTail(raw, p), version, r);
      if r.gas >= 1 {
        LoyaltyTailEffect(raw, p, version,
                          Run(r.store.Put(Balance(TREASURY), Int(Wrap64(treasBal + fee)), version), r.gas - 1));
      }
    } else {
      LoyaltyTailEffect(raw, p, version, r);
    }
  }

  lemma LoyaltyPayEffect(raw: string, p: TransferFields, fromBal: int64, toBal: int64, treasBal: int64,
                         version: Version, r: Run)
    ensures var paid := PaidStore(r.store, version, p, fromBal, toBal, treasBal);
            Matches(LoyaltyPay(raw, p, fromBal, toBal, treasBal), version, r, 10,
                    match IntAt(paid, Loyalty(p.from))
                    case None => None
                    case Some(pts) => PointsEffect(paid, version, raw, p, pts))
  {
    hide LoyaltyTail, PointsEffect, IntAt, Direct, CalcFee, Wrap64, Store.Put;
    var fee := CalcFee(p.amount);
    var newFrom, newTo := Int(Wrap64(fromBal - p.amount)), Int(Wrap64(toBal + Wrap64(p.amount - fee)));
    var rest := if fee > 0 then PutState(Balance(TREASURY), Int(Wrap64(treasBal + fee)), LoyaltyTail(raw, p))
      else LoyaltyTail(raw, p);
    DirectPutTwo(Balance(p.from), newFrom, Balance(p.to), newTo, rest, version, r);
    if r.gas >= 2 {
      FeeEffect(raw, p, treasBal, version,
                Run(r.store.Put(Balance(p.from), newFrom, version).Put(Balance(p.to), newTo, version), r.gas - 2));
    }
  }

  lemma LoyaltyToEffect(raw: string, p: TransferFields, fromBal: int64, version: Version, r: Run)
    requires IntAt(r.store, Balance(p.from)) == Some(fromBal) && fromBal >= p.amount
    ensures Matches(LoyaltyTo(raw, p, fromBal), version, r, 14, LoyaltyEffect(r.store, version, raw, p))
  {
    var t := DirectGetInt(Balance(p.to), (toBal: int64) => LoyaltyTreasury(raw, p, fromBal, toBal), version, r);
    if IntAt(r.store, Balance(p.to)).Some? {
      var toBal := IntAt(r.store, Balance(p.to)).value;
      var q := LoyaltyTreasury(raw, p, fromBal, toBal);
      var u := DirectGetInt(Balance(TREASURY), (treasBal: int64) => LoyaltyPay(raw, p, fromBal, toBal, treasBal),
                            version, t);
      if IntAt(r.store, Balance(TREASURY)).Some? {
        LoyaltyPayEffect(raw, p, fromBal, toBal, IntAt(r.store, Balance(TREASURY)).value, version, u);
      }
    }
  }

  lemma LoyaltyEffectHolds(raw: string, p: TransferFields, version: Version, r: Run)
    requires PartiesValid(p.from, p.to, p.amount)
    ensures Matches(ExecuteLoyalty(raw, p), version, r, 16, LoyaltyEffect(r.store, version, raw, p))
  {
    var t := DirectGetInt(Balance(p.from), (fromBal: int64) =>
      if fromBal < p.amount then Halt(false) else LoyaltyTo(raw, p, fromBal), version, r);
    if IntAt(r.store, Balance(p.from)).Some? && IntAt(r.store, Balance(p.from)).value >= p.amount {
      LoyaltyToEffect(raw, p, IntAt(r.store, Balance(p.from)).value, version, t);
    }
  }

  lemma ExecuteEffect(c: Call, version: Version, r: Run)
    requires Verify(c)
    ensures Matches(Execute(c), version, r, 16, Effect(c, r.store, version))
  {
    match c {
      case Transfer(raw, Some(p)) => TransferEffect(raw, p, version, r);
      case LoyaltyXfer(raw, Some(p)) => LoyaltyEffectHolds(raw, p, version, r);
      case DoubleCredit(raw, Some(p)) =>
        MoveFundsEffect(p.from, p.to, p.amount, Wrap64(p.amount * 2), DoubleReceipt(p.to), raw, version, r);
      case QtyCredit(raw, Some(p)) =>
        MoveFundsEffect(p.from, p.to, p.amount, Wrap64(p.amount * p.quantity), QtyReceipt(p.to), raw, version, r);
      case Escrow(raw, Some(p)) => EscrowEffectHolds(raw, p, version, r);
    }
  }

  /** A verified call is executed as its `execute`. */
  lemma DirectGuests(c: Call, version: Version, r: Run)
    ensures DirectAll(Guests(c), version, r) == if Verify(c) then Direct(Execute(c), version, r) else (false, r)
  {
    hide Execute;
    var guests := Guests(c);
    var tail := guests[1..];
    assert tail == [Execute(c)] && tail[1..] == [];
    assert Direct(guests[0], version, r) == (Verify(c), r);
    if Verify(c) {
      assert DirectAll(guests, version, r) == DirectAll(tail, version, r);
      var (ok, t) := Direct(Execute(c), version, r);
      assert DirectAll(tail[1..], version, t) == (true, t);
      assert DirectAll(tail, version, r) == (ok, t);
    }
  }

  /** The guests of every call do exactly what its effect says, given budget for
      16 host calls; with less they may only reject. */
  lemma CallEffect(c: Call, version: Version, r: Run)
    ensures var (ok, t) := DirectAll(Guests(c), version, r);
            && (ok ==> Effect(c, r.store, version) == Some(t.store))
            && (r.gas >= 16 && Effect(c, r.store, version).Some? ==> ok)
  {
    hide Execute, Guests;
    DirectGuests(c, version, r);
    if Verify(c) {
      ExecuteEffect(c, version, r);
    }
  }
}
