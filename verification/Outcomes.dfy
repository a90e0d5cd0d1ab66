/** What becomes of each contract call that is simulated on the newest state: when it is
    VALID, and the balances it leaves, written out. */
module Outcomes {
  import opened Wrappers
  import opened Ledger
  import opened RwSets
  import opened Simulation
  import opened WorldStates
  import opened Contracts
  import opened Effects
  import opened Footprints
  import opened DirectCalls
  import opened Supply

  /** The newest state answers every fetch, with budget for the call; the parties of its
      escrows have no white space at their end. */
  ghost predicate OnNewest(s: Store, feed: nat -> Store, gas: nat) {
    Constant(feed, s) && gas >= 16 && StoreUses(s, CleanText)
  }

  /** The store after the call, if it is accepted and found VALID. */
  function Outcome(s: Store, c: Call, feed: nat -> Store, gas: nat, height: int, i: nat): Option<Store> {
    match ExecuteSpec(Guests(c), feed, gas)
    case Err(_) => None
    case Ok(rw) =>
      match CommitTx(s, Tx("", rw), height, i)
      case Err(_) => None
      case Ok((t, code)) => if code == Valid then Some(t) else None
  }

  lemma OutcomeIsEffect(s: Store, c: Call, feed: nat -> Store, gas: nat, height: int, i: nat)
    requires OnNewest(s, feed, gas) && CallUses(c, CleanText) && CleanText(IdOf(c))
    ensures Outcome(s, c, feed, gas, height, i) == Effect(c, s, AtBlock(height, i))
  {
    hide ExecuteSpec, CommitTx, Guests, Effect, StoreUses, CallUses;
    CleanNewestExactly(s, c, feed, gas, "", height, i);
  }

  // ---- Reading the state ----

  /** The number stored under a key: none stored counts as zero, and only decimal text in
      the range of 64 bits counts as a number. */
  function Held(s: Store, k: Key): Option<int> {
    if k !in s.kv || s.kv[k] == Empty || s.kv[k] == Raw("") then Some(0)
    else if s.kv[k].Int? && -0x8000_0000_0000_0000 <= s.kv[k].n <= 0x7fff_ffff_ffff_ffff then Some(s.kv[k].n)
    else None
  }

  lemma HeldIsInt(s: Store, k: Key)
    ensures Held(s, k) == match IntAt(s, k) case Some(n) => Some(n) case None => None
  {
  }

  lemma HeldFits(s: Store, k: Key)
    ensures Held(s, k).Some? ==> FitsInt64(Held(s, k).value)
  {
  }

  function Discounted(s: Store, from: string): real {
    var k := Discount(from);
    if k !in s.kv then 0.0
    else match s.kv[k]
      case Rate(d) => d
      case Int(n) => n as real
      case _ => 0.0
  }

  /** The live escrow under an id: a record of a positive amount between two addresses. */
  function Live(s: Store, id: string): Option<Value> {
    var k := EscrowOf(id);
    if k in s.kv && s.kv[k].EscrowRec? && s.kv[k].amount > 0
       && ByteLen(s.kv[k].from) == 40 && ByteLen(s.kv[k].to) == 40 then Some(s.kv[k])
    else None
  }

  lemma LiveIsEscrow(s: Store, id: string)
    ensures Live(s, id) == EscrowAt(s, id)
  {
  }

  /** Nothing changes but the entries under the given keys. */
  ghost predicate OnlyChanges(s: Store, t: Store, keys: set<Key>) {
    forall k | k !in keys :: t.GetKV(k) == s.GetKV(k) && t.GetVersion(k) == s.GetVersion(k)
  }

  /** `n` more than before, as long as it fits 64 bits. */
  predicate Gains(s: Store, t: Store, k: Key, n: int) {
    Held(s, k).Some? && (Held(s, k).value + n <= 0x7fff_ffff_ffff_ffff ==> t.Observe(k) == Int(Held(s, k).value + n))
  }

  predicate Pays(s: Store, t: Store, k: Key, n: int) {
    Held(s, k).Some? && t.Observe(k) == Int(Held(s, k).value - n)
  }

  // ---- What verify_tx asks of a transfer ----

  predicate TransferLimits(raw: string, from: string, to: string, amount: int, memo: string) {
    && 1 <= ByteLen(raw) <= 4096 && ByteLen(memo) <= 200
    && ByteLen(from) == 40 && ByteLen(to) == 40 && from != to && amount >= 1
  }

  // ---- transfer ----

  /** The debit of a transfer at a discount `d`: the least whole number, at least one, that
      is not below amount / (1 + d) - 10^-12. */
  predicate IsDebit(amount: int, d: real, debit: int) {
    if d <= 0.0 then debit == amount
    else
      && debit >= 1
      && debit as real >= amount as real / (1.0 + d) - 0.000000000001
      && (debit == 1 || (debit - 1) as real < amount as real / (1.0 + d) - 0.000000000001)
  }

  lemma DebitIs(amount: int64, d: real, debit: int)
    requires amount > 0
    ensures IsDebit(amount, d, debit) <==> debit == DiscountedDebit(amount, d)
  {
    if d > 0.0 {
      var x := amount as real / (1.0 + d) - 0.000000000001;
      var up := -((-x).Floor);
      assert up as real >= x && (up - 1) as real < x;
    }
  }

  lemma ThreePuts(s: Store, version: Version, f: Key, r: Key, receipt: Key, paid: Value, gained: Value, raw: string)
    requires f != r && f != receipt && r != receipt
    ensures var t := s.Put(f, paid, version).Put(r, gained, version).Put(receipt, Raw(raw), version);
            && t.Observe(f) == paid && t.Observe(r) == gained && t.Observe(receipt) == Raw(raw)
            && OnlyChanges(s, t, {f, r, receipt})
  {
  }

  lemma CanMove(s: Store, version: Version, from: string, to: string, debit: int64, credit: int64, receipt: Key,
                raw: string)
    requires debit > 0
    ensures var e, f, t := MoveEffect(s, version, from, to, debit, credit, receipt, raw), Held(s, Balance(from)),
              Held(s, Balance(to));
            && (e.Some? <==> f.Some? && t.Some? && f.value >= debit)
            && (e.Some? ==>
                  e == Some(s.Put(Balance(from), Int(f.value - debit), version)
                             .Put(Balance(to), Int(Wrap64(t.value + credit)), version).Put(receipt, Raw(raw), version)))
  {
    hide Held, IntAt, Store.Put, Wrap64;
    HeldIsInt(s, Balance(from));
    HeldIsInt(s, Balance(to));
    if IntAt(s, Balance(from)).Some? && IntAt(s, Balance(from)).value >= debit {
      NoWrap(IntAt(s, Balance(from)).value - debit);
    }
  }

  lemma MoveLeaves(s: Store, version: Version, from: string, to: string, debit: int64, credit: int64, receipt: Key,
                   raw: string)
    requires from != to && debit > 0 && credit > 0 && IsReceipt(receipt)
    ensures var e := MoveEffect(s, version, from, to, debit, credit, receipt, raw);
            && (e.Some? <==>
                  && Held(s, Balance(from)).Some? && Held(s, Balance(to)).Some?
                  && Held(s, Balance(from)).value >= debit)
            && (e.Some? ==>
                  && Pays(s, e.value, Balance(from), debit) && Gains(s, e.value, Balance(to), credit)
                  && e.value.Observe(receipt) == Raw(raw)
                  && OnlyChanges(s, e.value, {Balance(from), Balance(to), receipt}))
  {
    hide Held, MoveEffect, Wrap64, Store.Put, OnlyChanges;
    CanMove(s, version, from, to, debit, credit, receipt, raw);
    var f, t := Held(s, Balance(from)), Held(s, Balance(to));
    if f.Some? && t.Some? && f.value >= debit {
      ThreePuts(s, version, Balance(from), Balance(to), receipt, Int(f.value - debit), Int(Wrap64(t.value + credit)),
                raw);
      if t.value + credit <= MAX_INT64 {
        HeldFits(s, Balance(to));
        NoWrap(t.value + credit);
      }
    }
  }

  /** VALID exactly within the limits of `verify_tx` and with funds for the debit; the
      sender pays the debit and the recipient gains the amount. */
  lemma TransferOutcome(s: Store, raw: string, p: TransferFields, debit: int, feed: nat -> Store, gas: nat, height: int,
                        i: nat)
    requires OnNewest(s, feed, gas) && CleanText(p.from) && CleanText(p.to)
    requires IsDebit(p.amount, Discounted(s, p.from), debit)
    ensures var t := Outcome(s, Transfer(raw, Some(p)), feed, gas, height, i);
            var f, r := Balance(p.from), Balance(p.to);
            && (t.Some? <==>
                  && TransferLimits(raw, p.from, p.to, p.amount, p.memo)
                  && Held(s, f).Some? && Held(s, r).Some? && Held(s, f).value >= debit)
            && (t.Some? ==>
                  && Pays(s, t.value, f, debit) && Gains(s, t.value, r, p.amount)
                  && t.value.Observe(TransferReceipt(p.to)) == Raw(raw)
                  && OnlyChanges(s, t.value, {f, r, TransferReceipt(p.to)}))
  {
    hide Outcome, OnNewest, Held, Pays, Gains, OnlyChanges, MoveEffect, IsDebit, ByteLen;
    var c := Transfer(raw, Some(p));
    OutcomeIsEffect(s, c, feed, gas, height, i);
    DiscountIs(s, p.from);
    if p.amount > 0 {
      DebitIs(p.amount, Discounted(s, p.from), debit);
      if p.from != p.to {
        MoveLeaves(s, AtBlock(height, i), p.from, p.to, debit, p.amount, TransferReceipt(p.to), raw);
      }
    }
  }

  lemma DiscountIs(s: Store, from: string)
    ensures DiscountAt(s, from) == Discounted(s, from)
  {
  }

  // ---- double_credit and qty_credit ----

  /** The amount stays below 2^62; the recipient gains it twice. */
  lemma DoubleOutcome(s: Store, raw: string, p: TransferFields, feed: nat -> Store, gas: nat, height: int, i: nat)
    requires OnNewest(s, feed, gas) && CleanText(p.from) && CleanText(p.to)
    ensures var t := Outcome(s, DoubleCredit(raw, Some(p)), feed, gas, height, i);
            var f, r := Balance(p.from), Balance(p.to);
            && (t.Some? <==>
                  && TransferLimits(raw, p.from, p.to, p.amount, p.memo) && p.amount < 0x4000_0000_0000_0000
                  && Held(s, f).Some? && Held(s, r).Some? && Held(s, f).value >= p.amount)
            && (t.Some? ==>
                  && Pays(s, t.value, f, p.amount) && Gains(s, t.value, r, 2 * p.amount)
                  && t.value.Observe(DoubleReceipt(p.to)) == Raw(raw)
                  && OnlyChanges(s, t.value, {f, r, DoubleReceipt(p.to)}))
  {
    hide Outcome, OnNewest, Held, Pays, Gains, OnlyChanges, MoveEffect, ByteLen;
    var c := DoubleCredit(raw, Some(p));
    OutcomeIsEffect(s, c, feed, gas, height, i);
    if 0 < p.amount <= HALF - 1 && p.from != p.to {
      MoveLeaves(s, AtBlock(height, i), p.from, p.to, p.amount, Wrap64(p.amount * 2), DoubleReceipt(p.to), raw);
    }
  }

  /** The product stays at most 2^62; the recipient gains the amount times the quantity. */
  lemma QtyOutcome(s: Store, raw: string, p: QtyFields, feed: nat -> Store, gas: nat, height: int, i: nat)
    requires OnNewest(s, feed, gas) && CleanText(p.from) && CleanText(p.to)
    ensures var t := Outcome(s, QtyCredit(raw, Some(p)), feed, gas, height, i);
            var f, r := Balance(p.from), Balance(p.to);
            && (t.Some? <==>
                  && TransferLimits(raw, p.from, p.to, p.amount, p.memo)
                  && p.quantity >= 1 && p.amount * p.quantity <= 0x4000_0000_0000_0000
                  && Held(s, f).Some? && Held(s, r).Some? && Held(s, f).value >= p.amount)
            && (t.Some? ==>
                  && Pays(s, t.value, f, p.amount) && Gains(s, t.value, r, p.amount * p.quantity)
                  && t.value.Observe(QtyReceipt(p.to)) == Raw(raw)
                  && OnlyChanges(s, t.value, {f, r, QtyReceipt(p.to)}))
  {
    hide Outcome, OnNewest, Held, Pays, Gains, OnlyChanges, MoveEffect, ByteLen, Wrap64;
    var c := QtyCredit(raw, Some(p));
    OutcomeIsEffect(s, c, feed, gas, height, i);
    if p.amount > 0 && p.quantity > 0 {
      QtyLimit(p.amount, p.quantity);
      if p.amount <= HALF / p.quantity && p.from != p.to {
        MoveLeaves(s, AtBlock(height, i), p.from, p.to, p.amount, p.amount * p.quantity, QtyReceipt(p.to), raw);
      }
    }
  }

  /** The quotient that `verify_tx` compares with bounds the product. */
  lemma QtyLimit(amount: int, quantity: int)
    requires amount > 0 && quantity > 0
    ensures amount <= HALF / quantity <==> amount * quantity <= 0x4000_0000_0000_0000
    ensures amount <= HALF / quantity ==> 0 < amount * quantity && Wrap64(amount * quantity) == amount * quantity
  {
    if amount <= HALF / quantity {
      QtyFits(amount, quantity);
    } else {
      assert HALF == HALF / quantity * quantity + HALF % quantity;
      assert amount * quantity >= (HALF / quantity + 1) * quantity;
    }
  }

  // ---- loyalty_xfer ----

  /** The fee schedule by amount.  From 500 on it is 8 percent, computed in 64 bits. */
  predicate IsFee(amount: int, fee: int) {
    if amount < 50 then fee == 0
    else if amount < 100 then fee == amount / 50
    else if amount < 500 then fee == amount / 20
    else if amount * 800 <= 0x7fff_ffff_ffff_ffff then fee == amount * 8 / 100
    else
      var wrapped := (amount * 800 + 0x8000_0000_0000_0000) % 0x1_0000_0000_0000_0000 - 0x8000_0000_0000_0000;
      fee == if wrapped < 10000 then 1 else wrapped / 10000
  }

  /** `calcFee` follows the schedule. */
  lemma FeeIs(amount: int64, fee: int)
    requires amount > 0
    ensures IsFee(amount, fee) <==> fee == CalcFee(amount)
  {
    FeeBounds(amount);
    if amount >= 500 {
      WrappedFee(amount);
    }
  }

  lemma WrappedFee(amount: int64)
    requires amount >= 500
    ensures var wrapped := (amount * 800 + 0x8000_0000_0000_0000) % 0x1_0000_0000_0000_0000 - 0x8000_0000_0000_0000;
            wrapped == Wrap64(amount * 800)
  {
  }

  /** Points earned are a tenth of the amount; every full hundred is burnt for five. */
  function BonusOf(points: int, amount: int): int {
    (points + amount / 10) / 100 * 5
  }

  /** The last part: points, redemption and receipt. */
  lemma PointsLeave(s: Store, version: Version, raw: string, p: TransferFields, pts: int64, bal: int64)
    requires p.amount > 0 && s.Observe(Balance(p.from)) == Int(bal)
    ensures var e := PointsEffect(s, version, raw, p, pts);
            && e.Some? && e.value.Observe(LoyaltyReceipt(p.to)) == Raw(raw)
            && OnlyChanges(s, e.value, {Balance(p.from), Loyalty(p.from), LoyaltyReceipt(p.to)})
            && (0 <= pts < 100 && 0 <= bal <= 0x7fff_ffff_ffff_ffff - p.amount ==>
                  && e.value.Observe(Loyalty(p.from)) == Int((pts + p.amount / 10) % 100)
                  && e.value.Observe(Balance(p.from)) == Int(bal + BonusOf(pts, p.amount)))
  {
    var (left, bonus) := Redeem(EarnedPoints(pts, p.amount));
    if 0 <= pts < 100 {
      EarnedExactly(pts, p.amount);
      assert left == (pts + p.amount / 10) % 100 && bonus == BonusOf(pts, p.amount);
      assert bonus <= p.amount;
    }
    hide Redeem, EarnedPoints;
  }

  lemma PaidLeaves(s: Store, version: Version, p: TransferFields, f: int64, t: int64, y: int64)
    requires PartiesValid(p.from, p.to, p.amount) && f >= p.amount
    requires Held(s, Balance(p.from)) == Some(f) && Held(s, Balance(p.to)) == Some(t)
    requires Held(s, Balance(TREASURY)) == Some(y)
    ensures var fee, paid := CalcFee(p.amount), PaidStore(s, version, p, f, t, y);
            && paid.Observe(Balance(p.from)) == Int(f - p.amount) && Gains(s, paid, Balance(p.to), p.amount - fee)
            && (fee > 0 ==> Gains(s, paid, Balance(TREASURY), fee))
            && OnlyChanges(s, paid, {Balance(p.from), Balance(p.to)} + if fee > 0 then {Balance(TREASURY)} else {})
  {
    hide CalcFee, Held, ByteLen;
    FeeBounds(p.amount);
    TreasuryIsShort(p.from);
    TreasuryIsShort(p.to);
  }

  lemma SameHeld(s: Store, t: Store, k: Key)
    requires t.GetKV(k) == s.GetKV(k)
    ensures Held(t, k) == Held(s, k)
  {
  }

  lemma GainsStay(s: Store, paid: Store, t: Store, k: Key, n: int)
    requires Gains(s, paid, k, n) && t.GetKV(k) == paid.GetKV(k)
    ensures Gains(s, t, k, n)
  {
    hide Held;
  }

  lemma LoyaltyLeaves(s: Store, version: Version, raw: string, p: TransferFields)
    requires PartiesValid(p.from, p.to, p.amount)
    ensures var e, fee := LoyaltyEffect(s, version, raw, p), CalcFee(p.amount);
            var f, r, y, l := Balance(p.from), Balance(p.to), Balance(TREASURY), Loyalty(p.from);
            && (e.Some? <==>
                  && Held(s, f).Some? && Held(s, r).Some? && Held(s, y).Some? && Held(s, l).Some?
                  && Held(s, f).value >= p.amount)
            && (e.Some? ==>
                  && Gains(s, e.value, r, p.amount - fee) && (fee > 0 ==> Gains(s, e.value, y, fee))
                  && e.value.Observe(LoyaltyReceipt(p.to)) == Raw(raw)
                  && OnlyChanges(s, e.value, {f, r, l, LoyaltyReceipt(p.to)} + if fee > 0 then {y} else {})
                  && (0 <= Held(s, l).value < 100 ==>
                        && e.value.Observe(l) == Int((Held(s, l).value + p.amount / 10) % 100)
                        && e.value.Observe(f) ==
                          Int(Held(s, f).value - p.amount + BonusOf(Held(s, l).value, p.amount))))
  {
    hide CalcFee, Held, IntAt, PaidStore, PointsEffect, ByteLen, BonusOf, Gains;
    var f, r, y, l := Balance(p.from), Balance(p.to), Balance(TREASURY), Loyalty(p.from);
    HeldIsInt(s, f);
    HeldIsInt(s, r);
    HeldIsInt(s, y);
    HeldIsInt(s, l);
    if IntAt(s, f).Some? && IntAt(s, r).Some? && IntAt(s, y).Some? && IntAt(s, f).value >= p.amount {
      var fv, rv, yv := IntAt(s, f).value, IntAt(s, r).value, IntAt(s, y).value;
      PaidLeaves(s, version, p, fv, rv, yv);
      var paid := PaidStore(s, version, p, fv, rv, yv);
      SameHeld(s, paid, l);
      HeldIsInt(paid, l);
      if IntAt(paid, l).Some? {
        TreasuryIsShort(p.from);
        PointsLeave(paid, version, raw, p, IntAt(paid, l).value, fv - p.amount);
        var after := PointsEffect(paid, version, raw, p, IntAt(paid, l).value).value;
        GainsStay(s, paid, after, r, p.amount - CalcFee(p.amount));
        if CalcFee(p.amount) > 0 { GainsStay(s, paid, after, y, CalcFee(p.amount)); }
      }
    }
  }

  /** VALID exactly within the limits of `verify_tx` and with funds for the amount; the
      sender pays it, the recipient gains all but the fee, and the treasury the fee. */
  lemma LoyaltyOutcome(s: Store, raw: string, p: TransferFields, fee: int, feed: nat -> Store, gas: nat, height: int,
                       i: nat)
    requires OnNewest(s, feed, gas) && CleanText(p.from) && CleanText(p.to) && IsFee(p.amount, fee)
    ensures var t := Outcome(s, LoyaltyXfer(raw, Some(p)), feed, gas, height, i);
            var f, r, y, l := Balance(p.from), Balance(p.to), Balance("treasury"), Loyalty(p.from);
            && (t.Some? <==>
                  && TransferLimits(raw, p.from, p.to, p.amount, p.memo)
                  && Held(s, f).Some? && Held(s, r).Some? && Held(s, y).Some? && Held(s, l).Some?
                  && Held(s, f).value >= p.amount)
            && (t.Some? ==>
                  && Gains(s, t.value, r, p.amount - fee) && (fee > 0 ==> Gains(s, t.value, y, fee))
                  && t.value.Observe(LoyaltyReceipt(p.to)) == Raw(raw)
                  && OnlyChanges(s, t.value, {f, r, l, LoyaltyReceipt(p.to)} + if fee > 0 then {y} else {})
                  && (0 <= Held(s, l).value < 100 ==>
                        && t.value.Observe(l) == Int((Held(s, l).value + p.amount / 10) % 100)
                        && t.value.Observe(f) ==
                          Int(Held(s, f).value - p.amount + BonusOf(Held(s, l).value, p.amount))))
  {
    hide Outcome, OnNewest, Held, Gains, OnlyChanges, LoyaltyEffect, IsFee, CalcFee, ByteLen, BonusOf;
    var c := LoyaltyXfer(raw, Some(p));
    OutcomeIsEffect(s, c, feed, gas, height, i);
    if PartiesValid(p.from, p.to, p.amount) {
      FeeIs(p.amount, fee);
      LoyaltyLeaves(s, AtBlock(height, i), raw, p);
    }
  }

  // ---- escrow ----

  /** What `verify_tx` asks of every escrow call. */
  predicate EscrowLimits(raw: string, p: EscrowFields) {
    1 <= ByteLen(raw) <= 8192 && 1 <= ByteLen(p.id) <= 64 && ByteLen(p.memo) <= 200 && ByteLen(p.from) == 40
  }

  /** A lock is VALID exactly within the limits, on an id without a live escrow and with
      funds for the amount, which the sender pays into the record. */
  lemma LockOutcome(s: Store, raw: string, p: EscrowFields, feed: nat -> Store, gas: nat, height: int, i: nat)
    requires OnNewest(s, feed, gas) && CleanText(p.id) && CleanText(p.from) && CleanText(p.to) && p.action == "lock"
    ensures var t := Outcome(s, Escrow(raw, Some(p)), feed, gas, height, i);
            var f, e := Balance(p.from), EscrowOf(p.id);
            && (t.Some? <==>
                  && EscrowLimits(raw, p) && ByteLen(p.to) == 40 && p.from != p.to && p.amount >= 1
                  && Live(s, p.id).None? && Held(s, f).Some? && Held(s, f).value >= p.amount)
            && (t.Some? ==>
                  && Pays(s, t.value, f, p.amount) && t.value.Observe(e) == EscrowRec(p.from, p.to, p.amount)
                  && t.value.Observe(EscrowReceipt(p.id)) == Raw(raw)
                  && OnlyChanges(s, t.value, {f, e, EscrowReceipt(p.id)}))
  {
    hide Outcome, OnNewest, Held, Live, EscrowAt, IntAt, ByteLen;
    OutcomeIsEffect(s, Escrow(raw, Some(p)), feed, gas, height, i);
    HeldIsInt(s, Balance(p.from));
    LiveIsEscrow(s, p.id);
    NoBytes(p.id);
  }

  lemma NoBytes(s: string)
    ensures ByteLen(s) >= 1 <==> s != ""
  {
  }

  lemma PayOutGains(s: Store, version: Version, raw: string, id: string, to: string, amount: int)
    requires amount > 0
    ensures var e := PayOutEffect(s, version, raw, id, to, amount);
            && (e.Some? <==> Held(s, Balance(to)).Some?)
            && (e.Some? ==>
                  && Gains(s, e.value, Balance(to), amount) && e.value.Observe(EscrowOf(id)) == Empty
                  && e.value.Observe(EscrowReceipt(id)) == Raw(raw)
                  && OnlyChanges(s, e.value, {Balance(to), EscrowOf(id), EscrowReceipt(id)}))
  {
    hide Held, IntAt;
    HeldIsInt(s, Balance(to));
  }

  /** A payout is VALID exactly when it is a release by either party or a refund by the
      sender, within the limits, of a live escrow, whose amount the recipient or the sender
      gains. */
  lemma PayoutOutcome(s: Store, raw: string, p: EscrowFields, feed: nat -> Store, gas: nat, height: int, i: nat)
    requires OnNewest(s, feed, gas) && CleanText(p.id) && p.action != "lock"
    ensures var t, e := Outcome(s, Escrow(raw, Some(p)), feed, gas, height, i), Live(s, p.id);
            && (t.Some? <==>
                  && EscrowLimits(raw, p) && e.Some?
                  && (|| (p.action == "release" && (p.from == e.value.from || p.from == e.value.to)
                          && Held(s, Balance(e.value.to)).Some?)
                      || (p.action == "refund" && p.from == e.value.from && Held(s, Balance(e.value.from)).Some?)))
            && (t.Some? ==>
                  var to := if p.action == "release" then e.value.to else e.value.from;
                  && Gains(s, t.value, Balance(to), e.value.amount) && t.value.Observe(EscrowOf(p.id)) == Empty
                  && t.value.Observe(EscrowReceipt(p.id)) == Raw(raw)
                  && OnlyChanges(s, t.value, {Balance(to), EscrowOf(p.id), EscrowReceipt(p.id)}))
  {
    hide Outcome, OnNewest, Held, Live, ByteLen, Gains, OnlyChanges, PayOutEffect;
    OutcomeIsEffect(s, Escrow(raw, Some(p)), feed, gas, height, i);
    LiveIsEscrow(s, p.id);
    NoBytes(p.id);
    if EscrowAt(s, p.id).Some? {
      var e := EscrowAt(s, p.id).value;
      PayOutGains(s, AtBlock(height, i), raw, p.id, e.to, e.amount);
      PayOutGains(s, AtBlock(height, i), raw, p.id, e.from, e.amount);
    }
  }

  /** A payload that does not decode is never VALID. */
  lemma UndecodedOutcome(s: Store, c: Call, feed: nat -> Store, gas: nat, height: int, i: nat)
    requires match c
             case Transfer(_, p) => p.None?
             case LoyaltyXfer(_, p) => p.None?
             case DoubleCredit(_, p) => p.None?
             case QtyCredit(_, p) => p.None?
             case Escrow(_, p) => p.None?
    ensures Outcome(s, c, feed, gas, height, i) == None
  {
    hide Execute;
    TwoGuests(c, feed, Sim(RW([], []), 0, gas));
  }
}
