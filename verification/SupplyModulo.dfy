/** The supply of money without a bound on it: balances wrap around, and the total
    counts modulo 2^64. */
module SupplyModulo {
  import opened Wrappers
  import opened Ledger
  import opened Contracts
  import opened Effects
  import opened Supply

  const TWO_64: int := 0x1_0000_0000_0000_0000

  ghost predicate Congruent(a: int, b: int) {
    (a - b) % TWO_64 == 0
  }

  lemma CongruentChain(a: int, b: int, d: int, c: int)
    requires Congruent(a, b) && Congruent(b + d, c)
    ensures Congruent(a + d, c)
  {
    assert a + d - c == (a - b) + (b + d - c);
  }

  lemma WrapIsCongruent(x: int)
    ensures Congruent(Wrap64(x), x)
  {
  }

  /** Balances are any 64-bit numbers; points and escrows are as sound ones. */
  predicate TypedEntry(k: Key, v: Value) {
    match k
    case Balance(_) => v == Empty || ParseInt(v).Some?
    case Loyalty(_) => SoundEntry(k, v)
    case EscrowOf(_) => SoundEntry(k, v)
    case _ => true
  }

  ghost predicate Typed(kv: map<Key, Value>) {
    forall k {:trigger TypedEntry(k, kv[k])} | k in kv :: TypedEntry(k, kv[k])
  }

  /** The store has changed its total by `delta`, up to wrap-around. */
  ghost predicate Grown(s: Store, t: Store, delta: int) {
    Typed(t.kv) && Congruent(Total(t.kv), Total(s.kv) + delta)
  }

  lemma NothingGrows(s: Store)
    requires Typed(s.kv)
    ensures Grown(s, s, 0)
  {
  }

  lemma GrownTwice(s: Store, t: Store, u: Store, d: int, e: int)
    requires Grown(s, t, d) && Grown(t, u, e)
    ensures Grown(s, u, d + e)
  {
    CongruentChain(Total(t.kv), Total(s.kv) + d, e, Total(s.kv) + d + e);
    CongruentChain(Total(u.kv), Total(t.kv) + e, 0, Total(s.kv) + d + e);
  }

  lemma TypedIsAmount(s: Store, k: Key)
    requires Typed(s.kv) && k.Balance?
    ensures IntAt(s, k) == Some(AmountAt(s.kv, k))
  {
    if k in s.kv {
      assert TypedEntry(k, s.kv[k]);
    }
  }

  /** A write changes the total by the difference of what the entries contribute. */
  lemma PutGrows(s: Store, k: Key, v: Value, version: Version)
    requires Typed(s.kv) && TypedEntry(k, v)
    ensures Grown(s, s.Put(k, v, version), Amount(k, v) - AmountAt(s.kv, k))
  {
    TotalPut(s.kv, k, v);
  }

  /** A balance write that adds `delta` to the old balance, wrapping around or not. */
  lemma AddGrows(s: Store, k: Key, delta: int, version: Version) returns (t: Store)
    requires Typed(s.kv) && k.Balance?
    ensures t == s.Put(k, Int(Wrap64(AmountAt(s.kv, k) + delta)), version) && Grown(s, t, delta)
    ensures forall b | b != k :: AmountAt(t.kv, b) == AmountAt(s.kv, b)
  {
    var n := AmountAt(s.kv, k) + delta;
    WrapIsCongruent(n);
    PutGrows(s, k, Int(Wrap64(n)), version);
    t := s.Put(k, Int(Wrap64(n)), version);
    CongruentChain(Total(t.kv), Total(s.kv) + Wrap64(n) - AmountAt(s.kv, k), 0, Total(s.kv) + delta);
  }

  lemma ReceiptGrows(s: Store, t: Store, k: Key, v: Value, version: Version, delta: int)
    requires Grown(s, t, delta) && IsReceipt(k)
    ensures Grown(s, t.Put(k, v, version), delta)
  {
    PutGrows(t, k, v, version);
    GrownTwice(s, t, t.Put(k, v, version), delta, 0);
  }

  // ---- The calls ----

  lemma GrownIsTyped(s: Store, t: Store, delta: int)
    requires Grown(s, t, delta)
    ensures Typed(t.kv)
  {
  }

  /** One balance changes, then another. */
  lemma TwoGrow(s: Store, f: Key, t: Key, change: int, credit: int, version: Version) returns (u: Store)
    requires Typed(s.kv) && f.Balance? && t.Balance? && f != t
    ensures u == s.Put(f, Int(Wrap64(AmountAt(s.kv, f) + change)), version)
                  .Put(t, Int(Wrap64(AmountAt(s.kv, t) + credit)), version)
    ensures Grown(s, u, change + credit) && Typed(u.kv)
    ensures forall b | b != f && b != t :: AmountAt(u.kv, b) == AmountAt(s.kv, b)
  {
    hide Typed, Grown, AmountAt, Wrap64, Store.Put;
    var s1 := AddGrows(s, f, change, version);
    GrownIsTyped(s, s1, change);
    u := AddGrows(s1, t, credit, version);
    GrownTwice(s, s1, u, change, credit);
    GrownIsTyped(s, u, change + credit);
  }

  lemma MoveGrows(s: Store, version: Version, from: string, to: string, debit: int64, credit: int64, receipt: Key,
                  raw: string)
    requires Typed(s.kv) && from != to && IsReceipt(receipt)
    ensures var e := MoveEffect(s, version, from, to, debit, credit, receipt, raw);
            e.Some? ==> Grown(s, e.value, credit - debit)
  {
    hide Typed, Grown, AmountAt, Wrap64, Store.Put, IntAt;
    TypedIsAmount(s, Balance(from));
    TypedIsAmount(s, Balance(to));
    var change: int := -(debit as int);
    var u := TwoGrow(s, Balance(from), Balance(to), change, credit, version);
    ReceiptGrows(s, u, receipt, Raw(raw), version, credit - debit);
  }

  lemma PayOutGrows(s: Store, version: Version, raw: string, id: string, to: string, amount: int)
    requires Typed(s.kv) && AmountAt(s.kv, EscrowOf(id)) == amount
    ensures var e := PayOutEffect(s, version, raw, id, to, amount); e.Some? ==> Grown(s, e.value, 0)
  {
    hide Typed, Grown, AmountAt;
    TypedIsAmount(s, Balance(to));
    var s1 := AddGrows(s, Balance(to), amount, version);
    GrownIsTyped(s, s1, amount);
    PutGrows(s1, EscrowOf(id), Empty, version);
    GrownTwice(s, s1, s1.Put(EscrowOf(id), Empty, version), amount, -amount);
    ReceiptGrows(s, s1.Put(EscrowOf(id), Empty, version), EscrowReceipt(id), Raw(raw), version, 0);
  }

  lemma NoEscrowNoAmount(s: Store, id: string)
    requires Typed(s.kv) && EscrowAt(s, id).None?
    ensures AmountAt(s.kv, EscrowOf(id)) == 0
  {
    if EscrowOf(id) in s.kv { assert TypedEntry(EscrowOf(id), s.kv[EscrowOf(id)]); }
  }

  /** Money taken from a balance into an entry that held none. */
  lemma StoredGrows(s: Store, b: Key, k: Key, v: Value, amount: int, version: Version) returns (t: Store)
    requires Typed(s.kv) && b.Balance? && b != k && AmountAt(s.kv, k) == 0
    requires TypedEntry(k, v) && Amount(k, v) == amount
    ensures t == s.Put(b, Int(Wrap64(AmountAt(s.kv, b) - amount)), version).Put(k, v, version)
    ensures Grown(s, t, 0)
  {
    hide *;
    var s1 := AddGrows(s, b, -amount, version);
    GrownIsTyped(s, s1, -amount);
    PutGrows(s1, k, v, version);
    t := s1.Put(k, v, version);
    GrownTwice(s, s1, t, -amount, amount);
  }

  lemma LockGrows(s: Store, version: Version, raw: string, p: EscrowFields)
    requires Typed(s.kv) && Verify(Escrow(raw, Some(p))) && p.action == "lock" && EscrowAt(s, p.id).None?
    ensures var e := EscrowEffect(s, version, raw, p); e.Some? ==> Grown(s, e.value, 0)
  {
    hide Typed, Grown, AmountAt, Wrap64, IntAt, EscrowAt;
    NoEscrowNoAmount(s, p.id);
    TypedIsAmount(s, Balance(p.from));
    var t := StoredGrows(s, Balance(p.from), EscrowOf(p.id), EscrowRec(p.from, p.to, p.amount), p.amount, version);
    ReceiptGrows(s, t, EscrowReceipt(p.id), Raw(raw), version, 0);
  }

  lemma EscrowGrows(s: Store, version: Version, raw: string, p: EscrowFields)
    requires Typed(s.kv) && Verify(Escrow(raw, Some(p)))
    ensures var e := EscrowEffect(s, version, raw, p); e.Some? ==> Grown(s, e.value, 0)
  {
    hide Typed, Grown, PayOutEffect;
    var e := EscrowAt(s, p.id);
    if e.None? {
      if p.action == "lock" { LockGrows(s, version, raw, p); }
    } else {
      assert AmountAt(s.kv, EscrowOf(p.id)) == e.value.amount;
      PayOutGrows(s, version, raw, p.id, e.value.to, e.value.amount);
      PayOutGrows(s, version, raw, p.id, e.value.from, e.value.amount);
    }
  }

  /** Sender, recipient and treasury of a loyalty transfer. */
  lemma PaidGrows(s: Store, version: Version, p: TransferFields, f: int64, t: int64, y: int64)
    requires Typed(s.kv) && PartiesValid(p.from, p.to, p.amount)
    requires f == AmountAt(s.kv, Balance(p.from)) && t == AmountAt(s.kv, Balance(p.to))
    requires y == AmountAt(s.kv, Balance(TREASURY))
    ensures Grown(s, PaidStore(s, version, p, f, t, y), 0)
  {
    hide CalcFee, Wrap64, PaidStore, AmountAt, FitsInt64, PartiesValid, Store.Put, Grown, Typed,
      ThreeBalances;
    PaidShape(s, version, p, f, t, y);
    var paid := ThreeGrow(s, Balance(p.from), Balance(p.to), Balance(TREASURY), f, t, y, p.amount,
                          CalcFee(p.amount), version);
  }

  lemma ThreeGrow(s: Store, from: Key, to: Key, third: Key, f: int, t: int, y: int, amount: int, fee: int,
                  version: Version) returns (u: Store)
    requires Typed(s.kv) && ThreeBalances(from, to, third) && fee >= 0
    requires f == AmountAt(s.kv, from) && t == AmountAt(s.kv, to) && y == AmountAt(s.kv, third)
    ensures var moved := s.Put(from, Int(Wrap64(f - amount)), version)
                          .Put(to, Int(Wrap64(t + (amount - fee))), version);
            u == if fee > 0 then moved.Put(third, Int(Wrap64(y + fee)), version) else moved
    ensures Grown(s, u, 0)
  {
    hide Typed, Grown, Wrap64, AmountAt, Store.Put;
    u := TwoGrow(s, from, to, -amount, amount - fee, version);
    if fee > 0 {
      var moved := u;
      u := AddGrows(moved, third, fee, version);
      GrownTwice(s, moved, u, -fee, fee);
    }
  }

  lemma PointsGrow(s: Store, version: Version, raw: string, p: TransferFields, pts: int64)
    requires Typed(s.kv) && p.amount > 0 && 0 <= pts < 100
    ensures var e := PointsEffect(s, version, raw, p, pts);
            e.Some? ==> Grown(s, e.value, BonusFor(pts + p.amount / 10))
  {
    hide Typed, Grown, AmountAt;
    var (left, bonus) := Redeem(EarnedPoints(pts, p.amount));
    EarnedExactly(pts, p.amount);
    var l, b, receipt := Loyalty(p.from), Balance(p.from), LoyaltyReceipt(p.to);
    PutGrows(s, l, Int(left), version);
    var s1 := s.Put(l, Int(left), version);
    NoAmount(s.kv, l);
    GrownIsTyped(s, s1, 0);
    TypedIsAmount(s1, b);
    if bonus > 0 {
      var s2 := AddGrows(s1, b, bonus, version);
      GrownTwice(s, s1, s2, 0, bonus);
      ReceiptGrows(s, s2, receipt, Raw(raw), version, bonus);
    } else {
      ReceiptGrows(s, s1, receipt, Raw(raw), version, 0);
    }
  }

  lemma NoAmount(kv: map<Key, Value>, k: Key)
    ensures !k.Balance? && !k.EscrowOf? ==> AmountAt(kv, k) == 0
  {
  }

  lemma PaidPoints(s: Store, version: Version, p: TransferFields, f: int64, t: int64, y: int64)
    ensures IntAt(PaidStore(s, version, p, f, t, y), Loyalty(p.from)) == IntAt(s, Loyalty(p.from))
  {
    hide CalcFee;
    var l, paid := Loyalty(p.from), PaidStore(s, version, p, f, t, y);
    assert paid.Observe(l) == s.Observe(l);
  }

  lemma LoyaltyGrows(s: Store, version: Version, raw: string, p: TransferFields)
    requires Typed(s.kv) && PartiesValid(p.from, p.to, p.amount)
    ensures var e := LoyaltyEffect(s, version, raw, p);
            e.Some? ==> Grown(s, e.value, BonusFor(Points(s.kv, p.from) + p.amount / 10))
  {
    hide Grown, Typed, PointsEffect, PaidStore, Points, IntAt, BonusFor;
    TypedIsAmount(s, Balance(p.from));
    TypedIsAmount(s, Balance(p.to));
    TypedIsAmount(s, Balance(TREASURY));
    var f, t, y := IntAt(s, Balance(p.from)).value, IntAt(s, Balance(p.to)).value, IntAt(s, Balance(TREASURY)).value;
    PaidGrows(s, version, p, f, t, y);
    PaidPoints(s, version, p, f, t, y);
    var paid := PaidStore(s, version, p, f, t, y);
    TypedPoints(s, p.from);
    GrownIsTyped(s, paid, 0);
    PointsGrow(paid, version, raw, p, Points(s.kv, p.from));
    var e := PointsEffect(paid, version, raw, p, Points(s.kv, p.from));
    if e.Some? {
      GrownTwice(s, paid, e.value, 0, BonusFor(Points(s.kv, p.from) + p.amount / 10));
    }
  }

  lemma TypedPoints(s: Store, addr: string)
    requires Typed(s.kv)
    ensures IntAt(s, Loyalty(addr)) == Some(Points(s.kv, addr)) && 0 <= Points(s.kv, addr) < 100
  {
    if Loyalty(addr) in s.kv {
      assert TypedEntry(Loyalty(addr), s.kv[Loyalty(addr)]);
    }
  }

  /** One accepted call changes the total by its mint modulo 2^64, however large the
      total and the balances are. */
  lemma CallGrows(c: Call, s: Store, version: Version)
    requires Typed(s.kv) && Effect(c, s, version).Some?
    ensures Grown(s, Effect(c, s, version).value, Mint(c, s))
  {
    hide Grown, Typed, MoveEffect, LoyaltyEffect, EscrowEffect;
    match c
    case Transfer(raw, Some(p)) =>
      MoveGrows(s, version, p.from, p.to, DiscountedDebit(p.amount, DiscountAt(s, p.from)), p.amount,
                TransferReceipt(p.to), raw);
    case LoyaltyXfer(raw, Some(p)) => LoyaltyGrows(s, version, raw, p);
    case DoubleCredit(raw, Some(p)) =>
      MoveGrows(s, version, p.from, p.to, p.amount, Wrap64(p.amount * 2), DoubleReceipt(p.to), raw);
    case QtyCredit(raw, Some(p)) =>
      QtyFits(p.amount, p.quantity);
      MoveGrows(s, version, p.from, p.to, p.amount, Wrap64(p.amount * p.quantity), QtyReceipt(p.to), raw);
    case Escrow(raw, Some(p)) => EscrowGrows(s, version, raw, p);
  }
}
