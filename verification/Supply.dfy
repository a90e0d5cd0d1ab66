/** Money: the total of all balances and live escrows under contract calls. */
module Supply {
  import opened Wrappers
  import opened Ledger
  import opened Contracts
  import opened Effects

  /** What one entry contributes to the money supply. */
  function Amount(k: Key, v: Value): int {
    match k
    case Balance(_) => if v.Int? then v.n else 0
    case EscrowOf(_) => if AsEscrow(v).Some? then v.amount else 0
    case _ => 0
  }

  function AmountAt(kv: map<Key, Value>, k: Key): int {
    if k in kv then Amount(k, kv[k]) else 0
  }

  /** Sum of the contributions of all entries. */
  ghost function Total(kv: map<Key, Value>): int
    decreases |kv|
  {
    if kv == map[] then 0
    else
      var k :| k in kv;
      Amount(k, kv[k]) + Total(kv - {k})
  }

  lemma {:induction false} TotalRemove(kv: map<Key, Value>, k: Key)
    requires k in kv
    ensures Total(kv) == Amount(k, kv[k]) + Total(kv - {k})
    decreases |kv|
  {
    var j :| j in kv && Total(kv) == Amount(j, kv[j]) + Total(kv - {j});
    if j != k {
      TotalRemove(kv - {j}, k);
      TotalRemove(kv - {k}, j);
      assert kv - {j} - {k} == kv - {k} - {j};
    }
  }

  lemma TotalPut(kv: map<Key, Value>, k: Key, v: Value)
    ensures Total(kv[k := v]) == Total(kv) - AmountAt(kv, k) + Amount(k, v)
  {
    TotalRemove(kv[k := v], k);
    assert kv[k := v] - {k} == kv - {k};
    if k in kv {
      TotalRemove(kv, k);
    } else {
      assert kv - {k} == kv;
    }
  }

  /** Balances and points are non-negative decimals, points below 100, escrows
      empty or complete records. */
  predicate SoundEntry(k: Key, v: Value) {
    match k
    case Balance(_) => v == Empty || (v.Int? && 0 <= v.n <= MAX_INT64)
    case Loyalty(_) => v == Empty || (v.Int? && 0 <= v.n < 100)
    case EscrowOf(_) => v == Empty || AsEscrow(v).Some?
    case _ => true
  }

  ghost predicate Sound(kv: map<Key, Value>) {
    forall k {:trigger SoundEntry(k, kv[k])} | k in kv :: SoundEntry(k, kv[k])
  }

  /** No part of the supply exceeds the whole. */
  lemma {:induction false} PartOfTotal(kv: map<Key, Value>, k: Key)
    requires Sound(kv)
    ensures 0 <= AmountAt(kv, k) <= Total(kv)
    decreases |kv|
  {
    if kv != map[] {
      var j :| j in kv && Total(kv) == Amount(j, kv[j]) + Total(kv - {j});
      assert SoundEntry(j, kv[j]) && Amount(j, kv[j]) >= 0;
      var rest := kv - {j};
      PartOfTotal(rest, k);
      assert AmountAt(kv, k) == if k == j then Amount(j, kv[j]) else AmountAt(rest, k);
    }
  }

  function Points(kv: map<Key, Value>, addr: string): int {
    if Loyalty(addr) in kv && kv[Loyalty(addr)].Int? then kv[Loyalty(addr)].n else 0
  }

  function BonusFor(pts: int): nat {
    if pts < 0 then 0 else pts / 100 * 5
  }

  function ExtraCopies(amount: int, quantity: int): nat {
    if amount < 0 || quantity < 1 then 0 else amount * (quantity - 1)
  }

  /** The declared mint of a call, as a function of the state it executes on:
      the discount, 5 per 100 points, amount, amount * (quantity - 1), or nothing. */
  function Mint(c: Call, s: Store): nat
  {
    if !Verify(c) then 0
    else match c
      case Transfer(_, Some(p)) => p.amount - DiscountedDebit(p.amount, DiscountAt(s, p.from))
      case LoyaltyXfer(_, Some(p)) => BonusFor(Points(s.kv, p.from) + p.amount / 10)
      case DoubleCredit(_, Some(p)) => p.amount
      case QtyCredit(_, Some(p)) => ExtraCopies(p.amount, p.quantity)
      case Escrow(_, _) => 0
  }

  /** What a contract reads as an integer is what the entry contributes. */
  lemma IntIsAmount(s: Store, k: Key)
    requires Sound(s.kv) && k.Balance?
    ensures IntAt(s, k) == Some(AmountAt(s.kv, k))
  {
    if k in s.kv {
      assert SoundEntry(k, s.kv[k]);
    }
  }

  lemma SoundPut(kv: map<Key, Value>, k: Key, v: Value)
    requires Sound(kv) && SoundEntry(k, v)
    ensures Sound(kv[k := v])
  {
  }

  /** A balance write that adds `delta` to the old balance, without wrapping. */
  lemma AddTo(s: Store, k: Key, delta: int, version: Version) returns (t: Store)
    requires Sound(s.kv) && k.Balance?
    requires 0 <= AmountAt(s.kv, k) + delta && Total(s.kv) + delta <= MAX_INT64
    ensures t == s.Put(k, Int(Wrap64(AmountAt(s.kv, k) + delta)), version)
    ensures Wrap64(AmountAt(s.kv, k) + delta) == AmountAt(s.kv, k) + delta
    ensures Sound(t.kv) && Total(t.kv) == Total(s.kv) + delta
  {
    PartOfTotal(s.kv, k);
    var n := AmountAt(s.kv, k) + delta;
    TotalPut(s.kv, k, Int(n));
    SoundPut(s.kv, k, Int(n));
    t := s.Put(k, Int(n), version);
  }

  /** A write that does not concern money. */
  lemma PutOther(s: Store, k: Key, v: Value, version: Version)
    requires Sound(s.kv) && SoundEntry(k, v) && !k.Balance? && !k.EscrowOf?
    ensures Sound(s.Put(k, v, version).kv) && Total(s.Put(k, v, version).kv) == Total(s.kv)
  {
    TotalPut(s.kv, k, v);
  }

  predicate IsReceipt(k: Key) {
    k.EscrowReceipt? || k.TransferReceipt? || k.LoyaltyReceipt? || k.QtyReceipt? || k.DoubleReceipt?
  }

  /** Debits one balance and credits another. */
  lemma Transferred(s: Store, f: Key, t: Key, debit: int, credit: int, version: Version) returns (s2: Store)
    requires Sound(s.kv) && f.Balance? && t.Balance? && f != t
    requires 0 <= debit <= AmountAt(s.kv, f) && 0 <= credit
    requires Total(s.kv) <= MAX_INT64 && Total(s.kv) + credit - debit <= MAX_INT64
    ensures s2 == s.Put(f, Int(Wrap64(AmountAt(s.kv, f) - debit)), version)
                   .Put(t, Int(Wrap64(AmountAt(s.kv, t) + credit)), version)
    ensures Sound(s2.kv) && Total(s2.kv) == Total(s.kv) + credit - debit
    ensures forall b | b != f && b != t :: AmountAt(s2.kv, b) == AmountAt(s.kv, b)
  {
    hide Sound, Total, Wrap64;
    var s1 := AddTo(s, f, -debit, version);
    assert AmountAt(s1.kv, t) == AmountAt(s.kv, t);
    PartOfTotal(s1.kv, t);
    s2 := AddTo(s1, t, credit, version);
  }

  lemma MoveShape(s: Store, version: Version, from: string, to: string, debit: int64, credit: int64, receipt: Key,
                  raw: string)
    requires Sound(s.kv)
    ensures var f, t := AmountAt(s.kv, Balance(from)), AmountAt(s.kv, Balance(to));
            MoveEffect(s, version, from, to, debit, credit, receipt, raw) ==
            if f < debit then None
            else Some(s.Put(Balance(from), Int(Wrap64(f - debit)), version)
                       .Put(Balance(to), Int(Wrap64(t + credit)), version)
                       .Put(receipt, Raw(raw), version))
  {
    IntIsAmount(s, Balance(from));
    IntIsAmount(s, Balance(to));
  }

  lemma MoveSupply(s: Store, version: Version, from: string, to: string, debit: int64, credit: int64, receipt: Key,
                   raw: string)
    requires Sound(s.kv) && from != to && 0 <= debit && 0 <= credit && IsReceipt(receipt)
    requires Total(s.kv) + credit - debit <= MAX_INT64 && Total(s.kv) <= MAX_INT64
    ensures var e := MoveEffect(s, version, from, to, debit, credit, receipt, raw);
            e.Some? ==> Sound(e.value.kv) && Total(e.value.kv) == Total(s.kv) + credit - debit
  {
    hide MoveEffect, Sound, Total, AmountAt;
    MoveShape(s, version, from, to, debit, credit, receipt, raw);
    if AmountAt(s.kv, Balance(from)) >= debit {
      var s2 := Transferred(s, Balance(from), Balance(to), debit, credit, version);
      PutOther(s2, receipt, Raw(raw), version);
    }
  }

  lemma PutsSwap(s: Store, k1: Key, v1: Value, k2: Key, v2: Value, version: Version)
    requires k1 != k2
    ensures s.Put(k1, v1, version).Put(k2, v2, version) == s.Put(k2, v2, version).Put(k1, v1, version)
  {
    assert s.kv[k1 := v1][k2 := v2] == s.kv[k2 := v2][k1 := v1];
    assert s.ver[k1 := version][k2 := version] == s.ver[k2 := version][k1 := version];
  }

  /** Clears an escrow and credits its amount to a balance. */
  lemma Released(s: Store, k: Key, b: Key, amount: int, version: Version) returns (t: Store)
    requires Sound(s.kv) && Total(s.kv) <= MAX_INT64 && k.EscrowOf? && b.Balance?
    requires amount > 0 && AmountAt(s.kv, k) == amount
    ensures AmountAt(s.kv, b) + amount <= MAX_INT64
    ensures t == s.Put(b, Int(Wrap64(AmountAt(s.kv, b) + amount)), version).Put(k, Empty, version)
    ensures Sound(t.kv) && Total(t.kv) == Total(s.kv)
  {
    var s1 := s.Put(k, Empty, version);
    TotalPut(s.kv, k, Empty);
    SoundPut(s.kv, k, Empty);
    assert AmountAt(s1.kv, b) == AmountAt(s.kv, b);
    PartOfTotal(s1.kv, b);
    var n := Int(Wrap64(AmountAt(s.kv, b) + amount));
    t := AddTo(s1, b, amount, version);
    PutsSwap(s, b, n, k, Empty, version);
  }

  lemma PayOutShape(s: Store, version: Version, raw: string, id: string, to: string, amount: int)
    requires Sound(s.kv)
    ensures PayOutEffect(s, version, raw, id, to, amount) ==
            Some(s.Put(Balance(to), Int(Wrap64(AmountAt(s.kv, Balance(to)) + amount)), version)
                  .Put(EscrowOf(id), Empty, version).Put(EscrowReceipt(id), Raw(raw), version))
  {
    IntIsAmount(s, Balance(to));
  }

  lemma PayOutSupply(s: Store, version: Version, raw: string, id: string, to: string, amount: int)
    requires Sound(s.kv) && Total(s.kv) <= MAX_INT64
    requires amount > 0 && AmountAt(s.kv, EscrowOf(id)) == amount
    ensures var e := PayOutEffect(s, version, raw, id, to, amount);
            && e.Some? && Sound(e.value.kv) && Total(e.value.kv) == Total(s.kv)
  {
    hide PayOutEffect, Sound, Total, AmountAt;
    PayOutShape(s, version, raw, id, to, amount);
    var t := Released(s, EscrowOf(id), Balance(to), amount, version);
    PutOther(t, EscrowReceipt(id), Raw(raw), version);
  }

  lemma NoEscrowNoAmount(s: Store, id: string)
    requires Sound(s.kv) && EscrowAt(s, id).None?
    ensures AmountAt(s.kv, EscrowOf(id)) == 0
  {
    if EscrowOf(id) in s.kv { assert SoundEntry(EscrowOf(id), s.kv[EscrowOf(id)]); }
  }

  /** Money taken from a balance into an entry that held none. */
  lemma Stored(s: Store, b: Key, k: Key, v: Value, amount: int, version: Version) returns (t: Store)
    requires Sound(s.kv) && Total(s.kv) <= MAX_INT64 && b.Balance? && b != k && AmountAt(s.kv, k) == 0
    requires SoundEntry(k, v) && Amount(k, v) == amount && 0 <= amount <= AmountAt(s.kv, b)
    ensures t == s.Put(b, Int(Wrap64(AmountAt(s.kv, b) - amount)), version).Put(k, v, version)
    ensures Sound(t.kv) && Total(t.kv) == Total(s.kv)
  {
    hide Sound, Total, SoundEntry, Amount, Wrap64;
    var s1 := AddTo(s, b, -amount, version);
    assert AmountAt(s1.kv, k) == 0;
    TotalPut(s1.kv, k, v);
    SoundPut(s1.kv, k, v);
    t := s1.Put(k, v, version);
  }

  lemma LockSupply(s: Store, version: Version, raw: string, p: EscrowFields)
    requires Sound(s.kv) && Total(s.kv) <= MAX_INT64
    requires Verify(Escrow(raw, Some(p))) && p.action == "lock" && EscrowAt(s, p.id).None?
    ensures var e := EscrowEffect(s, version, raw, p);
            e.Some? ==> Sound(e.value.kv) && Total(e.value.kv) == Total(s.kv)
  {
    hide Sound, Total, AmountAt, IntAt, EscrowAt, Wrap64;
    IntIsAmount(s, Balance(p.from));
    NoEscrowNoAmount(s, p.id);
    if AmountAt(s.kv, Balance(p.from)) >= p.amount {
      var t := Stored(s, Balance(p.from), EscrowOf(p.id), EscrowRec(p.from, p.to, p.amount), p.amount, version);
      PutOther(t, EscrowReceipt(p.id), Raw(raw), version);
    }
  }

  lemma EscrowSupply(s: Store, version: Version, raw: string, p: EscrowFields)
    requires Sound(s.kv) && Total(s.kv) <= MAX_INT64
    requires Verify(Escrow(raw, Some(p)))
    ensures var e := EscrowEffect(s, version, raw, p);
            e.Some? ==> Sound(e.value.kv) && Total(e.value.kv) == Total(s.kv)
  {
    var e := EscrowAt(s, p.id);
    if e.None? {
      if p.action == "lock" { LockSupply(s, version, raw, p); }
    } else {
      assert AmountAt(s.kv, EscrowOf(p.id)) == e.value.amount;
      PayOutSupply(s, version, raw, p.id, e.value.to, e.value.amount);
      PayOutSupply(s, version, raw, p.id, e.value.from, e.value.amount);
    }
  }

  // ---- loyalty_xfer ----

  predicate ThreeBalances(f: Key, t: Key, y: Key) {
    f.Balance? && t.Balance? && y.Balance? && f != t && y != f && y != t
  }

  /** The balances of a loyalty transfer as changes by the amount and the fee. */
  lemma PaidShape(s: Store, version: Version, p: TransferFields, f: int64, t: int64, y: int64)
    requires PartiesValid(p.from, p.to, p.amount)
    ensures var fee := CalcFee(p.amount);
            var moved := s.Put(Balance(p.from), Int(Wrap64(f - p.amount)), version)
                          .Put(Balance(p.to), Int(Wrap64(t + (p.amount - fee))), version);
            && 0 <= fee < p.amount
            && PaidStore(s, version, p, f, t, y) ==
               if fee > 0 then moved.Put(Balance(TREASURY), Int(Wrap64(y + fee)), version) else moved
    ensures ThreeBalances(Balance(p.from), Balance(p.to), Balance(TREASURY))
  {
    hide CalcFee, Wrap64, Store.Put, ByteLen;
    FeeBounds(p.amount);
    NoWrap(p.amount - CalcFee(p.amount));
    TreasuryIsShort(p.from);
    TreasuryIsShort(p.to);
  }

  lemma NoWrap(x: int)
    requires FitsInt64(x)
    ensures Wrap64(x) == x
  {
  }

  lemma TreasuryIsShort(name: string)
    requires ByteLen(name) == 40
    ensures name != TREASURY
  {
    hide ByteLen;
    assert ByteLen(TREASURY) <= 4 * |TREASURY|;
  }

  /** Sender, recipient and treasury of a loyalty transfer. */
  lemma PaidSupply(s: Store, version: Version, p: TransferFields, f: int64, t: int64, y: int64)
    requires Sound(s.kv) && Total(s.kv) <= MAX_INT64 && PartiesValid(p.from, p.to, p.amount) && f >= p.amount
    requires f == AmountAt(s.kv, Balance(p.from)) && t == AmountAt(s.kv, Balance(p.to))
    requires y == AmountAt(s.kv, Balance(TREASURY))
    ensures var paid := PaidStore(s, version, p, f, t, y); Sound(paid.kv) && Total(paid.kv) == Total(s.kv)
  {
    hide CalcFee, Wrap64, PaidStore, AmountAt, FitsInt64, PartiesValid, Store.Put, Sound, Total, ThreeBalances;
    PaidShape(s, version, p, f, t, y);
    var paid := ThreeAdded(s, Balance(p.from), Balance(p.to), Balance(TREASURY), f, t, y, p.amount,
                           CalcFee(p.amount), version);
  }

  lemma ThreeAdded(s: Store, from: Key, to: Key, third: Key, f: int, t: int, y: int, amount: int, fee: int,
                   version: Version) returns (u: Store)
    requires Sound(s.kv) && Total(s.kv) <= MAX_INT64 && ThreeBalances(from, to, third)
    requires 0 <= fee < amount <= f
    requires f == AmountAt(s.kv, from) && t == AmountAt(s.kv, to) && y == AmountAt(s.kv, third)
    ensures var moved := s.Put(from, Int(Wrap64(f - amount)), version)
                          .Put(to, Int(Wrap64(t + (amount - fee))), version);
            u == if fee > 0 then moved.Put(third, Int(Wrap64(y + fee)), version) else moved
    ensures Sound(u.kv) && Total(u.kv) == Total(s.kv)
  {
    hide Sound, Total, Wrap64, AmountAt, Store.Put;
    u := Transferred(s, from, to, amount, amount - fee, version);
    if fee > 0 {
      PartOfTotal(u.kv, third);
      u := AddTo(u, third, fee, version);
    }
  }

  lemma EarnedExactly(pts: int64, amount: int64)
    requires amount > 0 && 0 <= pts < 100
    ensures EarnedPoints(pts, amount) == pts + amount / 10
    ensures var (left, bonus) := Redeem(EarnedPoints(pts, amount));
              0 <= left < 100 && bonus == BonusFor(pts + amount / 10)
  {
  }

  lemma PointsSupply(s: Store, version: Version, raw: string, p: TransferFields, pts: int64)
    requires Sound(s.kv) && p.amount > 0 && 0 <= pts < 100
    requires Total(s.kv) + BonusFor(pts + p.amount / 10) <= MAX_INT64
    ensures var e := PointsEffect(s, version, raw, p, pts);
            e.Some? && Sound(e.value.kv) && Total(e.value.kv) == Total(s.kv) + BonusFor(pts + p.amount / 10)
  {
    hide Sound, Total;
    var (left, bonus) := Redeem(EarnedPoints(pts, p.amount));
    EarnedExactly(pts, p.amount);
    var l, b, receipt := Loyalty(p.from), Balance(p.from), LoyaltyReceipt(p.to);
    PutOther(s, l, Int(left), version);
    var s1 := s.Put(l, Int(left), version);
    IntIsAmount(s1, b);
    if bonus > 0 {
      PartOfTotal(s1.kv, b);
      var s2 := AddTo(s1, b, bonus, version);
      PutOther(s2, receipt, Raw(raw), version);
      assert PointsEffect(s, version, raw, p, pts) == Some(s2.Put(receipt, Raw(raw), version));
    } else {
      PutOther(s1, receipt, Raw(raw), version);
      assert PointsEffect(s, version, raw, p, pts) == Some(s1.Put(receipt, Raw(raw), version));
    }
  }

  lemma PointsRead(s: Store, addr: string)
    requires Sound(s.kv)
    ensures IntAt(s, Loyalty(addr)) == Some(Points(s.kv, addr)) && 0 <= Points(s.kv, addr) < 100
  {
    if Loyalty(addr) in s.kv {
      assert SoundEntry(Loyalty(addr), s.kv[Loyalty(addr)]);
    }
  }

  lemma LoyaltyShape(s: Store, version: Version, raw: string, p: TransferFields)
    requires Sound(s.kv)
    ensures var f, t, y := AmountAt(s.kv, Balance(p.from)), AmountAt(s.kv, Balance(p.to)),
              AmountAt(s.kv, Balance(TREASURY));
            && FitsInt64(f) && FitsInt64(t) && FitsInt64(y) && 0 <= Points(s.kv, p.from) < 100
            && LoyaltyEffect(s, version, raw, p) ==
               if f < p.amount then None
               else PointsEffect(PaidStore(s, version, p, f, t, y), version, raw, p, Points(s.kv, p.from))
  {
    IntIsAmount(s, Balance(p.from));
    IntIsAmount(s, Balance(p.to));
    IntIsAmount(s, Balance(TREASURY));
    PointsRead(s, p.from);
    var paid := PaidStore(s, version, p, AmountAt(s.kv, Balance(p.from)), AmountAt(s.kv, Balance(p.to)),
                          AmountAt(s.kv, Balance(TREASURY)));
    assert paid.Observe(Loyalty(p.from)) == s.Observe(Loyalty(p.from));
  }

  lemma LoyaltySupply(s: Store, version: Version, raw: string, p: TransferFields)
    requires Sound(s.kv) && PartiesValid(p.from, p.to, p.amount)
    requires Total(s.kv) + BonusFor(Points(s.kv, p.from) + p.amount / 10) <= MAX_INT64
    ensures var e := LoyaltyEffect(s, version, raw, p);
            e.Some? ==>
              Sound(e.value.kv) && Total(e.value.kv) == Total(s.kv) + BonusFor(Points(s.kv, p.from) + p.amount / 10)
  {
    hide LoyaltyEffect, PointsEffect, PaidStore, Sound, Total, AmountAt;
    LoyaltyShape(s, version, raw, p);
    PointsRead(s, p.from);
    if AmountAt(s.kv, Balance(p.from)) >= p.amount {
      var f, t, y := AmountAt(s.kv, Balance(p.from)), AmountAt(s.kv, Balance(p.to)), AmountAt(s.kv, Balance(TREASURY));
      PaidSupply(s, version, p, f, t, y);
      var paid := PaidStore(s, version, p, f, t, y);
      PointsSupply(paid, version, raw, p, Points(s.kv, p.from));
    }
  }

  /** One accepted call: entries stay sound and the supply grows by its mint. */
  lemma CallSupply(c: Call, s: Store, version: Version)
    requires Sound(s.kv) && Effect(c, s, version).Some?
    requires Total(s.kv) + Mint(c, s) <= MAX_INT64
    ensures var t := Effect(c, s, version).value; Sound(t.kv) && Total(t.kv) == Total(s.kv) + Mint(c, s)
  {
    hide Sound, Total, MoveEffect, LoyaltyEffect, EscrowEffect, Points;
    match c
    case Transfer(raw, Some(p)) =>
      MoveSupply(s, version, p.from, p.to, DiscountedDebit(p.amount, DiscountAt(s, p.from)), p.amount,
                 TransferReceipt(p.to), raw);
    case LoyaltyXfer(raw, Some(p)) => LoyaltySupply(s, version, raw, p);
    case DoubleCredit(raw, Some(p)) =>
      MoveSupply(s, version, p.from, p.to, p.amount, Wrap64(p.amount * 2), DoubleReceipt(p.to), raw);
    case QtyCredit(raw, Some(p)) =>
      QtyFits(p.amount, p.quantity);
      MoveSupply(s, version, p.from, p.to, p.amount, Wrap64(p.amount * p.quantity), QtyReceipt(p.to), raw);
    case Escrow(raw, Some(p)) => EscrowSupply(s, version, raw, p);
  }

  /** `verify_tx` of qty_credit keeps the product below 2^62. */
  lemma QtyFits(amount: int, quantity: int)
    requires 0 < amount && 0 < quantity && amount <= HALF / quantity
    ensures 0 < amount * quantity <= HALF
    ensures amount * quantity - amount == ExtraCopies(amount, quantity)
  {
    assert amount * quantity <= HALF / quantity * quantity <= HALF;
    assert amount * quantity - amount == amount * (quantity - 1);
  }
}
