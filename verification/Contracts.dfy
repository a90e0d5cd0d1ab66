/** The account contracts, written against the two host functions. */
module Contracts {
  import opened Wrappers
  import opened Ledger
  import opened Simulation

  // ---- 64-bit integers ----

  const MIN_INT64: int := -0x8000_0000_0000_0000
  const MAX_INT64: int := 0x7fff_ffff_ffff_ffff

  predicate FitsInt64(x: int) {
    MIN_INT64 <= x <= MAX_INT64
  }

  type int64 = x: int | MIN_INT64 <= x <= MAX_INT64

  /** Two's-complement wrap-around. */
  function Wrap64(x: int): int64
  {
    if FitsInt64(x) then x
    else
      var m := x % 0x1_0000_0000_0000_0000;
      if m > MAX_INT64 then m - 0x1_0000_0000_0000_0000 else m
  }

  /** Division that truncates toward zero. */
  function TruncDiv(x: int, y: int): int
    requires y > 0
  {
    if x >= 0 then x / y else -((-x) / y)
  }

  // ---- Payloads ----

  datatype TransferFields = TransferFields(from: string, to: string, amount: int64, memo: string)
  datatype QtyFields = QtyFields(from: string, to: string, amount: int64, quantity: int64, memo: string)
  datatype EscrowFields = EscrowFields(id: string, action: string, from: string, to: string, amount: int64,
                                       memo: string)

  /** A contract call: the payload text and what decoding it gives, if it decodes. */
  datatype Call =
    | Transfer(raw: string, transfer: Option<TransferFields>)
    | LoyaltyXfer(raw: string, loyalty: Option<TransferFields>)
    | DoubleCredit(raw: string, double: Option<TransferFields>)
    | QtyCredit(raw: string, qty: Option<QtyFields>)
    | Escrow(raw: string, escrow: Option<EscrowFields>)

  predicate PartiesValid(from: string, to: string, amount: int) {
    ByteLen(from) == 40 && ByteLen(to) == 40 && amount > 0 && from != to
  }

  predicate ValidAction(a: string) {
    a == "lock" || a == "release" || a == "refund"
  }

  const HALF: int := 0x4000_0000_0000_0000 // 1 << 62

  /** `verify_tx` of each contract. */
  predicate Verify(c: Call) {
    match c
    case Transfer(raw, Some(p)) => 0 < ByteLen(raw) <= 4096 && PartiesValid(p.from, p.to, p.amount)
      && ByteLen(p.memo) <= 200
    case LoyaltyXfer(raw, Some(p)) => 0 < ByteLen(raw) <= 4096 && PartiesValid(p.from, p.to, p.amount)
      && ByteLen(p.memo) <= 200
    case DoubleCredit(raw, Some(p)) =>
      0 < ByteLen(raw) <= 4096 && PartiesValid(p.from, p.to, p.amount) && p.amount <= HALF - 1 && ByteLen(p.memo) <= 200
    case QtyCredit(raw, Some(p)) =>
      && 0 < ByteLen(raw) <= 4096 && p.quantity > 0 && PartiesValid(p.from, p.to, p.amount)
      && p.amount <= HALF / p.quantity && ByteLen(p.memo) <= 200
    case Escrow(raw, Some(p)) =>
      && 0 < ByteLen(raw) <= 8192 && p.id != "" && ByteLen(p.id) <= 64 && ValidAction(p.action)
        && ByteLen(p.memo) <= 200
      && (if p.action == "lock" then PartiesValid(p.from, p.to, p.amount) else ByteLen(p.from) == 40)
    case _ => false
  }

  // ---- Reading state through the SDK ----

  function Digits(n: nat): nat
    ensures Digits(n) > 0
  {
    if n < 10 then 1 else 1 + Digits(n / 10)
  }

  function IntSize(n: int): nat {
    if n < 0 then 1 + Digits(-n) else Digits(n)
  }

  /** Length of a character inside a JSON text. */
  function JsonCharBytes(c: char): nat {
    if c in "\"\\\n\r\t" || c as int in {0x8, 0xc} then 2
    else if c as int < 0x20 || c in "<>&" || c as int in {0x2028, 0x2029} then 6
    else CharBytes(c)
  }

  function JsonBytes(s: string): nat {
    if s == [] then 0 else JsonBytes(s[..|s| - 1]) + JsonCharBytes(s[|s| - 1])
  }

  /** Length of the stored bytes: decimal text, JSON record, fixed-point text. */
  function Size(v: Value): nat {
    match v
    case Empty => 0
    case Int(n) => IntSize(n)
    case EscrowRec(from, to, amount) => 29 + JsonBytes(from) + JsonBytes(to) + IntSize(amount)
    case Rate(d) => 7 + IntSize(d.Floor)
    case Raw(text) => ByteLen(text)
  }

  /** `SizeOf` and then `GetState` into a buffer of that size: two host calls,
      which see the empty value when the second one finds more bytes. */
  function Fetch(key: Key, cont: Value -> Prog): Prog {
    GetState(key, (probe: Value) =>
      if Size(probe) == 0 then cont(Empty)
      else GetState(key, (v: Value) => if Size(v) == 0 || Size(v) > Size(probe) then cont(Empty) else cont(v)))
  }

  function ParseInt(v: Value): Option<int64> {
    if v.Int? && FitsInt64(v.n) then Some(v.n) else None
  }

  /** `getInt`: missing counts as 0; text that is no int64 rejects the call. */
  function GetInt(key: Key, cont: int64 -> Prog): Prog {
    Fetch(key, (v: Value) =>
      if v == Empty then cont(0)
      else match ParseInt(v)
        case Some(n) => cont(n)
        case None => Halt(false))
  }

  /** `loadEscrow`: a stored record with a positive amount and two addresses. */
  function AsEscrow(v: Value): Option<Value> {
    if v.EscrowRec? && v.amount > 0 && ByteLen(v.from) == 40 && ByteLen(v.to) == 40 then Some(v) else None
  }

  // ---- Fees and points ----

  function FeeBps(amount: int64): int64 {
    if amount >= 500 then 800 else if amount >= 100 then 500 else if amount >= 50 then 200 else 0
  }

  function CalcFee(amount: int64): int64 {
    var bps := FeeBps(amount);
    if bps == 0 then 0
    else
      var fee := TruncDiv(Wrap64(amount * bps), 10000);
      var atLeastOne := if fee < 1 then 1 else fee;
      if atLeastOne >= amount then amount - 1 else atLeastOne
  }

  /** Although the fee product may wrap around, the fee stays below the amount. */
  lemma FeeBounds(amount: int64)
    requires amount > 0
    ensures 0 <= CalcFee(amount) < amount
    ensures amount >= 50 ==> CalcFee(amount) >= 1
    ensures FitsInt64(amount * FeeBps(amount)) && amount >= 50 ==> CalcFee(amount) == amount * FeeBps(amount) / 10000
  {
    var bps := FeeBps(amount);
    if bps != 0 && FitsInt64(amount * bps) {
      assert amount * bps >= 50 * 200;
      assert amount * bps / 10000 < amount;
    }
  }

  /** Points left and bonus paid once every 100 points are burnt for 5. */
  function Redeem(pts: int64): (int64, int64) {
    if pts < 100 then (pts, 0)
    else
      var left: int64, bonus: int64 := pts % 100, pts / 100 * 5;
      (left, bonus)
  }

  /** The redemption loop. */
  method RedeemLoop(points: int64) returns (pts: int64, bonus: int64)
    ensures (pts, bonus) == Redeem(points)
    ensures pts < 100 && 20 * bonus == points - pts
    ensures points < 100 ==> pts == points
    ensures points >= 100 ==> pts >= 0 && bonus % 5 == 0
  {
    pts, bonus := points, 0;
    ghost var burnt := 0;
    while pts >= 100
      invariant if points < 100 then pts == points else 0 <= pts <= points
      invariant bonus == 5 * burnt && points == pts + 100 * burnt && burnt >= 0
    {
      pts := pts - 100;
      bonus := bonus + 5;
      burnt := burnt + 1;
    }
    assert points >= 100 ==> points / 100 == burnt && points % 100 == pts;
  }

  /** Sender's debit of a discounted transfer: ceil(amount / (1 + d) - 1e-12). */
  function DiscountedDebit(amount: int64, d: real): (debit: int)
    requires amount > 0
    ensures 1 <= debit <= amount
  {
    if d <= 0.0 then amount
    else
      var x := amount as real / (1.0 + d) - 0.000000000001;
      assert amount as real / (1.0 + d) <= amount as real;
      var up := -((-x).Floor);
      if up < 1 then 1 else up
  }

  /** A stored discount: a fraction, or a whole number; any other text counts as none. */
  function DiscountOf(v: Value): real {
    match v
    case Rate(d) => d
    case Int(n) => n as real
    case _ => 0.0
  }

  // ---- execute ----

  function Settle(from: string, to: string, newFrom: int64, newTo: int64, receipt: Key, raw: string): Prog {
    PutState(Balance(from), Int(newFrom), PutState(Balance(to), Int(newTo), PutState(receipt, Raw(raw), Halt(true))))
  }

  function CreditTo(from: string, to: string, newFrom: int64, credit: int64, receipt: Key, raw: string): Prog {
    GetInt(Balance(to), (toBal: int64) => Settle(from, to, newFrom, Wrap64(toBal + credit), receipt, raw))
  }

  /** The move shared by `transfer`, `double_credit` and `qty_credit`. */
  function MoveFunds(from: string, to: string, debit: int64, credit: int64, receipt: Key, raw: string): Prog {
    GetInt(Balance(from), (fromBal: int64) =>
      if fromBal < debit then Halt(false)
      else CreditTo(from, to, Wrap64(fromBal - debit), credit, receipt, raw))
  }

  function ExecuteTransfer(raw: string, p: TransferFields): Prog {
    if ByteLen(p.from) != 40 || ByteLen(p.to) != 40 || p.amount <= 0 then Halt(false)
    else Fetch(Discount(p.from), (v: Value) =>
      MoveFunds(p.from, p.to, DiscountedDebit(p.amount, DiscountOf(v)), p.amount, TransferReceipt(p.to), raw))
  }

  function ExecuteDouble(raw: string, p: TransferFields): Prog {
    if ByteLen(p.from) != 40 || ByteLen(p.to) != 40 || p.amount <= 0 || p.amount > HALF - 1 then Halt(false)
    else MoveFunds(p.from, p.to, p.amount, Wrap64(p.amount * 2), DoubleReceipt(p.to), raw)
  }

  function ExecuteQty(raw: string, p: QtyFields): Prog {
    MoveFunds(p.from, p.to, p.amount, Wrap64(p.amount * p.quantity), QtyReceipt(p.to), raw)
  }

  const TREASURY := "treasury"

  function LoyaltyEnd(raw: string, p: TransferFields): Prog {
    PutState(LoyaltyReceipt(p.to), Raw(raw), Halt(true))
  }

  function RewardSender(raw: string, p: TransferFields, bonus: int64): Prog {
    GetInt(Balance(p.from), (fb: int64) =>
      PutState(Balance(p.from), Int(Wrap64(fb + bonus)), LoyaltyEnd(raw, p)))
  }

  function LoyaltyPoints(raw: string, p: TransferFields, pts: int64): Prog {
    var (left, bonus) := Redeem(Wrap64(pts + p.amount / 10));
    PutState(Loyalty(p.from), Int(left), if bonus > 0 then RewardSender(raw, p, bonus) else LoyaltyEnd(raw, p))
  }

  function LoyaltyTail(raw: string, p: TransferFields): Prog {
    GetInt(Loyalty(p.from), (pts: int64) => LoyaltyPoints(raw, p, pts))
  }

  function LoyaltyPay(raw: string, p: TransferFields, fromBal: int64, toBal: int64, treasBal: int64): Prog {
    var fee := CalcFee(p.amount);
    PutState(Balance(p.from), Int(Wrap64(fromBal - p.amount)),
      PutState(Balance(p.to), Int(Wrap64(toBal + Wrap64(p.amount - fee))),
        if fee > 0 then PutState(Balance(TREASURY), Int(Wrap64(treasBal + fee)), LoyaltyTail(raw, p))
        else LoyaltyTail(raw, p)))
  }

  function LoyaltyTreasury(raw: string, p: TransferFields, fromBal: int64, toBal: int64): Prog {
    GetInt(Balance(TREASURY), (treasBal: int64) => LoyaltyPay(raw, p, fromBal, toBal, treasBal))
  }

  function LoyaltyTo(raw: string, p: TransferFields, fromBal: int64): Prog {
    GetInt(Balance(p.to), (toBal: int64) => LoyaltyTreasury(raw, p, fromBal, toBal))
  }

  function ExecuteLoyalty(raw: string, p: TransferFields): Prog {
    if ByteLen(p.from) != 40 || ByteLen(p.to) != 40 || p.amount <= 0 || p.from == p.to then Halt(false)
    else GetInt(Balance(p.from), (fromBal: int64) =>
      if fromBal < p.amount then Halt(false) else LoyaltyTo(raw, p, fromBal))
  }

  function EscrowEnd(raw: string, id: string): Prog {
    PutState(EscrowReceipt(id), Raw(raw), Halt(true))
  }

  function LockFunds(raw: string, p: EscrowFields, fromBal: int64): Prog {
    PutState(Balance(p.from), Int(Wrap64(fromBal - p.amount)),
      PutState(EscrowOf(p.id), EscrowRec(p.from, p.to, p.amount), EscrowEnd(raw, p.id)))
  }

  /** Credits `to` with the escrow's amount and clears the escrow. */
  function PayOut(raw: string, p: EscrowFields, to: string, amount: int): Prog {
    GetInt(Balance(to), (bal: int64) =>
      PutState(Balance(to), Int(Wrap64(bal + amount)),
        PutState(EscrowOf(p.id), Empty, EscrowEnd(raw, p.id))))
  }

  function EscrowAction(raw: string, p: EscrowFields, stored: Value): Prog {
    var e := AsEscrow(stored);
    if p.action == "lock" then
      if e.Some? then Halt(false)
      else GetInt(Balance(p.from), (fromBal: int64) =>
        if fromBal < p.amount then Halt(false) else LockFunds(raw, p, fromBal))
    else if e.None? then Halt(false)
    else if p.action == "release" then
      if p.from != e.value.from && p.from != e.value.to then Halt(false) else PayOut(raw, p, e.value.to, e.value.amount)
    else
      if p.from != e.value.from then Halt(false) else PayOut(raw, p, e.value.from, e.value.amount)
  }

  function ExecuteEscrow(raw: string, p: EscrowFields): Prog {
    if p.id == "" || !ValidAction(p.action) then Halt(false)
    else if p.action == "lock" && !PartiesValid(p.from, p.to, p.amount) then Halt(false)
    else Fetch(EscrowOf(p.id), (v: Value) => EscrowAction(raw, p, v))
  }

  function Execute(c: Call): Prog {
    match c
    case Transfer(raw, Some(p)) => ExecuteTransfer(raw, p)
    case LoyaltyXfer(raw, Some(p)) => ExecuteLoyalty(raw, p)
    case DoubleCredit(raw, Some(p)) => ExecuteDouble(raw, p)
    case QtyCredit(raw, Some(p)) => ExecuteQty(raw, p)
    case Escrow(raw, Some(p)) => ExecuteEscrow(raw, p)
    case _ => Halt(false)
  }

  /** The two guest calls the engine makes for a call. */
  function Guests(c: Call): seq<Prog> {
    [Halt(Verify(c)), Execute(c)]
  }
}
