/** What goes wrong with an account that is the treasury's name with white space after
    it, and that nothing goes wrong with any other. */
module Trimming {
  import opened Wrappers
  import opened Ledger
  import opened Texts
  import opened RwSets
  import opened Simulation
  import opened WorldStates
  import opened Histories
  import opened Contracts
  import opened Effects
  import opened Footprints
  import opened DirectCalls
  import opened OneState
  import opened Supply
  import opened CallRuns

  // ---- Simulating on one state ----

  /** The read/write set of a transfer without discount, simulated on one state. */
  function TransferRW(s: Store, raw: string, p: TransferFields, f: int64, t: int64): RW {
    RW([ReadOf(s, Discount(p.from)), ReadOf(s, Balance(p.from)), ReadOf(s, Balance(p.to))],
       [KVWrite(Balance(p.from), Decoded(Int(Wrap64(f - p.amount))), false),
        KVWrite(Balance(p.to), Decoded(Int(Wrap64(t + p.amount))), false),
        KVWrite(TransferReceipt(p.to), Decoded(Raw(raw)), false)])
  }

  lemma SimulateTransfer(feed: nat -> Store, s: Store, raw: string, p: TransferFields, gas: nat)
    requires Constant(feed, s) && gas >= 9 && Verify(Transfer(raw, Some(p)))
    requires s.ServedValue(Discount(p.from)) == Empty
    requires Readable(s.ServedValue(Balance(p.from))) && Readable(s.ServedValue(Balance(p.to)))
    requires AmountOf(s.ServedValue(Balance(p.from))) >= p.amount
    ensures ExecuteSpec(Guests(Transfer(raw, Some(p))), feed, gas) ==
            Ok(Some(TransferRW(s, raw, p, AmountOf(s.ServedValue(Balance(p.from))),
                               AmountOf(s.ServedValue(Balance(p.to))))))
  {
    hide Simulate, SimulateAll, Guests, ExecuteTransfer, Readable, AmountOf;
    var s0 := Sim(RW([], []), 0, gas);
    TwoGuests(Transfer(raw, Some(p)), feed, s0);
    var t := SimTransfer(feed, s, raw, p, s0);
  }

  lemma SimTransfer(feed: nat -> Store, s: Store, raw: string, p: TransferFields, sim: Sim) returns (t: Sim)
    requires Constant(feed, s) && sim.rw == RW([], []) && sim.gas >= 9 && PartiesValid(p.from, p.to, p.amount)
    requires s.ServedValue(Discount(p.from)) == Empty
    requires Readable(s.ServedValue(Balance(p.from))) && Readable(s.ServedValue(Balance(p.to)))
    requires AmountOf(s.ServedValue(Balance(p.from))) >= p.amount
    ensures t.rw ==
              TransferRW(s, raw, p, AmountOf(s.ServedValue(Balance(p.from))), AmountOf(s.ServedValue(Balance(p.to))))
    ensures Simulate(ExecuteTransfer(raw, p), feed, sim) == (true, t)
  {
    hide GetInt, Fetch, Simulate, MoveFunds, DiscountedDebit, Readable, AmountOf;
    var discounted := (v: Value) =>
      MoveFunds(p.from, p.to, DiscountedDebit(p.amount, DiscountOf(v)), p.amount, TransferReceipt(p.to), raw);
    var s1 := SimFetch(Discount(p.from), discounted, feed, s, sim);
    NoDiscount(p.amount);
    t := SimMove(p.from, p.to, p.amount, TransferReceipt(p.to), raw, feed, s, s1);
  }

  lemma NoDiscount(amount: int64)
    requires amount > 0
    ensures DiscountedDebit(amount, DiscountOf(Empty)) == amount
  {
  }

  lemma SimMove(from: string, to: string, amount: int64, receipt: Key, raw: string,
                feed: nat -> Store, s: Store, sim: Sim) returns (t: Sim)
    requires Constant(feed, s) && from != to && !receipt.Balance? && sim.rw.writeSet == [] && sim.gas >= 7
    requires NotTouched(sim.rw, Balance(from)) && NotTouched(sim.rw, Balance(to))
    requires Readable(s.ServedValue(Balance(from))) && Readable(s.ServedValue(Balance(to)))
    requires AmountOf(s.ServedValue(Balance(from))) >= amount
    ensures t.rw == RW(sim.rw.readSet + [ReadOf(s, Balance(from)), ReadOf(s, Balance(to))],
                       [KVWrite(Balance(from), Decoded(Int(Wrap64(AmountOf(s.ServedValue(Balance(from))) - amount))),
                                false),
                        KVWrite(Balance(to), Decoded(Int(Wrap64(AmountOf(s.ServedValue(Balance(to))) + amount))),
                                false),
                        KVWrite(receipt, Decoded(Raw(raw)), false)])
    ensures Simulate(MoveFunds(from, to, amount, amount, receipt, raw), feed, sim) == (true, t)
  {
    hide GetInt, Simulate, CreditTo;
    var rest := (fromBal: int64) =>
      if fromBal < amount then Halt(false)
      else CreditTo(from, to, Wrap64(fromBal - amount), amount, receipt, raw);
    var s2 := SimGetInt(Balance(from), rest, feed, s, sim);
    t := SimCredit(from, to, Wrap64(AmountOf(s.ServedValue(Balance(from))) - amount), amount, receipt, raw, feed, s,
                   s2);
  }

  lemma SimCredit(from: string, to: string, newFrom: int64, amount: int64, receipt: Key, raw: string,
                  feed: nat -> Store, s: Store, sim: Sim) returns (t: Sim)
    requires Constant(feed, s) && from != to && !receipt.Balance? && sim.rw.writeSet == [] && sim.gas >= 5
    requires NotTouched(sim.rw, Balance(to)) && Readable(s.ServedValue(Balance(to)))
    ensures t.rw == RW(sim.rw.readSet + [ReadOf(s, Balance(to))],
                       [KVWrite(Balance(from), Decoded(Int(newFrom)), false),
                        KVWrite(Balance(to), Decoded(Int(Wrap64(AmountOf(s.ServedValue(Balance(to))) + amount))),
                                false),
                        KVWrite(receipt, Decoded(Raw(raw)), false)])
    ensures Simulate(CreditTo(from, to, newFrom, amount, receipt, raw), feed, sim) == (true, t)
  {
    hide GetInt, Simulate, Settle;
    var credit := (toBal: int64) => Settle(from, to, newFrom, Wrap64(toBal + amount), receipt, raw);
    var s1 := SimGetInt(Balance(to), credit, feed, s, sim);
    t := SimSettle(from, to, newFrom, Wrap64(AmountOf(s.ServedValue(Balance(to))) + amount), receipt, raw, feed, s1);
  }

  lemma SimSettle(from: string, to: string, newFrom: int64, newTo: int64, receipt: Key, raw: string,
                  feed: nat -> Store, sim: Sim) returns (t: Sim)
    requires from != to && !receipt.Balance? && sim.rw.writeSet == [] && sim.gas >= 3
    ensures t.rw == sim.rw.(writeSet := [KVWrite(Balance(from), Decoded(Int(newFrom)), false),
                                         KVWrite(Balance(to), Decoded(Int(newTo)), false),
                                         KVWrite(receipt, Decoded(Raw(raw)), false)])
    ensures Simulate(Settle(from, to, newFrom, newTo, receipt, raw), feed, sim) == (true, t)
  {
    var p3 := PutState(receipt, Raw(raw), Halt(true));
    var p2 := PutState(Balance(to), Int(newTo), p3);
    var s1 := SimPut(Balance(from), Int(newFrom), p2, feed, sim);
    var s2 := SimPut(Balance(to), Int(newTo), p3, feed, s1);
    t := SimPut(receipt, Raw(raw), Halt(true), feed, s2);
  }

  /** The read/write set of a loyalty transfer with a fee and no redemption. */
  function LoyaltyRW(s: Store, raw: string, p: TransferFields, f: int64, t: int64, y: int64, pts: int64): RW {
    var fee := CalcFee(p.amount);
    RW([ReadOf(s, Balance(p.from)), ReadOf(s, Balance(p.to)), ReadOf(s, Balance(TREASURY)), ReadOf(s, Loyalty(p.from))],
       [KVWrite(Balance(p.from), Decoded(Int(Wrap64(f - p.amount))), false),
        KVWrite(Balance(p.to), Decoded(Int(Wrap64(t + Wrap64(p.amount - fee)))), false),
        KVWrite(Balance(TREASURY), Decoded(Int(Wrap64(y + fee))), false),
        KVWrite(Loyalty(p.from), Decoded(Int(Wrap64(pts + p.amount / 10))), false),
        KVWrite(LoyaltyReceipt(p.to), Decoded(Raw(raw)), false)])
  }

  ghost predicate AllReadable(s: Store, p: TransferFields) {
    && Readable(s.ServedValue(Balance(p.from))) && Readable(s.ServedValue(Balance(p.to)))
    && Readable(s.ServedValue(Balance(TREASURY))) && Readable(s.ServedValue(Loyalty(p.from)))
  }

  lemma SimulateLoyalty(feed: nat -> Store, s: Store, raw: string, p: TransferFields, gas: nat)
    requires Constant(feed, s) && gas >= 13 && Verify(LoyaltyXfer(raw, Some(p))) && AllReadable(s, p)
    requires AmountOf(s.ServedValue(Balance(p.from))) >= p.amount && CalcFee(p.amount) > 0
    requires 0 <= AmountOf(s.ServedValue(Loyalty(p.from))) < 100 - p.amount / 10
    ensures ExecuteSpec(Guests(LoyaltyXfer(raw, Some(p))), feed, gas) ==
            Ok(Some(LoyaltyRW(s, raw, p, AmountOf(s.ServedValue(Balance(p.from))),
                              AmountOf(s.ServedValue(Balance(p.to))), AmountOf(s.ServedValue(Balance(TREASURY))),
                              AmountOf(s.ServedValue(Loyalty(p.from))))))
  {
    hide Simulate, SimulateAll, Guests, ExecuteLoyalty, Readable, AmountOf, CalcFee;
    var s0 := Sim(RW([], []), 0, gas);
    TwoGuests(LoyaltyXfer(raw, Some(p)), feed, s0);
    var s3 := SimBalances(feed, s, raw, p, s0);
    var s4 := SimPay(feed, s, raw, p, AmountOf(s.ServedValue(Balance(p.from))), AmountOf(s.ServedValue(Balance(p.to))),
                     AmountOf(s.ServedValue(Balance(TREASURY))), s3);
    assert s4.rw == LoyaltyRW(s, raw, p, AmountOf(s.ServedValue(Balance(p.from))),
                              AmountOf(s.ServedValue(Balance(p.to))), AmountOf(s.ServedValue(Balance(TREASURY))),
                              AmountOf(s.ServedValue(Loyalty(p.from))));
  }

  /** The three balances that a loyalty transfer reads first. */
  lemma SimBalances(feed: nat -> Store, s: Store, raw: string, p: TransferFields, sim: Sim) returns (t: Sim)
    requires Constant(feed, s) && sim.rw == RW([], []) && sim.gas >= 13 && PartiesValid(p.from, p.to, p.amount)
    requires AllReadable(s, p) && AmountOf(s.ServedValue(Balance(p.from))) >= p.amount
    ensures t.rw == RW([ReadOf(s, Balance(p.from)), ReadOf(s, Balance(p.to)), ReadOf(s, Balance(TREASURY))], [])
    ensures t.gas >= 7
    ensures Simulate(ExecuteLoyalty(raw, p), feed, sim) ==
            Simulate(LoyaltyPay(raw, p, AmountOf(s.ServedValue(Balance(p.from))),
                                AmountOf(s.ServedValue(Balance(p.to))),
                                AmountOf(s.ServedValue(Balance(TREASURY)))), feed, t)
  {
    hide GetInt, Simulate, LoyaltyPay, Readable, AmountOf;
    var f, t' := AmountOf(s.ServedValue(Balance(p.from))), AmountOf(s.ServedValue(Balance(p.to)));
    var k1 := (fromBal: int64) => if fromBal < p.amount then Halt(false) else LoyaltyTo(raw, p, fromBal);
    var s1 := SimGetInt(Balance(p.from), k1, feed, s, sim);
    var k2 := (toBal: int64) => LoyaltyTreasury(raw, p, f, toBal);
    var s2 := SimGetInt(Balance(p.to), k2, feed, s, s1);
    var k3 := (treasBal: int64) => LoyaltyPay(raw, p, f, t', treasBal);
    t := SimGetInt(Balance(TREASURY), k3, feed, s, s2);
  }

  lemma SimPay(feed: nat -> Store, s: Store, raw: string, p: TransferFields, f: int64, t: int64, y: int64, sim: Sim)
      returns (u: Sim)
    requires Constant(feed, s) && p.from != p.to && ByteLen(p.from) == ByteLen(p.to) == 40 && p.amount > 0
               && CalcFee(p.amount) > 0
    requires sim.rw.writeSet == [] && sim.gas >= 7 && NotTouched(sim.rw, Loyalty(p.from))
    requires Readable(s.ServedValue(Loyalty(p.from)))
    requires 0 <= AmountOf(s.ServedValue(Loyalty(p.from))) < 100 - p.amount / 10
    ensures u.rw == RW(sim.rw.readSet + [ReadOf(s, Loyalty(p.from))],
                       LoyaltyRW(s, raw, p, f, t, y, AmountOf(s.ServedValue(Loyalty(p.from)))).writeSet)
    ensures Simulate(LoyaltyPay(raw, p, f, t, y), feed, sim) == (true, u)
  {
    hide GetInt, Simulate, CalcFee, Wrap64, Readable, AmountOf, LoyaltyTail;
    var fee := CalcFee(p.amount);
    var tail := LoyaltyTail(raw, p);
    var p3 := PutState(Balance(TREASURY), Int(Wrap64(y + fee)), tail);
    var p2 := PutState(Balance(p.to), Int(Wrap64(t + Wrap64(p.amount - fee))), p3);
    var s1 := SimPut(Balance(p.from), Int(Wrap64(f - p.amount)), p2, feed, sim);
    var s2 := SimPut(Balance(p.to), Int(Wrap64(t + Wrap64(p.amount - fee))), p3, feed, s1);
    var s3 := SimPut(Balance(TREASURY), Int(Wrap64(y + fee)), tail, feed, s2);
    u := SimPoints(feed, s, raw, p, s3);
  }

  lemma SimPoints(feed: nat -> Store, s: Store, raw: string, p: TransferFields, sim: Sim) returns (u: Sim)
    requires Constant(feed, s) && sim.gas >= 4 && NotTouched(sim.rw, Loyalty(p.from)) && p.amount > 0
    requires forall i | 0 <= i < |sim.rw.writeSet| :: sim.rw.writeSet[i].key.Balance?
    requires Readable(s.ServedValue(Loyalty(p.from)))
    requires 0 <= AmountOf(s.ServedValue(Loyalty(p.from))) < 100 - p.amount / 10
    ensures u.rw == RW(sim.rw.readSet + [ReadOf(s, Loyalty(p.from))],
                       sim.rw.writeSet
                       + [KVWrite(Loyalty(p.from),
                                  Decoded(Int(Wrap64(AmountOf(s.ServedValue(Loyalty(p.from))) + p.amount / 10))),
                                    false),
                          KVWrite(LoyaltyReceipt(p.to), Decoded(Raw(raw)), false)])
    ensures Simulate(LoyaltyTail(raw, p), feed, sim) == (true, u)
  {
    hide GetInt, Simulate;
    var pts := AmountOf(s.ServedValue(Loyalty(p.from)));
    var k := (pts: int64) => LoyaltyPoints(raw, p, pts);
    var s4 := SimGetInt(Loyalty(p.from), k, feed, s, sim);
    assert Redeem(Wrap64(pts + p.amount / 10)) == (Wrap64(pts + p.amount / 10), 0);
    var s5 := SimPut(Loyalty(p.from), Int(Wrap64(pts + p.amount / 10)), LoyaltyEnd(raw, p), feed, s4);
    u := SimPut(LoyaltyReceipt(p.to), Raw(raw), Halt(true), feed, s5);
    HaltSim(feed, u);
  }

  // ---- One transaction committed ----

  /** A block of one transaction whose recorded versions are current. */
  lemma CommitOne(s: Store, rw: RW, height: int)
    requires ReadsMatch(rw.readSet, s) && FirstMalformed(rw.writeSet).None?
    ensures CommitBlock(s, [Tx("", Some(rw))], height) ==
            Ok((ApplyWrites(s, rw.writeSet, AtBlock(height, 0)), [TxApplyResult("", 0, Valid)]))
  {
    NoConflict(rw.readSet, s);
    var txs := [Tx("", Some(rw))];
    assert CommitUpTo(s, txs, height, 0) == Ok((s, []));
    assert CommitTx(s, txs[0], height, 0) == Ok((ApplyWrites(s, rw.writeSet, AtBlock(height, 0)), Valid));
    var one := [TxApplyResult("", 0, Valid)];
    assert [] + one == one;
    assert CommitUpTo(s, txs, height, 1) == Ok((ApplyWrites(s, rw.writeSet, AtBlock(height, 0)), one));
  }

  // ---- A recipient named like the treasury ----

  function Repeated(c: char, n: nat): (s: string)
    ensures |s| == n && forall i | 0 <= i < n :: s[i] == c
  {
    if n == 0 then "" else Repeated(c, n - 1) + [c]
  }

  const ALICE := Repeated('a', 40)
  const BOB := Repeated('b', 40)
  const DEAL := "deal"
  const PADDED := TREASURY + Repeated(' ', 32)

  lemma {:induction false} TrimSpaces(front: string, c: char, n: nat)
    requires IsSpace(c)
    ensures TrimRight(front + Repeated(c, n)) == TrimRight(front)
  {
    hide IsSpace;
    var s := front + Repeated(c, n);
    if n > 0 {
      TrimSpaces(front, c, n - 1);
      assert s[..|s| - 1] == front + Repeated(c, n - 1);
    } else {
      assert s == front;
    }
  }

  lemma {:induction false} BytesConcat(a: string, b: string)
    ensures ByteLen(a + b) == ByteLen(a) + ByteLen(b)
  {
    hide CharBytes;
    if b == [] {
      assert a + b == a;
    } else {
      BytesConcat(a, b[..|b| - 1]);
      assert (a + b)[..|a + b| - 1] == a + b[..|b| - 1];
    }
  }

  /** A text of characters of one length. */
  lemma {:induction false} SameBytes(s: string, width: nat)
    requires forall i | 0 <= i < |s| :: CharBytes(s[i]) == width
    ensures ByteLen(s) == |s| * width
  {
    hide CharBytes;
    if s != [] {
      SameBytes(s[..|s| - 1], width);
      assert |s| * width == (|s| - 1) * width + width;
    }
  }

  /** Two ordinary accounts, a third one that is the treasury's name padded, and the texts
      of the payloads. */
  predicate Names(a: string, b: string, w: string, x: string, y: string) {
    && ByteLen(a) == ByteLen(b) == ByteLen(w) == 40 && a != b && a != w && b != w
    && TREASURY != a && TREASURY != b && TREASURY != w
    && 0 < ByteLen(x) <= 4096 && 0 < ByteLen(y) <= 4096
    && TrimRight(a) == a && TrimRight(b) == b && TrimRight(w) == TREASURY == TrimRight(TREASURY)
  }

  /** A payload of a transfer. */
  function PayloadText(from: string, to: string, amount: string): string {
    "{\"from\":\"" + from + "\",\"to\":\"" + to + "\",\"amount\":" + amount + "}"
  }

  lemma SomeNames(w: string)
    requires ByteLen(w) == 40 && TrimRight(w) == TREASURY
    ensures Names(ALICE, BOB, w, PayloadText(ALICE, w, "500"), PayloadText(BOB, w, "10"))
  {
    hide Repeated, ByteLen;
    SameBytes(ALICE, 1);
    SameBytes(BOB, 1);
    TreasuryBytes();
    assert ALICE[0] == 'a' && BOB[0] == 'b' && TREASURY[0] == 't';
    assert ALICE[39] == 'a' && BOB[39] == 'b' && TREASURY[7] == 'y';
    assert TrimRight(w)[0] == w[0];
  }

  lemma TreasuryBytes()
    ensures ByteLen(TREASURY) == 8 && TrimRight(TREASURY) == TREASURY
  {
    SameBytes(TREASURY, 1);
  }

  /** Names of 40 bytes that trim to the treasury's, with spaces of one byte or of two. */
  lemma PaddedNames()
    ensures ByteLen(PADDED) == 40 && TrimRight(PADDED) == TREASURY && !Harmless(PADDED)
    ensures !Harmless(TREASURY + Repeated('\U{00A0}', 16))
  {
    hide Repeated, ByteLen, TrimRight;
    TreasuryBytes();
    SpacesAfter(TREASURY, ' ', 32, 1);
    SpacesAfter(TREASURY, '\U{00A0}', 16, 2);
  }

  lemma SpacesAfter(front: string, c: char, n: nat, width: nat)
    requires IsSpace(c) && CharBytes(c) == width
    ensures TrimRight(front + Repeated(c, n)) == TrimRight(front)
    ensures ByteLen(front + Repeated(c, n)) == ByteLen(front) + n * width
  {
    hide TrimRight, ByteLen, IsSpace, CharBytes;
    TrimSpaces(front, c, n);
    BytesConcat(front, Repeated(c, n));
    SameBytes(Repeated(c, n), width);
  }

  /** Two balances, and an escrow that pays the padded name. */
  function Start(a: string, b: string, w: string): Store {
    EMPTY_STORE.Put(Balance(a), Int(1000), Admin(0, 1)).Put(Balance(b), Int(100), Admin(0, 2))
      .Put(EscrowOf(DEAL), EscrowRec(b, w, 10), Admin(0, 3))
  }

  function Call1(a: string, w: string, x: string): Call {
    LoyaltyXfer(x, Some(TransferFields(a, w, 500, "")))
  }

  function Call2(b: string, w: string, y: string): Call {
    Transfer(y, Some(TransferFields(b, w, 10, "")))
  }

  /** After the loyalty transfer of 500: 460 for the padded name, 40 for the treasury. */
  function Middle(a: string, b: string, w: string, x: string): Store {
    var v := AtBlock(1, 0);
    Start(a, b, w).Put(Balance(a), Int(500), v).Put(Balance(w), Int(460), v).Put(Balance(TREASURY), Int(40), v)
      .Put(Loyalty(a), Int(50), v).Put(LoyaltyReceipt(w), Raw(x), v)
  }

  /** After the transfer of 10 that was simulated on `Middle`. */
  function End(a: string, b: string, w: string, x: string, y: string): Store {
    var v := AtBlock(2, 0);
    Middle(a, b, w, x).Put(Balance(b), Int(90), v).Put(Balance(w), Int(50), v).Put(TransferReceipt(w), Raw(y), v)
  }

  /** Everything a simulation and a commit may see of one key. */
  function Seen(s: Store, k: Key): (Value, Version, Value, Version) {
    (s.ServedValue(k), s.ServedVersion(k), s.Observe(k), s.GetVersion(k))
  }

  /** The state serves `v` for the key, under the version that is the key's own. */
  ghost predicate Serves(s: Store, k: Key, v: Value) {
    Seen(s, k).0 == v && Seen(s, k).1 == Seen(s, k).3
  }

  lemma StartServes(a: string, b: string, w: string, x: string, y: string)
    requires Names(a, b, w, x, y)
    ensures var s := Start(a, b, w);
            s.WellFormed() && Serves(s, Balance(a), Int(1000)) && Serves(s, Balance(w), Empty)
            && Serves(s, Balance(TREASURY), Empty) && Serves(s, Loyalty(a), Empty)
  {
    hide TrimRight;
  }

  lemma PutSeen(s: Store, k0: Key, v: Value, version: Version, k: Key)
    ensures k0 != k && k0 != k.Trimmed() ==> Seen(s.Put(k0, v, version), k) == Seen(s, k)
    ensures k0 == k != k.Trimmed() ==>
              Seen(s.Put(k0, v, version), k).2 == v && Seen(s.Put(k0, v, version), k).3 == version
    ensures k0 == k.Trimmed() != k ==>
              Seen(s.Put(k0, v, version), k) == (v, version, Seen(s, k).2, Seen(s, k).3)
  {
  }

  lemma SeenStart(a: string, b: string, w: string)
    requires a != b && TrimRight(b) == b
    ensures Start(a, b, w).WellFormed()
    ensures Seen(Start(a, b, w), Discount(b)) == (Empty, NoVersion, Empty, NoVersion)
    ensures Seen(Start(a, b, w), Balance(b)) == (Int(100), Admin(0, 2), Int(100), Admin(0, 2))
  {
    hide TrimRight;
  }

  lemma MiddleWell(a: string, b: string, w: string, x: string, y: string)
    ensures Middle(a, b, w, x).WellFormed()
  {
  }

  lemma MiddleServes(a: string, b: string, w: string, x: string, y: string)
    requires Names(a, b, w, x, y)
    ensures var s := Middle(a, b, w, x);
            s.WellFormed() && Serves(s, Discount(b), Empty) && Serves(s, Balance(b), Int(100))
              && Serves(s, Balance(w), Int(40))
    ensures Seen(Middle(a, b, w, x), Balance(w)).2 == Int(460)
  {
    hide TrimRight, Seen, Start;
    MiddleWell(a, b, w, x, y);
    SeenStart(a, b, w);
    var v := AtBlock(1, 0);
    var s1 := Start(a, b, w).Put(Balance(a), Int(500), v);
    var s2 := s1.Put(Balance(w), Int(460), v);
    var s3 := s2.Put(Balance(TREASURY), Int(40), v);
    var s4 := s3.Put(Loyalty(a), Int(50), v);
    forall k | k == Discount(b) || k == Balance(b) || k == Balance(w)
      ensures Seen(Middle(a, b, w, x), k) == Seen(s3, k)
      ensures k != Balance(w) ==> Seen(s3, k) == Seen(Start(a, b, w), k)
    {
      PutSeen(Start(a, b, w), Balance(a), Int(500), v, k);
      PutSeen(s1, Balance(w), Int(460), v, k);
      PutSeen(s2, Balance(TREASURY), Int(40), v, k);
      PutSeen(s3, Loyalty(a), Int(50), v, k);
      PutSeen(s4, LoyaltyReceipt(w), Raw(x), v, k);
    }
    PutSeen(s1, Balance(w), Int(460), v, Balance(w));
    PutSeen(s2, Balance(TREASURY), Int(40), v, Balance(w));
  }

  lemma FirstBlock(feed: nat -> Store, a: string, b: string, w: string, x: string, y: string) returns (rw: RW)
    requires Names(a, b, w, x, y) && Constant(feed, Start(a, b, w))
    ensures ExecuteSpec(Guests(Call1(a, w, x)), feed, 16) == Ok(Some(rw))
    ensures CommitBlock(Start(a, b, w), [Tx("", Some(rw))], 1) ==
              Ok((Middle(a, b, w, x), [TxApplyResult("", 0, Valid)]))
  {
    hide Start, Simulate, ExecuteSpec, CommitBlock, LoyaltyRW, CalcFee, Verify;
    var s, p := Start(a, b, w), TransferFields(a, w, 500, "");
    StartServes(a, b, w, x, y);
    rw := LoyaltyRW(s, x, p, 1000, 0, 0, 0);
    FeeOf500();
    Accepted(a, b, w, x, y);
    SimulateLoyalty(feed, s, x, p, 16);
    LoyaltyReads(s, a, w, x);
    LoyaltyWrites(s, a, w, x);
    hide Names;
    CommitOne(s, rw, 1);
  }

  lemma FeeOf500()
    ensures CalcFee(500) == 40
  {
  }

  lemma Accepted(a: string, b: string, w: string, x: string, y: string)
    requires Names(a, b, w, x, y)
    ensures Verify(Call1(a, w, x)) && Verify(Call2(b, w, y))
  {
  }

  lemma LoyaltyRWIs(s: Store, a: string, w: string, x: string)
    ensures LoyaltyRW(s, x, TransferFields(a, w, 500, ""), 1000, 0, 0, 0) ==
            RW([ReadOf(s, Balance(a)), ReadOf(s, Balance(w)), ReadOf(s, Balance(TREASURY)), ReadOf(s, Loyalty(a))],
               [KVWrite(Balance(a), Decoded(Int(500)), false), KVWrite(Balance(w), Decoded(Int(460)), false),
                KVWrite(Balance(TREASURY), Decoded(Int(40)), false), KVWrite(Loyalty(a), Decoded(Int(50)), false),
                KVWrite(LoyaltyReceipt(w), Decoded(Raw(x)), false)])
  {
    FeeOf500();
    hide CalcFee;
  }

  lemma LoyaltyReads(s: Store, a: string, w: string, x: string)
    requires Serves(s, Balance(a), Int(1000)) && Serves(s, Balance(w), Empty)
    requires Serves(s, Balance(TREASURY), Empty) && Serves(s, Loyalty(a), Empty)
    ensures ReadsMatch(LoyaltyRW(s, x, TransferFields(a, w, 500, ""), 1000, 0, 0, 0).readSet, s)
  {
    hide LoyaltyRW;
    LoyaltyRWIs(s, a, w, x);
  }

  lemma LoyaltyWrites(s: Store, a: string, w: string, x: string)
    ensures var rw, v := LoyaltyRW(s, x, TransferFields(a, w, 500, ""), 1000, 0, 0, 0), AtBlock(1, 0);
            && FirstMalformed(rw.writeSet).None?
            && ApplyWrites(s, rw.writeSet, v) ==
               s.Put(Balance(a), Int(500), v).Put(Balance(w), Int(460), v).Put(Balance(TREASURY), Int(40), v)
                .Put(Loyalty(a), Int(50), v).Put(LoyaltyReceipt(w), Raw(x), v)
  {
    hide LoyaltyRW, ApplyWrites, FirstMalformed, Store.Put, ReadOf;
    LoyaltyRWIs(s, a, w, x);
    var rw := LoyaltyRW(s, x, TransferFields(a, w, 500, ""), 1000, 0, 0, 0);
    FiveWrites(s, rw.writeSet, AtBlock(1, 0));
  }

  lemma FiveWrites(s: Store, w: seq<KVWrite>, v: Version)
    requires |w| == 5 && forall i | 0 <= i < 5 :: !w[i].isDelete && w[i].value.Decoded?
    ensures ApplyWrites(s, w, v) == s.Put(w[0].key, w[0].value.value, v).Put(w[1].key, w[1].value.value, v)
              .Put(w[2].key, w[2].value.value, v).Put(w[3].key, w[3].value.value, v).Put(w[4].key, w[4].value.value, v)
    ensures FirstMalformed(w).None?
  {
    FirstMalformedSplit(w, 5);
    ThreeWrites(s, w[..3], v);
    assert w[..4][..3] == w[..3];
    assert ApplyWrites(s, w[..4], v) == ApplyWrite(ApplyWrites(s, w[..3], v), w[3], v);
  }

  lemma ThreeWrites(s: Store, w: seq<KVWrite>, v: Version)
    requires |w| == 3 && forall i | 0 <= i < 3 :: !w[i].isDelete && w[i].value.Decoded?
    ensures ApplyWrites(s, w, v) ==
            s.Put(w[0].key, w[0].value.value, v).Put(w[1].key, w[1].value.value, v).Put(w[2].key, w[2].value.value, v)
    ensures FirstMalformed(w).None?
  {
    FirstMalformedSplit(w, 3);
    assert w[..2][..1] == w[..1] && w[..1][..0] == [];
    assert ApplyWrites(s, w[..1], v) == s.Put(w[0].key, w[0].value.value, v);
    assert ApplyWrites(s, w[..2], v) == ApplyWrite(ApplyWrites(s, w[..1], v), w[1], v);
  }

  lemma SecondBlock(feed: nat -> Store, a: string, b: string, w: string, x: string, y: string) returns (rw: RW)
    requires Names(a, b, w, x, y) && Constant(feed, Middle(a, b, w, x))
    ensures ExecuteSpec(Guests(Call2(b, w, y)), feed, 16) == Ok(Some(rw))
    ensures CommitBlock(Middle(a, b, w, x), [Tx("", Some(rw))], 2) ==
              Ok((End(a, b, w, x, y), [TxApplyResult("", 0, Valid)]))
  {
    hide Names;
    hide Middle, Simulate, ExecuteSpec, CommitBlock, TransferRW, Verify;
    var s, p := Middle(a, b, w, x), TransferFields(b, w, 10, "");
    MiddleServes(a, b, w, x, y);
    rw := TransferRW(s, y, p, 100, 40);
    Accepted(a, b, w, x, y);
    SimulateTransfer(feed, s, y, p, 16);
    TransferWrites(s, b, w, y);
    CommitOne(s, rw, 2);
  }

  lemma TransferWrites(s: Store, b: string, w: string, y: string)
    requires Serves(s, Discount(b), Empty) && Serves(s, Balance(b), Int(100)) && Serves(s, Balance(w), Int(40))
    ensures var rw, v := TransferRW(s, y, TransferFields(b, w, 10, ""), 100, 40), AtBlock(2, 0);
            && ReadsMatch(rw.readSet, s) && FirstMalformed(rw.writeSet).None?
            && ApplyWrites(s, rw.writeSet, v) ==
               s.Put(Balance(b), Int(90), v).Put(Balance(w), Int(50), v).Put(TransferReceipt(w), Raw(y), v)
  {
    hide ApplyWrites, FirstMalformed;
    ThreeWrites(s, TransferRW(s, y, TransferFields(b, w, 10, ""), 100, 40).writeSet, AtBlock(2, 0));
  }

  // ---- The run ----

  lemma FirstStep(a: string, b: string, w: string, x: string, y: string) returns (e: Event)
    requires Names(a, b, w, x, y)
    ensures e.Block? && e.height == 1 && CallBlock(e, [Call1(a, w, x)])
    ensures CommitBlock(Start(a, b, w), e.txs, 1) == Ok((Middle(a, b, w, x), [TxApplyResult("", 0, Valid)]))
    ensures Step([Start(a, b, w)], e, Middle(a, b, w, x))
  {
    hide Start, Middle, ExecuteSpec, CommitBlock, Call1;
    var h, at := [Start(a, b, w)], (n: nat) => 0 as nat;
    StartServes(a, b, w, x, y);
    var rw := FirstBlock(Feed(h, at), a, b, w, x, y);
    var o := Origin(Guests(Call1(a, w, x)), at, 16);
    e := Block(1, [Tx("", Some(rw))], [o]);
    assert Simulated(h, e.txs[0], o);
  }

  lemma SecondStep(a: string, b: string, w: string, x: string, y: string) returns (e: Event)
    requires Names(a, b, w, x, y)
    ensures e.Block? && e.height == 2 && CallBlock(e, [Call2(b, w, y)])
    ensures CommitBlock(Middle(a, b, w, x), e.txs, 2) == Ok((End(a, b, w, x, y), [TxApplyResult("", 0, Valid)]))
    ensures Step([Start(a, b, w), Middle(a, b, w, x)], e, End(a, b, w, x, y))
  {
    hide Start, Middle, End, ExecuteSpec, CommitBlock, Call2;
    var h, at := [Start(a, b, w), Middle(a, b, w, x)], (n: nat) => 1 as nat;
    MiddleWell(a, b, w, x, y);
    var rw := SecondBlock(Feed(h, at), a, b, w, x, y);
    var o := Origin(Guests(Call2(b, w, y)), at, 16);
    e := Block(2, [Tx("", Some(rw))], [o]);
    assert Simulated(h, e.txs[0], o);
  }

  lemma StartOlder(a: string, b: string, w: string, height: int)
    ensures AllOlder([Start(a, b, w)], height)
  {
  }

  /** What serial execution makes of the first call. */
  lemma FirstEffect(a: string, b: string, w: string, x: string, y: string)
    requires Names(a, b, w, x, y)
    ensures Effect(Call1(a, w, x), Start(a, b, w), AtBlock(1, 0)) == Some(Middle(a, b, w, x))
    ensures Mint(Call1(a, w, x), Start(a, b, w)) == 0
  {
    hide TrimRight, CalcFee, Verify, ByteLen, AsEscrow;
    var s, p, v := Start(a, b, w), TransferFields(a, w, 500, ""), AtBlock(1, 0);
    FeeOf500();
    Accepted(a, b, w, x, y);
    assert IntAt(s, Balance(a)) == Some(1000) && IntAt(s, Balance(w)) == Some(0)
      && IntAt(s, Balance(TREASURY)) == Some(0);
    var paid := PaidStore(s, v, p, 1000, 0, 0);
    assert paid == s.Put(Balance(a), Int(500), v).Put(Balance(w), Int(460), v).Put(Balance(TREASURY), Int(40), v);
    assert IntAt(paid, Loyalty(a)) == Some(0);
    assert PointsEffect(paid, v, x, p, 0) == Some(Middle(a, b, w, x)) by {
      assert Redeem(EarnedPoints(0, 500)) == (50, 0);
    }
  }

  /** What serial execution makes of the second call. */
  lemma SecondEffect(a: string, b: string, w: string, x: string, y: string)
    requires Names(a, b, w, x, y)
    ensures Mint(Call2(b, w, y), Middle(a, b, w, x)) == 0
    ensures var e := Effect(Call2(b, w, y), Middle(a, b, w, x), AtBlock(2, 0));
              e.Some? && e.value.Observe(Balance(w)) == Int(470)
  {
    hide Middle, TrimRight, Verify;
    MiddleServes(a, b, w, x, y);
    MiddleOwn(a, b, w, x, y);
    var s := Middle(a, b, w, x);
    Accepted(a, b, w, x, y);
    assert IntAt(s, Balance(b)) == Some(100) && IntAt(s, Balance(w)) == Some(460);
    NoDiscount(10);
  }

  lemma MiddleOwn(a: string, b: string, w: string, x: string, y: string)
    requires Names(a, b, w, x, y)
    ensures Middle(a, b, w, x).Observe(Balance(b)) == Int(100) && Middle(a, b, w, x).Observe(Discount(b)) == Empty
  {
    hide TrimRight;
  }

  lemma DealAmount(a: string, b: string, w: string, x: string, y: string)
    requires Names(a, b, w, x, y)
    ensures Amount(EscrowOf(DEAL), EscrowRec(b, w, 10)) == 10 && SoundEntry(EscrowOf(DEAL), EscrowRec(b, w, 10))
    ensures a != b && a != w && b != w && TREASURY != a && TREASURY != b && TREASURY != w
  {
    hide TrimRight, ByteLen;
  }

  lemma StartTotal(a: string, b: string, w: string, x: string, y: string)
    requires Names(a, b, w, x, y)
    ensures Sound(Start(a, b, w).kv) && Total(Start(a, b, w).kv) == 1110
  {
    hide Total, Names, AsEscrow;
    DealAmount(a, b, w, x, y);
    NoEntries();
    var k1 := map[Balance(a) := Int(1000)];
    var k2 := k1[Balance(b) := Int(100)];
    TotalPut(map[], Balance(a), Int(1000));
    TotalPut(k1, Balance(b), Int(100));
    TotalPut(k2, EscrowOf(DEAL), EscrowRec(b, w, 10));
    assert Start(a, b, w).kv == k2[EscrowOf(DEAL) := EscrowRec(b, w, 10)];
  }

  lemma MiddleTotal(a: string, b: string, w: string, x: string, y: string)
    requires Names(a, b, w, x, y)
    ensures Total(Middle(a, b, w, x).kv) == 1110
  {
    hide Total, Names, AsEscrow;
    DealAmount(a, b, w, x, y);
    StartTotal(a, b, w, x, y);
    var s := Start(a, b, w).kv;
    var m1 := s[Balance(a) := Int(500)];
    var m2 := m1[Balance(w) := Int(460)];
    var m3 := m2[Balance(TREASURY) := Int(40)];
    var m4 := m3[Loyalty(a) := Int(50)];
    TotalPut(s, Balance(a), Int(500));
    TotalPut(m1, Balance(w), Int(460));
    TotalPut(m2, Balance(TREASURY), Int(40));
    TotalPut(m3, Loyalty(a), Int(50));
    TotalPut(m4, LoyaltyReceipt(w), Raw(x));
    assert Middle(a, b, w, x).kv == m4[LoyaltyReceipt(w) := Raw(x)];
  }

  lemma Totals(a: string, b: string, w: string, x: string, y: string)
    requires Names(a, b, w, x, y)
    ensures Sound(Start(a, b, w).kv) && Total(Start(a, b, w).kv) == 1110 && Total(End(a, b, w, x, y).kv) == 690
  {
    hide Names, Start, Middle, End, Total, Sound;
    StartTotal(a, b, w, x, y);
    MiddleTotal(a, b, w, x, y);
    EndTotal(a, b, w, x, y);
  }

  lemma EndTotal(a: string, b: string, w: string, x: string, y: string)
    requires Names(a, b, w, x, y) && Total(Middle(a, b, w, x).kv) == 1110
    ensures Total(End(a, b, w, x, y).kv) == 690
  {
    hide TrimRight, Total, Middle, Serves;
    MiddleOwn(a, b, w, x, y);
    MiddleSeen(a, b, w, x, y);
    var m := Middle(a, b, w, x).kv;
    var e1 := m[Balance(b) := Int(90)];
    var e2 := e1[Balance(w) := Int(50)];
    TotalPut(m, Balance(b), Int(90));
    TotalPut(e1, Balance(w), Int(50));
    TotalPut(e2, TransferReceipt(w), Raw(y));
  }

  lemma MiddleSeen(a: string, b: string, w: string, x: string, y: string)
    requires Names(a, b, w, x, y)
    ensures Middle(a, b, w, x).Observe(Balance(w)) == Int(460)
  {
    hide Middle, Serves, Names;
    MiddleServes(a, b, w, x, y);
  }

  lemma NoEntries()
    ensures Total(map[]) == 0
  {
  }

  /** A run of two blocks of one VALID call each. */
  lemma TwoCalls(s0: Store, s1: Store, s2: Store, e1: Event, e2: Event, c1: Call, c2: Call)
    requires s0.WellFormed() && AllOlder([s0], 1) && AllOlder([s0], 2)
    requires Step([s0], e1, s1) && CallBlock(e1, [c1]) && e1.height == 1
    requires Step([s0, s1], e2, s2) && CallBlock(e2, [c2]) && e2.height == 2
    requires CommitBlock(s0, e1.txs, 1) == Ok((s1, [TxApplyResult("", 0, Valid)]))
    requires CommitBlock(s1, e2.txs, 2) == Ok((s2, [TxApplyResult("", 0, Valid)]))
    ensures CallRun([s0, s1, s2], [e1, e2], [[c1], [c2]])
    ensures Trace([s0, s1, s2], [e1, e2], [[c1], [c2]], 2) == [Done(c1, AtBlock(1, 0)), Done(c2, AtBlock(2, 0))]
    ensures Stops([s0, s1, s2], [e1, e2], [[c1], [c2]], 2) == [s0, s1, s2]
  {
    hide CommitBlock, Step, Guests, BlockTrace, BlockStops, AllOlder;
    var states, events, calls := [s0, s1, s2], [e1, e2], [[c1], [c2]];
    assert states[..1] == [s0] && states[..2] == [s0, s1];
    assert CallRun(states, events, calls);
    OneCallTrace(c1, 1);
    OneCallTrace(c2, 2);
    assert Trace(states, events, calls, 1) == [] + [Done(c1, AtBlock(1, 0))];
    assert Trace(states, events, calls, 2) == [Done(c1, AtBlock(1, 0))] + [Done(c2, AtBlock(2, 0))];
    StopsPair(states, events, calls, 1);
    StopsPair(states, events, calls, 2);
  }

  /** Two calls, each simulated on the newest state and found VALID, that do not
      commit as their serial execution: the recipient ends with 50 instead of 470, and
      420 disappear without any mint.  The second one's fetch of the recipient's
      balance was answered with the treasury's, under a version both share. */
  lemma PaddedNameBreaksRun(a: string, b: string, w: string, x: string, y: string)
    returns (states: seq<Store>, events: seq<Event>, calls: seq<seq<Call>>)
    requires Names(a, b, w, x, y)
    ensures CallRun(states, events, calls) && |events| == 2 && Sound(states[0].kv)
    ensures |states| == 3 && states[0] == Start(a, b, w) && calls == [[Call1(a, w, x)], [Call2(b, w, y)]]
    ensures var done := Trace(states, events, calls, 2);
            && |done| == 2
            && TotalMint(states[0], done) == 0
            && After(states[0], done).Some? && After(states[0], done).value.Observe(Balance(w)) == Int(470)
    ensures states[2].Observe(Balance(w)) == Int(50)
    ensures Total(states[0].kv) == 1110 && Total(states[2].kv) == 690
  {
    hide CommitBlock, Step, Effect, Mint, Total, Sound, Start, Middle, End, Call1, Call2, CallBlock, CallRun, Trace;
    var e1 := FirstStep(a, b, w, x, y);
    var e2 := SecondStep(a, b, w, x, y);
    states, events := [Start(a, b, w), Middle(a, b, w, x), End(a, b, w, x, y)], [e1, e2];
    calls := [[Call1(a, w, x)], [Call2(b, w, y)]];
    StartOlder(a, b, w, 1);
    StartOlder(a, b, w, 2);
    StartServes(a, b, w, x, y);
    TwoCalls(states[0], states[1], states[2], e1, e2, Call1(a, w, x), Call2(b, w, y));
    SerialTrace(a, b, w, x, y, Trace(states, events, calls, 2));
    Totals(a, b, w, x, y);
    EndBalance(a, b, w, x, y);
  }

  lemma OneCallTrace(c: Call, height: int)
    ensures BlockTrace([c], [TxApplyResult("", 0, Valid)], height, 1) == [Done(c, AtBlock(height, 0))]
  {
    assert BlockTrace([c], [TxApplyResult("", 0, Valid)], height, 1) == [] + [Done(c, AtBlock(height, 0))];
  }

  lemma SerialTrace(a: string, b: string, w: string, x: string, y: string, done: seq<Done>)
    requires Names(a, b, w, x, y) && done == [Done(Call1(a, w, x), AtBlock(1, 0)), Done(Call2(b, w, y), AtBlock(2, 0))]
    ensures TotalMint(Start(a, b, w), done) == 0
    ensures After(Start(a, b, w), done).Some? && After(Start(a, b, w), done).value.Observe(Balance(w)) == Int(470)
  {
    hide Effect, Mint, Start, Middle, Call1, Call2;
    FirstEffect(a, b, w, x, y);
    SecondEffect(a, b, w, x, y);
    var s := Start(a, b, w);
    assert done[..1] == [done[0]] && [done[0]][..0] == [];
    assert After(s, []) == Some(s);
    assert After(s, [done[0]]) == Some(Middle(a, b, w, x)) && TotalMint(s, [done[0]]) == 0;
  }

  lemma EndBalance(a: string, b: string, w: string, x: string, y: string)
    ensures b != w ==> End(a, b, w, x, y).Observe(Balance(w)) == Int(50)
  {
  }

  /** Such accounts exist. */
  lemma PaddedNameBreaksSomeRun()
    returns (states: seq<Store>, events: seq<Event>, calls: seq<seq<Call>>)
    ensures CallRun(states, events, calls) && |events| == 2 && Sound(states[0].kv)
    ensures TotalMint(states[0], Trace(states, events, calls, 2)) == 0
    ensures After(states[0], Trace(states, events, calls, 2)) != Some(states[2])
    ensures Total(states[2].kv) < Total(states[0].kv) < MAX_INT64
  {
    hide Names, CallRun, Trace, After, TotalMint, Total, Sound, PayloadText;
    PaddedNames();
    SomeNames(PADDED);
    states, events, calls :=
      PaddedNameBreaksRun(ALICE, BOB, PADDED, PayloadText(ALICE, PADDED, "500"), PayloadText(BOB, PADDED, "10"));
  }

  // ---- Exactly which names break runs ----

  function CleanOr(w: string): string -> bool {
    (name: string) => CleanText(name) || name == w
  }

  ghost predicate FullNames(s: Store) {
    forall k | k in s.kv && AccountKey(k) :: ByteLen(Suffix(k)) == 40 || k == Balance(TREASURY)
  }

  /** Runs whose accounts have no white space at their end, or are named `w`; the start
      has no account of another length but the treasury, and escrow versions apart. */
  ghost predicate RunWith(states: seq<Store>, events: seq<Event>, calls: seq<seq<Call>>, w: string) {
    && CallRun(states, events, calls) && CallsUse(calls, CleanOr(w))
    && StoreUses(states[0], CleanOr(w)) && FullNames(states[0]) && EscrowsApart([states[0]])
  }

  /** Every state is the start with the effects of the VALID calls so far. */
  ghost predicate IsSerial(states: seq<Store>, events: seq<Event>, calls: seq<seq<Call>>)
    requires CallRun(states, events, calls)
  {
    forall n: nat | n <= |events| :: After(states[0], Trace(states, events, calls, n)) == Some(states[n])
  }

  ghost predicate KeepsSupply(states: seq<Store>, events: seq<Event>, calls: seq<seq<Call>>)
    requires CallRun(states, events, calls)
  {
    Sound(states[0].kv)
      && Total(states[0].kv) + TotalMint(states[0], Trace(states, events, calls, |events|)) <= MAX_INT64 ==>
      forall n: nat | n <= |events| ::
        Total(states[n].kv) == Total(states[0].kv) + TotalMint(states[0], Trace(states, events, calls, n))
  }

  lemma HarmlessIsEnough(states: seq<Store>, events: seq<Event>, calls: seq<seq<Call>>, w: string)
    requires RunWith(states, events, calls, w) && Harmless(w)
    ensures IsSerial(states, events, calls) && KeepsSupply(states, events, calls)
  {
    hide Trace, After, Total, TotalMint, Sound, CallRun, EscrowsApart, StoreUses;
    RunShape(states, events, calls);
    WithIsHarmless(states, events, calls, w);
    forall n: nat | n <= |events|
      ensures After(states[0], Trace(states, events, calls, n)) == Some(states[n])
    {
      RunIsTrace(states, events, calls, CleanOr(w), n);
    }
    if Sound(states[0].kv)
      && Total(states[0].kv) + TotalMint(states[0], Trace(states, events, calls, |events|)) <= MAX_INT64 {
      forall n: nat | n <= |events|
        ensures Total(states[n].kv) == Total(states[0].kv) + TotalMint(states[0], Trace(states, events, calls, n))
      {
        SupplyEquation(states, events, calls, CleanOr(w), n);
      }
    }
  }

  lemma WithIsHarmless(states: seq<Store>, events: seq<Event>, calls: seq<seq<Call>>, w: string)
    requires RunWith(states, events, calls, w) && Harmless(w)
    ensures HarmlessRun(states, events, calls, CleanOr(w))
  {
    hide CallRun, EscrowsApart, StoreUses;
    RunShape(states, events, calls);
    TrimmedIsShorter(w);
    assert ByteLen(w) == 40 && !CleanText(w) ==> Unshadowed(states[0], w);
  }

  lemma StartSuits(a: string, b: string, w: string, x: string, y: string)
    requires Names(a, b, w, x, y)
    ensures StoreUses(Start(a, b, w), CleanOr(w)) && FullNames(Start(a, b, w)) && EscrowsApart([Start(a, b, w)])
    ensures CallsUse([[Call1(a, w, x)], [Call2(b, w, y)]], CleanOr(w))
  {
    hide TrimRight;
  }

  /** The run that fails for a padded treasury name is one of these. */
  lemma PaddedIsNotEnough(w: string) returns (states: seq<Store>, events: seq<Event>, calls: seq<seq<Call>>)
    requires !Harmless(w)
    ensures RunWith(states, events, calls, w)
    ensures !IsSerial(states, events, calls) && !KeepsSupply(states, events, calls)
  {
    SomeNames(w);
    var x, y := PayloadText(ALICE, w, "500"), PayloadText(BOB, w, "10");
    StartSuits(ALICE, BOB, w, x, y);
    hide *;
    states, events, calls := PaddedNameBreaksRun(ALICE, BOB, w, x, y);
    LostSupply(states, events, calls);
    IsRunWith(states, events, calls, w);
  }

  lemma LostSupply(states: seq<Store>, events: seq<Event>, calls: seq<seq<Call>>)
    requires CallRun(states, events, calls) && |events| == 2 && |states| == 3 && Sound(states[0].kv)
    requires TotalMint(states[0], Trace(states, events, calls, 2)) == 0
    requires After(states[0], Trace(states, events, calls, 2)) != Some(states[2])
    requires Total(states[2].kv) < Total(states[0].kv) <= MAX_INT64
    ensures !IsSerial(states, events, calls) && !KeepsSupply(states, events, calls)
  {
    hide CallRun, Trace, After, Total, TotalMint, Sound;
    assert TotalMint(states[0], Trace(states, events, calls, |events|)) == 0;
  }

  lemma IsRunWith(states: seq<Store>, events: seq<Event>, calls: seq<seq<Call>>, w: string)
    requires CallRun(states, events, calls) && |states| > 0 && CallsUse(calls, CleanOr(w))
    requires StoreUses(states[0], CleanOr(w)) && FullNames(states[0]) && EscrowsApart([states[0]])
    ensures RunWith(states, events, calls, w)
  {
  }

  /** All these runs are serial, and all keep the supply equation, if and only if `w` is
      not the treasury's name with white space after it. */
  lemma HarmlessExactly(w: string)
    ensures Harmless(w) <==>
              forall states, events, calls | RunWith(states, events, calls, w) :: IsSerial(states, events, calls)
    ensures Harmless(w) <==>
              forall states, events, calls | RunWith(states, events, calls, w) :: KeepsSupply(states, events, calls)
  {
    hide CallRun, CallsUse, StoreUses, FullNames, EscrowsApart, IsSerial, KeepsSupply, Harmless;
    if Harmless(w) {
      forall states, events, calls | RunWith(states, events, calls, w)
        ensures IsSerial(states, events, calls) && KeepsSupply(states, events, calls)
      {
        HarmlessIsEnough(states, events, calls, w);
      }
    } else {
      var states, events, calls := PaddedIsNotEnough(w);
    }
  }
}
