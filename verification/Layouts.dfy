/** The wire encoding byte by byte: which byte of a transaction stands where. */
module Layouts {
  import opened Bytes
  import opened Transactions
  import opened Blocks

  // ---- Numbers ----

  lemma LowBytes(n: nat)
    ensures LE(n, 1) == [n % 256] && LE(n, 2) == [n % 256, n / 256 % 256]
    ensures LE(n, 4) == [n % 256, n / 256 % 256, n / 0x1_0000 % 256, n / 0x100_0000 % 256]
  {
    hide LE, Pow256;
    Widths();
    assert Pow256(0) == 1 && Pow256(3) == 0x100_0000 by { NextPowers(); }
    LEByte(n, 1, 0);
    LEByte(n, 2, 0);
    LEByte(n, 2, 1);
    LEByte(n, 4, 0);
    LEByte(n, 4, 1);
    LEByte(n, 4, 2);
    LEByte(n, 4, 3);
  }

  lemma NextPowers()
    ensures Pow256(0) == 1 && Pow256(3) == 0x100_0000
  {
    Widths();
    assert Pow256(3) == 256 * Pow256(2);
  }

  /** The four forms of a length: one byte, or a mark and two, four or eight bytes, the
      least significant first. */
  lemma VarIntForms(n: uint64)
    ensures n < 0xfd ==> VarInt(n) == [n]
    ensures 0xfd <= n <= 0xffff ==> VarInt(n) == [0xfd, n % 256, n / 256]
    ensures 0x1_0000 <= n <= 0xffff_ffff ==>
              VarInt(n) == [0xfe, n % 256, n / 256 % 256, n / 0x1_0000 % 256, n / 0x100_0000]
    ensures n > 0xffff_ffff ==>
              && |VarInt(n)| == 9 && VarInt(n)[0] == 0xff
              && forall i | 0 <= i < 8 :: VarInt(n)[i + 1] == n / Pow256(i) % 256
  {
    hide LE, Pow256;
    LowBytes(n);
    forall i | 0 <= i < 8 ensures LE(n, 8)[i] == n / Pow256(i) % 256 {
      LEByte(n, 8, i);
    }
  }

  // ---- Inputs and outputs ----

  /** An input: the previous id, last byte first and filled up with zeros to 32 bytes, its
      output number, the script after its length, and four bytes of ones. */
  lemma InputForm(v: Vin, raw: seq<byte>)
    requires FromHex(v.txid) == (raw, true) && |raw| <= 32
    ensures var b, script := VinBytes(v), FromHex(v.scriptSig).0;
            && |b| >= 40
            && (forall i | 0 <= i < 32 :: b[i] == if i < |raw| then raw[|raw| - 1 - i] else 0)
            && b[32..36] == LE(v.vout % 0x1_0000_0000, 4)
            && b[36..|b| - 4] == VarInt(|script| % 0x1_0000_0000_0000_0000) + script
            && b[|b| - 4..] == [255, 255, 255, 255]
  {
    hide LE, VarInt, FromHex, ZeroBytes;
    LowBytes(0xffff_ffff);
    var script := FromHex(v.scriptSig).0;
    var front, middle := Reversed(Pad32(raw)), VarInt(ToUint64(|script|)) + script;
    var b := VinBytes(v);
    assert b == front + LE(ToUint32(v.vout), 4) + middle + [255, 255, 255, 255];
    assert b[36..|b| - 4] == middle;
  }

  /** An id that is no hex of at most 32 bytes leaves no byte. */
  lemma BadInputForm(v: Vin)
    requires !FromHex(v.txid).1 || |FromHex(v.txid).0| > 32
    ensures var b, script := VinBytes(v), FromHex(v.scriptSig).0;
            && |b| >= 8 && b[..4] == LE(v.vout % 0x1_0000_0000, 4)
            && b[4..|b| - 4] == VarInt(|script| % 0x1_0000_0000_0000_0000) + script
            && b[|b| - 4..] == [255, 255, 255, 255]
  {
    hide LE, VarInt, FromHex, Pad32, Reversed;
    LowBytes(0xffff_ffff);
    var script := FromHex(v.scriptSig).0;
    var middle := VarInt(ToUint64(|script|)) + script;
    var b := VinBytes(v);
    assert PrevBytes(v.txid) == [];
    assert b == LE(ToUint32(v.vout), 4) + middle + [255, 255, 255, 255];
    assert b[4..|b| - 4] == middle;
  }

  /** An output: eight bytes of value, and the script after its length. */
  lemma OutputForm(v: Vout)
    ensures var b, script := VoutBytes(v), FromHex(v.scriptPubKey).0;
            && |b| >= 8 && b[..8] == LE(v.value % 0x1_0000_0000_0000_0000, 8)
            && b[8..] == VarInt(|script| % 0x1_0000_0000_0000_0000) + script
  {
    hide LE, VarInt, FromHex;
  }

  // ---- Transactions ----

  /** Each input stands behind those before it and in front of those after it. */
  lemma {:induction false} InputsInOrder(front: seq<Vin>, v: Vin, back: seq<Vin>)
    ensures VinsBytes(front + [v] + back) == VinsBytes(front) + VinBytes(v) + VinsBytes(back)
    ensures VinsBytes([]) == []
  {
    hide VinBytes;
    var vins := front + [v] + back;
    if back == [] {
      assert vins[..|vins| - 1] == front;
    } else {
      var n := |back| - 1;
      InputsInOrder(front, v, back[..n]);
      assert vins[..|vins| - 1] == front + [v] + back[..n];
    }
  }

  lemma {:induction false} OutputsInOrder(front: seq<Vout>, v: Vout, back: seq<Vout>)
    ensures VoutsBytes(front + [v] + back) == VoutsBytes(front) + VoutBytes(v) + VoutsBytes(back)
    ensures VoutsBytes([]) == []
  {
    hide VoutBytes;
    var vouts := front + [v] + back;
    if back == [] {
      assert vouts[..|vouts| - 1] == front;
    } else {
      var n := |back| - 1;
      OutputsInOrder(front, v, back[..n]);
      assert vouts[..|vouts| - 1] == front + [v] + back[..n];
    }
  }

  /** A transaction: the version first, the lock time last, inputs before outputs, each
      list after its length. */
  lemma TransactionForm(tx: Transaction)
    ensures var b := WireBytes(tx);
            && |b| >= 8 && FromLE(b[..4]) == tx.version && FromLE(b[|b| - 4..]) == tx.lockTime
            && b[4..|b| - 4] == VarInt(|tx.vin| % 0x1_0000_0000_0000_0000) + VinsBytes(tx.vin)
                                + VarInt(|tx.vout| % 0x1_0000_0000_0000_0000) + VoutsBytes(tx.vout)
  {
    hide LE, FromLE, VarInt, VinsBytes, VoutsBytes, Pow256;
    Widths();
    LERoundTrip(tx.version, 4);
    LERoundTrip(tx.lockTime, 4);
    var middle := VarInt(ToUint64(|tx.vin|)) + VinsBytes(tx.vin) + VarInt(ToUint64(|tx.vout|)) + VoutsBytes(tx.vout);
    var b := WireBytes(tx);
    assert b == LE(tx.version, 4) + middle + LE(tx.lockTime, 4);
    assert b[..4] == LE(tx.version, 4) && b[|b| - 4..] == LE(tx.lockTime, 4) && b[4..|b| - 4] == middle;
  }

  /** A block's size counts each transaction once: its payload if it calls a contract, else
      its encoding. */
  lemma {:induction false} SizesAdd(front: seq<Transaction>, tx: Transaction, back: seq<Transaction>)
    ensures TotalSize(front + [tx] + back) ==
              TotalSize(front)
              + (if tx.payload == [] || tx.contractName == [] then |WireBytes(tx)| else |tx.payload|)
              + TotalSize(back)
    ensures TotalSize([]) == 0
  {
    hide WireBytes;
    var txs := front + [tx] + back;
    if back == [] {
      assert txs[..|txs| - 1] == front;
    } else {
      var n := |back| - 1;
      SizesAdd(front, tx, back[..n]);
      assert txs[..|txs| - 1] == front + [tx] + back[..n];
    }
  }
}
