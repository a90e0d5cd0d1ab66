/** Transactions of the ordering service and their wire encoding. */
module Transactions {
  import opened Wrappers
  import opened Bytes

  datatype Vin = Vin(txid: Text, vout: int, scriptSig: Text)

  datatype Vout = Vout(value: int, scriptPubKey: Text)

  datatype Transaction = Transaction(
    version: uint32, vin: seq<Vin>, vout: seq<Vout>, lockTime: uint32, txid: Text,
    payload: seq<byte>, contractName: Text, functionName: Text, clientPubKey: Text)
  {
    predicate Valid() {
      && txid != []
      && (if payload != [] && contractName != [] && functionName != [] then clientPubKey != []
          else vin != [] && vout != [])
    }
  }

  // ---- Wire encoding, as a value ----

  function VarInt(n: uint64): seq<byte> {
    if n < 0xfd then LE(n, 1)
    else if n <= 0xffff then [0xfd] + LE(n, 2)
    else if n <= 0xffff_ffff then [0xfe] + LE(n, 4)
    else [0xff] + LE(n, 8)
  }

  /** The 32 bytes of an id in hex, right-aligned; none when the text is bad. */
  function Fixed32(t: Text): Option<Digest> {
    var (raw, ok) := FromHex(t);
    if ok && |raw| <= 32 then Some(Pad32(raw)) else None
  }

  function Reversed(s: seq<byte>): (r: seq<byte>)
    ensures |r| == |s| && forall i | 0 <= i < |s| :: r[i] == s[|s| - 1 - i]
  {
    seq(|s|, i requires 0 <= i < |s| => s[|s| - 1 - i])
  }

  function PrevBytes(t: Text): seq<byte> {
    match Fixed32(t)
    case None => []
    case Some(d) => Reversed(d)
  }

  function ScriptBytes(script: seq<byte>): seq<byte> {
    VarInt(ToUint64(|script|)) + script
  }

  function VinBytes(v: Vin): seq<byte> {
    PrevBytes(v.txid) + LE(ToUint32(v.vout), 4) + ScriptBytes(FromHex(v.scriptSig).0) + LE(0xffff_ffff, 4)
  }

  function VoutBytes(v: Vout): seq<byte> {
    LE(ToUint64(v.value), 8) + ScriptBytes(FromHex(v.scriptPubKey).0)
  }

  function VinsBytes(vins: seq<Vin>): seq<byte> {
    if vins == [] then [] else VinsBytes(vins[..|vins| - 1]) + VinBytes(vins[|vins| - 1])
  }

  function VoutsBytes(vouts: seq<Vout>): seq<byte> {
    if vouts == [] then [] else VoutsBytes(vouts[..|vouts| - 1]) + VoutBytes(vouts[|vouts| - 1])
  }

  function WireBytes(tx: Transaction): seq<byte> {
    LE(tx.version, 4)
      + VarInt(ToUint64(|tx.vin|)) + VinsBytes(tx.vin)
      + VarInt(ToUint64(|tx.vout|)) + VoutsBytes(tx.vout)
      + LE(tx.lockTime, 4)
  }

  function SizeOf(tx: Transaction): nat {
    if tx.payload != [] && tx.contractName != [] then |tx.payload| else |WireBytes(tx)|
  }

  // ---- Wire encoding, as the buffer-filling code ----

  lemma OneByte(n: uint64)
    ensures n < 256 ==> LE(n, 1) == [n]
  {
    assert LE(n, 1) == [n % 256] + LE(n / 256, 0);
  }

  class Buffer {
    var bytes: seq<byte>

    constructor ()
      ensures bytes == []
    {
      bytes := [];
    }

    method Write(b: seq<byte>)
      modifies this
      ensures bytes == old(bytes) + b
    {
      bytes := bytes + b;
    }

    method WriteVarInt(n: uint64)
      modifies this
      ensures bytes == old(bytes) + VarInt(n)
    {
      OneByte(n);
      hide LE;
      if n < 0xfd {
        Write([n]);
      } else if n <= 0xffff {
        Write([0xfd]);
        Write(LE(n, 2));
      } else if n <= 0xffff_ffff {
        Write([0xfe]);
        Write(LE(n, 4));
      } else {
        Write([0xff]);
        Write(LE(n, 8));
      }
    }
  }

  method ReverseBytes(b: seq<byte>) returns (r: seq<byte>)
    ensures r == Reversed(b)
  {
    var out := new byte[|b|];
    for i := 0 to |b|
      invariant forall j | 0 <= j < i :: out[j] == b[|b| - 1 - j]
    {
      out[i] := b[|b| - 1 - i];
    }
    r := out[..];
  }

  method WriteInput(buf: Buffer, v: Vin)
    modifies buf
    ensures buf.bytes == old(buf.bytes) + VinBytes(v)
  {
    hide LE, VarInt, FromHex, Fixed32;
    var prev := Fixed32(v.txid);
    var reversed := ReverseBytes(if prev.Some? then prev.value else []);
    assert reversed == PrevBytes(v.txid);
    buf.Write(reversed);
    buf.Write(LE(ToUint32(v.vout), 4));
    var script := FromHex(v.scriptSig).0;
    buf.WriteVarInt(ToUint64(|script|));
    buf.Write(script);
    buf.Write(LE(0xffff_ffff, 4));
  }

  method WriteOutput(buf: Buffer, v: Vout)
    modifies buf
    ensures buf.bytes == old(buf.bytes) + VoutBytes(v)
  {
    hide LE, VarInt, FromHex;
    buf.Write(LE(ToUint64(v.value), 8));
    var script := FromHex(v.scriptPubKey).0;
    buf.WriteVarInt(ToUint64(|script|));
    buf.Write(script);
  }

  method WriteInputs(buf: Buffer, vins: seq<Vin>)
    modifies buf
    ensures buf.bytes == old(buf.bytes) + VinsBytes(vins)
  {
    hide VinBytes;
    for i := 0 to |vins|
      invariant buf.bytes == old(buf.bytes) + VinsBytes(vins[..i])
    {
      assert vins[..i + 1][..i] == vins[..i];
      WriteInput(buf, vins[i]);
    }
    assert vins[..|vins|] == vins;
  }

  method WriteOutputs(buf: Buffer, vouts: seq<Vout>)
    modifies buf
    ensures buf.bytes == old(buf.bytes) + VoutsBytes(vouts)
  {
    hide VoutBytes;
    for i := 0 to |vouts|
      invariant buf.bytes == old(buf.bytes) + VoutsBytes(vouts[..i])
    {
      assert vouts[..i + 1][..i] == vouts[..i];
      WriteOutput(buf, vouts[i]);
    }
    assert vouts[..|vouts|] == vouts;
  }

  method Serialize(tx: Transaction) returns (r: seq<byte>)
    ensures r == WireBytes(tx)
  {
    hide LE, VarInt, VinsBytes, VoutsBytes;
    var buf := new Buffer();
    buf.Write(LE(tx.version, 4));
    buf.WriteVarInt(ToUint64(|tx.vin|));
    WriteInputs(buf, tx.vin);
    buf.WriteVarInt(ToUint64(|tx.vout|));
    WriteOutputs(buf, tx.vout);
    buf.Write(LE(tx.lockTime, 4));
    r := buf.bytes;
  }
}
