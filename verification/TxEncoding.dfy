/** A reader that undoes the wire encoding, so the encoding is injective. */
module TxEncoding {
  import opened Bytes
  import opened Transactions

  datatype Input = Input(prev: seq<byte>, vout: nat, script: seq<byte>)

  datatype Output = Output(value: nat, script: seq<byte>)

  /** What the encoding keeps of a transaction. */
  datatype Content = Content(version: nat, inputs: seq<Input>, outputs: seq<Output>, lockTime: nat)

  /** Previous ids are hex of at most 32 bytes; lengths are machine integers. */
  predicate InRange(tx: Transaction) {
    && |tx.vin| < 0x1_0000_0000_0000_0000
    && |tx.vout| < 0x1_0000_0000_0000_0000
    && (forall v | v in tx.vin :: VinInRange(v))
    && (forall v | v in tx.vout :: VoutInRange(v))
  }

  predicate VinInRange(v: Vin) {
    Fixed32(v.txid).Some? && |FromHex(v.scriptSig).0| < 0x1_0000_0000_0000_0000
  }

  predicate VoutInRange(v: Vout) {
    |FromHex(v.scriptPubKey).0| < 0x1_0000_0000_0000_0000
  }

  function InputOf(v: Vin): Input
    requires VinInRange(v)
  {
    Input(Fixed32(v.txid).value, ToUint32(v.vout), FromHex(v.scriptSig).0)
  }

  function OutputOf(v: Vout): Output {
    Output(ToUint64(v.value), FromHex(v.scriptPubKey).0)
  }

  function InputsOf(vins: seq<Vin>): (r: seq<Input>)
    requires forall v | v in vins :: VinInRange(v)
    ensures |r| == |vins| && forall i | 0 <= i < |vins| :: r[i] == InputOf(vins[i])
  {
    seq(|vins|, i requires 0 <= i < |vins| => InputOf(vins[i]))
  }

  function OutputsOf(vouts: seq<Vout>): (r: seq<Output>)
    ensures |r| == |vouts| && forall i | 0 <= i < |vouts| :: r[i] == OutputOf(vouts[i])
  {
    seq(|vouts|, i requires 0 <= i < |vouts| => OutputOf(vouts[i]))
  }

  function ContentOf(tx: Transaction): Content
    requires InRange(tx)
  {
    Content(tx.version, InputsOf(tx.vin), OutputsOf(tx.vout), tx.lockTime)
  }

  // ---- The reader ----

  /** A value read from the front of a byte string, and the rest of it. */
  datatype Read<+T> = Short | Got(value: T, rest: seq<byte>)

  function ReadBytes(s: seq<byte>, n: nat): Read<seq<byte>> {
    if |s| < n then Short else Got(s[..n], s[n..])
  }

  function ReadLE(s: seq<byte>, width: nat): Read<nat> {
    match ReadBytes(s, width)
    case Short => Short
    case Got(b, rest) => Got(FromLE(b), rest)
  }

  function ReadVarInt(s: seq<byte>): Read<nat> {
    if s == [] then Short
    else if s[0] == 0xfd then ReadLE(s[1..], 2)
    else if s[0] == 0xfe then ReadLE(s[1..], 4)
    else if s[0] == 0xff then ReadLE(s[1..], 8)
    else Got(s[0], s[1..])
  }

  function ReadScript(s: seq<byte>): Read<seq<byte>> {
    match ReadVarInt(s)
    case Short => Short
    case Got(n, rest) => ReadBytes(rest, n)
  }

  function ReadInput(s: seq<byte>): Read<Input> {
    match ReadBytes(s, 32)
    case Short => Short
    case Got(prev, s1) =>
      match ReadLE(s1, 4)
      case Short => Short
      case Got(vout, s2) =>
        match ReadScript(s2)
        case Short => Short
        case Got(script, s3) =>
          match ReadBytes(s3, 4)
          case Short => Short
          case Got(_, s4) => Got(Input(Reversed(prev), vout, script), s4)
  }

  function ReadOutput(s: seq<byte>): Read<Output> {
    match ReadLE(s, 8)
    case Short => Short
    case Got(value, s1) =>
      match ReadScript(s1)
      case Short => Short
      case Got(script, s2) => Got(Output(value, script), s2)
  }

  function ReadInputs(s: seq<byte>, n: nat): Read<seq<Input>> {
    if n == 0 then Got([], s)
    else
      match ReadInput(s)
      case Short => Short
      case Got(first, rest) =>
        match ReadInputs(rest, n - 1)
        case Short => Short
        case Got(others, left) => Got([first] + others, left)
  }

  function ReadOutputs(s: seq<byte>, n: nat): Read<seq<Output>> {
    if n == 0 then Got([], s)
    else
      match ReadOutput(s)
      case Short => Short
      case Got(first, rest) =>
        match ReadOutputs(rest, n - 1)
        case Short => Short
        case Got(others, left) => Got([first] + others, left)
  }

  function ReadTx(s: seq<byte>): Read<Content> {
    match ReadLE(s, 4)
    case Short => Short
    case Got(version, s1) =>
      match ReadVarInt(s1)
      case Short => Short
      case Got(n, s2) =>
        match ReadInputs(s2, n)
        case Short => Short
        case Got(inputs, s3) =>
          match ReadVarInt(s3)
          case Short => Short
          case Got(m, s4) =>
            match ReadOutputs(s4, m)
            case Short => Short
            case Got(outputs, s5) =>
              match ReadLE(s5, 4)
              case Short => Short
              case Got(lockTime, s6) => Got(Content(version, inputs, outputs, lockTime), s6)
  }

  // ---- The reader undoes each encoder ----

  lemma ReadsBytes(b: seq<byte>, rest: seq<byte>)
    ensures ReadBytes(b + rest, |b|) == Got(b, rest)
  {
    assert (b + rest)[..|b|] == b && (b + rest)[|b|..] == rest;
  }

  lemma ReadsLE(n: nat, width: nat, rest: seq<byte>)
    requires n < Pow256(width)
    ensures ReadLE(LE(n, width) + rest, width) == Got(n, rest)
  {
    ReadsBytes(LE(n, width), rest);
    LERoundTrip(n, width);
  }

  /** All four length prefixes. */
  lemma ReadsVarInt(n: uint64, rest: seq<byte>)
    ensures ReadVarInt(VarInt(n) + rest) == Got(n, rest)
  {
    Widths();
    OneByte(n);
    hide LE, Pow256, ReadLE;
    var s := VarInt(n) + rest;
    if n < 0xfd {
      assert s[1..] == rest;
    } else if n <= 0xffff {
      assert s[1..] == LE(n, 2) + rest;
      ReadsLE(n, 2, rest);
    } else if n <= 0xffff_ffff {
      assert s[1..] == LE(n, 4) + rest;
      ReadsLE(n, 4, rest);
    } else {
      assert s[1..] == LE(n, 8) + rest;
      ReadsLE(n, 8, rest);
    }
  }

  lemma {:induction false} FromLEBound(s: seq<byte>)
    ensures FromLE(s) < Pow256(|s|)
  {
    if s != [] {
      FromLEBound(s[1..]);
    }
  }

  /** No other text that reads as the same number is shorter. */
  lemma VarIntShortest(n: uint64, s: seq<byte>)
    requires ReadVarInt(s) == Got(n, [])
    ensures |VarInt(n)| <= |s|
  {
    hide LE, FromLE, Pow256;
    Widths();
    var rest := s[1..];
    FromLEBound(rest);
    var width := if s[0] == 0xfd then 2 else if s[0] == 0xfe then 4 else if s[0] == 0xff then 8 else 0;
    assert width > 0 ==> rest[width..] == [] && rest[..width] == rest;
  }

  lemma ReadsScript(script: seq<byte>, rest: seq<byte>)
    requires |script| < 0x1_0000_0000_0000_0000
    ensures ReadScript(ScriptBytes(script) + rest) == Got(script, rest)
  {
    hide VarInt, ReadVarInt;
    ReadsVarInt(|script|, script + rest);
    ReadsBytes(script, rest);
    assert ScriptBytes(script) + rest == VarInt(|script|) + (script + rest);
  }

  lemma ReadsInput(v: Vin, rest: seq<byte>)
    requires VinInRange(v)
    ensures ReadInput(VinBytes(v) + rest) == Got(InputOf(v), rest)
  {
    Widths();
    hide LE, Pow256, ReadLE, ReadBytes, ReadScript, ScriptBytes, FromHex, Fixed32;
    var prev, vout := Reversed(Fixed32(v.txid).value), LE(ToUint32(v.vout), 4);
    var script, end := FromHex(v.scriptSig).0, LE(0xffff_ffff, 4);
    var s3 := end + rest;
    var s2 := ScriptBytes(script) + s3;
    var s1 := vout + s2;
    assert VinBytes(v) + rest == prev + s1;
    ReadsBytes(prev, s1);
    ReadsLE(ToUint32(v.vout), 4, s2);
    ReadsScript(script, s3);
    ReadsBytes(end, rest);
    assert Reversed(prev) == Fixed32(v.txid).value;
  }

  lemma ReadsOutput(v: Vout, rest: seq<byte>)
    requires VoutInRange(v)
    ensures ReadOutput(VoutBytes(v) + rest) == Got(OutputOf(v), rest)
  {
    Widths();
    hide LE, Pow256, ReadLE, ReadScript, ScriptBytes, FromHex;
    var script := FromHex(v.scriptPubKey).0;
    var s1 := ScriptBytes(script) + rest;
    assert VoutBytes(v) + rest == LE(ToUint64(v.value), 8) + s1;
    ReadsLE(ToUint64(v.value), 8, s1);
    ReadsScript(script, rest);
  }

  lemma {:induction false} VinsFromFront(vins: seq<Vin>)
    requires vins != []
    ensures VinsBytes(vins) == VinBytes(vins[0]) + VinsBytes(vins[1..])
  {
    hide VinBytes;
    var n := |vins| - 1;
    if n > 0 {
      VinsFromFront(vins[..n]);
      assert vins[..n][1..] == vins[1..][..n - 1];
      assert VinsBytes(vins[1..]) == VinsBytes(vins[1..][..n - 1]) + VinBytes(vins[n]);
    }
  }

  lemma {:induction false} VoutsFromFront(vouts: seq<Vout>)
    requires vouts != []
    ensures VoutsBytes(vouts) == VoutBytes(vouts[0]) + VoutsBytes(vouts[1..])
  {
    hide VoutBytes;
    var n := |vouts| - 1;
    if n > 0 {
      VoutsFromFront(vouts[..n]);
      assert vouts[..n][1..] == vouts[1..][..n - 1];
      assert VoutsBytes(vouts[1..]) == VoutsBytes(vouts[1..][..n - 1]) + VoutBytes(vouts[n]);
    }
  }

  lemma {:induction false} ReadsInputs(vins: seq<Vin>, rest: seq<byte>)
    requires forall v | v in vins :: VinInRange(v)
    ensures ReadInputs(VinsBytes(vins) + rest, |vins|) == Got(InputsOf(vins), rest)
  {
    hide VinBytes, ReadInput, InputOf, VinInRange;
    if vins != [] {
      VinsFromFront(vins);
      var left := VinsBytes(vins[1..]) + rest;
      assert VinsBytes(vins) + rest == VinBytes(vins[0]) + left;
      ReadsInput(vins[0], left);
      ReadsInputs(vins[1..], rest);
      assert [InputOf(vins[0])] + InputsOf(vins[1..]) == InputsOf(vins);
    } else {
      assert VinsBytes(vins) + rest == rest;
    }
  }

  lemma {:induction false} ReadsOutputs(vouts: seq<Vout>, rest: seq<byte>)
    requires forall v | v in vouts :: VoutInRange(v)
    ensures ReadOutputs(VoutsBytes(vouts) + rest, |vouts|) == Got(OutputsOf(vouts), rest)
  {
    hide VoutBytes, ReadOutput, OutputOf, VoutInRange;
    if vouts != [] {
      VoutsFromFront(vouts);
      var left := VoutsBytes(vouts[1..]) + rest;
      assert VoutsBytes(vouts) + rest == VoutBytes(vouts[0]) + left;
      ReadsOutput(vouts[0], left);
      ReadsOutputs(vouts[1..], rest);
      assert [OutputOf(vouts[0])] + OutputsOf(vouts[1..]) == OutputsOf(vouts);
    } else {
      assert VoutsBytes(vouts) + rest == rest;
    }
  }

  /** Reading what was written gives the content back and leaves the rest. */
  lemma WireRoundTrip(tx: Transaction, rest: seq<byte>)
    requires InRange(tx)
    ensures ReadTx(WireBytes(tx) + rest) == Got(ContentOf(tx), rest)
  {
    Widths();
    hide LE, Pow256, ReadLE, VarInt, ReadVarInt, VinsBytes, VoutsBytes, ReadInputs, ReadOutputs, VinInRange,
      VoutInRange, InputOf, OutputOf;
    var s5 := LE(tx.lockTime, 4) + rest;
    var s4 := VoutsBytes(tx.vout) + s5;
    var s3 := VarInt(|tx.vout|) + s4;
    var s2 := VinsBytes(tx.vin) + s3;
    var s1 := VarInt(|tx.vin|) + s2;
    assert WireBytes(tx) + rest == LE(tx.version, 4) + s1;
    ReadsLE(tx.version, 4, s1);
    ReadsVarInt(|tx.vin|, s2);
    ReadsInputs(tx.vin, s3);
    ReadsVarInt(|tx.vout|, s4);
    ReadsOutputs(tx.vout, s5);
    ReadsLE(tx.lockTime, 4, rest);
  }

  lemma {:induction false} SameInputsSameBytes(vins: seq<Vin>, wins: seq<Vin>)
    requires |vins| == |wins|
    requires forall i | 0 <= i < |vins| :: VinInRange(vins[i]) && VinInRange(wins[i])
               && InputOf(vins[i]) == InputOf(wins[i])
    ensures VinsBytes(vins) == VinsBytes(wins)
  {
    hide FromHex, Fixed32, LE;
    if vins != [] {
      SameInputsSameBytes(vins[..|vins| - 1], wins[..|vins| - 1]);
    }
  }

  lemma {:induction false} SameOutputsSameBytes(vouts: seq<Vout>, wouts: seq<Vout>)
    requires |vouts| == |wouts|
    requires forall i | 0 <= i < |vouts| :: OutputOf(vouts[i]) == OutputOf(wouts[i])
    ensures VoutsBytes(vouts) == VoutsBytes(wouts)
  {
    hide FromHex, LE;
    if vouts != [] {
      SameOutputsSameBytes(vouts[..|vouts| - 1], wouts[..|vouts| - 1]);
    }
  }

  /** Two transactions have the same encoding exactly when they agree on version,
      every decoded input and output, and lock time. */
  lemma SameBytesIffSameContent(t: Transaction, u: Transaction)
    requires InRange(t) && InRange(u)
    ensures WireBytes(t) == WireBytes(u) <==> ContentOf(t) == ContentOf(u)
  {
    hide LE, VarInt, VinsBytes, VoutsBytes, VinInRange, VoutInRange, InputOf, OutputOf, ReadTx;
    WireRoundTrip(t, []);
    WireRoundTrip(u, []);
    assert WireBytes(t) + [] == WireBytes(t) && WireBytes(u) + [] == WireBytes(u);
    if ContentOf(t) == ContentOf(u) {
      forall i | 0 <= i < |t.vin|
        ensures VinInRange(t.vin[i]) && VinInRange(u.vin[i]) && InputOf(t.vin[i]) == InputOf(u.vin[i])
      {
        assert ContentOf(t).inputs[i] == ContentOf(u).inputs[i];
      }
      forall i | 0 <= i < |t.vout| ensures OutputOf(t.vout[i]) == OutputOf(u.vout[i]) {
        assert ContentOf(t).outputs[i] == ContentOf(u).outputs[i];
      }
      SameInputsSameBytes(t.vin, u.vin);
      SameOutputsSameBytes(t.vout, u.vout);
    }
  }

  // ---- Ids that are not hex ----

  /** One input whose id is not hex, so its 32 bytes are missing. */
  function Ragged(): Transaction {
    Transaction(0, [Vin([48], 0, HexOf(ZeroBytes(27)))], [Vout(0x1ff_ffff_ff00, HexOf(ZeroBytes(6)))], 0, [1], [], [],
                [], [])
  }

  function Regular(): Transaction {
    Transaction(0, [Vin(HexOf(ZeroBytes(27) + [27] + ZeroBytes(4)), 0xffff_ffff, HexOf([0]))], [Vout(0x6_0000, [])], 0,
                [1], [], [], [], [])
  }

  /** Bytes of a number built from its last byte up. */
  function FromBytes(s: seq<byte>, from: nat): nat
    requires from <= |s|
    decreases |s| - from
  {
    if from == |s| then 0 else s[from] + 256 * FromBytes(s, from + 1)
  }

  lemma {:induction false} BytesOf(s: seq<byte>, from: nat)
    requires from <= |s|
    ensures LE(FromBytes(s, from), |s| - from) == s[from..]
    decreases |s| - from
  {
    if from < |s| {
      BytesOf(s, from + 1);
      LEFirst(s[from], FromBytes(s, from + 1), |s| - from);
      assert s[from..] == [s[from]] + s[from + 1..];
    }
  }

  lemma LEFirst(b: byte, n: nat, width: nat)
    requires width > 0
    ensures LE(b + 256 * n, width) == [b] + LE(n, width - 1)
  {
    assert (b + 256 * n) % 256 == b && (b + 256 * n) / 256 == n;
  }

  lemma FourZeros()
    ensures LE(0, 4) == [0, 0, 0, 0]
  {
    hide LE;
    BytesOf([0, 0, 0, 0], 0);
    assert FromBytes([0, 0, 0, 0], 0) == 0;
  }

  lemma FourOnes()
    ensures LE(0xffff_ffff, 4) == [255, 255, 255, 255]
  {
    hide LE;
    BytesOf([255, 255, 255, 255], 0);
    assert FromBytes([255, 255, 255, 255], 0) == 0xffff_ffff;
  }

  lemma RaggedAmount()
    ensures LE(0x1ff_ffff_ff00, 8) == [0, 255, 255, 255, 255, 1, 0, 0]
  {
    hide LE;
    BytesOf([0, 255, 255, 255, 255, 1, 0, 0], 0);
    assert FromBytes([0, 255, 255, 255, 255, 1, 0, 0], 0) == 0x1ff_ffff_ff00;
  }

  lemma RegularAmount()
    ensures LE(0x6_0000, 8) == [0, 0, 6, 0, 0, 0, 0, 0]
  {
    hide LE;
    BytesOf([0, 0, 6, 0, 0, 0, 0, 0], 0);
    assert FromBytes([0, 0, 6, 0, 0, 0, 0, 0], 0) == 0x6_0000;
  }

  lemma OneInput(tx: Transaction)
    requires |tx.vin| == |tx.vout| == 1
    ensures WireBytes(tx) == LE(tx.version, 4) + VarInt(1) + VinBytes(tx.vin[0])
                             + VarInt(1) + VoutBytes(tx.vout[0]) + LE(tx.lockTime, 4)
  {
    hide LE, VarInt, VinBytes, VoutBytes;
    assert tx.vin[..0] == [] && tx.vout[..0] == [];
    assert VinsBytes(tx.vin) == VinBytes(tx.vin[0]);
    assert VoutsBytes(tx.vout) == VoutBytes(tx.vout[0]);
  }

  lemma ShortPrefix(n: uint64)
    requires n < 0xfd
    ensures VarInt(n) == [n]
  {
    OneByte(n);
  }

  lemma OneDigit(c: byte)
    ensures Fixed32([c]).None?
  {
  }

  lemma ShortScript(script: seq<byte>)
    requires |script| < 0xfd
    ensures ScriptBytes(script) == [|script|] + script
  {
    hide VarInt;
    ShortPrefix(|script|);
    assert ToUint64(|script|) == |script|;
  }

  /** The script of a few bytes. */
  lemma SmallScript(b: seq<byte>)
    requires |b| < 0xfd
    ensures ScriptBytes(FromHex(HexOf(b)).0) == [|b|] + b
  {
    hide ScriptBytes, HexOf, FromHex;
    HexRoundTrip(b);
    ShortScript(b);
  }

  lemma NoScript()
    ensures ScriptBytes(FromHex([]).0) == [0]
  {
    hide VarInt;
    ShortPrefix(0);
  }

  lemma RegularPrev()
    ensures PrevBytes(HexOf(ZeroBytes(27) + [27] + ZeroBytes(4))) == [0, 0, 0, 0, 27] + ZeroBytes(27)
  {
    hide HexOf, FromHex;
    var id := ZeroBytes(27) + [27] + ZeroBytes(4);
    HexRoundTrip(id);
    assert Pad32(id) == id;
    assert Reversed(id) == [0, 0, 0, 0, 27] + ZeroBytes(27);
  }

  lemma RaggedBytes()
    ensures VinBytes(Ragged().vin[0]) == [0, 0, 0, 0, 27] + ZeroBytes(27) + [255, 255, 255, 255]
    ensures VoutBytes(Ragged().vout[0]) == [0, 255, 255, 255, 255, 1, 0, 0, 6] + ZeroBytes(6)
  {
    hide LE, ScriptBytes, HexOf, FromHex, ZeroBytes, Fixed32;
    SmallScript(ZeroBytes(27));
    SmallScript(ZeroBytes(6));
    FourZeros();
    FourOnes();
    RaggedAmount();
    OneDigit(48);
  }

  lemma RegularBytes()
    ensures VinBytes(Regular().vin[0]) ==
              [0, 0, 0, 0, 27] + ZeroBytes(27) + [255, 255, 255, 255, 1, 0, 255, 255, 255, 255]
    ensures VoutBytes(Regular().vout[0]) == [0, 0, 6, 0, 0, 0, 0, 0, 0]
  {
    hide LE, ScriptBytes, HexOf, FromHex, ZeroBytes, PrevBytes;
    RegularPrev();
    SmallScript([0]);
    NoScript();
    FourOnes();
    RegularAmount();
  }

  /** The hex condition is needed: without it different inputs can collide, since
      a bad id contributes no bytes at all. */
  lemma BadIdsCollide()
    ensures WireBytes(Ragged()) == WireBytes(Regular())
    ensures Ragged().Valid() && Regular().Valid()
    ensures ToUint32(Ragged().vin[0].vout) != ToUint32(Regular().vin[0].vout)
  {
    hide LE, VarInt, HexOf, VinBytes, VoutBytes, WireBytes, ZeroBytes;
    OneInput(Ragged());
    OneInput(Regular());
    RaggedBytes();
    RegularBytes();
    FourZeros();
    ShortPrefix(1);
  }

  lemma {:induction false} SameBytesEach(vins: seq<Vin>, wins: seq<Vin>)
    requires |vins| == |wins| && forall i | 0 <= i < |vins| :: VinBytes(vins[i]) == VinBytes(wins[i])
    ensures VinsBytes(vins) == VinsBytes(wins)
  {
    hide VinBytes;
    if vins != [] {
      SameBytesEach(vins[..|vins| - 1], wins[..|vins| - 1]);
    }
  }

  /** Any two ids that are not hex of at most 32 bytes encode alike: a transaction with
      such an id has the encoding of every one that has another such id in its place. */
  lemma BadIdsEncodeAlike(tx: Transaction, i: nat, id: Text)
    requires i < |tx.vin| && Fixed32(tx.vin[i].txid).None? && Fixed32(id).None?
    ensures WireBytes(tx.(vin := tx.vin[i := tx.vin[i].(txid := id)])) == WireBytes(tx)
  {
    hide LE, VarInt, FromHex, Fixed32;
    SameBytesEach(tx.vin, tx.vin[i := tx.vin[i].(txid := id)]);
  }
}
