/** When decoding an encoded record gives it back, and single-field access. */
module PayloadRoundTrip {
  import opened Wrappers
  import opened Bytes
  import opened Payloads

  predicate DistinctNames(schema: seq<Field>) {
    forall i, j | 0 <= i < j < |schema| :: schema[i].name != schema[j].name
  }

  /** What the wire format can carry.  The decoder reads 32-bit numbers as signed. */
  predicate Carried(ty: FieldType, v: Value)
    requires Typed(ty, v)
  {
    match ty
    case UINT8 => 0 <= v.n < 0x100
    case UINT16 => 0 <= v.n < 0x1_0000
    case UINT32 => -0x8000_0000 <= v.n < 0x8000_0000
    case UINT64 => 0 <= v.n < 0x1_0000_0000_0000_0000
    case STRING => |v.utf8| <= 0xffff
    case BYTES => |v.bytes| <= 0xffff
    case ADDRESS => PlainAddress(v.text)
    case BOOLEAN => true
  }

  /** "0x" and forty digits, letters in lower case. */
  predicate PlainAddress(text: seq<Unit>) {
    && |text| == 42 && text[0] == 48 && text[1] == 120
    && forall i | 2 <= i < 42 :: 48 <= text[i] <= 57 || 97 <= text[i] <= 102
  }

  lemma {:induction false} HexAt(b: seq<byte>)
    ensures |HexOf(b)| == 2 * |b|
    ensures forall i | 0 <= i < |b| :: HexOf(b)[2 * i] == HexDigit(b[i] / 16)
              && HexOf(b)[2 * i + 1] == HexDigit(b[i] % 16)
  {
    if b != [] {
      HexAt(b[1..]);
      var t := HexOf(b);
      assert t == t[..2] + HexOf(b[1..]);
      forall i | 0 <= i < |b| ensures t[2 * i] == HexDigit(b[i] / 16) && t[2 * i + 1] == HexDigit(b[i] % 16) {
        if i > 0 {
          assert t[2 * i] == HexOf(b[1..])[2 * (i - 1)] && t[2 * i + 1] == HexOf(b[1..])[2 * (i - 1) + 1];
        }
      }
    }
  }

  predicate LowerDigit(u: Unit) {
    48 <= u <= 57 || 97 <= u <= 102
  }

  lemma LowerDigits(d: byte)
    requires d < 16
    ensures LowerDigit(HexDigit(d))
  {
  }

  lemma DigitsOfByte(x: Unit, y: Unit)
    requires LowerDigit(x) && LowerDigit(y)
    ensures var b := ByteOf([x, y]); HexDigit(b / 16) == x && HexDigit(b % 16) == y
  {
    var b := 16 * DigitValue(x).value + DigitValue(y).value;
    assert b / 16 == DigitValue(x).value && b % 16 == DigitValue(y).value;
    DigitPair(b);
  }

  /** The text of twenty bytes, digit by digit. */
  lemma AddressDigits(text: seq<Unit>, i: nat)
    requires i < 20
    ensures var back, b := PREFIX + HexOf(AddressBytes(text)), AddressBytes(text);
            |back| == 42 && back[2 * i + 2] == HexDigit(b[i] / 16) && back[2 * i + 3] == HexDigit(b[i] % 16)
  {
    hide AddressBytes, HexOf, HexDigit;
    var b := AddressBytes(text);
    HexAt(b);
    assert (PREFIX + HexOf(b))[2 * i + 2] == HexOf(b)[2 * i] && (PREFIX + HexOf(b))[2 * i + 3] == HexOf(b)[2 * i + 1];
  }

  lemma AddressIsPlain(text: seq<Unit>)
    ensures PlainAddress(PREFIX + HexOf(AddressBytes(text)))
  {
    hide AddressBytes, HexOf, HexDigit;
    var b := AddressBytes(text);
    var back: seq<Unit> := PREFIX + HexOf(b);
    AddressDigits(text, 0);
    forall i | 2 <= i < 42 ensures LowerDigit(back[i]) {
      var k := (i - 2) / 2;
      AddressDigits(text, k);
      assert i == 2 * k + 2 || i == 2 * k + 3;
      LowerDigits(b[k] / 16);
      LowerDigits(b[k] % 16);
    }
  }

  /** Two digits of a plain address are the text of their byte. */
  lemma PlainDigits(text: seq<Unit>, i: nat)
    requires PlainAddress(text) && i < 20
    ensures var b := AddressBytes(text)[i];
            HexDigit(b / 16) == text[2 * i + 2] && HexDigit(b % 16) == text[2 * i + 3]
  {
    hide ByteOf, HexDigit;
    assert Sub(text[2..], 2 * i, 2) == [text[2 * i + 2], text[2 * i + 3]];
    DigitsOfByte(text[2 * i + 2], text[2 * i + 3]);
  }

  lemma PlainReadsBack(text: seq<Unit>)
    requires PlainAddress(text)
    ensures PREFIX + HexOf(AddressBytes(text)) == text
  {
    hide AddressBytes, HexOf, HexDigit;
    var back: seq<Unit> := PREFIX + HexOf(AddressBytes(text));
    AddressDigits(text, 0);
    forall i | 2 <= i < 42 ensures back[i] == text[i] {
      var k := (i - 2) / 2;
      AddressDigits(text, k);
      PlainDigits(text, k);
      assert i == 2 * k + 2 || i == 2 * k + 3;
    }
    assert forall i | 0 <= i < 42 :: i < 2 || back[i] == text[i];
  }

  /** An address reads back as given exactly when it is plain; any other text of an
      address reads back as the plain one of its bytes. */
  lemma AddressReadsBack(text: seq<Unit>)
    ensures PlainAddress(PREFIX + HexOf(AddressBytes(text)))
    ensures PREFIX + HexOf(AddressBytes(text)) == text <==> PlainAddress(text)
  {
    hide AddressBytes, HexOf, PlainAddress;
    AddressIsPlain(text);
    if PlainAddress(text) {
      PlainReadsBack(text);
    }
  }

  lemma Middle(front: seq<byte>, b: seq<byte>, rest: seq<byte>)
    ensures BytesAt(front + b + rest, |front|, |b|) == b == SliceAt(front + b + rest, |front|, |b|)
  {
    var buf := front + b + rest;
    assert forall j | 0 <= j < |b| :: ByteAt(buf, |front| + j) == b[j];
  }

  lemma NumberAt(v: int, width: nat, front: seq<byte>, rest: seq<byte>)
    ensures FromBE(BytesAt(front + BE(v, width) + rest, |front|, width)) == v % Pow256(width)
  {
    Middle(front, BE(v, width), rest);
    BERoundTrip(v, width);
  }

  /** A length prefix and its bytes read back, unless the length wrapped. */
  lemma PrefixedAt(b: seq<byte>, front: seq<byte>, rest: seq<byte>)
    ensures var buf := front + Prefixed(b) + rest;
            var n := FromBE(BytesAt(buf, |front|, 2));
            if |b| <= 0xffff then n == |b| && SliceAt(buf, |front| + 2, n) == b
            else SliceAt(buf, |front| + 2, n) != b
  {
    Widths();
    var buf, p := front + Prefixed(b) + rest, BE(|b|, 2);
    assert buf == front + p + (b + rest);
    NumberAt(|b|, 2, front, b + rest);
    assert buf == (front + p) + b + rest;
    Middle(front + p, b, rest);
  }

  lemma NumberReadsBack(ty: FieldType, v: Value, front: seq<byte>, rest: seq<byte>)
    requires Typed(ty, v) && (ty.UINT8? || ty.UINT16? || ty.UINT32? || ty.UINT64?)
    ensures ReadsBack(ty, v, front, rest)
  {
    Widths();
    hide BE, FromBE, BytesAt, SliceAt, Pow256;
    match ty {
      case UINT8 =>
        OneByteBE(v.n);
        assert (front + BE(v.n, 1) + rest)[|front|] == v.n % 256;
      case UINT16 => NumberAt(v.n, 2, front, rest);
      case UINT32 => NumberAt(v.n, 4, front, rest);
      case UINT64 => NumberAt(v.n, 8, front, rest);
    }
  }

  ghost predicate ReadsBack(ty: FieldType, v: Value, front: seq<byte>, rest: seq<byte>)
    requires Typed(ty, v)
  {
    var b := FieldBytes(ty, v);
    var r := FieldAt(ty, front + b + rest, |front|);
    && |b| >= 1
    && r.Ok?
    && (Carried(ty, v) ==> r.value == (v, |front| + |b|))
    && (!Carried(ty, v) ==> r.value.0 != v)
  }

  /** A field reads back as written exactly when the format can carry it. */
  lemma FieldReadsBack(ty: FieldType, v: Value, front: seq<byte>, rest: seq<byte>)
    requires Typed(ty, v)
    ensures ReadsBack(ty, v, front, rest)
  {
    match ty {
      case STRING =>
        hide BE, FromBE, BytesAt, SliceAt;
        PrefixedAt(v.utf8, front, rest);
      case BYTES =>
        hide BE, FromBE, BytesAt, SliceAt;
        PrefixedAt(v.bytes, front, rest);
      case BOOLEAN =>
      case ADDRESS =>
        hide AddressBytes, HexOf, PlainAddress;
        Middle(front, AddressBytes(v.text), rest);
        AddressReadsBack(v.text);
      case _ =>
        hide ReadsBack;
        NumberReadsBack(ty, v, front, rest);
    }
  }

  lemma OneByteBE(v: int)
    ensures BE(v, 1) == [v % 256]
  {
    assert BE(v, 1) == [(v / Pow256(0)) % 256] + BE(v, 0);
  }

  /** The record with the defaults of missing fields filled in. */
  function Filled(schema: seq<Field>, rec: Record, k: nat): Record
    requires k <= |schema|
  {
    if k == 0 then map[] else Filled(schema, rec, k - 1)[schema[k - 1].name := ValueOf(rec, schema[k - 1])]
  }

  predicate AllCarried(schema: seq<Field>, rec: Record, k: nat)
    requires k <= |schema| && TypedRecord(schema, rec)
  {
    forall i | 0 <= i < k :: schema[i] in schema && Carried(schema[i].ty, ValueOf(rec, schema[i]))
  }

  lemma {:induction false} PayloadPrefix(schema: seq<Field>, rec: Record, k: nat, m: nat)
    requires k <= m <= |schema| && TypedRecord(schema, rec)
    ensures PayloadBytes(schema, rec, k) <= PayloadBytes(schema, rec, m)
  {
    hide FieldBytes, PayloadBytes, ValueOf;
    if k < m {
      PayloadPrefix(schema, rec, k, m - 1);
      OneMoreField(schema, rec, m - 1);
    }
  }

  lemma ReadsNext(schema: seq<Field>, rec: Record, k: nat)
    requires k < |schema| && TypedRecord(schema, rec)
    ensures schema[k] in schema
    ensures var f, v := schema[k], ValueOf(rec, schema[k]);
            var r := FieldAt(f.ty, PayloadBytes(schema, rec, |schema|), |PayloadBytes(schema, rec, k)|);
            && r.Ok?
            && (Carried(f.ty, v) ==> r.value == (v, |PayloadBytes(schema, rec, k + 1)|))
            && (!Carried(f.ty, v) ==> r.value.0 != v)
  {
    hide FieldAt, FieldBytes, Carried, PayloadBytes, TypedRecord, Typed;
    OneMoreField(schema, rec, k);
    var f, v := schema[k], ValueOf(rec, schema[k]);
    var front := PayloadBytes(schema, rec, k);
    var rest := RestAfter(schema, rec, k);
    FieldReadsBack(f.ty, v, front, rest);
  }

  lemma RestAfter(schema: seq<Field>, rec: Record, k: nat) returns (rest: seq<byte>)
    requires k < |schema| && TypedRecord(schema, rec)
    ensures schema[k] in schema
    ensures PayloadBytes(schema, rec, |schema|) ==
              PayloadBytes(schema, rec, k) + FieldBytes(schema[k].ty, ValueOf(rec, schema[k])) + rest
  {
    hide FieldBytes, PayloadBytes, TypedRecord, Typed;
    OneMoreField(schema, rec, k);
    PayloadPrefix(schema, rec, k + 1, |schema|);
    rest := PayloadBytes(schema, rec, |schema|)[|PayloadBytes(schema, rec, k + 1)|..];
  }

  lemma OneMoreField(schema: seq<Field>, rec: Record, k: nat)
    requires k < |schema| && TypedRecord(schema, rec)
    ensures schema[k] in schema && Typed(schema[k].ty, ValueOf(rec, schema[k]))
    ensures PayloadBytes(schema, rec, k + 1)
            == PayloadBytes(schema, rec, k) + FieldBytes(schema[k].ty, ValueOf(rec, schema[k]))
  {
  }

  lemma {:induction false} DecodesCarried(schema: seq<Field>, rec: Record, k: nat)
    requires k <= |schema| && TypedRecord(schema, rec) && AllCarried(schema, rec, k)
    ensures DecodedFrom(schema, PayloadBytes(schema, rec, |schema|), k)
            == Ok((Filled(schema, rec, k), |PayloadBytes(schema, rec, k)|))
  {
    hide FieldAt, PayloadBytes;
    if k > 0 {
      DecodesCarried(schema, rec, k - 1);
      ReadsNext(schema, rec, k - 1);
    } else {
      assert PayloadBytes(schema, rec, 0) == [] by { NoFields(schema, rec); }
    }
  }

  lemma NoFields(schema: seq<Field>, rec: Record)
    requires TypedRecord(schema, rec)
    ensures PayloadBytes(schema, rec, 0) == []
    ensures PayloadBytes(schema, rec, |schema|) == [] <==> schema == []
  {
    if schema != [] {
      PayloadPrefix(schema, rec, 1, |schema|);
      assert schema[0] in schema;
      FieldReadsBack(schema[0].ty, ValueOf(rec, schema[0]), [], []);
    }
  }

  /** A decoded field keeps its value while fields of other names follow. */
  lemma {:induction false} DecodedKeeps(schema: seq<Field>, buf: seq<byte>, k: nat, m: nat)
    requires DistinctNames(schema) && k < m <= |schema| && DecodedFrom(schema, buf, m).Ok?
    ensures DecodedFrom(schema, buf, k).Ok?
    ensures FieldAt(schema[k].ty, buf, DecodedFrom(schema, buf, k).value.1).Ok?
    ensures schema[k].name in DecodedFrom(schema, buf, m).value.0
    ensures DecodedFrom(schema, buf, m).value.0[schema[k].name]
            == FieldAt(schema[k].ty, buf, DecodedFrom(schema, buf, k).value.1).value.0
  {
    hide FieldAt;
    if k < m - 1 {
      DecodedKeeps(schema, buf, k, m - 1);
      assert schema[k].name != schema[m - 1].name;
    }
  }

  lemma {:induction false} FilledHas(schema: seq<Field>, rec: Record, k: nat, m: nat)
    requires DistinctNames(schema) && k < m <= |schema|
    ensures schema[k].name in Filled(schema, rec, m)
    ensures Filled(schema, rec, m)[schema[k].name] == ValueOf(rec, schema[k])
  {
    if k < m - 1 {
      FilledHas(schema, rec, k, m - 1);
      assert schema[k].name != schema[m - 1].name;
    }
  }

  /** A field that cannot be carried shows in the decoded record. */
  lemma UncarriedShows(schema: seq<Field>, rec: Record, k: nat)
    requires DistinctNames(schema) && TypedRecord(schema, rec) && k < |schema|
    requires AllCarried(schema, rec, k) && schema[k] in schema && !Carried(schema[k].ty, ValueOf(rec, schema[k]))
    requires DecodedFrom(schema, PayloadBytes(schema, rec, |schema|), |schema|).Ok?
    ensures DecodedFrom(schema, PayloadBytes(schema, rec, |schema|), |schema|).value.0 != Filled(schema, rec, |schema|)
  {
    hide FieldAt, PayloadBytes;
    DecodesCarried(schema, rec, k);
    ReadsNext(schema, rec, k);
    DecodedKeeps(schema, PayloadBytes(schema, rec, |schema|), k, |schema|);
    FilledHas(schema, rec, k, |schema|);
  }

  lemma {:induction false} FirstUncarried(schema: seq<Field>, rec: Record, m: nat) returns (k: nat)
    requires m <= |schema| && TypedRecord(schema, rec) && !AllCarried(schema, rec, m)
    ensures k < m && AllCarried(schema, rec, k) && schema[k] in schema
              && !Carried(schema[k].ty, ValueOf(rec, schema[k]))
  {
    hide Carried, TypedRecord, ValueOf;
    if AllCarried(schema, rec, m - 1) {
      k := m - 1;
    } else {
      k := FirstUncarried(schema, rec, m - 1);
    }
  }

  lemma RoundTripExactly(schema: seq<Field>, rec: Record)
    requires DistinctNames(schema) && TypedRecord(schema, rec)
    ensures var bytes := PayloadBytes(schema, rec, |schema|);
            DecodedFrom(schema, bytes, |schema|).Ok?
              && DecodedFrom(schema, bytes, |schema|).value.0 == Filled(schema, rec, |schema|)
            <==> AllCarried(schema, rec, |schema|)
  {
    hide PayloadBytes, Carried, FieldAt, AllCarried, TypedRecord, Filled, DistinctNames, DecodedFrom;
    var n, bytes := |schema|, PayloadBytes(schema, rec, |schema|);
    if AllCarried(schema, rec, n) {
      DecodesCarried(schema, rec, n);
    } else {
      var k := FirstUncarried(schema, rec, n);
      if DecodedFrom(schema, bytes, n).Ok? {
        UncarriedShows(schema, rec, k);
      }
    }
  }

  /** For every schema with distinct names: decoding an encoded record gives it back,
      defaults filled in, exactly when there is a field at all and the format can
      carry every value; a record that has exactly the schema's fields comes back
      itself. */
  lemma PayloadRoundTrips(schema: seq<Field>, rec: Record)
    requires DistinctNames(schema) && TypedRecord(schema, rec)
    ensures Deserialized(schema, Serialized(schema, rec)) == Ok(Filled(schema, rec, |schema|))
            <==> schema != [] && AllCarried(schema, rec, |schema|)
    ensures (forall name :: name in rec <==> HasField(schema, name)) ==>
              (Deserialized(schema, Serialized(schema, rec)) == Ok(rec)
               <==> schema != [] && AllCarried(schema, rec, |schema|))
  {
    hide PayloadBytes, FieldAt, DecoderBytes, AllCarried, TypedRecord, Filled, DistinctNames, DecodedFrom, HexOf;
    DecoderOfHex(PayloadBytes(schema, rec, |schema|));
    NoFields(schema, rec);
    RoundTripExactly(schema, rec);
    if forall name :: name in rec <==> HasField(schema, name) {
      FilledWhole(schema, rec);
    }
  }

  lemma FilledWhole(schema: seq<Field>, rec: Record)
    requires forall name :: name in rec <==> HasField(schema, name)
    ensures Filled(schema, rec, |schema|) == rec
  {
    forall f | f in schema ensures f.name in rec {
      assert HasField(schema, f.name);
    }
    FilledIsRecord(schema, rec, |schema|);
    assert schema[..|schema|] == schema;
  }

  /** A record that has all of the schema's fields fills in from itself. */
  lemma {:induction false} FilledIsRecord(schema: seq<Field>, rec: Record, k: nat)
    requires k <= |schema| && forall f | f in schema :: f.name in rec
    ensures Filled(schema, rec, k) == map name | name in rec && HasField(schema[..k], name) :: rec[name]
  {
    if k > 0 {
      FilledIsRecord(schema, rec, k - 1);
      assert schema[..k] == schema[..k - 1] + [schema[k - 1]];
      assert schema[k - 1] in schema;
    }
  }

  lemma {:induction false} FieldFromDecoded(schema: seq<Field>, buf: seq<byte>, k: nat, n: nat)
    requires DistinctNames(schema) && k <= n < |schema| && DecodedFrom(schema, buf, |schema|).Ok?
    ensures DecodedFrom(schema, buf, k).Ok? && schema[n].name in DecodedFrom(schema, buf, |schema|).value.0
    ensures FieldFrom(schema, buf, schema[n].name, k, DecodedFrom(schema, buf, k).value.1)
            == Ok(DecodedFrom(schema, buf, |schema|).value.0[schema[n].name])
    decreases n - k
  {
    hide FieldAt;
    DecodedKeeps(schema, buf, k, |schema|);
    DecodedKeeps(schema, buf, n, |schema|);
    if k < n {
      FieldFromDecoded(schema, buf, k + 1, n);
      assert schema[k].name != schema[n].name;
    }
  }

  /** On every payload that decodes, reading one field alone gives what full
      decoding gives for it. */
  lemma FieldAloneAgrees(schema: seq<Field>, hex: seq<Unit>, name: string)
    requires DistinctNames(schema) && Deserialized(schema, hex).Ok?
    ensures if HasField(schema, name) then
              name in Deserialized(schema, hex).value
                && FieldOf(schema, hex, name) == Ok(Deserialized(schema, hex).value[name])
            else FieldOf(schema, hex, name) == Err(FieldNotFound)
  {
    hide FieldAt, DecoderBytes;
    if HasField(schema, name) {
      var n :| 0 <= n < |schema| && schema[n].name == name;
      FieldFromDecoded(schema, DecoderBytes(hex).value, 0, n);
      DecodedKeeps(schema, DecoderBytes(hex).value, n, |schema|);
    }
  }
}
