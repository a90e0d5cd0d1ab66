/** The explorer's binary payload codec, driven by a schema. */
module Payloads {
  import opened Wrappers
  import opened Bytes

  datatype FieldType = STRING | UINT8 | UINT16 | UINT32 | UINT64 | BYTES | BOOLEAN | ADDRESS

  datatype Field = Field(name: string, ty: FieldType)

  /** A UTF-16 code unit of a script string. */
  type Unit = x: int | 0 <= x < 0x1_0000

  /** Texts are their UTF-8 bytes, addresses the strings they are given as. */
  datatype Value = Num(n: int) | Text(utf8: seq<byte>) | Raw(bytes: seq<byte>) | Flag(b: bool)
                 | Addr(text: seq<Unit>) | Undefined

  predicate Typed(ty: FieldType, v: Value) {
    match ty
    case STRING => v.Text?
    case BYTES => v.Raw?
    case BOOLEAN => v.Flag?
    case ADDRESS => v.Addr?
    case _ => v.Num?
  }

  function Default(ty: FieldType): (v: Value)
    ensures Typed(ty, v)
  {
    match ty
    case STRING => Text([])
    case BYTES => Raw([])
    case BOOLEAN => Flag(false)
    case ADDRESS => Addr(PREFIX + HexOf(ZeroBytes(20)))
    case _ => Num(0)
  }

  // ---- Hex as a script reads it ----

  /** The two characters "0x". */
  const PREFIX: seq<byte> := [48, 120]

  /** What `.` in a pattern does not match. */
  predicate LineEnd(u: Unit) {
    u in {0xa, 0xd, 0x2028, 0x2029}
  }

  /** What `parseInt` skips at the front. */
  predicate Blank(u: Unit) {
    u in {0x9, 0xa, 0xb, 0xc, 0xd, 0x20, 0xa0, 0x1680, 0x2028, 0x2029, 0x202f, 0x205f, 0x3000, 0xfeff}
      || 0x2000 <= u <= 0x200a
  }

  /** The matches of one or two characters. */
  function Pairs(s: seq<Unit>): seq<seq<Unit>> {
    if s == [] then []
    else if LineEnd(s[0]) then Pairs(s[1..])
    else if |s| >= 2 && !LineEnd(s[1]) then [s[..2]] + Pairs(s[2..])
    else [s[..1]] + Pairs(s[1..])
  }

  function SkipBlank(s: seq<Unit>): seq<Unit> {
    if s != [] && Blank(s[0]) then SkipBlank(s[1..]) else s
  }

  function HexValue(u: Unit): (r: Option<byte>)
    ensures r.Some? ==> r.value < 16
  {
    if u < 256 then DigitValue(u) else None
  }

  /** Value of the hex digits at the front, none if there is no digit. */
  function HexPrefix(s: seq<Unit>, value: nat, any: bool): Option<nat> {
    if s == [] || HexValue(s[0]).None? then if any then Some(value) else None
    else HexPrefix(s[1..], 16 * value + HexValue(s[0]).value, true)
  }

  /** `parseInt(s, 16)`. */
  function ParseInt16(s: seq<Unit>): Option<int> {
    var a := SkipBlank(s);
    var b := if a != [] && (a[0] == 43 || a[0] == 45) then a[1..] else a;
    var c := if |b| >= 2 && b[0] == 48 && (b[1] == 120 || b[1] == 88) then b[2..] else b;
    match HexPrefix(c, 0, false)
    case None => None
    case Some(v) => if a != [] && a[0] == 45 then Some(0 - (v as int)) else Some(v)
  }

  /** The parsed number as an element of a byte array. */
  function ByteOf(s: seq<Unit>): byte {
    match ParseInt16(s)
    case None => 0
    case Some(v) => v % 256
  }

  /** The bytes of a payload text; none when nothing matches. */
  function DecoderBytes(hex: seq<Unit>): Option<seq<byte>> {
    var pairs := Pairs(hex);
    if pairs == [] then None else Some(seq(|pairs|, i requires 0 <= i < |pairs| => ByteOf(pairs[i])))
  }

  /** The digits of either case, in the order of their values. */
  lemma DigitTexts(u: Unit)
    ensures HexValue(u) == if 48 <= u <= 57 then Some(u - 48)
                           else if 97 <= u <= 102 then Some(u - 97 + 10)
                           else if 65 <= u <= 70 then Some(u - 65 + 10)
                           else None
    ensures forall d: byte | d < 16 :: HexDigit(d) == "0123456789abcdef"[d] as int
  {
  }

  /** What a match of one or two characters stands for.  A single digit counts alone, before
      anything that is no digit or behind a blank or a sign; what is no number counts as 0. */
  lemma PairValue(x: Unit, y: Unit)
    ensures ByteOf([x]) == if HexValue(x).Some? then HexValue(x).value else 0
    ensures ByteOf([x, y]) ==
              match (HexValue(x), HexValue(y))
              case (Some(h), Some(l)) => 16 * h + l
              case (Some(h), None) => h
              case (None, Some(l)) =>
                if Blank(x) || x == '+' as int then l else if x == '-' as int && l > 0 then 256 - l else 0
              case (None, None) => 0
  {
    hide *;
    OneCharacter(x);
    OneCharacter(y);
    PairParses(x, y);
    DigitsOf([y]);
    DigitsOf([x, y]);
    NoBlankDigit(x);
    if HexValue(x).Some? {
      LowByte(HexValue(x).value);
      if HexValue(y).Some? { LowByte(16 * HexValue(x).value + HexValue(y).value); }
    } else if HexValue(y).Some? {
      LowByte(HexValue(y).value);
    }
  }

  lemma LowByte(v: nat)
    requires v < 256
    ensures v % 256 == v && (0 - v as int) % 256 == if v > 0 then 256 - v else 0
  {
  }

  lemma NoBlankDigit(x: Unit)
    ensures Blank(x) || x == '+' as int || x == '-' as int ==> HexValue(x).None?
    ensures x == '+' as int || x == '-' as int ==> !Blank(x)
  {
  }

  lemma PairParses(x: Unit, y: Unit)
    ensures ByteOf([x, y]) ==
              if Blank(x) then ByteOf([y])
              else if x == '+' as int then (match HexPrefix([y], 0, false) case None => 0 case Some(v) => v % 256)
              else if x == '-' as int then
                (match HexPrefix([y], 0, false) case None => 0 case Some(v) => (0 - v as int) % 256)
              else match HexPrefix([x, y], 0, false) case None => 0 case Some(v) => v % 256
  {
    hide HexPrefix;
    var s: seq<Unit> := [x, y];
    assert s[1..] == [y] && s[2..] == [];
    assert SkipBlank(s) == if Blank(x) then SkipBlank([y]) else s;
    if x == 48 && (y == 120 || y == 88) {
      DigitsOf([]);
      DigitsOf(s);
      assert HexValue(48) == Some(0) && HexValue(y).None?;
    }
  }

  lemma OneCharacter(x: Unit)
    ensures ByteOf([x]) == if HexValue(x).Some? then HexValue(x).value else 0
  {
    DigitsOf([x]);
    assert [x][1..] == [];
    assert SkipBlank([x]) == if Blank(x) then SkipBlank([]) else [x];
  }

  lemma DigitsOf(s: seq<Unit>)
    requires |s| <= 2
    ensures HexPrefix(s, 0, false) ==
              if s == [] then None
              else if HexValue(s[0]).None? then None
              else if |s| == 2 && HexValue(s[1]).Some? then Some(16 * HexValue(s[0]).value + HexValue(s[1]).value)
              else Some(HexValue(s[0]).value as nat)
  {
    if s != [] && HexValue(s[0]).Some? {
      var h := HexValue(s[0]).value as nat;
      assert HexPrefix(s, 0, false) == HexPrefix(s[1..], h, true);
      if |s| == 2 && HexValue(s[1]).Some? {
        assert s[1..][1..] == [];
        assert HexPrefix(s[1..], h, true) == HexPrefix([], 16 * h + HexValue(s[1]).value, true);
      }
    }
  }

  lemma DigitPair(b: byte)
    ensures ByteOf([HexDigit(b / 16), HexDigit(b % 16)]) == b
    ensures !LineEnd(HexDigit(b / 16)) && !LineEnd(HexDigit(b % 16))
  {
    var s: seq<Unit> := [HexDigit(b / 16), HexDigit(b % 16)];
    assert DigitValue(s[0]) == Some(b / 16) && DigitValue(s[1]) == Some(b % 16);
    assert SkipBlank(s) == s && s[1..] == [s[1]] && s[1..][1..] == [];
    assert HexPrefix([], 16 * (b / 16) + b % 16, true) == Some(b as nat);
    assert HexPrefix(s[1..], b / 16, true) == HexPrefix([], 16 * (b / 16) + b % 16, true);
    assert HexPrefix(s, 0, false) == HexPrefix(s[1..], b / 16, true);
  }

  lemma {:induction false} PairsOfHex(b: seq<byte>)
    ensures |Pairs(HexOf(b))| == |b|
    ensures forall i | 0 <= i < |b| :: Pairs(HexOf(b))[i] == [HexDigit(b[i] / 16), HexDigit(b[i] % 16)]
  {
    if b != [] {
      PairsOfHex(b[1..]);
      DigitPair(b[0]);
      var t: seq<Unit> := HexOf(b);
      assert t[2..] == HexOf(b[1..]) && t[..2] == [HexDigit(b[0] / 16), HexDigit(b[0] % 16)];
      assert Pairs(t) == [t[..2]] + Pairs(t[2..]);
    }
  }

  predicate OneLine(s: seq<Unit>) {
    forall i | 0 <= i < |s| :: !LineEnd(s[i])
  }

  /** On one line, matches are two characters each, and one at the end of an odd line. */
  lemma {:induction false} MatchesOf(line: seq<Unit>)
    requires OneLine(line)
    ensures |Pairs(line)| == (|line| + 1) / 2
    ensures forall i | 0 <= i < |Pairs(line)| ::
              Pairs(line)[i] == if 2 * i + 1 < |line| then [line[2 * i], line[2 * i + 1]] else [line[2 * i]]
  {
    hide LineEnd;
    if |line| == 1 {
      assert line[..1] == line && line[1..] == [] && Pairs([]) == [];
      assert Pairs(line) == [line[..1]] + Pairs(line[1..]);
    } else if |line| > 1 {
      var tail := line[2..];
      MatchesOf(tail);
      assert line[..2] == [line[0], line[1]];
      assert Pairs(line) == [line[..2]] + Pairs(tail);
    }
  }

  lemma NextMatch(x: Unit, y: Unit, rest: seq<Unit>)
    ensures LineEnd(x) ==> Pairs([x] + rest) == Pairs(rest)
    ensures !LineEnd(x) ==> Pairs([x]) == [[x]]
    ensures !LineEnd(x) && LineEnd(y) ==> Pairs([x, y] + rest) == [[x]] + Pairs(rest)
    ensures !LineEnd(x) && !LineEnd(y) ==> Pairs([x, y] + rest) == [[x, y]] + Pairs(rest)
  {
    hide LineEnd;
    assert ([x] + rest)[1..] == rest && [x][1..] == [] && [x][..1] == [x] && Pairs([]) == [];
    var s := [x, y] + rest;
    assert s[..1] == [x] && s[..2] == [x, y] && s[2..] == rest && s[1..] == [y] + rest && s[1..][1..] == rest;
  }

  /** A line end separates matches. */
  lemma {:induction false} LinesApart(line: seq<Unit>, end: Unit, rest: seq<Unit>)
    requires OneLine(line) && LineEnd(end)
    ensures Pairs(line + [end] + rest) == Pairs(line) + Pairs(rest)
  {
    hide LineEnd, Pairs;
    var s := line + [end] + rest;
    if line == [] {
      assert s == [end] + rest;
      NextMatch(end, end, rest);
      assert Pairs([]) == [] by { NothingMatches(); }
    } else if |line| == 1 {
      assert s == [line[0], end] + rest && line == [line[0]];
      NextMatch(line[0], end, rest);
    } else {
      var tail := line[2..];
      LinesApart(tail, end, rest);
      assert line == [line[0], line[1]] + tail && s == [line[0], line[1]] + (tail + [end] + rest);
      NextMatch(line[0], line[1], tail);
      NextMatch(line[0], line[1], tail + [end] + rest);
    }
  }

  lemma NothingMatches()
    ensures Pairs([]) == []
  {
  }

  /** Well-formed hex decodes to its bytes, except the text of no bytes. */
  lemma DecoderOfHex(b: seq<byte>)
    ensures DecoderBytes(HexOf(b)) == if b == [] then None else Some(b)
  {
    PairsOfHex(b);
    hide ByteOf;
    var pairs := Pairs(HexOf(b));
    forall i | 0 <= i < |b| ensures ByteOf(pairs[i]) == b[i] {
      DigitPair(b[i]);
    }
    if b != [] {
      assert DecoderBytes(HexOf(b)).value == b;
    }
  }

  // ---- Addresses ----

  /** `substr`, which stops at the end. */
  function Sub(s: seq<Unit>, from: nat, n: nat): seq<Unit> {
    if from >= |s| then [] else if from + n > |s| then s[from..] else s[from..from + n]
  }

  function AddressBytes(text: seq<Unit>): (b: seq<byte>)
    ensures |b| == 20
  {
    var addr := if |text| >= 2 && text[0] == 48 && text[1] == 120 then text[2..] else text;
    seq<byte>(20, i requires 0 <= i < 20 => ByteOf(Sub(addr, 2 * i, 2)))
  }

  // ---- Big-endian numbers ----

  /** The low `width` bytes of any integer, most significant first. */
  function BE(v: int, width: nat): (s: seq<byte>)
    ensures |s| == width
  {
    if width == 0 then [] else [(v / Pow256(width - 1)) % 256] + BE(v, width - 1)
  }

  function FromBE(s: seq<byte>): nat {
    if s == [] then 0 else s[0] * Pow256(|s| - 1) + FromBE(s[1..])
  }

  lemma DivMod(v: int, p: nat)
    requires p > 0
    ensures v % (256 * p) == ((v / p) % 256) * p + v % p
  {
    var q, r := v / p, v % p;
    var h, d := q / 256, q % 256;
    assert v == q * p + r;
    Rearranged(q, h, d, p);
    AtMost(d, p);
    Unique(v, 256 * p, h, d * p + r);
  }

  lemma Rearranged(q: int, h: int, d: int, p: nat)
    requires q == 256 * h + d
    ensures q * p == h * (256 * p) + d * p
  {
  }

  lemma AtMost(d: byte, p: nat)
    ensures 0 <= d * p <= 255 * p
  {
  }

  lemma {:induction false} BERoundTrip(v: int, width: nat)
    ensures FromBE(BE(v, width)) == v % Pow256(width)
  {
    if width > 0 {
      BERoundTrip(v, width - 1);
      DivMod(v, Pow256(width - 1));
      assert BE(v, width)[1..] == BE(v, width - 1);
    }
  }

  /** Which byte stands where: the last byte counts 1, the one before it 256. */
  lemma {:induction false} BEByte(v: int, width: nat, i: nat)
    requires i < width
    ensures BE(v, width)[i] == v / Pow256(width - 1 - i) % 256
  {
    if i > 0 {
      BEByte(v, width - 1, i - 1);
    }
  }

  function Signed32(n: nat): int {
    if n < 0x8000_0000 then n else n - 0x1_0000_0000
  }

  // ---- The codec, as values ----

  function Prefixed(b: seq<byte>): seq<byte> {
    BE(|b|, 2) + b
  }

  function FieldBytes(ty: FieldType, v: Value): seq<byte>
    requires Typed(ty, v)
  {
    match ty
    case UINT8 => BE(v.n, 1)
    case UINT16 => BE(v.n, 2)
    case UINT32 => BE(v.n, 4)
    case UINT64 => BE(v.n, 8)
    case STRING => Prefixed(v.utf8)
    case BYTES => Prefixed(v.bytes)
    case BOOLEAN => [if v.b then 1 else 0]
    case ADDRESS => AddressBytes(v.text)
  }

  /** The bytes of each type of field, written out. */
  lemma FieldForms(ty: FieldType, v: Value)
    requires Typed(ty, v)
    ensures match ty
            case UINT8 => FieldBytes(ty, v) == [v.n % 256]
            case UINT16 => FieldBytes(ty, v) == [v.n / 256 % 256, v.n % 256]
            case UINT32 =>
              FieldBytes(ty, v) == [v.n / 0x100_0000 % 256, v.n / 0x1_0000 % 256, v.n / 0x100 % 256, v.n % 256]
            case UINT64 =>
              |FieldBytes(ty, v)| == 8 && forall i | 0 <= i < 8 :: FieldBytes(ty, v)[i] == v.n / Pow256(7 - i) % 256
            case STRING => FieldBytes(ty, v) == [|v.utf8| / 256 % 256, |v.utf8| % 256] + v.utf8
            case BYTES => FieldBytes(ty, v) == [|v.bytes| / 256 % 256, |v.bytes| % 256] + v.bytes
            case BOOLEAN => FieldBytes(ty, v) == if v.b then [1] else [0]
            case ADDRESS =>
              var from := if |v.text| >= 2 && v.text[0] == 48 && v.text[1] == 120 then 2 else 0;
              && |FieldBytes(ty, v)| == 20
              && forall i | 0 <= i < 20 :: FieldBytes(ty, v)[i] == ByteOf(Sub(v.text, from + 2 * i, 2))
  {
    hide BE, Pow256, ByteOf, Sub, AddressBytes;
    match ty {
      case UINT8 => ShortForms(v.n);
      case UINT16 => ShortForms(v.n);
      case UINT32 => WordForm(v.n);
      case UINT64 => LongForm(v.n);
      case STRING => ShortForms(|v.utf8|);
      case BYTES => ShortForms(|v.bytes|);
      case BOOLEAN =>
      case ADDRESS => AddressForm(v.text);
    }
  }

  lemma LongForm(v: int)
    ensures forall i | 0 <= i < 8 :: BE(v, 8)[i] == v / Pow256(7 - i) % 256
  {
    hide BE, Pow256;
    forall i | 0 <= i < 8 ensures BE(v, 8)[i] == v / Pow256(7 - i) % 256 {
      BEByte(v, 8, i);
    }
  }

  lemma AddressForm(text: seq<Unit>)
    ensures var from := if |text| >= 2 && text[0] == 48 && text[1] == 120 then 2 else 0;
            forall i | 0 <= i < 20 :: AddressBytes(text)[i] == ByteOf(Sub(text, from + 2 * i, 2))
  {
    hide ByteOf;
    var from := if |text| >= 2 && text[0] == 48 && text[1] == 120 then 2 else 0;
    forall i | 0 <= i < 20 ensures AddressBytes(text)[i] == ByteOf(Sub(text, from + 2 * i, 2)) {
      assert Sub(text[from..], 2 * i, 2) == Sub(text, from + 2 * i, 2);
      assert text[0..] == text;
    }
  }

  lemma ShortForms(v: int)
    ensures BE(v, 1) == [v % 256] && BE(v, 2) == [v / 256 % 256, v % 256]
  {
    hide BE, Pow256;
    SmallPowers();
    BEByte(v, 1, 0);
    BEByte(v, 2, 0);
    BEByte(v, 2, 1);
  }

  lemma WordForm(v: int)
    ensures BE(v, 4) == [v / 0x100_0000 % 256, v / 0x1_0000 % 256, v / 0x100 % 256, v % 256]
  {
    hide BE, Pow256;
    SmallPowers();
    BEByte(v, 4, 0);
    BEByte(v, 4, 1);
    BEByte(v, 4, 2);
    BEByte(v, 4, 3);
  }

  lemma SmallPowers()
    ensures Pow256(0) == 1 && Pow256(1) == 0x100 && Pow256(2) == 0x1_0000 && Pow256(3) == 0x100_0000
  {
    Widths();
    assert Pow256(3) == 256 * Pow256(2);
  }

  /** A byte for the bit operators: past the end there is `undefined`, which they
      take for zero. */
  function ByteAt(buf: seq<byte>, i: nat): byte {
    if i < |buf| then buf[i] else 0
  }

  function BytesAt(buf: seq<byte>, i: nat, n: nat): (s: seq<byte>)
    ensures |s| == n && forall j | 0 <= j < n :: s[j] == ByteAt(buf, i + j)
  {
    seq<byte>(n, j requires 0 <= j < n => ByteAt(buf, i + j))
  }

  /** `slice`, which stops at the end. */
  function SliceAt(buf: seq<byte>, i: nat, n: nat): seq<byte> {
    if i >= |buf| then [] else if i + n > |buf| then buf[i..] else buf[i..i + n]
  }

  datatype CodecError = NoMatch | NotANumber | FieldNotFound

  /** A field's value and the offset after it. */
  function FieldAt(ty: FieldType, buf: seq<byte>, i: nat): Result<(Value, nat), CodecError> {
    match ty
    case UINT8 => Ok((if i < |buf| then Num(buf[i]) else Undefined, i + 1))
    case UINT16 => Ok((Num(FromBE(BytesAt(buf, i, 2))), i + 2))
    case UINT32 => Ok((Num(Signed32(FromBE(BytesAt(buf, i, 4)))), i + 4))
    case UINT64 => if i + 8 > |buf| then Err(NotANumber) else Ok((Num(FromBE(BytesAt(buf, i, 8))), i + 8))
    case STRING =>
      var n := FromBE(BytesAt(buf, i, 2));
      Ok((Text(SliceAt(buf, i + 2, n)), i + 2 + n))
    case BYTES =>
      var n := FromBE(BytesAt(buf, i, 2));
      Ok((Raw(SliceAt(buf, i + 2, n)), i + 2 + n))
    case BOOLEAN => Ok((Flag(i >= |buf| || buf[i] != 0), i + 1))
    case ADDRESS => Ok((Addr(PREFIX + HexOf(SliceAt(buf, i, 20))), i + 20))
  }

  /** The fields of a record: named values, some of them missing. */
  type Record = map<string, Value>

  predicate TypedRecord(schema: seq<Field>, rec: Record) {
    forall f | f in schema && f.name in rec :: Typed(f.ty, rec[f.name])
  }

  function ValueOf(rec: Record, f: Field): Value {
    if f.name in rec then rec[f.name] else Default(f.ty)
  }

  /** Bytes of the first `k` fields. */
  function PayloadBytes(schema: seq<Field>, rec: Record, k: nat): seq<byte>
    requires k <= |schema| && TypedRecord(schema, rec)
  {
    if k == 0 then []
    else
      var f := schema[k - 1];
      assert f in schema;
      PayloadBytes(schema, rec, k - 1) + FieldBytes(f.ty, ValueOf(rec, f))
  }

  function Serialized(schema: seq<Field>, rec: Record): Bytes.Text
    requires TypedRecord(schema, rec)
  {
    HexOf(PayloadBytes(schema, rec, |schema|))
  }

  /** Fields decoded from the first `k` of a schema, and the offset after them. */
  function DecodedFrom(schema: seq<Field>, buf: seq<byte>, k: nat): Result<(Record, nat), CodecError>
    requires k <= |schema|
  {
    if k == 0 then Ok((map[], 0))
    else
      match DecodedFrom(schema, buf, k - 1)
      case Err(e) => Err(e)
      case Ok((rec, i)) =>
        match FieldAt(schema[k - 1].ty, buf, i)
        case Err(e) => Err(e)
        case Ok((v, j)) => Ok((rec[schema[k - 1].name := v], j))
  }

  function Deserialized(schema: seq<Field>, hex: seq<Unit>): Result<Record, CodecError> {
    match DecoderBytes(hex)
    case None => Err(NoMatch)
    case Some(buf) =>
      match DecodedFrom(schema, buf, |schema|)
      case Err(e) => Err(e)
      case Ok((rec, _)) => Ok(rec)
  }

  /** A missing field is written as zeros: a number or flag of its width, a length of zero,
      or the address of zeros. */
  lemma DefaultForm(ty: FieldType)
    ensures var b := FieldBytes(ty, Default(ty));
            && |b| == (match ty case UINT8 => 1 case UINT16 => 2 case UINT32 => 4 case UINT64 => 8
                                case STRING => 2 case BYTES => 2 case BOOLEAN => 1 case ADDRESS => 20)
            && forall i | 0 <= i < |b| :: b[i] == 0
  {
    hide BE, Pow256, AddressBytes, HexOf, ZeroBytes;
    ShortForms(0);
    WordForm(0);
    if ty.UINT64? {
      LongForm(0);
    }
    if ty.ADDRESS? {
      ZeroAddress();
    }
  }

  lemma ZeroAddress()
    ensures AddressBytes(PREFIX + HexOf(ZeroBytes(20))) == ZeroBytes(20)
  {
    hide AddressBytes, HexOf, ZeroBytes, ByteOf;
    var t: seq<Unit> := PREFIX + HexOf(ZeroBytes(20));
    AddressForm(t);
    forall i | 0 <= i < 20 ensures AddressBytes(t)[i] == 0 {
      PrefixedPair(ZeroBytes(20), i);
      DigitPair(0);
    }
  }

  lemma {:induction false} PrefixedPair(b: seq<byte>, i: nat)
    requires i < |b|
    ensures Sub(PREFIX + HexOf(b), 2 + 2 * i, 2) == [HexDigit(b[i] / 16), HexDigit(b[i] % 16)]
  {
    HexText(b, i);
    assert (PREFIX + HexOf(b))[2 + 2 * i..4 + 2 * i] == HexOf(b)[2 * i..2 * i + 2];
  }

  lemma {:induction false} HexText(b: seq<byte>, i: nat)
    requires i < |b|
    ensures |HexOf(b)| == 2 * |b| && HexOf(b)[2 * i..2 * i + 2] == [HexDigit(b[i] / 16), HexDigit(b[i] % 16)]
  {
    hide HexDigit;
    var front: seq<byte> := [HexDigit(b[0] / 16), HexDigit(b[0] % 16)];
    assert HexOf(b) == front + HexOf(b[1..]);
    if i > 0 {
      HexText(b[1..], i - 1);
      assert HexOf(b)[2 * i..2 * i + 2] == HexOf(b[1..])[2 * (i - 1)..2 * (i - 1) + 2];
    } else if |b| > 1 {
      HexText(b[1..], 0);
    }
  }

  /** The value of each type of field that is all there: where its bytes stand, and where the
      next field starts. */
  lemma ReadForms(ty: FieldType, buf: seq<byte>, i: nat)
    ensures match ty
            case UINT8 => i < |buf| ==> FieldAt(ty, buf, i) == Ok((Num(buf[i]), i + 1))
            case UINT16 => i + 1 < |buf| ==> FieldAt(ty, buf, i) == Ok((Num(256 * (buf[i] as int) + buf[i + 1]), i + 2))
            case UINT32 =>
              i + 3 < |buf| ==>
                var n := 0x100_0000 * (buf[i] as int) + 0x1_0000 * (buf[i + 1] as int) + 0x100 * (buf[i + 2] as int)
                         + buf[i + 3];
                FieldAt(ty, buf, i) == Ok((Num(if buf[i] >= 128 then n - 0x1_0000_0000 else n), i + 4))
            case UINT64 => true
            case STRING =>
              i + 1 < |buf| && i + 2 + 256 * (buf[i] as int) + buf[i + 1] <= |buf| ==>
                var n := 256 * (buf[i] as int) + buf[i + 1];
                FieldAt(ty, buf, i) == Ok((Text(buf[i + 2..i + 2 + n]), i + 2 + n))
            case BYTES =>
              i + 1 < |buf| && i + 2 + 256 * (buf[i] as int) + buf[i + 1] <= |buf| ==>
                var n := 256 * (buf[i] as int) + buf[i + 1];
                FieldAt(ty, buf, i) == Ok((Raw(buf[i + 2..i + 2 + n]), i + 2 + n))
            case BOOLEAN => i < |buf| ==> FieldAt(ty, buf, i) == Ok((Flag(buf[i] != 0), i + 1))
            case ADDRESS =>
              i + 20 <= |buf| ==> FieldAt(ty, buf, i) == Ok((Addr([48, 120] + HexOf(buf[i..i + 20])), i + 20))
  {
    hide FromBE, HexOf;
    TwoBytes(BytesAt(buf, i, 2));
    FourBytes(BytesAt(buf, i, 4));
    assert i + 2 <= |buf| ==> SliceAt(buf, i + 2, 0) == buf[i + 2..i + 2];
  }

  /** Past the end: numbers of up to 32 bits count the missing bytes as zeros, a flag is set,
      texts and addresses stop early, one byte is undefined, and 64 bits throw. */
  lemma ReadPastEnd(ty: FieldType, buf: seq<byte>, i: nat)
    requires i >= |buf|
    ensures FieldAt(ty, buf, i) ==
              match ty
              case UINT8 => Ok((Undefined, i + 1))
              case UINT16 => Ok((Num(0), i + 2))
              case UINT32 => Ok((Num(0), i + 4))
              case UINT64 => Err(NotANumber)
              case STRING => Ok((Text([]), i + 2))
              case BYTES => Ok((Raw([]), i + 2))
              case BOOLEAN => Ok((Flag(true), i + 1))
              case ADDRESS => Ok((Addr([48, 120]), i + 20))
  {
    hide FromBE;
    TwoBytes(BytesAt(buf, i, 2));
    FourBytes(BytesAt(buf, i, 4));
    assert PREFIX + HexOf([]) == PREFIX;
  }

  // ---- Encoder and decoder ----

  lemma TopByte(v: int, width: nat)
    requires width > 0
    ensures BE(v, width) == [(v / Pow256(width - 1)) % 256] + BE(v, width - 1)
  {
  }

  lemma NoBytes(v: int)
    ensures BE(v, 0) == []
  {
  }

  lemma Moved(front: seq<byte>, b: byte, rest: seq<byte>)
    ensures front + ([b] + rest) == front + [b] + rest
  {
  }

  class BinaryPayloadEncoder {
    var buffer: seq<byte>

    constructor ()
      ensures buffer == []
    {
      buffer := [];
    }

    method WriteUint8(v: int)
      modifies this
      ensures buffer == old(buffer) + BE(v, 1)
    {
      buffer := buffer + [v % 256];
      assert BE(v, 1) == [(v / Pow256(0)) % 256] + BE(v, 0);
    }

    method WriteUint16(v: int)
      modifies this
      ensures buffer == old(buffer) + BE(v, 2)
    {
      buffer := buffer + [(v / 0x100) % 256, v % 256];
      assert BE(v, 2) == [(v / Pow256(1)) % 256] + ([(v / Pow256(0)) % 256] + BE(v, 0));
    }

    method WriteUint32(v: int)
      modifies this
      ensures buffer == old(buffer) + BE(v, 4)
    {
      buffer := buffer + [(v / 0x100_0000) % 256, (v / 0x1_0000) % 256, (v / 0x100) % 256, v % 256];
      Widths();
      assert Pow256(3) == 0x100_0000 by { assert Pow256(4) == 256 * Pow256(3); }
      assert BE(v, 4) == [(v / Pow256(3)) % 256] + ([(v / Pow256(2)) % 256] + BE(v, 2));
      assert BE(v, 2) == [(v / Pow256(1)) % 256] + ([(v / Pow256(0)) % 256] + BE(v, 0));
    }

    method WriteUint64(v: int)
      modifies this
      ensures buffer == old(buffer) + BE(v, 8)
    {
      hide BE, Pow256;
      for i := 8 downto 0
        invariant buffer + BE(v, i) == old(buffer) + BE(v, 8)
      {
        TopByte(v, i + 1);
        Moved(buffer, (v / Pow256(i)) % 256, BE(v, i));
        buffer := buffer + [(v / Pow256(i)) % 256];
      }
      NoBytes(v);
    }

    method WritePrefixed(bytes: seq<byte>)
      modifies this
      ensures buffer == old(buffer) + Prefixed(bytes)
    {
      WriteUint16(|bytes|);
      buffer := buffer + bytes;
    }

    method WriteAddress(text: seq<Unit>)
      modifies this
      ensures buffer == old(buffer) + AddressBytes(text)
    {
      hide ByteOf;
      var addr := if |text| >= 2 && text[0] == 48 && text[1] == 120 then text[2..] else text;
      var bytes := new byte[20];
      for i := 0 to 20
        invariant forall j | 0 <= j < i :: bytes[j] == ByteOf(Sub(addr, 2 * j, 2))
        invariant buffer == old(buffer)
      {
        bytes[i] := ByteOf(Sub(addr, 2 * i, 2));
      }
      assert bytes[..] == AddressBytes(text);
      buffer := buffer + bytes[..];
    }

    method WriteField(ty: FieldType, v: Value)
      requires Typed(ty, v)
      modifies this
      ensures buffer == old(buffer) + FieldBytes(ty, v)
    {
      match ty {
        case UINT8 => WriteUint8(v.n);
        case UINT16 => WriteUint16(v.n);
        case UINT32 => WriteUint32(v.n);
        case UINT64 => WriteUint64(v.n);
        case STRING => WritePrefixed(v.utf8);
        case BYTES => WritePrefixed(v.bytes);
        case BOOLEAN => buffer := buffer + [if v.b then 1 else 0];
        case ADDRESS => WriteAddress(v.text);
      }
    }
  }

  method SerializePayload(schema: seq<Field>, rec: Record) returns (hex: Bytes.Text)
    requires TypedRecord(schema, rec)
    ensures hex == Serialized(schema, rec)
  {
    hide FieldBytes, HexOf;
    var encoder := new BinaryPayloadEncoder();
    for k := 0 to |schema|
      invariant encoder.buffer == PayloadBytes(schema, rec, k)
    {
      var f := schema[k];
      assert f in schema;
      encoder.WriteField(f.ty, ValueOf(rec, f));
    }
    hex := HexOf(encoder.buffer);
  }

  class BinaryPayloadDecoder {
    const buffer: seq<byte>
    var offset: nat

    constructor (buffer: seq<byte>)
      ensures this.buffer == buffer && offset == 0
    {
      this.buffer := buffer;
      offset := 0;
    }

    method ReadUint16() returns (n: nat)
      modifies this
      ensures offset == old(offset) + 2
      ensures n == FromBE(BytesAt(buffer, old(offset), 2))
    {
      n := 256 * ByteAt(buffer, offset) + ByteAt(buffer, offset + 1);
      offset := offset + 2;
      TwoBytes(BytesAt(buffer, old(offset), 2));
    }

    method ReadUint32() returns (n: int)
      modifies this
      ensures offset == old(offset) + 4
      ensures n == Signed32(FromBE(BytesAt(buffer, old(offset), 4)))
    {
      var u := 0x100_0000 * ByteAt(buffer, offset) + 0x1_0000 * ByteAt(buffer, offset + 1)
               + 0x100 * ByteAt(buffer, offset + 2) + ByteAt(buffer, offset + 3);
      n := if u < 0x8000_0000 then u else u - 0x1_0000_0000;
      FourBytes(BytesAt(buffer, offset, 4));
      offset := offset + 4;
    }

    method ReadUint64() returns (r: Result<nat, CodecError>)
      modifies this
      ensures if old(offset) + 8 > |buffer| then r == Err(NotANumber)
              else r == Ok(FromBE(BytesAt(buffer, old(offset), 8))) && offset == old(offset) + 8
    {
      hide Pow256, FromBE;
      var v: nat := 0;
      ghost var s := BytesAt(buffer, offset, 8);
      for i := 0 to 8
        invariant offset == old(offset) && (i > 0 ==> offset + i <= |buffer|)
        invariant v * Pow256(8 - i) + FromBE(s[i..]) == FromBE(s)
      {
        if offset + i >= |buffer| {
          return Err(NotANumber);
        }
        Shifted(v, s[i..]);
        assert s[i..][1..] == s[i + 1..];
        v := 256 * v + buffer[offset + i];
      }
      NothingLeft();
      offset := offset + 8;
      r := Ok(v);
    }

    method Slice(n: nat) returns (s: seq<byte>)
      modifies this
      ensures s == SliceAt(buffer, old(offset), n) && offset == old(offset) + n
    {
      s := SliceAt(buffer, offset, n);
      offset := offset + n;
    }

    method ReadFieldValue(ty: FieldType) returns (r: Result<Value, CodecError>)
      modifies this
      ensures match FieldAt(ty, buffer, old(offset))
              case Err(e) => r == Err(e)
              case Ok((v, j)) => r == Ok(v) && offset == j
    {
      match ty {
        case UINT8 =>
          r := Ok(if offset < |buffer| then Num(buffer[offset]) else Undefined);
          offset := offset + 1;
        case UINT16 =>
          var n := ReadUint16();
          r := Ok(Num(n));
        case UINT32 =>
          var n := ReadUint32();
          r := Ok(Num(n));
        case UINT64 =>
          var n := ReadUint64();
          r := match n { case Err(e) => Err(e) case Ok(x) => Ok(Num(x)) };
        case STRING =>
          var n := ReadUint16();
          var s := Slice(n);
          r := Ok(Text(s));
        case BYTES =>
          var n := ReadUint16();
          var s := Slice(n);
          r := Ok(Raw(s));
        case BOOLEAN =>
          r := Ok(Flag(offset >= |buffer| || buffer[offset] != 0));
          offset := offset + 1;
        case ADDRESS =>
          var s := Slice(20);
          r := Ok(Addr(PREFIX + HexOf(s)));
      }
    }
  }

  lemma TwoBytes(s: seq<byte>)
    requires |s| == 2
    ensures FromBE(s) == 256 * (s[0] as int) + s[1]
  {
    assert Pow256(1) == 256 && Pow256(0) == 1;
    assert s[1..][1..] == [];
    assert FromBE(s[1..]) == s[1] * Pow256(0) + FromBE([]);
  }

  lemma FourBytes(s: seq<byte>)
    requires |s| == 4
    ensures FromBE(s) == 0x100_0000 * (s[0] as int) + 0x1_0000 * (s[1] as int) + 0x100 * (s[2] as int) + s[3]
  {
    Widths();
    assert Pow256(3) == 0x100_0000 by { assert Pow256(4) == 256 * Pow256(3); }
    assert FromBE(s) == s[0] * Pow256(3) + FromBE(s[1..]);
    assert FromBE(s[1..]) == s[1] * Pow256(2) + FromBE(s[1..][1..]);
    assert s[1..][1..] == s[2..];
    TwoBytes(s[2..]);
  }

  lemma NothingLeft()
    ensures Pow256(0) == 1 && FromBE([]) == 0
  {
  }

  lemma Shifted(v: nat, s: seq<byte>)
    requires s != []
    ensures v * Pow256(|s|) + FromBE(s) == (256 * v + s[0]) * Pow256(|s| - 1) + FromBE(s[1..])
  {
    var p := Pow256(|s| - 1);
    assert v * (256 * p) == 256 * v * p;
    assert (256 * v + s[0]) * p == 256 * v * p + s[0] * p;
  }

  method DeserializePayload(schema: seq<Field>, hex: seq<Unit>) returns (r: Result<Record, CodecError>)
    ensures r == Deserialized(schema, hex)
  {
    hide DecoderBytes, FieldAt;
    var parsed := DecoderBytes(hex);
    if parsed.None? {
      return Err(NoMatch);
    }
    var buf := parsed.value;
    var decoder := new BinaryPayloadDecoder(buf);
    var result: Record := map[];
    for k := 0 to |schema|
      invariant DecodedFrom(schema, buf, k) == Ok((result, decoder.offset)) && decoder.buffer == buf
    {
      var v := decoder.ReadFieldValue(schema[k].ty);
      if v.Err? {
        FailedStays(schema, buf, k + 1);
        return Err(v.error);
      }
      result := result[schema[k].name := v.value];
    }
    r := Ok(result);
  }

  lemma {:induction false} FailedStays(schema: seq<Field>, buf: seq<byte>, k: nat)
    requires k <= |schema| && DecodedFrom(schema, buf, k).Err?
    ensures DecodedFrom(schema, buf, |schema|) == DecodedFrom(schema, buf, k)
    decreases |schema| - k
  {
    if k < |schema| {
      FailedStays(schema, buf, k + 1);
    }
  }

  // ---- One field without the rest ----

  predicate HasField(schema: seq<Field>, name: string) {
    exists f :: f in schema && f.name == name
  }

  /** Reads fields from position `k` on until one is named `name`. */
  function FieldFrom(schema: seq<Field>, buf: seq<byte>, name: string, k: nat, i: nat): Result<Value, CodecError>
    requires k <= |schema|
    decreases |schema| - k
  {
    if k == |schema| then Err(FieldNotFound)
    else
      match FieldAt(schema[k].ty, buf, i)
      case Err(e) => Err(e)
      case Ok((v, j)) => if schema[k].name == name then Ok(v) else FieldFrom(schema, buf, name, k + 1, j)
  }

  function FieldOf(schema: seq<Field>, hex: seq<Unit>, name: string): Result<Value, CodecError> {
    if !HasField(schema, name) then Err(FieldNotFound)
    else
      match DecoderBytes(hex)
      case None => Err(NoMatch)
      case Some(buf) => FieldFrom(schema, buf, name, 0, 0)
  }

  method GetPayloadField(schema: seq<Field>, hex: seq<Unit>, fieldName: string) returns (r: Result<Value, CodecError>)
    ensures r == FieldOf(schema, hex, fieldName)
  {
    var found := false;
    for k := 0 to |schema|
      invariant found <==> HasField(schema[..k], fieldName)
    {
      assert schema[..k + 1] == schema[..k] + [schema[k]];
      found := found || schema[k].name == fieldName;
    }
    assert schema[..|schema|] == schema;
    if !found {
      return Err(FieldNotFound);
    }
    hide DecoderBytes, FieldAt;
    var parsed := DecoderBytes(hex);
    if parsed.None? {
      return Err(NoMatch);
    }
    var buf := parsed.value;
    var decoder := new BinaryPayloadDecoder(buf);
    for k := 0 to |schema|
      invariant FieldFrom(schema, buf, fieldName, 0, 0) == FieldFrom(schema, buf, fieldName, k, decoder.offset)
      invariant decoder.buffer == buf
    {
      var value := decoder.ReadFieldValue(schema[k].ty);
      if value.Err? {
        return value;
      }
      if schema[k].name == fieldName {
        return value;
      }
    }
    r := Err(FieldNotFound);
  }
}
