/** Bytes, fixed-width integers, and hex text. */
module Bytes {
  import opened Wrappers

  type byte = x: int | 0 <= x < 256
  type uint32 = x: int | 0 <= x < 0x1_0000_0000
  type uint64 = x: int | 0 <= x < 0x1_0000_0000_0000_0000

  /** A string, as the bytes it is made of. */
  type Text = seq<byte>

  function ZeroBytes(n: nat): (b: seq<byte>)
    ensures |b| == n && forall i | 0 <= i < n :: b[i] == 0
  {
    if n == 0 then [] else ZeroBytes(n - 1) + [0]
  }

  type Digest = d: seq<byte> | |d| == 32 witness ZeroBytes(32)

  /** Double SHA-256, left uninterpreted. */
  type Hasher = seq<byte> -> Digest

  const ZERO32: Digest :=
    [0, 0, 0, 0, 0, 0, 0, 0, 0, 0, 0, 0, 0, 0, 0, 0,
     0, 0, 0, 0, 0, 0, 0, 0, 0, 0, 0, 0, 0, 0, 0, 0]

  /** Conversion of any integer to `uint32`, as two's complement does it. */
  function ToUint32(x: int): (r: uint32)
    ensures (x - r) % 0x1_0000_0000 == 0
  {
    x % 0x1_0000_0000
  }

  function ToUint64(x: int): (r: uint64)
    ensures (x - r) % 0x1_0000_0000_0000_0000 == 0
  {
    x % 0x1_0000_0000_0000_0000
  }

  function Pow256(width: nat): (p: nat)
    ensures p > 0
  {
    if width == 0 then 1 else 256 * Pow256(width - 1)
  }

  /** The `width` low bytes of `n`, least significant first. */
  function LE(n: nat, width: nat): (s: seq<byte>)
    ensures |s| == width
  {
    if width == 0 then [] else [n % 256] + LE(n / 256, width - 1)
  }

  function FromLE(s: seq<byte>): nat {
    if s == [] then 0 else s[0] + 256 * FromLE(s[1..])
  }

  /** Which byte stands where: byte `i` counts 256^i. */
  lemma {:induction false} LEByte(n: nat, width: nat, i: nat)
    requires i < width
    ensures LE(n, width)[i] == n / Pow256(i) % 256
  {
    if i > 0 {
      LEByte(n / 256, width - 1, i - 1);
      DivTwice(n, 256, Pow256(i - 1));
    }
  }

  lemma DivTwice(n: nat, a: nat, b: nat)
    requires a > 0 && b > 0
    ensures a * b > 0 && n / a / b == n / (a * b)
  {
    var m, s := Quotient(n, a);
    var q, r := Quotient(m, b);
    Regroup(n, a, b, q, r, s);
    QuotientIs(n, a * b, q, a * r + s);
  }

  lemma Quotient(n: nat, d: nat) returns (q: nat, r: nat)
    requires d > 0
    ensures q == n / d && r < d && n == d * q + r
  {
    q, r := n / d, n % d;
  }

  lemma Regroup(n: nat, a: nat, b: nat, q: nat, r: nat, s: nat)
    requires r < b && s < a && n == a * (b * q + r) + s
    ensures 0 <= a * r + s < a * b && n == (a * b) * q + (a * r + s)
  {
    assert a * r <= a * (b - 1);
    assert a * (b * q + r) == (a * b) * q + a * r;
  }

  lemma QuotientIs(n: nat, m: nat, q: nat, r: nat)
    requires m > 0 && r < m && n == m * q + r
    ensures n / m == q
  {
    var p, t := n / m, n % m;
    assert n == m * p + t;
    assert (p - q) * m == r - t;
    SmallMultiple(p - q, m);
  }

  lemma {:induction false} LERoundTrip(n: nat, width: nat)
    requires n < Pow256(width)
    ensures FromLE(LE(n, width)) == n
  {
    if width > 0 {
      LERoundTrip(n / 256, width - 1);
      assert LE(n, width)[1..] == LE(n / 256, width - 1);
    }
  }

  lemma SmallMultiple(d: int, m: int)
    requires m > 0
    ensures -m < d * m < m ==> d == 0
  {
    if d >= 1 {
      assert d * m == (d - 1) * m + m;
    } else if d <= -1 {
      assert d * m == (d + 1) * m - m;
    }
  }

  /** The remainder is the one number below the divisor that fits. */
  lemma Unique(v: int, m: nat, k: int, r: int)
    requires 0 <= r < m && v == k * m + r
    ensures v % m == r
  {
    var q, s := v / m, v % m;
    assert v == q * m + s;
    assert (k - q) * m == s - r;
    SmallMultiple(k - q, m);
  }

  lemma Widths()
    ensures Pow256(1) == 0x100 && Pow256(2) == 0x1_0000
    ensures Pow256(4) == 0x1_0000_0000 && Pow256(8) == 0x1_0000_0000_0000_0000
  {
    assert Pow256(8) == 256 * Pow256(7) == 256 * (256 * Pow256(6)) == 256 * (256 * (256 * Pow256(5)));
    assert Pow256(5) == 256 * Pow256(4);
    assert Pow256(4) == 256 * (256 * (256 * Pow256(1)));
  }

  /** `b` right-aligned in 32 bytes. */
  function Pad32(b: seq<byte>): Digest
    requires |b| <= 32
  {
    ZeroBytes(32 - |b|) + b
  }

  lemma PadInjective(a: seq<byte>, b: seq<byte>)
    requires |a| <= 32 && |b| <= 32 && |a| == |b| && Pad32(a) == Pad32(b)
    ensures a == b
  {
    assert a == Pad32(a)[32 - |a|..] && b == Pad32(b)[32 - |b|..];
  }

  // ---- Hex ----

  function HexDigit(d: byte): byte
    requires d < 16
  {
    if d < 10 then 48 + d else 87 + d
  }

  /** Value of a hex digit of either case. */
  function DigitValue(c: byte): (r: Option<byte>)
    ensures r.Some? ==> r.value < 16
  {
    if 48 <= c <= 57 then Some(c - 48)
    else if 97 <= c <= 102 then Some(c - 87)
    else if 65 <= c <= 70 then Some(c - 55)
    else None
  }

  function HexOf(b: seq<byte>): Text {
    if b == [] then [] else [HexDigit(b[0] / 16), HexDigit(b[0] % 16)] + HexOf(b[1..])
  }

  /** Decoded bytes and whether the text was well-formed: of a malformed text,
      the bytes before the error. */
  function FromHex(t: Text): (r: (seq<byte>, bool))
    ensures 2 * |r.0| <= |t|
  {
    if t == [] then ([], true)
    else if |t| == 1 then ([], false)
    else
      match (DigitValue(t[0]), DigitValue(t[1]))
      case (Some(hi), Some(lo)) =>
        var (rest, ok) := FromHex(t[2..]);
        ([16 * hi + lo] + rest, ok)
      case _ => ([], false)
  }

  lemma {:induction false} HexRoundTrip(b: seq<byte>)
    ensures FromHex(HexOf(b)) == (b, true)
  {
    if b != [] {
      HexRoundTrip(b[1..]);
      var t := HexOf(b);
      assert t[2..] == HexOf(b[1..]);
      assert DigitValue(t[0]) == Some(b[0] / 16) && DigitValue(t[1]) == Some(b[0] % 16);
      assert 16 * (b[0] / 16) + b[0] % 16 == b[0];
      assert b == [b[0]] + b[1..];
    }
  }

  lemma HexInjective(a: seq<byte>, b: seq<byte>)
    requires HexOf(a) == HexOf(b)
    ensures a == b
  {
    HexRoundTrip(a);
    HexRoundTrip(b);
  }
}
