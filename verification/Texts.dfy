/** The texts behind keys and versions: distinct values have distinct texts, so
    comparing the datatypes is comparing the strings the system stores. */
module Texts {
  import opened Wrappers
  import opened Ledger

  // ---- Keys ----

  function Suffix(k: Key): string {
    match k
    case Balance(s) => s
    case Loyalty(s) => s
    case Discount(s) => s
    case EscrowOf(s) => s
    case EscrowReceipt(s) => s
    case TransferReceipt(s) => s
    case LoyaltyReceipt(s) => s
    case QtyReceipt(s) => s
    case DoubleReceipt(s) => s
  }

  function KeyText(k: Key): string {
    Stem(k) + ":" + Suffix(k)
  }

  function FirstColon(s: string): nat {
    if s == [] || s[0] == ':' then 0 else 1 + FirstColon(s[1..])
  }

  lemma {:induction false} FirstColonAfter(a: string, rest: string)
    requires ':' !in a
    ensures FirstColon(a + ":" + rest) == |a|
  {
    if a != [] {
      FirstColonAfter(a[1..], rest);
      assert (a + ":" + rest)[1..] == a[1..] + ":" + rest;
      assert a[0] in a;
    }
  }

  /** A text without colons before its first colon is determined by the whole. */
  lemma SplitAtColon(a: string, b: string, c: string, d: string)
    requires ':' !in a && ':' !in c && a + ":" + b == c + ":" + d
    ensures a == c && b == d
  {
    var x, y := a + ":" + b, c + ":" + d;
    FirstColonAfter(a, b);
    FirstColonAfter(c, d);
    assert a == x[..|a|] && c == y[..|c|];
    assert b == x[|a| + 1..] && d == y[|c| + 1..];
  }

  function Stem(k: Key): string {
    match k
    case Balance(_) => "balance"
    case Loyalty(_) => "loyalty"
    case Discount(_) => "discount"
    case EscrowOf(_) => "escrow"
    case EscrowReceipt(_) => "escrow_receipt"
    case TransferReceipt(_) => "xfer_receipt"
    case LoyaltyReceipt(_) => "loyalty_receipt"
    case QtyReceipt(_) => "qty_receipt"
    case DoubleReceipt(_) => "double_receipt"
  }

  /** Length and first letter tell the stems apart. */
  function StemShape(k: Key): (nat, char) {
    match k
    case Balance(_) => (7, 'b')
    case Loyalty(_) => (7, 'l')
    case Discount(_) => (8, 'd')
    case EscrowOf(_) => (6, 'e')
    case EscrowReceipt(_) => (14, 'e')
    case TransferReceipt(_) => (12, 'x')
    case LoyaltyReceipt(_) => (15, 'l')
    case QtyReceipt(_) => (11, 'q')
    case DoubleReceipt(_) => (14, 'd')
  }

  lemma StemHasShape(k: Key)
    ensures ':' !in Stem(k) && Stem(k) != [] && (|Stem(k)|, Stem(k)[0]) == StemShape(k)
  {
  }

  lemma KeyTextInjective(j: Key, k: Key)
    requires KeyText(j) == KeyText(k)
    ensures j == k
  {
    StemHasShape(j);
    StemHasShape(k);
    hide Stem;
    SplitAtColon(Stem(j), Suffix(j), Stem(k), Suffix(k));
    assert StemShape(j) == StemShape(k);
  }

  /** The text of every key that the contracts use. */
  lemma KeyTexts(s: string)
    ensures KeyText(Balance(s)) == "balance:" + s && KeyText(Loyalty(s)) == "loyalty:" + s
    ensures KeyText(Discount(s)) == "discount:" + s && KeyText(EscrowOf(s)) == "escrow:" + s
    ensures KeyText(EscrowReceipt(s)) == "escrow_receipt:" + s && KeyText(TransferReceipt(s)) == "xfer_receipt:" + s
    ensures KeyText(LoyaltyReceipt(s)) == "loyalty_receipt:" + s && KeyText(QtyReceipt(s)) == "qty_receipt:" + s
    ensures KeyText(DoubleReceipt(s)) == "double_receipt:" + s
  {
    assert "balance" + ":" == "balance:" && "loyalty" + ":" == "loyalty:" && "discount" + ":" == "discount:";
    assert "escrow" + ":" == "escrow:" && "escrow_receipt" + ":" == "escrow_receipt:";
    assert "xfer_receipt" + ":" == "xfer_receipt:" && "loyalty_receipt" + ":" == "loyalty_receipt:";
    assert "qty_receipt" + ":" == "qty_receipt:" && "double_receipt" + ":" == "double_receipt:";
  }

  // ---- What the state endpoint does to a key ----

  function TrimLeft(s: string): string {
    if s == [] || !IsSpace(s[0]) then s else TrimLeft(s[1..])
  }

  function TrimSpace(s: string): string {
    TrimRight(TrimLeft(s))
  }

  lemma {:induction false} TrimRightAfter(front: string, rest: string)
    requires front != [] && !IsSpace(front[|front| - 1])
    ensures TrimRight(front + rest) == front + TrimRight(rest)
  {
    if rest == [] {
      assert front + rest == front;
    } else if IsSpace(rest[|rest| - 1]) {
      assert (front + rest)[..|front + rest| - 1] == front + rest[..|rest| - 1];
      TrimRightAfter(front, rest[..|rest| - 1]);
    }
  }

  lemma StemStartsPlain(k: Key)
    ensures Stem(k) != [] && !IsSpace(Stem(k)[0]) && !IsSpace(':')
  {
  }

  lemma TrimmedParts(k: Key)
    ensures Stem(k.Trimmed()) == Stem(k) && Suffix(k.Trimmed()) == TrimRight(Suffix(k))
  {
  }

  /** Trimming the text of a key trims the white space at its end, and a key is
      clean exactly when trimming leaves its text alone. */
  lemma TrimmedText(k: Key)
    ensures TrimSpace(KeyText(k)) == KeyText(k.Trimmed())
    ensures k.Clean() <==> TrimSpace(KeyText(k)) == KeyText(k)
  {
    hide Stem, Suffix, Key.Trimmed, IsSpace;
    StemHasShape(k);
    StemStartsPlain(k);
    TrimmedParts(k);
    var front := Stem(k) + ":";
    assert TrimLeft(KeyText(k)) == KeyText(k);
    TrimRightAfter(front, Suffix(k));
    if TrimSpace(KeyText(k)) == KeyText(k) {
      KeyTextInjective(k.Trimmed(), k);
    }
  }

  // ---- The conflict check's empty key ----

  /** What the check returns as text: the conflicting key, or the empty text. */
  function ConflictText(conflict: Option<Key>): string {
    match conflict
    case None => ""
    case Some(key) => KeyText(key)
  }

  /** No key has an empty text, so the empty text means no conflict and nothing
      else, and a conflict's text tells which key it was. */
  lemma ConflictTextExact(c: Option<Key>, d: Option<Key>)
    ensures ConflictText(c) == "" <==> c.None?
    ensures ConflictText(c) == ConflictText(d) <==> c == d
  {
    if c.Some? && d.Some? && ConflictText(c) == ConflictText(d) {
      KeyTextInjective(c.value, d.value);
    }
  }

  // ---- Versions ----

  function Digit(d: nat): char
    requires d < 10
  {
    ['0', '1', '2', '3', '4', '5', '6', '7', '8', '9'][d]
  }

  function Dec(n: nat): (s: string)
    ensures s != [] && ':' !in s && 'a' !in s
    ensures |s| == 1 <==> n < 10
  {
    if n < 10 then [Digit(n)] else Dec(n / 10) + [Digit(n % 10)]
  }

  lemma LastDigit(n: nat)
    ensures Dec(n)[|Dec(n)| - 1] == Digit(n % 10)
    ensures n >= 10 ==> Dec(n)[..|Dec(n)| - 1] == Dec(n / 10)
  {
    hide Digit;
  }

  lemma DigitInjective(a: nat, b: nat)
    requires a < 10 && b < 10 && Digit(a) == Digit(b)
    ensures a == b
  {
  }

  lemma {:induction false} DecInjective(m: nat, n: nat)
    requires Dec(m) == Dec(n)
    ensures m == n
  {
    hide Dec, Digit;
    LastDigit(m);
    LastDigit(n);
    DigitInjective(m % 10, n % 10);
    if m >= 10 {
      DecInjective(m / 10, n / 10);
    }
  }

  /** The number that a text of decimal digits stands for. */
  function Read(s: string): int {
    if s == [] then 0 else 10 * Read(s[..|s| - 1]) + (s[|s| - 1] as int - '0' as int)
  }

  /** `Dec` writes plain decimal: it reads as the number, digits only, none of them a leading
      zero. */
  lemma {:induction false} DecReads(n: nat)
    ensures Read(Dec(n)) == n && (n > 0 ==> Dec(n)[0] != '0')
    ensures forall i | 0 <= i < |Dec(n)| :: '0' <= Dec(n)[i] <= '9'
  {
    hide Dec, Digit;
    LastDigit(n);
    DigitReads(n % 10);
    if n < 10 {
      assert Dec(n)[..0] == [];
    } else {
      DecReads(n / 10);
      assert forall i | 0 <= i < |Dec(n)| - 1 :: Dec(n)[i] == Dec(n / 10)[i];
    }
  }

  lemma DigitReads(d: nat)
    requires d < 10
    ensures Digit(d) as int == '0' as int + d
  {
  }

  /** Block heights and clock readings are never negative. */
  predicate Printable(v: Version) {
    match v
    case NoVersion => true
    case AtBlock(height, _) => height >= 0
    case Admin(nanos, _) => nanos >= 0
  }

  function VersionText(v: Version): string
    requires Printable(v)
  {
    match v
    case NoVersion => ""
    case AtBlock(height, index) => Dec(height) + ":" + Dec(index)
    case Admin(nanos, serial) => "admin" + ":" + (Dec(nanos) + ":" + Dec(serial))
  }

  lemma VersionTextInjective(v: Version, w: Version)
    requires Printable(v) && Printable(w) && VersionText(v) == VersionText(w)
    ensures v == w
  {
    match (v, w) {
      case (AtBlock(h, i), AtBlock(h', i')) =>
        SplitAtColon(Dec(h), Dec(i), Dec(h'), Dec(i'));
        DecInjective(h, h');
        DecInjective(i, i');
      case (Admin(t, n), Admin(t', n')) =>
        SplitAtColon("admin", Dec(t) + ":" + Dec(n), "admin", Dec(t') + ":" + Dec(n'));
        SplitAtColon(Dec(t), Dec(n), Dec(t'), Dec(n'));
        DecInjective(t, t');
        DecInjective(n, n');
      case (AtBlock(h, i), Admin(t, n)) => NotAdmin(h, Dec(i), Dec(t) + ":" + Dec(n));
      case (Admin(t, n), AtBlock(h, i)) => NotAdmin(h, Dec(i), Dec(t) + ":" + Dec(n));
      case _ =>
    }
  }

  /** A block's stamp reads back as its height and the position of its transaction; an admin
      stamp has a mark in front of the clock and the counter. */
  lemma VersionReads(height: nat, index: nat)
    ensures var t, u, i := VersionText(AtBlock(height, index)), VersionText(Admin(height, index)),
              FirstColon(VersionText(AtBlock(height, index)));
            && i < |t| && Read(t[..i]) == height && Read(t[i + 1..]) == index
            && u == "admin:" + t
    ensures VersionText(NoVersion) == ""
  {
    hide Dec, Read;
    var t := VersionText(AtBlock(height, index));
    FirstColonAfter(Dec(height), Dec(index));
    assert t == Dec(height) + ":" + Dec(index);
    assert t[..|Dec(height)|] == Dec(height) && t[|Dec(height)| + 1..] == Dec(index);
    DecReads(height);
    DecReads(index);
    assert "admin" + ":" == "admin:" && "admin:" + t == "admin" + ":" + t;
  }

  lemma NotAdmin(h: nat, rest: string, tail: string)
    ensures Dec(h) + ":" + rest != "admin" + ":" + tail
  {
    assert (Dec(h) + ":" + rest)[0] == Dec(h)[0] && Dec(h)[0] in Dec(h);
    assert ("admin" + ":" + tail)[0] == 'a';
  }

  // ---- Order ----

  /** Byte-wise comparison of strings. */
  predicate LexLess(a: string, b: string) {
    b != [] && (a == [] || a[0] < b[0] || (a[0] == b[0] && LexLess(a[1..], b[1..])))
  }

  /** The first character that differs decides, and a proper prefix comes first. */
  lemma {:induction false} LexLessExactly(a: string, b: string)
    ensures LexLess(a, b) <==>
            exists i | 0 <= i <= |a| && i < |b| :: a[..i] == b[..i] && (i == |a| || a[i] < b[i])
  {
    if a != [] && b != [] && a[0] == b[0] {
      var x, y := a[1..], b[1..];
      LexLessExactly(x, y);
      forall i | 0 <= i <= |x| && i < |y| && x[..i] == y[..i] && (i == |x| || x[i] < y[i])
        ensures exists j | 0 <= j <= |a| && j < |b| :: a[..j] == b[..j] && (j == |a| || a[j] < b[j])
      {
        assert a[..i + 1] == [a[0]] + x[..i] && b[..i + 1] == [b[0]] + y[..i];
        assert a[..i + 1] == b[..i + 1];
      }
      forall j | 0 <= j <= |a| && j < |b| && a[..j] == b[..j] && (j == |a| || a[j] < b[j])
        ensures exists i | 0 <= i <= |x| && i < |y| :: x[..i] == y[..i] && (i == |x| || x[i] < y[i])
      {
        assert j > 0;
        assert x[..j - 1] == a[..j][1..] && y[..j - 1] == b[..j][1..];
        assert x[..j - 1] == y[..j - 1];
      }
    } else {
      assert a[..0] == b[..0];
      if b != [] && a != [] {
        forall i | 0 < i <= |a| && i < |b| ensures a[..i] != b[..i] {
          assert a[..i][0] != b[..i][0];
        }
      }
    }
  }

  lemma {:induction false} LexTransitive(a: string, b: string, c: string)
    requires LexLess(a, b) && LexLess(b, c)
    ensures LexLess(a, c)
  {
    if a != [] && a[0] == b[0] && b[0] == c[0] {
      LexTransitive(a[1..], b[1..], c[1..]);
    }
  }

  lemma {:induction false} LexIrreflexive(a: string)
    ensures !LexLess(a, a)
  {
    if a != [] {
      LexIrreflexive(a[1..]);
    }
  }

  lemma {:induction false} LexTotal(a: string, b: string)
    requires a != b
    ensures LexLess(a, b) || LexLess(b, a)
  {
    if a != [] && b != [] && a[0] == b[0] {
      assert a == [a[0]] + a[1..] && b == [b[0]] + b[1..];
      LexTotal(a[1..], b[1..]);
    }
  }

  predicate KeyLess(j: Key, k: Key) {
    LexLess(KeyText(j), KeyText(k))
  }

  lemma KeyLessTotal(j: Key, k: Key)
    requires j != k
    ensures KeyLess(j, k) != KeyLess(k, j)
  {
    if KeyText(j) == KeyText(k) {
      KeyTextInjective(j, k);
    }
    LexTotal(KeyText(j), KeyText(k));
    if KeyLess(j, k) && KeyLess(k, j) {
      LexTransitive(KeyText(j), KeyText(k), KeyText(j));
      LexIrreflexive(KeyText(j));
    }
  }
}
