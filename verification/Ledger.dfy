/** The commit peer's account/KV world state as a value: two key spaces, one for
    values ("kv:<key>") and one for MVCC versions ("ver:<key>"). */
module Ledger {
  import opened Wrappers

  /** White space as the state endpoint trims it. */
  predicate IsSpace(c: char) {
    c as int in {0x9, 0xa, 0xb, 0xc, 0xd, 0x20, 0x85, 0xa0, 0x1680, 0x2028, 0x2029, 0x202f, 0x205f, 0x3000}
      || 0x2000 <= c as int <= 0x200a
  }

  function TrimRight(s: string): (r: string)
    ensures r <= s
    ensures r == s <==> s == [] || !IsSpace(s[|s| - 1])
  {
    if s == [] || !IsSpace(s[|s| - 1]) then s else TrimRight(s[..|s| - 1])
  }

  /** Length of a character in UTF-8. */
  function CharBytes(c: char): (n: nat)
    ensures 1 <= n <= 4
  {
    if c as int < 0x80 then 1 else if c as int < 0x800 then 2 else if c as int < 0x1_0000 then 3 else 4
  }

  /** Length of a text as the contracts count it: bytes, not characters. */
  function ByteLen(s: string): (n: nat)
    ensures |s| <= n <= 4 * |s|
  {
    if s == [] then 0 else ByteLen(s[..|s| - 1]) + CharBytes(s[|s| - 1])
  }

  /** Trimming makes every text shorter that it changes. */
  lemma {:induction false} TrimmedIsShorter(s: string)
    ensures ByteLen(TrimRight(s)) <= ByteLen(s)
    ensures TrimRight(s) != s ==> ByteLen(TrimRight(s)) < ByteLen(s)
  {
    if s != [] && IsSpace(s[|s| - 1]) {
      TrimmedIsShorter(s[..|s| - 1]);
    }
  }

  /** Keys written by the contracts, one constructor for each textual prefix. */
  datatype Key =
    | Balance(addr: string)
    | Loyalty(addr: string)
    | Discount(addr: string)
    | EscrowOf(id: string)
    | EscrowReceipt(id: string)
    | TransferReceipt(to: string)
    | LoyaltyReceipt(to: string)
    | QtyReceipt(to: string)
    | DoubleReceipt(to: string)
  {
    /** The key that the state endpoint looks up when asked for this one. */
    function Trimmed(): Key {
      match this
      case Balance(s) => Balance(TrimRight(s))
      case Loyalty(s) => Loyalty(TrimRight(s))
      case Discount(s) => Discount(TrimRight(s))
      case EscrowOf(s) => EscrowOf(TrimRight(s))
      case EscrowReceipt(s) => EscrowReceipt(TrimRight(s))
      case TransferReceipt(s) => TransferReceipt(TrimRight(s))
      case LoyaltyReceipt(s) => LoyaltyReceipt(TrimRight(s))
      case QtyReceipt(s) => QtyReceipt(TrimRight(s))
      case DoubleReceipt(s) => DoubleReceipt(TrimRight(s))
    }

    /** No white space at the end. */
    predicate Clean() {
      Trimmed() == this
    }
  }

  /** Stored bytes, up to their encoding.  `Empty` is the value of length zero,
      which a contract cannot tell from a missing key. */
  datatype Value =
    | Empty
    | Int(n: int)
    | EscrowRec(from: string, to: string, amount: int)
    | Rate(d: real)
    | Raw(text: string)

  /** MVCC versions: "", "<height>:<index>" and "admin:<nanos>:<n>". */
  datatype Version = NoVersion | AtBlock(height: int, index: nat) | Admin(nanos: int, serial: nat)

  datatype Store = Store(kv: map<Key, Value>, ver: map<Key, Version>) {

    /** A key has a version exactly when it has a value. */
    ghost predicate WellFormed() {
      && kv.Keys == ver.Keys
      && forall k | k in ver :: ver[k] != NoVersion
    }

    function GetKV(key: Key): Option<Value> {
      if key in kv then Some(kv[key]) else None
    }

    function GetVersion(key: Key): Version {
      if key in ver then ver[key] else NoVersion
    }

    /** Value, version and found flag of one key. */
    function GetKVWithVersion(key: Key): (Value, Version, bool) {
      if key in kv then (kv[key], GetVersion(key), true) else (Empty, NoVersion, false)
    }

    /** The bytes a contract gets for `key`: none when the key is missing. */
    function Observe(key: Key): Value {
      if key in kv then kv[key] else Empty
    }

    /** What the state endpoint answers for `key`: the pair of the trimmed key. */
    function Served(key: Key): (Value, Version, bool) {
      GetKVWithVersion(key.Trimmed())
    }

    function ServedValue(key: Key): Value {
      Observe(key.Trimmed())
    }

    function ServedVersion(key: Key): Version {
      GetVersion(key.Trimmed())
    }

    function Put(key: Key, value: Value, version: Version): Store {
      Store(kv[key := value], ver[key := version])
    }

    function Delete(key: Key): Store {
      Store(kv - {key}, ver - {key})
    }
  }

  const EMPTY_STORE := Store(map[], map[])
}
