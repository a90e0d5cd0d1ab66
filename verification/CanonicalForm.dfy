/** The sorted read/write lists behind the endorsement digest. */
module CanonicalForm {
  import opened Wrappers
  import opened Ledger
  import opened RwSets
  import opened Texts

  /** A list entry with its key: both reads and writes are sorted by key. */
  datatype Keyed<T> = Keyed(key: Key, item: T)

  ghost predicate Unique<T>(xs: seq<Keyed<T>>) {
    forall i, j | 0 <= i < j < |xs| :: xs[i].key != xs[j].key
  }

  function Insert<T>(x: Keyed<T>, xs: seq<Keyed<T>>): seq<Keyed<T>> {
    if xs == [] || KeyLess(x.key, xs[0].key) then [x] + xs else [xs[0]] + Insert(x, xs[1..])
  }

  function Sort<T>(xs: seq<Keyed<T>>): seq<Keyed<T>> {
    if xs == [] then [] else Insert(xs[0], Sort(xs[1..]))
  }

  lemma HeadAndTail<T>(xs: seq<T>)
    requires xs != []
    ensures multiset(xs) == multiset{xs[0]} + multiset(xs[1..])
  {
    assert xs == [xs[0]] + xs[1..];
  }

  lemma {:induction false} InsertKeeps<T>(x: Keyed<T>, xs: seq<Keyed<T>>)
    ensures multiset(Insert(x, xs)) == multiset(xs) + multiset{x}
  {
    hide KeyLess;
    if xs != [] && !KeyLess(x.key, xs[0].key) {
      InsertKeeps(x, xs[1..]);
      HeadAndTail(xs);
      assert multiset([xs[0]] + Insert(x, xs[1..])) == multiset{xs[0]} + multiset(Insert(x, xs[1..]));
    }
  }

  lemma {:induction false} SortKeeps<T>(xs: seq<Keyed<T>>)
    ensures multiset(Sort(xs)) == multiset(xs)
  {
    if xs != [] {
      SortKeeps(xs[1..]);
      InsertKeeps(xs[0], Sort(xs[1..]));
      assert xs == [xs[0]] + xs[1..];
    }
  }

  /** Strictly ascending keys: what sorting unique keys gives. */
  ghost predicate Ascending<T>(xs: seq<Keyed<T>>) {
    forall i, j | 0 <= i < j < |xs| :: KeyLess(xs[i].key, xs[j].key)
  }

  lemma KeyLessChain(a: Key, b: Key, c: Key)
    requires KeyLess(a, b) && KeyLess(b, c)
    ensures KeyLess(a, c)
  {
    LexTransitive(KeyText(a), KeyText(b), KeyText(c));
  }

  lemma PrependAscending<T>(x: Keyed<T>, xs: seq<Keyed<T>>)
    requires Ascending(xs) && forall j | 0 <= j < |xs| :: KeyLess(x.key, xs[j].key)
    ensures Ascending([x] + xs)
  {
    hide KeyLess;
    var all := [x] + xs;
    forall i, j | 0 <= i < j < |all| ensures KeyLess(all[i].key, all[j].key) {
      assert all[j] == xs[j - 1];
      assert i > 0 ==> all[i] == xs[i - 1];
    }
  }

  lemma InInserted<T>(x: Keyed<T>, xs: seq<Keyed<T>>, j: nat)
    requires j < |Insert(x, xs)|
    ensures Insert(x, xs)[j] == x || Insert(x, xs)[j] in xs
  {
    hide Insert;
    InsertKeeps(x, xs);
    assert Insert(x, xs)[j] in multiset(Insert(x, xs));
  }

  lemma {:induction false} InsertAscending<T>(x: Keyed<T>, xs: seq<Keyed<T>>)
    requires Ascending(xs) && forall y | y in xs :: y.key != x.key
    ensures Ascending(Insert(x, xs))
  {
    hide KeyLess;
    if xs == [] {
    } else if KeyLess(x.key, xs[0].key) {
      forall j | 0 <= j < |xs| ensures KeyLess(x.key, xs[j].key) {
        if j > 0 { KeyLessChain(x.key, xs[0].key, xs[j].key); }
      }
      PrependAscending(x, xs);
    } else {
      var rest := xs[1..];
      InsertAscending(x, rest);
      assert xs[0] in xs;
      KeyLessTotal(x.key, xs[0].key);
      forall j | 0 <= j < |Insert(x, rest)| ensures KeyLess(xs[0].key, Insert(x, rest)[j].key) {
        InInserted(x, rest, j);
      }
      PrependAscending(xs[0], Insert(x, rest));
    }
  }

  lemma {:induction false} SortAscending<T>(xs: seq<Keyed<T>>)
    requires Unique(xs)
    ensures Ascending(Sort(xs))
  {
    if xs != [] {
      var rest := xs[1..];
      assert forall i, j | 0 <= i < j < |rest| :: rest[i] == xs[i + 1] && rest[j] == xs[j + 1];
      SortAscending(rest);
      SortKeeps(rest);
      forall y | y in Sort(rest) ensures y.key != xs[0].key {
        assert y in multiset(Sort(rest));
        var i :| 0 <= i < |rest| && rest[i] == y;
        assert xs[i + 1] == y;
      }
      InsertAscending(xs[0], Sort(rest));
    }
  }

  lemma NotBothLess(j: Key, k: Key)
    ensures !(KeyLess(j, k) && KeyLess(k, j))
  {
    if KeyLess(j, k) && KeyLess(k, j) {
      LexTransitive(KeyText(j), KeyText(k), KeyText(j));
      LexIrreflexive(KeyText(j));
    }
  }

  lemma SameHead<T>(xs: seq<Keyed<T>>, ys: seq<Keyed<T>>)
    requires Ascending(xs) && Ascending(ys) && multiset(xs) == multiset(ys) && xs != [] && ys != []
    ensures xs[0] == ys[0]
  {
    hide KeyLess;
    var x, y := xs[0], ys[0];
    assert x in multiset(xs) && y in multiset(ys);
    var i :| 0 <= i < |ys| && ys[i] == x;
    var j :| 0 <= j < |xs| && xs[j] == y;
    NotBothLess(x.key, y.key);
  }

  lemma AscendingTail<T>(xs: seq<Keyed<T>>)
    requires Ascending(xs) && xs != []
    ensures Ascending(xs[1..])
  {
    hide KeyLess;
  }

  /** Two ascending arrangements of the same entries are the same list. */
  lemma {:induction false} AscendingUnique<T>(xs: seq<Keyed<T>>, ys: seq<Keyed<T>>)
    requires Ascending(xs) && Ascending(ys) && multiset(xs) == multiset(ys)
    ensures xs == ys
  {
    hide KeyLess, Ascending;
    assert |xs| == |multiset(xs)| == |multiset(ys)| == |ys|;
    if xs != [] {
      SameHead(xs, ys);
      HeadAndTail(xs);
      HeadAndTail(ys);
      assert multiset(xs[1..]) == multiset(xs) - multiset{xs[0]} == multiset(ys[1..]);
      AscendingTail(xs);
      AscendingTail(ys);
      AscendingUnique(xs[1..], ys[1..]);
      assert xs == [xs[0]] + xs[1..] && ys == [ys[0]] + ys[1..];
    }
  }

  function KeyedReads(readSet: seq<KVRead>): seq<Keyed<KVRead>> {
    seq(|readSet|, i requires 0 <= i < |readSet| => Keyed(readSet[i].key, readSet[i]))
  }

  function KeyedWrites(writeSet: seq<KVWrite>): seq<Keyed<KVWrite>> {
    seq(|writeSet|, i requires 0 <= i < |writeSet| => Keyed(writeSet[i].key, writeSet[i]))
  }

  /** The lists that are marshalled and hashed; nothing for an empty set. */
  function Canonical(rw: RW): Option<(seq<Keyed<KVRead>>, seq<Keyed<KVWrite>>)> {
    if rw.readSet == [] && rw.writeSet == [] then None
    else Some((Sort(KeyedReads(rw.readSet)), Sort(KeyedWrites(rw.writeSet))))
  }

  lemma SortedAlike<T>(xs: seq<Keyed<T>>, ys: seq<Keyed<T>>)
    requires Unique(xs) && Unique(ys)
    ensures Sort(xs) == Sort(ys) <==> multiset(xs) == multiset(ys)
    ensures multiset(xs) == multiset(ys) ==> |xs| == |ys|
  {
    hide Sort, Unique;
    SortKeeps(xs);
    SortKeeps(ys);
    if multiset(xs) == multiset(ys) {
      SortAscending(xs);
      SortAscending(ys);
      AscendingUnique(Sort(xs), Sort(ys));
      assert |xs| == |multiset(xs)| == |ys|;
    }
  }

  /** On unique keys the hashed lists do not depend on the order of reads and
      writes, and they determine the contents of the read/write set. */
  lemma CanonicalIffSameContents(a: RW, b: RW)
    requires UniqueReads(a.readSet) && UniqueWrites(a.writeSet) && UniqueReads(b.readSet) && UniqueWrites(b.writeSet)
    ensures Canonical(a) == Canonical(b) <==>
            && multiset(KeyedReads(a.readSet)) == multiset(KeyedReads(b.readSet))
            && multiset(KeyedWrites(a.writeSet)) == multiset(KeyedWrites(b.writeSet))
  {
    hide Sort;
    SortedAlike(KeyedReads(a.readSet), KeyedReads(b.readSet));
    SortedAlike(KeyedWrites(a.writeSet), KeyedWrites(b.writeSet));
    if multiset(KeyedReads(a.readSet)) == multiset(KeyedReads(b.readSet))
      && multiset(KeyedWrites(a.writeSet)) == multiset(KeyedWrites(b.writeSet))
    {
      if Canonical(a).None? { NoneIsEmpty(a, b); }
      if Canonical(b).None? { NoneIsEmpty(b, a); }
    }
  }

  /** An empty set has no other with its contents. */
  lemma NoneIsEmpty(a: RW, b: RW)
    requires Canonical(a).None? && multiset(KeyedReads(a.readSet)) == multiset(KeyedReads(b.readSet))
    requires multiset(KeyedWrites(a.writeSet)) == multiset(KeyedWrites(b.writeSet))
    ensures Canonical(b).None?
  {
    hide Sort;
    var ar, br, aw, bw := KeyedReads(a.readSet), KeyedReads(b.readSet), KeyedWrites(a.writeSet),
      KeyedWrites(b.writeSet);
    assert |ar| == |multiset(ar)| == |br| && |aw| == |multiset(aw)| == |bw|;
  }

  /** Both hashed lists ascend in the texts of their keys, each entry under its own key. */
  lemma CanonicalAscends(rw: RW)
    requires UniqueReads(rw.readSet) && UniqueWrites(rw.writeSet) && Canonical(rw).Some?
    ensures var (rs, ws) := Canonical(rw).value;
            && (forall i, j | 0 <= i < j < |rs| :: LexLess(KeyText(rs[i].key), KeyText(rs[j].key)))
            && (forall i, j | 0 <= i < j < |ws| :: LexLess(KeyText(ws[i].key), KeyText(ws[j].key)))
            && (forall i | 0 <= i < |rs| :: rs[i].key == rs[i].item.key)
            && (forall i | 0 <= i < |ws| :: ws[i].key == ws[i].item.key)
            && |rs| == |rw.readSet| && |ws| == |rw.writeSet|
            && (forall r | r in rw.readSet :: Keyed(r.key, r) in rs)
            && (forall w | w in rw.writeSet :: Keyed(w.key, w) in ws)
  {
    hide Sort, LexLess, KeyText;
    var rs, ws := KeyedReads(rw.readSet), KeyedWrites(rw.writeSet);
    SortAscending(rs);
    SortAscending(ws);
    SameEntries(rs);
    SameEntries(ws);
    forall r | r in rw.readSet ensures Keyed(r.key, r) in Sort(rs) {
      var i :| 0 <= i < |rw.readSet| && rw.readSet[i] == r;
      assert rs[i] == Keyed(r.key, r);
    }
    forall w | w in rw.writeSet ensures Keyed(w.key, w) in Sort(ws) {
      var i :| 0 <= i < |rw.writeSet| && rw.writeSet[i] == w;
      assert ws[i] == Keyed(w.key, w);
    }
  }

  lemma SameEntries<T>(xs: seq<Keyed<T>>)
    ensures |Sort(xs)| == |xs|
    ensures forall x :: x in Sort(xs) <==> x in xs
    ensures forall i | 0 <= i < |Sort(xs)| :: Sort(xs)[i] in xs
  {
    hide Sort;
    SortKeeps(xs);
    assert |Sort(xs)| == |multiset(Sort(xs))| == |multiset(xs)| == |xs|;
    forall x ensures x in Sort(xs) <==> x in xs {
      assert x in multiset(Sort(xs)) <==> x in multiset(xs);
    }
    forall i | 0 <= i < |Sort(xs)| ensures Sort(xs)[i] in xs {
      assert Sort(xs)[i] in multiset(Sort(xs));
    }
  }
}
