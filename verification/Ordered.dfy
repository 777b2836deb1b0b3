/** A map kept in the order of its keys. */
module Ordered {
  import opened Wrappers
  import Text

  type Table<K, V> = seq<(K, V)>

  /** Of two different keys one comes first, and never the other. */
  ghost predicate Orders<K(!new)>(less: (K, K) -> bool) {
    && Text.Asymmetric(less)
    && (forall x, y, z :: less(x, y) && less(y, z) ==> less(x, z))
    && forall x, y :: x == y || less(x, y) || less(y, x)
  }

  ghost predicate Ascends<K, V>(less: (K, K) -> bool, t: Table<K, V>) {
    forall i, j :: 0 <= i < j < |t| ==> less(t[i].0, t[j].0)
  }

  function At<K(==), V>(t: Table<K, V>, k: K): Option<V> {
    if t == [] then None else if t[0].0 == k then Some(t[0].1) else At(t[1..], k)
  }

  function Put<K(==), V>(less: (K, K) -> bool, t: Table<K, V>, k: K, v: V): (r: Table<K, V>)
    ensures forall e :: e in r ==> e == (k, v) || e in t
  {
    if t == [] then [(k, v)]
    else if t[0].0 == k then [(k, v)] + t[1..]
    else if less(k, t[0].0) then [(k, v)] + t
    else [t[0]] + Put(less, t[1..], k, v)
  }

  function Keys<K, V>(t: Table<K, V>): (keys: seq<K>)
    ensures |keys| == |t| && forall i :: 0 <= i < |t| ==> keys[i] == t[i].0
  {
    seq(|t|, i requires 0 <= i < |t| => t[i].0)
  }

  lemma {:induction false} KeysFound<K, V>(t: Table<K, V>, k: K)
    ensures k in Keys(t) <==> At(t, k).Some?
  {
    if t != [] {
      KeysFound(t[1..], k);
      assert Keys(t) == [t[0].0] + Keys(t[1..]);
    }
  }

  lemma AscendsTail<K, V>(less: (K, K) -> bool, t: Table<K, V>)
    requires Ascends(less, t) && t != []
    ensures Ascends(less, t[1..]) && forall e :: e in t[1..] ==> less(t[0].0, e.0)
  {
    forall e | e in t[1..] ensures less(t[0].0, e.0) {
      var i :| 0 <= i < |t[1..]| && t[1..][i] == e;
      assert t[i + 1] == e;
    }
  }

  lemma AscendsCons<K, V>(less: (K, K) -> bool, e: (K, V), t: Table<K, V>)
    requires Ascends(less, t) && forall d :: d in t ==> less(e.0, d.0)
    ensures Ascends(less, [e] + t)
  {
  }

  lemma {:induction false} PutAscends<K(!new), V>(less: (K, K) -> bool, t: Table<K, V>, k: K, v: V)
    requires Orders(less) && Ascends(less, t)
    ensures Ascends(less, Put(less, t, k, v))
  {
    if t != [] {
      AscendsTail(less, t);
      if t[0].0 == k {
        AscendsCons(less, (k, v), t[1..]);
      } else if less(k, t[0].0) {
        forall d | d in t ensures less(k, d.0) { assert d == t[0] || d in t[1..]; }
        AscendsCons(less, (k, v), t);
      } else {
        PutAscends(less, t[1..], k, v);
        AscendsCons(less, t[0], Put(less, t[1..], k, v));
      }
    }
  }

  lemma ConsAt<K, V>(e: (K, V), t: Table<K, V>, k: K)
    ensures At([e] + t, k) == if e.0 == k then Some(e.1) else At(t, k)
  {
    assert ([e] + t)[1..] == t;
  }

  lemma {:induction false} NotThere<K, V>(t: Table<K, V>, k: K)
    requires forall e :: e in t ==> e.0 != k
    ensures At(t, k) == None
  {
    if t != [] { NotThere(t[1..], k); }
  }

  /** What is put is found where it was put, and nothing else moves. */
  lemma {:induction false} PutAt<K(!new), V>(less: (K, K) -> bool, t: Table<K, V>, k: K, v: V, at: K)
    requires Orders(less) && Ascends(less, t)
    ensures At(Put(less, t, k, v), at) == if at == k then Some(v) else At(t, at)
  {
    if t == [] {
      ConsAt((k, v), t, at);
      assert [(k, v)] + t == [(k, v)];
    } else {
      AscendsTail(less, t);
      if t[0].0 == k {
        ConsAt((k, v), t[1..], at);
      } else if less(k, t[0].0) {
        ConsAt((k, v), t, at);
      } else {
        PutAt(less, t[1..], k, v, at);
        ConsAt(t[0], Put(less, t[1..], k, v), at);
      }
    }
  }

  /** What is found is what is there. */
  lemma {:induction false} AtHolds<K(!new), V>(less: (K, K) -> bool, t: Table<K, V>, k: K, v: V)
    requires Orders(less) && Ascends(less, t)
    ensures At(t, k) == Some(v) <==> (k, v) in t
  {
    if t != [] {
      AscendsTail(less, t);
      AtHolds(less, t[1..], k, v);
      assert !less(k, k);
      assert (k, v) in t <==> (k, v) == t[0] || (k, v) in t[1..];
    }
  }

  /** The entries whose keys are of a kind. */
  function Only<K, V>(t: Table<K, V>, kind: K -> bool): (r: Table<K, V>)
    ensures forall e :: e in r ==> e in t && kind(e.0)
  {
    if t == [] then [] else (if kind(t[0].0) then [t[0]] else []) + Only(t[1..], kind)
  }

  lemma {:induction false} OnlyAscends<K, V>(less: (K, K) -> bool, t: Table<K, V>, kind: K -> bool)
    requires Ascends(less, t)
    ensures Ascends(less, Only(t, kind))
  {
    if t != [] {
      AscendsTail(less, t);
      OnlyAscends(less, t[1..], kind);
      AscendsCons(less, t[0], Only(t[1..], kind));
      assert [] + Only(t[1..], kind) == Only(t[1..], kind);
    }
  }

  lemma {:induction false} OnlyAt<K, V>(t: Table<K, V>, kind: K -> bool, k: K)
    ensures At(Only(t, kind), k) == if kind(k) then At(t, k) else None
  {
    if t != [] {
      OnlyAt(t[1..], kind, k);
      ConsAt(t[0], Only(t[1..], kind), k);
      assert [] + Only(t[1..], kind) == Only(t[1..], kind);
    }
  }

  /** Two tables that answer alike are one table. */
  lemma OneTable<K(!new), V(!new)>(less: (K, K) -> bool, a: Table<K, V>, b: Table<K, V>)
    requires Orders(less) && Ascends(less, a) && Ascends(less, b)
    requires forall k :: At(a, k) == At(b, k)
    ensures a == b
  {
    var before := (x: (K, V), y: (K, V)) => less(x.0, y.0);
    forall e ensures e in a <==> e in b {
      AtHolds(less, a, e.0, e.1);
      AtHolds(less, b, e.0, e.1);
    }
    assert Text.Asymmetric(before) by {
      forall x, y | before(x, y) ensures !before(y, x) { assert less(x.0, y.0); }
    }
    assert Text.Ascending(before, a) && Text.Ascending(before, b);
    Text.OneAscendingOrder(before, a, b);
  }

  // ---- Orders there are -------------------------------------------------------------------

  lemma TextOrders()
    ensures Orders(Text.ByText)
  {
    forall x: string, y: string ensures x == y || Text.ByText(x, y) || Text.ByText(y, x) { Text.LessTotal(x, y); }
    forall x: string, y: string | Text.ByText(x, y) ensures !Text.ByText(y, x) { Text.LessAsymmetric(x, y); }
    forall x: string, y: string, z: string | Text.ByText(x, y) && Text.ByText(y, z) ensures Text.ByText(x, z) {
      Text.LessTransitive(x, y, z);
    }
  }

  /** Pairs of texts, by the first and then by the second. */
  predicate ByPair(a: (string, string), b: (string, string)) {
    Text.Less(a.0, b.0) || (a.0 == b.0 && Text.Less(a.1, b.1))
  }

  lemma PairOrders()
    ensures Orders(ByPair)
  {
    forall x, y ensures x == y || ByPair(x, y) || ByPair(y, x) {
      Text.LessTotal(x.0, y.0);
      Text.LessTotal(x.1, y.1);
    }
    forall x, y | ByPair(x, y) ensures !ByPair(y, x) {
      if Text.Less(x.0, y.0) {
        Text.LessAsymmetric(x.0, y.0);
      } else {
        Text.LessAsymmetric(x.1, y.1);
        Text.LessIrreflexive(x.0);
      }
    }
    forall x, y, z | ByPair(x, y) && ByPair(y, z) ensures ByPair(x, z) {
      if Text.Less(x.0, y.0) && Text.Less(y.0, z.0) { Text.LessTransitive(x.0, y.0, z.0); }
      if x.0 == y.0 == z.0 { Text.LessTransitive(x.1, y.1, z.1); }
    }
  }
}
