/**
  The reference for the least-recently-used cache: a plain list of key-value
  pairs, most recently touched first.  No index, no nodes, no addresses.

  The operations are the ones the cache offers.  `Poke` is a caller writing
  through the address that `Find` returned, which must not warm the key up.
 */
module RecencyList {
  import opened Options
  import opened Sequences

  type Entries<K, V> = seq<(K, V)>

  predicate Distinct<K(==), V>(es: Entries<K, V>) {
    forall i, j :: 0 <= i < j < |es| ==> es[i].0 != es[j].0
  }

  /** The position of `k`, or the length of the list when it is absent. */
  function IndexOf<K(==), V>(es: Entries<K, V>, k: K): (i: nat)
    ensures i <= |es|
    ensures i < |es| ==> es[i].0 == k
    ensures forall j :: 0 <= j < i ==> es[j].0 != k
  {
    if es == [] then 0
    else if es[0].0 == k then 0
    else 1 + IndexOf(es[1..], k)
  }

  predicate Has<K(==), V>(es: Entries<K, V>, k: K) {
    IndexOf(es, k) < |es|
  }

  function Lookup<K(==), V>(es: Entries<K, V>, k: K): Option<V> {
    if Has(es, k) then Some(es[IndexOf(es, k)].1) else None
  }

  function Without<K(==), V>(es: Entries<K, V>, k: K): Entries<K, V> {
    if Has(es, k) then DropAt(es, IndexOf(es, k)) else es
  }

  function Touch<K(==), V>(es: Entries<K, V>, k: K): Entries<K, V> {
    if Has(es, k) then [es[IndexOf(es, k)]] + Without(es, k) else es
  }

  function Write<K(==), V>(es: Entries<K, V>, k: K, v: V): Entries<K, V> {
    if Has(es, k) then es[IndexOf(es, k) := (k, v)] else es
  }

  /** What a `Put` pushes out: the last pair, when the key is new and the list is full. */
  function Victim<K(==), V>(es: Entries<K, V>, capacity: nat, k: K): Option<(K, V)> {
    if !Has(es, k) && es != [] && |es| == capacity then Some(es[|es| - 1]) else None
  }

  function Insert<K(==), V>(es: Entries<K, V>, capacity: nat, k: K, v: V): Entries<K, V> {
    if Has(es, k) || Victim(es, capacity, k).None? then [(k, v)] + Without(es, k)
    else [(k, v)] + es[..|es| - 1]
  }

  /** The list as a map: the pair nearest the front wins. */
  function AsMap<K(==), V>(es: Entries<K, V>): map<K, V> {
    if es == [] then map[] else AsMap(es[1..])[es[0].0 := es[0].1]
  }

  // ---------------------------------------------------------------------
  // Each operation, read as an operation on maps
  // ---------------------------------------------------------------------

  lemma {:induction false} LookupIsMapLookup<K, V>(es: Entries<K, V>, k: K)
    ensures Has(es, k) <==> k in AsMap(es)
    ensures k in AsMap(es) ==> Lookup(es, k) == Some(AsMap(es)[k])
  {
    if es != [] {
      LookupIsMapLookup(es[1..], k);
    }
  }

  lemma LookupOrNot<K, V>(es: Entries<K, V>, k: K)
    ensures Lookup(es, k) == if k in AsMap(es) then Some(AsMap(es)[k]) else None
  {
    LookupIsMapLookup(es, k);
  }

  lemma {:induction false} MapSize<K, V>(es: Entries<K, V>)
    requires Distinct(es)
    ensures |AsMap(es)| == |es|
  {
    if es != [] {
      MapSize(es[1..]);
      LookupIsMapLookup(es[1..], es[0].0);
    }
  }

  /** Two lists that answer every lookup alike are the same map. */
  lemma SameLookupsSameMap<K(!new), V(!new)>(xs: Entries<K, V>, m: map<K, V>)
    requires forall k :: Lookup(xs, k) == if k in m then Some(m[k]) else None
    ensures AsMap(xs) == m
  {
    forall k ensures k in AsMap(xs) <==> k in m
             ensures k in m ==> AsMap(xs)[k] == m[k]
    {
      LookupIsMapLookup(xs, k);
      assert Lookup(xs, k) == if k in m then Some(m[k]) else None;
    }
  }

  lemma TouchKeepsMap<K(!new), V(!new)>(es: Entries<K, V>, j: K)
    requires Distinct(es)
    ensures Distinct(Touch(es, j)) && |Touch(es, j)| == |es|
    ensures AsMap(Touch(es, j)) == AsMap(es)
  {
    assert |Touch(es, j)| == |es|;
    TouchLookup(es, j, j);
    hide AsMap, Touch, Lookup;
    forall k ensures Lookup(Touch(es, j), k) == if k in AsMap(es) then Some(AsMap(es)[k]) else None {
      LookupOrNot(es, k);
      TouchLookup(es, j, k);
    }
    SameLookupsSameMap(Touch(es, j), AsMap(es));
  }

  lemma TouchLookup<K, V>(es: Entries<K, V>, j: K, k: K)
    requires Distinct(es)
    ensures Distinct(Touch(es, j))
    ensures Lookup(Touch(es, j), k) == Lookup(es, k)
  {
    WithoutLookup(es, j, k);
    WithoutLookup(es, j, j);
    if Has(es, j) {
      var e, rest := es[IndexOf(es, j)], Without(es, j);
      assert e.0 == j && Touch(es, j) == [e] + rest && Lookup(es, j) == Some(e.1);
      hide Touch, Without;
      ConsLookup(rest, e, k);
    }
  }

  lemma ConsLookup<K, V>(es: Entries<K, V>, e: (K, V), k: K)
    requires Distinct(es) && Lookup(es, e.0) == None
    ensures Distinct([e] + es)
    ensures Lookup([e] + es, k) == if k == e.0 then Some(e.1) else Lookup(es, k)
  {
    assert ([e] + es)[1..] == es;
  }

  lemma WithoutLookup<K, V>(es: Entries<K, V>, j: K, k: K)
    requires Distinct(es)
    ensures Distinct(Without(es, j))
    ensures Lookup(Without(es, j), k) == if k == j then None else Lookup(es, k)
  {
    var i := IndexOf(es, j);
    var n := IndexOf(es, k);
    var r := Without(es, j);
    var m := IndexOf(r, k);
    if i < |es| {
      if m < |r| { assert r[m] == es[if m < i then m else m + 1]; }
      if n < |es| && n != i { assert es[n] == r[if n < i then n else n - 1]; }
    }
  }

  lemma WithoutRemovesKey<K(!new), V(!new)>(es: Entries<K, V>, j: K)
    requires Distinct(es)
    ensures Distinct(Without(es, j))
    ensures AsMap(Without(es, j)) == AsMap(es) - {j}
  {
    var m := AsMap(es) - {j};
    forall k ensures Lookup(Without(es, j), k) == if k in m then Some(m[k]) else None {
      LookupIsMapLookup(es, k);
      WithoutLookup(es, j, k);
    }
    WithoutLookup(es, j, j);
    SameLookupsSameMap(Without(es, j), m);
  }

  lemma InsertOnMiss<K, V>(es: Entries<K, V>, capacity: nat, k: K, v: V)
    requires !Has(es, k) && |es| <= capacity && capacity > 0
    ensures |es| == capacity ==>
              && Insert(es, capacity, k, v) == [(k, v)] + es[..|es| - 1]
              && Victim(es, capacity, k) == Some(es[|es| - 1])
    ensures |es| < capacity ==> Insert(es, capacity, k, v) == [(k, v)] + es && Victim(es, capacity, k) == None
  {
  }

  lemma MissInPrefix<K, V>(es: Entries<K, V>, k: K)
    requires !Has(es, k)
    ensures es != [] ==> !Has(es[..|es| - 1], k)
  {
  }

  lemma ConsBinds<K, V>(es: Entries<K, V>, j: K, v: V)
    requires Distinct(es) && !Has(es, j)
    ensures Distinct([(j, v)] + es)
    ensures AsMap([(j, v)] + es) == AsMap(es)[j := v]
  {
    assert ([(j, v)] + es)[1..] == es;
  }

  lemma LastIsVictim<K(!new), V(!new)>(es: Entries<K, V>, j: K)
    requires Distinct(es) && es != [] && !Has(es, j)
    ensures var w := es[|es| - 1];
            && w.0 != j && w.0 in AsMap(es) && AsMap(es)[w.0] == w.1
            && es[..|es| - 1] == Without(es, w.0)
            && !Has(es[..|es| - 1], j)
  {
    var w := es[|es| - 1];
    assert IndexOf(es, w.0) == |es| - 1;
    LookupIsMapLookup(es, w.0);
    WithoutLookup(es, w.0, j);
  }

  /** An insertion binds the key, after unbinding the victim if there is one. */
  lemma InsertBindsKey<K(!new), V(!new)>(es: Entries<K, V>, capacity: nat, j: K, v: V)
    requires Distinct(es) && |es| <= capacity && capacity > 0
    ensures Distinct(Insert(es, capacity, j, v)) && |Insert(es, capacity, j, v)| <= capacity
    ensures Victim(es, capacity, j).None? ==> AsMap(Insert(es, capacity, j, v)) == AsMap(es)[j := v]
    ensures Victim(es, capacity, j).Some? ==>
              var w := Victim(es, capacity, j).value;
              && w.0 != j && w.0 in AsMap(es) && AsMap(es)[w.0] == w.1
              && AsMap(Insert(es, capacity, j, v)) == (AsMap(es) - {w.0})[j := v]
  {
    if Victim(es, capacity, j).Some? {
      LastIsVictim(es, j);
      WithoutRemovesKey(es, es[|es| - 1].0);
      ConsBinds(es[..|es| - 1], j, v);
    } else {
      WithoutLookup(es, j, j);
      WithoutRemovesKey(es, j);
      ConsBinds(Without(es, j), j, v);
      assert (AsMap(es) - {j})[j := v] == AsMap(es)[j := v];
    }
  }

  lemma {:induction false} WriteBindsKey<K, V>(es: Entries<K, V>, k: K, v: V)
    ensures AsMap(Write(es, k, v)) == if k in AsMap(es) then AsMap(es)[k := v] else AsMap(es)
  {
    LookupIsMapLookup(es, k);
    if Has(es, k) {
      var i := IndexOf(es, k);
      if i == 0 {
        assert Write(es, k, v)[1..] == es[1..];
      } else {
        WriteBindsKey(es[1..], k, v);
        assert Write(es, k, v)[1..] == Write(es[1..], k, v);
      }
    }
  }
}
