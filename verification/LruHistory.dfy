/**
  What a recency list means over a whole history of calls, without mentioning
  the list: the order is the order of the last calls that name each key, the
  values are the last values written, and the victim of a full cache is the
  key that was named longest ago.
 */
module LruHistory {
  import opened Options
  import opened RecencyList

  datatype Op<K, V> =
    | Find(key: K)            // also Get and HasKey, which are a Find
    | Put(key: K, value: V)
    | Poke(key: K, value: V)  // a write through the address a Find returned
    | Remove(key: K)
    | Clear

  function Apply<K(==), V>(es: Entries<K, V>, capacity: nat, op: Op<K, V>): Entries<K, V> {
    match op
    case Find(k) => Touch(es, k)
    case Put(k, v) => Insert(es, capacity, k, v)
    case Poke(k, v) => Write(es, k, v)
    case Remove(k) => Without(es, k)
    case Clear => []
  }

  function Run<K(==), V>(ops: seq<Op<K, V>>, capacity: nat): Entries<K, V> {
    if ops == [] then []
    else Apply(Run(ops[..|ops| - 1], capacity), capacity, ops[|ops| - 1])
  }

  predicate Touches<K(==), V>(op: Op<K, V>, k: K) {
    (op.Find? || op.Put?) && op.key == k
  }

  predicate Writes<K(==), V>(op: Op<K, V>, k: K) {
    (op.Poke? || op.Put?) && op.key == k
  }

  /** When `k` was last named by a Find or a Put; -1 if never. */
  function LastTouch<K(==), V>(ops: seq<Op<K, V>>, k: K): (t: int)
    ensures -1 <= t < |ops|
    ensures t >= 0 ==> Touches(ops[t], k)
    ensures forall i :: t < i < |ops| ==> !Touches(ops[i], k)
  {
    if ops == [] then -1
    else if Touches(ops[|ops| - 1], k) then |ops| - 1
    else LastTouch(ops[..|ops| - 1], k)
  }

  /** The value most recently written to `k`, if any was. */
  function LastWritten<K(==), V>(ops: seq<Op<K, V>>, k: K): Option<V> {
    if ops == [] then None
    else if Writes(ops[|ops| - 1], k) then Some(ops[|ops| - 1].value)
    else LastWritten(ops[..|ops| - 1], k)
  }

  /** Most recently touched first, by the history alone. */
  ghost predicate Ordered<K, V>(es: Entries<K, V>, ops: seq<Op<K, V>>) {
    && (forall i, j :: 0 <= i < j < |es| ==> LastTouch(ops, es[i].0) > LastTouch(ops, es[j].0))
    && (forall i :: 0 <= i < |es| ==> LastTouch(ops, es[i].0) >= 0)
  }

  ghost predicate Current<K, V>(es: Entries<K, V>, ops: seq<Op<K, V>>) {
    forall i :: 0 <= i < |es| ==> LastWritten(ops, es[i].0) == Some(es[i].1)
  }

  lemma OrderedIsDistinct<K, V>(es: Entries<K, V>, ops: seq<Op<K, V>>)
    requires Ordered(es, ops)
    ensures Distinct(es)
  {
    forall i, j | 0 <= i < j < |es| ensures es[i].0 != es[j].0 {
      assert LastTouch(ops, es[i].0) > LastTouch(ops, es[j].0);
    }
  }

  /** Dropping pairs, or appending a call that touches none of them, keeps the order. */
  lemma SubListKeepsOrder<K, V>(es: Entries<K, V>, sub: Entries<K, V>, ops: seq<Op<K, V>>, op: Op<K, V>, gap: nat)
    requires Ordered(es, ops) && Current(es, ops)
    requires gap <= |sub| && |sub| <= |es| <= |sub| + 1
    requires forall i :: 0 <= i < gap ==> sub[i] == es[i]
    requires |sub| < |es| ==> forall i :: gap <= i < |sub| ==> sub[i] == es[i + 1]
    requires |sub| == |es| ==> gap == |sub|
    requires forall i :: 0 <= i < |sub| ==> !Touches(op, sub[i].0) && !Writes(op, sub[i].0)
    ensures Ordered(sub, ops + [op]) && Current(sub, ops + [op])
  {
    var h := ops + [op];
    assert h[..|h| - 1] == ops;
    forall i | 0 <= i < |sub|
      ensures LastTouch(h, sub[i].0) == LastTouch(ops, sub[i].0) >= 0
      ensures LastWritten(h, sub[i].0) == Some(sub[i].1)
    {
      assert !Touches(op, sub[i].0);
      assert sub[i] == es[if i < gap then i else i + 1];
    }
    forall i, j | 0 <= i < j < |sub| ensures LastTouch(h, sub[i].0) > LastTouch(h, sub[j].0) {
      assert sub[i] == es[if i < gap then i else i + 1];
      assert sub[j] == es[if j < gap then j else j + 1];
    }
  }

  /** Putting the key just touched in front of an ordered list keeps the order. */
  lemma FrontKeepsOrder<K, V>(rest: Entries<K, V>, e: (K, V), ops: seq<Op<K, V>>, op: Op<K, V>)
    requires Ordered(rest, ops + [op]) && Current(rest, ops + [op])
    requires Touches(op, e.0) && forall i :: 0 <= i < |rest| ==> rest[i].0 != e.0
    requires LastWritten(ops + [op], e.0) == Some(e.1)
    ensures Ordered([e] + rest, ops + [op]) && Current([e] + rest, ops + [op])
  {
    var h := ops + [op];
    var r := [e] + rest;
    assert LastTouch(h, e.0) == |h| - 1;
    forall i | 0 <= i < |rest| ensures LastTouch(h, rest[i].0) < |h| - 1 {
      assert !Touches(h[|h| - 1], rest[i].0);
    }
    forall i, j | 0 <= i < j < |r| ensures LastTouch(h, r[i].0) > LastTouch(h, r[j].0) {
      if i == 0 { assert r[j] == rest[j - 1]; }
      else { assert r[i] == rest[i - 1] && r[j] == rest[j - 1]; }
    }
  }

  lemma TouchStep<K, V>(es: Entries<K, V>, ops: seq<Op<K, V>>, k: K)
    requires Ordered(es, ops) && Current(es, ops)
    ensures Ordered(Touch(es, k), ops + [Find(k)]) && Current(Touch(es, k), ops + [Find(k)])
  {
    OrderedIsDistinct(es, ops);
    var i := IndexOf(es, k);
    var h := ops + [Find(k)];
    assert h[..|h| - 1] == ops;
    SubListKeepsOrder(es, Without(es, k), ops, Find(k), i);
    if i < |es| {
      FrontKeepsOrder(Without(es, k), es[i], ops, Find(k));
    }
  }

  lemma PutStep<K, V>(es: Entries<K, V>, ops: seq<Op<K, V>>, capacity: nat, k: K, v: V)
    requires Ordered(es, ops) && Current(es, ops)
    ensures Ordered(Insert(es, capacity, k, v), ops + [Put(k, v)])
    ensures Current(Insert(es, capacity, k, v), ops + [Put(k, v)])
  {
    OrderedIsDistinct(es, ops);
    var op := Put(k, v);
    if Victim(es, capacity, k).Some? {
      var kept := es[..|es| - 1];
      SubListKeepsOrder(es, kept, ops, op, |kept|);
      FrontKeepsOrder(kept, (k, v), ops, op);
    } else {
      SubListKeepsOrder(es, Without(es, k), ops, op, IndexOf(es, k));
      FrontKeepsOrder(Without(es, k), (k, v), ops, op);
    }
  }

  lemma PokeStep<K, V>(es: Entries<K, V>, ops: seq<Op<K, V>>, k: K, v: V)
    requires Ordered(es, ops) && Current(es, ops)
    ensures Ordered(Write(es, k, v), ops + [Poke(k, v)])
    ensures Current(Write(es, k, v), ops + [Poke(k, v)])
  {
    OrderedIsDistinct(es, ops);
    var h := ops + [Poke(k, v)];
    assert h[..|h| - 1] == ops;
    var r := Write(es, k, v);
    forall i | 0 <= i < |r|
      ensures r[i].0 == es[i].0
      ensures LastTouch(h, r[i].0) == LastTouch(ops, es[i].0)
      ensures LastWritten(h, r[i].0) == Some(r[i].1)
    {
      if Has(es, k) && i == IndexOf(es, k) {} else { assert r[i] == es[i]; }
    }
    forall i, j | 0 <= i < j < |r| ensures LastTouch(h, r[i].0) > LastTouch(h, r[j].0) {
      assert LastTouch(ops, es[i].0) > LastTouch(ops, es[j].0);
    }
  }

  lemma RemoveStep<K, V>(es: Entries<K, V>, ops: seq<Op<K, V>>, k: K)
    requires Ordered(es, ops) && Current(es, ops)
    ensures Ordered(Without(es, k), ops + [Remove(k)]) && Current(Without(es, k), ops + [Remove(k)])
  {
    SubListKeepsOrder(es, Without(es, k), ops, Remove(k), IndexOf(es, k));
  }

  lemma ApplyStep<K, V>(es: Entries<K, V>, ops: seq<Op<K, V>>, capacity: nat, op: Op<K, V>)
    requires Ordered(es, ops) && Current(es, ops)
    ensures Ordered(Apply(es, capacity, op), ops + [op]) && Current(Apply(es, capacity, op), ops + [op])
  {
    match op {
      case Find(k) =>
        TouchStep(es, ops, k);
        assert Apply(es, capacity, op) == Touch(es, k);
      case Put(k, v) =>
        PutStep(es, ops, capacity, k, v);
        assert Apply(es, capacity, op) == Insert(es, capacity, k, v);
      case Poke(k, v) =>
        PokeStep(es, ops, k, v);
        assert Apply(es, capacity, op) == Write(es, k, v);
      case Remove(k) =>
        RemoveStep(es, ops, k);
        assert Apply(es, capacity, op) == Without(es, k);
      case Clear =>
    }
  }

  lemma ApplyKeepsSize<K, V>(es: Entries<K, V>, capacity: nat, op: Op<K, V>)
    requires |es| <= capacity && capacity > 0
    ensures |Apply(es, capacity, op)| <= capacity
  {
  }

  /**
    Over every history: keys are distinct, the capacity is respected, the
    order is the order of the last touches, the values are the last written.
   */
  lemma {:induction false} HistoryDeterminesList<K, V>(ops: seq<Op<K, V>>, capacity: nat)
    requires capacity > 0
    ensures Ordered(Run(ops, capacity), ops) && Current(Run(ops, capacity), ops)
    ensures Distinct(Run(ops, capacity)) && |Run(ops, capacity)| <= capacity
  {
    if ops != [] {
      hide Run, Apply, Ordered, Current, Distinct;
      var before, op := ops[..|ops| - 1], ops[|ops| - 1];
      HistoryDeterminesList(before, capacity);
      ApplyStep(Run(before, capacity), before, capacity, op);
      ApplyKeepsSize(Run(before, capacity), capacity, op);
      RunSnoc(before, op, capacity);
      assert before + [op] == ops;
      OrderedIsDistinct(Run(ops, capacity), ops);
    }
  }

  lemma LastIsOldest<K(!new), V>(es: Entries<K, V>, ops: seq<Op<K, V>>)
    requires es != [] && Ordered(es, ops)
    ensures forall other :: Has(es, other) && other != es[|es| - 1].0 ==>
              LastTouch(ops, other) > LastTouch(ops, es[|es| - 1].0)
  {
    forall other | Has(es, other) && other != es[|es| - 1].0
      ensures LastTouch(ops, other) > LastTouch(ops, es[|es| - 1].0)
    {
      var i := IndexOf(es, other);
      assert i < |es| - 1 && es[i].0 == other;
    }
  }

  /** A Put, or a Find that found its key. */
  predicate Hits<K(==), V>(es: Entries<K, V>, op: Op<K, V>, k: K) {
    Touches(op, k) && (op.Put? || Has(es, k))
  }

  /** When `k` was last touched with success; -1 if never. */
  function LastHit<K(==), V>(ops: seq<Op<K, V>>, capacity: nat, k: K): (t: int)
    ensures -1 <= t < |ops|
  {
    if ops == [] then -1
    else
      var n := |ops| - 1;
      if Hits(Run(ops[..n], capacity), ops[n], k) then n else LastHit(ops[..n], capacity, k)
  }

  lemma {:induction false} LastHitIsLast<K, V>(ops: seq<Op<K, V>>, capacity: nat, k: K)
    ensures var t := LastHit(ops, capacity, k);
            && (t >= 0 ==> Hits(Run(ops[..t], capacity), ops[t], k))
            && forall i :: t < i < |ops| ==> !Hits(Run(ops[..i], capacity), ops[i], k)
  {
    hide Run, Hits;
    if ops != [] {
      var n := |ops| - 1;
      LastHitIsLast(ops[..n], capacity, k);
      forall i | 0 <= i < n ensures ops[..n][..i] == ops[..i] && ops[..n][i] == ops[i] {}
    }
  }

  /** Only a Put brings a key in. */
  lemma OnlyPutBringsIn<K, V>(es: Entries<K, V>, capacity: nat, op: Op<K, V>, k: K)
    requires Has(Apply(es, capacity, op), k) && !(op.Put? && op.key == k)
    ensures Has(es, k)
  {
    var after := Apply(es, capacity, op);
    var i := IndexOf(after, k);
    assert after[i].0 == k;
    if !Has(es, k) {
      assert forall j :: 0 <= j < |es| ==> es[j].0 != k;
    }
  }

  /** For a key that is cached, the last call that names it is the last one that touched it with success. */
  lemma {:induction false} CachedKeysWereHit<K, V>(ops: seq<Op<K, V>>, capacity: nat, k: K)
    requires Has(Run(ops, capacity), k)
    ensures LastHit(ops, capacity, k) == LastTouch(ops, k)
  {
    var n := |ops| - 1;
    var before := Run(ops[..n], capacity);
    hide Apply;
    if ops[n].Put? && ops[n].key == k {
    } else {
      OnlyPutBringsIn(before, capacity, ops[n], k);
      if !Touches(ops[n], k) {
        CachedKeysWereHit(ops[..n], capacity, k);
      }
    }
  }

  /**
    A Put of a new key into a full cache evicts exactly the key whose last
    successful touch is oldest, and hands back the value last written to it.
   */
  lemma PutEvictsLeastRecent<K(!new), V(!new)>(ops: seq<Op<K, V>>, capacity: nat, k: K, v: V)
    requires capacity > 0
    requires !Has(Run(ops, capacity), k) && |Run(ops, capacity)| == capacity
    ensures var es := Run(ops, capacity);
            var victim := Victim(es, capacity, k);
            && victim.Some?
            && Has(es, victim.value.0)
            && LastWritten(ops, victim.value.0) == Some(victim.value.1)
            && AsMap(Run(ops + [Put(k, v)], capacity)) == (AsMap(es) - {victim.value.0})[k := v]
            && forall other :: Has(es, other) && other != victim.value.0 ==>
                 LastHit(ops, capacity, other) > LastHit(ops, capacity, victim.value.0)
  {
    var es := Run(ops, capacity);
    var last := es[|es| - 1];
    HistoryDeterminesList(ops, capacity);
    RunSnoc(ops, Put(k, v), capacity);
    InsertBindsKey(es, capacity, k, v);
    LookupIsMapLookup(es, last.0);
    assert Victim(es, capacity, k) == Some(last) && LastWritten(ops, last.0) == Some(last.1);
    hide Run, LastHit, LastTouch, LastWritten, Insert, AsMap, Victim, Distinct;
    LastHitIsOldest(ops, capacity);
  }

  lemma RunSnoc<K, V>(ops: seq<Op<K, V>>, op: Op<K, V>, capacity: nat)
    ensures Run(ops + [op], capacity) == Apply(Run(ops, capacity), capacity, op)
  {
    assert (ops + [op])[..|ops|] == ops;
  }

  lemma LastHitIsOldest<K(!new), V>(ops: seq<Op<K, V>>, capacity: nat)
    requires Run(ops, capacity) != [] && Ordered(Run(ops, capacity), ops)
    ensures var es := Run(ops, capacity);
            forall other :: Has(es, other) && other != es[|es| - 1].0 ==>
              LastHit(ops, capacity, other) > LastHit(ops, capacity, es[|es| - 1].0)
  {
    hide Run, Apply, LastHit;
    var es := Run(ops, capacity);
    LastIsOldest(es, ops);
    hide LastTouch, Ordered;
    CachedKeysWereHit(ops, capacity, es[|es| - 1].0);
    forall other | Has(es, other) && other != es[|es| - 1].0
      ensures LastHit(ops, capacity, other) > LastHit(ops, capacity, es[|es| - 1].0)
    {
      CachedKeysWereHit(ops, capacity, other);
    }
  }

  /** Every other Put evicts nothing. */
  lemma PutWithRoomEvictsNothing<K(!new), V(!new)>(ops: seq<Op<K, V>>, capacity: nat, k: K, v: V)
    requires capacity > 0
    requires Has(Run(ops, capacity), k) || |Run(ops, capacity)| < capacity
    ensures Victim(Run(ops, capacity), capacity, k).None?
    ensures AsMap(Run(ops + [Put(k, v)], capacity)) == AsMap(Run(ops, capacity))[k := v]
  {
    HistoryDeterminesList(ops, capacity);
    assert (ops + [Put(k, v)])[..|ops|] == ops;
    InsertBindsKey(Run(ops, capacity), capacity, k, v);
  }

  /** Calls other than Put, as operations on the map of what is cached. */
  lemma OtherCallsOnMaps<K(!new), V(!new)>(ops: seq<Op<K, V>>, capacity: nat, k: K, v: V)
    requires capacity > 0
    ensures var m := AsMap(Run(ops, capacity));
            && AsMap(Run(ops + [Find(k)], capacity)) == m
            && AsMap(Run(ops + [Remove(k)], capacity)) == m - {k}
            && AsMap(Run(ops + [Clear], capacity)) == map[]
            && AsMap(Run(ops + [Poke(k, v)], capacity)) == if k in m then m[k := v] else m
  {
    var es := Run(ops, capacity);
    HistoryDeterminesList(ops, capacity);
    RunSnoc(ops, Find(k), capacity);
    RunSnoc(ops, Remove(k), capacity);
    RunSnoc(ops, Clear, capacity);
    RunSnoc(ops, Poke(k, v), capacity);
    hide Run;
    TouchKeepsMap(es, k);
    WithoutRemovesKey(es, k);
    WriteBindsKey(es, k, v);
  }
}
