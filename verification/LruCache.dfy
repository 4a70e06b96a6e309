/**
  The list-plus-index cache.  `nodeList` is the linked list, `lruMap` the hash
  index from a key to its list node; a `Node` reference plays the part of the
  list iterator, and of the value address that `Find` hands out.
 */
module LruCache {
  import opened Options
  import opened RecencyList
  import opened Sequences
  import H = LruHistory

  class Node<K, V> {
    const key: K
    var value: V

    constructor (key: K, value: V)
      ensures this.key == key && this.value == value
    {
      this.key := key;
      this.value := value;
    }
  }

  ghost function Pair<K, V>(node: Node<K, V>): (K, V)
    reads node
  {
    (node.key, node.value)
  }

  ghost function Pairs<K, V>(nodes: seq<Node<K, V>>): (es: Entries<K, V>)
    reads nodes
    ensures |es| == |nodes|
    ensures forall i :: 0 <= i < |es| ==> es[i] == Pair(nodes[i])
  {
    seq(|nodes|, i requires 0 <= i < |nodes| reads nodes => Pair(nodes[i]))
  }

  lemma PairsOfDrop<K, V>(nodes: seq<Node<K, V>>, at: nat)
    requires at < |nodes|
    ensures Pairs(DropAt(nodes, at)) == DropAt(Pairs(nodes), at)
  {
    var es, rest := Pairs(nodes), DropAt(nodes, at);
    forall i | 0 <= i < |rest| ensures Pairs(rest)[i] == DropAt(es, at)[i] {
      assert rest[i] == nodes[if i < at then i else i + 1];
      assert DropAt(es, at)[i] == es[if i < at then i else i + 1];
    }
  }

  lemma PairsOfCons<K, V>(node: Node<K, V>, nodes: seq<Node<K, V>>)
    ensures Pairs([node] + nodes) == [Pair(node)] + Pairs(nodes)
  {
  }

  ghost predicate KeysDistinct<K, V>(nodes: seq<Node<K, V>>) {
    forall i, j :: 0 <= i < j < |nodes| ==> nodes[i].key != nodes[j].key
  }

  /** The index maps exactly the keys of the list, each to the node that carries it. */
  ghost predicate Indexed<K, V>(nodes: seq<Node<K, V>>, index: map<K, Node<K, V>>) {
    && |index| == |nodes|
    && KeysDistinct(nodes)
    && (forall i :: 0 <= i < |nodes| ==> nodes[i].key in index && index[nodes[i].key] == nodes[i])
    && (forall k :: k in index ==> index[k] in nodes && index[k].key == k)
  }

  lemma DropMembers<T>(s: seq<T>, at: nat)
    requires at < |s|
    ensures forall x :: x in s && x != s[at] ==> x in DropAt(s, at)
    ensures forall x :: x in DropAt(s, at) ==> x in s
  {
    forall x | x in s && x != s[at] ensures x in DropAt(s, at) {
      var i :| 0 <= i < |s| && s[i] == x;
      assert DropAt(s, at)[if i < at then i else i - 1] == x;
    }
  }

  lemma SpliceKeepsIndex<K, V>(nodes: seq<Node<K, V>>, index: map<K, Node<K, V>>, at: nat)
    requires Indexed(nodes, index) && at < |nodes|
    ensures Indexed([nodes[at]] + DropAt(nodes, at), index)
    ensures forall n :: n in [nodes[at]] + DropAt(nodes, at) <==> n in nodes
  {
    DropMembers(nodes, at);
  }

  lemma DropKeepsDistinct<K, V>(nodes: seq<Node<K, V>>, at: nat)
    requires KeysDistinct(nodes) && at < |nodes|
    ensures KeysDistinct(DropAt(nodes, at))
    ensures forall i :: 0 <= i < |nodes| - 1 ==>
              DropAt(nodes, at)[i] in nodes && DropAt(nodes, at)[i].key != nodes[at].key
  {
    var rest := DropAt(nodes, at);
    assert forall i :: 0 <= i < |rest| ==> rest[i] == nodes[if i < at then i else i + 1];
  }

  lemma EraseKeepsIndex<K, V>(nodes: seq<Node<K, V>>, index: map<K, Node<K, V>>, at: nat)
    requires Indexed(nodes, index) && at < |nodes|
    ensures Indexed(DropAt(nodes, at), index - {nodes[at].key})
    ensures forall n :: n in DropAt(nodes, at) ==> n in nodes
  {
    DropMembers(nodes, at);
    DropKeepsDistinct(nodes, at);
    hide KeysDistinct, DropAt;
    var less := index - {nodes[at].key};
    assert nodes[at].key in index;
    forall k | k in less ensures less[k] in DropAt(nodes, at) { assert less[k] != nodes[at]; }
  }

  lemma PushKeepsIndex<K, V>(nodes: seq<Node<K, V>>, index: map<K, Node<K, V>>, node: Node<K, V>)
    requires Indexed(nodes, index) && node.key !in index
    ensures Indexed([node] + nodes, index[node.key := node])
  {
  }

  /** On the recency list, Remove drops the pair of its key. */
  lemma RemoveDrops<K, V>(es: Entries<K, V>, capacity: nat, key: K)
    ensures H.Apply(es, capacity, H.Remove(key)) == if Has(es, key) then DropAt(es, IndexOf(es, key)) else es
  {
  }

  class LegacyLruCache<K(==), V> {
    var nodeList: seq<Node<K, V>>
    const capacity: nat
    var lruMap: map<K, Node<K, V>>

    ghost predicate Valid()
      reads this
    {
      && capacity > 0
      && |nodeList| <= capacity
      && Indexed(nodeList, lruMap)
    }

    ghost function Nodes(): set<Node<K, V>>
      reads this
    {
      set n | n in nodeList
    }

    /** The abstract value: the pairs, most recently used first. */
    ghost function Contents(): (es: Entries<K, V>)
      reads this, nodeList
    {
      Pairs(nodeList)
    }

    lemma EmptyContents()
      requires nodeList == []
      ensures Contents() == [] && Nodes() == {}
    {
    }

    constructor (capacity: nat)
      requires capacity > 0  // a zero capacity is fatal
      ensures Valid() && Contents() == [] && this.capacity == capacity && nodeList == [] && Nodes() == {}
    {
      this.capacity := capacity;
      nodeList := [];
      lruMap := map[];
    }

    method Clear()
      requires Valid()
      modifies this
      ensures Valid() && Contents() == H.Apply(old(Contents()), capacity, H.Clear)
      ensures nodeList == [] && Nodes() == {}
    {
      lruMap := map[];
      nodeList := [];
    }

    /** Where a node of the list sits; the list iterator knows this in constant time. */
    function Position(node: Node<K, V>): (i: nat)
      requires Valid() && node in nodeList
      reads this, nodeList
      ensures i < |nodeList| && nodeList[i] == node
      ensures i == IndexOf(Contents(), node.key)
    {
      var i :| 0 <= i < |nodeList| && nodeList[i] == node;
      assert Contents()[i].0 == node.key;
      assert forall j :: 0 <= j < |nodeList| && j != i ==> Contents()[j].0 != node.key;
      i
    }

    /** The index knows exactly the keys of the recency list. */
    lemma IndexAgrees(key: K)
      requires Valid()
      ensures key in lruMap <==> Has(Contents(), key)
      ensures key in lruMap ==> nodeList[IndexOf(Contents(), key)] == lruMap[key]
      ensures Distinct(Contents()) && |Contents()| == |lruMap|
    {
      var i := IndexOf(Contents(), key);
      if key in lruMap { var _ := Position(lruMap[key]); }
      if i < |nodeList| { assert nodeList[i].key == key; }
    }

    method Find(key: K) returns (node: Node?<K, V>)
      requires Valid()
      modifies this
      ensures Valid() && Contents() == H.Apply(old(Contents()), capacity, H.Find(key))
      ensures node == null <==> !Has(old(Contents()), key)
      ensures node != null ==>
                && nodeList != [] && nodeList[0] == node && node.key == key
                && Lookup(old(Contents()), key) == Some(node.value)
      ensures lruMap == old(lruMap)
      ensures Nodes() == old(Nodes())
    {
      IndexAgrees(key);
      if key !in lruMap {
        return null;
      }
      var it := lruMap[key];
      var at := Position(it);
      SpliceKeepsIndex(nodeList, lruMap, at);
      PairsOfDrop(nodeList, at);
      PairsOfCons(it, DropAt(nodeList, at));
      nodeList := [it] + DropAt(nodeList, at);
      node := it;
    }

    method Get(key: K) returns (value: Option<V>)
      requires Valid()
      modifies this
      ensures Valid() && Contents() == H.Apply(old(Contents()), capacity, H.Find(key))
      ensures value == Lookup(old(Contents()), key)
      ensures Nodes() == old(Nodes())
    {
      var node := Find(key);
      if node == null {
        return None;
      }
      return Some(node.value);
    }

    method HasKey(key: K) returns (has: bool)
      requires Valid()
      modifies this
      ensures Valid() && Contents() == H.Apply(old(Contents()), capacity, H.Find(key))
      ensures has == Has(old(Contents()), key)
    {
      var node := Find(key);
      has := node != null;
    }

    /** A caller writing through the address it got from `Find`. */
    method Poke(key: K, value: V)
      requires Valid()
      requires key in lruMap
      modifies Nodes()
      ensures Valid() && Contents() == H.Apply(old(Contents()), capacity, H.Poke(key, value))
      ensures Nodes() == old(Nodes())
    {
      IndexAgrees(key);
      lruMap[key].value := value;
      assert Contents() == H.Apply(old(Contents()), capacity, H.Poke(key, value));
    }

    /** Overwrite the value of the head node. */
    method SetHead(value: V)
      requires Valid() && nodeList != []
      modifies nodeList[0]
      ensures Valid()
      ensures Contents() == [(nodeList[0].key, value)] + old(Contents())[1..]
    {
      assert forall i :: 1 <= i < |nodeList| ==> nodeList[i] != nodeList[0];
      hide Indexed;
      nodeList[0].value := value;
      assert forall i :: 1 <= i < |nodeList| ==> Contents()[i] == old(Contents())[i];
    }

    /** Unlink the tail node and its index entry. */
    method PopBack() returns (pair: (K, V))
      requires Valid() && nodeList != []
      modifies this
      ensures Valid() && |nodeList| == |old(nodeList)| - 1 && Nodes() <= old(Nodes())
      ensures Contents() == old(Contents())[..|old(nodeList)| - 1]
      ensures pair == old(Contents())[|old(nodeList)| - 1]
    {
      var back := nodeList[|nodeList| - 1];
      EraseKeepsIndex(nodeList, lruMap, |nodeList| - 1);
      PairsOfDrop(nodeList, |nodeList| - 1);
      assert DropAt(nodeList, |nodeList| - 1) == nodeList[..|nodeList| - 1];
      assert DropAt(Contents(), |nodeList| - 1) == Contents()[..|nodeList| - 1];
      lruMap := lruMap - {back.key};
      pair := (back.key, back.value);
      nodeList := nodeList[..|nodeList| - 1];
    }

    /** Link a new node at the head and index it. */
    method PushFront(key: K, value: V)
      requires Valid() && |nodeList| < capacity && !Has(Contents(), key)
      modifies this
      ensures Valid() && Contents() == [(key, value)] + old(Contents())
      ensures fresh(Nodes() - old(Nodes()))
    {
      IndexAgrees(key);
      var node := new Node(key, value);
      PushKeepsIndex(nodeList, lruMap, node);
      PairsOfCons(node, nodeList);
      hide Indexed, Pairs, IndexOf;
      nodeList := [node] + nodeList;
      lruMap := lruMap[key := node];
    }

    /** The half of `Put` that runs on a miss. */
    method PutNew(key: K, value: V) returns (evicted: Option<(K, V)>)
      requires Valid() && !Has(Contents(), key)
      modifies this
      ensures Valid() && Contents() == Insert(old(Contents()), capacity, key, value)
      ensures evicted == Victim(old(Contents()), capacity, key)
      ensures fresh(Nodes() - old(Nodes()))
    {
      assert |lruMap| == |nodeList| == |Contents()|;
      hide Indexed, Pairs, Insert, Victim, Has;
      InsertOnMiss(Contents(), capacity, key, value);
      MissInPrefix(Contents(), key);
      evicted := None;
      if |lruMap| == capacity {
        var back := PopBack();
        evicted := Some(back);
      }
      PushFront(key, value);
    }

    method Put(key: K, value: V) returns (evicted: Option<(K, V)>)
      requires Valid()
      modifies this, Nodes()
      ensures Valid() && Contents() == H.Apply(old(Contents()), capacity, H.Put(key, value))
      ensures evicted == Victim(old(Contents()), capacity, key)
      ensures fresh(Nodes() - old(Nodes()))
    {
      hide Indexed, Pairs, IndexOf;
      ghost var es := Contents();
      var valuePtr := Find(key);
      if valuePtr != null {
        SetHead(value);
        assert Touch(es, key)[1..] == Without(es, key);
        return None;
      }
      assert Contents() == es;
      evicted := PutNew(key, value);
    }

    method Remove(key: K) returns (removed: bool)
      requires Valid()
      modifies this
      ensures Valid() && Contents() == H.Apply(old(Contents()), capacity, H.Remove(key))
      ensures removed == Has(old(Contents()), key)
      ensures Nodes() <= old(Nodes())
    {
      IndexAgrees(key);
      RemoveDrops(Contents(), capacity, key);
      if key !in lruMap {
        return false;
      }
      var at := Position(lruMap[key]);
      EraseKeepsIndex(nodeList, lruMap, at);
      PairsOfDrop(nodeList, at);
      hide Indexed, Pairs, H.Apply, Has, IndexOf, Distinct;
      nodeList := DropAt(nodeList, at);
      lruMap := lruMap - {key};
      return true;
    }

    method Size() returns (n: nat)
      requires Valid()
      ensures n == |Contents()|
    {
      n := |lruMap|;
    }
  }

  /** Any history of calls on a fresh cache leaves what the recency list says. */
  method Replay<K(==), V>(ops: seq<H.Op<K, V>>, capacity: nat) returns (cache: LegacyLruCache<K, V>)
    requires capacity > 0
    ensures cache.Valid() && cache.capacity == capacity
    ensures cache.Contents() == H.Run(ops, capacity)
  {
    hide Indexed, Pairs, Insert, Touch, Without, IndexOf, Victim, LegacyLruCache.Contents;
    cache := new LegacyLruCache(capacity);
    for n := 0 to |ops|
      invariant fresh(cache) && fresh(cache.Nodes())
      invariant cache.Valid() && cache.capacity == capacity
      invariant cache.Contents() == H.Run(ops[..n], capacity)
    {
      assert ops[..n + 1][..n] == ops[..n];
      match ops[n] {
        case Find(k) =>
          var _ := cache.Find(k);
        case Put(k, v) =>
          var _ := cache.Put(k, v);
        case Poke(k, v) =>
          cache.IndexAgrees(k);
          if k in cache.lruMap { cache.Poke(k, v); }
        case Remove(k) =>
          var _ := cache.Remove(k);
        case Clear =>
          cache.Clear();
      }
    }
    assert ops[..|ops|] == ops;
  }
}
