/** A bounded queue that leaks its oldest item when it is full. */
module LeakyQueue {
  import opened Options

  function Push<T>(q: seq<T>, capacity: nat, x: T): seq<T>
    requires capacity > 0
  {
    if |q| + 1 > capacity then q[1..] + [x] else q + [x]
  }

  /** The item a push pops, if any. */
  function Leak<T>(q: seq<T>, capacity: nat): Option<T>
    requires capacity > 0
  {
    if |q| + 1 > capacity then Some(q[0]) else None
  }

  /** The last `n` items, or all of them when there are fewer. */
  function LastN<T>(s: seq<T>, n: nat): seq<T> {
    if |s| <= n then s else s[|s| - n..]
  }

  function PushAll<T>(q: seq<T>, capacity: nat, xs: seq<T>): seq<T>
    requires capacity > 0
    decreases |xs|
  {
    if xs == [] then q else PushAll(Push(q, capacity, xs[0]), capacity, xs[1..])
  }

  /** A queue that holds the last items of a history still does after one more push. */
  lemma PushKeepsLast<T>(history: seq<T>, capacity: nat, x: T)
    requires capacity > 0
    ensures Push(LastN(history, capacity), capacity, x) == LastN(history + [x], capacity)
    ensures |LastN(history, capacity)| <= capacity
  {
  }

  /** Any number of pushes leaves exactly the last `capacity` items, in order. */
  lemma {:induction false} PushAllKeepsLast<T>(history: seq<T>, capacity: nat, xs: seq<T>)
    requires capacity > 0
    ensures PushAll(LastN(history, capacity), capacity, xs) == LastN(history + xs, capacity)
    decreases |xs|
  {
    if xs == [] {
      assert history + xs == history;
    } else {
      PushKeepsLast(history, capacity, xs[0]);
      PushAllKeepsLast(history + [xs[0]], capacity, xs[1..]);
      assert history + [xs[0]] + xs[1..] == history + xs;
    }
  }

  /** What the front of a queue yields; on an empty queue, undefined behaviour. */
  datatype Front<T> = Taken(item: T) | Undefined

  class LeakyBondedQueue<T> {
    var queue: seq<T>
    const capacity: nat

    ghost predicate Valid()
      reads this
    {
      0 < capacity && |queue| <= capacity
    }

    constructor (capacity: nat)
      requires capacity > 0  // with no room at all, the first Enqueue pops an empty queue
      ensures Valid() && queue == [] && this.capacity == capacity
    {
      this.capacity := capacity;
      queue := [];
    }

    method Enqueue(item: T)
      requires Valid()
      modifies this
      ensures Valid() && queue == Push(old(queue), capacity, item)
    {
      if |queue| + 1 > capacity {
        queue := queue[1..];
      }
      queue := queue + [item];
    }

    method EnqueueWithPop(item: T) returns (oldest: Option<T>)
      requires Valid()
      modifies this
      ensures Valid() && queue == Push(old(queue), capacity, item)
      ensures oldest == Leak(old(queue), capacity)
    {
      oldest := None;
      if |queue| + 1 > capacity {
        oldest := Some(queue[0]);
        queue := queue[1..];
      }
      queue := queue + [item];
    }

    /** The oldest item; undefined exactly on an empty queue, whatever the header says. */
    method Dequeue() returns (r: Front<T>)
      requires Valid()
      modifies this
      ensures r.Undefined? <==> old(queue) == []
      ensures r.Taken? ==> Valid() && [r.item] + queue == old(queue)
    {
      if queue == [] {
        return Undefined;
      }
      r := Taken(queue[0]);
      queue := queue[1..];
    }

    method Clear()
      requires Valid()
      modifies this
      ensures Valid() && queue == []
    {
      while queue != []
        invariant Valid()
        decreases |queue|
      {
        queue := queue[1..];
      }
    }

    function Length(): (n: nat)
      reads this
    {
      |queue|
    }

    predicate Empty()
      reads this
    {
      queue == []
    }
  }
}
