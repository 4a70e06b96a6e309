/** The cyclic space of metric ids, and the search for the next free one. */
module IdSpace {
  const MIN_ID := 1
  const MAX_ID := 65534
  const SIZE: nat := MAX_ID - MIN_ID + 1

  predicate ValidId(id: int) {
    MIN_ID <= id <= MAX_ID
  }

  /** The id `n` places after `start`, wrapping from the largest id to the smallest. */
  function Cyclic(start: int, n: nat): (id: int)
    requires ValidId(start)
    ensures ValidId(id)
  {
    MIN_ID + (start - MIN_ID + n) % SIZE
  }

  function After(id: int): int {
    if id + 1 > MAX_ID then MIN_ID else id + 1
  }

  lemma CyclicStep(start: int, n: nat)
    requires ValidId(start)
    ensures Cyclic(start, 0) == start
    ensures Cyclic(start, n + 1) == After(Cyclic(start, n))
  {
  }

  lemma CyclicInjective(start: int, m: nat, n: nat)
    requires ValidId(start) && m < n < SIZE
    ensures Cyclic(start, m) != Cyclic(start, n)
  {
  }

  /** The first `n` ids from `start`. */
  ghost function Window(start: int, n: nat): set<int>
    requires ValidId(start)
  {
    set i | 0 <= i < n :: Cyclic(start, i)
  }

  lemma {:induction false} WindowSize(start: int, n: nat)
    requires ValidId(start) && n <= SIZE
    ensures |Window(start, n)| == n
  {
    if n > 0 {
      WindowSize(start, n - 1);
      assert Window(start, n) == Window(start, n - 1) + {Cyclic(start, n - 1)};
      if Cyclic(start, n - 1) in Window(start, n - 1) {
        var i :| 0 <= i < n - 1 && Cyclic(start, i) == Cyclic(start, n - 1);
        CyclicInjective(start, i, n - 1);
      }
    }
  }

  lemma SubsetSize<T>(a: set<T>, b: set<T>)
    requires a <= b
    ensures |a| <= |b|
  {
    assert b == a + (b - a);
  }

  /** Pigeonhole: as many consecutive taken ids as there are ids in use, and no more. */
  lemma TakenRunIsBounded(ids: set<int>, start: int, n: nat)
    requires ValidId(start) && n <= SIZE
    requires forall i :: 0 <= i < n ==> Cyclic(start, i) in ids
    ensures n <= |ids|
  {
    WindowSize(start, n);
    SubsetSize(Window(start, n), ids);
  }

  /** `id` is free and every id cyclically from `start` up to it is taken. */
  ghost predicate FirstFree(ids: set<int>, start: int, id: int)
    requires ValidId(start)
  {
    exists n: nat :: FirstFreeAt(ids, start, id, n)
  }

  ghost predicate FirstFreeAt(ids: set<int>, start: int, id: int, n: nat)
    requires ValidId(start)
  {
    && n < SIZE && id == Cyclic(start, n) && id !in ids
    && forall i :: 0 <= i < n ==> Cyclic(start, i) in ids
  }

  lemma FirstFreeUnique(ids: set<int>, start: int, a: int, b: int)
    requires ValidId(start) && FirstFree(ids, start, a) && FirstFree(ids, start, b)
    ensures a == b
  {
    var m: nat :| FirstFreeAt(ids, start, a, m);
    var n: nat :| FirstFreeAt(ids, start, b, n);
    assert m == n;
  }

  /** The search the allocator's loop performs, as a function; pigeonhole is its termination. */
  function NextFree(ids: set<int>, start: int): (id: int)
    requires ValidId(start) && |ids| < SIZE
    ensures ValidId(id) && id !in ids
  {
    NextFreeFrom(ids, start, 0)
  }

  function NextFreeFrom(ids: set<int>, start: int, n: nat): (id: int)
    requires ValidId(start) && |ids| < SIZE && n <= SIZE
    requires forall i :: 0 <= i < n ==> Cyclic(start, i) in ids
    ensures ValidId(id) && id !in ids
    decreases SIZE - n
  {
    TakenRunIsBounded(ids, start, n);
    if Cyclic(start, n) in ids then NextFreeFrom(ids, start, n + 1) else Cyclic(start, n)
  }

  /** The search finds the first free id cyclically at or after the cursor. */
  lemma NextFreeIsFirst(ids: set<int>, start: int)
    requires ValidId(start) && |ids| < SIZE
    ensures FirstFree(ids, start, NextFree(ids, start))
  {
    NextFreeFromIsFirst(ids, start, 0);
  }

  lemma {:induction false} NextFreeFromIsFirst(ids: set<int>, start: int, n: nat)
    requires ValidId(start) && |ids| < SIZE && n <= SIZE
    requires forall i :: 0 <= i < n ==> Cyclic(start, i) in ids
    ensures FirstFree(ids, start, NextFreeFrom(ids, start, n))
    decreases SIZE - n
  {
    TakenRunIsBounded(ids, start, n);
    if Cyclic(start, n) in ids {
      NextFreeFromIsFirst(ids, start, n + 1);
    } else {
      assert FirstFreeAt(ids, start, Cyclic(start, n), n);
    }
  }
}
