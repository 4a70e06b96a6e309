/** The arithmetic of a repeating timer, on unsigned 64-bit microseconds. */
module TimerClock {
  import opened Arithmetic

  /** A difference of two unsigned 64-bit numbers. */
  function SubU64(a: nat, b: nat): nat {
    (a - b) % TWO_TO_THE_64
  }

  /** An unsigned 64-bit number read as a signed one. */
  function AsInt64(x: nat): int {
    if x < TWO_TO_THE_63 then x else x - TWO_TO_THE_64
  }

  /** The C++ remainder, which takes the sign of the dividend. */
  function Rem(a: int, b: int): int
    requires b > 0
  {
    if a >= 0 then a % b else -((-a) % b)
  }

  /** The delay of the next post, given the next expected time. */
  function Delay(expected: nat, now: nat, period: nat): (d: nat)
    requires period > 0
  {
    var remaining := AsInt64(SubU64(expected, now));
    if remaining < 0 then Rem(Rem(remaining, period) + period, period) else remaining
  }

  /** The delay of the first post as the code computes it, unsigned and not checked for being in the past. */
  function FirstDelay(first: nat, now: nat): nat {
    SubU64(first, now)
  }

  /**
    When a first post made at `now` may fall due.  Made in time, at the first
    expected time.  Made late, the delay has wrapped, and how the time library
    reads it decides: any time from now on.
   */
  predicate FirstDue(first: nat, now: nat, due: nat) {
    if now <= first then due == first else due >= now
  }

  lemma SignedDifference(a: nat, b: nat)
    requires a < TWO_TO_THE_63 && b < TWO_TO_THE_63
    ensures AsInt64(SubU64(a, b)) == a - b
  {
  }

  /** The instant `k` periods after `origin`. */
  function Slot(origin: int, period: nat, k: int): int {
    origin + k * period
  }

  /** A whole number of periods away from `origin`. */
  ghost predicate OnGrid(t: int, origin: int, period: nat) {
    exists k :: t == Slot(origin, period, k)
  }

  lemma BetweenSlots(origin: int, period: nat, q: int, t: int)
    requires Slot(origin, period, q) < t < Slot(origin, period, q + 1)
    ensures !OnGrid(t, origin, period)
  {
    forall k ensures t != Slot(origin, period, k) {
      if k <= q { MulMono(k, q, period); } else { MulMono(q + 1, k, period); }
    }
  }

  /** The grid does not depend on which of its instants is the origin. */
  lemma SameGrid(t: int, origin: int, period: nat, k: int)
    ensures OnGrid(t, Slot(origin, period, k), period) <==> OnGrid(t, origin, period)
  {
    if j :| t == Slot(Slot(origin, period, k), period, j) {
      assert (k + j) * period == k * period + j * period;
      assert t == Slot(origin, period, k + j);
    }
    if j :| t == Slot(origin, period, j) {
      assert (j - k) * period == j * period - k * period;
      assert t == Slot(Slot(origin, period, k), period, j - k);
    }
  }

  lemma LateDelay(late: nat, p: nat)
    requires p > 0 && late > 0
    ensures var r := late % p;
            Rem(Rem(-(late as int), p) + p, p) == if r == 0 then 0 else p - r
  {
    assert Rem(-(late as int), p) == -(late % p);
    hide Rem;
    RemWithinPeriod(p - late % p, p);
  }

  lemma RemWithinPeriod(x: nat, p: nat)
    requires x <= p && p > 0
    ensures Rem(x, p) == if x == p then 0 else x
  {
  }

  /** No instant of the grid lies in the wait from `now` until the target. */
  ghost predicate LeastOnGrid(expected: nat, now: nat, period: nat, d: int) {
    && OnGrid(now + d, expected, period)
    && forall t :: now <= t < now + d ==> !OnGrid(t, expected, period)
  }

  lemma LateTarget(expected: nat, now: nat, period: nat)
    requires period > 0 && now > expected
    ensures var r := (now - expected) % period;
            LeastOnGrid(expected, now, period, if r == 0 then 0 else period - r)
  {
    var late := now - expected;
    var q, r := late / period, late % period;
    assert late == q * period + r;
    if r == 0 {
      assert now == Slot(expected, period, q);
    } else {
      assert (q + 1) * period == q * period + period;
      assert now + (period - r) == Slot(expected, period, q + 1);
      forall t | now <= t < now + (period - r) ensures !OnGrid(t, expected, period) {
        BetweenSlots(expected, period, q, t);
      }
    }
  }

  /**
    On time, the delay leads exactly to the expected time; late, to the first
    instant from now on that is a whole number of periods from it.
   */
  lemma DelayTargets(expected: nat, now: nat, period: nat)
    requires period > 0 && expected < TWO_TO_THE_63 && now < TWO_TO_THE_63
    ensures var d := Delay(expected, now, period);
            && d >= 0 && now + d >= expected && OnGrid(now + d, expected, period)
            && (now <= expected ==> now + d == expected)
            && (now > expected ==> d < period && LeastOnGrid(expected, now, period, d))
  {
    SignedDifference(expected, now);
    hide SubU64, AsInt64;
    if now > expected {
      LateDelay(now - expected, period);
      LateTarget(expected, now, period);
      hide Rem, OnGrid;
    } else {
      assert expected == Slot(expected, period, 0);
    }
  }

  /**
    The unsigned 64-bit delay of the first post leads to the first expected
    time if and only if the post is made no later than that.  Late, it has
    wrapped; read as signed it says how late.
   */
  lemma FirstDelayIff(first: nat, now: nat)
    requires first < TWO_TO_THE_63 && now < TWO_TO_THE_63
    ensures now <= first <==> now + FirstDelay(first, now) == first
    ensures now > first ==> FirstDelay(first, now) == TWO_TO_THE_64 - (now - first)
    ensures AsInt64(FirstDelay(first, now)) == first - now
  {
  }

  /**
    Both readings of that delay, unsigned and signed with a past time due at
    once, are covered, and under any the due time is the first expected time
    if and only if the post was made in time.
   */
  lemma FirstDueCoversReadings(first: nat, now: nat, due: nat)
    requires first < TWO_TO_THE_63 && now < TWO_TO_THE_63
    ensures FirstDue(first, now, now + FirstDelay(first, now))
    ensures var signed := AsInt64(FirstDelay(first, now));
            FirstDue(first, now, if signed >= 0 then now + signed else now)
    ensures FirstDue(first, now, due) ==> due >= first && (due == first <==> now <= first)
  {
    FirstDelayIff(first, now);
    hide AsInt64, FirstDelay;
  }
}
