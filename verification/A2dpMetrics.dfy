/**
  Merging A2DP metrics.  -1 marks a value that is not known yet.

  Integer averages are kept as a truncated average and a count, so each merge
  loses a little; what is lost is bounded below for every sequence of merges.
  The underrun average is a float in the source and a real here.
 */
module A2dpMetrics {
  import opened Arithmetic
  import opened Sequences

  datatype A2dpSessionMetrics = A2dpSessionMetrics(
    audioDurationMs: int := -1,
    mediaTimerMinMs: int := -1,
    mediaTimerMaxMs: int := -1,
    mediaTimerAvgMs: int := -1,
    totalSchedulingCount: int := -1,
    bufferOverrunsMaxCount: int := -1,
    bufferOverrunsTotal: int := -1,
    bufferUnderrunsAverage: real := -1.0,
    bufferUnderrunsCount: int := -1,
    codecIndex: int := -1,
    isA2dpOffload: bool := false)

  type M = A2dpSessionMetrics

  const DEFAULT: M := A2dpSessionMetrics()

  function Max(a: int, b: int): int { if a >= b then a else b }
  function Min(a: int, b: int): int { if a <= b then a else b }

  /** C++ integer division, which truncates toward zero. */
  function TruncDiv(a: int, b: int): int
    requires b > 0
  {
    if a >= 0 then a / b else -((-a) / b)
  }

  function CombineAverages(avgA: int, ctA: int, avgB: int, ctB: int): int {
    if ctA > 0 && ctB > 0 then TruncDiv(avgA * ctA + avgB * ctB, ctA + ctB)
    else if ctB > 0 then avgB
    else avgA
  }

  function CombineRealAverages(avgA: real, ctA: int, avgB: real, ctB: int): real {
    if ctA > 0 && ctB > 0 then (avgA * ctA as real + avgB * ctB as real) / (ctA + ctB) as real
    else if ctB > 0 then avgB
    else avgA
  }

  // ---------------------------------------------------------------------
  // One merge, field by field
  // ---------------------------------------------------------------------

  function AddTotal(acc: int, x: int): int {
    if x >= 0 then Max(0, acc) + x else acc
  }

  function MergeMin(acc: int, x: int): int {
    if x < 0 then acc else if acc < 0 then x else Min(acc, x)
  }

  function MergeMax(acc: int, x: int): int {
    if x >= 0 then Max(acc, x) else acc
  }

  function MergeAverage(avg: int, count: int, x: int, n: int): (int, int) {
    if x < 0 || n < 0 then (avg, count)
    else if avg < 0 || count < 0 then (x, n)
    else (CombineAverages(avg, count, x, n), count + n)
  }

  function MergeRealAverage(avg: real, count: int, x: real, n: int): (real, int) {
    if x < 0.0 || n < 0 then (avg, count)
    else if avg < 0.0 || count < 0 then (x, n)
    else (CombineRealAverages(avg, count, x, n), count + n)
  }

  function Merged(acc: M, m: M): M {
    var (avg, count) := MergeAverage(acc.mediaTimerAvgMs, acc.totalSchedulingCount, m.mediaTimerAvgMs, m.totalSchedulingCount);
    var (under, underCount) := MergeRealAverage(acc.bufferUnderrunsAverage, acc.bufferUnderrunsCount,
                                                m.bufferUnderrunsAverage, m.bufferUnderrunsCount);
    A2dpSessionMetrics(
      AddTotal(acc.audioDurationMs, m.audioDurationMs),
      MergeMin(acc.mediaTimerMinMs, m.mediaTimerMinMs),
      MergeMax(acc.mediaTimerMaxMs, m.mediaTimerMaxMs),
      avg, count,
      MergeMax(acc.bufferOverrunsMaxCount, m.bufferOverrunsMaxCount),
      AddTotal(acc.bufferOverrunsTotal, m.bufferOverrunsTotal),
      under, underCount,
      if acc.codecIndex < 0 then m.codecIndex else acc.codecIndex,
      acc.isA2dpOffload || m.isA2dpOffload)
  }

  /** The merge as the code performs it, one field after another. */
  method Update(acc: M, metrics: M) returns (r: M)
    ensures r == Merged(acc, metrics)
  {
    hide CombineAverages, CombineRealAverages;
    var audioDurationMs := acc.audioDurationMs;
    var mediaTimerMinMs := acc.mediaTimerMinMs;
    var mediaTimerMaxMs := acc.mediaTimerMaxMs;
    var mediaTimerAvgMs := acc.mediaTimerAvgMs;
    var totalSchedulingCount := acc.totalSchedulingCount;
    var bufferOverrunsMaxCount := acc.bufferOverrunsMaxCount;
    var bufferOverrunsTotal := acc.bufferOverrunsTotal;
    var bufferUnderrunsAverage := acc.bufferUnderrunsAverage;
    var bufferUnderrunsCount := acc.bufferUnderrunsCount;
    var codecIndex := acc.codecIndex;
    var isA2dpOffload := acc.isA2dpOffload;
    if metrics.audioDurationMs >= 0 {
      audioDurationMs := Max(0, audioDurationMs);
      audioDurationMs := audioDurationMs + metrics.audioDurationMs;
    }
    assert audioDurationMs == AddTotal(acc.audioDurationMs, metrics.audioDurationMs);
    if metrics.mediaTimerMinMs >= 0 {
      if mediaTimerMinMs < 0 {
        mediaTimerMinMs := metrics.mediaTimerMinMs;
      } else {
        mediaTimerMinMs := Min(mediaTimerMinMs, metrics.mediaTimerMinMs);
      }
    }
    assert mediaTimerMinMs == MergeMin(acc.mediaTimerMinMs, metrics.mediaTimerMinMs);
    if metrics.mediaTimerMaxMs >= 0 {
      mediaTimerMaxMs := Max(mediaTimerMaxMs, metrics.mediaTimerMaxMs);
    }
    if metrics.mediaTimerAvgMs >= 0 && metrics.totalSchedulingCount >= 0 {
      if mediaTimerAvgMs < 0 || totalSchedulingCount < 0 {
        mediaTimerAvgMs := metrics.mediaTimerAvgMs;
        totalSchedulingCount := metrics.totalSchedulingCount;
      } else {
        mediaTimerAvgMs := CombineAverages(mediaTimerAvgMs, totalSchedulingCount,
                                           metrics.mediaTimerAvgMs, metrics.totalSchedulingCount);
        totalSchedulingCount := totalSchedulingCount + metrics.totalSchedulingCount;
      }
    }
    assert (mediaTimerAvgMs, totalSchedulingCount) ==
           MergeAverage(acc.mediaTimerAvgMs, acc.totalSchedulingCount, metrics.mediaTimerAvgMs, metrics.totalSchedulingCount);
    if metrics.bufferOverrunsMaxCount >= 0 {
      bufferOverrunsMaxCount := Max(bufferOverrunsMaxCount, metrics.bufferOverrunsMaxCount);
    }
    if metrics.bufferOverrunsTotal >= 0 {
      bufferOverrunsTotal := Max(0, bufferOverrunsTotal);
      bufferOverrunsTotal := bufferOverrunsTotal + metrics.bufferOverrunsTotal;
    }
    assert bufferOverrunsTotal == AddTotal(acc.bufferOverrunsTotal, metrics.bufferOverrunsTotal);
    if metrics.bufferUnderrunsAverage >= 0.0 && metrics.bufferUnderrunsCount >= 0 {
      if bufferUnderrunsAverage < 0.0 || bufferUnderrunsCount < 0 {
        bufferUnderrunsAverage := metrics.bufferUnderrunsAverage;
        bufferUnderrunsCount := metrics.bufferUnderrunsCount;
      } else {
        bufferUnderrunsAverage := CombineRealAverages(bufferUnderrunsAverage, bufferUnderrunsCount,
                                                      metrics.bufferUnderrunsAverage, metrics.bufferUnderrunsCount);
        bufferUnderrunsCount := bufferUnderrunsCount + metrics.bufferUnderrunsCount;
      }
    }
    assert (bufferUnderrunsAverage, bufferUnderrunsCount) ==
           MergeRealAverage(acc.bufferUnderrunsAverage, acc.bufferUnderrunsCount,
                            metrics.bufferUnderrunsAverage, metrics.bufferUnderrunsCount);
    hide AddTotal, MergeMin, MergeAverage, MergeRealAverage;
    if codecIndex < 0 {
      codecIndex := metrics.codecIndex;
    }
    if !isA2dpOffload {
      isA2dpOffload := metrics.isA2dpOffload;
    }
    r := A2dpSessionMetrics(audioDurationMs, mediaTimerMinMs, mediaTimerMaxMs, mediaTimerAvgMs, totalSchedulingCount,
                            bufferOverrunsMaxCount, bufferOverrunsTotal, bufferUnderrunsAverage, bufferUnderrunsCount,
                            codecIndex, isA2dpOffload);
  }

  // ---------------------------------------------------------------------
  // Any sequence of merges
  // ---------------------------------------------------------------------

  /** What a fresh accumulator holds after merging `ms` in order. */
  function Fold(ms: seq<M>): M {
    if ms == [] then DEFAULT else Merged(Fold(ms[..|ms| - 1]), ms[|ms| - 1])
  }

  function DurationSum(ms: seq<M>): nat {
    if ms == [] then 0 else DurationSum(ms[..|ms| - 1]) + Max(0, ms[|ms| - 1].audioDurationMs)
  }

  /** The duration is the sum of the known ones, or unknown if none is known. */
  lemma {:induction false} DurationIsSum(ms: seq<M>)
    ensures (exists i :: 0 <= i < |ms| && ms[i].audioDurationMs >= 0) ==> Fold(ms).audioDurationMs == DurationSum(ms)
    ensures (forall i :: 0 <= i < |ms| ==> ms[i].audioDurationMs < 0) ==> Fold(ms).audioDurationMs == -1 && DurationSum(ms) == 0
  {
    if ms != [] {
      var front, last := ms[..|ms| - 1], ms[|ms| - 1];
      DurationIsSum(front);
      if i :| 0 <= i < |front| && front[i].audioDurationMs >= 0 {
        assert ms[i].audioDurationMs >= 0;
      } else {
        assert forall i :: 0 <= i < |ms| - 1 ==> ms[i] == front[i];
      }
    }
  }

  /** The smallest and the largest media timer value are the extremes of the known ones. */
  lemma {:induction false} MediaTimerExtremes(ms: seq<M>)
    ensures Fold(ms).mediaTimerMinMs == -1 || exists i :: 0 <= i < |ms| && ms[i].mediaTimerMinMs == Fold(ms).mediaTimerMinMs >= 0
    ensures forall i :: 0 <= i < |ms| && ms[i].mediaTimerMinMs >= 0 ==> 0 <= Fold(ms).mediaTimerMinMs <= ms[i].mediaTimerMinMs
    ensures Fold(ms).mediaTimerMaxMs == -1 || exists i :: 0 <= i < |ms| && ms[i].mediaTimerMaxMs == Fold(ms).mediaTimerMaxMs >= 0
    ensures forall i :: 0 <= i < |ms| && ms[i].mediaTimerMaxMs >= 0 ==> ms[i].mediaTimerMaxMs <= Fold(ms).mediaTimerMaxMs
  {
    if ms != [] {
      var front, last := ms[..|ms| - 1], ms[|ms| - 1];
      MediaTimerExtremes(front);
      assert forall i :: 0 <= i < |front| ==> front[i] == ms[i];
      assert ms[|ms| - 1] == last;
      var min, max := Fold(front).mediaTimerMinMs, Fold(front).mediaTimerMaxMs;
      if min >= 0 {
        var i :| 0 <= i < |front| && front[i].mediaTimerMinMs == min;
        assert ms[i].mediaTimerMinMs == min;
      }
      if max >= 0 {
        var i :| 0 <= i < |front| && front[i].mediaTimerMaxMs == max;
        assert ms[i].mediaTimerMaxMs == max;
      }
    }
  }

  function OverrunSum(ms: seq<M>): nat {
    if ms == [] then 0 else OverrunSum(ms[..|ms| - 1]) + Max(0, ms[|ms| - 1].bufferOverrunsTotal)
  }

  /** Overruns: the total is the sum of the known ones, the maximum is the largest known one. */
  lemma {:induction false} OverrunsMerged(ms: seq<M>)
    ensures Max(0, Fold(ms).bufferOverrunsTotal) == OverrunSum(ms)
    ensures Fold(ms).bufferOverrunsMaxCount == -1 ||
            exists i :: 0 <= i < |ms| && ms[i].bufferOverrunsMaxCount == Fold(ms).bufferOverrunsMaxCount >= 0
    ensures forall i :: 0 <= i < |ms| ==>
              ms[i].bufferOverrunsMaxCount < 0 || ms[i].bufferOverrunsMaxCount <= Fold(ms).bufferOverrunsMaxCount
  {
    if ms != [] {
      var front, last := ms[..|ms| - 1], ms[|ms| - 1];
      OverrunsMerged(front);
      assert forall i :: 0 <= i < |front| ==> front[i] == ms[i];
      var max := Fold(front).bufferOverrunsMaxCount;
      if max >= 0 {
        var i :| 0 <= i < |front| && front[i].bufferOverrunsMaxCount == max;
        assert ms[i].bufferOverrunsMaxCount == max;
      }
    }
  }

  /** The codec is the first known one, and offload is on once any metrics say so. */
  lemma {:induction false} CodecAndOffload(ms: seq<M>)
    ensures forall i :: 0 <= i < |ms| && ms[i].codecIndex >= 0 && (forall j :: 0 <= j < i ==> ms[j].codecIndex < 0) ==>
              Fold(ms).codecIndex == ms[i].codecIndex
    ensures (forall i :: 0 <= i < |ms| ==> ms[i].codecIndex < 0) ==> Fold(ms).codecIndex < 0
    ensures Fold(ms).isA2dpOffload <==> exists i :: 0 <= i < |ms| && ms[i].isA2dpOffload
  {
    if ms != [] {
      var front, last := ms[..|ms| - 1], ms[|ms| - 1];
      CodecAndOffload(front);
      FoldLast(ms);
      hide Fold;
      assert forall i :: 0 <= i < |front| ==> front[i] == ms[i];
      if Fold(front).isA2dpOffload {
        var i :| 0 <= i < |front| && front[i].isA2dpOffload;
        assert ms[i].isA2dpOffload;
      }
    }
  }

  lemma FoldLast(ms: seq<M>)
    requires ms != []
    ensures var front, last := Fold(ms[..|ms| - 1]), ms[|ms| - 1];
            && Fold(ms).codecIndex == (if front.codecIndex < 0 then last.codecIndex else front.codecIndex)
            && Fold(ms).isA2dpOffload == (front.isA2dpOffload || last.isA2dpOffload)
  {
  }

  // The media timer average

  predicate HasAverage(m: M) {
    m.mediaTimerAvgMs >= 0 && m.totalSchedulingCount >= 0
  }

  /** How many of the metrics carry an average. */
  function Samples(ms: seq<M>): nat {
    if ms == [] then 0 else Samples(ms[..|ms| - 1]) + if HasAverage(ms[|ms| - 1]) then 1 else 0
  }

  function TotalCount(ms: seq<M>): nat {
    if ms == [] then 0
    else TotalCount(ms[..|ms| - 1]) + if HasAverage(ms[|ms| - 1]) then ms[|ms| - 1].totalSchedulingCount else 0
  }

  /** The exact weighted sum. */
  function WeightedSum(ms: seq<M>): nat {
    if ms == [] then 0
    else
      var m := ms[|ms| - 1];
      WeightedSum(ms[..|ms| - 1]) + if HasAverage(m) then m.mediaTimerAvgMs * m.totalSchedulingCount else 0
  }

  lemma DivBetween(n: int, c: int, lo: int, hi: int)
    requires c > 0 && 0 <= lo && lo * c <= n <= hi * c
    ensures lo <= n / c <= hi && 0 <= n - (n / c) * c < c
  {
    var q := n / c;
    assert n == q * c + n % c;
    if q < lo { MulMono(q + 1, lo, c); }
    if q > hi { MulMono(hi + 1, q, c); }
  }

  lemma WeightedBetween(a: nat, ca: nat, b: nat, cb: nat, lo: nat, hi: nat)
    requires lo <= a <= hi && lo <= b <= hi
    ensures lo * (ca + cb) <= a * ca + b * cb <= hi * (ca + cb)
  {
    MulMono(lo, a, ca);
    MulMono(a, hi, ca);
    MulMono(lo, b, cb);
    MulMono(b, hi, cb);
    assert lo * (ca + cb) == lo * ca + lo * cb && hi * (ca + cb) == hi * ca + hi * cb;
  }

  /** One truncating merge: the new average lies between the two, and loses less than the count. */
  lemma CombineBounds(a: nat, ca: nat, b: nat, cb: nat)
    requires ca > 0 && cb > 0
    ensures var q := CombineAverages(a, ca, b, cb);
            && 0 <= a * ca + b * cb - q * (ca + cb) < ca + cb
            && Min(a, b) <= q <= Max(a, b)
  {
    var lo, hi := Min(a, b), Max(a, b);
    WeightedBetween(a, ca, b, cb, lo, hi);
    DivBetween(a * ca + b * cb, ca + cb, lo, hi);
  }

  /** Every average merged in lies between `lo` and `hi`. */
  ghost predicate AveragesWithin(ms: seq<M>, lo: int, hi: int) {
    forall i :: 0 <= i < |ms| && HasAverage(ms[i]) ==> lo <= ms[i].mediaTimerAvgMs <= hi
  }

  /** What one merge of two averages truncates away, times the joint count. */
  function MergeLoss(a: nat, c: nat, b: nat, k: nat): nat {
    if c + k == 0 then 0 else (a * c + b * k) % (c + k)
  }

  /** Everything the merges have truncated away. */
  function Loss(ms: seq<M>): nat {
    if ms == [] then 0
    else
      var front := ms[..|ms| - 1];
      Loss(front) + LossAt(Fold(front), ms[|ms| - 1])
  }

  /** What merging `m` into `acc` truncates away; nothing when either has no average. */
  function LossAt(acc: M, m: M): nat {
    if HasAverage(acc) && HasAverage(m)
    then MergeLoss(acc.mediaTimerAvgMs, acc.totalSchedulingCount, m.mediaTimerAvgMs, m.totalSchedulingCount)
    else 0
  }

  /** One merge preserves average times count, but for its loss. */
  lemma MergeLosesExactly(a: nat, c: nat, b: nat, k: nat)
    ensures var a' := CombineAverages(a, c, b, k);
            a' >= 0 && a' * (c + k) + MergeLoss(a, c, b, k) == a * c + b * k
    ensures c + k > 0 ==> MergeLoss(a, c, b, k) < c + k
  {
    if c > 0 && k > 0 {
      MergeBoth(a, c, b, k);
    } else if k > 0 {
      MultipleLeavesNothing(b, k);
    } else if c > 0 {
      MultipleLeavesNothing(a, c);
    }
  }

  lemma MergeBoth(a: nat, c: nat, b: nat, k: nat)
    requires c > 0 && k > 0
    ensures var n, q := a * c + b * k, CombineAverages(a, c, b, k);
            q >= 0 && q * (c + k) + n % (c + k) == n && n % (c + k) < c + k
  {
    MulMono(0, a, c);
    MulMono(0, b, k);
    DivMod(a * c + b * k, c + k);
  }

  lemma DivMod(n: nat, d: nat)
    requires d > 0
    ensures n == (n / d) * d + n % d && 0 <= n % d < d
  {
  }

  lemma MultipleLeavesNothing(a: nat, c: nat)
    requires c > 0
    ensures (a * c) % c == 0
  {
    var q, r := (a * c) / c, (a * c) % c;
    DivMod(a * c, c);
    if a < q { MulMono(a + 1, q, c); }
    if q < a { MulMono(q + 1, a, c); }
  }

  /**
    After any sequence of merges, with A the stored average, C the stored count
    and S the exact weighted sum: S - A*C is exactly what the merges truncated.
   */
  lemma {:induction false} AverageLoses(ms: seq<M>)
    ensures HasAverage(Fold(ms)) <==> Samples(ms) > 0
    ensures Samples(ms) == 0 ==>
              && Fold(ms).mediaTimerAvgMs == -1 && Fold(ms).totalSchedulingCount == -1
              && TotalCount(ms) == 0 && WeightedSum(ms) == 0 && Loss(ms) == 0
    ensures Samples(ms) > 0 ==>
              && Fold(ms).totalSchedulingCount == TotalCount(ms)
              && WeightedSum(ms) == Fold(ms).mediaTimerAvgMs * TotalCount(ms) + Loss(ms)
  {
    if ms != [] {
      var front, m := ms[..|ms| - 1], ms[|ms| - 1];
      AverageLoses(front);
      if HasAverage(m) && Samples(front) > 0 {
        MergeLosesExactly(Fold(front).mediaTimerAvgMs, TotalCount(front), m.mediaTimerAvgMs, m.totalSchedulingCount);
        hide CombineAverages, MergeLoss;
      }
    }
  }

  lemma LossGrows(loss: nat, more: nat, n: nat, c: nat, k: nat)
    requires n > 0 && loss <= (n - 1) * c && more <= c + k
    ensures loss + more <= n * (c + k)
  {
    MulMono(1, n, k);
    assert n * (c + k) == (n - 1) * c + c + n * k;
  }

  lemma {:induction false} LossIsBounded(ms: seq<M>)
    ensures Samples(ms) > 0 ==> Loss(ms) <= (Samples(ms) - 1) * TotalCount(ms)
  {
    if ms != [] {
      var front, m := ms[..|ms| - 1], ms[|ms| - 1];
      AverageLoses(front);
      LossIsBounded(front);
      if HasAverage(m) && Samples(front) > 0 {
        var c, k, n := TotalCount(front), m.totalSchedulingCount, Samples(front);
        var loss := LossAt(Fold(front), m);
        MergeLosesExactly(Fold(front).mediaTimerAvgMs, c, m.mediaTimerAvgMs, k);
        assert loss <= c + k;
        LossGrows(Loss(front), loss, n, c, k);
      }
    }
  }

  /** So A*C <= S, and S - A*C <= (n-1)*C for n averages merged. */
  lemma AverageDrift(ms: seq<M>)
    ensures Samples(ms) == 0 ==>
              && Fold(ms).mediaTimerAvgMs == -1 && Fold(ms).totalSchedulingCount == -1
              && TotalCount(ms) == 0 && WeightedSum(ms) == 0
    ensures Samples(ms) > 0 ==>
              && Fold(ms).mediaTimerAvgMs >= 0 && Fold(ms).totalSchedulingCount == TotalCount(ms)
              && 0 <= WeightedSum(ms) - Fold(ms).mediaTimerAvgMs * TotalCount(ms) <= (Samples(ms) - 1) * TotalCount(ms)
  {
    AverageLoses(ms);
    LossIsBounded(ms);
  }

  /** Every merge divides evenly. */
  ghost predicate MergesEvenly(ms: seq<M>) {
    forall i :: 0 <= i < |ms| ==> LossAt(Fold(ms[..i]), ms[i]) == 0
  }

  lemma {:induction false} NoLossIffEven(ms: seq<M>)
    ensures Loss(ms) == 0 <==> MergesEvenly(ms)
  {
    hide LossAt, Fold;
    if ms != [] {
      var n := |ms| - 1;
      var front := ms[..n];
      NoLossIffEven(front);
      forall i | 0 <= i < n ensures front[..i] == ms[..i] && front[i] == ms[i] {}
      assert MergesEvenly(ms) <==> MergesEvenly(front) && LossAt(Fold(ms[..n]), ms[n]) == 0;
    }
  }

  /** The stored average is the exact one if and only if every merge divided evenly. */
  lemma AverageIsExactIff(ms: seq<M>)
    requires Samples(ms) > 0
    ensures Fold(ms).mediaTimerAvgMs * TotalCount(ms) == WeightedSum(ms) <==> MergesEvenly(ms)
  {
    AverageLoses(ms);
    NoLossIffEven(ms);
    hide MergesEvenly;
  }

  /** The stored average never leaves the range of the averages merged in. */
  lemma {:induction false} AverageStaysInRange(ms: seq<M>, lo: int, hi: int)
    requires Samples(ms) > 0 && AveragesWithin(ms, lo, hi)
    ensures lo <= Fold(ms).mediaTimerAvgMs <= hi
  {
    var front, m := ms[..|ms| - 1], ms[|ms| - 1];
    assert HasAverage(m) ==> lo <= ms[|ms| - 1].mediaTimerAvgMs <= hi;
    AverageDrift(front);
    if Samples(front) > 0 {
      assert AveragesWithin(front, lo, hi) by {
        forall i | 0 <= i < |front| && HasAverage(front[i]) ensures lo <= front[i].mediaTimerAvgMs <= hi {
          assert ms[i] == front[i];
        }
      }
      AverageStaysInRange(front, lo, hi);
      var c := TotalCount(front);
      if HasAverage(m) && c > 0 && m.totalSchedulingCount > 0 {
        CombineBounds(Fold(front).mediaTimerAvgMs, c, m.mediaTimerAvgMs, m.totalSchedulingCount);
      }
    }
  }

  lemma {:induction false} SumsWithout(ms: seq<M>, i: nat)
    requires i < |ms|
    ensures var rest := DropAt(ms, i);
            && Samples(ms) == Samples(rest) + Samples([ms[i]])
            && TotalCount(ms) == TotalCount(rest) + TotalCount([ms[i]])
            && WeightedSum(ms) == WeightedSum(rest) + WeightedSum([ms[i]])
  {
    var n := |ms| - 1;
    var rest := DropAt(ms, i);
    assert [ms[i]][..0] == [];
    if i < n {
      SumsWithout(ms[..n], i);
      assert rest[..n - 1] == DropAt(ms[..n], i) && rest[n - 1] == ms[n];
    } else {
      assert rest == ms[..n];
    }
  }

  /** Counts and weighted sums do not depend on the order. */
  lemma {:induction false} SumsIgnoreOrder(xs: seq<M>, ys: seq<M>)
    requires multiset(xs) == multiset(ys)
    ensures Samples(xs) == Samples(ys) && TotalCount(xs) == TotalCount(ys) && WeightedSum(xs) == WeightedSum(ys)
    decreases |xs|
  {
    if xs == [] {
      assert |multiset(ys)| == 0;
    } else {
      hide Samples, TotalCount, WeightedSum, DropAt;
      assert xs[0] in multiset(ys);
      var i :| 0 <= i < |ys| && ys[i] == xs[0];
      ElementsWithout(xs, 0);
      ElementsWithout(ys, i);
      SumsIgnoreOrder(DropAt(xs, 0), DropAt(ys, i));
      SumsWithout(xs, 0);
      SumsWithout(ys, i);
    }
  }

  lemma ElementsWithout(ms: seq<M>, i: nat)
    requires i < |ms|
    ensures multiset(DropAt(ms, i)) == multiset(ms) - multiset{ms[i]} && |DropAt(ms, i)| == |ms| - 1
  {
    assert ms == ms[..i] + [ms[i]] + ms[i + 1..];
  }

  /** The same metrics in two orders give the same average if and only if the merges truncate equally much. */
  lemma OrderMattersIff(xs: seq<M>, ys: seq<M>)
    requires multiset(xs) == multiset(ys) && TotalCount(xs) > 0
    ensures Samples(xs) > 0 && Samples(ys) > 0
    ensures Fold(xs).mediaTimerAvgMs == Fold(ys).mediaTimerAvgMs <==> Loss(xs) == Loss(ys)
  {
    SumsIgnoreOrder(xs, ys);
    AverageLoses(xs);
    AverageLoses(ys);
    hide Fold, Loss, Samples, TotalCount, WeightedSum, HasAverage;
    SameTotal(Fold(xs).mediaTimerAvgMs, Loss(xs), Fold(ys).mediaTimerAvgMs, Loss(ys), TotalCount(xs));
  }

  lemma SameTotal(a: int, l: int, b: int, m: int, c: nat)
    requires c > 0 && a * c + l == b * c + m
    ensures a == b <==> l == m
  {
    if a < b { MulMono(a + 1, b, c); }
    if b < a { MulMono(b + 1, a, c); }
  }

  /** The truncation is real: the same three averages give 1 or 2 depending on the order. */
  lemma AverageDependsOnOrder()
    ensures var zero := A2dpSessionMetrics(mediaTimerAvgMs := 0, totalSchedulingCount := 1);
            var three := A2dpSessionMetrics(mediaTimerAvgMs := 3, totalSchedulingCount := 1);
            Fold([zero, three, three]).mediaTimerAvgMs == 1 && Fold([three, three, zero]).mediaTimerAvgMs == 2
  {
    var zero := A2dpSessionMetrics(mediaTimerAvgMs := 0, totalSchedulingCount := 1);
    var three := A2dpSessionMetrics(mediaTimerAvgMs := 3, totalSchedulingCount := 1);
    assert [zero, three, three][..2] == [zero, three] && [zero, three][..1] == [zero] && [zero][..0] == [];
    assert [three, three, zero][..2] == [three, three] && [three, three][..1] == [three] && [three][..0] == [];
    assert Fold([zero]).mediaTimerAvgMs == 0 && Fold([zero, three]).mediaTimerAvgMs == 1;
    assert Fold([three]).mediaTimerAvgMs == 3 && Fold([three, three]).mediaTimerAvgMs == 3;
  }

  // The underrun average

  predicate HasUnderruns(m: M) {
    m.bufferUnderrunsAverage >= 0.0 && m.bufferUnderrunsCount >= 0
  }

  function UnderrunCount(ms: seq<M>): nat {
    if ms == [] then 0
    else UnderrunCount(ms[..|ms| - 1]) + if HasUnderruns(ms[|ms| - 1]) then ms[|ms| - 1].bufferUnderrunsCount else 0
  }

  function UnderrunSum(ms: seq<M>): real {
    if ms == [] then 0.0
    else
      var m := ms[|ms| - 1];
      UnderrunSum(ms[..|ms| - 1]) + if HasUnderruns(m) then m.bufferUnderrunsAverage * m.bufferUnderrunsCount as real else 0.0
  }

  lemma RealCombine(a: real, c: nat, b: real, k: nat)
    requires a >= 0.0 && b >= 0.0
    ensures CombineRealAverages(a, c, b, k) >= 0.0
    ensures CombineRealAverages(a, c, b, k) * (c + k) as real == a * c as real + b * k as real
  {
    if c > 0 && k > 0 {
      var n, d := a * c as real + b * k as real, (c + k) as real;
      assert CombineRealAverages(a, c, b, k) == n / d;
      hide CombineRealAverages;
      RealProduct(a, c as real);
      RealProduct(b, k as real);
      RealDivision(n, d);
    }
  }

  lemma RealProduct(x: real, y: real)
    requires x >= 0.0 && y >= 0.0
    ensures x * y >= 0.0
  {
  }

  lemma RealDivision(n: real, d: real)
    requires n >= 0.0 && d > 0.0
    ensures (n / d) * d == n && n / d >= 0.0
  {
    var q := n / d;
    assert q * d == n;
    if q < 0.0 { RealProductNegative(q, d); }
  }

  lemma RealProductNegative(x: real, y: real)
    requires x < 0.0 && y > 0.0
    ensures x * y < 0.0
  {
  }

  ghost predicate AnyUnderruns(ms: seq<M>) {
    exists i :: 0 <= i < |ms| && HasUnderruns(ms[i])
  }

  lemma AnyUnderrunsSnoc(ms: seq<M>)
    requires ms != []
    ensures AnyUnderruns(ms) <==> AnyUnderruns(ms[..|ms| - 1]) || HasUnderruns(ms[|ms| - 1])
  {
    var front := ms[..|ms| - 1];
    if AnyUnderruns(front) {
      var i :| 0 <= i < |front| && HasUnderruns(front[i]);
      assert HasUnderruns(ms[i]);
    }
    if i :| 0 <= i < |ms| && HasUnderruns(ms[i]) {
      if i < |front| { assert HasUnderruns(front[i]); }
    }
  }

  lemma FoldUnderruns(ms: seq<M>)
    requires ms != []
    ensures var acc, m := Fold(ms[..|ms| - 1]), ms[|ms| - 1];
            (Fold(ms).bufferUnderrunsAverage, Fold(ms).bufferUnderrunsCount) ==
            MergeRealAverage(acc.bufferUnderrunsAverage, acc.bufferUnderrunsCount,
                             m.bufferUnderrunsAverage, m.bufferUnderrunsCount)
  {
  }

  /** `avg` and `count` are the exact mean and number behind the weighted sum `s`. */
  ghost predicate ExactMean(avg: real, count: int, c: nat, s: real) {
    avg >= 0.0 && count == c && avg * c as real == s
  }

  lemma ExactMeanStep(avg: real, c: nat, s: real, x: real, n: nat)
    requires ExactMean(avg, c, c, s) && x >= 0.0
    ensures ExactMean(CombineRealAverages(avg, c, x, n), c + n, c + n, s + x * n as real)
  {
    RealCombine(avg, c, x, n);
    hide CombineRealAverages;
  }

  lemma UnderrunStep(ms: seq<M>)
    requires ms != [] && HasUnderruns(ms[|ms| - 1])
    requires var front := ms[..|ms| - 1]; var acc := Fold(front);
             && acc.bufferUnderrunsAverage >= 0.0 && acc.bufferUnderrunsCount == UnderrunCount(front)
             && ExactMean(acc.bufferUnderrunsAverage, UnderrunCount(front), UnderrunCount(front), UnderrunSum(front))
    ensures ExactMean(Fold(ms).bufferUnderrunsAverage, Fold(ms).bufferUnderrunsCount, UnderrunCount(ms), UnderrunSum(ms))
  {
    hide Fold, CombineRealAverages;
    var front, m := ms[..|ms| - 1], ms[|ms| - 1];
    FoldUnderruns(ms);
    ExactMeanStep(Fold(front).bufferUnderrunsAverage, UnderrunCount(front), UnderrunSum(front),
                  m.bufferUnderrunsAverage, m.bufferUnderrunsCount);
  }

  lemma FirstUnderrun(ms: seq<M>)
    requires ms != [] && HasUnderruns(ms[|ms| - 1]) && !AnyUnderruns(ms[..|ms| - 1])
    requires Fold(ms[..|ms| - 1]).bufferUnderrunsAverage == -1.0
    ensures ExactMean(Fold(ms).bufferUnderrunsAverage, Fold(ms).bufferUnderrunsCount, UnderrunCount(ms), UnderrunSum(ms))
  {
    hide Fold, AnyUnderruns, CombineRealAverages;
    FoldUnderruns(ms);
    NoUnderrunsNoCount(ms[..|ms| - 1]);
  }

  /** Without truncation the running average is the exact weighted mean. */
  lemma {:induction false} UnderrunAverageIsExact(ms: seq<M>)
    ensures !AnyUnderruns(ms) ==> Fold(ms).bufferUnderrunsAverage == -1.0 && Fold(ms).bufferUnderrunsCount == -1
    ensures AnyUnderruns(ms) ==>
              ExactMean(Fold(ms).bufferUnderrunsAverage, Fold(ms).bufferUnderrunsCount, UnderrunCount(ms), UnderrunSum(ms))
  {
    if ms != [] {
      AnyUnderrunsSnoc(ms);
      UnderrunAverageIsExact(ms[..|ms| - 1]);
      hide Fold, AnyUnderruns, CombineRealAverages;
      FoldUnderruns(ms);
      if HasUnderruns(ms[|ms| - 1]) {
        if AnyUnderruns(ms[..|ms| - 1]) { UnderrunStep(ms); } else { FirstUnderrun(ms); }
      }
    }
  }

  lemma {:induction false} NoUnderrunsNoCount(ms: seq<M>)
    requires !AnyUnderruns(ms)
    ensures UnderrunCount(ms) == 0 && UnderrunSum(ms) == 0.0
  {
    if ms != [] {
      AnyUnderrunsSnoc(ms);
      NoUnderrunsNoCount(ms[..|ms| - 1]);
    }
  }
}
