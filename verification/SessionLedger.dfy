/**
  Accounting for sessions over whole runs.  The ledger records, since the last
  Reset, every session that was closed, which LogA2dpSession calls went into
  it, and what became of it; the invariant ties it to what the logger holds.
 */
module SessionLedger {
  import opened Options
  import opened LeakyQueue
  import opened A2dpMetrics
  import opened Arithmetic
  import opened SessionLog

  datatype Fate = Leaked | Emitted

  datatype Ledger = Ledger(
    closed: seq<Session>,   // every session closed, in order
    calls: seq<seq<M>>,     // the metrics logged into each of them
    current: seq<M>,        // the metrics logged into the current session
    fates: seq<Fate>,       // of the closed sessions that have left the queue
    leaked: seq<Session>,
    emitted: seq<Session>,
    mark: nat)              // how many were closed at the last dump

  const EMPTY := Ledger([], [], [], [], [], [], 0)

  function Closing(l: Ledger, s: State, capacity: nat, record: Session): Ledger
    requires capacity > 0
  {
    var leak := Leak(s.queue, capacity);
    l.(closed := l.closed + [record], calls := l.calls + [l.current], current := [],
       fates := if leak.Some? then l.fates + [Leaked] else l.fates,
       leaked := if leak.Some? then l.leaked + [leak.value] else l.leaked)
  }

  function Repeat(f: Fate, n: nat): seq<Fate> {
    seq(n, _ => f)
  }

  /** A dump first closes the current session, if there is one, */
  function Cut(l: Ledger, s: State, capacity: nat, endNow: nat): Ledger
    requires capacity > 0
  {
    if s.current.None? then l else Closing(l, s, capacity, Ended(s, MetricsDump, 0, endNow))
  }

  /** and then emits the whole queue. */
  function Drained(l: Ledger, output: seq<Session>): Ledger {
    l.(fates := l.fates + Repeat(Emitted, |output|), emitted := l.emitted + output, mark := |l.closed|)
  }

  function Track(l: Ledger, s: State, capacity: nat, op: Op): Ledger
    requires capacity > 0
  {
    match op
    case StartOp(_, _, endNow, _) =>
      if s.current.None? then l
      else Closing(l, s, capacity, Ended(s, NextStartWithoutEndPrevious, 0, endNow))
    case EndOp(reason, t, now) =>
      if s.current.None? then l else Closing(l, s, capacity, Ended(s, reason, t, now))
    case DeviceOp(_, _, _) => l
    case A2dpOp(m, _) => l.(current := l.current + [m])
    case DumpOp(endNow, startNow) =>
      Drained(Cut(l, s, capacity, endNow), Dumped(s, capacity, endNow, startNow).0)
    case ResetOp => EMPTY
  }

  function Book(ops: seq<Op>, capacity: nat): Ledger
    requires capacity > 0
  {
    if ops == [] then EMPTY
    else Track(Book(ops[..|ops| - 1], capacity), Run(ops[..|ops| - 1], capacity), capacity, ops[|ops| - 1])
  }

  // ---------------------------------------------------------------------
  // The invariant
  // ---------------------------------------------------------------------

  /** A record carries exactly the summary of the calls that went into it. */
  predicate Matches(r: Session, calls: seq<M>) {
    r.a2dp == if calls == [] then None else Some(Report(Fold(calls)))
  }

  /** The closed sessions with a given fate, in order. */
  function Select(closed: seq<Session>, fates: seq<Fate>, f: Fate): seq<Session>
    requires |fates| <= |closed|
  {
    if fates == [] then []
    else
      var n := |fates| - 1;
      Select(closed, fates[..n], f) + if fates[n] == f then [closed[n]] else []
  }

  /** Every closed session is leaked, emitted or still queued; the queue is the newest part. */
  ghost predicate Accounted(l: Ledger, queue: seq<Session>) {
    && |l.calls| == |l.closed|
    && |l.fates| + |queue| == |l.closed|
    && queue == l.closed[|l.fates|..]
    && l.leaked == Select(l.closed, l.fates, Leaked)
    && l.emitted == Select(l.closed, l.fates, Emitted)
    && forall i :: 0 <= i < |l.closed| ==> Matches(l.closed[i], l.calls[i])
  }

  /** The accumulator and the current record both reflect the calls of the current session. */
  ghost predicate CurrentAgrees(l: Ledger, s: State) {
    && s.metrics == Fold(l.current)
    && (s.current.None? ==> l.current == [])
    && (s.current.Some? ==> Matches(s.current.value, l.current))
  }

  /** The queue and the counter reflect the sessions closed since the last dump. */
  ghost predicate RecentAgrees(l: Ledger, s: State, capacity: nat) {
    && l.mark <= |l.closed|
    && s.queue == LastN(l.closed[l.mark..], capacity)
    && s.count == |l.closed| - l.mark
  }

  ghost predicate Inv(l: Ledger, s: State, capacity: nat) {
    Accounted(l, s.queue) && CurrentAgrees(l, s) && RecentAgrees(l, s, capacity)
  }

  lemma {:induction false} SelectGrow(closed: seq<Session>, more: seq<Session>, fates: seq<Fate>, f: Fate)
    requires |fates| <= |closed| <= |more| && forall i :: 0 <= i < |closed| ==> more[i] == closed[i]
    ensures Select(more, fates, f) == Select(closed, fates, f)
  {
    if fates != [] {
      SelectGrow(closed, more, fates[..|fates| - 1], f);
    }
  }

  lemma SelectSnoc(closed: seq<Session>, fates: seq<Fate>, g: Fate, f: Fate)
    requires |fates| < |closed|
    ensures g == f ==> Select(closed, fates + [g], f) == Select(closed, fates, f) + [closed[|fates|]]
    ensures g != f ==> Select(closed, fates + [g], f) == Select(closed, fates, f)
  {
    assert (fates + [g])[..|fates|] == fates;
  }

  lemma {:induction false} SelectRepeat(closed: seq<Session>, fates: seq<Fate>, g: Fate, n: nat, f: Fate)
    requires |fates| + n <= |closed|
    ensures g == f ==> Select(closed, fates + Repeat(g, n), f) == Select(closed, fates, f) + closed[|fates|..|fates| + n]
    ensures g != f ==> Select(closed, fates + Repeat(g, n), f) == Select(closed, fates, f)
  {
    hide Select;
    if n == 0 {
      assert fates + Repeat(g, 0) == fates;
    } else {
      var before, k := fates + Repeat(g, n - 1), |fates| + n - 1;
      SelectRepeat(closed, fates, g, n - 1, f);
      SelectSnoc(closed, before, g, f);
      assert fates + Repeat(g, n) == before + [g];
      assert closed[|fates|..k + 1] == closed[|fates|..k] + [closed[k]];
    }
  }

  lemma ClosingAccounted(l: Ledger, s: State, capacity: nat, record: Session)
    requires capacity > 0 && Accounted(l, s.queue) && |s.queue| <= capacity && Matches(record, l.current)
    ensures Accounted(Closing(l, s, capacity, record), Push(s.queue, capacity, record))
  {
    var l' := Closing(l, s, capacity, record);
    SelectGrow(l.closed, l'.closed, l.fates, Leaked);
    SelectGrow(l.closed, l'.closed, l.fates, Emitted);
    hide Select, Matches;
    if Leak(s.queue, capacity).Some? {
      SelectSnoc(l'.closed, l.fates, Leaked, Leaked);
      SelectSnoc(l'.closed, l.fates, Leaked, Emitted);
      assert l'.closed[|l.fates|] == s.queue[0];
    }
    forall i | 0 <= i < |l'.closed| ensures Matches(l'.closed[i], l'.calls[i]) {
      if i < |l.closed| { assert l'.closed[i] == l.closed[i] && l'.calls[i] == l.calls[i]; }
    }
  }

  lemma ClosingRecent(l: Ledger, s: State, capacity: nat, record: Session)
    requires capacity > 0 && RecentAgrees(l, s, capacity)
    ensures var l' := Closing(l, s, capacity, record);
            && l'.mark <= |l'.closed| && s.count + 1 == |l'.closed| - l'.mark
            && Push(s.queue, capacity, record) == LastN(l'.closed[l'.mark..], capacity)
  {
    PushKeepsLast(l.closed[l.mark..], capacity, record);
    assert (l.closed + [record])[l.mark..] == l.closed[l.mark..] + [record];
  }

  /** Ending the current session, for whatever reason, keeps the books. */
  lemma EndKeepsInv(l: Ledger, s: State, capacity: nat, reason: DisconnectReason, timestampMs: nat, now: nat)
    requires capacity > 0 && Inv(l, s, capacity) && s.current.Some?
    ensures Inv(Closing(l, s, capacity, Ended(s, reason, timestampMs, now)), End(s, capacity, reason, timestampMs, now), capacity)
  {
    var record := Ended(s, reason, timestampMs, now);
    ClosingAccounted(l, s, capacity, record);
    ClosingRecent(l, s, capacity, record);
  }

  lemma FoldSnoc(ms: seq<M>, m: M)
    ensures Fold(ms + [m]) == Merged(Fold(ms), m)
  {
    assert (ms + [m])[..|ms|] == ms;
  }

  lemma A2dpKeepsInv(l: Ledger, s: State, capacity: nat, m: M, now: nat)
    requires capacity > 0 && Inv(l, s, capacity)
    ensures Inv(Track(l, s, capacity, A2dpOp(m, now)), LogA2dp(s, capacity, m, now), capacity)
  {
    hide Fold, Merged, Select;
    FoldSnoc(l.current, m);
  }

  lemma NothingYet()
    ensures Fold([]) == DEFAULT
  {
  }

  lemma CutoffKeepsInv(l: Ledger, s: State, capacity: nat, endNow: nat, startNow: nat)
    requires capacity > 0 && Inv(l, s, capacity)
    ensures Inv(Cut(l, s, capacity, endNow), Cutoff(s, capacity, endNow, startNow), capacity)
  {
    if s.current.Some? {
      EndKeepsInv(l, s, capacity, MetricsDump, 0, endNow);
      NothingYet();
      hide Fold, Accounted, RecentAgrees;
    }
  }

  lemma DrainAccounted(l: Ledger, output: seq<Session>)
    requires Accounted(l, output)
    ensures Accounted(Drained(l, output), [])
  {
    SelectRepeat(l.closed, l.fates, Emitted, |output|, Leaked);
    SelectRepeat(l.closed, l.fates, Emitted, |output|, Emitted);
    hide Select, Matches;
    assert l.closed[|l.fates|..|l.fates| + |output|] == output;
    assert l.closed[|l.closed|..] == [];
  }

  lemma DumpKeepsInv(l: Ledger, s: State, capacity: nat, endNow: nat, startNow: nat)
    requires capacity > 0 && Inv(l, s, capacity)
    ensures Inv(Track(l, s, capacity, DumpOp(endNow, startNow)), Apply(s, capacity, DumpOp(endNow, startNow)), capacity)
  {
    CutoffKeepsInv(l, s, capacity, endNow, startNow);
    hide Cut, Cutoff, Accounted, Fold, Matches;
    DrainAccounted(Cut(l, s, capacity, endNow), Dumped(s, capacity, endNow, startNow).0);
  }

  /** A dump writes exactly the last sessions closed since the previous dump, and their number. */
  lemma DumpWritesRecent(l: Ledger, s: State, capacity: nat, endNow: nat, startNow: nat)
    requires capacity > 0 && Inv(l, s, capacity)
    ensures var recent := Cut(l, s, capacity, endNow).closed[l.mark..];
            Dumped(s, capacity, endNow, startNow) == (LastN(recent, capacity), |recent|)
  {
    CutoffKeepsInv(l, s, capacity, endNow, startNow);
    hide Accounted, Fold, Matches, Cutoff;
  }

  lemma StepKeepsInv(l: Ledger, s: State, capacity: nat, op: Op)
    requires capacity > 0 && Inv(l, s, capacity)
    ensures Inv(Track(l, s, capacity, op), Apply(s, capacity, op), capacity)
  {
    match op {
      case StartOp(tech, t, endNow, startNow) =>
        if s.current.Some? { EndKeepsInv(l, s, capacity, NextStartWithoutEndPrevious, 0, endNow); }
        hide Fold, Accounted, RecentAgrees, Closing, End;
      case EndOp(reason, t, now) =>
        if s.current.Some? { EndKeepsInv(l, s, capacity, reason, t, now); }
      case DeviceOp(c, t, now) =>
        hide Fold, Accounted, RecentAgrees;
      case A2dpOp(m, now) => A2dpKeepsInv(l, s, capacity, m, now);
      case DumpOp(endNow, startNow) => DumpKeepsInv(l, s, capacity, endNow, startNow);
      case ResetOp =>
    }
  }

  lemma {:induction false} RunKeepsInv(ops: seq<Op>, capacity: nat)
    requires capacity > 0
    ensures Inv(Book(ops, capacity), Run(ops, capacity), capacity)
  {
    if ops != [] {
      RunKeepsInv(ops[..|ops| - 1], capacity);
      hide Inv, Apply, Track;
      StepKeepsInv(Book(ops[..|ops| - 1], capacity), Run(ops[..|ops| - 1], capacity), capacity, ops[|ops| - 1]);
    }
  }

  // ---------------------------------------------------------------------
  // Conservation
  // ---------------------------------------------------------------------

  /** The metrics logged since the last Reset, in order. */
  function AllCalls(ops: seq<Op>): seq<M> {
    if ops == [] then []
    else
      match ops[|ops| - 1]
      case A2dpOp(m, _) => AllCalls(ops[..|ops| - 1]) + [m]
      case ResetOp => []
      case _ => AllCalls(ops[..|ops| - 1])
  }

  function Flatten(xss: seq<seq<M>>): seq<M> {
    if xss == [] then [] else Flatten(xss[..|xss| - 1]) + xss[|xss| - 1]
  }

  lemma FlattenSnoc(xss: seq<seq<M>>, xs: seq<M>)
    ensures Flatten(xss + [xs]) == Flatten(xss) + xs
  {
    assert (xss + [xs])[..|xss|] == xss;
  }

  lemma {:induction false} CallListsAreAll(ops: seq<Op>, capacity: nat)
    requires capacity > 0
    ensures var l := Book(ops, capacity);
            Flatten(l.calls) + l.current == AllCalls(ops)
  {
    if ops != [] {
      var before, op := ops[..|ops| - 1], ops[|ops| - 1];
      CallListsAreAll(before, capacity);
      var l, s := Book(before, capacity), Run(before, capacity);
      FlattenSnoc(l.calls, l.current);
      match op {
        case A2dpOp(m, _) =>
          assert Flatten(l.calls) + (l.current + [m]) == (Flatten(l.calls) + l.current) + [m];
        case _ =>
          assert Flatten(l.calls + [l.current]) + [] == Flatten(l.calls) + l.current;
      }
    }
  }

  /**
    Each logged call lands in exactly one record: the calls made, in order, are
    cut into one list per closed session and one for the current session; the
    record of each is the summary of its own list, and no record is missing,
    since each closed session was leaked, was emitted or is in the queue.
   */
  lemma EveryCallLandsOnce(ops: seq<Op>, capacity: nat)
    requires capacity > 0
    ensures var l, s := Book(ops, capacity), Run(ops, capacity);
            && Flatten(l.calls) + l.current == AllCalls(ops)
            && |l.calls| == |l.closed| == |l.fates| + |s.queue|
            && (forall i :: 0 <= i < |l.closed| ==> Matches(l.closed[i], l.calls[i]))
            && l.leaked == Select(l.closed, l.fates, Leaked)
            && l.emitted == Select(l.closed, l.fates, Emitted)
            && s.queue == l.closed[|l.fates|..]
            && (s.current.None? ==> l.current == [])
            && (s.current.Some? ==> Matches(s.current.value, l.current))
  {
    CallListsAreAll(ops, capacity);
    RunKeepsInv(ops, capacity);
    hide Book, Run, Flatten, AllCalls, Matches, Select;
  }

  /** The audio duration a record reports; an unknown one counts as nothing. */
  function Duration(r: Session): nat {
    match r.a2dp
    case None => 0
    case Some(a) => Max(0, a.audioDurationMs)
  }

  function TotalDuration(rs: seq<Session>): nat {
    if rs == [] then 0 else TotalDuration(rs[..|rs| - 1]) + Duration(rs[|rs| - 1])
  }

  function CurrentDuration(s: State): nat {
    if s.current.None? then 0 else Duration(s.current.value)
  }

  lemma RecordDuration(r: Session, calls: seq<M>)
    requires Matches(r, calls)
    ensures Duration(r) == DurationSum(calls)
  {
    DurationIsSum(calls);
    if forall i :: 0 <= i < |calls| ==> calls[i].audioDurationMs < 0 {
    }
  }

  lemma {:induction false} DurationSumConcat(xs: seq<M>, ys: seq<M>)
    ensures DurationSum(xs + ys) == DurationSum(xs) + DurationSum(ys)
  {
    if ys == [] {
      assert xs + ys == xs;
    } else {
      DurationSumConcat(xs, ys[..|ys| - 1]);
      assert (xs + ys)[..|xs + ys| - 1] == xs + ys[..|ys| - 1];
    }
  }

  lemma {:induction false} ClosedDuration(closed: seq<Session>, calls: seq<seq<M>>)
    requires |closed| == |calls| && forall i :: 0 <= i < |closed| ==> Matches(closed[i], calls[i])
    ensures TotalDuration(closed) == DurationSum(Flatten(calls))
  {
    if closed != [] {
      var n := |closed| - 1;
      ClosedDuration(closed[..n], calls[..n]);
      RecordDuration(closed[n], calls[n]);
      DurationSumConcat(Flatten(calls[..n]), calls[n]);
    }
  }

  lemma {:induction false} TotalDurationConcat(xs: seq<Session>, ys: seq<Session>)
    ensures TotalDuration(xs + ys) == TotalDuration(xs) + TotalDuration(ys)
  {
    if ys == [] {
      assert xs + ys == xs;
    } else {
      TotalDurationConcat(xs, ys[..|ys| - 1]);
      assert (xs + ys)[..|xs + ys| - 1] == xs + ys[..|ys| - 1];
    }
  }

  lemma TotalDurationSnoc(xs: seq<Session>, r: Session)
    ensures TotalDuration(xs + [r]) == TotalDuration(xs) + Duration(r)
  {
    assert (xs + [r])[..|xs|] == xs;
  }

  lemma {:induction false} SettledDuration(closed: seq<Session>, fates: seq<Fate>)
    requires |fates| <= |closed|
    ensures TotalDuration(closed[..|fates|]) ==
            TotalDuration(Select(closed, fates, Leaked)) + TotalDuration(Select(closed, fates, Emitted))
  {
    hide Select, TotalDuration, Duration;
    if fates == [] {
      NothingSettled(closed);
    } else {
      var n := |fates| - 1;
      var before := fates[..n];
      SettledDuration(closed, before);
      SelectSnoc(closed, before, fates[n], Leaked);
      SelectSnoc(closed, before, fates[n], Emitted);
      assert fates == before + [fates[n]];
      assert closed[..|fates|] == closed[..n] + [closed[n]];
      TotalDurationSnoc(closed[..n], closed[n]);
      TotalDurationSnoc(Select(closed, before, fates[n]), closed[n]);
    }
  }

  lemma NothingSettled(closed: seq<Session>)
    ensures TotalDuration(closed[..0]) == 0
    ensures TotalDuration(Select(closed, [], Leaked)) == 0 && TotalDuration(Select(closed, [], Emitted)) == 0
  {
  }

  lemma NoDuration()
    ensures DurationSum([]) == 0
  {
  }

  lemma ClosedBalance(l: Ledger, queue: seq<Session>)
    requires Accounted(l, queue)
    ensures TotalDuration(l.emitted) + TotalDuration(l.leaked) + TotalDuration(queue) == DurationSum(Flatten(l.calls))
  {
    hide Select, Matches, TotalDuration, DurationSum, Flatten;
    ClosedDuration(l.closed, l.calls);
    SettledDuration(l.closed, l.fates);
    var n := |l.fates|;
    TotalDurationConcat(l.closed[..n], l.closed[n..]);
    assert l.closed[..n] + l.closed[n..] == l.closed;
  }

  lemma CurrentBalance(l: Ledger, s: State)
    requires CurrentAgrees(l, s)
    ensures CurrentDuration(s) == DurationSum(l.current)
    ensures s.current.None? ==> s.metrics == DEFAULT
  {
    NothingYet();
    NoDuration();
    hide Fold, DurationSum;
    if s.current.Some? {
      RecordDuration(s.current.value, l.current);
    }
  }

  /**
    Over any run, the audio durations of the emitted, leaked, queued and
    current records add up to all the non-negative durations logged since the
    last Reset; and without a current session the accumulator is the default.
   */
  lemma DurationIsConserved(ops: seq<Op>, capacity: nat)
    requires capacity > 0
    ensures var l, s := Book(ops, capacity), Run(ops, capacity);
            && TotalDuration(l.emitted) + TotalDuration(l.leaked) + TotalDuration(s.queue) + CurrentDuration(s)
               == DurationSum(AllCalls(ops))
            && (s.current.None? ==> s.metrics == DEFAULT)
  {
    hide Book, Run, AllCalls, Accounted, CurrentAgrees, TotalDuration, DurationSum, Flatten, CurrentDuration;
    var l, s := Book(ops, capacity), Run(ops, capacity);
    RunKeepsInv(ops, capacity);
    EveryCallLandsOnce(ops, capacity);
    ClosedBalance(l, s.queue);
    CurrentBalance(l, s);
    DurationSumConcat(Flatten(l.calls), l.current);
  }

  /** Dumps write the last sessions closed since the previous dump, whatever happened before. */
  lemma DumpAfterRun(ops: seq<Op>, capacity: nat, endNow: nat, startNow: nat)
    requires capacity > 0
    ensures var l, s := Book(ops, capacity), Run(ops, capacity);
            var closed := Cut(l, s, capacity, endNow).closed;
            && l.mark <= |closed|
            && var recent := closed[l.mark..];
            Dumped(s, capacity, endNow, startNow) == (LastN(recent, capacity), |recent|)
  {
    RunKeepsInv(ops, capacity);
    DumpWritesRecent(Book(ops, capacity), Run(ops, capacity), capacity, endNow, startNow);
  }

  // ---------------------------------------------------------------------
  // What a record says
  // ---------------------------------------------------------------------

  /** The media timer of a record: the extremes over its calls, and an average that only truncates. */
  lemma RecordSummarises(r: Session, calls: seq<M>)
    requires Matches(r, calls) && calls != []
    ensures r.a2dp.Some?
    ensures forall i :: 0 <= i < |calls| && calls[i].mediaTimerMinMs >= 0 ==>
              0 <= r.a2dp.value.mediaTimerMinMs <= calls[i].mediaTimerMinMs
    ensures forall i :: 0 <= i < |calls| && calls[i].mediaTimerMaxMs >= 0 ==>
              r.a2dp.value.mediaTimerMaxMs >= calls[i].mediaTimerMaxMs
    ensures r.a2dp.value.mediaTimerMinMs == -1 ||
            exists i :: 0 <= i < |calls| && calls[i].mediaTimerMinMs == r.a2dp.value.mediaTimerMinMs
    ensures r.a2dp.value.mediaTimerMaxMs == -1 ||
            exists i :: 0 <= i < |calls| && calls[i].mediaTimerMaxMs == r.a2dp.value.mediaTimerMaxMs
    ensures Samples(calls) == 0 ==> r.a2dp.value.mediaTimerAvgMs == -1
    ensures Samples(calls) > 0 ==>
              WeightedSum(calls) == r.a2dp.value.mediaTimerAvgMs * TotalCount(calls) + Loss(calls)
  {
    MediaTimerExtremes(calls);
    AverageLoses(calls);
    hide Fold, WeightedSum, TotalCount, Samples, Loss;
  }

  /** The codecs by their index; an index beyond the last is an unknown codec. */
  predicate HasIndex(codec: Codec, index: nat) {
    && (codec == Sbc <==> index == 0) && (codec == Aac <==> index == 1) && (codec == Aptx <==> index == 2)
    && (codec == AptxHd <==> index == 3) && (codec == Ldac <==> index == 4) && (codec == CodecUnknown <==> index > 4)
  }

  /** The buffers, the codec and the offload flag of a record. */
  lemma RecordSummarisesBuffers(r: Session, calls: seq<M>)
    requires Matches(r, calls) && calls != []
    ensures r.a2dp.Some?
    ensures Max(0, r.a2dp.value.bufferOverrunsTotal) == OverrunSum(calls)
    ensures r.a2dp.value.bufferOverrunsMaxCount == -1 ||
            exists i :: 0 <= i < |calls| && calls[i].bufferOverrunsMaxCount == r.a2dp.value.bufferOverrunsMaxCount >= 0
    ensures forall i :: 0 <= i < |calls| ==>
              calls[i].bufferOverrunsMaxCount < 0 || calls[i].bufferOverrunsMaxCount <= r.a2dp.value.bufferOverrunsMaxCount
    ensures !AnyUnderruns(calls) ==> r.a2dp.value.bufferUnderrunsAverage == -1.0 && r.a2dp.value.bufferUnderrunsCount == -1
    ensures AnyUnderruns(calls) ==>
              ExactMean(r.a2dp.value.bufferUnderrunsAverage, r.a2dp.value.bufferUnderrunsCount,
                        UnderrunCount(calls), UnderrunSum(calls))
    ensures forall i :: 0 <= i < |calls| && calls[i].codecIndex >= 0 && (forall j :: 0 <= j < i ==> calls[j].codecIndex < 0) ==>
              HasIndex(r.a2dp.value.codec, calls[i].codecIndex)
    ensures (forall i :: 0 <= i < |calls| ==> calls[i].codecIndex < 0) ==> r.a2dp.value.codec == CodecUnknown
    ensures r.a2dp.value.isA2dpOffload <==> exists i :: 0 <= i < |calls| && calls[i].isA2dpOffload
  {
    OverrunsMerged(calls);
    UnderrunAverageIsExact(calls);
    CodecAndOffload(calls);
    hide Fold, OverrunSum, UnderrunCount, UnderrunSum, ExactMean, AnyUnderruns;
  }

  /** Device information is recorded with the type it was given with if and only if that is BR/EDR. */
  lemma DeviceTypeIsRecordedIff(s: State, capacity: nat, deviceClass: nat, deviceType: DeviceType, now: nat)
    requires capacity > 0
    ensures var t := LogDevice(s, capacity, deviceClass, deviceType, now);
            && t.current.Some? && t.current.value.device.Some?
            && t.current.value.device.value.deviceClass == deviceClass
            && (t.current.value.device.value.deviceType == deviceType <==> deviceType == DeviceBrEdr)
  {
  }

  /** A duration in seconds is the elapsed time rounded down, unless the end comes before the start. */
  lemma DurationIsElapsed(startMs: nat, endMs: nat)
    requires startMs < TWO_TO_THE_64 && endMs < TWO_TO_THE_64
    ensures var elapsed := if endMs >= startMs then endMs - startMs else TWO_TO_THE_64 - (startMs - endMs);
            1000 * DurationSec(startMs, endMs) <= elapsed < 1000 * DurationSec(startMs, endMs) + 1000
  {
  }

  /** A dump splits the current session: what was logged goes out, the connection goes on without it. */
  lemma CutoffSplits(s: State, capacity: nat, endNow: nat, startNow: nat)
    requires capacity > 0 && s.current.Some? && |s.queue| <= capacity
    ensures var t := Cutoff(s, capacity, endNow, startNow);
            && t.queue != [] && t.current.Some?
            && var (out, rest) := (t.queue[|t.queue| - 1], t.current.value);
            && out.a2dp == s.current.value.a2dp && out.reason == MetricsDump
            && out.durationSec == DurationSec(s.startMs, endNow)
            && out.tech == rest.tech == s.current.value.tech && out.device == rest.device == s.current.value.device
            && rest.a2dp.None? && rest.reason == s.current.value.reason
            && t.startMs == startNow && t.metrics == DEFAULT && t.count == s.count + 1
  {
  }

  /** Metrics logged without a session open one, and are the first thing in it. */
  lemma A2dpOpensSession(s: State, capacity: nat, m: M, now: nat)
    requires capacity > 0 && s.current.None? && s.metrics == DEFAULT
    ensures var t := LogA2dp(s, capacity, m, now);
            && t.current.Some? && Matches(t.current.value, [m])
            && t.current.value.tech == TechBrEdr
            && t.current.value.device == Some(DeviceInfo(MAJOR_AUDIO_CLASS, DeviceBrEdr))
            && t.startMs == now && t.queue == s.queue && t.count == s.count
  {
    FoldSnoc([], m);
    assert [] + [m] == [m];
  }
}
