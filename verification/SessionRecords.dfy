/**
  What a session record says of the calls that made it, from the start of the
  session to its end, whatever happened before.
 */
module SessionRecords {
  import opened Options
  import opened LeakyQueue
  import opened A2dpMetrics
  import opened Arithmetic
  import opened SessionLog
  import opened SessionLedger

  /** A run that goes on from any state. */
  function RunFrom(s: State, capacity: nat, ops: seq<Op>): State
    requires capacity > 0
  {
    if ops == [] then s else Apply(RunFrom(s, capacity, ops[..|ops| - 1]), capacity, ops[|ops| - 1])
  }

  /** Calls that add to a session but neither start nor end one. */
  predicate Adds(ops: seq<Op>) {
    forall i :: 0 <= i < |ops| ==> ops[i].DeviceOp? || ops[i].A2dpOp?
  }

  /** The metrics logged by these calls, in order. */
  function Metrics(ops: seq<Op>): seq<M> {
    if ops == [] then []
    else
      var op := ops[|ops| - 1];
      Metrics(ops[..|ops| - 1]) + if op.A2dpOp? then [op.metrics] else []
  }

  /** The class given with the last device information. */
  function LastDeviceClass(ops: seq<Op>): Option<nat> {
    if ops == [] then None
    else if ops[|ops| - 1].DeviceOp? then Some(ops[|ops| - 1].deviceClass)
    else LastDeviceClass(ops[..|ops| - 1])
  }

  /** A record of a session with this technology to which these calls were added. */
  ghost predicate Describes(r: Session, tech: ConnectionTech, ops: seq<Op>) {
    && r.tech == tech && Matches(r, Metrics(ops))
    && (LastDeviceClass(ops).None? ==> r.device.None?)
    && (LastDeviceClass(ops).Some? ==> r.device == Some(DeviceInfo(LastDeviceClass(ops).value, DeviceBrEdr)))
  }

  /** The session that is open, since when, and what it has accumulated. */
  ghost predicate Open(s: State, tech: ConnectionTech, startMs: nat, ops: seq<Op>) {
    && s.current.Some? && Describes(s.current.value, tech, ops)
    && s.startMs == startMs && s.metrics == Fold(Metrics(ops))
  }

  lemma AddKeepsOpen(s: State, capacity: nat, tech: ConnectionTech, startMs: nat, ops: seq<Op>, op: Op)
    requires capacity > 0 && Open(s, tech, startMs, ops) && (op.DeviceOp? || op.A2dpOp?)
    ensures var t := Apply(s, capacity, op);
            Open(t, tech, startMs, ops + [op]) && t.queue == s.queue && t.count == s.count
  {
    assert (ops + [op])[..|ops|] == ops;
    if op.A2dpOp? {
      FoldSnoc(Metrics(ops), op.metrics);
    } else {
      assert Metrics(ops) + [] == Metrics(ops);
    }
    hide Fold, Merged, Report;
  }

  lemma {:induction false} AddsKeepOpen(s: State, capacity: nat, tech: ConnectionTech, startMs: nat, ops: seq<Op>)
    requires capacity > 0 && Open(s, tech, startMs, []) && Adds(ops)
    ensures var t := RunFrom(s, capacity, ops);
            Open(t, tech, startMs, ops) && t.queue == s.queue && t.count == s.count
  {
    if ops != [] {
      var before, op := ops[..|ops| - 1], ops[|ops| - 1];
      assert ops[|ops| - 1].DeviceOp? || ops[|ops| - 1].A2dpOp?;
      assert Adds(before) && before + [op] == ops;
      AddsKeepOpen(s, capacity, tech, startMs, before);
      hide Open, Apply;
      AddKeepsOpen(RunFrom(s, capacity, before), capacity, tech, startMs, before, op);
    }
  }

  /** A duration in whole seconds, of 64-bit milliseconds. */
  predicate WholeSeconds(seconds: int, fromMs: nat, toMs: nat) {
    var elapsed := (toMs - fromMs) % TWO_TO_THE_64;
    1000 * seconds <= elapsed < 1000 * seconds + 1000
  }

  /**
    A session from its start to its end, after any history and with any calls
    that add to it: one record is queued, with the technology of the start, the
    reason of the end, the device and the metrics of the calls between, and the
    whole seconds from the one timestamp to the other.  A timestamp of zero
    stands for the clock.
   */
  lemma SessionIsRecorded(history: seq<Op>, capacity: nat, start: Op, adds: seq<Op>, end: Op)
    requires capacity > 0 && start.StartOp? && Adds(adds) && end.EndOp?
    ensures var begun := Apply(Run(history, capacity), capacity, start);
            var ended := Apply(RunFrom(begun, capacity, adds), capacity, end);
            var startMs := if start.timestampMs == 0 then start.startNow else start.timestampMs;
            var endMs := if end.timestampMs == 0 then end.now else end.timestampMs;
            && ended.current.None? && ended.metrics == DEFAULT && ended.count == begun.count + 1 && ended.queue != []
            && var r := ended.queue[|ended.queue| - 1];
            && Describes(r, start.tech, adds) && r.reason == end.reason && WholeSeconds(r.durationSec, startMs, endMs)
            && ended.queue == Push(begun.queue, capacity, r)
  {
    var s := Run(history, capacity);
    RunKeepsInv(history, capacity);
    NoSessionNoMetrics(Book(history, capacity), s, capacity);
    StartOpens(s, capacity, start);
    var begun := Apply(s, capacity, start);
    hide Run, Book;
    AddsKeepOpen(begun, capacity, start.tech, if start.timestampMs == 0 then start.startNow else start.timestampMs, adds);
    EndRecords(RunFrom(begun, capacity, adds), capacity, end);
  }

  lemma NoSessionNoMetrics(l: Ledger, s: State, capacity: nat)
    requires Inv(l, s, capacity)
    ensures s.current.None? ==> s.metrics == DEFAULT
  {
    hide Accounted, RecentAgrees;
  }

  lemma StartOpens(s: State, capacity: nat, start: Op)
    requires capacity > 0 && start.StartOp? && (s.current.None? ==> s.metrics == DEFAULT)
    ensures Open(Apply(s, capacity, start), start.tech,
                 if start.timestampMs == 0 then start.startNow else start.timestampMs, [])
  {
  }

  lemma EndRecords(s: State, capacity: nat, end: Op)
    requires capacity > 0 && end.EndOp? && s.current.Some?
    ensures var t := Apply(s, capacity, end);
            var endMs := if end.timestampMs == 0 then end.now else end.timestampMs;
            && t.current.None? && t.metrics == DEFAULT && t.count == s.count + 1 && t.queue != []
            && var r := t.queue[|t.queue| - 1];
            && t.queue == Push(s.queue, capacity, r)
            && r.tech == s.current.value.tech && r.device == s.current.value.device && r.a2dp == s.current.value.a2dp
            && r.reason == end.reason && WholeSeconds(r.durationSec, s.startMs, endMs)
  {
  }

  /** A start while a session is open first records that one, as cut short by the next start. */
  lemma StartClosesOpenSession(s: State, capacity: nat, start: Op)
    requires capacity > 0 && start.StartOp? && s.current.Some?
    ensures var t := Apply(s, capacity, start);
            && t.count == s.count + 1 && t.queue != []
            && var r := t.queue[|t.queue| - 1];
            && t.queue == Push(s.queue, capacity, r)
            && r.tech == s.current.value.tech && r.device == s.current.value.device && r.a2dp == s.current.value.a2dp
            && r.reason == NextStartWithoutEndPrevious && WholeSeconds(r.durationSec, s.startMs, start.endNow)
  {
  }

  /** Without an open session a start records nothing, and an end or a cut-off does nothing. */
  lemma NothingToClose(s: State, capacity: nat, start: Op, end: Op, endNow: nat, startNow: nat)
    requires capacity > 0 && s.current.None? && start.StartOp? && end.EndOp?
    ensures Apply(s, capacity, start).queue == s.queue && Apply(s, capacity, start).count == s.count
    ensures Apply(s, capacity, end) == s && Cutoff(s, capacity, endNow, startNow) == s
  {
  }

  /** Device information without a session opens one of unknown technology; with one it changes nothing else. */
  lemma DeviceOpensSession(s: State, capacity: nat, deviceClass: nat, deviceType: DeviceType, now: nat)
    requires capacity > 0
    ensures var t := Apply(s, capacity, DeviceOp(deviceClass, deviceType, now));
            && t.queue == s.queue && t.count == s.count && t.metrics == s.metrics && t.current.Some?
            && (s.current.None? ==>
                  && t.startMs == now && t.current.value.tech == TechUnknown && t.current.value.a2dp.None?
                  && t.current.value.reason == ReasonUnknown)
            && (s.current.Some? ==>
                  && t.startMs == s.startMs && t.current.value.tech == s.current.value.tech
                  && t.current.value.a2dp == s.current.value.a2dp && t.current.value.reason == s.current.value.reason)
  {
  }

  /** After a Reset nothing is left, as if nothing had been logged. */
  lemma ResetStartsOver(history: seq<Op>, capacity: nat)
    requires capacity > 0
    ensures Run(history + [ResetOp], capacity) == Run([], capacity)
  {
    assert (history + [ResetOp])[..|history|] == history;
  }
}
