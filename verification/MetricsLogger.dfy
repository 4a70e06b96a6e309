/** The metrics logger object, its calls taken one at a time, proved against MetricsLog. */
module MetricsLogger {
  import opened Options
  import opened LeakyQueue
  import A = A2dpMetrics
  import S = SessionLog
  import opened MetricsLog

  /** Empty a queue into a list of the log, as each loop of `Build` does. */
  method Drain<T>(q: LeakyBondedQueue<T>) returns (entries: seq<T>)
    requires q.Valid()
    modifies q
    ensures q.Valid() && q.queue == [] && entries == old(q.queue)
  {
    entries := [];
    while !q.Empty() && |entries| <= q.capacity
      invariant q.Valid() && entries + q.queue == old(q.queue)
      decreases |q.queue|
    {
      var front := q.Dequeue();
      entries := entries + [front.item];
    }
  }

  /**
    The last loop of `Build` takes wake events while sessions are queued.  It
    meets an empty queue if and only if there is a session left and there are
    too few wake events to take the log over their capacity.
   */
  method DrainWakes(sessions: LeakyBondedQueue<S.Session>, wakes: LeakyBondedQueue<WakeEvent>, entries: seq<WakeEvent>)
    returns (all: seq<WakeEvent>, defined: bool)
    requires wakes.Valid() && sessions as object != wakes
    modifies wakes
    ensures defined <==> sessions.queue == [] || |old(wakes.queue)| > wakes.capacity - |entries|
    ensures defined ==> wakes.Valid() && all + wakes.queue == entries + old(wakes.queue)
    ensures sessions.queue == [] ==> all == entries
  {
    all := entries;
    while !sessions.Empty() && |all| <= wakes.capacity
      invariant wakes.Valid() && all + wakes.queue == entries + old(wakes.queue)
      invariant |all| <= wakes.capacity + 1 || all == entries
      invariant sessions.queue == [] ==> all == entries
      decreases wakes.capacity + 1 - |all|
    {
      var front := wakes.Dequeue();
      if front.Undefined? {
        return all, false;
      }
      all := all + [front.item];
    }
    defined := true;
  }

  class BluetoothMetricsLogger {
    const sessionQueue: LeakyBondedQueue<S.Session>
    const pairQueue: LeakyBondedQueue<PairEvent>
    const wakeQueue: LeakyBondedQueue<WakeEvent>
    const scanQueue: LeakyBondedQueue<ScanEvent>
    var log: BluetoothLog
    var headset: array<nat>
    var session: Option<S.Session>
    var sessionStartMs: nat
    var metrics: A.M

    ghost predicate Valid()
      reads this, sessionQueue, pairQueue, wakeQueue, scanQueue
    {
      && sessionQueue.Valid() && pairQueue.Valid() && wakeQueue.Valid() && scanQueue.Valid()
      && {sessionQueue as object} !! {pairQueue as object} !! {wakeQueue as object} !! {scanQueue as object}
      && headset.Length == PROFILES
      && log.sessions == [] && log.pairs == [] && log.wakes == [] && log.scans == [] && log.headset == []
    }

    ghost function Limits(): Caps {
      Caps(sessionQueue.capacity, pairQueue.capacity, wakeQueue.capacity, scanQueue.capacity)
    }

    ghost function Value(): State
      reads this, sessionQueue, pairQueue, wakeQueue, scanQueue, headset
    {
      State(S.State(session, sessionStartMs, metrics, sessionQueue.queue, log.numSessions),
            Channel(pairQueue.queue, log.numPairs),
            Channel(wakeQueue.queue, log.numWakes),
            Channel(scanQueue.queue, log.numScans),
            headset[..])
    }

    constructor (caps: Caps)
      requires caps.Valid()
      ensures Valid() && Limits() == caps && Value() == INIT
    {
      sessionQueue := new LeakyBondedQueue(caps.sessions);
      pairQueue := new LeakyBondedQueue(caps.pairs);
      wakeQueue := new LeakyBondedQueue(caps.wakes);
      scanQueue := new LeakyBondedQueue(caps.scans);
      log := BluetoothLog([], 0, [], 0, [], 0, [], 0, []);
      headset := new nat[] [0, 0, 0];
      session, sessionStartMs, metrics := None, 0, A.DEFAULT;
    }

    // -------------------------------------------------------------------
    // Events
    // -------------------------------------------------------------------

    method LogPairEvent(e: PairEvent)
      requires Valid()
      modifies this`log, pairQueue
      ensures Valid() && Value() == Apply(old(Value()), Limits(), PairOp(e))
    {
      pairQueue.Enqueue(e);
      log := log.(numPairs := log.numPairs + 1);
    }

    method LogWakeEvent(e: WakeEvent)
      requires Valid()
      modifies this`log, wakeQueue
      ensures Valid() && Value() == Apply(old(Value()), Limits(), WakeOp(e))
    {
      wakeQueue.Enqueue(e);
      log := log.(numWakes := log.numWakes + 1);
    }

    method LogScanEvent(e: ScanEvent)
      requires Valid()
      modifies this`log, scanQueue
      ensures Valid() && Value() == Apply(old(Value()), Limits(), ScanOp(e))
    {
      scanQueue.Enqueue(e);
      log := log.(numScans := log.numScans + 1);
    }

    method LogHeadsetProfileRfcConnection(service: nat)
      requires Valid()
      modifies headset
      ensures Valid() && Value() == Apply(old(Value()), Limits(), HeadsetOp(service))
    {
      var p := Profile(service);
      headset[p] := headset[p] + 1;
      assert headset[..] == HeadsetAfter(old(headset[..]), HeadsetOp(service));
    }

    // -------------------------------------------------------------------
    // Sessions
    // -------------------------------------------------------------------

    method LogBluetoothSessionEnd(reason: S.DisconnectReason, timestampMs: nat, now: nat)
      requires Valid()
      modifies this`log, this`session, this`metrics, sessionQueue
      ensures Valid() && Value() == Apply(old(Value()), Limits(), EndOp(reason, timestampMs, now))
    {
      if session.None? {
        return;
      }
      var end := if timestampMs == 0 then now else timestampMs;
      var ended := session.value.(durationSec := S.DurationSec(sessionStartMs, end));
      ended := ended.(reason := reason);
      sessionQueue.Enqueue(ended);
      session := None;
      metrics := A.DEFAULT;
      log := log.(numSessions := log.numSessions + 1);
    }

    method LogBluetoothSessionStart(tech: S.ConnectionTech, timestampMs: nat, endNow: nat, startNow: nat)
      requires Valid()
      modifies this`log, this`session, this`sessionStartMs, this`metrics, sessionQueue
      ensures Valid() && Value() == Apply(old(Value()), Limits(), StartOp(tech, timestampMs, endNow, startNow))
    {
      if session.Some? {
        LogBluetoothSessionEnd(S.NextStartWithoutEndPrevious, 0, endNow);
      }
      sessionStartMs := if timestampMs == 0 then startNow else timestampMs;
      session := Some(S.Session(tech, 0, S.ReasonUnknown, None, None));
    }

    method LogBluetoothSessionDeviceInfo(deviceClass: nat, deviceType: S.DeviceType, now: nat)
      requires Valid()
      modifies this`log, this`session, this`sessionStartMs, this`metrics, sessionQueue
      ensures Valid() && Value() == Apply(old(Value()), Limits(), DeviceOp(deviceClass, deviceType, now))
    {
      if session.None? {
        LogBluetoothSessionStart(S.TechUnknown, 0, now, now);
      }
      session := Some(session.value.(device := Some(S.DeviceInfo(deviceClass, S.DeviceBrEdr))));
    }

    method LogA2dpSession(m: A.M, now: nat)
      requires Valid()
      modifies this`log, this`session, this`sessionStartMs, this`metrics, sessionQueue
      ensures Valid() && Value() == Apply(old(Value()), Limits(), A2dpOp(m, now))
    {
      if session.None? {
        LogBluetoothSessionStart(S.TechBrEdr, 0, now, now);
        LogBluetoothSessionDeviceInfo(S.MAJOR_AUDIO_CLASS, S.DeviceBrEdr, now);
      }
      metrics := A.Update(metrics, m);
      session := Some(session.value.(a2dp := Some(S.Report(metrics))));
    }

    method CutoffSession(endNow: nat, startNow: nat)
      requires Valid()
      modifies this`log, this`session, this`sessionStartMs, this`metrics, sessionQueue
      ensures Valid()
      ensures Value() == old(Value()).(sessions := S.Cutoff(old(Value()).sessions, Limits().sessions, endNow, startNow))
    {
      if session.Some? {
        var rest := session.value.(a2dp := None);
        LogBluetoothSessionEnd(S.MetricsDump, 0, endNow);
        session := Some(rest);
        sessionStartMs := startNow;
        metrics := A.DEFAULT;
      }
    }

    // -------------------------------------------------------------------
    // Dumping
    // -------------------------------------------------------------------

    /** The loop over the headset counters. */
    method BuildHeadset() returns (stats: seq<(nat, nat)>)
      requires headset.Length == PROFILES
      modifies headset
      ensures stats == HeadsetStats(old(headset[..])) && headset[..] == [0, 0, 0]
    {
      stats := [];
      for i := 0 to headset.Length
        invariant headset[..] == old(headset[..]) && stats == HeadsetStats(headset[..i])
      {
        assert headset[..i + 1][..i] == headset[..i];
        if headset[i] > 0 {
          stats := stats + [(i, headset[i])];
        }
      }
      assert headset[..headset.Length] == headset[..];
      headset[0], headset[1], headset[2] := 0, 0, 0;
    }

    method Build(endNow: nat, startNow: nat)
      requires Valid()
      modifies this, sessionQueue, pairQueue, wakeQueue, scanQueue, headset
      ensures log == Dump(old(Value()), Limits(), endNow, startNow)
      ensures sessionQueue.Valid() && pairQueue.Valid() && wakeQueue.Valid() && scanQueue.Valid()
      ensures headset == old(headset)
      ensures Value() == Apply(old(Value()), Limits(), DumpOp(endNow, startNow)).(
                           sessions := Value().sessions, pairs := Channel([], log.numPairs),
                           wakes := Channel([], log.numWakes), scans := Channel([], log.numScans))
      ensures Value().sessions.(count := 0) ==
              S.Apply(old(Value()).sessions, Limits().sessions, S.DumpOp(endNow, startNow))
    {
      CutoffSession(endNow, startNow);
      var sessions := Drain(sessionQueue);
      var pairs := Drain(pairQueue);
      var scans := Drain(scanQueue);
      var wakes := Drain(wakeQueue);
      var defined: bool;
      wakes, defined := DrainWakes(sessionQueue, wakeQueue, wakes);
      assert defined;
      var stats := BuildHeadset();
      log := log.(sessions := sessions, pairs := pairs, scans := scans, wakes := wakes, headset := stats);
    }

    /** Build the log, hand it out and clear it. */
    method WriteString(endNow: nat, startNow: nat) returns (serialized: BluetoothLog)
      requires Valid()
      modifies this, sessionQueue, pairQueue, wakeQueue, scanQueue, headset
      ensures Valid() && Value() == Apply(old(Value()), Limits(), DumpOp(endNow, startNow))
      ensures serialized == Dump(old(Value()), Limits(), endNow, startNow)
    {
      Build(endNow, startNow);
      serialized := log;
      log := BluetoothLog([], 0, [], 0, [], 0, [], 0, []);
    }

    method Reset()
      requires Valid()
      modifies this, sessionQueue, pairQueue, wakeQueue, scanQueue
      ensures Valid() && Value() == Apply(old(Value()), Limits(), ResetOp) && headset == old(headset)
    {
      session, sessionStartMs, metrics := None, 0, A.DEFAULT;
      log := BluetoothLog([], 0, [], 0, [], 0, [], 0, []);
      sessionQueue.Clear();
      pairQueue.Clear();
      wakeQueue.Clear();
      scanQueue.Clear();
    }
  }
}
