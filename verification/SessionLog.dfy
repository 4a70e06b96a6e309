/**
  Bluetooth sessions in the metrics logger: started, ended, created implicitly
  and split by dumps, with A2DP metrics accumulated into the current one.
 */
module SessionLog {
  import opened Options
  import opened LeakyQueue
  import opened A2dpMetrics
  import opened Arithmetic

  const MAJOR_AUDIO_CLASS: nat := 0x04

  datatype ConnectionTech = TechUnknown | TechLe | TechBrEdr
  datatype DisconnectReason = ReasonUnknown | MetricsDump | NextStartWithoutEndPrevious
  datatype DeviceType = DeviceUnknown | DeviceBrEdr | DeviceLe | DeviceDual
  datatype DeviceInfo = DeviceInfo(deviceClass: nat, deviceType: DeviceType)
  datatype Codec = CodecUnknown | Sbc | Aac | Aptx | AptxHd | Ldac

  function SourceCodec(index: int): Codec {
    if index == 0 then Sbc else if index == 1 then Aac else if index == 2 then Aptx
    else if index == 3 then AptxHd else if index == 4 then Ldac else CodecUnknown
  }

  datatype A2dpRecord = A2dpRecord(
    audioDurationMs: int, mediaTimerMinMs: int, mediaTimerMaxMs: int, mediaTimerAvgMs: int,
    bufferOverrunsMaxCount: int, bufferOverrunsTotal: int,
    bufferUnderrunsAverage: real, bufferUnderrunsCount: int,
    codec: Codec, isA2dpOffload: bool)

  /** What a session record says of the accumulated metrics. */
  function Report(m: M): A2dpRecord {
    A2dpRecord(m.audioDurationMs, m.mediaTimerMinMs, m.mediaTimerMaxMs, m.mediaTimerAvgMs,
               m.bufferOverrunsMaxCount, m.bufferOverrunsTotal,
               m.bufferUnderrunsAverage, m.bufferUnderrunsCount,
               SourceCodec(m.codecIndex), m.isA2dpOffload)
  }

  datatype Session = Session(
    tech: ConnectionTech, durationSec: int, reason: DisconnectReason,
    device: Option<DeviceInfo>, a2dp: Option<A2dpRecord>)

  datatype State = State(
    current: Option<Session>,
    startMs: nat,
    metrics: M,
    queue: seq<Session>,
    count: nat)            // sessions queued since the log was last cleared

  const INIT := State(None, 0, DEFAULT, [], 0)

  // ---------------------------------------------------------------------
  // Operations.  A timestamp of 0 means now; the clock is a parameter.
  // ---------------------------------------------------------------------

  function Timestamp(timestampMs: nat, now: nat): nat {
    if timestampMs == 0 then now else timestampMs
  }

  /** Seconds between two unsigned 64-bit times, wrapping when the end comes first. */
  function DurationSec(startMs: nat, endMs: nat): nat {
    ((endMs - startMs) % TWO_TO_THE_64) / 1000
  }

  function Ended(s: State, reason: DisconnectReason, timestampMs: nat, now: nat): Session
    requires s.current.Some?
  {
    s.current.value.(durationSec := DurationSec(s.startMs, Timestamp(timestampMs, now)), reason := reason)
  }

  function End(s: State, capacity: nat, reason: DisconnectReason, timestampMs: nat, now: nat): State
    requires capacity > 0
  {
    if s.current.None? then s
    else State(None, s.startMs, DEFAULT, Push(s.queue, capacity, Ended(s, reason, timestampMs, now)), s.count + 1)
  }

  function Start(s: State, capacity: nat, tech: ConnectionTech, timestampMs: nat, endNow: nat, startNow: nat): State
    requires capacity > 0
  {
    End(s, capacity, NextStartWithoutEndPrevious, 0, endNow).(
      startMs := Timestamp(timestampMs, startNow),
      current := Some(Session(tech, 0, ReasonUnknown, None, None)))
  }

  /** The device type passed in is not looked at. */
  function SetDevice(s: State, deviceClass: nat, deviceType: DeviceType): State
    requires s.current.Some?
  {
    s.(current := Some(s.current.value.(device := Some(DeviceInfo(deviceClass, DeviceBrEdr)))))
  }

  function LogDevice(s: State, capacity: nat, deviceClass: nat, deviceType: DeviceType, now: nat): State
    requires capacity > 0
  {
    SetDevice(if s.current.None? then Start(s, capacity, TechUnknown, 0, now, now) else s, deviceClass, deviceType)
  }

  function LogA2dp(s: State, capacity: nat, m: M, now: nat): State
    requires capacity > 0
  {
    var t :=
      if s.current.None?
      then LogDevice(Start(s, capacity, TechBrEdr, 0, now, now), capacity, MAJOR_AUDIO_CLASS, DeviceBrEdr, now)
      else s;
    var metrics := Merged(t.metrics, m);
    t.(metrics := metrics, current := Some(t.current.value.(a2dp := Some(Report(metrics)))))
  }

  /** Split the current session in two; the second half keeps the connection but no A2DP data. */
  function Cutoff(s: State, capacity: nat, endNow: nat, startNow: nat): State
    requires capacity > 0
  {
    if s.current.None? then s
    else
      End(s, capacity, MetricsDump, 0, endNow).(
        current := Some(s.current.value.(a2dp := None)), startMs := startNow, metrics := DEFAULT)
  }

  function Reset(s: State): State {
    State(None, 0, DEFAULT, [], 0)
  }

  datatype Op =
    | StartOp(tech: ConnectionTech, timestampMs: nat, endNow: nat, startNow: nat)
    | EndOp(reason: DisconnectReason, timestampMs: nat, now: nat)
    | DeviceOp(deviceClass: nat, deviceType: DeviceType, now: nat)
    | A2dpOp(metrics: M, now: nat)
    | DumpOp(endNow: nat, startNow: nat)
    | ResetOp

  function Apply(s: State, capacity: nat, op: Op): State
    requires capacity > 0
  {
    match op
    case StartOp(tech, t, endNow, startNow) => Start(s, capacity, tech, t, endNow, startNow)
    case EndOp(reason, t, now) => End(s, capacity, reason, t, now)
    case DeviceOp(c, t, now) => LogDevice(s, capacity, c, t, now)
    case A2dpOp(m, now) => LogA2dp(s, capacity, m, now)
    case DumpOp(endNow, startNow) => Cutoff(s, capacity, endNow, startNow).(queue := [], count := 0)
    case ResetOp => Reset(s)
  }

  /** The sessions a dump writes, and the counter it writes with them. */
  function Dumped(s: State, capacity: nat, endNow: nat, startNow: nat): (seq<Session>, nat)
    requires capacity > 0
  {
    var t := Cutoff(s, capacity, endNow, startNow);
    (t.queue, t.count)
  }

  function Run(ops: seq<Op>, capacity: nat): State
    requires capacity > 0
  {
    if ops == [] then INIT else Apply(Run(ops[..|ops| - 1], capacity), capacity, ops[|ops| - 1])
  }
}
