/**
  The metrics logger as a state machine on values: the sessions of SessionLog,
  three leaking event channels, and the headset connection counters.
 */
module MetricsLog {
  import opened Options
  import opened LeakyQueue
  import opened A2dpMetrics
  import S = SessionLog
  import L = SessionLedger

  datatype WakeType = WakeUnknown | WakeAcquired | WakeReleased
  datatype ScanTech = ScanUnknown | ScanLe | ScanBrEdr | ScanBoth

  datatype PairEvent = PairEvent(disconnectReason: nat, timestampMs: nat, device: S.DeviceInfo)
  datatype WakeEvent = WakeEvent(wakeType: WakeType, requestor: string, name: string, timestampMs: nat)
  datatype ScanEvent = ScanEvent(start: bool, initiator: string, tech: ScanTech, results: nat, timestampMs: nat)

  const PROFILES: nat := 3  // unknown, headset and hands-free

  datatype Caps = Caps(sessions: nat, pairs: nat, wakes: nat, scans: nat) {
    predicate Valid() { sessions > 0 && pairs > 0 && wakes > 0 && scans > 0 }
  }

  /** A leaking queue and the number of events since the log was last cleared. */
  datatype Channel<T> = Channel(queue: seq<T>, count: nat)

  function Logged<T>(c: Channel<T>, capacity: nat, e: T): Channel<T>
    requires capacity > 0
  {
    Channel(Push(c.queue, capacity, e), c.count + 1)
  }

  datatype State = State(
    sessions: S.State,
    pairs: Channel<PairEvent>,
    wakes: Channel<WakeEvent>,
    scans: Channel<ScanEvent>,
    headset: seq<nat>)

  const INIT := State(S.INIT, Channel([], 0), Channel([], 0), Channel([], 0), [0, 0, 0])

  /** What a dump serialises. */
  datatype BluetoothLog = BluetoothLog(
    sessions: seq<S.Session>, numSessions: nat,
    pairs: seq<PairEvent>, numPairs: nat,
    wakes: seq<WakeEvent>, numWakes: nat,
    scans: seq<ScanEvent>, numScans: nat,
    headset: seq<(nat, nat)>)

  datatype Op =
    | StartOp(tech: S.ConnectionTech, timestampMs: nat, endNow: nat, startNow: nat)
    | EndOp(reason: S.DisconnectReason, timestampMs: nat, now: nat)
    | DeviceOp(deviceClass: nat, deviceType: S.DeviceType, now: nat)
    | A2dpOp(metrics: M, now: nat)
    | PairOp(pair: PairEvent)
    | WakeOp(wake: WakeEvent)
    | ScanOp(scan: ScanEvent)
    | HeadsetOp(service: nat)
    | DumpOp(endNow: nat, startNow: nat)
    | ResetOp

  /** The part of a call that concerns sessions. */
  function SessionPart(op: Op): Option<S.Op> {
    match op
    case StartOp(tech, t, e, n) => Some(S.StartOp(tech, t, e, n))
    case EndOp(r, t, n) => Some(S.EndOp(r, t, n))
    case DeviceOp(c, t, n) => Some(S.DeviceOp(c, t, n))
    case A2dpOp(m, n) => Some(S.A2dpOp(m, n))
    case DumpOp(e, n) => Some(S.DumpOp(e, n))
    case ResetOp => Some(S.ResetOp)
    case _ => None
  }

  const HSP_SERVICE_ID: nat := 5
  const HFP_SERVICE_ID: nat := 6

  /** Services other than the headset and the hands-free one are counted under the unknown profile. */
  function Profile(service: nat): nat {
    if service == HSP_SERVICE_ID then 1 else if service == HFP_SERVICE_ID then 2 else 0
  }

  function Applied<T>(c: Channel<T>, capacity: nat, event: Option<T>, cleared: bool): Channel<T>
    requires capacity > 0
  {
    if cleared then Channel([], 0)
    else if event.Some? then Logged(c, capacity, event.value)
    else c
  }

  predicate Clears(op: Op) { op.DumpOp? || op.ResetOp? }

  function PairIn(op: Op): Option<PairEvent> { if op.PairOp? then Some(op.pair) else None }
  function WakeIn(op: Op): Option<WakeEvent> { if op.WakeOp? then Some(op.wake) else None }
  function ScanIn(op: Op): Option<ScanEvent> { if op.ScanOp? then Some(op.scan) else None }

  function HeadsetAfter(headset: seq<nat>, op: Op): seq<nat> {
    if op.DumpOp? then [0, 0, 0]
    else if op.HeadsetOp? && Profile(op.service) < |headset|
    then headset[Profile(op.service) := headset[Profile(op.service)] + 1]
    else headset  // a Reset does not clear these counters
  }

  function Apply(s: State, caps: Caps, op: Op): State
    requires caps.Valid()
  {
    State(
      match SessionPart(op) case None => s.sessions case Some(o) => S.Apply(s.sessions, caps.sessions, o),
      Applied(s.pairs, caps.pairs, PairIn(op), Clears(op)),
      Applied(s.wakes, caps.wakes, WakeIn(op), Clears(op)),
      Applied(s.scans, caps.scans, ScanIn(op), Clears(op)),
      HeadsetAfter(s.headset, op))
  }

  /** The headset profiles connected at least once, with their counts. */
  function HeadsetStats(headset: seq<nat>): seq<(nat, nat)> {
    if headset == [] then []
    else
      var n := |headset| - 1;
      HeadsetStats(headset[..n]) + if headset[n] > 0 then [(n, headset[n])] else []
  }

  function Dump(s: State, caps: Caps, endNow: nat, startNow: nat): BluetoothLog
    requires caps.Valid()
  {
    var (sessions, numSessions) := S.Dumped(s.sessions, caps.sessions, endNow, startNow);
    BluetoothLog(sessions, numSessions, s.pairs.queue, s.pairs.count, s.wakes.queue, s.wakes.count,
                 s.scans.queue, s.scans.count, HeadsetStats(s.headset))
  }

  function Run(ops: seq<Op>, caps: Caps): State
    requires caps.Valid()
  {
    if ops == [] then INIT else Apply(Run(ops[..|ops| - 1], caps), caps, ops[|ops| - 1])
  }

  // ---------------------------------------------------------------------
  // What a run leaves, and what a dump then writes
  // ---------------------------------------------------------------------

  /** The pair events since the last dump or Reset. */
  function RecentPairs(ops: seq<Op>): seq<PairEvent> {
    if ops == [] then []
    else
      match ops[|ops| - 1]
      case PairOp(e) => RecentPairs(ops[..|ops| - 1]) + [e]
      case DumpOp(_, _) => []
      case ResetOp => []
      case _ => RecentPairs(ops[..|ops| - 1])
  }

  function RecentWakes(ops: seq<Op>): seq<WakeEvent> {
    if ops == [] then []
    else
      match ops[|ops| - 1]
      case WakeOp(e) => RecentWakes(ops[..|ops| - 1]) + [e]
      case DumpOp(_, _) => []
      case ResetOp => []
      case _ => RecentWakes(ops[..|ops| - 1])
  }

  function RecentScans(ops: seq<Op>): seq<ScanEvent> {
    if ops == [] then []
    else
      match ops[|ops| - 1]
      case ScanOp(e) => RecentScans(ops[..|ops| - 1]) + [e]
      case DumpOp(_, _) => []
      case ResetOp => []
      case _ => RecentScans(ops[..|ops| - 1])
  }

  /** A call as far as sessions are concerned. */
  function ForSessions(op: Op): seq<S.Op> {
    match op
    case StartOp(tech, t, e, n) => [S.StartOp(tech, t, e, n)]
    case EndOp(r, t, n) => [S.EndOp(r, t, n)]
    case DeviceOp(c, t, n) => [S.DeviceOp(c, t, n)]
    case A2dpOp(m, n) => [S.A2dpOp(m, n)]
    case DumpOp(e, n) => [S.DumpOp(e, n)]
    case ResetOp => [S.ResetOp]
    case _ => []
  }

  /** The calls that concern sessions, in order. */
  function SessionOps(ops: seq<Op>): seq<S.Op> {
    if ops == [] then [] else SessionOps(ops[..|ops| - 1]) + ForSessions(ops[|ops| - 1])
  }

  /** Profile 1 is the headset service, 2 the hands-free service and 0 every other. */
  predicate Belongs(service: nat, profile: nat) {
    || (profile == 1 && service == 5)
    || (profile == 2 && service == 6)
    || (profile == 0 && service != 5 && service != 6)
  }

  /** How often a profile was connected since the last dump. */
  function Connections(ops: seq<Op>, profile: nat): nat {
    if ops == [] || ops[|ops| - 1].DumpOp? then 0
    else
      var op := ops[|ops| - 1];
      Connections(ops[..|ops| - 1], profile) + if op.HeadsetOp? && Belongs(op.service, profile) then 1 else 0
  }

  /** A channel holds the last events of its kind and counts them all. */
  ghost predicate Holds<T>(c: Channel<T>, capacity: nat, events: seq<T>) {
    c == Channel(LastN(events, capacity), |events|)
  }

  lemma ChannelStep<T>(c: Channel<T>, capacity: nat, events: seq<T>, event: Option<T>, cleared: bool)
    requires capacity > 0 && Holds(c, capacity, events)
    ensures Holds(Applied(c, capacity, event, cleared), capacity,
                  if cleared then [] else if event.Some? then events + [event.value] else events)
  {
    if event.Some? {
      PushKeepsLast(events, capacity, event.value);
    }
  }

  /** After any calls each channel holds the last events since the last dump or Reset, and their number. */
  lemma {:induction false} RunHolds(ops: seq<Op>, caps: Caps)
    requires caps.Valid()
    ensures var s := Run(ops, caps);
            && Holds(s.pairs, caps.pairs, RecentPairs(ops))
            && Holds(s.wakes, caps.wakes, RecentWakes(ops))
            && Holds(s.scans, caps.scans, RecentScans(ops))
  {
    if ops != [] {
      var front, op := ops[..|ops| - 1], ops[|ops| - 1];
      var before := Run(front, caps);
      RunHolds(front, caps);
      hide Holds, Applied;
      ChannelStep(before.pairs, caps.pairs, RecentPairs(front), PairIn(op), Clears(op));
      ChannelStep(before.wakes, caps.wakes, RecentWakes(front), WakeIn(op), Clears(op));
      ChannelStep(before.scans, caps.scans, RecentScans(front), ScanIn(op), Clears(op));
    }
  }

  lemma {:induction false} RunSessions(ops: seq<Op>, caps: Caps)
    requires caps.Valid()
    ensures Run(ops, caps).sessions == S.Run(SessionOps(ops), caps.sessions)
  {
    if ops != [] {
      RunSessions(ops[..|ops| - 1], caps);
      var before, part := SessionOps(ops[..|ops| - 1]), SessionPart(ops[|ops| - 1]);
      PartIsForSessions(ops[|ops| - 1]);
      hide SessionPart, ForSessions, Applied, HeadsetAfter, S.Run, S.Apply;
      if part.Some? {
        SessionRunSnoc(before, part.value, caps.sessions);
      } else {
        assert before + [] == before;
      }
    }
  }

  lemma PartIsForSessions(op: Op)
    ensures ForSessions(op) == if SessionPart(op).Some? then [SessionPart(op).value] else []
  {
  }

  lemma SessionRunSnoc(ops: seq<S.Op>, op: S.Op, capacity: nat)
    requires capacity > 0
    ensures S.Run(ops + [op], capacity) == S.Apply(S.Run(ops, capacity), capacity, op)
  {
    assert (ops + [op])[..|ops|] == ops;
  }

  lemma {:induction false} RunHeadset(ops: seq<Op>, caps: Caps)
    requires caps.Valid()
    ensures var h := Run(ops, caps).headset;
            |h| == PROFILES && forall p :: 0 <= p < PROFILES ==> h[p] == Connections(ops, p)
  {
    if ops != [] {
      RunHeadset(ops[..|ops| - 1], caps);
    }
  }

  /** For instance, a headset connection is still counted after a Reset. */
  lemma ResetKeepsConnection(caps: Caps)
    requires caps.Valid()
    ensures Run([HeadsetOp(HSP_SERVICE_ID), ResetOp], caps).headset == [0, 1, 0]
  {
    var ops := [HeadsetOp(HSP_SERVICE_ID), ResetOp];
    assert ops[..1] == [HeadsetOp(HSP_SERVICE_ID)] && ops[..1][..0] == [];
    assert Run(ops[..1][..0], caps) == INIT;
  }

  /**
    After any run, a dump writes the last events of each kind since the
    previous dump or Reset, in order, each counted in full; and the sessions
    closed since the previous dump, this dump's cut-off included.
   */
  lemma DumpWritesRecent(ops: seq<Op>, caps: Caps, endNow: nat, startNow: nat)
    requires caps.Valid()
    ensures var d := Dump(Run(ops, caps), caps, endNow, startNow);
            && d.pairs == LastN(RecentPairs(ops), caps.pairs) && d.numPairs == |RecentPairs(ops)|
            && d.wakes == LastN(RecentWakes(ops), caps.wakes) && d.numWakes == |RecentWakes(ops)|
            && d.scans == LastN(RecentScans(ops), caps.scans) && d.numScans == |RecentScans(ops)|
            && forall p: nat, n: nat :: (p, n) in d.headset <==> p < PROFILES && n == Connections(ops, p) && n > 0
    ensures var d := Dump(Run(ops, caps), caps, endNow, startNow);
            var so := SessionOps(ops);
            var l := L.Book(so, caps.sessions);
            var closed := L.Cut(l, S.Run(so, caps.sessions), caps.sessions, endNow).closed;
            && l.mark <= |closed|
            && d.sessions == LastN(closed[l.mark..], caps.sessions) && d.numSessions == |closed| - l.mark
  {
    RunHolds(ops, caps);
    RunSessions(ops, caps);
    RunHeadset(ops, caps);
    forall p: nat, n: nat
      ensures (p, n) in HeadsetStats(Run(ops, caps).headset) <==> p < PROFILES && n == Connections(ops, p) && n > 0
    {
      HeadsetStatsExact(Run(ops, caps).headset, p, n);
    }
    hide Run, Connections, HeadsetStats;
    L.DumpAfterRun(SessionOps(ops), caps.sessions, endNow, startNow);
  }

  /** A profile appears in a dump exactly when it was connected since the last dump, with its count. */
  lemma {:induction false} HeadsetStatsExact(headset: seq<nat>, p: nat, n: nat)
    ensures (p, n) in HeadsetStats(headset) <==> p < |headset| && headset[p] == n && n > 0
  {
    if headset != [] {
      HeadsetStatsExact(headset[..|headset| - 1], p, n);
    }
  }
}
