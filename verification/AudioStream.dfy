/**
  The Bluetooth audio port with the output stream on top of it, as a step
  system: stream calls hold the stream's mutex and may wait for the stack,
  control results and session changes arrive at any time.
 */
module AudioStream {
  import opened Options
  import opened Arithmetic
  import P = AudioParams

  datatype PortState = Disabled | Standby | Starting | Started | Suspending

  /** `Failed` stands for every status that is neither of the other two. */
  datatype Status = Success | Reconfiguration | Failed

  /** The stream call in progress, and what its next step does. */
  datatype Call =
    | NoCall
    | AtStart                                  // Start: check and set the state
    | WaitStart                                // until no longer Starting, or a timeout
    | AtSuspend(andThen: Option<P.Params>)     // Suspend: check and set the state
    | WaitSuspend(andThen: Option<P.Params>)   // until no longer Suspending, or a timeout
    | AtDisable(params: P.Params)              // set Disabled after a suspend
    | AtClosing(params: P.Params)
    | AtExiting(params: P.Params)

  datatype Stream = Stream(
    port: PortState,
    inUse: bool,        // registered with the session control
    isA2dp: bool,
    call: Call,
    rendered: nat,      // frames_rendered_
    presented: nat,     // frames_presented_
    lastWriteUs: int)

  datatype Step =
    | ControlResult(status: Status)
    | SessionChanged
    | TearDown
    | StandbyCall       // also out_pause, which does the same
    | ResumeCall
    | StartRequest(ok: bool)
    | SuspendRequest(ok: bool)
    | WaitEnds
    | SetParameters(kvpairs: string)
    | DisableStep
    | ClosingStep
    | ExitingStep
    | WriteDone(bytes: nat, frameSize: nat, sampleRate: nat, written: nat, nowUs: int)

  predicate Enabled(s: Stream, step: Step) {
    match step
    case ControlResult(_) | SessionChanged | TearDown => true
    case StandbyCall | ResumeCall | SetParameters(_) => s.call.NoCall?
    case StartRequest(_) => s.call.AtStart?
    case SuspendRequest(_) => s.call.AtSuspend?
    case WaitEnds => s.call.WaitStart? || s.call.WaitSuspend?
    case DisableStep => s.call.AtDisable?
    case ClosingStep => s.call.AtClosing?
    case ExitingStep => s.call.AtExiting?
    case WriteDone(_, frameSize, sampleRate, _, _) => s.call.NoCall? && frameSize > 0 && sampleRate > 0
  }

  /** ControlResultHandler. */
  function AfterResult(p: PortState, status: Status): PortState {
    match p
    case Started => if status.Failed? then Started else Standby
    case Starting => if status.Success? then Started else Standby
    case Suspending => if status.Success? then Standby else Disabled
    case _ => p
  }

  function Stopped(s: Stream): Stream {
    if s.inUse then s.(port := Disabled) else s
  }

  function AfterSuspend(andThen: Option<P.Params>): Call {
    match andThen
    case None => NoCall
    case Some(params) => AtDisable(params)
  }

  predicate Is(params: P.Params, key: string, value: string) {
    key in params && params[key] == value
  }

  /** The A2dpSuspended part of out_set_parameters. */
  function ApplySuspended(s: Stream, params: P.Params): Stream {
    if !("A2dpSuspended" in params && s.isA2dp) then s.(call := AtClosing(params))
    else if params["A2dpSuspended"] == "true" then
      if s.port.Started? then s.(rendered := 0, call := AtSuspend(Some(params)))
      else if !s.port.Disabled? then Stopped(s.(rendered := 0, call := AtClosing(params)))
      else s.(rendered := 0, call := AtClosing(params))
    else if s.port.Disabled? then s.(port := Standby, call := AtClosing(params))
    else s.(call := AtClosing(params))
  }

  /** The closing and the exiting part: stop unless already disabled. */
  function ApplyStop(s: Stream, ask: bool): Stream {
    if ask && !s.port.Disabled? then Stopped(s.(rendered := 0, presented := 0)) else s
  }

  function Played(bytes: nat, frameSize: nat, sampleRate: nat): nat
    requires frameSize > 0 && sampleRate > 0
  {
    bytes * 1000000 / frameSize / sampleRate
  }

  /** The end of out_write: count the frames, or pace a write that went nowhere. */
  function AfterWrite(s: Stream, bytes: nat, frameSize: nat, sampleRate: nat, written: nat, nowUs: int): Stream
    requires frameSize > 0 && sampleRate > 0
  {
    if written > 0 then
      var frames := bytes / frameSize;
      s.(rendered := s.rendered + frames, presented := s.presented + frames, lastWriteUs := nowUs)
    else
      var sleep := Played(bytes, frameSize, sampleRate) - (nowUs - s.lastWriteUs);
      s.(lastWriteUs := nowUs + if sleep > 0 then sleep else 0)
  }

  function Do(s: Stream, step: Step): Stream
    requires Enabled(s, step)
  {
    match step
    case ControlResult(status) => if s.inUse then s.(port := AfterResult(s.port, status)) else s
    case SessionChanged => if s.inUse then s.(port := Disabled) else s
    case TearDown => s.(inUse := false)
    case StandbyCall => if s.port.Started? then s.(rendered := 0, call := AtSuspend(None)) else s
    case ResumeCall => if s.port.Standby? then s.(call := AtStart) else s
    case StartRequest(ok) =>
      if s.inUse && s.port.Standby? then s.(port := Starting, call := if ok then WaitStart else NoCall)
      else s.(call := NoCall)
    case SuspendRequest(ok) =>
      if s.inUse && s.port.Started?
      then s.(port := Suspending, call := if ok then WaitSuspend(s.call.andThen) else AfterSuspend(s.call.andThen))
      else s.(call := AfterSuspend(s.call.andThen))
    case WaitEnds => s.(call := if s.call.WaitStart? then NoCall else AfterSuspend(s.call.andThen))
    case SetParameters(kvpairs) =>
      var params := P.Parse(kvpairs);
      if params == map[] then s else ApplySuspended(s, params)
    case DisableStep => s.(port := Disabled, call := AtClosing(s.call.params))
    case ClosingStep => ApplyStop(s, Is(s.call.params, "closing", "true")).(call := AtExiting(s.call.params))
    case ExitingStep => ApplyStop(s, Is(s.call.params, "exiting", "1")).(call := NoCall)
    case WriteDone(bytes, frameSize, sampleRate, written, nowUs) =>
      AfterWrite(s, bytes, frameSize, sampleRate, written, nowUs)
  }

  /** A stream whose port was set up. */
  predicate Initial(s: Stream) {
    s.port.Standby? && s.inUse && s.call.NoCall? && s.rendered == 0 && s.presented == 0
  }

  ghost predicate Run(states: seq<Stream>, steps: seq<Step>) {
    && |states| == |steps| + 1 && Initial(states[0])
    && forall i :: 0 <= i < |steps| ==> Enabled(states[i], steps[i]) && states[i + 1] == Do(states[i], steps[i])
  }

  // ---------------------------------------------------------------------
  // How states are entered and left
  // ---------------------------------------------------------------------

  /** The one request that ends the Disabled state. */
  predicate Reenables(s: Stream, step: Step) {
    && step.SetParameters? && s.isA2dp
    && var params := P.Parse(step.kvpairs);
    "A2dpSuspended" in params && params["A2dpSuspended"] != "true"
  }

  /** Starting is entered exactly by a start request in Standby. */
  lemma EntersStartingIff(s: Stream, step: Step)
    requires Enabled(s, step) && !s.port.Starting?
    ensures Do(s, step).port.Starting? <==> step.StartRequest? && s.port.Standby? && s.inUse
  {
    hide P.Parse;
  }

  /** Started is entered exactly by a success result in Starting. */
  lemma EntersStartedIff(s: Stream, step: Step)
    requires Enabled(s, step) && !s.port.Started?
    ensures Do(s, step).port.Started? <==> step == ControlResult(Success) && s.port.Starting? && s.inUse
  {
    hide P.Parse;
  }

  /** Suspending is entered exactly by a suspend request in Started. */
  lemma EntersSuspendingIff(s: Stream, step: Step)
    requires Enabled(s, step) && !s.port.Suspending?
    ensures Do(s, step).port.Suspending? <==> step.SuspendRequest? && s.port.Started? && s.inUse
  {
    hide P.Parse;
  }

  /** Standby is entered exactly by a result that ends a start or a suspend, or by the request that re-enables. */
  lemma EntersStandbyIff(s: Stream, step: Step)
    requires Enabled(s, step) && !s.port.Standby?
    ensures Do(s, step).port.Standby? <==>
              || (step.ControlResult? && s.inUse && s.port.Started? && (step.status.Success? || step.status.Reconfiguration?))
              || (step.ControlResult? && s.inUse && s.port.Starting? && !step.status.Success?)
              || (step.ControlResult? && s.inUse && s.port.Suspending? && step.status.Success?)
              || (s.port.Disabled? && Reenables(s, step))
  {
    hide P.Parse;
  }

  /**
    Disabled is entered exactly by a session change, by a suspend that fails,
    by the end of a suspend that A2dpSuspended=true asked for, by that request
    in a port that is not started, and by a closing or exiting stop.
   */
  lemma EntersDisabledIff(s: Stream, step: Step)
    requires Enabled(s, step) && !s.port.Disabled?
    ensures Do(s, step).port.Disabled? <==>
              || (step.SessionChanged? && s.inUse)
              || (step.ControlResult? && s.inUse && s.port.Suspending? && !step.status.Success?)
              || step.DisableStep?
              || (step.SetParameters? && s.isA2dp && s.inUse && !s.port.Started?
                    && Is(P.Parse(step.kvpairs), "A2dpSuspended", "true"))
              || (step.ClosingStep? && s.inUse && Is(s.call.params, "closing", "true"))
              || (step.ExitingStep? && s.inUse && Is(s.call.params, "exiting", "1"))
  {
    hide P.Parse;
  }

  /** Nothing but that request leaves Disabled, and it leaves for Standby. */
  lemma StepLeavesDisabledIff(s: Stream, step: Step)
    requires Enabled(s, step) && s.port.Disabled?
    ensures Do(s, step).port.Disabled? <==> !Reenables(s, step)
    ensures Reenables(s, step) ==> Do(s, step).port.Standby?
  {
    hide P.Parse;
  }

  lemma StepKeepsKind(s: Stream, step: Step)
    requires Enabled(s, step)
    ensures Do(s, step).isA2dp == s.isA2dp
  {
    hide P.Parse;
  }

  // ---------------------------------------------------------------------
  // Whole runs
  // ---------------------------------------------------------------------

  /** Since `i`, a Start request made in Standby has been outstanding. */
  ghost predicate StartingSince(states: seq<Stream>, steps: seq<Step>, i: nat, k: nat) {
    && i < k < |states| && |states| == |steps| + 1
    && states[i].port.Standby? && steps[i].StartRequest?
    && forall m :: i < m <= k ==> states[m].port.Starting?
  }

  lemma {:induction false} StartingHistory(states: seq<Stream>, steps: seq<Step>, k: nat) returns (i: nat)
    requires Run(states, steps) && k < |states| && states[k].port.Starting?
    ensures StartingSince(states, steps, i, k)
  {
    hide Do, Enabled;
    if states[k - 1].port.Starting? {
      i := StartingHistory(states, steps, k - 1);
    } else {
      EntersStartingIff(states[k - 1], steps[k - 1]);
      i := k - 1;
    }
  }

  /**
    A port that is Started was in Standby, received a Start request, stayed in
    Starting until a successful result arrived, and has been Started since.
   */
  lemma {:induction false} StartedHistory(states: seq<Stream>, steps: seq<Step>, k: nat) returns (i: nat, j: nat)
    requires Run(states, steps) && k < |states| && states[k].port.Started?
    ensures j < k && StartingSince(states, steps, i, j) && steps[j] == ControlResult(Success)
    ensures forall m :: j < m <= k ==> states[m].port.Started?
  {
    hide Do, Enabled;
    if states[k - 1].port.Started? {
      i, j := StartedHistory(states, steps, k - 1);
    } else {
      EntersStartedIff(states[k - 1], steps[k - 1]);
      j := k - 1;
      i := StartingHistory(states, steps, j);
    }
  }

  /** Once Disabled, a port stays so until an A2DP stream is told A2dpSuspended with a value other than true. */
  lemma {:induction false} DisabledUntilReenabled(states: seq<Stream>, steps: seq<Step>, i: nat, k: nat)
    requires Run(states, steps) && i <= k < |states| && states[i].port.Disabled?
    requires forall m :: i <= m < k ==> !Reenables(states[m], steps[m])
    ensures states[k].port.Disabled?
    decreases k - i
  {
    hide Do, Enabled;
    if i < k {
      DisabledUntilReenabled(states, steps, i, k - 1);
      StepLeavesDisabledIff(states[k - 1], steps[k - 1]);
    }
  }

  /** A port of another kind never leaves Disabled. */
  lemma {:induction false} OtherKindsStayDisabled(states: seq<Stream>, steps: seq<Step>, i: nat, k: nat)
    requires Run(states, steps) && i <= k < |states| && states[i].port.Disabled? && !states[i].isA2dp
    ensures states[k].port.Disabled? && !states[k].isA2dp
    decreases k - i
  {
    hide Do, Enabled;
    if i < k {
      OtherKindsStayDisabled(states, steps, i, k - 1);
      StepKeepsKind(states[k - 1], steps[k - 1]);
      StepLeavesDisabledIff(states[k - 1], steps[k - 1]);
    }
  }

  // ---------------------------------------------------------------------
  // Requests and results
  // ---------------------------------------------------------------------

  /** A control result resolves an outstanding request: success reaches what was asked for, nothing else does. */
  lemma ResultResolvesRequest(s: Stream, status: Status)
    requires s.inUse
    ensures var p := Do(s, ControlResult(status)).port;
            && !p.Starting? && !p.Suspending?
            && (s.port.Starting? ==> (p.Started? <==> status.Success?) && !p.Disabled?)
            && (s.port.Suspending? ==> (p.Standby? <==> status.Success?) && !p.Started?)
            && (s.port.Started? ==> (p.Standby? <==> !status.Failed?) && !p.Disabled?)
            && (s.port.Standby? || s.port.Disabled? ==> p == s.port)
  {
  }

  /** Without a result, a session change or a stop, a request stays outstanding. */
  lemma RequestStaysOutstanding(s: Stream, step: Step)
    requires Enabled(s, step) && (s.port.Starting? || s.port.Suspending?)
    requires !step.ControlResult? && !step.SessionChanged? && !step.SetParameters?
    requires !step.DisableStep? && !step.ClosingStep? && !step.ExitingStep?
    ensures Do(s, step).port == s.port
  {
  }

  // ---------------------------------------------------------------------
  // Frames
  // ---------------------------------------------------------------------

  /** The stop that closing and exiting perform, unless the port is already disabled. */
  predicate ResetsPresented(s: Stream, step: Step)
    requires Enabled(s, step)
  {
    && !s.port.Disabled?
    && ((step.ClosingStep? && Is(s.call.params, "closing", "true")) ||
        (step.ExitingStep? && Is(s.call.params, "exiting", "1")))
  }

  predicate ResetsRendered(s: Stream, step: Step)
    requires Enabled(s, step)
  {
    || ResetsPresented(s, step)
    || (step.StandbyCall? && s.port.Started?)
    || (step.SetParameters? && s.isA2dp && Is(P.Parse(step.kvpairs), "A2dpSuspended", "true"))
  }

  function FramesIn(step: Step): nat {
    if step.WriteDone? && step.written > 0 && step.frameSize > 0 then step.bytes / step.frameSize else 0
  }

  /** The frames of the successful writes since the last step for which `resets` holds. */
  ghost function FramesSince(states: seq<Stream>, steps: seq<Step>, resets: (Stream, Step) --> bool, k: nat): nat
    requires k <= |steps| <= |states|
    requires forall i :: 0 <= i < |steps| ==> resets.requires(states[i], steps[i])
  {
    if k == 0 || resets(states[k - 1], steps[k - 1]) then 0
    else FramesSince(states, steps, resets, k - 1) + FramesIn(steps[k - 1])
  }

  lemma StepCountsFrames(s: Stream, step: Step)
    requires Enabled(s, step)
    ensures Do(s, step).presented == if ResetsPresented(s, step) then 0 else s.presented + FramesIn(step)
    ensures Do(s, step).rendered == if ResetsRendered(s, step) then 0 else s.rendered + FramesIn(step)
    ensures ResetsPresented(s, step) ==> ResetsRendered(s, step)
    ensures Do(s, step).presented >= s.presented <==> !ResetsPresented(s, step) || s.presented == 0
  {
    hide P.Parse;
  }

  /** So a stream that is not disabled loses both counters to any parameters that say closing=true. */
  lemma ClosingResetsPresented(s: Stream, kvpairs: string)
    requires s.call.NoCall? && !s.port.Disabled?
    requires Is(P.Parse(kvpairs), "closing", "true") && "A2dpSuspended" !in P.Parse(kvpairs)
    ensures Enabled(Do(s, SetParameters(kvpairs)), ClosingStep)
    ensures var t := Do(Do(s, SetParameters(kvpairs)), ClosingStep); t.presented == 0 && t.rendered == 0
  {
    hide P.Parse;
  }

  ghost predicate Reachable(s: Stream) {
    exists states, steps :: Run(states, steps) && states[|steps|] == s
  }

  lemma ReachableStep(s: Stream, step: Step)
    requires Reachable(s) && Enabled(s, step)
    ensures Reachable(Do(s, step))
  {
    hide Enabled, Do;
    var states, steps :| Run(states, steps) && states[|steps|] == s;
    var states', steps' := states + [Do(s, step)], steps + [step];
    forall i | 0 <= i < |steps'|
      ensures Enabled(states'[i], steps'[i]) && states'[i + 1] == Do(states'[i], steps'[i])
    {
      if i < |steps| { assert states'[i] == states[i] && states'[i + 1] == states[i + 1]; }
    }
    assert Run(states', steps') && states'[|steps'|] == Do(s, step);
  }

  const OPENED := Stream(Standby, true, true, NoCall, 0, 0, 0)

  /** The first write has started the stream and went through with one frame. */
  const PLAYING := Stream(Started, true, true, NoCall, 1, 1, 0)

  lemma PlayingIsReachable()
    ensures Reachable(PLAYING)
  {
    assert Run([OPENED], []) && [OPENED][0] == OPENED;
    hide Reachable, Run, P.Parse;
    ReachableStep(OPENED, ResumeCall);
    var s1 := Do(OPENED, ResumeCall);
    ReachableStep(s1, StartRequest(true));
    var s2 := Do(s1, StartRequest(true));
    ReachableStep(s2, ControlResult(Success));
    var s3 := Do(s2, ControlResult(Success));
    ReachableStep(s3, WaitEnds);
    var s4 := Do(s3, WaitEnds);
    ReachableStep(s4, WriteDone(4, 4, 1, 4, 0));
    assert Do(s4, WriteDone(4, 4, 1, 4, 0)) == PLAYING;
  }

  /** It happens: a stream that has presented a frame is told that it is closing. */
  lemma PresentedFalls() returns (before: Stream, step: Step)
    ensures Reachable(before) && Enabled(before, step) && Reachable(Do(before, step))
    ensures before.presented == 1 && Do(before, step).presented == 0
  {
    hide Reachable, Enabled, Do, P.Parse, Is;
    ClosingIsParsed();
    before, step := ClosingFalls(P.Entry("closing", "true"));
  }

  lemma ClosingFalls(kvpairs: string) returns (before: Stream, step: Step)
    requires Is(P.Parse(kvpairs), "closing", "true") && "A2dpSuspended" !in P.Parse(kvpairs)
    ensures Reachable(before) && Enabled(before, step) && Reachable(Do(before, step))
    ensures before.presented == 1 && Do(before, step).presented == 0
  {
    PlayingIsReachable();
    hide Reachable, P.Parse;
    ClosingResetsPresented(PLAYING, kvpairs);
    ReachableStep(PLAYING, SetParameters(kvpairs));
    before, step := Do(PLAYING, SetParameters(kvpairs)), ClosingStep;
    ReachableStep(before, step);
  }

  lemma ClosingIsParsed()
    ensures var params := P.Parse(P.Entry("closing", "true"));
            Is(params, "closing", "true") && "A2dpSuspended" !in params
  {
    P.ParseEntry("closing", "true");
    hide P.Parse, P.Entry;
  }

  /**
    Frames presented are those written since the last closing or exiting stop,
    and not since the stream was opened; frames rendered are those written
    since the last such stop, suspend or standby, and so never more.
   */
  lemma {:induction false} CountersAreSums(states: seq<Stream>, steps: seq<Step>, k: nat)
    requires Run(states, steps) && k < |states|
    ensures states[k].presented == FramesSince(states, steps, ResetsPresented, k)
    ensures states[k].rendered == FramesSince(states, steps, ResetsRendered, k)
    ensures states[k].rendered <= states[k].presented
  {
    hide Do, Enabled, ResetsPresented, ResetsRendered;
    if k > 0 {
      CountersAreSums(states, steps, k - 1);
      StepCountsFrames(states[k - 1], steps[k - 1]);
    }
  }

  /** The playing time of a write in microseconds, rounded down. */
  lemma PlayedIsPlayingTime(bytes: nat, frameSize: nat, sampleRate: nat)
    requires frameSize > 0 && sampleRate > 0
    ensures var us := Played(bytes, frameSize, sampleRate);
            us * sampleRate * frameSize <= bytes * 1000000 < (us + 1) * sampleRate * frameSize
  {
    var n := bytes * 1000000;
    var q := n / frameSize;
    var us := q / sampleRate;
    FloorBounds(n, frameSize);
    FloorBounds(q, sampleRate);
    MulMono(us * sampleRate, q, frameSize);
    MulMono(q + 1, (us + 1) * sampleRate, frameSize);
  }

  /** A write that went through is timed at its end. */
  lemma SuccessfulWriteIsTimed(s: Stream, bytes: nat, frameSize: nat, sampleRate: nat, written: nat, nowUs: int)
    requires frameSize > 0 && sampleRate > 0 && written > 0
    ensures var s' := AfterWrite(s, bytes, frameSize, sampleRate, written, nowUs);
            && s'.lastWriteUs == nowUs && s' == s.(rendered := s'.rendered, presented := s'.presented, lastWriteUs := nowUs)
  {
  }

  /** A write that went nowhere leaves the clock no earlier than the time its data would have played. */
  lemma FailedWriteIsPaced(s: Stream, bytes: nat, frameSize: nat, sampleRate: nat, nowUs: int)
    requires frameSize > 0 && sampleRate > 0
    ensures var s' := AfterWrite(s, bytes, frameSize, sampleRate, 0, nowUs);
            var due := s.lastWriteUs + Played(bytes, frameSize, sampleRate);
            && s'.lastWriteUs >= nowUs && s'.lastWriteUs >= due
            && (s'.lastWriteUs == nowUs || s'.lastWriteUs == due)
            && s'.rendered == s.rendered && s'.presented == s.presented
  {
  }
}
