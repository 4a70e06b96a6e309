/** What the calls on an output stream achieve, from their beginning to their return. */
module AudioCalls {
  import opened Options
  import opened AudioStream
  import P = AudioParams

  /** Steps taken from any state. */
  ghost predicate Path(states: seq<Stream>, steps: seq<Step>) {
    && |states| == |steps| + 1
    && forall i :: 0 <= i < |steps| ==> Enabled(states[i], steps[i]) && states[i + 1] == Do(states[i], steps[i])
  }

  // ---------------------------------------------------------------------
  // Starting and suspending
  // ---------------------------------------------------------------------

  /** Resuming a stream in standby starts it exactly when the stack reports success; otherwise it is a no-op. */
  lemma ResumeStarts(s: Stream, status: Status)
    requires s.call.NoCall?
    ensures !s.port.Standby? ==> Do(s, ResumeCall) == s
    ensures s.port.Standby? && s.inUse ==>
              Path([s, s.(call := AtStart), s.(port := Starting, call := WaitStart),
                    s.(port := if status.Success? then Started else Standby, call := WaitStart),
                    s.(port := if status.Success? then Started else Standby)],
                   [ResumeCall, StartRequest(true), ControlResult(status), WaitEnds])
  {
    hide P.Parse;
  }

  /** Standby or pause of a started stream suspends it exactly when the stack reports success; otherwise it is a no-op. */
  lemma StandbySuspends(s: Stream, status: Status)
    requires s.call.NoCall?
    ensures !s.port.Started? ==> Do(s, StandbyCall) == s
    ensures s.port.Started? && s.inUse ==>
              var t := s.(rendered := 0);
              Path([s, t.(call := AtSuspend(None)), t.(port := Suspending, call := WaitSuspend(None)),
                    t.(port := if status.Success? then Standby else Disabled, call := WaitSuspend(None)),
                    t.(port := if status.Success? then Standby else Disabled)],
                   [StandbyCall, SuspendRequest(true), ControlResult(status), WaitEnds])
  {
    hide P.Parse;
  }

  /** A port is in use until it is torn down, and never again. */
  lemma {:induction false} InUseIff(states: seq<Stream>, steps: seq<Step>, k: nat)
    requires Run(states, steps) && k < |states|
    ensures states[k].inUse <==> forall i :: 0 <= i < k ==> !steps[i].TearDown?
  {
    if k > 0 {
      InUseIff(states, steps, k - 1);
      StepKeepsUse(states[k - 1], steps[k - 1]);
      hide Do, Enabled;
    }
  }

  lemma StepKeepsUse(s: Stream, step: Step)
    requires Enabled(s, step)
    ensures Do(s, step).inUse <==> s.inUse && !step.TearDown?
  {
    hide P.Parse;
  }

  // ---------------------------------------------------------------------
  // Setting parameters
  // ---------------------------------------------------------------------

  predicate AsksToSuspend(s: Stream, params: P.Params) {
    s.isA2dp && Is(params, "A2dpSuspended", "true")
  }

  predicate AsksToStop(params: P.Params) {
    Is(params, "closing", "true") || Is(params, "exiting", "1")
  }

  /** The port after a request to re-enable it, if the parameters hold one. */
  function Reenabled(s: Stream, params: P.Params): PortState {
    if s.port.Disabled? && s.isA2dp && "A2dpSuspended" in params && params["A2dpSuspended"] != "true" then Standby
    else s.port
  }

  /**
    Setting parameters that need no suspend, undisturbed: the port is re-enabled
    if asked, and then disabled by each request to suspend or stop, if in use.
    A stop takes both counters to zero unless the port is disabled by then.
   */
  lemma ParametersAlone(s: Stream, kvpairs: string)
    requires s.call.NoCall?
    requires !(s.port.Started? && AsksToSuspend(s, P.Parse(kvpairs)))
    ensures var params := P.Parse(kvpairs);
            && (params == map[] ==> Do(s, SetParameters(kvpairs)) == s)
            && (params != map[] ==>
                  var asked := Do(s, SetParameters(kvpairs));
                  && Enabled(asked, ClosingStep) && Enabled(Do(asked, ClosingStep), ExitingStep)
                  && var t := Do(Do(asked, ClosingStep), ExitingStep);
                  && t.call.NoCall? && t.isA2dp == s.isA2dp && t.inUse == s.inUse && t.lastWriteUs == s.lastWriteUs
                  && t.port == (if s.inUse && (AsksToSuspend(s, params) || AsksToStop(params)) then Disabled
                                else Reenabled(s, params))
                  && var stops := AsksToStop(params) && !Reenabled(s, params).Disabled?
                                  && !(s.inUse && AsksToSuspend(s, params));
                  && t.presented == (if stops then 0 else s.presented)
                  && t.rendered == (if stops || AsksToSuspend(s, params) then 0 else s.rendered))
  {
    hide P.Parse;
  }

  /** A call that was asked to suspend is before its disabling step, or has disabled the port. */
  predicate OnItsWay(s: Stream, params: P.Params) {
    match s.call
    case AtSuspend(Some(p)) => p == params
    case WaitSuspend(Some(p)) => p == params
    case AtDisable(p) => p == params
    case AtClosing(p) => p == params && s.port.Disabled?
    case AtExiting(p) => p == params && s.port.Disabled?
    case NoCall => s.port.Disabled?
    case _ => false
  }

  lemma StepStaysOnItsWay(s: Stream, step: Step, params: P.Params)
    requires Enabled(s, step) && OnItsWay(s, params) && !s.call.NoCall?
    ensures OnItsWay(Do(s, step), params)
  {
    hide P.Parse;
  }

  /** One that has nothing to suspend and is not in use leaves the port alone. */
  lemma StepLeavesPort(s: Stream, step: Step)
    requires Enabled(s, step) && !s.inUse && (s.call.AtClosing? || s.call.AtExiting?)
    ensures Do(s, step).port == s.port && !Do(s, step).inUse
    ensures Do(s, step).call.AtClosing? || Do(s, step).call.AtExiting? || Do(s, step).call.NoCall?
  {
    hide P.Parse;
  }

  /**
    A2dpSuspended=true on an A2DP stream, whatever else happens until the call
    returns: the port is then disabled if and only if it was in use, started or
    disabled when the call was made.
   */
  lemma SuspendedMeansDisabledIff(states: seq<Stream>, steps: seq<Step>)
    requires Path(states, steps) && steps != [] && steps[0].SetParameters?
    requires AsksToSuspend(states[0], P.Parse(steps[0].kvpairs))
    requires forall i :: 1 <= i < |steps| ==> !states[i].call.NoCall?
    requires states[|steps|].call.NoCall?
    ensures states[|steps|].port.Disabled? <==> states[0].inUse || states[0].port.Started? || states[0].port.Disabled?
  {
    var s, params := states[0], P.Parse(steps[0].kvpairs);
    assert states[1] == Do(s, steps[0]);
    if s.inUse || s.port.Started? || s.port.Disabled? {
      AskedIsOnItsWay(s, steps[0].kvpairs);
      hide Do, Enabled, P.Parse;
      StaysOnItsWay(states, steps, params, |steps|);
    } else {
      AskedLeavesPort(s, steps[0].kvpairs);
      hide Do, Enabled, P.Parse;
      LeavesPort(states, steps, |steps|);
    }
  }

  lemma AskedIsOnItsWay(s: Stream, kvpairs: string)
    requires s.call.NoCall? && AsksToSuspend(s, P.Parse(kvpairs)) && (s.inUse || s.port.Started? || s.port.Disabled?)
    ensures OnItsWay(Do(s, SetParameters(kvpairs)), P.Parse(kvpairs))
  {
    hide P.Parse;
  }

  lemma AskedLeavesPort(s: Stream, kvpairs: string)
    requires s.call.NoCall? && AsksToSuspend(s, P.Parse(kvpairs))
    requires !s.inUse && !s.port.Started? && !s.port.Disabled?
    ensures var t := Do(s, SetParameters(kvpairs)); t.call.AtClosing? && !t.inUse && t.port == s.port
  {
    hide P.Parse;
  }

  lemma {:induction false} StaysOnItsWay(states: seq<Stream>, steps: seq<Step>, params: P.Params, k: nat)
    requires Path(states, steps) && 1 <= k <= |steps| && OnItsWay(states[1], params)
    requires forall i :: 1 <= i < |steps| ==> !states[i].call.NoCall?
    ensures OnItsWay(states[k], params)
  {
    if k > 1 {
      hide Do, Enabled, OnItsWay;
      StaysOnItsWay(states, steps, params, k - 1);
      StepStaysOnItsWay(states[k - 1], steps[k - 1], params);
    }
  }

  lemma {:induction false} LeavesPort(states: seq<Stream>, steps: seq<Step>, k: nat)
    requires Path(states, steps) && 1 <= k <= |steps| && !states[1].inUse && states[1].call.AtClosing?
    requires forall i :: 1 <= i < |steps| ==> !states[i].call.NoCall?
    ensures states[k].port == states[1].port && !states[k].inUse
    ensures states[k].call.AtClosing? || states[k].call.AtExiting? || states[k].call.NoCall?
  {
    if k > 1 {
      hide Do, Enabled;
      LeavesPort(states, steps, k - 1);
      assert !states[k - 1].call.NoCall?;
      StepLeavesPort(states[k - 1], steps[k - 1]);
    }
  }
}
