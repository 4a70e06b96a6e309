/**
  What the calls on a repeating timer achieve: which call made a scheduling,
  when its invocations come, and that each call has its effect.
 */
module TimerCalls {
  import opened Options
  import opened Arithmetic
  import opened Sequences
  import opened TimerClock
  import opened RepeatingTimer

  // ---------------------------------------------------------------------
  // Every scheduling is the one that was asked for
  // ---------------------------------------------------------------------

  predicate Schedules(step: Step) {
    step.UserSchedule? || step.TaskSchedule?
  }

  /** The index of the last call of SchedulePeriodic; -1 if there is none. */
  function LastSchedule(steps: seq<Step>): (i: int)
    ensures -1 <= i < |steps| && (i >= 0 ==> Schedules(steps[i]))
    ensures forall j :: i < j < |steps| ==> !Schedules(steps[j])
  {
    if steps == [] then -1
    else if Schedules(steps[|steps| - 1]) then |steps| - 1
    else LastSchedule(steps[..|steps| - 1])
  }

  /** The call that made the current scheduling: the last one, or the one before if that is still waiting. */
  function Maker(s: State, steps: seq<Step>): (i: int)
    ensures -1 <= i < |steps| && (i >= 0 ==> Schedules(steps[i]))
  {
    if s.user.Waiting? && LastSchedule(steps) >= 0 then LastSchedule(steps[..LastSchedule(steps)]) else LastSchedule(steps)
  }

  /** A scheduling of this task with this period, first expected one period after the call read the clock. */
  predicate Made(step: Step, task: nat, period: nat, first: nat) {
    Schedules(step) && step.task == task && step.period == period && first == step.read + step.period
  }

  ghost predicate Origin(s: State, steps: seq<Step>) {
    && (s.user.Waiting? || s.user.Ready? ==>
          var i := LastSchedule(steps);
          i >= 0 && Made(steps[i], s.user.task, s.user.period, s.user.first))
    && (s.armed ==>
          var i := Maker(s, steps);
          i >= 0 && s.task.Some? && Made(steps[i], s.task.value, s.period, s.first))
  }

  lemma LastScheduleSnoc(steps: seq<Step>, step: Step)
    ensures LastSchedule(steps + [step]) == if Schedules(step) then |steps| else LastSchedule(steps)
    ensures (steps + [step])[..|steps|] == steps
    ensures LastSchedule(steps) >= 0 && !Schedules(step) ==>
              (steps + [step])[..LastSchedule(steps)] == steps[..LastSchedule(steps)]
  {
    assert (steps + [step])[..|steps|] == steps;
  }

  lemma StepKeepsOrigin(s: State, step: Step, steps: seq<Step>)
    requires Inv(s) && Enabled(s, step) && Origin(s, steps)
    ensures Origin(Do(s, step), steps + [step])
  {
    LastScheduleSnoc(steps, step);
    hide OneCallback, LogAgrees, TasksAgree, TimeAgrees, NoneCurrent, Delay, FirstDue, LastSchedule;
  }

  /**
    In every state of every run, what is scheduled was asked for by one call of
    SchedulePeriodic: its task, its period, and a first expected time one period
    after that call read the clock.
   */
  lemma {:induction false} SchedulingWasAskedFor(states: seq<State>, steps: seq<Step>, k: nat)
    requires Run(states, steps) && k < |states|
    ensures Origin(states[k], steps[..k])
  {
    if k > 0 {
      hide Inv, Enabled, Do, Origin;
      SchedulingWasAskedFor(states, steps, k - 1);
      RunIsSafe(states, steps, k - 1);
      StepKeepsOrigin(states[k - 1], steps[k - 1], steps[..k - 1]);
      assert steps[..k - 1] + [steps[k - 1]] == steps[..k];
    }
  }

  // ---------------------------------------------------------------------
  // When the invocations come
  // ---------------------------------------------------------------------

  /** The times at which a generation was invoked, in order. */
  function Times(log: seq<Event>, gen: nat): seq<nat> {
    if log == [] then []
    else
      var e := log[|log| - 1];
      Times(log[..|log| - 1], gen) + if e.Invoked? && e.gen == gen then [e.time] else []
  }

  lemma TimesSnoc(log: seq<Event>, e: Event, gen: nat)
    ensures Times(log + [e], gen) == Times(log, gen) + if e.Invoked? && e.gen == gen then [e.time] else []
  {
    assert (log + [e])[..|log|] == log;
  }

  lemma {:induction false} NoTimesYet(log: seq<Event>, gen: nat)
    requires forall i :: 0 <= i < |log| ==> log[i].gen < gen
    ensures Times(log, gen) == []
  {
    if log != [] {
      NoTimesYet(log[..|log| - 1], gen);
    }
  }

  ghost predicate RunsAreInvocations(s: State) {
    s.armed ==> s.runs == Times(s.log, s.gen)
  }

  lemma NextGenerationIsNew(s: State)
    requires Inv(s)
    ensures Times(s.log, s.gen + 1) == [] && Times(s.log + [Cancelled(s.gen)], s.gen + 1) == []
  {
    hide OneCallback, ControlAgrees, TasksAgree, TimeAgrees;
    NoTimesYet(s.log, s.gen + 1);
    NoTimesYet(s.log + [Cancelled(s.gen)], s.gen + 1);
  }

  lemma StepKeepsInvocations(s: State, step: Step)
    requires Inv(s) && Enabled(s, step) && RunsAreInvocations(s)
    ensures RunsAreInvocations(Do(s, step))
  {
    StepOnRuns(s, step);
    NextGenerationIsNew(s);
    TimesSnoc(s.log, Invoked(s.gen, s.task.GetOr(0), s.clock), s.gen);
    hide Inv, Enabled, Do, Times;
  }

  /** What a step does to the runs and the log of what is scheduled. */
  lemma StepOnRuns(s: State, step: Step)
    requires Enabled(s, step)
    ensures var t := Do(s, step);
            || !t.armed
            || (t.gen == s.gen + 1 && t.runs == [] && (t.log == s.log || t.log == s.log + [Cancelled(s.gen)]))
            || (t.gen == s.gen && s.armed && t.runs == s.runs && t.log == s.log)
            || (t.gen == s.gen && s.armed && t.runs == s.runs + [s.clock]
                  && t.log == s.log + [Invoked(s.gen, s.task.GetOr(0), s.clock)])
  {
    hide Delay, FirstDue, DropAt;
  }

  lemma {:induction false} RunsAreAllInvocations(states: seq<State>, steps: seq<Step>, k: nat)
    requires Run(states, steps) && k < |states|
    ensures RunsAreInvocations(states[k])
  {
    if k > 0 {
      hide Inv, Enabled, Do, RunsAreInvocations;
      RunsAreAllInvocations(states, steps, k - 1);
      RunIsSafe(states, steps, k - 1);
      StepKeepsInvocations(states[k - 1], steps[k - 1]);
    }
  }

  /**
    The not-early law against the call: while a scheduling lasts, its invocation
    `n` is at least `n` + 1 periods after its call read the clock, and by any
    time t there were at most (t - T0) / period + 1, for T0 one period after it.
   */
  lemma InvocationsFollowTheCall(states: seq<State>, steps: seq<Step>, k: nat)
    requires Run(states, steps) && k < |states| && states[k].armed
    ensures var i := Maker(states[k], steps[..k]);
            && 0 <= i < k && Schedules(steps[i]) && steps[i].period > 0 && states[k].task == Some(steps[i].task)
            && var (times, t0) := (Times(states[k].log, states[k].gen), steps[i].read + steps[i].period);
            && (forall n :: 0 <= n < |times| ==> times[n] >= t0 + n * steps[i].period)
            && (times != [] ==> states[k].clock >= t0 && |times| <= (states[k].clock - t0) / steps[i].period + 1)
  {
    SchedulingWasAskedFor(states, steps, k);
    RunsAreAllInvocations(states, steps, k);
    RunsAreBounded(states, steps, k);
    var s := states[k];
    forall n | 0 <= n < |s.runs| ensures s.runs[n] >= s.first + n * s.period {
      RunsAreNotEarly(states, steps, k, n);
    }
    hide Run, LastSchedule, Times, Maker;
  }

  // ---------------------------------------------------------------------
  // Each step has its effect
  // ---------------------------------------------------------------------

  /** The loop thread invokes the user task exactly when the callback it takes is live, and then with the scheduled task. */
  lemma LoopInvokesIff(s: State, i: nat, ok: bool)
    requires Inv(s) && Enabled(s, LoopRun(i, ok))
    ensures var t := Do(s, LoopRun(i, ok));
            && (Live(s, s.pending[i]) ==>
                  s.task.Some? && t.inTask && t.log == s.log + [Invoked(s.gen, s.task.value, s.clock)])
            && (!Live(s, s.pending[i]) ==> t == s.(pending := DropAt(s.pending, i)))
  {
    hide OneCallback, LogAgrees, TasksAgree, NoneCurrent, Delay;
  }

  /** No other step invokes it. */
  lemma OnlyLoopInvokes(s: State, step: Step)
    requires Enabled(s, step) && !step.LoopRun?
    ensures Do(s, step).log == s.log || Do(s, step).log == s.log + [Cancelled(s.gen)]
  {
    hide Delay, FirstDue;
  }

  /** A cancellation that is carried out ends what is scheduled: nothing is live any more, and it is logged. */
  lemma CancelEnds(s: State, step: Step)
    requires Inv(s) && Enabled(s, step) && (step.TaskCancel? || step.LoopCancel?)
    ensures var t := Do(s, step);
            && !t.scheduled && !t.armed && (forall i :: 0 <= i < |t.pending| ==> !Live(t, t.pending[i]))
            && (s.scheduled ==> t.task.None? && t.log == s.log + [Cancelled(s.gen)])
  {
    hide OneCallback, LogAgrees, TasksAgree, TimeAgrees, NoneCurrent;
  }

  /** Cancel from another thread: a cancellation is under way exactly when something was scheduled or one was already. */
  lemma CancelIsUnderWay(s: State)
    requires s.user.UserIdle?
    ensures StillCancels(Do(s, UserCancel)) <==> s.scheduled || StillCancels(s)
  {
    StillCancelsIff(s);
    StillCancelsIff(Do(s, UserCancel));
    hide StillCancels;
  }

  /** SchedulePeriodic leaves something scheduled exactly when its post succeeds and nothing cancelled it meanwhile. */
  lemma ScheduledIffPosted(s: State, step: Step)
    requires Inv(s) && Enabled(s, step) && (step.UserPost? || step.TaskSchedule?)
    ensures var t := Do(s, step);
            && t.user.UserIdle? && t.scheduled == t.armed
            && (t.armed <==> step.ok && (step.TaskSchedule? || s.armed))
            && (!step.ok ==> t.pending == s.pending && forall i :: 0 <= i < |t.pending| ==> !Live(t, t.pending[i]))
            && (step.ok ==> t.pending == s.pending + [Callback(t.gen, step.due)])
  {
    hide OneCallback, LogAgrees, TasksAgree, TimeAgrees, NoneCurrent, FirstDue;
  }

  /** What was scheduled is cancelled, on record, before anything else is. */
  lemma NewSchedulingAfterCancel(s: State, step: Step)
    requires Inv(s) && Enabled(s, step) && Do(s, step).gen != s.gen
    ensures Do(s, step).gen == s.gen + 1
    ensures s.armed ==> step.TaskSchedule? && Do(s, step).log == s.log + [Cancelled(s.gen)]
  {
    hide OneCallback, LogAgrees, TasksAgree, TimeAgrees, NoneCurrent, Delay, FirstDue;
  }

  // ---------------------------------------------------------------------
  // A scheduled timer always has a callback on its way
  // ---------------------------------------------------------------------

  /** Every post to the loop succeeds. */
  predicate PostsSucceed(step: Step) {
    (step.UserPost? || step.LoopRun? || step.TaskSchedule?) ==> step.ok
  }

  ghost predicate HasLive(s: State) {
    s.armed && !s.user.Posting? ==> exists i :: 0 <= i < |s.pending| && s.pending[i].gen == s.gen
  }

  lemma DropKeepsOthers(pending: seq<Callback>, at: nat, gen: nat)
    requires at < |pending| && pending[at].gen != gen && exists i :: 0 <= i < |pending| && pending[i].gen == gen
    ensures exists i :: 0 <= i < |DropAt(pending, at)| && DropAt(pending, at)[i].gen == gen
  {
    var i :| 0 <= i < |pending| && pending[i].gen == gen;
    assert DropAt(pending, at)[if i < at then i else i - 1] == pending[i];
  }

  lemma PostIsLive(pending: seq<Callback>, cb: Callback)
    ensures var q := pending + [cb]; exists i :: 0 <= i < |q| && q[i].gen == cb.gen
  {
    assert (pending + [cb])[|pending|] == cb;
  }

  lemma StepKeepsLive(s: State, step: Step)
    requires Inv(s) && Enabled(s, step) && PostsSucceed(step) && HasLive(s)
    ensures HasLive(Do(s, step))
  {
    match step {
      case LoopRun(at, ok) =>
        var rest := DropAt(s.pending, at);
        if Live(s, s.pending[at]) {
          assert s.scheduled && s.period > 0 by { hide OneCallback, LogAgrees, TasksAgree, NoneCurrent; }
          hide Inv, Delay, HasLive, DropAt;
          PostIsLive(rest, Callback(s.gen, s.clock + Delay(s.expected + s.period, s.clock, s.period)));
          LiveIsEnough(Do(s, step), |rest|);
        } else if s.armed && !s.user.Posting? {
          hide Inv;
          DropKeepsOthers(s.pending, at, s.gen);
        }
      case UserPost(ok, due) =>
        hide Inv;
        LiveIsEnough(Do(s, step), |s.pending|);
      case TaskSchedule(task, p, read, t, ok, due) =>
        hide Inv, FirstDue;
        LiveIsEnough(Do(s, step), |s.pending|);
      case _ =>
        hide OneCallback, LogAgrees, TasksAgree, TimeAgrees, NoneCurrent;
    }
  }

  lemma LiveIsEnough(s: State, i: nat)
    requires i < |s.pending| && s.pending[i].gen == s.gen
    ensures HasLive(s)
  {
  }

  /** As long as posts succeed, a timer that is scheduled and set up has exactly one live callback. */
  lemma {:induction false} ExactlyOneLive(states: seq<State>, steps: seq<Step>, k: nat)
    requires Run(states, steps) && k < |states| && forall i :: 0 <= i < k ==> PostsSucceed(steps[i])
    ensures HasLive(states[k])
    ensures forall i, j :: 0 <= i < j < |states[k].pending| ==>
              !(Live(states[k], states[k].pending[i]) && Live(states[k], states[k].pending[j]))
  {
    forall i, j | 0 <= i < j < |states[k].pending|
      ensures !(Live(states[k], states[k].pending[i]) && Live(states[k], states[k].pending[j]))
    {
      AtMostOneLive(states, steps, k, i, j);
    }
    if k > 0 {
      hide Inv, Enabled, Do, HasLive, Live;
      ExactlyOneLive(states, steps, k - 1);
      RunIsSafe(states, steps, k - 1);
      StepKeepsLive(states[k - 1], steps[k - 1]);
    }
  }

  // ---------------------------------------------------------------------
  // SchedulePeriodic can finish
  // ---------------------------------------------------------------------

  /** A waiting scheduler has its own cancellation on its way. */
  ghost predicate WaiterIsServed(s: State) {
    s.user.Waiting? ==> true in s.cancels
  }

  lemma DropKeepsMember(cancels: seq<bool>, at: nat)
    requires at < |cancels| && !cancels[at] && true in cancels
    ensures true in DropAt(cancels, at)
  {
    var i :| 0 <= i < |cancels| && cancels[i];
    assert DropAt(cancels, at)[if i < at then i else i - 1];
  }

  lemma StepKeepsService(s: State, step: Step)
    requires Enabled(s, step) && WaiterIsServed(s)
    ensures WaiterIsServed(Do(s, step))
  {
    if step.LoopCancel? && s.user.Waiting? && !s.cancels[step.index] {
      DropKeepsMember(s.cancels, step.index);
    }
    hide Delay, FirstDue, DropAt;
  }

  lemma {:induction false} RunKeepsService(states: seq<State>, steps: seq<Step>, k: nat)
    requires Run(states, steps) && k < |states|
    ensures WaiterIsServed(states[k])
  {
    if k > 0 {
      hide Enabled, Do, WaiterIsServed;
      RunKeepsService(states, steps, k - 1);
      StepKeepsService(states[k - 1], steps[k - 1]);
    }
  }

  /**
    A call that waits finishes with three steps once no closure is running: its
    cancellation, setting the fields, and the first post; and then what it asked
    for is scheduled.
   */
  lemma WaitingScheduleFinishes(states: seq<State>, steps: seq<Step>, k: nat, due: nat) returns (at: nat)
    requires Run(states, steps) && k < |states| && states[k].user.Waiting? && !states[k].inTask
    requires FirstDue(states[k].user.first, states[k].clock, due)
    ensures Enabled(states[k], LoopCancel(at))
    ensures var s := states[k];
            var ready := Do(s, LoopCancel(at));
            && Enabled(ready, UserArm) && Enabled(Do(ready, UserArm), UserPost(true, due))
            && var t := Do(Do(ready, UserArm), UserPost(true, due));
            && t.scheduled && t.armed && t.user.UserIdle? && t.gen == s.gen + 1
            && t.task == Some(s.user.task) && t.period == s.user.period && t.first == s.user.first && t.expected == t.first
            && t.pending == s.pending + [Callback(t.gen, due)]
  {
    RunKeepsService(states, steps, k);
    hide Run, FirstDue;
    at :| 0 <= at < |states[k].cancels| && states[k].cancels[at];
  }
}
