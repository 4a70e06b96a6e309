/**
  The repeating timer as a step system: a scheduling thread that holds the API
  mutex, the message loop thread that runs callbacks one at a time, a user task
  that may cancel or reschedule from inside itself, and a clock.

  Of the cancelable closure only this is used: a Cancel or a Reset invalidates
  every callback handed out before.  `gen` counts the Resets.
 */
module RepeatingTimer {
  import opened Options
  import opened Arithmetic
  import opened Sequences
  import opened TimerClock

  /** Clock readings and periods stay below this, so that no sum wraps. */
  const LIMIT: nat := 0x2000_0000_0000_0000

  /** A callback posted to the loop; it may run once the clock has reached `due`. */
  datatype Callback = Callback(gen: nat, due: nat)

  /** SchedulePeriodic on a user thread, which holds the API mutex unless idle. */
  datatype UserPc =
    | UserIdle
    | Waiting(task: nat, period: nat, first: nat)  // for its CancelClosure to run
    | Ready(task: nat, period: nat, first: nat)    // about to set the fields
    | Posting(first: nat)                          // about to post the first callback

  datatype Event = Invoked(gen: nat, task: nat, time: nat) | Cancelled(gen: nat)

  datatype State = State(
    clock: nat,
    scheduled: bool,        // message_loop_thread_ is set
    task: Option<nat>,
    period: nat,
    expected: nat,          // expected_time_next_task_us_
    gen: nat,
    armed: bool,            // task_wrapper_ has not been cancelled
    pending: seq<Callback>,
    cancels: seq<bool>,     // CancelClosures posted; true for the one being waited for
    inTask: bool,           // the loop thread is inside the user task
    user: UserPc,
    first: nat,             // the first expected time of this generation
    runs: seq<nat>,         // when its callback ran
    timely: bool,           // whether its first post was made in time
    tasks: seq<nat>,        // what each generation was scheduled with
    log: seq<Event>)

  /**
    SchedulePeriodic reads the clock before it has the mutex, so `read` is any
    earlier time.  `time` is the clock when the user task makes its first post,
    `ok` whether a post succeeds, and `due` when a first post falls due.
   */
  datatype Step =
    | Tick(time: nat)
    | UserSchedule(task: nat, period: nat, read: nat)
    | UserCancel
    | UserArm
    | UserPost(ok: bool, due: nat)
    | LoopCancel(index: nat)
    | LoopRun(index: nat, ok: bool)
    | TaskCancel
    | TaskSchedule(task: nat, period: nat, read: nat, time: nat, ok: bool, due: nat)
    | TaskEnd

  predicate Enabled(s: State, step: Step) {
    match step
    case Tick(t) => s.clock <= t <= LIMIT
    case UserSchedule(_, p, read) => s.user.UserIdle? && 1 <= p <= LIMIT && read <= s.clock
    case UserCancel => s.user.UserIdle?
    case UserArm => s.user.Ready?
    case UserPost(_, due) => s.user.Posting? && FirstDue(s.first, s.clock, due)
    case LoopCancel(i) => !s.inTask && i < |s.cancels|
    case LoopRun(i, _) => !s.inTask && i < |s.pending| && s.pending[i].due <= s.clock
    case TaskCancel => s.inTask && s.user.UserIdle?
    case TaskSchedule(_, p, read, t, _, due) =>
      s.inTask && s.user.UserIdle? && 1 <= p <= LIMIT && read <= s.clock <= t <= LIMIT && FirstDue(read + p, t, due)
    case TaskEnd => s.inTask
  }

  function CancelClosure(s: State): State {
    s.(scheduled := false, armed := false, task := None, period := 0, expected := 0,
       log := s.log + [Cancelled(s.gen)])
  }

  /** The fields SchedulePeriodic sets, with the Reset of the wrapper. */
  function Arm(s: State, task: nat, period: nat, first: nat): State {
    s.(scheduled := true, armed := true, task := Some(task), period := period, expected := first,
       gen := s.gen + 1, first := first, runs := [], timely := false, tasks := s.tasks + [task])
  }

  /** The first post, or the clean-up when it fails. */
  function PostFirst(s: State, ok: bool, due: nat): State {
    if ok then
      s.(pending := s.pending + [Callback(s.gen, due)], timely := s.clock <= s.first)
    else s.(scheduled := false, armed := false, period := 0, expected := 0)
  }

  predicate Live(s: State, cb: Callback) {
    s.armed && cb.gen == s.gen
  }

  /** RunTask up to the call of the user task; `ok` says whether the re-post succeeds. */
  function RunTask(s: State, ok: bool): State
    requires s.period > 0
  {
    var expected := s.expected + s.period;
    var delay := Delay(expected, s.clock, s.period);
    s.(expected := expected, runs := s.runs + [s.clock], inTask := true,
       pending := if ok then s.pending + [Callback(s.gen, s.clock + delay)] else s.pending,
       log := s.log + [Invoked(s.gen, s.task.GetOr(0), s.clock)])
  }

  function Do(s: State, step: Step): State
    requires Enabled(s, step)
  {
    match step
    case Tick(t) => s.(clock := t)
    case UserSchedule(task, p, read) =>
      if s.scheduled then s.(cancels := s.cancels + [true], user := Waiting(task, p, read + p))
      else s.(user := Ready(task, p, read + p))
    case UserCancel => if s.scheduled then s.(cancels := s.cancels + [false]) else s
    case UserArm => Arm(s, s.user.task, s.user.period, s.user.first).(user := Posting(s.user.first))
    case UserPost(ok, due) => PostFirst(s, ok, due).(user := UserIdle)
    case LoopCancel(i) =>
      CancelClosure(s).(
        cancels := DropAt(s.cancels, i),
        user := if s.cancels[i] && s.user.Waiting? then Ready(s.user.task, s.user.period, s.user.first) else s.user)
    case LoopRun(i, ok) =>
      var t := s.(pending := DropAt(s.pending, i));
      // a live callback always finds a thread and a period, see ControlAgrees and TimeAgrees
      if Live(s, s.pending[i]) && s.scheduled && s.period > 0 then RunTask(t, ok) else t
    case TaskCancel => if s.scheduled then CancelClosure(s) else s
    case TaskSchedule(task, p, read, t, ok, due) =>
      var c := if s.scheduled then CancelClosure(s) else s;
      PostFirst(Arm(c, task, p, read + p).(clock := t), ok, due)
    case TaskEnd => s.(inTask := false)
  }

  const INIT := State(0, false, None, 0, 0, 0, false, [], [], false, UserIdle, 0, [], false, [], [])

  /** Steps taken from any state. */
  ghost predicate Path(states: seq<State>, steps: seq<Step>) {
    && |states| == |steps| + 1
    && forall i :: 0 <= i < |steps| ==> Enabled(states[i], steps[i]) && states[i + 1] == Do(states[i], steps[i])
  }

  ghost predicate Run(states: seq<State>, steps: seq<Step>) {
    Path(states, steps) && states[0] == INIT
  }

  // ---------------------------------------------------------------------
  // The invariant
  // ---------------------------------------------------------------------

  /** At most one pending callback belongs to the current generation, and none to a later one. */
  ghost predicate OneCallback(gen: nat, pending: seq<Callback>) {
    && (forall i :: 0 <= i < |pending| ==> pending[i].gen <= gen)
    && (forall i, j :: 0 <= i < j < |pending| ==> !(pending[i].gen == gen && pending[j].gen == gen))
  }

  ghost predicate NoneCurrent(gen: nat, pending: seq<Callback>) {
    forall i :: 0 <= i < |pending| ==> pending[i].gen != gen
  }

  ghost predicate ControlAgrees(s: State) {
    && (s.armed <==> s.scheduled)
    && |s.tasks| == s.gen && (s.armed ==> s.gen > 0 && s.task == Some(s.tasks[s.gen - 1]))
    && (s.user.Ready? ==> !s.armed)
    && (s.user.Posting? ==> s.runs == [] && s.first == s.user.first && NoneCurrent(s.gen, s.pending))
    && (s.user.Waiting? || s.user.Ready? ==> 1 <= s.user.period <= LIMIT && s.user.first <= s.clock + s.user.period)
    && s.clock <= LIMIT
  }

  /** After a cancellation of one generation, only later generations are ever invoked. */
  ghost predicate LogAgrees(gen: nat, armed: bool, log: seq<Event>) {
    && (forall i :: 0 <= i < |log| ==> log[i].gen <= gen)
    && (forall i :: 0 <= i < |log| && log[i].Cancelled? && log[i].gen == gen ==> !armed)
    && (forall i, j :: 0 <= i < j < |log| && log[i].Cancelled? && log[j].Invoked? ==> log[j].gen > log[i].gen)
  }

  /** Run `k` of the current generation was not before `first` plus `k` periods. */
  ghost predicate RunsOnTime(first: nat, period: nat, runs: seq<nat>, clock: nat) {
    forall k :: 0 <= k < |runs| ==> Slot(first, period, k) <= runs[k] <= clock
  }

  /** Whatever was invoked was what its generation was scheduled with. */
  ghost predicate TasksAgree(tasks: seq<nat>, log: seq<Event>) {
    forall i :: 0 <= i < |log| && log[i].Invoked? ==>
      0 < log[i].gen <= |tasks| && log[i].task == tasks[log[i].gen - 1]
  }

  ghost predicate TimeAgrees(s: State) {
    s.armed ==>
      && 1 <= s.period <= LIMIT && s.first <= s.clock + s.period
      && s.expected == Slot(s.first, s.period, |s.runs|)
      && RunsOnTime(s.first, s.period, s.runs, s.clock)
      && (forall i :: 0 <= i < |s.pending| && s.pending[i].gen == s.gen ==>
            && s.pending[i].due >= Slot(s.first, s.period, |s.runs|)
            && (s.timely || s.runs != [] ==> OnGrid(s.pending[i].due, s.first, s.period)))
  }

  ghost predicate Inv(s: State) {
    && OneCallback(s.gen, s.pending)
    && ControlAgrees(s)
    && LogAgrees(s.gen, s.armed, s.log)
    && TasksAgree(s.tasks, s.log)
    && TimeAgrees(s)
  }

  lemma DropKeepsOne(gen: nat, pending: seq<Callback>, i: nat)
    requires OneCallback(gen, pending) && i < |pending|
    ensures OneCallback(gen, DropAt(pending, i))
    ensures pending[i].gen == gen ==> NoneCurrent(gen, DropAt(pending, i))
    ensures NoneCurrent(gen, pending) ==> NoneCurrent(gen, DropAt(pending, i))
  {
    var rest := DropAt(pending, i);
    forall k | 0 <= k < |rest| ensures rest[k] == pending[if k < i then k else k + 1] {}
  }

  lemma PostKeepsOne(gen: nat, pending: seq<Callback>, due: nat)
    requires OneCallback(gen, pending) && NoneCurrent(gen, pending)
    ensures OneCallback(gen, pending + [Callback(gen, due)])
  {
  }

  lemma ResetKeepsOne(gen: nat, pending: seq<Callback>)
    requires OneCallback(gen, pending)
    ensures OneCallback(gen + 1, pending) && NoneCurrent(gen + 1, pending)
  {
  }

  lemma StepKeepsOne(s: State, step: Step)
    requires Inv(s) && Enabled(s, step)
    ensures OneCallback(Do(s, step).gen, Do(s, step).pending)
  {
    ResetKeepsOne(s.gen, s.pending);
    if step.LoopRun? {
      DropKeepsOne(s.gen, s.pending, step.index);
      var rest := DropAt(s.pending, step.index);
      if NoneCurrent(s.gen, rest) && s.period > 0 {
        PostKeepsOne(s.gen, rest, s.clock + Delay(s.expected + s.period, s.clock, s.period));
      }
    } else if step.UserPost? {
      PostKeepsOne(s.gen, s.pending, step.due);
    } else if step.TaskSchedule? {
      PostKeepsOne(s.gen + 1, s.pending, step.due);
    }
    hide OneCallback, NoneCurrent, LogAgrees, TasksAgree, TimeAgrees, Delay;
  }

  lemma StepKeepsControl(s: State, step: Step)
    requires Inv(s) && Enabled(s, step)
    ensures ControlAgrees(Do(s, step))
  {
    if step.LoopRun? {
      DropKeepsOne(s.gen, s.pending, step.index);
    }
    ResetKeepsOne(s.gen, s.pending);
    hide OneCallback, LogAgrees, TasksAgree, TimeAgrees, Delay;
  }

  lemma CancelKeepsLog(gen: nat, armed: bool, log: seq<Event>)
    requires LogAgrees(gen, armed, log)
    ensures LogAgrees(gen, false, log + [Cancelled(gen)])
  {
  }

  lemma InvokeKeepsLog(gen: nat, log: seq<Event>, task: nat, time: nat)
    requires LogAgrees(gen, true, log)
    ensures LogAgrees(gen, true, log + [Invoked(gen, task, time)])
  {
  }

  lemma LaterKeepsLog(gen: nat, armed: bool, log: seq<Event>)
    requires LogAgrees(gen, armed, log)
    ensures LogAgrees(gen, false, log) && LogAgrees(gen + 1, true, log) && LogAgrees(gen + 1, false, log)
  {
  }

  lemma StepKeepsLog(s: State, step: Step)
    requires Inv(s) && Enabled(s, step)
    ensures LogAgrees(Do(s, step).gen, Do(s, step).armed, Do(s, step).log)
  {
    hide LogAgrees, TasksAgree, OneCallback, TimeAgrees, NoneCurrent, Delay;
    CancelKeepsLog(s.gen, s.armed, s.log);
    LaterKeepsLog(s.gen, s.armed, s.log);
    LaterKeepsLog(s.gen, false, s.log + [Cancelled(s.gen)]);
    if s.armed {
      InvokeKeepsLog(s.gen, s.log, s.task.GetOr(0), s.clock);
    }
    hide ControlAgrees, DropAt, FirstDue;
  }

  lemma StepKeepsTasks(s: State, step: Step)
    requires Inv(s) && Enabled(s, step)
    ensures TasksAgree(Do(s, step).tasks, Do(s, step).log)
  {
    hide LogAgrees, OneCallback, TimeAgrees, NoneCurrent, Delay, PostFirst;
    PostFirstKeepsLog(s, step);
  }

  lemma PostFirstKeepsLog(s: State, step: Step)
    requires Enabled(s, step)
    ensures step.UserPost? ==> Do(s, step).log == s.log && Do(s, step).tasks == s.tasks
    ensures step.TaskSchedule? ==>
              && Do(s, step).tasks == s.tasks + [step.task]
              && Do(s, step).log == if s.scheduled then s.log + [Cancelled(s.gen)] else s.log
  {
  }

  // ---------------------------------------------------------------------
  // Times
  // ---------------------------------------------------------------------

  lemma SlotStep(first: nat, period: nat, k: nat)
    ensures Slot(first, period, k) + period == Slot(first, period, k + 1)
    ensures Slot(first, period, 0) == first
    ensures first <= Slot(first, period, k)
  {
    assert (k + 1) * period == k * period + period;
  }

  /** The next expected time is at most two periods ahead, so no 64-bit sum wraps. */
  lemma ExpectedIsSmall(s: State)
    requires Inv(s) && s.armed
    ensures s.expected + s.period < TWO_TO_THE_63
  {
    hide OneCallback, LogAgrees, TasksAgree;
    var n := |s.runs|;
    if n > 0 {
      assert Slot(s.first, s.period, n - 1) <= s.runs[n - 1] <= s.clock;
      SlotStep(s.first, s.period, n - 1);
    } else {
      SlotStep(s.first, s.period, 0);
    }
  }

  lemma RunsGrow(first: nat, period: nat, runs: seq<nat>, clock: nat)
    requires RunsOnTime(first, period, runs, clock) && Slot(first, period, |runs|) <= clock
    ensures RunsOnTime(first, period, runs + [clock], clock)
  {
  }

  lemma RepostIsLeast(s: State, i: nat)
    requires Inv(s) && Enabled(s, LoopRun(i, true)) && Live(s, s.pending[i])
    ensures var next, due := s.expected + s.period, s.clock + Delay(s.expected + s.period, s.clock, s.period);
            && OnGrid(due, s.first, s.period)
            && (s.clock <= next ==> due == next)
            && (s.clock > next ==>
                  s.clock <= due < s.clock + s.period && forall t :: s.clock <= t < due ==> !OnGrid(t, s.first, s.period))
  {
    var n := |s.runs| + 1;
    var next := s.expected + s.period;
    ExpectedIsSmall(s);
    SlotStep(s.first, s.period, |s.runs|);
    DelayTargets(next, s.clock, s.period);
    assert next == Slot(s.first, s.period, n) && s.period > 0 && s.clock < TWO_TO_THE_63;
    hide Inv, Delay, OnGrid, Slot;
    forall t ensures OnGrid(t, next, s.period) <==> OnGrid(t, s.first, s.period) {
      SameGrid(t, s.first, s.period, n);
    }
  }

  /** One run: it is not early, and its re-post targets the grid at or after the next expected time. */
  lemma RunKeepsTime(s: State, i: nat, ok: bool)
    requires Inv(s) && Enabled(s, LoopRun(i, ok)) && Live(s, s.pending[i])
    ensures TimeAgrees(Do(s, LoopRun(i, ok)))
  {
    var n := |s.runs|;
    ExpectedIsSmall(s);
    SlotStep(s.first, s.period, n);
    DropKeepsOne(s.gen, s.pending, i);
    RunsGrow(s.first, s.period, s.runs, s.clock);
    RepostIsLeast(s, i);
    hide OneCallback, LogAgrees, TasksAgree, ControlAgrees, Delay, OnGrid, RunsOnTime, Slot;
  }

  lemma DropKeepsTime(s: State, i: nat)
    requires TimeAgrees(s) && i < |s.pending|
    ensures TimeAgrees(s.(pending := DropAt(s.pending, i)))
  {
    hide OnGrid, RunsOnTime, Slot;
    var rest := DropAt(s.pending, i);
    forall k | 0 <= k < |rest| ensures rest[k] == s.pending[if k < i then k else k + 1] {}
  }

  /** The first post, made by either thread, in time or not. */
  lemma PostKeepsTime(s: State, ok: bool, due: nat)
    requires FirstDue(s.first, s.clock, due)
    requires s.armed ==>
               && 1 <= s.period <= LIMIT && s.first <= s.clock + s.period && s.clock <= LIMIT
               && s.expected == s.first && s.runs == []
    requires NoneCurrent(s.gen, s.pending)
    ensures TimeAgrees(PostFirst(s, ok, due))
  {
    if s.armed {
      SlotStep(s.first, s.period, 0);
      assert s.first == Slot(s.first, s.period, 0);
      assert OnGrid(s.first, s.first, s.period);
    }
    hide Slot, OnGrid;
  }

  lemma StepKeepsTime(s: State, step: Step)
    requires Inv(s) && Enabled(s, step)
    ensures TimeAgrees(Do(s, step))
  {
    match step {
      case LoopRun(i, ok) =>
        if Live(s, s.pending[i]) { RunKeepsTime(s, i, ok); } else { DropKeepsTime(s, i); }
        hide TimeAgrees, RunTask, DropAt, OneCallback, LogAgrees, TasksAgree;
      case UserPost(ok, due) =>
        SlotStep(s.first, s.period, 0);
        PostKeepsTime(s, ok, due);
        hide PostFirst, OneCallback, LogAgrees, TasksAgree, NoneCurrent, OnGrid;
      case TaskSchedule(task, p, read, t, ok, due) =>
        ResetKeepsOne(s.gen, s.pending);
        var c := if s.scheduled then CancelClosure(s) else s;
        PostKeepsTime(Arm(c, task, p, read + p).(clock := t), ok, due);
        hide PostFirst, OneCallback, LogAgrees, TasksAgree, NoneCurrent, OnGrid;
      case UserArm =>
        ResetKeepsOne(s.gen, s.pending);
        SlotStep(s.user.first, s.user.period, 0);
        hide OneCallback, LogAgrees, TasksAgree, OnGrid, Slot;
      case _ =>
        hide OneCallback, LogAgrees, TasksAgree, OnGrid, Slot;
    }
  }

  lemma StepKeepsInv(s: State, step: Step)
    requires Inv(s) && Enabled(s, step)
    ensures Inv(Do(s, step))
  {
    hide OneCallback, ControlAgrees, LogAgrees, TasksAgree, TimeAgrees, Enabled, Do;
    StepKeepsTasks(s, step);
    StepKeepsOne(s, step);
    StepKeepsControl(s, step);
    StepKeepsLog(s, step);
    StepKeepsTime(s, step);
  }

  lemma {:induction false} RunIsSafe(states: seq<State>, steps: seq<Step>, k: nat)
    requires Run(states, steps) && k < |states|
    ensures Inv(states[k])
  {
    if k > 0 {
      hide Inv, Enabled, Do;
      RunIsSafe(states, steps, k - 1);
      StepKeepsInv(states[k - 1], steps[k - 1]);
    }
  }

  // ---------------------------------------------------------------------
  // What it means
  // ---------------------------------------------------------------------

  /** At every step at most one live callback exists. */
  lemma AtMostOneLive(states: seq<State>, steps: seq<Step>, k: nat, i: nat, j: nat)
    requires Run(states, steps) && k < |states| && i < j < |states[k].pending|
    ensures !(Live(states[k], states[k].pending[i]) && Live(states[k], states[k].pending[j]))
  {
    RunIsSafe(states, steps, k);
    hide Run, ControlAgrees, LogAgrees, TimeAgrees;
  }

  /** Once a CancelClosure has run, no callback posted before it ever invokes the user task. */
  lemma NoInvocationAfterCancel(states: seq<State>, steps: seq<Step>, k: nat, i: nat, j: nat)
    requires Run(states, steps) && k < |states| && i < j < |states[k].log|
    requires states[k].log[i].Cancelled? && states[k].log[j].Invoked?
    ensures states[k].log[j].gen > states[k].log[i].gen
  {
    RunIsSafe(states, steps, k);
    hide Run, ControlAgrees, OneCallback, TimeAgrees;
  }

  /** Every invocation runs what its own generation was scheduled with. */
  lemma InvokesScheduledTask(states: seq<State>, steps: seq<Step>, k: nat, i: nat)
    requires Run(states, steps) && k < |states| && i < |states[k].log| && states[k].log[i].Invoked?
    ensures var e := states[k].log[i];
            0 < e.gen <= |states[k].tasks| && e.task == states[k].tasks[e.gen - 1]
  {
    RunIsSafe(states, steps, k);
    hide Run, ControlAgrees, OneCallback, TimeAgrees;
  }

  /** While scheduled, run `n` is not before the first expected time plus `n` periods. */
  lemma RunsAreNotEarly(states: seq<State>, steps: seq<Step>, k: nat, n: nat)
    requires Run(states, steps) && k < |states| && states[k].armed && n < |states[k].runs|
    ensures states[k].first + n * states[k].period <= states[k].runs[n]
  {
    RunIsSafe(states, steps, k);
    hide Run, ControlAgrees, OneCallback, LogAgrees, TasksAgree;
  }

  /** So by any time t at most floor((t - first) / period) + 1 runs have happened. */
  lemma RunsAreBounded(states: seq<State>, steps: seq<Step>, k: nat)
    requires Run(states, steps) && k < |states| && states[k].armed
    ensures var s := states[k];
            && s.period > 0
            && (s.runs != [] ==> s.clock >= s.first && |s.runs| <= (s.clock - s.first) / s.period + 1)
  {
    RunIsSafe(states, steps, k);
    hide Run, ControlAgrees, OneCallback, LogAgrees, TasksAgree;
    var s := states[k];
    if s.runs != [] {
      var n := |s.runs| - 1;
      assert Slot(s.first, s.period, n) <= s.runs[n] <= s.clock;
      SlotStep(s.first, s.period, n);
      DivBound(s.clock - s.first, n, s.period);
    }
  }

  lemma DivBound(t: int, n: nat, p: nat)
    requires p > 0 && n * p <= t
    ensures n <= t / p
  {
    var q := t / p;
    if q < n { MulMono(q + 1, n, p); }
  }

  /**
    Every live callback aims at or after the next expected time, and at a whole
    number of periods from the first, except a first post that was made late.
   */
  lemma PostsStayOnGrid(states: seq<State>, steps: seq<Step>, k: nat, i: nat)
    requires Run(states, steps) && k < |states| && i < |states[k].pending|
    requires Live(states[k], states[k].pending[i])
    ensures states[k].pending[i].due >= states[k].expected
    ensures states[k].timely || states[k].runs != [] ==>
              OnGrid(states[k].pending[i].due, states[k].first, states[k].period)
  {
    RunIsSafe(states, steps, k);
    hide Run, ControlAgrees, OneCallback, LogAgrees, TasksAgree;
  }

  /**
    Every re-post of every run: on time it is due at the next expected time;
    late, at the first whole number of periods from the first time, from now on.
   */
  lemma RepostsAreLeast(states: seq<State>, steps: seq<Step>, k: nat)
    requires Run(states, steps) && k < |steps| && steps[k].LoopRun? && steps[k].ok
    requires Live(states[k], states[k].pending[steps[k].index])
    ensures var s := states[k + 1];
            && s.pending != []
            && var due := s.pending[|s.pending| - 1].due;
            && s.pending[|s.pending| - 1].gen == s.gen && OnGrid(due, s.first, s.period)
            && (s.clock <= s.expected ==> due == s.expected)
            && (s.clock > s.expected ==>
                  s.clock <= due < s.clock + s.period && forall t :: s.clock <= t < due ==> !OnGrid(t, s.first, s.period))
  {
    var s := states[k];
    RunIsSafe(states, steps, k);
    RepostIsLeast(s, steps[k].index);
    hide Run, OneCallback, LogAgrees, TasksAgree, OnGrid, Delay, RunsOnTime;
  }

  // ---------------------------------------------------------------------
  // A user task that calls into the timer
  // ---------------------------------------------------------------------

  /** The user task runs while another thread waits in SchedulePeriodic, holding the mutex. */
  predicate Blocked(s: State) {
    s.inTask && s.user.Waiting?
  }

  /** The user task could get the mutex now, to cancel or to schedule. */
  predicate MayCall(s: State) {
    Enabled(s, TaskCancel)
  }

  lemma MayCallIsEither(s: State)
    requires s.clock <= LIMIT
    ensures MayCall(s) <==> exists step: Step :: step.TaskSchedule? && Enabled(s, step)
  {
    if MayCall(s) {
      assert FirstDue(s.clock + 1, s.clock, s.clock + 1);
      assert Enabled(s, TaskSchedule(0, 1, s.clock, s.clock, true, s.clock + 1));
    }
  }

  predicate WithoutEnd(steps: seq<Step>) {
    forall i :: 0 <= i < |steps| ==> !steps[i].TaskEnd?
  }

  /** As long as the user task does not end by itself, nothing anybody does lets it get through. */
  lemma {:induction false} StaysBlocked(states: seq<State>, steps: seq<Step>, k: nat)
    requires Path(states, steps) && WithoutEnd(steps) && Blocked(states[0]) && k < |states|
    ensures Blocked(states[k]) && states[k].user == states[0].user && !MayCall(states[k])
  {
    if k > 0 {
      StaysBlocked(states, steps, k - 1);
      assert Enabled(states[k - 1], steps[k - 1]) && !steps[k - 1].TaskEnd?;
      StepStaysBlocked(states[k - 1], steps[k - 1]);
      hide Do, Enabled;
    }
  }

  lemma StepStaysBlocked(s: State, step: Step)
    requires Blocked(s) && Enabled(s, step) && !step.TaskEnd?
    ensures Blocked(Do(s, step)) && Do(s, step).user == s.user && !MayCall(s) && !MayCall(Do(s, step))
  {
  }

  /** Some steps, not counting an end of the user task, let a call of it into the timer through. */
  ghost predicate GetsThrough(s: State) {
    exists states, steps :: Path(states, steps) && WithoutEnd(steps) && states[0] == s && MayCall(states[|steps|])
  }

  /** A thread in SchedulePeriodic that is not waiting can finish without the loop thread. */
  lemma SchedulerFinishes(s: State)
    requires s.inTask && !s.user.Waiting?
    ensures GetsThrough(s)
  {
    if s.user.UserIdle? {
      assert Path([s], []);
    } else if s.user.Posting? {
      var due := if s.clock <= s.first then s.first else s.clock;
      var post := UserPost(false, due);
      assert Path([s, Do(s, post)], [post]);
    } else {
      var t := Do(s, UserArm);
      var due := if t.clock <= t.first then t.first else t.clock;
      var post := UserPost(false, due);
      assert Path([s, t, Do(t, post)], [UserArm, post]);
    }
  }

  /**
    A user task that calls into the timer gets through before it ends if and
    only if no other thread is waiting in SchedulePeriodic.
   */
  lemma GetsThroughIff(s: State)
    requires s.inTask
    ensures GetsThrough(s) <==> !s.user.Waiting?
  {
    if s.user.Waiting? {
      forall states, steps | Path(states, steps) && WithoutEnd(steps) && states[0] == s
        ensures !MayCall(states[|steps|])
      {
        hide Do, Enabled;
        StaysBlocked(states, steps, |steps|);
      }
    } else {
      SchedulerFinishes(s);
    }
  }

  ghost predicate Reachable(s: State) {
    exists states, steps :: Run(states, steps) && states[|steps|] == s
  }

  lemma ReachableStep(s: State, step: Step)
    requires Reachable(s) && Enabled(s, step)
    ensures Reachable(Do(s, step))
  {
    hide Enabled, Do;
    var states, steps :| Run(states, steps) && states[|steps|] == s;
    var states', steps' := states + [Do(s, step)], steps + [step];
    forall i | 0 <= i < |steps'|
      ensures Enabled(states'[i], steps'[i]) && states'[i + 1] == Do(states'[i], steps'[i])
    {
      if i < |steps| { assert states'[i] == states[i] && states'[i + 1] == states[i + 1]; }
    }
    assert Run(states', steps') && states'[|steps'|] == Do(s, step);
  }

  /** Scheduled once, with period 1 and its first callback due. */
  const SCHEDULED := State(1, true, Some(1), 1, 1, 1, true, [Callback(1, 1)], [], false, UserIdle, 1, [], true, [1], [])

  lemma ScheduledIsReachable()
    ensures Reachable(SCHEDULED)
  {
    assert Run([INIT], []) && [INIT][0] == INIT;
    hide Reachable, Run;
    ReachableStep(INIT, UserSchedule(1, 1, 0));
    var s1 := Do(INIT, UserSchedule(1, 1, 0));
    ReachableStep(s1, UserArm);
    var s2 := Do(s1, UserArm);
    ReachableStep(s2, UserPost(true, 1));
    var s3 := Do(s2, UserPost(true, 1));
    ReachableStep(s3, Tick(1));
    assert Do(s3, Tick(1)) == SCHEDULED;
  }

  /** It happens: schedule, let the callback run, and schedule again from another thread meanwhile. */
  lemma BlockedIsReachable()
    ensures exists s :: Reachable(s) && Blocked(s)
  {
    ScheduledIsReachable();
    hide Reachable, Delay;
    ReachableStep(SCHEDULED, LoopRun(0, true));
    var s := Do(SCHEDULED, LoopRun(0, true));
    ReachableStep(s, UserSchedule(2, 1, 1));
    assert Blocked(Do(s, UserSchedule(2, 1, 1)));
  }

  /** It happens: the first post is made after its first expected time, and falls due off it. */
  lemma LateFirstPostIsReachable()
    ensures exists s :: Reachable(s) && s.armed && !s.timely && |s.pending| == 1 && s.pending[0].due != s.first
  {
    assert Run([INIT], []) && [INIT][0] == INIT;
    hide Reachable, Run;
    ReachableStep(INIT, UserSchedule(1, 1, 0));
    var s1 := Do(INIT, UserSchedule(1, 1, 0));
    ReachableStep(s1, UserArm);
    var s2 := Do(s1, UserArm);
    ReachableStep(s2, Tick(2));
    var s3 := Do(s2, Tick(2));
    ReachableStep(s3, UserPost(true, 2));
    assert Do(s3, UserPost(true, 2)).pending == [Callback(1, 2)];
  }

  // ---------------------------------------------------------------------
  // Cancellations that come too late
  // ---------------------------------------------------------------------

  /** A call that asks for a cancellation or a new scheduling. */
  predicate Asks(step: Step) {
    step.UserCancel? || step.UserSchedule? || step.TaskCancel? || step.TaskSchedule?
  }

  predicate NobodyAsks(steps: seq<Step>) {
    forall i :: 0 <= i < |steps| ==> !Asks(steps[i])
  }

  /** A cancellation was logged on the way from `s` to `t`. */
  ghost predicate CancelledSince(s: State, t: State) {
    exists i :: |s.log| <= i < |t.log| && t.log[i].Cancelled?
  }

  lemma StepCancelsNothing(s: State, step: Step)
    requires Enabled(s, step) && !Asks(step) && s.cancels == []
    ensures Do(s, step).cancels == []
    ensures Do(s, step).log == s.log || exists gen, task, time :: Do(s, step).log == s.log + [Invoked(gen, task, time)]
    ensures s.armed && s.user.UserIdle? ==>
              Do(s, step).armed && Do(s, step).gen == s.gen && Do(s, step).user.UserIdle?
  {
    hide Delay;
  }

  /**
    With no cancellation under way, nothing is cancelled until somebody asks:
    a scheduling that has been set up stays as it is.
   */
  lemma {:induction false} StaysScheduled(states: seq<State>, steps: seq<Step>, k: nat)
    requires Path(states, steps) && NobodyAsks(steps) && states[0].cancels == [] && k < |states|
    ensures states[k].cancels == [] && |states[0].log| <= |states[k].log| && !CancelledSince(states[0], states[k])
    ensures states[0].armed && states[0].user.UserIdle? ==>
              states[k].armed && states[k].gen == states[0].gen && states[k].user.UserIdle?
  {
    if k > 0 {
      hide Enabled, Do;
      StaysScheduled(states, steps, k - 1);
      StepCancelsNothing(states[k - 1], steps[k - 1]);
    }
  }

  /** Somebody's earlier call still cancels something, although nobody asks any more. */
  ghost predicate StillCancels(s: State) {
    exists states, steps ::
      Path(states, steps) && NobodyAsks(steps) && states[0] == s && CancelledSince(s, states[|steps|])
  }

  /** Whatever is scheduled may be cancelled without a new call if and only if a CancelClosure is under way. */
  lemma StillCancelsIff(s: State)
    ensures StillCancels(s) <==> s.cancels != []
  {
    if s.cancels == [] {
      forall states, steps | Path(states, steps) && NobodyAsks(steps) && states[0] == s
        ensures !CancelledSince(s, states[|steps|])
      {
        hide Enabled, Do;
        StaysScheduled(states, steps, |steps|);
      }
    } else if s.inTask {
      var t := Do(s, TaskEnd);
      var u := Do(t, LoopCancel(0));
      assert Path([s, t, u], [TaskEnd, LoopCancel(0)]) && NobodyAsks([TaskEnd, LoopCancel(0)]);
      assert u.log[|s.log|].Cancelled?;
    } else {
      var u := Do(s, LoopCancel(0));
      assert Path([s, u], [LoopCancel(0)]) && NobodyAsks([LoopCancel(0)]);
      assert u.log[|s.log|].Cancelled?;
    }
  }

  /** Scheduled anew after a cancellation, with another one still under way. */
  const RESCHEDULED := State(1, true, Some(2), 1, 2, 2, true, [Callback(1, 1), Callback(2, 2)], [false], false, UserIdle,
                             2, [], true, [1, 2], [Cancelled(1)])

  lemma RescheduledIsReachable()
    ensures Reachable(RESCHEDULED)
  {
    ScheduledIsReachable();
    hide Reachable, FirstDue;
    ReachableStep(SCHEDULED, UserCancel);
    var s1 := Do(SCHEDULED, UserCancel);
    ReachableStep(s1, UserCancel);
    var s2 := Do(s1, UserCancel);
    ReachableStep(s2, LoopCancel(0));
    var s3 := Do(s2, LoopCancel(0));
    assert s3.cancels == [false] && s3.log == [Cancelled(1)];
    ReachableStep(s3, UserSchedule(2, 1, 1));
    FinishesRescheduling(Do(s3, UserSchedule(2, 1, 1)));
  }

  lemma FinishesRescheduling(s: State)
    requires Reachable(s)
    requires s == State(1, false, None, 0, 0, 1, false, [Callback(1, 1)], [false], false, Ready(2, 1, 2),
                        1, [], true, [1], [Cancelled(1)])
    ensures Reachable(RESCHEDULED)
  {
    hide Reachable;
    ReachableStep(s, UserArm);
    var t := Do(s, UserArm);
    ReachableStep(t, UserPost(true, 2));
    assert Do(t, UserPost(true, 2)) == RESCHEDULED;
  }

  /** It happens: the second of two cancellations ends a scheduling that was made after both. */
  lemma StaleCancelIsReachable()
    ensures exists s :: Reachable(s) && !s.scheduled && s.user.UserIdle? && s.log == [Cancelled(1), Cancelled(2)]
  {
    RescheduledIsReachable();
    hide Reachable;
    ReachableStep(RESCHEDULED, LoopCancel(0));
    assert Do(RESCHEDULED, LoopCancel(0)).log == [Cancelled(1), Cancelled(2)];
  }
}
