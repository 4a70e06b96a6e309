/** What the calls on a message loop thread do, each to its own effect and under its own name. */
module MessageLoopCalls {
  import opened Options
  import opened MessageLoopThread

  // ---------------------------------------------------------------------
  // Posting
  // ---------------------------------------------------------------------

  /** The current thread has a worker with its loop up. */
  predicate HasLiveWorker(s: State) {
    s.thread.Some? && s.thread.value in s.workers && Live(s.workers[s.thread.value])
  }

  /** A post is taken, by the worker of the current thread, if and only if that worker is live; and the caller is told. */
  lemma PostIsTakenIff(s: State, c: nat, task: nat)
    requires Reachable(s) && c in s.callers && s.callers[c] == PostCheck(task)
    ensures Enabled(s, Go(c))
    ensures HasLiveWorker(s) ==> Do(s, Go(c)).posts == s.posts + [(task, s.thread.value)]
    ensures !HasLiveWorker(s) ==> Do(s, Go(c)).posts == s.posts
    ensures Do(s, Go(c)).callers[c] == PostUnlock(HasLiveWorker(s))
  {
    ReachableIsSafe(s);
    hide Reachable, WorkersAgree, ShutdownAgrees, JoinerAgrees, WaitersAgree, ViewsAgree;
    if s.thread.Some? {
      CheckSeesSettledWorker(s, c);
    }
  }

  /** Nothing else is ever posted. */
  lemma OnlyPostsPost(s: State, step: Step)
    requires Enabled(s, step) && !(step.Go? && s.callers[step.caller].PostCheck?)
    ensures Do(s, step).posts == s.posts
  {
  }

  // ---------------------------------------------------------------------
  // Starting
  // ---------------------------------------------------------------------

  /** StartUp spawns a new worker if and only if there is no thread; otherwise it changes nothing. */
  lemma StartUpSpawnsIff(s: State, c: nat)
    requires Reachable(s) && c in s.callers && s.callers[c].StartCheck?
    ensures Enabled(s, Go(c))
    ensures s.thread.Some? ==> Do(s, Go(c)) == s.(callers := s.callers[c := StartUnlock(None)])
    ensures s.thread.None? ==>
              exists w: nat ::
                && w !in s.workers
                && Do(s, Go(c)) == s.(thread := Some(w), workers := s.workers[w := Spawned], next := w + 1,
                                      callers := s.callers[c := StartUnlock(Some(w))])
  {
    ReachableIsSafe(s);
    hide Reachable, MutexAgrees, FieldsAgree, ShutdownAgrees, JoinerAgrees, WaitersAgree, ViewsAgree;
    if s.thread.None? {
      assert s.next !in s.workers;
    }
  }

  // ---------------------------------------------------------------------
  // Returning
  // ---------------------------------------------------------------------

  /**
    A call returns only where it may: StartUp when there was a thread or its own
    worker has announced itself, ShutDown when it did not take the thread down
    or has freed it.
   */
  lemma ReturnsOnlyWhen(s: State, c: nat)
    requires Reachable(s) && Enabled(s, Go(c)) && Do(s, Go(c)).callers[c].Idle?
    ensures var pc := s.callers[c];
            || (pc == StartUnlock(None) && s.thread.Some?)
            || (pc.StartWait? && pc.worker in s.promised)
            || pc == StopUnlock(None)
            || (pc.StopUnlockLast? && s.thread.None?)
            || pc.PostUnlock?
            || (pc.AskUnlock? && pc.running == s.threadId.Some?)
  {
    ReachableIsSafe(s);
    hide Reachable, MutexAgrees, FieldsAgree, WorkersAgree, ShutdownAgrees, JoinerAgrees, WaitersAgree;
  }

  // ---------------------------------------------------------------------
  // Every call is the one that was made
  // ---------------------------------------------------------------------

  predicate Serves(api: Api, pc: Pc) {
    match pc
    case Idle => false
    case StartLock | StartCheck | StartUnlock(_) | StartWait(_) => api.StartUp?
    case StopLock | StopCheck | StopUnlock(_) | StopJoin(_) | StopRelock(_) | StopFree(_) | StopUnlockLast => api.ShutDown?
    case PostLock(t) => api == Post(t)
    case PostCheck(t) => api == Post(t)
    case PostUnlock(_) => api.Post?
    case AskLock | AskCheck | AskUnlock(_) => api.IsRunning?
  }

  predicate Begins(step: Step, c: nat) {
    step.Begin? && step.caller == c
  }

  lemma StepServes(s: State, step: Step, c: nat)
    requires Enabled(s, step) && c in Do(s, step).callers && !Do(s, step).callers[c].Idle?
    ensures Begins(step, c) ==> Serves(step.api, Do(s, step).callers[c])
    ensures !Begins(step, c) ==>
              && c in s.callers && !s.callers[c].Idle?
              && forall api :: Serves(api, s.callers[c]) ==> Serves(api, Do(s, step).callers[c])
  {
  }

  /** The call a caller is in is the one it last made, with the closure it made it with. */
  lemma {:induction false} CallIsTheOneMade(states: seq<State>, steps: seq<Step>, k: nat, c: nat) returns (i: nat)
    requires Run(states, steps) && k < |states| && c in states[k].callers && !states[k].callers[c].Idle?
    ensures i < k && Begins(steps[i], c) && Serves(steps[i].api, states[k].callers[c])
    ensures forall m :: i < m < k ==> !Begins(steps[m], c)
  {
    if k == 0 {
      assert false;
    } else {
      StepServes(states[k - 1], steps[k - 1], c);
      if Begins(steps[k - 1], c) {
        i := k - 1;
      } else {
        hide Do, Enabled, Serves;
        i := CallIsTheOneMade(states, steps, k - 1, c);
      }
    }
  }
}
