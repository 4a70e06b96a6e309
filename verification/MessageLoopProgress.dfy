/**
  Progress of the message loop protocol: every step of a call or of a worker
  uses up some of a budget, so once no new call begins, all calls return.
 */
module MessageLoopProgress {
  import opened MessageLoopThread

  // ---------------------------------------------------------------------
  // Totals over maps
  // ---------------------------------------------------------------------

  ghost function Total(m: map<nat, nat>): nat
    decreases |m|
  {
    if m == map[] then 0
    else
      var k :| k in m;
      m[k] + Total(m - {k})
  }

  lemma {:induction false} TotalWithout(m: map<nat, nat>, k: nat)
    requires k in m
    ensures Total(m) == m[k] + Total(m - {k})
    decreases |m|
  {
    var j :| j in m && Total(m) == m[j] + Total(m - {j});
    if j != k {
      TotalWithout(m - {j}, k);
      TotalWithout(m - {k}, j);
      assert m - {j} - {k} == m - {k} - {j};
    }
  }

  /** A total changes by as much as the one entry written. */
  lemma TotalUpdate(m: map<nat, nat>, k: nat, v: nat)
    ensures Total(m[k := v]) == Total(m) + v - (if k in m then m[k] else 0)
  {
    TotalWithout(m[k := v], k);
    assert m[k := v] - {k} == m - {k};
    if k in m {
      TotalWithout(m, k);
    } else {
      assert m - {k} == m;
    }
  }

  // ---------------------------------------------------------------------
  // The budget
  // ---------------------------------------------------------------------

  /** How many steps a worker has left. */
  function PhaseRank(p: Phase): nat {
    match p
    case Spawned => 13
    case MakeLoop => 12
    case MakeRunLoop => 11
    case MakeId => 10
    case Announce => 9
    case UnlockReady => 8
    case EnterLoop => 7
    case Looping => 6
    case Leaving => 5
    case ClearId => 4
    case DropLoop => 3
    case DropRunLoop => 2
    case UnlockGone => 1
    case Exited => 0
  }

  /** How many steps a call has left, with those of a worker it may still spawn. */
  function PcRank(pc: Pc): nat {
    match pc
    case Idle => 0
    case StartLock => 17
    case StartCheck => 16
    case StartUnlock(_) => 2
    case StartWait(_) => 1
    case StopLock => 7
    case StopCheck => 6
    case StopUnlock(_) => 5
    case StopJoin(_) => 4
    case StopRelock(_) => 3
    case StopFree(_) => 2
    case StopUnlockLast => 1
    case PostLock(_) => 3
    case PostCheck(_) => 2
    case PostUnlock(_) => 1
    case AskLock => 3
    case AskCheck => 2
    case AskUnlock(_) => 1
  }

  function CallerRanks(callers: map<nat, Pc>): map<nat, nat> {
    map c | c in callers :: PcRank(callers[c])
  }

  function WorkerRanks(workers: map<nat, Phase>): map<nat, nat> {
    map w | w in workers :: PhaseRank(workers[w])
  }

  ghost function Budget(s: State): nat {
    Total(CallerRanks(s.callers)) + Total(WorkerRanks(s.workers))
  }

  lemma CallerRankUpdate(callers: map<nat, Pc>, c: nat, pc: Pc)
    requires c in callers
    ensures Total(CallerRanks(callers[c := pc])) == Total(CallerRanks(callers)) + PcRank(pc) - PcRank(callers[c])
  {
    hide PcRank, Total;
    TotalUpdate(CallerRanks(callers), c, PcRank(pc));
    assert CallerRanks(callers[c := pc]) == CallerRanks(callers)[c := PcRank(pc)];
  }

  lemma WorkerRankUpdate(workers: map<nat, Phase>, w: nat, p: Phase)
    ensures Total(WorkerRanks(workers[w := p])) ==
            Total(WorkerRanks(workers)) + PhaseRank(p) - (if w in workers then PhaseRank(workers[w]) else 0)
  {
    hide PhaseRank, Total;
    TotalUpdate(WorkerRanks(workers), w, PhaseRank(p));
    assert WorkerRanks(workers[w := p]) == WorkerRanks(workers)[w := PhaseRank(p)];
  }

  lemma CallUsesBudget(s: State, pc: Pc)
    requires !pc.Idle?
    ensures PcRank(NextPc(s, pc)) + (if Spawns(s, pc) then PhaseRank(Spawned) else 0) < PcRank(pc)
  {
  }

  /** Every step but the beginning of a call uses up some of the budget. */
  lemma StepUsesBudget(s: State, step: Step)
    requires Inv(s) && Enabled(s, step) && !step.Begin?
    ensures Budget(Do(s, step)) < Budget(s)
  {
    hide Total, CallerRanks, WorkerRanks, MutexAgrees, FieldsAgree, ShutdownAgrees, JoinerAgrees, WaitersAgree, ViewsAgree;
    match step {
      case Go(c) =>
        var pc := s.callers[c];
        CallUsesBudget(s, pc);
        hide PcRank, NextPc;
        CallerRankUpdate(s.callers, c, NextPc(s, pc));
        if Spawns(s, pc) {
          assert s.next !in s.workers;
          WorkerRankUpdate(s.workers, s.next, Spawned);
        }
      case Work(w) =>
        WorkerRankUpdate(s.workers, w, NextPhase(s.workers[w]));
    }
  }

  // ---------------------------------------------------------------------
  // All calls return
  // ---------------------------------------------------------------------

  /** Steps taken from any state, none of which begins a call. */
  ghost predicate Settling(states: seq<State>, steps: seq<Step>) {
    && |states| == |steps| + 1
    && forall i :: 0 <= i < |steps| ==>
         !steps[i].Begin? && Enabled(states[i], steps[i]) && states[i + 1] == Do(states[i], steps[i])
  }

  lemma {:induction false} SettlingIsBounded(states: seq<State>, steps: seq<Step>, k: nat)
    requires Settling(states, steps) && Reachable(states[0]) && k < |states|
    ensures Reachable(states[k]) && k + Budget(states[k]) <= Budget(states[0])
  {
    hide Reachable, Enabled, Do, Budget;
    if k > 0 {
      SettlingIsBounded(states, steps, k - 1);
      ReachableIsSafe(states[k - 1]);
      hide Inv;
      StepUsesBudget(states[k - 1], steps[k - 1]);
      ReachableStep(states[k - 1], steps[k - 1]);
    }
  }

  /**
    From every reachable state, when no new call begins: at most so many steps
    follow, whoever takes them, and where nobody can take another every call
    has returned.
   */
  lemma AllCallsReturn(states: seq<State>, steps: seq<Step>)
    requires Settling(states, steps) && Reachable(states[0])
    ensures |steps| <= Budget(states[0])
    ensures var last := states[|steps|];
            !CanStep(last) ==> forall c :: c in last.callers ==> last.callers[c].Idle?
  {
    hide Reachable, Enabled, Do, Budget;
    SettlingIsBounded(states, steps, |steps|);
    var last := states[|steps|];
    forall c | c in last.callers && !last.callers[c].Idle? ensures CanStep(last) {
      NoDeadlock(last, c);
    }
  }
}
