/**
  The message loop thread as a protocol between any number of callers and the
  worker threads they spawn, one step per access to the shared fields.

  `fault` stands for everything the code must never do: use or delete a null
  or foreign reference, join or free a thread twice.
 */
module MessageLoopThread {
  import opened Options

  datatype Actor = Caller(id: nat) | Worker(id: nat)

  /** Where a call is.  Comments name what the next step does. */
  datatype Pc =
    | Idle
    // StartUp
    | StartLock                          // take the mutex
    | StartCheck                         // (locked) look at thread_, maybe spawn
    | StartUnlock(spawned: Option<nat>)  // (locked) release
    | StartWait(worker: nat)             // wait for the promise
    // ShutDown
    | StopLock                           // take the mutex
    | StopCheck                          // (locked) look at the fields, post the quit
    | StopUnlock(joining: Option<nat>)   // (locked) release
    | StopJoin(seen: nat)                // unlocked: join whatever thread_ points to
    | StopRelock(seen: nat)              // take the mutex again
    | StopFree(seen: nat)                // (locked) delete thread_
    | StopUnlockLast                     // (locked) release
    // DoInThreadDelayed
    | PostLock(task: nat) | PostCheck(task: nat) | PostUnlock(taken: bool)
    // IsRunning
    | AskLock | AskCheck | AskUnlock(running: bool)

  datatype Phase =
    | Spawned        // take the mutex
    | MakeLoop       // (locked) message_loop_ = new ...
    | MakeRunLoop    // (locked) run_loop_ = new ...
    | MakeId         // (locked) thread_id_ = ...
    | Announce       // (locked) fulfil the promise
    | UnlockReady    // (locked) release
    | EnterLoop      // unlocked: call run_loop_->Run()
    | Looping        // until a quit is posted to this loop
    | Leaving        // take the mutex
    | ClearId        // (locked) thread_id_ = -1
    | DropLoop       // (locked) delete message_loop_
    | DropRunLoop    // (locked) delete run_loop_
    | UnlockGone     // (locked) release
    | Exited

  datatype State = State(
    mutex: Option<Actor>,
    thread: Option<nat>,        // thread_
    loop: Option<nat>,          // message_loop_, by the worker that owns it
    runLoop: Option<nat>,       // run_loop_
    threadId: Option<nat>,      // thread_id_, None for -1
    shuttingDown: bool,
    next: nat,                  // the next worker
    workers: map<nat, Phase>,
    callers: map<nat, Pc>,
    promised: set<nat>,         // workers whose start-up promise is fulfilled
    quit: set<nat>,             // loops a quit has been posted to
    joined: set<nat>,
    freed: set<nat>,
    posts: seq<(nat, nat)>,     // tasks, with the worker whose loop took them
    fault: bool)

  predicate CallerHolds(pc: Pc) {
    match pc
    case StartCheck | StartUnlock(_) | StopCheck | StopUnlock(_) | StopFree(_) | StopUnlockLast => true
    case PostCheck(_) | PostUnlock(_) | AskCheck | AskUnlock(_) => true
    case _ => false
  }

  predicate WorkerHolds(p: Phase) {
    match p
    case MakeLoop | MakeRunLoop | MakeId | Announce | UnlockReady => true
    case ClearId | DropLoop | DropRunLoop | UnlockGone => true
    case _ => false
  }

  predicate CallerWantsLock(pc: Pc) {
    pc.StartLock? || pc.StopLock? || pc.StopRelock? || pc.PostLock? || pc.AskLock?
  }

  predicate WorkerWantsLock(p: Phase) {
    p.Spawned? || p.Leaving?
  }

  // ---------------------------------------------------------------------
  // Steps
  // ---------------------------------------------------------------------

  datatype Api = StartUp | ShutDown | Post(task: nat) | IsRunning

  datatype Step =
    | Begin(caller: nat, api: Api)
    | Go(caller: nat)
    | Work(worker: nat)

  predicate Enabled(s: State, step: Step) {
    match step
    case Begin(c, _) => c in s.callers && s.callers[c].Idle?
    case Go(c) =>
      c in s.callers &&
      (var pc := s.callers[c];
       if CallerWantsLock(pc) then s.mutex.None?
       else if pc.StartWait? then pc.worker in s.promised
       else if pc.StopJoin? then s.thread.None? || (s.thread.value in s.workers && s.workers[s.thread.value].Exited?)
       else !pc.Idle?)
    case Work(w) =>
      w in s.workers &&
      (var p := s.workers[w];
       if WorkerWantsLock(p) then s.mutex.None?
       else if p.Looping? then w in s.quit
       else !p.Exited?)
  }

  function AtCaller(s: State, c: nat, pc: Pc): State {
    s.(callers := s.callers[c := pc])
  }

  function BeginApi(api: Api): Pc {
    match api
    case StartUp => StartLock
    case ShutDown => StopLock
    case Post(t) => PostLock(t)
    case IsRunning => AskLock
  }

  /** StartUp finds no thread and spawns one. */
  predicate Spawns(s: State, pc: Pc) {
    pc.StartCheck? && s.thread.None?
  }

  /** ShutDown finds a running loop that nobody is shutting down, and claims it. */
  predicate Claims(s: State, pc: Pc) {
    pc.StopCheck? && s.thread.Some? && s.loop.Some? && !s.shuttingDown
  }

  predicate Releases(pc: Pc) {
    pc.StartUnlock? || pc.StopUnlock? || pc.StopUnlockLast? || pc.PostUnlock? || pc.AskUnlock?
  }

  function NextPc(s: State, pc: Pc): Pc {
    match pc
    case Idle => Idle
    case StartLock => StartCheck
    case StartCheck => StartUnlock(if Spawns(s, pc) then Some(s.next) else None)
    case StartUnlock(made) => if made.Some? then StartWait(made.value) else Idle
    case StartWait(_) => Idle
    case StopLock => StopCheck
    case StopCheck => StopUnlock(if Claims(s, pc) then s.thread else None)
    case StopUnlock(joining) => if joining.Some? then StopJoin(joining.value) else Idle
    case StopJoin(seen) => StopRelock(seen)
    case StopRelock(seen) => StopFree(seen)
    case StopFree(_) => StopUnlockLast
    case StopUnlockLast => Idle
    case PostLock(t) => PostCheck(t)
    case PostCheck(_) => PostUnlock(s.loop.Some?)
    case PostUnlock(_) => Idle
    case AskLock => AskCheck
    case AskCheck => AskUnlock(s.threadId.Some?)
    case AskUnlock(_) => Idle
  }

  /** What a caller's step must not do: follow a null field, join or free twice, free unjoined. */
  predicate CallerFault(s: State, pc: Pc) {
    || (Claims(s, pc) && s.runLoop != s.loop)
    || (pc.StopJoin? && (s.thread.None? || s.thread.value in s.joined))
    || (pc.StopFree? && (s.thread.None? || s.thread.value in s.freed || s.thread.value !in s.joined))
  }

  function GoCaller(s: State, c: nat): State
    requires Enabled(s, Go(c))
  {
    var pc := s.callers[c];
    s.(callers := s.callers[c := NextPc(s, pc)],
       mutex := if CallerWantsLock(pc) then Some(Caller(c)) else if Releases(pc) then None else s.mutex,
       thread := if Spawns(s, pc) then Some(s.next) else if pc.StopFree? then None else s.thread,
       workers := if Spawns(s, pc) then s.workers[s.next := Spawned] else s.workers,
       next := if Spawns(s, pc) then s.next + 1 else s.next,
       shuttingDown := if Claims(s, pc) then true else if pc.StopFree? then false else s.shuttingDown,
       quit := if Claims(s, pc) then s.quit + {s.loop.value} else s.quit,
       joined := if pc.StopJoin? && s.thread.Some? then s.joined + {s.thread.value} else s.joined,
       freed := if pc.StopFree? && s.thread.Some? then s.freed + {s.thread.value} else s.freed,
       posts := if pc.PostCheck? && s.loop.Some? then s.posts + [(pc.task, s.loop.value)] else s.posts,
       fault := s.fault || CallerFault(s, pc))
  }

  function NextPhase(p: Phase): Phase {
    match p
    case Spawned => MakeLoop
    case MakeLoop => MakeRunLoop
    case MakeRunLoop => MakeId
    case MakeId => Announce
    case Announce => UnlockReady
    case UnlockReady => EnterLoop
    case EnterLoop => Looping
    case Looping => Leaving
    case Leaving => ClearId
    case ClearId => DropLoop
    case DropLoop => DropRunLoop
    case DropRunLoop => UnlockGone
    case UnlockGone => Exited
    case Exited => Exited
  }

  /** What a worker's step must not do: leak, use or delete an object that is not its own. */
  predicate WorkerFault(s: State, w: nat, p: Phase) {
    || (p.MakeLoop? && s.loop.Some?)
    || (p.MakeRunLoop? && s.runLoop.Some?)
    || (p.EnterLoop? && s.runLoop != Some(w))
    || (p.DropLoop? && s.loop != Some(w))
    || (p.DropRunLoop? && s.runLoop != Some(w))
  }

  function GoWorker(s: State, w: nat): State
    requires Enabled(s, Work(w))
  {
    var p := s.workers[w];
    s.(workers := s.workers[w := NextPhase(p)],
       mutex := if WorkerWantsLock(p) then Some(Worker(w))
                else if p.UnlockReady? || p.UnlockGone? then None else s.mutex,
       loop := if p.MakeLoop? then Some(w) else if p.DropLoop? then None else s.loop,
       runLoop := if p.MakeRunLoop? then Some(w) else if p.DropRunLoop? then None else s.runLoop,
       threadId := if p.MakeId? then Some(w) else if p.ClearId? then None else s.threadId,
       promised := if p.Announce? then s.promised + {w} else s.promised,
       fault := s.fault || WorkerFault(s, w, p))
  }

  function Do(s: State, step: Step): State
    requires Enabled(s, step)
  {
    match step
    case Begin(c, api) => AtCaller(s, c, BeginApi(api))
    case Go(c) => GoCaller(s, c)
    case Work(w) => GoWorker(s, w)
  }

  predicate Initial(s: State) {
    && s.mutex.None? && s.thread.None? && s.loop.None? && s.runLoop.None? && s.threadId.None?
    && !s.shuttingDown && s.workers == map[] && s.promised == {} && s.quit == {}
    && s.joined == {} && s.freed == {} && s.posts == [] && !s.fault
    && forall c :: c in s.callers ==> s.callers[c].Idle?
  }

  /** A run: any interleaving of enabled steps from an initial state. */
  ghost predicate Run(states: seq<State>, steps: seq<Step>) {
    && |states| == |steps| + 1 && Initial(states[0])
    && forall i :: 0 <= i < |steps| ==> Enabled(states[i], steps[i]) && states[i + 1] == Do(states[i], steps[i])
  }

  // ---------------------------------------------------------------------
  // The invariant
  // ---------------------------------------------------------------------

  predicate HasLoop(p: Phase) {
    !(p.Spawned? || p.MakeLoop? || p.DropRunLoop? || p.UnlockGone? || p.Exited?)
  }

  predicate HasRunLoop(p: Phase) {
    !(p.Spawned? || p.MakeLoop? || p.MakeRunLoop? || p.UnlockGone? || p.Exited?)
  }

  predicate HasId(p: Phase) {
    p.Announce? || p.UnlockReady? || p.EnterLoop? || p.Looping? || p.Leaving? || p.ClearId?
  }

  predicate IsPromised(p: Phase) {
    !(p.Spawned? || p.MakeLoop? || p.MakeRunLoop? || p.MakeId? || p.Announce?)
  }

  /** Past the loop, which only a posted quit ends. */
  predicate HasQuit(p: Phase) {
    p.Leaving? || p.ClearId? || p.DropLoop? || p.DropRunLoop? || p.UnlockGone? || p.Exited?
  }

  /** A ShutDown that has claimed the thread and not yet let go of it. */
  predicate Joins(pc: Pc) {
    (pc.StopUnlock? && pc.joining.Some?) || pc.StopJoin? || pc.StopRelock? || pc.StopFree?
  }

  function JoinTarget(pc: Pc): nat
    requires Joins(pc)
  {
    if pc.StopUnlock? then pc.joining.value else pc.seen
  }

  predicate HasJoined(pc: Pc) {
    pc.StopRelock? || pc.StopFree?
  }

  /** Whoever is in a locked section owns the mutex, and nobody else does. */
  ghost predicate MutexAgrees(s: State) {
    && (forall c :: c in s.callers ==> (CallerHolds(s.callers[c]) <==> s.mutex == Some(Caller(c))))
    && (forall w :: w in s.workers ==> (WorkerHolds(s.workers[w]) <==> s.mutex == Some(Worker(w))))
    && (s.mutex.Some? ==>
          match s.mutex.value case Caller(c) => c in s.callers case Worker(w) => w in s.workers)
  }

  /** The three fields are those of the current worker, as far as its phase has set them. */
  ghost predicate FieldsAgree(s: State) {
    match s.thread
    case None => s.loop.None? && s.runLoop.None? && s.threadId.None?
    case Some(w) =>
      && w in s.workers
      && s.loop == (if HasLoop(s.workers[w]) then Some(w) else None)
      && s.runLoop == (if HasRunLoop(s.workers[w]) then Some(w) else None)
      && s.threadId == (if HasId(s.workers[w]) then Some(w) else None)
  }

  /** Every worker but the current one has exited and was joined and freed. */
  ghost predicate WorkersAgree(s: State) {
    && (forall w :: w in s.workers ==> w < s.next)
    && (forall w :: w in s.workers && s.thread != Some(w) ==> s.workers[w].Exited? && w in s.joined)
    && s.freed == s.workers.Keys - (if s.thread.Some? then {s.thread.value} else {})
    && (forall w :: w in s.joined ==> w in s.workers)
    && (forall w :: w in s.promised <==> w in s.workers && IsPromised(s.workers[w]))
    && (forall w :: w in s.workers && HasQuit(s.workers[w]) ==> w in s.quit)
  }

  /** At most one ShutDown is at work, exactly while shutting_down_ is set. */
  ghost predicate ShutdownAgrees(s: State) {
    && (s.shuttingDown <==> exists c :: c in s.callers && Joins(s.callers[c]))
    && (forall c, d :: c in s.callers && d in s.callers && Joins(s.callers[c]) && Joins(s.callers[d]) ==> c == d)
  }

  /** It works on the current thread, which is joined once that caller has joined it. */
  ghost predicate JoinersFollow(s: State) {
    forall c :: c in s.callers && Joins(s.callers[c]) ==>
      var w := JoinTarget(s.callers[c]);
      && s.thread == Some(w) && w in s.quit
      && (w in s.joined <==> HasJoined(s.callers[c]))
      && (HasJoined(s.callers[c]) ==> w in s.workers && s.workers[w].Exited?)
  }

  /** A thread nobody is shutting down was neither asked to quit nor joined. */
  ghost predicate UnclaimedIsUntouched(s: State) {
    s.thread.Some? && !s.shuttingDown ==> s.thread.value !in s.quit && s.thread.value !in s.joined
  }

  ghost predicate JoinerAgrees(s: State) {
    JoinersFollow(s) && UnclaimedIsUntouched(s)
  }

  /** Calls and posted quits refer to workers that exist. */
  ghost predicate WaitersAgree(s: State) {
    && (forall c :: c in s.callers && s.callers[c].StartWait? ==> s.callers[c].worker in s.workers)
    && (forall c :: c in s.callers && s.callers[c].StartUnlock? && s.callers[c].spawned.Some? ==>
          s.callers[c].spawned.value in s.workers)
    && (forall w :: w in s.quit ==> w in s.workers)
  }

  /** What a caller saw under the lock still holds when it is about to release it. */
  ghost predicate ViewsAgree(s: State) {
    forall c :: c in s.callers ==>
      match s.callers[c]
      case StartUnlock(None) => s.thread.Some?
      case StopUnlock(None) => s.thread.None? || s.loop.None? || s.shuttingDown
      case StopUnlockLast => s.thread.None?
      case AskUnlock(running) => running == s.threadId.Some?
      case _ => true
  }

  ghost predicate Inv(s: State) {
    && !s.fault && MutexAgrees(s) && FieldsAgree(s) && WorkersAgree(s)
    && ShutdownAgrees(s) && JoinerAgrees(s) && WaitersAgree(s) && ViewsAgree(s)
  }

  lemma InitialInv(s: State)
    requires Initial(s)
    ensures Inv(s)
  {
  }

  lemma BeginKeepsNoFault(s: State, c: nat, api: Api)
    requires Inv(s) && Enabled(s, Begin(c, api))
    ensures !Do(s, Begin(c, api)).fault
  {
    hide MutexAgrees, FieldsAgree, WorkersAgree, ShutdownAgrees, JoinerAgrees, WaitersAgree, ViewsAgree;
  }

  lemma BeginKeepsMutex(s: State, c: nat, api: Api)
    requires Inv(s) && Enabled(s, Begin(c, api))
    ensures MutexAgrees(Do(s, Begin(c, api)))
  {
    hide FieldsAgree, WorkersAgree, ShutdownAgrees, JoinerAgrees, WaitersAgree, ViewsAgree;
  }

  lemma BeginKeepsFields(s: State, c: nat, api: Api)
    requires Inv(s) && Enabled(s, Begin(c, api))
    ensures FieldsAgree(Do(s, Begin(c, api)))
  {
    hide MutexAgrees, WorkersAgree, ShutdownAgrees, JoinerAgrees, WaitersAgree, ViewsAgree;
  }

  lemma BeginKeepsWorkers(s: State, c: nat, api: Api)
    requires Inv(s) && Enabled(s, Begin(c, api))
    ensures WorkersAgree(Do(s, Begin(c, api)))
  {
    hide MutexAgrees, FieldsAgree, ShutdownAgrees, JoinerAgrees, WaitersAgree, ViewsAgree;
  }

  lemma BeginKeepsShutdown(s: State, c: nat, api: Api)
    requires Inv(s) && Enabled(s, Begin(c, api))
    ensures ShutdownAgrees(Do(s, Begin(c, api)))
  {
    hide MutexAgrees, FieldsAgree, WorkersAgree, JoinerAgrees, WaitersAgree, ViewsAgree;
    var s' := Do(s, Begin(c, api));
    forall d | d in s.callers ensures Joins(s'.callers[d]) <==> Joins(s.callers[d]) {}
  }

  lemma BeginKeepsJoiner(s: State, c: nat, api: Api)
    requires Inv(s) && Enabled(s, Begin(c, api))
    ensures JoinerAgrees(Do(s, Begin(c, api)))
  {
    hide MutexAgrees, FieldsAgree, WorkersAgree, ShutdownAgrees, WaitersAgree, ViewsAgree;
  }

  lemma BeginKeepsWaiters(s: State, c: nat, api: Api)
    requires Inv(s) && Enabled(s, Begin(c, api))
    ensures WaitersAgree(Do(s, Begin(c, api)))
  {
    hide MutexAgrees, FieldsAgree, WorkersAgree, ShutdownAgrees, JoinerAgrees, ViewsAgree;
  }

  lemma BeginKeepsViews(s: State, c: nat, api: Api)
    requires Inv(s) && Enabled(s, Begin(c, api))
    ensures ViewsAgree(Do(s, Begin(c, api)))
  {
    hide MutexAgrees, FieldsAgree, WorkersAgree, ShutdownAgrees, JoinerAgrees, WaitersAgree;
  }

  lemma BeginKeepsInv(s: State, c: nat, api: Api)
    requires Inv(s) && Enabled(s, Begin(c, api))
    ensures Inv(Do(s, Begin(c, api)))
  {
    hide MutexAgrees, FieldsAgree, WorkersAgree, ShutdownAgrees, JoinerAgrees, WaitersAgree, ViewsAgree, Enabled, GoCaller, GoWorker;
    BeginKeepsNoFault(s, c, api);
    BeginKeepsMutex(s, c, api);
    BeginKeepsFields(s, c, api);
    BeginKeepsWorkers(s, c, api);
    BeginKeepsShutdown(s, c, api);
    BeginKeepsJoiner(s, c, api);
    BeginKeepsWaiters(s, c, api);
    BeginKeepsViews(s, c, api);
  }

  lemma WorkerKeepsNoFault(s: State, w: nat)
    requires Inv(s) && Enabled(s, Work(w))
    ensures !GoWorker(s, w).fault
  {
    hide MutexAgrees, ShutdownAgrees, JoinerAgrees, WaitersAgree, ViewsAgree;
  }

  lemma WorkerKeepsMutex(s: State, w: nat)
    requires Inv(s) && Enabled(s, Work(w))
    ensures MutexAgrees(GoWorker(s, w))
  {
    hide FieldsAgree, WorkersAgree, ShutdownAgrees, JoinerAgrees, WaitersAgree, ViewsAgree;
  }

  lemma WorkerKeepsFields(s: State, w: nat)
    requires Inv(s) && Enabled(s, Work(w))
    ensures FieldsAgree(GoWorker(s, w))
  {
    hide MutexAgrees, ShutdownAgrees, JoinerAgrees, WaitersAgree, ViewsAgree;
  }

  lemma WorkerKeepsWorkers(s: State, w: nat)
    requires Inv(s) && Enabled(s, Work(w))
    ensures WorkersAgree(GoWorker(s, w))
  {
    hide MutexAgrees, FieldsAgree, ShutdownAgrees, JoinerAgrees, WaitersAgree, ViewsAgree;
  }

  lemma WorkerKeepsShutdown(s: State, w: nat)
    requires Inv(s) && Enabled(s, Work(w))
    ensures ShutdownAgrees(GoWorker(s, w))
  {
    hide MutexAgrees, FieldsAgree, WorkersAgree, JoinerAgrees, WaitersAgree, ViewsAgree;
  }

  lemma WorkerKeepsJoiner(s: State, w: nat)
    requires Inv(s) && Enabled(s, Work(w))
    ensures JoinerAgrees(GoWorker(s, w))
  {
    hide MutexAgrees, FieldsAgree, WorkersAgree, ShutdownAgrees, WaitersAgree, ViewsAgree;
  }

  lemma WorkerKeepsWaiters(s: State, w: nat)
    requires Inv(s) && Enabled(s, Work(w))
    ensures WaitersAgree(GoWorker(s, w))
  {
    hide MutexAgrees, FieldsAgree, WorkersAgree, ShutdownAgrees, JoinerAgrees, ViewsAgree;
  }

  lemma WorkerKeepsViews(s: State, w: nat)
    requires Inv(s) && Enabled(s, Work(w))
    ensures ViewsAgree(GoWorker(s, w))
  {
    hide FieldsAgree, WorkersAgree, ShutdownAgrees, JoinerAgrees, WaitersAgree;
  }

  lemma WorkerKeepsInv(s: State, w: nat)
    requires Inv(s) && Enabled(s, Work(w))
    ensures Inv(GoWorker(s, w))
  {
    hide MutexAgrees, FieldsAgree, WorkersAgree, ShutdownAgrees, JoinerAgrees, WaitersAgree, ViewsAgree, Enabled, GoCaller, GoWorker;
    WorkerKeepsNoFault(s, w);
    WorkerKeepsMutex(s, w);
    WorkerKeepsFields(s, w);
    WorkerKeepsWorkers(s, w);
    WorkerKeepsShutdown(s, w);
    WorkerKeepsJoiner(s, w);
    WorkerKeepsViews(s, w);
    WorkerKeepsWaiters(s, w);
  }

  lemma CallerKeepsNoFault(s: State, c: nat)
    requires Inv(s) && Enabled(s, Go(c))
    ensures !GoCaller(s, c).fault
  {
    hide ShutdownAgrees, WaitersAgree, ViewsAgree;
    if Claims(s, s.callers[c]) {
      // the caller holds the mutex, so the worker is not half way through a locked section
      assert !WorkerHolds(s.workers[s.thread.value]);
    }
  }

  lemma CallerKeepsMutex(s: State, c: nat)
    requires Inv(s) && Enabled(s, Go(c))
    ensures MutexAgrees(GoCaller(s, c))
  {
    hide FieldsAgree, ShutdownAgrees, JoinerAgrees, WaitersAgree, ViewsAgree;
  }

  lemma CallerKeepsFields(s: State, c: nat)
    requires Inv(s) && Enabled(s, Go(c))
    ensures FieldsAgree(GoCaller(s, c))
  {
    hide MutexAgrees, ShutdownAgrees, WaitersAgree, ViewsAgree;
  }

  lemma CallerKeepsWorkers(s: State, c: nat)
    requires Inv(s) && Enabled(s, Go(c))
    ensures WorkersAgree(GoCaller(s, c))
  {
    hide MutexAgrees, FieldsAgree, ShutdownAgrees, WaitersAgree, ViewsAgree;
  }

  lemma CallerKeepsShutdown(s: State, c: nat)
    requires Inv(s) && Enabled(s, Go(c))
    ensures ShutdownAgrees(GoCaller(s, c))
  {
    hide MutexAgrees, FieldsAgree, WorkersAgree, JoinerAgrees, WaitersAgree, ViewsAgree;
    var s', pc := GoCaller(s, c), s.callers[c];
    assert Joins(NextPc(s, pc)) <==> (Joins(pc) && !pc.StopFree?) || Claims(s, pc);
    forall d | d in s.callers ensures
      Joins(s'.callers[d]) <==> if d == c then Joins(NextPc(s, pc)) else Joins(s.callers[d])
    {}
  }

  lemma CallerKeepsJoiner(s: State, c: nat)
    requires Inv(s) && Enabled(s, Go(c))
    ensures JoinerAgrees(GoCaller(s, c))
  {
    CallerKeepsFollowing(s, c);
    CallerKeepsUntouched(s, c);
    hide MutexAgrees, FieldsAgree, WorkersAgree, ShutdownAgrees, WaitersAgree, ViewsAgree, GoCaller;
    hide JoinersFollow, UnclaimedIsUntouched;
  }

  lemma CallerKeepsFollowing(s: State, c: nat)
    requires Inv(s) && Enabled(s, Go(c))
    ensures JoinersFollow(GoCaller(s, c))
  {
    hide MutexAgrees, WaitersAgree, ViewsAgree;
  }

  lemma CallerKeepsUntouched(s: State, c: nat)
    requires Inv(s) && Enabled(s, Go(c))
    ensures UnclaimedIsUntouched(GoCaller(s, c))
  {
    hide MutexAgrees, FieldsAgree, ViewsAgree;
  }

  lemma CallerKeepsWaiters(s: State, c: nat)
    requires Inv(s) && Enabled(s, Go(c))
    ensures WaitersAgree(GoCaller(s, c))
  {
    hide MutexAgrees, WorkersAgree, ShutdownAgrees, JoinerAgrees, ViewsAgree;
  }

  lemma CallerKeepsViews(s: State, c: nat)
    requires Inv(s) && Enabled(s, Go(c))
    ensures ViewsAgree(GoCaller(s, c))
  {
    hide FieldsAgree, WorkersAgree, ShutdownAgrees, JoinerAgrees, WaitersAgree;
  }

  lemma CallerKeepsInv(s: State, c: nat)
    requires Inv(s) && Enabled(s, Go(c))
    ensures Inv(GoCaller(s, c))
  {
    hide MutexAgrees, FieldsAgree, WorkersAgree, ShutdownAgrees, JoinerAgrees, WaitersAgree, ViewsAgree, Enabled, GoCaller, GoWorker;
    CallerKeepsNoFault(s, c);
    CallerKeepsMutex(s, c);
    CallerKeepsFields(s, c);
    CallerKeepsWorkers(s, c);
    CallerKeepsShutdown(s, c);
    CallerKeepsJoiner(s, c);
    CallerKeepsWaiters(s, c);
    CallerKeepsViews(s, c);
  }

  lemma StepKeepsInv(s: State, step: Step)
    requires Inv(s) && Enabled(s, step)
    ensures Inv(Do(s, step))
  {
    hide Inv, Enabled, GoCaller, GoWorker;
    match step {
      case Begin(c, api) => BeginKeepsInv(s, c, api);
      case Go(c) => CallerKeepsInv(s, c);
      case Work(w) => WorkerKeepsInv(s, w);
    }
  }

  /** Every state of every interleaving is safe. */
  lemma {:induction false} RunIsSafe(states: seq<State>, steps: seq<Step>, k: nat)
    requires Run(states, steps) && k < |states|
    ensures Inv(states[k])
  {
    hide Inv, Enabled, Do;
    if k == 0 {
      InitialInv(states[0]);
    } else {
      RunIsSafe(states, steps, k - 1);
      StepKeepsInv(states[k - 1], steps[k - 1]);
    }
  }

  ghost predicate Reachable(s: State) {
    exists states, steps :: Run(states, steps) && states[|states| - 1] == s
  }

  lemma ReachableIsSafe(s: State)
    requires Reachable(s)
    ensures Inv(s)
  {
    hide Inv, Enabled, Do;
    var states, steps :| Run(states, steps) && states[|states| - 1] == s;
    RunIsSafe(states, steps, |states| - 1);
  }

  lemma ReachableStep(s: State, step: Step)
    requires Reachable(s) && Enabled(s, step)
    ensures Reachable(Do(s, step))
  {
    hide Enabled, Do;
    var states, steps :| Run(states, steps) && states[|states| - 1] == s;
    var states', steps' := states + [Do(s, step)], steps + [step];
    assert Run(states', steps') by {
      forall i | 0 <= i < |steps'|
        ensures Enabled(states'[i], steps'[i]) && states'[i + 1] == Do(states'[i], steps'[i])
      {
        if i < |steps| { assert states'[i] == states[i] && states'[i + 1] == states[i + 1]; }
      }
    }
    assert states'[|states'| - 1] == Do(s, step);
  }

  // ---------------------------------------------------------------------
  // What safety means
  // ---------------------------------------------------------------------

  /** The worker is between announcing itself and taking itself down. */
  predicate Live(p: Phase) {
    p.EnterLoop? || p.Looping? || p.Leaving?
  }

  /** While the mutex is free, loop, run loop and thread id are set or unset together. */
  lemma FieldsSetTogether(s: State)
    requires Reachable(s) && s.mutex.None?
    ensures s.loop == s.runLoop == s.threadId
    ensures s.loop.Some? ==> s.loop == s.thread && s.loop.value in s.workers && Live(s.workers[s.loop.value])
  {
    ReachableIsSafe(s);
    hide Reachable, WorkersAgree, ShutdownAgrees, JoinerAgrees, WaitersAgree, ViewsAgree;
  }

  /** The unlocked join finds the non-null thread its caller saw under the lock, joined by nobody yet. */
  lemma JoinFindsItsThread(s: State, c: nat)
    requires Reachable(s) && c in s.callers && s.callers[c].StopJoin?
    ensures var w := s.callers[c].seen;
            && s.thread == Some(w) && w in s.workers && w !in s.joined && w in s.quit
            && s.mutex != Some(Caller(c))
            && forall d :: d in s.callers && d != c ==> !Joins(s.callers[d])
  {
    ReachableIsSafe(s);
    hide Reachable;
  }

  /** Each worker but the current one has exited, was joined and was freed; none twice, which would be a fault. */
  lemma WorkersJoinedAndFreed(s: State, w: nat)
    requires Reachable(s) && w in s.workers && s.thread != Some(w)
    ensures !s.fault && s.workers[w].Exited? && w in s.joined && w in s.freed
  {
    ReachableIsSafe(s);
    hide Reachable;
  }

  lemma CheckSeesSettledWorker(s: State, c: nat)
    requires Inv(s) && c in s.callers && CallerHolds(s.callers[c]) && s.thread.Some?
    ensures var w := s.thread.value;
            && w in s.workers && !WorkerHolds(s.workers[w])
            && (Live(s.workers[w]) <==> s.loop == Some(w))
            && (Live(s.workers[w]) <==> s.threadId == Some(w))
            && (!Live(s.workers[w]) ==> s.loop.None? && s.threadId.None?)
  {
    hide WorkersAgree, ShutdownAgrees, JoinerAgrees, WaitersAgree, ViewsAgree;
  }

  /** A task is only ever posted to the loop of a live worker. */
  lemma PostsReachLiveLoops(s: State, step: Step)
    requires Reachable(s) && Enabled(s, step) && Do(s, step).posts != s.posts
    ensures s.thread.Some? && s.thread.value in s.workers && Live(s.workers[s.thread.value])
    ensures exists task :: Do(s, step).posts == s.posts + [(task, s.thread.value)]
  {
    ReachableIsSafe(s);
    hide Reachable;
    var pc := s.callers[step.caller];
    assert s.thread.Some? by { hide MutexAgrees, WorkersAgree, ShutdownAgrees, JoinerAgrees, WaitersAgree; }
    CheckSeesSettledWorker(s, step.caller);
    assert Do(s, step).posts == s.posts + [(pc.task, s.thread.value)];
  }

  /** IsRunning answers whether the current worker is live when it looks. */
  lemma IsRunningIsLive(s: State, c: nat)
    requires Reachable(s) && Enabled(s, Go(c)) && s.callers[c].AskCheck?
    ensures GoCaller(s, c).callers[c] ==
            AskUnlock(s.thread.Some? && s.thread.value in s.workers && Live(s.workers[s.thread.value]))
  {
    ReachableIsSafe(s);
    hide Reachable;
    if s.thread.Some? {
      CheckSeesSettledWorker(s, c);
    }
  }

  /** ShutDown stops the thread exactly when the worker is set up and no quit has been posted to it. */
  lemma ShutDownClaimsIff(s: State, c: nat)
    requires Reachable(s) && c in s.callers && s.callers[c].StopCheck?
    ensures Claims(s, s.callers[c]) <==>
              s.thread.Some? && s.thread.value in s.workers && Live(s.workers[s.thread.value]) && s.thread.value !in s.quit
  {
    ReachableIsSafe(s);
    hide Reachable;
    if s.thread.Some? {
      CheckSeesSettledWorker(s, c);
    }
  }

  /** The worker is announced and has not gone: what a caller of StartUp may rely on. */
  predicate Serving(s: State) {
    s.thread.Some? && s.thread.value in s.promised && s.thread.value in s.workers && !s.workers[s.thread.value].Exited?
  }

  /**
    StartUp that found a thread: there still is one when it returns, and
    IsRunning would say so if and only if its worker has announced itself and
    has not gone.
   */
  lemma SecondStartUpReturnsRunningIff(s: State, c: nat)
    requires Reachable(s) && c in s.callers && s.callers[c] == StartUnlock(None)
    ensures Enabled(s, Go(c)) && Do(s, Go(c)).callers[c].Idle? && Do(s, Go(c)).threadId == s.threadId
    ensures s.thread.Some? && (s.threadId.Some? <==> Serving(s))
  {
    ReachableIsSafe(s);
    hide Reachable, ShutdownAgrees, JoinerAgrees, WaitersAgree;
    CheckSeesSettledWorker(s, c);
  }

  /**
    StartUp that spawned the thread: when it returns its worker has the thread
    id if and only if that worker has not begun to take itself down, which it
    only does after a quit was posted to it.
   */
  lemma SpawnerReturnsRunningIff(s: State, c: nat)
    requires Reachable(s) && Enabled(s, Go(c)) && s.callers[c].StartWait?
    ensures var w := s.callers[c].worker;
            && Do(s, Go(c)).callers[c].Idle? && Do(s, Go(c)).threadId == s.threadId && w in s.workers
            && (s.threadId == Some(w) <==> HasId(s.workers[w]))
            && (w !in s.quit ==> s.threadId == Some(w))
  {
    ReachableIsSafe(s);
    hide Reachable, MutexAgrees, ShutdownAgrees, JoinerAgrees, ViewsAgree;
  }

  /**
    ShutDown that did not take the thread down: IsRunning would still say yes
    if and only if the worker serves, and then another ShutDown has posted its
    quit already.
   */
  lemma SecondShutDownReturnsStoppedIff(s: State, c: nat)
    requires Reachable(s) && c in s.callers && s.callers[c] == StopUnlock(None)
    ensures s.threadId.Some? <==> Serving(s)
    ensures Serving(s) ==> s.shuttingDown && s.thread.value in s.quit
  {
    ReachableIsSafe(s);
    hide Reachable, WaitersAgree;
    if s.thread.Some? {
      CheckSeesSettledWorker(s, c);
    }
  }

  /** ShutDown that took it down returns with no thread and all fields unset. */
  lemma ClaimingShutDownReturnsStopped(s: State, c: nat)
    requires Reachable(s) && c in s.callers && s.callers[c].StopUnlockLast?
    ensures s.thread.None? && s.loop.None? && s.runLoop.None? && s.threadId.None?
  {
    ReachableIsSafe(s);
    hide Reachable, MutexAgrees, WorkersAgree, ShutdownAgrees, JoinerAgrees, WaitersAgree;
  }

  /** The worker can still take up work: it has not left its loop. */
  predicate InLoop(p: Phase) {
    p.EnterLoop? || p.Looping?
  }

  /**
    A yes of IsRunning means a worker that is able to do work if and only if
    that worker has not left its loop, and always when no quit was posted to it.
   */
  lemma RunningMeansAbleIff(s: State, c: nat)
    requires Reachable(s) && c in s.callers && s.callers[c] == AskUnlock(true)
    ensures s.thread.Some? && s.thread.value in s.workers
    ensures var w := s.thread.value;
            && (InLoop(s.workers[w]) <==> !s.workers[w].Leaving?)
            && (w !in s.quit ==> InLoop(s.workers[w]))
  {
    ReachableIsSafe(s);
    hide Reachable, ShutdownAgrees, JoinerAgrees, WaitersAgree;
    CheckSeesSettledWorker(s, c);
  }

  /** The same of a post that is accepted. */
  lemma PostMeansAbleIff(s: State, c: nat)
    requires Reachable(s) && Enabled(s, Go(c)) && s.callers[c].PostCheck? && GoCaller(s, c).posts != s.posts
    ensures s.thread.Some? && s.thread.value in s.workers
    ensures var w := s.thread.value;
            && (InLoop(s.workers[w]) <==> !s.workers[w].Leaving?)
            && (w !in s.quit ==> InLoop(s.workers[w]))
  {
    PostsReachLiveLoops(s, Go(c));
    ReachableIsSafe(s);
    hide Reachable, MutexAgrees, FieldsAgree, ShutdownAgrees, JoinerAgrees, WaitersAgree, ViewsAgree;
  }

  // ---------------------------------------------------------------------
  // No deadlock
  // ---------------------------------------------------------------------

  /** Some call or worker can take a step. */
  ghost predicate CanStep(s: State) {
    (exists c :: Enabled(s, Go(c))) || (exists w :: Enabled(s, Work(w)))
  }

  lemma HolderCanGo(s: State)
    requires Inv(s) && s.mutex.Some?
    ensures CanStep(s)
  {
    hide FieldsAgree, WorkersAgree, ShutdownAgrees, JoinerAgrees, WaitersAgree, ViewsAgree;
    match s.mutex.value {
      case Caller(c) => assert Enabled(s, Go(c));
      case Worker(w) => assert Enabled(s, Work(w));
    }
  }

  lemma WaiterCanBeServed(s: State, c: nat)
    requires Inv(s) && s.mutex.None? && c in s.callers && s.callers[c].StartWait?
    ensures CanStep(s)
  {
    hide FieldsAgree, ShutdownAgrees, JoinerAgrees, ViewsAgree;
    var w := s.callers[c].worker;
    if w in s.promised {
      assert Enabled(s, Go(c));
    } else {
      assert Enabled(s, Work(w));
    }
  }

  lemma JoinerCanBeServed(s: State, c: nat)
    requires Inv(s) && s.mutex.None? && c in s.callers && s.callers[c].StopJoin?
    ensures CanStep(s)
  {
    hide ShutdownAgrees, ViewsAgree;
    var w := s.callers[c].seen;
    assert s.thread == Some(w) && w in s.workers && w in s.quit;
    if s.workers[w].Exited? {
      assert Enabled(s, Go(c));
    } else {
      assert Enabled(s, Work(w));
    }
  }

  /** As long as any call is unfinished, somebody can take a step. */
  lemma NoDeadlock(s: State, c: nat)
    requires Reachable(s) && c in s.callers && !s.callers[c].Idle?
    ensures CanStep(s)
  {
    ReachableIsSafe(s);
    hide Reachable, FieldsAgree, WorkersAgree, ShutdownAgrees, JoinerAgrees, WaitersAgree, ViewsAgree;
    if s.mutex.Some? {
      HolderCanGo(s);
    } else if s.callers[c].StartWait? {
      WaiterCanBeServed(s, c);
    } else if s.callers[c].StopJoin? {
      JoinerCanBeServed(s, c);
    } else {
      assert !CallerHolds(s.callers[c]);
      assert Enabled(s, Go(c));
    }
  }

  // ---------------------------------------------------------------------
  // Three promises of the header that do not hold
  // ---------------------------------------------------------------------

  const FRESH := State(None, None, None, None, None, false, 0, map[], map[0 := Idle, 1 := Idle], {}, {}, {}, {}, [], false)

  /** Caller 0 has spawned a worker that has not run yet. */
  const SPAWNED := FRESH.(thread := Some(0), next := 1, workers := map[0 := Spawned], callers := map[0 := StartWait(0), 1 := Idle])

  lemma FreshIsReachable()
    ensures Reachable(FRESH)
  {
    assert Run([FRESH], []) && [FRESH][0] == FRESH;
  }

  lemma SpawnedIsReachable()
    ensures Reachable(SPAWNED)
  {
    hide Reachable;
    FreshIsReachable();
    var s1 := Do(FRESH, Begin(0, StartUp));
    ReachableStep(FRESH, Begin(0, StartUp));
    var s2 := Do(s1, Go(0));
    ReachableStep(s1, Go(0));
    var s3 := Do(s2, Go(0));
    ReachableStep(s2, Go(0));
    ReachableStep(s3, Go(0));
    assert Do(s3, Go(0)) == SPAWNED;
  }

  /** StartUp may return although the thread is not running: another caller's worker is not set up yet. */
  lemma StartUpMayReturnBeforeRunning()
    ensures exists before: State ::
              && Reachable(before) && Enabled(before, Go(1)) && before.callers[1] == StartUnlock(None)
              && var s := Do(before, Go(1)); s.callers[1].Idle? && s.thread.Some? && s.threadId.None?
  {
    hide Reachable;
    SpawnedIsReachable();
    var s1 := Do(SPAWNED, Begin(1, StartUp));
    ReachableStep(SPAWNED, Begin(1, StartUp));
    var s2 := Do(s1, Go(1));
    ReachableStep(s1, Go(1));
    var s3 := Do(s2, Go(1));
    ReachableStep(s2, Go(1));
    assert Enabled(s3, Go(1)) && s3.callers[1] == StartUnlock(None);
  }

  /** ShutDown may return and leave a thread that nobody is stopping: its loop is not set up yet. */
  lemma ShutDownMayMissStartingThread()
    ensures exists before: State ::
              && Reachable(before) && Enabled(before, Go(1)) && before.callers[1] == StopUnlock(None)
              && var s := Do(before, Go(1)); s.callers[1].Idle? && s.thread.Some? && s.quit == {} && !s.shuttingDown
  {
    hide Reachable;
    SpawnedIsReachable();
    var s1 := Do(SPAWNED, Begin(1, ShutDown));
    ReachableStep(SPAWNED, Begin(1, ShutDown));
    var s2 := Do(s1, Go(1));
    ReachableStep(s1, Go(1));
    var s3 := Do(s2, Go(1));
    ReachableStep(s2, Go(1));
    assert Enabled(s3, Go(1)) && s3.callers[1] == StopUnlock(None);
  }

  /** The worker of caller 0 is in its loop. */
  const LOOPING := FRESH.(
    thread := Some(0), loop := Some(0), runLoop := Some(0), threadId := Some(0), next := 1,
    workers := map[0 := Looping], callers := map[0 := StartWait(0), 1 := Idle], promised := {0})

  lemma LoopingIsReachable()
    ensures Reachable(LOOPING)
  {
    hide Reachable;
    SpawnedIsReachable();
    ReachableStep(SPAWNED, Work(0));
    var s1 := GoWorker(SPAWNED, 0);
    ReachableStep(s1, Work(0));
    var s2 := GoWorker(s1, 0);
    ReachableStep(s2, Work(0));
    var s3 := GoWorker(s2, 0);
    ReachableStep(s3, Work(0));
    var s4 := GoWorker(s3, 0);
    assert s4 == FRESH.(mutex := Some(Worker(0)),
      thread := Some(0), loop := Some(0), runLoop := Some(0), threadId := Some(0), next := 1,
      workers := map[0 := Announce], callers := map[0 := StartWait(0), 1 := Idle]);
    AnnouncedGetsToLoop(s4);
  }

  lemma AnnouncedGetsToLoop(s: State)
    requires Reachable(s)
    requires s == FRESH.(mutex := Some(Worker(0)),
               thread := Some(0), loop := Some(0), runLoop := Some(0), threadId := Some(0), next := 1,
               workers := map[0 := Announce], callers := map[0 := StartWait(0), 1 := Idle])
    ensures Reachable(LOOPING)
  {
    hide Reachable;
    ReachableStep(s, Work(0));
    var s1 := GoWorker(s, 0);
    ReachableStep(s1, Work(0));
    var s2 := GoWorker(s1, 0);
    ReachableStep(s2, Work(0));
    assert GoWorker(s2, 0) == LOOPING;
  }

  /** Caller 1 has posted the quit and joins, and the worker has left its loop. */
  const LEAVING := LOOPING.(
    workers := map[0 := Leaving], callers := map[0 := Idle, 1 := StopJoin(0)], quit := {0}, shuttingDown := true)

  lemma LeavingIsReachable()
    ensures Reachable(LEAVING)
  {
    hide Reachable;
    LoopingIsReachable();
    ReachableStep(LOOPING, Go(0));
    var s0 := GoCaller(LOOPING, 0);
    ReachableStep(s0, Begin(1, ShutDown));
    var s1 := Do(s0, Begin(1, ShutDown));
    ReachableStep(s1, Go(1));
    var s2 := GoCaller(s1, 1);
    ReachableStep(s2, Go(1));
    var s3 := GoCaller(s2, 1);
    assert s3 == LOOPING.(mutex := Some(Caller(1)), callers := map[0 := Idle, 1 := StopUnlock(Some(0))],
      quit := {0}, shuttingDown := true);
    QuitIsFollowed(s3);
  }

  lemma QuitIsFollowed(s: State)
    requires Reachable(s)
    requires s == LOOPING.(mutex := Some(Caller(1)), callers := map[0 := Idle, 1 := StopUnlock(Some(0))],
               quit := {0}, shuttingDown := true)
    ensures Reachable(LEAVING)
  {
    hide Reachable;
    ReachableStep(s, Go(1));
    var s1 := GoCaller(s, 1);
    ReachableStep(s1, Work(0));
    assert GoWorker(s1, 0) == LEAVING;
  }

  /** IsRunning may say yes of a worker that has left its loop. */
  lemma RunningMayMeanLeaving()
    ensures exists s: State :: Reachable(s) && 0 in s.callers && s.callers[0] == AskUnlock(true) && s.workers == map[0 := Leaving]
  {
    hide Reachable;
    LeavingIsReachable();
    ReachableStep(LEAVING, Begin(0, IsRunning));
    var s1 := Do(LEAVING, Begin(0, IsRunning));
    ReachableStep(s1, Go(0));
    var s2 := GoCaller(s1, 0);
    ReachableStep(s2, Go(0));
    assert GoCaller(s2, 0).callers[0] == AskUnlock(true);
  }

  /** And a post may be accepted by one. */
  lemma PostMayBeLost(task: nat)
    ensures exists s: State :: Reachable(s) && s.posts == [(task, 0)] && s.workers == map[0 := Leaving]
  {
    hide Reachable;
    LeavingIsReachable();
    ReachableStep(LEAVING, Begin(0, Post(task)));
    var s1 := Do(LEAVING, Begin(0, Post(task)));
    ReachableStep(s1, Go(0));
    var s2 := GoCaller(s1, 0);
    ReachableStep(s2, Go(0));
    assert GoCaller(s2, 0).posts == [(task, 0)];
  }
}
