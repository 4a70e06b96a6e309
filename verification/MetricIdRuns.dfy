/**
  Whole runs of the metric id allocator: the caches, the id set and the disk
  behind the two callbacks agree after every operation, across reopening.
 */
module MetricIdRuns {
  import opened Options
  import opened RecencyList
  import opened IdSpace
  import opened MetricIds

  // ---------------------------------------------------------------------
  // The disk: what the callbacks have achieved
  // ---------------------------------------------------------------------

  /** The disk after one callback; a refused save leaves no trace. */
  function Applied(disk: DeviceMap, e: Event): DeviceMap {
    match e
    case Saved(a, id, accepted) => if accepted then disk[a := id] else disk
    case Forgot(a, _) => disk - {a}
  }

  function Replay(saved: DeviceMap, log: seq<Event>): DeviceMap {
    if log == [] then saved else Applied(Replay(saved, log[..|log| - 1]), log[|log| - 1])
  }

  function Disk(s: State): DeviceMap {
    Replay(s.saved, s.log)
  }

  function Refuse(refused: set<RawAddress>, e: Event): set<RawAddress> {
    match e
    case Saved(a, _, accepted) => if accepted then refused - {a} else refused + {a}
    case Forgot(a, _) => refused - {a}
  }

  /** The devices whose last callback was a save that returned false. */
  function Refused(log: seq<Event>): set<RawAddress> {
    if log == [] then {} else Refuse(Refused(log[..|log| - 1]), log[|log| - 1])
  }

  /** The disk is the paired cache, less exactly the devices whose save was refused. */
  ghost predicate DiskAgrees(s: State) {
    && Refused(s.log) <= s.Paired().Keys
    && Disk(s) == s.Paired() - Refused(s.log)
  }

  /** So the disk equals the paired cache if and only if no refused save is outstanding. */
  lemma DiskEqualsPairedIff(s: State)
    requires DiskAgrees(s)
    ensures Disk(s) == s.Paired() <==> Refused(s.log) == {}
  {
    if Refused(s.log) != {} {
      var a :| a in Refused(s.log);
      assert a in s.Paired() && a !in Disk(s);
    }
  }

  // ---------------------------------------------------------------------
  // Runs
  // ---------------------------------------------------------------------

  datatype Op =
    | AllocateId(address: RawAddress)
    | SaveDevice(address: RawAddress, accepted: bool)
    | ForgetDevice(address: RawAddress)
    | Reopen  // Close, then Init with what is on disk

  ghost predicate Next(s: State, op: Op, s': State) {
    match op
    case AllocateId(a) => ValidId(s.next) && |s.ids| < SIZE && s' == Allocate(s, a).0
    case SaveDevice(a, accepted) => s' == Save(s, a, accepted).0
    case ForgetDevice(a) => s' == Forget(s, a)
    case Reopen => Initial(s', Disk(s))
  }

  ghost predicate Run(states: seq<State>, ops: seq<Op>) {
    && |states| == |ops| + 1
    && forall i :: 0 <= i < |ops| ==> Next(states[i], ops[i], states[i + 1])
  }

  lemma ReplayAppend(saved: DeviceMap, log: seq<Event>, e: Event)
    ensures Replay(saved, log + [e]) == Applied(Replay(saved, log), e)
    ensures Refused(log + [e]) == Refuse(Refused(log), e)
  {
    assert (log + [e])[..|log|] == log;
  }

  /** The paired map, the disk and the refused devices after forgetting one device. */
  lemma ForgottenAgrees(saved: DeviceMap, log: seq<Event>, p: DeviceMap, w: RawAddress, id: int)
    requires Refused(log) <= p.Keys && Replay(saved, log) == p - Refused(log)
    ensures Refused(log + [Forgot(w, id)]) <= (p - {w}).Keys
    ensures Replay(saved, log + [Forgot(w, id)]) == (p - {w}) - Refused(log + [Forgot(w, id)])
  {
    ReplayAppend(saved, log, Forgot(w, id));
  }

  lemma SavedAgrees(saved: DeviceMap, log: seq<Event>, p: DeviceMap, a: RawAddress, id: int, accepted: bool)
    requires Refused(log) <= p.Keys && Replay(saved, log) == p - Refused(log) && a !in p
    ensures Refused(log + [Saved(a, id, accepted)]) <= p[a := id].Keys
    ensures Replay(saved, log + [Saved(a, id, accepted)]) == p[a := id] - Refused(log + [Saved(a, id, accepted)])
  {
    ReplayAppend(saved, log, Saved(a, id, accepted));
  }

  lemma SaveKeepsDisk(s: State, a: RawAddress, accepted: bool)
    requires Inv(s) && DiskAgrees(s)
    ensures DiskAgrees(Save(s, a, accepted).0)
  {
    hide Save, Consistent, Replay, Refused;
    SaveOnMaps(s, a, accepted);
    if a in s.Temporary() {
      var id := s.Temporary()[a];
      var victim := Victim(s.paired, MAX_PAIRED, a);
      if victim.Some? {
        var w := victim.value;
        ForgottenAgrees(s.saved, s.log, s.Paired(), w.0, w.1);
        SavedAgrees(s.saved, s.log + [Forgot(w.0, w.1)], s.Paired() - {w.0}, a, id, accepted);
      } else {
        SavedAgrees(s.saved, s.log, s.Paired(), a, id, accepted);
      }
    }
  }

  lemma ForgetKeepsDisk(s: State, a: RawAddress)
    requires Inv(s) && DiskAgrees(s)
    ensures DiskAgrees(Forget(s, a))
  {
    ForgetOnMaps(s, a);
    if a in s.Paired() {
      ForgottenAgrees(s.saved, s.log, s.Paired(), a, s.Paired()[a]);
    }
  }

  /** Whatever is on disk can always be restored. */
  lemma DiskIsRestorable(s: State)
    requires Inv(s) && DiskAgrees(s)
    ensures Restorable(Disk(s))
  {
    MapSize(s.paired);
    SubsetSize(Disk(s).Keys, s.Paired().Keys);
    assert |Disk(s)| == |Disk(s).Keys| && |s.Paired()| == |s.Paired().Keys|;
    forall a | a in Disk(s) ensures ValidId(Disk(s)[a]) {
      assert a in s.Devices() && s.Devices()[a] == Disk(s)[a];
    }
    forall a, b | a in Disk(s) && b in Disk(s) && a != b ensures Disk(s)[a] != Disk(s)[b] {
      assert s.Devices()[a] == Disk(s)[a] && s.Devices()[b] == Disk(s)[b];
    }
  }

  lemma InitialAgrees(s: State, saved: DeviceMap)
    requires Initial(s, saved) && Restorable(saved)
    ensures Inv(s) && DiskAgrees(s)
  {
    InitialIffRestorable(s, saved);
  }

  lemma AllocateKeepsDisk(s: State, a: RawAddress)
    requires Inv(s) && DiskAgrees(s) && |s.ids| < SIZE
    ensures DiskAgrees(Allocate(s, a).0)
  {
    if a in s.Devices() { AllocateKnown(s, a); } else { AllocateNew(s, a); }
  }

  lemma StepKeepsAll(s: State, op: Op, s': State)
    requires Inv(s) && DiskAgrees(s) && Next(s, op, s')
    ensures Inv(s') && DiskAgrees(s')
  {
    hide Inv, DiskAgrees, Initial, Restorable, Allocate, Save, Forget;
    match op {
      case AllocateId(a) =>
        AllocateKeepsInv(s, a);
        AllocateKeepsDisk(s, a);
      case SaveDevice(a, accepted) =>
        SaveKeepsInv(s, a, accepted);
        SaveKeepsDisk(s, a, accepted);
      case ForgetDevice(a) =>
        ForgetKeepsInv(s, a);
        ForgetKeepsDisk(s, a);
      case Reopen =>
        DiskIsRestorable(s);
        InitialAgrees(s', Disk(s));
    }
  }

  /** From any restorable saved map, every state of every run is consistent and agrees with the disk. */
  lemma {:induction false} RunIsSafe(saved: DeviceMap, states: seq<State>, ops: seq<Op>, k: nat)
    requires Restorable(saved) && Run(states, ops) && Initial(states[0], saved)
    requires k < |states|
    ensures Inv(states[k]) && DiskAgrees(states[k])
  {
    hide Next, Inv, DiskAgrees, Initial, Restorable;
    if k == 0 {
      InitialAgrees(states[0], saved);
    } else {
      RunIsSafe(saved, states, ops, k - 1);
      StepKeepsAll(states[k - 1], ops[k - 1], states[k]);
    }
  }

  /** An allocation is always possible, and picks the first free id at or after the cursor. */
  lemma AllocationPicksFirstFree(s: State, a: RawAddress)
    requires Inv(s)
    ensures |s.ids| < SIZE
    ensures a in s.Devices() ==> Allocate(s, a).1 == s.Devices()[a]
    ensures a !in s.Devices() ==> FirstFree(s.ids, s.next, Allocate(s, a).1)
    ensures a in Allocate(s, a).0.Devices() && Allocate(s, a).0.Devices()[a] == Allocate(s, a).1
  {
    IdsBounded(s);
    if a in s.Devices() {
      AllocateKnown(s, a);
    } else {
      AllocateNew(s, a);
      NextFreeIsFirst(s.ids, s.next);
    }
  }

  // ---------------------------------------------------------------------
  // A device keeps its id
  // ---------------------------------------------------------------------

  lemma StepKeepsId(s: State, op: Op, s': State, a: RawAddress)
    requires Inv(s) && DiskAgrees(s) && Next(s, op, s')
    requires a in s.Devices() && a in s'.Devices()
    ensures s'.Devices()[a] == s.Devices()[a]
  {
    hide Allocate, Save, Forget, AsMap, Consistent, Replay, Refused, NextFree;
    match op {
      case AllocateId(b) =>
        if b in s.Devices() { AllocateKnown(s, b); } else { AllocateNew(s, b); }
      case SaveDevice(b, accepted) => SaveOnMaps(s, b, accepted);
      case ForgetDevice(b) => ForgetOnMaps(s, b);
      case Reopen => AsMapEmpty();
    }
  }

  lemma AsMapEmpty()
    ensures AsMap<RawAddress, int>([]) == map[]
  {
  }

  /** While a device stays in either cache its id does not change, also when it moves between them. */
  lemma {:induction false} RunKeepsId(saved: DeviceMap, states: seq<State>, ops: seq<Op>, a: RawAddress, i: nat, j: nat)
    requires Restorable(saved) && Run(states, ops) && Initial(states[0], saved)
    requires i <= j < |states| && forall k :: i <= k <= j ==> a in states[k].Devices()
    ensures states[j].Devices()[a] == states[i].Devices()[a]
    decreases j - i
  {
    hide Next, Inv, DiskAgrees, Initial, Restorable, State.Devices;
    if i < j {
      RunKeepsId(saved, states, ops, a, i, j - 1);
      RunIsSafe(saved, states, ops, j - 1);
      StepKeepsId(states[j - 1], ops[j - 1], states[j], a);
    }
  }

  // ---------------------------------------------------------------------
  // The store behind the callbacks
  // ---------------------------------------------------------------------

  lemma StepRefusesNothing(s: State, op: Op, s': State)
    requires Inv(s) && Next(s, op, s') && Refused(s.log) == {}
    requires op.SaveDevice? ==> op.accepted
    ensures Refused(s'.log) == {}
  {
    hide Allocate, Save, Forget, AsMap, Consistent, Refused;
    match op {
      case AllocateId(a) =>
        if a in s.Devices() { AllocateKnown(s, a); } else { AllocateNew(s, a); }
      case SaveDevice(a, _) =>
        SaveOnMaps(s, a, true);
        if a in s.Temporary() { SaveRefusesNothing(s, a); }
      case ForgetDevice(a) =>
        ForgetOnMaps(s, a);
        if a in s.Paired() { ReplayAppend(s.saved, s.log, Forgot(a, s.Paired()[a])); }
      case Reopen => RefusedEmpty();
    }
  }

  lemma RefusedEmpty()
    ensures Refused([]) == {}
  {
  }

  lemma SaveRefusesNothing(s: State, a: RawAddress)
    requires Shape(s) && Refused(s.log) == {} && a in s.Temporary()
    ensures Refused(Save(s, a, true).0.log) == {}
  {
    hide Save, AsMap, Refused;
    SaveOnMaps(s, a, true);
    var victim := Victim(s.paired, MAX_PAIRED, a);
    var save := Saved(a, s.Temporary()[a], true);
    if victim.Some? {
      var forgot := Forgot(victim.value.0, victim.value.1);
      ReplayAppend(s.saved, s.log, forgot);
      ReplayAppend(s.saved, s.log + [forgot], save);
    } else {
      ReplayAppend(s.saved, s.log, save);
    }
  }

  lemma InitialRefusesNothing(s: State, saved: DeviceMap)
    requires Initial(s, saved)
    ensures Refused(s.log) == {}
  {
  }

  /** If every save callback succeeds, the store equals the paired cache after every operation. */
  lemma {:induction false} StoreEqualsPairedCache(saved: DeviceMap, states: seq<State>, ops: seq<Op>, k: nat)
    requires Restorable(saved) && Run(states, ops) && Initial(states[0], saved)
    requires forall i :: 0 <= i < |ops| && ops[i].SaveDevice? ==> ops[i].accepted
    requires k < |states|
    ensures Refused(states[k].log) == {} && Disk(states[k]) == states[k].Paired()
  {
    hide Next, Inv, DiskAgrees, Initial, Restorable, State.Paired, Refused, Disk;
    RunIsSafe(saved, states, ops, k);
    if k == 0 {
      InitialRefusesNothing(states[0], saved);
    } else {
      StoreEqualsPairedCache(saved, states, ops, k - 1);
      RunIsSafe(saved, states, ops, k - 1);
      StepRefusesNothing(states[k - 1], ops[k - 1], states[k]);
    }
    DiskEqualsPairedIff(states[k]);
  }

  /**
    A refused save is never retried: saving the device again reports success
    without calling back, so it stays off the disk until it is forgotten.
   */
  lemma RefusedSaveIsNotRetried(s: State, a: RawAddress, accepted: bool)
    requires Inv(s) && DiskAgrees(s) && a in Refused(s.log)
    ensures Save(s, a, accepted).1
    ensures var s' := Save(s, a, accepted).0;
            s'.log == s.log && a in s'.Paired() && a !in Disk(s')
  {
    SaveOnMaps(s, a, accepted);
  }

  lemma StepKeepsRefused(s: State, op: Op, s': State, a: RawAddress)
    requires Inv(s) && DiskAgrees(s) && Next(s, op, s') && !op.Reopen?
    requires a in Refused(s.log) && a in s'.Paired()
    ensures a in Refused(s'.log)
  {
    assert a in s.Paired();
    match op {
      case AllocateId(b) =>
        hide Allocate, AsMap, Refused, DiskAgrees;
        if b in s.Devices() { AllocateKnown(s, b); } else { AllocateNew(s, b); }
      case SaveDevice(b, accepted) => SaveKeepsRefused(s, b, accepted, a);
      case ForgetDevice(b) => ForgetKeepsRefused(s, b, a);
    }
  }

  lemma SaveKeepsRefused(s: State, b: RawAddress, accepted: bool, a: RawAddress)
    requires Inv(s) && a in s.Paired() && a in Refused(s.log) && a in Save(s, b, accepted).0.Paired()
    ensures a in Refused(Save(s, b, accepted).0.log)
  {
    hide Save, AsMap, Refused;
    SaveOnMaps(s, b, accepted);
    if b in s.Temporary() {
      var victim := Victim(s.paired, MAX_PAIRED, b);
      var save := Saved(b, s.Temporary()[b], accepted);
      if victim.Some? {
        var forgot := Forgot(victim.value.0, victim.value.1);
        ReplayAppend(s.saved, s.log, forgot);
        ReplayAppend(s.saved, s.log + [forgot], save);
      } else {
        ReplayAppend(s.saved, s.log, save);
      }
    }
  }

  lemma ForgetKeepsRefused(s: State, b: RawAddress, a: RawAddress)
    requires Inv(s) && a in Refused(s.log) && a in Forget(s, b).Paired()
    ensures a in Refused(Forget(s, b).log)
  {
    hide Forget, AsMap, Refused;
    ForgetOnMaps(s, b);
    if b in s.Paired() {
      ReplayAppend(s.saved, s.log, Forgot(b, s.Paired()[b]));
    }
  }

  /** Over whole runs: until the allocator is reopened, a refused device stays off the disk as long as it stays paired. */
  lemma {:induction false} RefusedStaysOffDisk(saved: DeviceMap, states: seq<State>, ops: seq<Op>, a: RawAddress, i: nat, j: nat)
    requires Restorable(saved) && Run(states, ops) && Initial(states[0], saved)
    requires i <= j < |states| && a in Refused(states[i].log)
    requires forall k :: i <= k < j ==> !ops[k].Reopen? && a in states[k + 1].Paired()
    ensures a in Refused(states[j].log) && a !in Disk(states[j])
    decreases j - i
  {
    RunIsSafe(saved, states, ops, j);
    if i < j {
      RefusedStaysOffDisk(saved, states, ops, a, i, j - 1);
      RunIsSafe(saved, states, ops, j - 1);
      hide Inv, Next, Initial, Restorable, DiskAgrees, Refused, Disk, State.Paired;
      assert !ops[j - 1].Reopen? && a in states[j - 1 + 1].Paired();
      StepKeepsRefused(states[j - 1], ops[j - 1], states[j], a);
    }
    RefusedIsOffDisk(states[j], a);
  }

  lemma RefusedIsOffDisk(s: State, a: RawAddress)
    requires DiskAgrees(s) && a in Refused(s.log)
    ensures a !in Disk(s)
  {
  }

  // ---------------------------------------------------------------------
  // A run in which the disk differs
  // ---------------------------------------------------------------------

  const SCRATCH := State([], [], {}, MIN_ID, map[], [])

  lemma ScratchIsInitial()
    ensures Initial(SCRATCH, map[]) && Restorable(map[])
    ensures Inv(SCRATCH) && DiskAgrees(SCRATCH) && SCRATCH.Devices() == map[]
  {
    AsMapEmpty();
    hide Inv, DiskAgrees;
    InitialAgrees(SCRATCH, map[]);
  }

  /** A new device can always be allocated, and is then a temporary one. */
  lemma NewDeviceIsTemporary(s: State, a: RawAddress) returns (s': State)
    requires Inv(s) && DiskAgrees(s) && a !in s.Devices()
    ensures Next(s, AllocateId(a), s') && Inv(s') && DiskAgrees(s') && a in s'.Temporary()
  {
    IdsBounded(s);
    s' := Allocate(s, a).0;
    AllocateNew(s, a);
    hide Allocate, NextFree, Insert, AsMap, DiskAgrees;
    StepKeepsAll(s, AllocateId(a), s');
  }

  /** A refused save of a temporary device leaves it paired and off the disk. */
  lemma RefusedSaveIsOffDisk(s: State, a: RawAddress) returns (s': State)
    requires Inv(s) && DiskAgrees(s) && a in s.Temporary()
    ensures Next(s, SaveDevice(a, false), s') && a in Refused(s'.log) && Disk(s') != s'.Paired()
  {
    s' := Save(s, a, false).0;
    SaveOnMaps(s, a, false);
    LastRefused(s'.log, a);
    hide Save, AsMap, Refused;
    SaveKeepsDisk(s, a, false);
    DiskEqualsPairedIff(s');
  }

  lemma LastRefused(log: seq<Event>, a: RawAddress)
    requires log != [] && log[|log| - 1].Saved? && log[|log| - 1].address == a && !log[|log| - 1].accepted
    ensures a in Refused(log)
  {
  }

  lemma TwoStepRun(s0: State, op0: Op, s1: State, op1: Op, s2: State)
    requires Next(s0, op0, s1) && Next(s1, op1, s2)
    ensures Run([s0, s1, s2], [op0, op1])
  {
    hide Next;
  }

  /** It happens: a device allocated and saved from scratch is not on disk when the save is refused. */
  lemma RefusedSaveDiverges(a: RawAddress) returns (states: seq<State>)
    ensures Run(states, [AllocateId(a), SaveDevice(a, false)]) && Restorable(map[]) && Initial(states[0], map[])
    ensures a in Refused(states[2].log) && Disk(states[2]) != states[2].Paired()
  {
    ScratchIsInitial();
    hide Inv, DiskAgrees, Initial, Restorable, Next, Run, Refused, Disk, State.Paired;
    var s1 := NewDeviceIsTemporary(SCRATCH, a);
    var s2 := RefusedSaveIsOffDisk(s1, a);
    TwoStepRun(SCRATCH, AllocateId(a), s1, SaveDevice(a, false), s2);
    states := [SCRATCH, s1, s2];
  }
}
