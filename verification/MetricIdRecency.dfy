/**
  Which device the allocator drops when a cache is full, from the history of
  calls alone: the one that was named longest ago.
 */
module MetricIdRecency {
  import opened Options
  import opened Sequences
  import opened RecencyList
  import opened IdSpace
  import opened MetricIds
  import opened MetricIdRuns

  type Ranks = RawAddress -> int

  /** When AllocateId was last called for `a`; -1 if never. */
  function LastAllocated(ops: seq<Op>, a: RawAddress): (t: int)
    ensures -1 <= t < |ops|
  {
    if ops == [] then -1
    else if ops[|ops| - 1] == AllocateId(a) then |ops| - 1
    else LastAllocated(ops[..|ops| - 1], a)
  }

  predicate Names(op: Op, a: RawAddress) {
    (op.AllocateId? || op.SaveDevice?) && op.address == a
  }

  /** When AllocateId or SaveDevice was last called for `a` since the devices were loaded; -1 if never. */
  function LastNamed(ops: seq<Op>, a: RawAddress): (t: int)
    ensures -1 <= t < |ops|
  {
    if ops == [] || ops[|ops| - 1].Reopen? then -1
    else if Names(ops[|ops| - 1], a) then |ops| - 1
    else LastNamed(ops[..|ops| - 1], a)
  }

  function Allocated(ops: seq<Op>): Ranks { a => LastAllocated(ops, a) }
  function Named(ops: seq<Op>): Ranks { a => LastNamed(ops, a) }

  // ---------------------------------------------------------------------
  // Lists ordered by rank
  // ---------------------------------------------------------------------

  type Devices = Entries<RawAddress, int>

  /** Strictly decreasing, but for those that have no rank, which come last. */
  ghost predicate Ranked(es: Devices, rank: Ranks) {
    forall i, j :: 0 <= i < j < |es| ==> rank(es[i].0) > rank(es[j].0) || rank(es[i].0) == rank(es[j].0) == -1
  }

  ghost predicate AllRanked(es: Devices, rank: Ranks) {
    forall i :: 0 <= i < |es| ==> rank(es[i].0) >= 0
  }

  /** After a call that names `a`, the others keep their ranks and `a` is above them. */
  ghost predicate Raises(es: Devices, a: RawAddress, rank: Ranks, rank': Ranks) {
    && rank'(a) >= 0
    && forall i :: 0 <= i < |es| && es[i].0 != a ==> rank'(es[i].0) == rank(es[i].0) && rank'(a) > rank'(es[i].0)
  }

  lemma DropKeepsRanked(es: Devices, rank: Ranks, at: nat)
    requires Ranked(es, rank) && at < |es|
    ensures Ranked(DropAt(es, at), rank)
    ensures AllRanked(es, rank) ==> AllRanked(DropAt(es, at), rank)
  {
    var rest := DropAt(es, at);
    forall k | 0 <= k < |rest| ensures rest[k] == es[if k < at then k else k + 1] {}
  }

  lemma WithoutKeepsRanked(es: Devices, rank: Ranks, a: RawAddress)
    requires Ranked(es, rank)
    ensures Ranked(Without(es, a), rank)
    ensures AllRanked(es, rank) ==> AllRanked(Without(es, a), rank)
  {
    if Has(es, a) { DropKeepsRanked(es, rank, IndexOf(es, a)); }
  }

  /** Removing a key that was just warmed up is removing it. */
  lemma WithoutAfterTouch(es: Devices, a: RawAddress)
    ensures Without(Touch(es, a), a) == Without(es, a)
  {
    if Has(es, a) {
      var touched := Touch(es, a);
      assert touched[0].0 == a && IndexOf(touched, a) == 0;
      assert DropAt(touched, 0) == Without(es, a);
    }
  }

  /** `a` in front of others that keep their ranks. */
  lemma FrontIsRanked(rest: Devices, a: RawAddress, id: int, rank: Ranks, rank': Ranks)
    requires Ranked(rest, rank) && Raises(rest, a, rank, rank') && !Has(rest, a)
    ensures Ranked([(a, id)] + rest, rank')
    ensures AllRanked(rest, rank) ==> AllRanked([(a, id)] + rest, rank')
  {
    forall i | 0 <= i < |rest| ensures rest[i].0 != a {}
    var es := [(a, id)] + rest;
    forall i, j | 0 <= i < j < |es| ensures rank'(es[i].0) > rank'(es[j].0) || rank'(es[i].0) == rank'(es[j].0) == -1 {
      assert es[j] == rest[j - 1];
      if i > 0 { assert es[i] == rest[i - 1]; }
    }
  }

  lemma RaisesInPart(es: Devices, part: Devices, a: RawAddress, rank: Ranks, rank': Ranks)
    requires Raises(es, a, rank, rank') && forall i :: 0 <= i < |part| ==> part[i] in es
    ensures Raises(part, a, rank, rank')
  {
    forall i | 0 <= i < |part| && part[i].0 != a
      ensures rank'(part[i].0) == rank(part[i].0) && rank'(a) > rank'(part[i].0)
    {
      var j :| 0 <= j < |es| && es[j] == part[i];
    }
  }

  lemma UnnamedKeepsRanked(es: Devices, a: RawAddress, rank: Ranks, rank': Ranks)
    requires Ranked(es, rank) && Raises(es, a, rank, rank') && !Has(es, a)
    ensures Ranked(es, rank')
    ensures AllRanked(es, rank) ==> AllRanked(es, rank')
  {
    forall i | 0 <= i < |es| ensures es[i].0 != a {}
  }

  lemma TouchKeepsRanked(es: Devices, a: RawAddress, rank: Ranks, rank': Ranks)
    requires Distinct(es) && Ranked(es, rank) && Raises(es, a, rank, rank')
    ensures Ranked(Touch(es, a), rank')
    ensures AllRanked(es, rank) ==> AllRanked(Touch(es, a), rank')
  {
    if Has(es, a) {
      var rest := Without(es, a);
      WithoutKeepsRanked(es, rank, a);
      WithoutLookup(es, a, a);
      RaisesInPart(es, rest, a, rank, rank');
      FrontIsRanked(rest, a, es[IndexOf(es, a)].1, rank, rank');
    } else {
      UnnamedKeepsRanked(es, a, rank, rank');
    }
  }

  lemma InsertKeepsRanked(es: Devices, capacity: nat, a: RawAddress, id: int, rank: Ranks, rank': Ranks)
    requires !Has(es, a) && |es| <= capacity && capacity > 0 && Ranked(es, rank) && Raises(es, a, rank, rank')
    ensures Ranked(Insert(es, capacity, a, id), rank')
    ensures AllRanked(es, rank) ==> AllRanked(Insert(es, capacity, a, id), rank')
  {
    InsertOnMiss(es, capacity, a, id);
    MissInPrefix(es, a);
    hide Insert, Has, Raises;
    var rest := if |es| == capacity then es[..|es| - 1] else es;
    RaisesInPart(es, rest, a, rank, rank');
    assert Ranked(rest, rank) && (AllRanked(es, rank) ==> AllRanked(rest, rank));
    hide Ranked, AllRanked;
    FrontIsRanked(rest, a, id, rank, rank');
  }

  // ---------------------------------------------------------------------
  // Every call keeps both caches in the order in which devices were named
  // ---------------------------------------------------------------------

  ghost predicate InOrder(s: State, ops: seq<Op>) {
    && Ranked(s.temporary, Allocated(ops)) && AllRanked(s.temporary, Allocated(ops))
    && Ranked(s.paired, Named(ops))
  }

  lemma AllocateRaises(es: Devices, ops: seq<Op>, a: RawAddress)
    ensures Raises(es, a, Allocated(ops), Allocated(ops + [AllocateId(a)]))
  {
    assert (ops + [AllocateId(a)])[..|ops|] == ops;
  }

  lemma NamingRaises(es: Devices, ops: seq<Op>, op: Op, a: RawAddress)
    requires Names(op, a)
    ensures Raises(es, a, Named(ops), Named(ops + [op]))
  {
    assert (ops + [op])[..|ops|] == ops;
  }

  /** A call that names nobody this order cares for leaves it alone. */
  lemma SameRanks(es: Devices, rank: Ranks, rank': Ranks)
    requires Ranked(es, rank) && forall i :: 0 <= i < |es| ==> rank'(es[i].0) == rank(es[i].0)
    ensures Ranked(es, rank') && (AllRanked(es, rank) ==> AllRanked(es, rank'))
  {
  }

  lemma AllocateKeepsOrder(s: State, a: RawAddress, ops: seq<Op>)
    requires Inv(s) && InOrder(s, ops) && |s.ids| < SIZE
    ensures InOrder(Allocate(s, a).0, ops + [AllocateId(a)])
  {
    var op := AllocateId(a);
    LookupIsMapLookup(s.paired, a);
    LookupIsMapLookup(s.temporary, a);
    AllocateRaises(s.temporary, ops, a);
    NamingRaises(s.paired, ops, op, a);
    TouchKeepsRanked(s.paired, a, Named(ops), Named(ops + [op]));
    TouchKeepsRanked(s.temporary, a, Allocated(ops), Allocated(ops + [op]));
    if !Has(s.paired, a) && !Has(s.temporary, a) {
      InsertKeepsRanked(s.temporary, MAX_UNPAIRED, a, NextFree(s.ids, s.next), Allocated(ops), Allocated(ops + [op]));
    }
    assert !Has(s.paired, a) ==> Touch(s.paired, a) == s.paired;
    assert !Has(s.temporary, a) ==> Touch(s.temporary, a) == s.temporary;
    hide Ranked, AllRanked, Raises, Touch, Insert, Has, AsMap, Allocated, Named, NextFree;
  }

  lemma SaveKeepsOrder(s: State, a: RawAddress, accepted: bool, ops: seq<Op>)
    requires Inv(s) && InOrder(s, ops)
    ensures InOrder(Save(s, a, accepted).0, ops + [SaveDevice(a, accepted)])
  {
    var op := SaveDevice(a, accepted);
    assert (ops + [op])[..|ops|] == ops;
    SameRanks(s.temporary, Allocated(ops), Allocated(ops + [op]));
    WithoutKeepsRanked(s.temporary, Allocated(ops + [op]), a);
    WithoutAfterTouch(s.temporary, a);
    NamingRaises(s.paired, ops, op, a);
    TouchKeepsRanked(s.paired, a, Named(ops), Named(ops + [op]));
    assert !Has(s.paired, a) ==> Touch(s.paired, a) == s.paired;
    if !Has(s.paired, a) && Has(s.temporary, a) {
      InsertKeepsRanked(s.paired, MAX_PAIRED, a, Lookup(s.temporary, a).value, Named(ops), Named(ops + [op]));
    }
    hide Ranked, AllRanked, Raises, Touch, Insert, Without, Has, AsMap, Allocated, Named;
  }

  lemma ForgetKeepsOrder(s: State, a: RawAddress, ops: seq<Op>)
    requires Inv(s) && InOrder(s, ops)
    ensures InOrder(Forget(s, a), ops + [ForgetDevice(a)])
  {
    var op := ForgetDevice(a);
    assert (ops + [op])[..|ops|] == ops;
    SameRanks(s.temporary, Allocated(ops), Allocated(ops + [op]));
    SameRanks(s.paired, Named(ops), Named(ops + [op]));
    WithoutKeepsRanked(s.paired, Named(ops + [op]), a);
    WithoutAfterTouch(s.paired, a);
    hide Ranked, AllRanked, Touch, Without, Has, AsMap, Allocated, Named;
  }

  lemma StepKeepsOrder(s: State, op: Op, s': State, ops: seq<Op>)
    requires Inv(s) && Next(s, op, s') && InOrder(s, ops)
    ensures InOrder(s', ops + [op])
  {
    hide Inv, InOrder, Allocate, Save, Forget, Initial;
    match op {
      case AllocateId(a) => AllocateKeepsOrder(s, a, ops);
      case SaveDevice(a, accepted) => SaveKeepsOrder(s, a, accepted, ops);
      case ForgetDevice(a) => ForgetKeepsOrder(s, a, ops);
      case Reopen => ReopenedInOrder(s', Disk(s), ops + [op]);
    }
  }

  /** Freshly loaded devices have not been named. */
  lemma ReopenedInOrder(s: State, saved: DeviceMap, ops: seq<Op>)
    requires Initial(s, saved) && (ops == [] || ops[|ops| - 1].Reopen?)
    ensures InOrder(s, ops)
  {
  }

  /** In every state of every run both caches are in the order in which their devices were named. */
  lemma {:induction false} RunKeepsOrder(saved: DeviceMap, states: seq<State>, ops: seq<Op>, k: nat)
    requires Restorable(saved) && Run(states, ops) && Initial(states[0], saved)
    requires k < |states|
    ensures InOrder(states[k], ops[..k])
  {
    hide Next, Inv, Initial, Restorable, InOrder;
    if k == 0 {
      ReopenedInOrder(states[0], saved, ops[..0]);
    } else {
      RunKeepsOrder(saved, states, ops, k - 1);
      RunIsSafe(saved, states, ops, k - 1);
      StepKeepsOrder(states[k - 1], ops[k - 1], states[k], ops[..k - 1]);
      assert ops[..k - 1] + [ops[k - 1]] == ops[..k];
    }
  }

  // ---------------------------------------------------------------------
  // Who is dropped
  // ---------------------------------------------------------------------

  /** The last of a ranked list has the lowest rank. */
  lemma LastIsLowest(es: Devices, rank: Ranks)
    requires es != [] && Ranked(es, rank)
    ensures var w := es[|es| - 1].0;
            forall x :: x in AsMap(es) && x != w ==> rank(x) > rank(w) || rank(x) == rank(w) == -1
    ensures AllRanked(es, rank) ==> rank(es[|es| - 1].0) >= 0
  {
    forall x | x in AsMap(es) && x != es[|es| - 1].0
      ensures rank(x) > rank(es[|es| - 1].0) || rank(x) == rank(es[|es| - 1].0) == -1
    {
      LookupIsMapLookup(es, x);
      assert es[IndexOf(es, x)].0 == x;
    }
  }

  /** On the map a cache stands for: room for one more, or the lowest rank gives way. */
  ghost predicate LowestGivesWay(m: DeviceMap, capacity: nat, a: RawAddress, id: int, m': DeviceMap, rank: Ranks) {
    if |m| < capacity then m' == m[a := id]
    else exists w ::
      && w in m && m' == (m - {w})[a := id]
      && forall x :: x in m && x != w ==> rank(x) > rank(w) || rank(x) == rank(w) == -1
  }

  lemma InsertDropsLowest(es: Devices, capacity: nat, a: RawAddress, id: int, rank: Ranks)
    requires Distinct(es) && !Has(es, a) && |es| <= capacity && capacity > 0 && Ranked(es, rank)
    ensures LowestGivesWay(AsMap(es), capacity, a, id, AsMap(Insert(es, capacity, a, id)), rank)
  {
    MapSize(es);
    InsertOnMiss(es, capacity, a, id);
    InsertBindsKey(es, capacity, a, id);
    if |es| == capacity {
      LastIsLowest(es, rank);
    }
    hide Insert, AsMap, Ranked, Distinct;
  }

  /** With room the device is added; otherwise in place of the one AllocateId was called for longest ago. */
  ghost predicate OldestTemporaryGivesWay(m: DeviceMap, m': DeviceMap, a: RawAddress, ops: seq<Op>) {
    && a in m'
    && (|m| < MAX_UNPAIRED ==> m' == m[a := m'[a]])
    && (|m| >= MAX_UNPAIRED ==>
          exists w ::
            && w in m && m' == (m - {w})[a := m'[a]]
            && forall x :: x in m && x != w ==> LastAllocated(ops, x) > LastAllocated(ops, w))
  }

  lemma LowestTemporaryIsOldest(m: DeviceMap, m': DeviceMap, a: RawAddress, id: int, ops: seq<Op>)
    requires LowestGivesWay(m, MAX_UNPAIRED, a, id, m', Allocated(ops))
    requires forall x :: x in m ==> LastAllocated(ops, x) >= 0
    ensures OldestTemporaryGivesWay(m, m', a, ops)
  {
    assert a in m' && m'[a] == id;
    if |m| >= MAX_UNPAIRED {
      var rank := Allocated(ops);
      var w :| w in m && m' == (m - {w})[a := id] &&
        forall x :: x in m && x != w ==> rank(x) > rank(w) || rank(x) == rank(w) == -1;
      forall x | x in m && x != w ensures LastAllocated(ops, x) > LastAllocated(ops, w) {
        assert rank(x) == LastAllocated(ops, x) && rank(w) == LastAllocated(ops, w);
      }
    }
  }

  /**
    AllocateId over whole runs.  A known device changes no binding.  A new one
    is added if there is room; otherwise exactly one temporary device is
    dropped, and AllocateId was called for every other one later than for it.
   */
  lemma AllocateDropsOldest(saved: DeviceMap, states: seq<State>, ops: seq<Op>, k: nat)
    requires Restorable(saved) && Run(states, ops) && Initial(states[0], saved)
    requires k < |ops| && ops[k].AllocateId?
    ensures var (s, s', a) := (states[k], states[k + 1], ops[k].address);
            && s'.Paired() == s.Paired()
            && (a in s.Devices() ==> s'.Temporary() == s.Temporary())
            && (a !in s.Devices() ==> OldestTemporaryGivesWay(s.Temporary(), s'.Temporary(), a, ops[..k]))
  {
    hide Inv, Initial, Restorable, InOrder, Next, OldestTemporaryGivesWay, State.Devices, State.Paired, State.Temporary;
    RunIsSafe(saved, states, ops, k);
    RunKeepsOrder(saved, states, ops, k);
    AllocateStepDropsOldest(states[k], ops[k].address, states[k + 1], ops[..k]);
  }

  lemma AllocateStepDropsOldest(s: State, a: RawAddress, s': State, ops: seq<Op>)
    requires Inv(s) && InOrder(s, ops) && Next(s, AllocateId(a), s')
    ensures s'.Paired() == s.Paired()
    ensures a in s.Devices() ==> s'.Temporary() == s.Temporary()
    ensures a !in s.Devices() ==> OldestTemporaryGivesWay(s.Temporary(), s'.Temporary(), a, ops)
  {
    if a in s.Devices() {
      AllocateKnown(s, a);
    } else {
      hide InOrder, LowestGivesWay, OldestTemporaryGivesWay, AsMap;
      NewTemporaryDropsOldest(s, a, ops);
      hide Allocate, Inv;
      LowestTemporaryIsOldest(s.Temporary(), s'.Temporary(), a, Allocate(s, a).1, ops);
    }
  }

  lemma NewTemporaryDropsOldest(s: State, a: RawAddress, ops: seq<Op>)
    requires Inv(s) && InOrder(s, ops) && |s.ids| < SIZE && a !in s.Devices()
    ensures var (s', id) := Allocate(s, a);
            && s'.Paired() == s.Paired() && a in s'.Temporary() && s'.Temporary()[a] == id
            && LowestGivesWay(s.Temporary(), MAX_UNPAIRED, a, id, s'.Temporary(), Allocated(ops))
            && forall x :: x in s.Temporary() ==> LastAllocated(ops, x) >= 0
  {
    LookupIsMapLookup(s.paired, a);
    LookupIsMapLookup(s.temporary, a);
    InsertDropsLowest(s.temporary, MAX_UNPAIRED, a, NextFree(s.ids, s.next), Allocated(ops));
    AllocateNew(s, a);
    forall x | x in s.Temporary() ensures LastAllocated(ops, x) >= 0 {
      LookupIsMapLookup(s.temporary, x);
      assert s.temporary[IndexOf(s.temporary, x)].0 == x;
    }
    hide Ranked, AllRanked, LowestGivesWay, Insert, AsMap, NextFree, Victim;
  }

  /** With room the device is added; otherwise in place of the one named longest ago, if any was since loading. */
  ghost predicate OldestPairingGivesWay(m: DeviceMap, m': DeviceMap, a: RawAddress, id: int, ops: seq<Op>) {
    && (|m| < MAX_PAIRED ==> m' == m[a := id])
    && (|m| >= MAX_PAIRED ==>
          exists w ::
            && w in m && m' == (m - {w})[a := id]
            && forall x :: x in m && x != w ==>
                 LastNamed(ops, x) > LastNamed(ops, w) || LastNamed(ops, x) == LastNamed(ops, w) == -1)
  }

  lemma LowestPairingIsOldest(m: DeviceMap, m': DeviceMap, a: RawAddress, id: int, ops: seq<Op>)
    requires LowestGivesWay(m, MAX_PAIRED, a, id, m', Named(ops))
    ensures OldestPairingGivesWay(m, m', a, id, ops)
  {
    if |m| >= MAX_PAIRED {
      var rank := Named(ops);
      var w :| w in m && m' == (m - {w})[a := id] &&
        forall x :: x in m && x != w ==> rank(x) > rank(w) || rank(x) == rank(w) == -1;
      forall x | x in m && x != w
        ensures LastNamed(ops, x) > LastNamed(ops, w) || LastNamed(ops, x) == LastNamed(ops, w) == -1
      {
        assert rank(x) == LastNamed(ops, x) && rank(w) == LastNamed(ops, w);
      }
    }
  }

  /**
    SaveDevice over whole runs.  Only a temporary device moves.  It is added if
    there is room; otherwise exactly one paired device is dropped, and every
    other one was named later than it, unless neither was since loading.
   */
  lemma SaveDropsOldest(saved: DeviceMap, states: seq<State>, ops: seq<Op>, k: nat)
    requires Restorable(saved) && Run(states, ops) && Initial(states[0], saved)
    requires k < |ops| && ops[k].SaveDevice?
    ensures var (s, s', a) := (states[k], states[k + 1], ops[k].address);
            && s'.Temporary() == s.Temporary() - {a}
            && (a !in s.Temporary() ==> s'.Paired() == s.Paired())
            && (a in s.Temporary() ==>
                  OldestPairingGivesWay(s.Paired(), s'.Paired(), a, s.Temporary()[a], ops[..k]))
  {
    hide Inv, Initial, Restorable, InOrder, Next, OldestPairingGivesWay, State.Paired, State.Temporary;
    RunIsSafe(saved, states, ops, k);
    RunKeepsOrder(saved, states, ops, k);
    SaveStepDropsOldest(states[k], ops[k].address, ops[k].accepted, states[k + 1], ops[..k]);
  }

  lemma SaveStepDropsOldest(s: State, a: RawAddress, accepted: bool, s': State, ops: seq<Op>)
    requires Inv(s) && InOrder(s, ops) && Next(s, SaveDevice(a, accepted), s')
    ensures s'.Temporary() == s.Temporary() - {a}
    ensures a !in s.Temporary() ==> s'.Paired() == s.Paired()
    ensures a in s.Temporary() ==> OldestPairingGivesWay(s.Paired(), s'.Paired(), a, s.Temporary()[a], ops)
  {
    hide Save, AsMap, InOrder, LowestGivesWay, OldestPairingGivesWay;
    SaveOnMaps(s, a, accepted);
    if a in s.Temporary() {
      NewPairingDropsOldest(s, a, accepted, ops);
      hide Inv;
      LowestPairingIsOldest(s.Paired(), s'.Paired(), a, s.Temporary()[a], ops);
    }
  }

  lemma NewPairingDropsOldest(s: State, a: RawAddress, accepted: bool, ops: seq<Op>)
    requires Inv(s) && InOrder(s, ops) && a in s.Temporary()
    ensures LowestGivesWay(s.Paired(), MAX_PAIRED, a, s.Temporary()[a], Save(s, a, accepted).0.Paired(), Named(ops))
  {
    LookupIsMapLookup(s.paired, a);
    LookupIsMapLookup(s.temporary, a);
    InsertDropsLowest(s.paired, MAX_PAIRED, a, Lookup(s.temporary, a).value, Named(ops));
    hide Ranked, AllRanked, LowestGivesWay, Insert, AsMap, Victim;
  }
}
