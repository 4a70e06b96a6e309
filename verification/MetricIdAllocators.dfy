/** The metric id allocator over two list-plus-index caches, proved against MetricIds. */
module MetricIdAllocators {
  import opened Options
  import opened RecencyList
  import opened IdSpace
  import opened MetricIds
  import opened LruCache

  /** `Aborted` is a fatal log: the process does not go on. */
  datatype InitOutcome = Initialized | AlreadyInitialized | Aborted

  /** The devices loaded so far, with the id set and the cursor that go with them. */
  ghost predicate LoadedValue(es: Entries<RawAddress, int>, ids: set<int>, next: int, done: DeviceMap) {
    && Distinct(es) && AsMap(es) == done
    && ids == done.Values
    && (done == map[] ==> next == MIN_ID)
    && (done != map[] ==> next - 1 in done.Values && forall a :: a in done ==> done[a] < next)
  }

  lemma LoadNothing()
    ensures LoadedValue([], {}, MIN_ID, map[])
  {
    var none: DeviceMap := map[];
    assert none.Values == {};
  }

  lemma LoadStep(es: Entries<RawAddress, int>, ids: set<int>, next: int, done: DeviceMap, a: RawAddress, id: int)
    requires LoadedValue(es, ids, next, done) && a !in done && |done| < MAX_PAIRED && ValidId(id)
    ensures Victim(es, MAX_PAIRED, a).None?
    ensures LoadedValue(Insert(es, MAX_PAIRED, a, id), ids + {id}, if next > id + 1 then next else id + 1, done[a := id])
  {
    hide Insert, AsMap, Distinct;
    MapSize(es);
    InsertBindsKey(es, MAX_PAIRED, a, id);
    GrowValues(done, a, id);
  }

  lemma LoadedFollowsAll(es: Entries<RawAddress, int>, ids: set<int>, next: int, devices: DeviceMap)
    requires LoadedValue(es, ids, next, devices) && forall a :: a in devices ==> ValidId(devices[a])
    ensures FollowsAll(devices, if next > MAX_ID then MIN_ID else next)
  {
    hide AsMap, Distinct;
    if devices != map[] {
      var a :| a in devices && devices[a] == next - 1;
      if MAX_ID in devices.Values {
        var b :| b in devices && devices[b] == MAX_ID;
      }
    }
  }

  lemma LoadedIsInitial(s: State, next: int, devices: DeviceMap)
    requires LoadedValue(s.paired, s.ids, next, devices)
    requires |devices| <= MAX_PAIRED && forall a :: a in devices ==> ValidId(devices[a])
    requires s.next == (if next > MAX_ID then MIN_ID else next)
    requires s.temporary == [] && s.saved == devices && s.log == []
    ensures Initial(s, devices) && (Inv(s) <==> Injective(devices))
  {
    LoadedFollowsAll(s.paired, s.ids, next, devices);
    hide AsMap, Distinct, FollowsAll, Inv, Injective;
    InitialIffRestorable(s, devices);
  }

  lemma OneLessRemaining(devices: DeviceMap, remaining: set<RawAddress>, a: RawAddress)
    requires a in remaining && remaining <= devices.Keys
    ensures a !in devices - remaining && |devices - remaining| < |devices|
    ensures (devices - remaining)[a := devices[a]] == devices - (remaining - {a})
  {
    var done := devices - remaining;
    SubsetSize(done.Keys + {a}, devices.Keys);
  }

  class MetricIdAllocator {
    const paired: LegacyLruCache<RawAddress, int>
    const temporary: LegacyLruCache<RawAddress, int>
    var idSet: set<int>
    var nextId: int
    var initialized: bool
    var log: seq<Event>        // the callbacks made since Init
    ghost var saved: DeviceMap // what Init was given

    ghost predicate CachesShaped()
      reads this, paired, temporary
    {
      && paired != temporary
      && paired.Valid() && paired.capacity == MAX_PAIRED
      && temporary.Valid() && temporary.capacity == MAX_UNPAIRED
      && paired.Nodes() !! temporary.Nodes()
    }

    ghost predicate Shaped()
      reads this, paired, temporary
    {
      && CachesShaped()
      && (!initialized ==> paired.nodeList == [] && temporary.nodeList == [] && idSet == {})
    }

    ghost function Value(): State
      reads this, paired, temporary, paired.nodeList, temporary.nodeList
    {
      State(paired.Contents(), temporary.Contents(), idSet, nextId, saved, log)
    }

    ghost predicate Valid()
      reads this, paired, temporary, paired.nodeList, temporary.nodeList
    {
      Shaped() && (initialized ==> Inv(Value()))
    }

    constructor ()
      ensures Valid() && !initialized
    {
      paired := new LegacyLruCache(MAX_PAIRED);
      temporary := new LegacyLruCache(MAX_UNPAIRED);
      idSet, nextId, initialized, log, saved := {}, MIN_ID, false, [], map[];
    }

    ghost predicate Loaded(done: DeviceMap)
      reads this, paired, temporary, paired.nodeList
    {
      && CachesShaped() && temporary.nodeList == []
      && LoadedValue(paired.Contents(), idSet, nextId, done)
    }

    /** One turn of the loop in `Init`: no eviction can happen, because there is room. */
    method LoadOne(address: RawAddress, id: int, ghost done: DeviceMap)
      requires Loaded(done) && address !in done && |done| < MAX_PAIRED && ValidId(id)
      modifies this`idSet, this`nextId, paired, paired.Nodes()
      ensures Loaded(done[address := id])
      ensures fresh(paired.Nodes() - old(paired.Nodes()))
    {
      hide LoadedValue, Insert, Victim, LegacyLruCache.Valid, LegacyLruCache.Contents;
      LoadStep(paired.Contents(), idSet, nextId, done, address, id);
      var evicted := paired.Put(address, id);
      assert evicted.None?;
      idSet := idSet + {id};
      nextId := if nextId > id + 1 then nextId else id + 1;
    }

    /** The loop of `Init`: load every device, in any order, unless an id is out of range. */
    method LoadAll(devices: DeviceMap) returns (ok: bool)
      requires Loaded(map[]) && |devices| <= MAX_PAIRED && paired.Nodes() == {}
      modifies this`idSet, this`nextId, paired
      ensures ok <==> forall a :: a in devices ==> ValidId(devices[a])
      ensures ok ==> Loaded(devices)
    {
      hide Loaded;
      var remaining := devices.Keys;
      assert devices - remaining == map[];
      while remaining != {}
        invariant remaining <= devices.Keys && Loaded(devices - remaining)
        invariant fresh(paired.Nodes())
        invariant forall a :: a in devices - remaining ==> ValidId(devices[a])
        decreases remaining
      {
        var address :| address in remaining;
        if !ValidId(devices[address]) {
          return false;
        }
        OneLessRemaining(devices, remaining, address);
        LoadOne(address, devices[address], devices - remaining);
        remaining := remaining - {address};
      }
      assert devices - remaining == devices;
      return true;
    }

    method Init(devices: DeviceMap) returns (outcome: InitOutcome)
      requires Shaped()
      modifies this, paired
      ensures outcome == AlreadyInitialized <==> old(initialized)
      ensures outcome == AlreadyInitialized ==> Value() == old(Value()) && initialized
      ensures outcome == Aborted <==>
                !old(initialized) && (|devices| > MAX_PAIRED || exists a :: a in devices && !ValidId(devices[a]))
      ensures outcome == Initialized ==>
                && initialized && Shaped() && Initial(Value(), devices)
                && (Valid() <==> Injective(devices))
    {
      hide LoadedValue, Initial, Inv, Injective;
      hide LegacyLruCache.Valid, LegacyLruCache.Contents, LegacyLruCache.Nodes;
      if initialized {
        return AlreadyInitialized;
      }
      if |devices| > MAX_PAIRED {
        return Aborted;
      }
      nextId := MIN_ID;
      paired.EmptyContents();
      temporary.EmptyContents();
      LoadNothing();
      var ok := LoadAll(devices);
      if !ok {
        return Aborted;
      }
      ghost var next := nextId;
      if nextId > MAX_ID {
        nextId := MIN_ID;
      }
      initialized := true;
      log, saved := [], devices;
      LoadedIsInitial(Value(), next, devices);
      return Initialized;
    }

    method Close() returns (ok: bool)
      requires Shaped()
      modifies this, paired, temporary
      ensures ok == old(initialized) && !initialized && Valid()
    {
      if !initialized {
        return false;
      }
      paired.Clear();
      temporary.Clear();
      idSet := {};
      initialized := false;
      return true;
    }

    method IsEmpty() returns (empty: bool)
      requires Shaped()
      ensures empty <==> Value().paired == [] && Value().temporary == []
    {
      var p := paired.Size();
      var t := temporary.Size();
      empty := p == 0 && t == 0;
    }

    /** The search loop; the measure is the pigeonhole bound on the ids in use. */
    method AdvanceCursor()
      requires ValidId(nextId) && |idSet| < SIZE
      modifies this`nextId
      ensures nextId == NextFree(idSet, old(nextId))
    {
      var start := nextId;
      ghost var n: nat := 0;
      CyclicStep(start, 0);
      while nextId in idSet
        invariant n <= SIZE && nextId == Cyclic(start, n)
        invariant forall i :: 0 <= i < n ==> Cyclic(start, i) in idSet
        invariant NextFree(idSet, start) == NextFreeFrom(idSet, start, n)
        decreases SIZE - n
      {
        TakenRunIsBounded(idSet, start, n);
        CyclicStep(start, n);
        nextId := nextId + 1;
        if nextId > MAX_ID {
          nextId := MIN_ID;
        }
        n := n + 1;
      }
    }

    /** A Put into the temporary cache leaves the paired one alone. */
    method PutTemporary(address: RawAddress, id: int) returns (evicted: Option<(RawAddress, int)>)
      requires CachesShaped()
      modifies temporary, temporary.Nodes()
      ensures CachesShaped() && paired.Contents() == old(paired.Contents())
      ensures temporary.Contents() == Insert(old(temporary.Contents()), MAX_UNPAIRED, address, id)
      ensures evicted == Victim(old(temporary.Contents()), MAX_UNPAIRED, address)
    {
      hide Insert, Victim, LegacyLruCache.Valid, LegacyLruCache.Contents;
      evicted := temporary.Put(address, id);
    }

    /** The half of `AllocateId` that runs for a device in neither cache. */
    method AllocateFresh(address: RawAddress) returns (id: int)
      requires Shaped() && initialized && ValidId(nextId) && |idSet| < SIZE
      modifies this`nextId, this`idSet, temporary, temporary.Nodes()
      ensures Shaped() && paired.Contents() == old(paired.Contents())
      ensures id == NextFree(old(idSet), old(nextId)) && nextId == After(id)
      ensures temporary.Contents() == Insert(old(temporary.Contents()), MAX_UNPAIRED, address, id)
      ensures var victim := Victim(old(temporary.Contents()), MAX_UNPAIRED, address);
              idSet == old(idSet) + {id} - (if victim.Some? then {victim.value.1} else {})
    {
      hide NextFree, Insert, Without, Victim, Has, IndexOf;
      hide LegacyLruCache.Valid, LegacyLruCache.Contents;
      AdvanceCursor();
      id := nextId;
      nextId := nextId + 1;
      idSet := idSet + {id};
      var evicted := PutTemporary(address, id);
      if evicted.Some? {
        idSet := idSet - {evicted.value.1};
      }
      if nextId > MAX_ID {
        nextId := MIN_ID;
      }
    }

    method AllocateId(address: RawAddress) returns (id: int)
      requires Valid() && initialized
      modifies this, paired, temporary, paired.Nodes(), temporary.Nodes()
      ensures Valid() && initialized
      ensures |old(idSet)| < SIZE && (Value(), id) == Allocate(old(Value()), address)
    {
      hide Inv, AsMap, NextFree, Insert, Without, Victim, Has, IndexOf;
      hide LegacyLruCache.Valid, LegacyLruCache.Contents;
      ghost var s := Value();
      FoundCanBeRemoved(s, address);
      AllocateKeepsInv(s, address);
      var known := paired.Get(address);
      if known.Some? {
        return known.value;
      }
      known := temporary.Get(address);
      if known.Some? {
        return known.value;
      }
      id := AllocateFresh(address);
    }

    method ForgetDevicePostprocess(address: RawAddress, id: int)
      modifies this`idSet, this`log
      ensures idSet == old(idSet) - {id} && log == old(log) + [Forgot(address, id)]
    {
      idSet := idSet - {id};
      log := log + [Forgot(address, id)];
    }

    /** The half of `SaveDevice` that enters the device into the paired cache and calls back. */
    method Pair(address: RawAddress, id: int, accepted: bool)
      requires Shaped() && initialized
      modifies this`idSet, this`log, paired, paired.Nodes()
      ensures Shaped() && temporary.Contents() == old(temporary.Contents())
      ensures paired.Contents() == Insert(old(paired.Contents()), MAX_PAIRED, address, id)
      ensures var victim := Victim(old(paired.Contents()), MAX_PAIRED, address);
              && idSet == old(idSet) - (if victim.Some? then {victim.value.1} else {})
              && log == (if victim.Some? then old(log) + [Forgot(victim.value.0, victim.value.1)] else old(log))
                        + [Saved(address, id, accepted)]
    {
      hide Inv, AsMap, NextFree, Insert, Without, Victim, Has, IndexOf;
      hide LegacyLruCache.Valid, LegacyLruCache.Contents;
      var evicted := paired.Put(address, id);
      if evicted.Some? {
        ForgetDevicePostprocess(evicted.value.0, evicted.value.1);
      }
      log := log + [Saved(address, id, accepted)];
    }

    /** `accepted` is what the save callback will answer. */
    method SaveDevice(address: RawAddress, accepted: bool) returns (ok: bool)
      requires Valid() && initialized
      modifies this, paired, temporary, paired.Nodes(), temporary.Nodes()
      ensures Valid() && initialized
      ensures (Value(), ok) == Save(old(Value()), address, accepted)
    {
      hide Inv, AsMap, NextFree, Insert, Without, Victim, Has, IndexOf;
      hide LegacyLruCache.Valid, LegacyLruCache.Contents;
      ghost var s := Value();
      FoundCanBeRemoved(s, address);
      SaveKeepsInv(s, address, accepted);
      var known := paired.Get(address);
      if known.Some? {
        return true;
      }
      known := temporary.Get(address);
      if known.None? {
        return false;
      }
      var removed := temporary.Remove(address);
      if !removed {
        return false;
      }
      Pair(address, known.value, accepted);
      return accepted;
    }

    method ForgetDevice(address: RawAddress)
      requires Valid() && initialized
      modifies this, paired, temporary, paired.Nodes(), temporary.Nodes()
      ensures Valid() && initialized && Value() == Forget(old(Value()), address)
    {
      hide Inv, AsMap, NextFree, Insert, Without, Victim, Has, IndexOf;
      hide LegacyLruCache.Valid, LegacyLruCache.Contents;
      ghost var s := Value();
      FoundCanBeRemoved(s, address);
      ForgetKeepsInv(s, address);
      var known := paired.Get(address);
      if known.None? {
        return;
      }
      var removed := paired.Remove(address);
      if !removed {
        return;
      }
      ForgetDevicePostprocess(address, known.value);
    }
  }
}
