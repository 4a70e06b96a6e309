/**
  The metric id allocator as a state machine on values, with its whole-run
  properties.  The class in MetricIdAllocators.dfy is proved against it.
 */
module MetricIds {
  import opened Options
  import opened RecencyList
  import opened IdSpace

  const MAX_UNPAIRED: nat := 200
  const MAX_PAIRED: nat := 65000

  datatype RawAddress = RawAddress(octets: nat)

  type DeviceMap = map<RawAddress, int>

  /** A call of one of the two callbacks; `accepted` is what the save callback returned. */
  datatype Event =
    | Saved(address: RawAddress, id: int, accepted: bool)
    | Forgot(address: RawAddress, id: int)

  datatype State = State(
    paired: Entries<RawAddress, int>,
    temporary: Entries<RawAddress, int>,
    ids: set<int>,
    next: int,
    saved: DeviceMap,   // the map given to Init
    log: seq<Event>)    // the callbacks made since
  {
    ghost function Paired(): DeviceMap { AsMap(paired) }
    ghost function Temporary(): DeviceMap { AsMap(temporary) }
    ghost function Devices(): DeviceMap { Paired() + Temporary() }
  }

  // ---------------------------------------------------------------------
  // Operations
  // ---------------------------------------------------------------------

  function Allocate(s: State, a: RawAddress): (State, int)
    requires ValidId(s.next) && |s.ids| < SIZE
  {
    if Has(s.paired, a) then
      (s.(paired := Touch(s.paired, a)), Lookup(s.paired, a).value)
    else if Has(s.temporary, a) then
      (s.(temporary := Touch(s.temporary, a)), Lookup(s.temporary, a).value)
    else
      var id := NextFree(s.ids, s.next);
      var victim := Victim(s.temporary, MAX_UNPAIRED, a);
      var ids := s.ids + {id} - (if victim.Some? then {victim.value.1} else {});
      (s.(temporary := Insert(s.temporary, MAX_UNPAIRED, a, id), ids := ids, next := After(id)), id)
  }

  function Save(s: State, a: RawAddress, accepted: bool): (State, bool) {
    if Has(s.paired, a) then (s.(paired := Touch(s.paired, a)), true)
    else if !Has(s.temporary, a) then (s, false)
    else
      var id := Lookup(s.temporary, a).value;
      var victim := Victim(s.paired, MAX_PAIRED, a);
      var ids := s.ids - (if victim.Some? then {victim.value.1} else {});
      var log := if victim.Some? then s.log + [Forgot(victim.value.0, victim.value.1)] else s.log;
      (s.(temporary := Without(Touch(s.temporary, a), a),
          paired := Insert(s.paired, MAX_PAIRED, a, id),
          ids := ids,
          log := log + [Saved(a, id, accepted)]),
       accepted)
  }

  function Forget(s: State, a: RawAddress): State {
    if !Has(s.paired, a) then s
    else
      var id := Lookup(s.paired, a).value;
      s.(paired := Without(Touch(s.paired, a), a), ids := s.ids - {id}, log := s.log + [Forgot(a, id)])
  }

  /** What the allocator may be after Init; the order of the saved devices is unspecified. */
  ghost predicate Initial(s: State, saved: DeviceMap) {
    && Distinct(s.paired) && s.Paired() == saved
    && s.temporary == [] && s.ids == saved.Values
    && FollowsAll(saved, s.next)
    && s.saved == saved && s.log == []
  }

  /** The first cursor: one past the largest saved id, or the smallest id. */
  ghost predicate FollowsAll(saved: DeviceMap, next: int) {
    if saved == map[] || MAX_ID in saved.Values then next == MIN_ID
    else next - 1 in saved.Values && forall a :: a in saved ==> saved[a] < next
  }

  // ---------------------------------------------------------------------
  // The invariant
  // ---------------------------------------------------------------------

  ghost predicate Injective(m: DeviceMap) {
    forall a, b :: a in m && b in m && a != b ==> m[a] != m[b]
  }

  /** What Init needs of a saved map; only injectivity goes unchecked by the code. */
  ghost predicate Restorable(saved: DeviceMap) {
    && |saved| <= MAX_PAIRED
    && (forall a :: a in saved ==> ValidId(saved[a]))
    && Injective(saved)
  }

  /** Both caches, the id set and the cursor agree. */
  ghost predicate Consistent(p: DeviceMap, t: DeviceMap, ids: set<int>, next: int) {
    && Injective(p + t)
    && ids == (p + t).Values
    && (forall id :: id in ids ==> ValidId(id))
    && ValidId(next)
  }

  ghost predicate Shape(s: State) {
    && Distinct(s.paired) && |s.paired| <= MAX_PAIRED
    && Distinct(s.temporary) && |s.temporary| <= MAX_UNPAIRED
    && s.Paired().Keys !! s.Temporary().Keys
  }

  ghost predicate Inv(s: State) {
    && Shape(s)
    && Consistent(s.Paired(), s.Temporary(), s.ids, s.next)
  }

  lemma {:induction false} ValuesSize(m: DeviceMap)
    ensures |m.Values| <= |m|
    decreases |m|
  {
    if m.Keys != {} {
      var a :| a in m;
      var rest := m - {a};
      ValuesSize(rest);
      assert m.Values == rest.Values + {m[a]} by {
        forall v | v in m.Values ensures v in rest.Values + {m[a]} {
          var b :| b in m && m[b] == v;
          if b != a { assert b in rest && rest[b] == v; }
        }
      }
    } else {
      assert m.Values == {};
    }
  }

  /** The two capacities keep the id set smaller than the id space. */
  lemma IdsBounded(s: State)
    requires Inv(s)
    ensures |s.ids| <= MAX_PAIRED + MAX_UNPAIRED < SIZE
  {
    MapSize(s.paired);
    MapSize(s.temporary);
    ValuesSize(s.Devices());
    assert s.Devices().Keys == s.Paired().Keys + s.Temporary().Keys;
    assert |s.Devices()| == |s.Devices().Keys|;
  }

  // ---------------------------------------------------------------------
  // Every operation keeps the invariant
  // ---------------------------------------------------------------------

  lemma UnbindValues(m: DeviceMap, w: RawAddress)
    requires Injective(m) && w in m
    ensures Injective(m - {w}) && (m - {w}).Values == m.Values - {m[w]}
  {
    var rest := m - {w};
    forall v | v in m.Values && v != m[w] ensures v in rest.Values {
      var b :| b in m && m[b] == v;
      assert b in rest && rest[b] == v;
    }
  }

  lemma GrowValues(m: DeviceMap, a: RawAddress, id: int)
    requires a !in m
    ensures m[a := id].Values == m.Values + {id}
  {
    var more := m[a := id];
    forall v | v in m.Values ensures v in more.Values {
      var b :| b in m && m[b] == v;
      assert b in more && more[b] == v;
    }
    assert a in more && more[a] == id;
  }

  lemma BindValues(m: DeviceMap, a: RawAddress, id: int)
    requires Injective(m) && a !in m && id !in m.Values
    ensures Injective(m[a := id]) && m[a := id].Values == m.Values + {id}
  {
    GrowValues(m, a, id);
  }

  lemma BindTemporary(p: DeviceMap, t: DeviceMap, ids: set<int>, next: int, a: RawAddress, id: int, next': int)
    requires p.Keys !! t.Keys && Consistent(p, t, ids, next) && a !in p && a !in t
    requires id !in ids && ValidId(id) && ValidId(next')
    ensures Consistent(p, t[a := id], ids + {id}, next')
  {
    BindValues(p + t, a, id);
    assert p + t[a := id] == (p + t)[a := id];
  }

  lemma DropTemporary(p: DeviceMap, t: DeviceMap, ids: set<int>, next: int, w: RawAddress)
    requires p.Keys !! t.Keys && Consistent(p, t, ids, next) && w in t
    ensures Consistent(p, t - {w}, ids - {t[w]}, next)
  {
    UnbindValues(p + t, w);
    assert p + (t - {w}) == (p + t) - {w};
  }

  lemma DropPaired(p: DeviceMap, t: DeviceMap, ids: set<int>, next: int, w: RawAddress)
    requires p.Keys !! t.Keys && Consistent(p, t, ids, next) && w in p
    ensures Consistent(p - {w}, t, ids - {p[w]}, next)
  {
    UnbindValues(p + t, w);
    assert (p - {w}) + t == (p + t) - {w};
  }

  lemma MoveToPaired(p: DeviceMap, t: DeviceMap, ids: set<int>, next: int, a: RawAddress)
    requires p.Keys !! t.Keys && Consistent(p, t, ids, next) && a in t
    ensures Consistent(p[a := t[a]], t - {a}, ids, next)
  {
    assert p[a := t[a]] + (t - {a}) == p + t;
  }

  /** What AllocateId does on a known device, on the maps the caches stand for. */
  lemma AllocateKnown(s: State, a: RawAddress)
    requires Shape(s) && ValidId(s.next) && |s.ids| < SIZE && a in s.Devices()
    ensures var (s', id) := Allocate(s, a);
            && Shape(s')
            && s'.Paired() == s.Paired() && s'.Temporary() == s.Temporary()
            && s' == s.(paired := s'.paired, temporary := s'.temporary)
            && id == s.Devices()[a]
  {
    LookupIsMapLookup(s.paired, a);
    LookupIsMapLookup(s.temporary, a);
    TouchKeepsMap(s.paired, a);
    TouchKeepsMap(s.temporary, a);
  }

  /** What AllocateId does on a new device, on the maps the caches stand for. */
  lemma AllocateNew(s: State, a: RawAddress)
    requires Shape(s) && ValidId(s.next) && |s.ids| < SIZE && a !in s.Devices()
    ensures var (s', id) := Allocate(s, a);
            var victim := Victim(s.temporary, MAX_UNPAIRED, a);
            && a !in s.Paired() && a !in s.Temporary()
            && s' == s.(temporary := s'.temporary, ids := s'.ids, next := After(id))
            && Shape(s')
            && id == NextFree(s.ids, s.next)
            && (victim.None? ==>
                  s'.Temporary() == s.Temporary()[a := id] && s'.ids == s.ids + {id})
            && (victim.Some? ==>
                  var w := victim.value;
                  && w.0 in s.Temporary() && s.Temporary()[w.0] == w.1 && w.0 != a
                  && s'.Temporary() == (s.Temporary() - {w.0})[a := id]
                  && s'.ids == s.ids + {id} - {w.1})
  {
    LookupIsMapLookup(s.paired, a);
    LookupIsMapLookup(s.temporary, a);
    InsertBindsKey(s.temporary, MAX_UNPAIRED, a, NextFree(s.ids, s.next));
  }

  lemma ReplaceTemporary(p: DeviceMap, t: DeviceMap, ids: set<int>, next: int, w: RawAddress, a: RawAddress, id: int, next': int)
    requires p.Keys !! t.Keys && Consistent(p, t, ids, next) && w in t && a !in p && a !in t
    requires id !in ids && ValidId(id) && ValidId(next')
    ensures Consistent(p, (t - {w})[a := id], ids + {id} - {t[w]}, next')
  {
    assert w in p + t && (p + t)[w] == t[w];
    assert t[w] in ids;
    DropTemporary(p, t, ids, next, w);
    BindTemporary(p, t - {w}, ids - {t[w]}, next, a, id, next');
    assert ids + {id} - {t[w]} == ids - {t[w]} + {id};
  }

  lemma AllocateKeepsInv(s: State, a: RawAddress)
    requires Inv(s)
    ensures |s.ids| < SIZE && Inv(Allocate(s, a).0)
  {
    IdsBounded(s);
    var (s', id) := Allocate(s, a);
    if a in s.Devices() {
      AllocateKnown(s, a);
    } else {
      AllocateNew(s, a);
      var victim := Victim(s.temporary, MAX_UNPAIRED, a);
      if victim.Some? {
        ReplaceTemporary(s.Paired(), s.Temporary(), s.ids, s.next, victim.value.0, a, id, s'.next);
      } else {
        BindTemporary(s.Paired(), s.Temporary(), s.ids, s.next, a, id, s'.next);
      }
    }
  }

  /** What SaveDevice does, on the maps the caches stand for. */
  lemma SaveOnMaps(s: State, a: RawAddress, accepted: bool)
    requires Shape(s)
    ensures var (s', ok) := Save(s, a, accepted);
            var victim := Victim(s.paired, MAX_PAIRED, a);
            && Shape(s')
            && s'.next == s.next && s'.saved == s.saved
            && (a !in s.Temporary() ==>
                  && s'.Paired() == s.Paired() && s'.Temporary() == s.Temporary()
                  && s'.ids == s.ids && s'.log == s.log && (ok <==> a in s.Paired()))
            && (a in s.Temporary() ==>
                  && ok == accepted
                  && s'.Temporary() == s.Temporary() - {a}
                  && (victim.None? ==>
                        && s'.Paired() == s.Paired()[a := s.Temporary()[a]]
                        && s'.ids == s.ids
                        && s'.log == s.log + [Saved(a, s.Temporary()[a], accepted)])
                  && (victim.Some? ==>
                        var w := victim.value;
                        && w.0 in s.Paired() && s.Paired()[w.0] == w.1 && w.0 != a
                        && s'.Paired() == (s.Paired() - {w.0})[a := s.Temporary()[a]]
                        && s'.ids == s.ids - {w.1}
                        && s'.log == s.log + [Forgot(w.0, w.1)] + [Saved(a, s.Temporary()[a], accepted)]))
  {
    LookupIsMapLookup(s.paired, a);
    LookupIsMapLookup(s.temporary, a);
    if Has(s.paired, a) {
      TouchKeepsMap(s.paired, a);
    } else if Has(s.temporary, a) {
      TouchKeepsMap(s.temporary, a);
      WithoutRemovesKey(Touch(s.temporary, a), a);
      InsertBindsKey(s.paired, MAX_PAIRED, a, Lookup(s.temporary, a).value);
    }
  }

  lemma SaveKeepsInv(s: State, a: RawAddress, accepted: bool)
    requires Inv(s)
    ensures Inv(Save(s, a, accepted).0)
  {
    SaveOnMaps(s, a, accepted);
    if a in s.Temporary() {
      var victim := Victim(s.paired, MAX_PAIRED, a);
      if victim.Some? {
        DropPaired(s.Paired(), s.Temporary(), s.ids, s.next, victim.value.0);
        MoveToPaired(s.Paired() - {victim.value.0}, s.Temporary(), s.ids - {victim.value.1}, s.next, a);
      } else {
        MoveToPaired(s.Paired(), s.Temporary(), s.ids, s.next, a);
      }
    }
  }

  /** What ForgetDevice does, on the maps the caches stand for. */
  lemma ForgetOnMaps(s: State, a: RawAddress)
    requires Shape(s)
    ensures var s' := Forget(s, a);
            && Shape(s')
            && s'.temporary == s.temporary && s'.next == s.next && s'.saved == s.saved
            && s'.Paired() == s.Paired() - {a}
            && (a !in s.Paired() ==> s' == s)
            && (a in s.Paired() ==>
                  s'.ids == s.ids - {s.Paired()[a]} && s'.log == s.log + [Forgot(a, s.Paired()[a])])
  {
    LookupIsMapLookup(s.paired, a);
    TouchKeepsMap(s.paired, a);
    WithoutRemovesKey(Touch(s.paired, a), a);
  }

  lemma ForgetKeepsInv(s: State, a: RawAddress)
    requires Inv(s)
    ensures Inv(Forget(s, a))
  {
    ForgetOnMaps(s, a);
    if a in s.Paired() {
      DropPaired(s.Paired(), s.Temporary(), s.ids, s.next, a);
    }
  }

  /**
    Init establishes the invariant exactly when the saved map is restorable.
    The code checks the size and the range of the ids, but not that they differ.
   */
  lemma InitialIffRestorable(s: State, saved: DeviceMap)
    requires Initial(s, saved)
    ensures Inv(s) <==> Restorable(saved)
  {
    MapSize(s.paired);
    assert saved + map[] == saved;
    if forall a :: a in saved ==> ValidId(saved[a]) {
      InitialCursorValid(s, saved);
    }
  }

  lemma TwoPairs(x: (RawAddress, int), y: (RawAddress, int))
    ensures AsMap([x, y]) == map[y.0 := y.1][x.0 := x.1]
  {
    assert [x, y][1..] == [y] && [y][1..] == [];
    assert AsMap([y]) == map[][y.0 := y.1];
  }

  /** For instance, two devices saved with the same id are accepted, and break it. */
  lemma RepeatedIdsBreakInv(a: RawAddress, b: RawAddress) returns (s: State)
    requires a != b
    ensures Initial(s, map[a := MIN_ID, b := MIN_ID]) && !Inv(s)
  {
    var saved := map[a := MIN_ID, b := MIN_ID];
    s := State([(b, MIN_ID), (a, MIN_ID)], [], {MIN_ID}, MIN_ID + 1, saved, []);
    TwoPairs((b, MIN_ID), (a, MIN_ID));
    hide AsMap, Inv;
    assert saved[a] in saved.Values && saved.Values == {MIN_ID};
    assert !Restorable(saved) by { assert saved[a] == saved[b]; }
    InitialIffRestorable(s, saved);
  }

  lemma InitialCursorValid(s: State, saved: DeviceMap)
    requires Initial(s, saved) && forall a :: a in saved ==> ValidId(saved[a])
    ensures ValidId(s.next)
  {
    if saved != map[] && MAX_ID !in saved.Values {
      var a :| a in saved && saved[a] == s.next - 1;
      assert saved[a] in saved.Values;
    }
  }

  /** A device found in a cache is still there when it is then removed. */
  lemma FoundCanBeRemoved(s: State, a: RawAddress)
    requires Inv(s)
    ensures ValidId(s.next)
    ensures Has(Touch(s.paired, a), a) == Has(s.paired, a)
    ensures Has(Touch(s.temporary, a), a) == Has(s.temporary, a)
  {
    TouchLookup(s.paired, a, a);
    TouchLookup(s.temporary, a, a);
  }
}
