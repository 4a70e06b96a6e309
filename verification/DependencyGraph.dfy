/**
  Module dependency graphs, and the depth-first start order over them.

  A module's `ListDependencies` is a list of factories; a graph gives that list
  for every factory.  Nothing makes the graph acyclic: the recursion ends on a
  module exactly when no cycle can be reached from it.
 */
module DependencyGraph {
  import opened Options

  datatype Factory = Factory(id: nat)

  type Graph = map<Factory, seq<Factory>>

  predicate Closed(g: Graph) {
    forall f, d :: f in g && d in g[f] ==> d in g
  }

  predicate NoDup(s: seq<Factory>) {
    forall i, j :: 0 <= i < j < |s| ==> s[i] != s[j]
  }

  ghost function Elems(s: seq<Factory>): set<Factory> {
    set f | f in s
  }

  ghost predicate IsPath(g: Graph, p: seq<Factory>) {
    && p != [] && (forall i :: 0 <= i < |p| ==> p[i] in g)
    && (forall i :: 0 <= i < |p| - 1 ==> p[i + 1] in g[p[i]])
  }

  /** No walk along dependencies from `f` visits a module twice. */
  ghost predicate CycleFree(g: Graph, f: Factory) {
    forall p :: IsPath(g, p) && p[0] == f ==> NoDup(p)
  }

  ghost predicate Reaches(g: Graph, f: Factory, x: Factory) {
    exists p :: IsPath(g, p) && p[0] == f && p[|p| - 1] == x
  }

  /** The transitive closure of the dependencies of `f`, with `f` itself. */
  ghost function Reach(g: Graph, f: Factory): set<Factory> {
    set x | x in g && Reaches(g, f, x)
  }

  ghost function ReachAll(g: Graph, fs: seq<Factory>): set<Factory> {
    if fs == [] then {} else Reach(g, fs[0]) + ReachAll(g, fs[1..])
  }

  // ---------------------------------------------------------------------
  // Paths
  // ---------------------------------------------------------------------

  lemma SingletonIsPath(g: Graph, f: Factory)
    requires f in g
    ensures IsPath(g, [] + [f]) && ([] + [f])[0] == f
  {
  }

  lemma PathCons(g: Graph, f: Factory, p: seq<Factory>)
    requires IsPath(g, p) && f in g && p[0] in g[f]
    ensures IsPath(g, [f] + p)
  {
    var q := [f] + p;
    forall i | 0 <= i < |q| - 1 ensures q[i + 1] in g[q[i]] {
      if i > 0 { assert q[i] == p[i - 1] && q[i + 1] == p[i]; }
    }
  }

  lemma PathSnoc(g: Graph, p: seq<Factory>, f: Factory)
    requires IsPath(g, p) && f in g && f in g[p[|p| - 1]]
    ensures IsPath(g, p + [f])
  {
    var q := p + [f];
    forall i | 0 <= i < |q| - 1 ensures q[i + 1] in g[q[i]] {
      if i < |p| - 1 { assert q[i] == p[i] && q[i + 1] == p[i + 1]; }
    }
  }

  lemma PathSlice(g: Graph, p: seq<Factory>, lo: nat, hi: nat)
    requires IsPath(g, p) && lo < hi <= |p|
    ensures IsPath(g, p[lo..hi])
  {
    var q := p[lo..hi];
    forall i | 0 <= i < |q| - 1 ensures q[i + 1] in g[q[i]] {
      assert q[i] == p[lo + i] && q[i + 1] == p[lo + i + 1];
    }
  }

  /** One step of the closure: a module reaches itself and what its dependencies reach. */
  lemma ReachUnfold(g: Graph, f: Factory)
    requires Closed(g) && f in g
    ensures Reach(g, f) == {f} + ReachAll(g, g[f])
  {
    assert IsPath(g, [f]);
    forall x | x in Reach(g, f) && x != f ensures x in ReachAll(g, g[f]) {
      var p :| IsPath(g, p) && p[0] == f && p[|p| - 1] == x;
      PathSlice(g, p, 1, |p|);
      var q := p[1..];
      assert q[0] == p[1] && q[|q| - 1] == x && p[1] in g[p[0]];
      assert Reaches(g, q[0], x);
      InReachAll(g, g[f], x, q[0]);
    }
    forall x | x in ReachAll(g, g[f]) ensures x in Reach(g, f) {
      var d := FromReachAll(g, g[f], x);
      var p :| IsPath(g, p) && p[0] == d && p[|p| - 1] == x;
      PathCons(g, f, p);
      var q := [f] + p;
      assert q[0] == f && q[|q| - 1] == x;
    }
  }

  lemma {:induction false} InReachAll(g: Graph, fs: seq<Factory>, x: Factory, d: Factory)
    requires d in fs && x in Reach(g, d)
    ensures x in ReachAll(g, fs)
  {
    if fs[0] != d {
      InReachAll(g, fs[1..], x, d);
    }
  }

  lemma {:induction false} FromReachAll(g: Graph, fs: seq<Factory>, x: Factory) returns (d: Factory)
    requires x in ReachAll(g, fs)
    ensures d in fs && x in Reach(g, d)
  {
    if x in Reach(g, fs[0]) {
      d := fs[0];
    } else {
      d := FromReachAll(g, fs[1..], x);
    }
  }

  lemma CycleFreeDependency(g: Graph, f: Factory, d: Factory)
    requires CycleFree(g, f) && f in g && d in g[f]
    ensures CycleFree(g, d)
    ensures f !in Reach(g, d)
  {
    forall p | IsPath(g, p) && p[0] == d ensures NoDup(p) && p[|p| - 1] != f {
      PathCons(g, f, p);
      var q := [f] + p;
      assert q[0] == f && NoDup(q);
      assert q[|q| - 1] == p[|p| - 1];
      forall i, j | 0 <= i < j < |p| ensures p[i] != p[j] {
        assert q[i + 1] != q[j + 1];
      }
    }
  }

  /** A cycle below a module is a cycle below one of its dependencies. */
  lemma CycleBelow(g: Graph, f: Factory) returns (d: Factory)
    requires Closed(g) && f in g && !CycleFree(g, f)
    ensures d in g[f] && !CycleFree(g, d)
  {
    var p :| IsPath(g, p) && p[0] == f && !NoDup(p);
    var i, j :| 0 <= i < j < |p| && p[i] == p[j];
    d := p[1];
    assert p[1] in g[p[0]];
    if i > 0 {
      var q := p[1..];
      PathSlice(g, p, 1, |p|);
      assert q[i - 1] == q[j - 1] && q[0] == d;
    } else {
      // the walk comes back to f, and from f it can go to d again
      var q := p[1..j + 1];
      PathSlice(g, p, 1, j + 1);
      assert q[|q| - 1] == f;
      PathSnoc(g, q, d);
      var r := q + [d];
      assert r[0] == d && r[|r| - 1] == d;
    }
  }

  // ---------------------------------------------------------------------
  // The start order
  // ---------------------------------------------------------------------

  /**
    The order in which modules are started, after starting `f` with `fuel`
    nested calls allowed; `None` when that is not enough.
   */
  function StartOne(g: Graph, done: seq<Factory>, f: Factory, fuel: nat): Option<seq<Factory>>
    requires Closed(g) && f in g
    decreases fuel, 0
  {
    if f in done then Some(done)
    else if fuel == 0 then None
    else
      match StartList(g, done, g[f], fuel - 1)
      case None => None
      case Some(r) => Some(r + [f])
  }

  function StartList(g: Graph, done: seq<Factory>, fs: seq<Factory>, fuel: nat): Option<seq<Factory>>
    requires Closed(g) && forall d :: d in fs ==> d in g
    decreases fuel, |fs| + 1
  {
    if fs == [] then Some(done)
    else
      match StartOne(g, done, fs[0], fuel)
      case None => None
      case Some(r) => StartList(g, r, fs[1..], fuel)
  }

  /** Started modules: known, without repetition, each after everything it depends on. */
  ghost predicate Topological(g: Graph, order: seq<Factory>) {
    && NoDup(order)
    && (forall i :: 0 <= i < |order| ==> order[i] in g)
    && (forall i, d :: 0 <= i < |order| && d in g[order[i]] ==> d in order[..i])
  }

  lemma ExtendOrder(g: Graph, order: seq<Factory>, f: Factory)
    requires Topological(g, order) && f in g && f !in order && forall d :: d in g[f] ==> d in order
    ensures Topological(g, order + [f]) && Elems(order + [f]) == Elems(order) + {f}
  {
    var r := order + [f];
    forall i, d | 0 <= i < |r| && d in g[r[i]] ensures d in r[..i] {
      assert r[..i] == order[..i];
      if i < |order| { assert r[i] == order[i]; } else { assert order[..i] == order; }
    }
  }

  /** Starting adds exactly the transitive closure, in dependency order, and keeps what was there. */
  lemma {:induction false} StartOneCorrect(g: Graph, done: seq<Factory>, f: Factory, fuel: nat)
    requires Closed(g) && f in g && Topological(g, done)
    requires StartOne(g, done, f, fuel).Some?
    ensures var r := StartOne(g, done, f, fuel).value;
            done <= r && Topological(g, r) && Elems(r) == Elems(done) + Reach(g, f)
    decreases fuel, 0
  {
    if f in done {
      ReachStaysInside(g, done, f);
    } else {
      StartedIsCycleFree(g, done, f, fuel);
      forall d | d in g[f] ensures f !in Reach(g, d) { CycleFreeDependency(g, f, d); }
      StartListCorrect(g, done, g[f], fuel - 1);
      ReachUnfold(g, f);
      var r := StartList(g, done, g[f], fuel - 1).value;
      if f in r {
        assert f in Elems(r);
        var d := FromReachAll(g, g[f], f);
        assert false;
      }
      forall d | d in g[f] ensures d in r {
        assert IsPath(g, [d]);
        assert d in Reach(g, d);
        InReachAll(g, g[f], d, d);
        assert d in Elems(r);
      }
      ExtendOrder(g, r, f);
    }
  }

  lemma {:induction false} StartListCorrect(g: Graph, done: seq<Factory>, fs: seq<Factory>, fuel: nat)
    requires Closed(g) && Topological(g, done)
    requires forall d :: d in fs ==> d in g
    requires StartList(g, done, fs, fuel).Some?
    ensures var r := StartList(g, done, fs, fuel).value;
            done <= r && Topological(g, r) && Elems(r) == Elems(done) + ReachAll(g, fs)
    decreases fuel, |fs| + 1
  {
    if fs != [] {
      StartOneCorrect(g, done, fs[0], fuel);
      StartListCorrect(g, StartOne(g, done, fs[0], fuel).value, fs[1..], fuel);
    }
  }

  /** A dependency-ordered set of modules is closed under reachability. */
  lemma ReachStaysInside(g: Graph, order: seq<Factory>, f: Factory)
    requires Topological(g, order) && f in order
    ensures Reach(g, f) <= Elems(order)
  {
    forall x | x in Reach(g, f) ensures x in order {
      var p :| IsPath(g, p) && p[0] == f && p[|p| - 1] == x;
      PathStaysInside(g, order, p, |p| - 1);
    }
  }

  lemma {:induction false} PathStaysInside(g: Graph, order: seq<Factory>, p: seq<Factory>, n: nat)
    requires Topological(g, order) && IsPath(g, p) && p[0] in order && n < |p|
    ensures p[n] in order
  {
    if n > 0 {
      PathStaysInside(g, order, p, n - 1);
      var i :| 0 <= i < |order| && order[i] == p[n - 1];
      assert p[n - 1 + 1] in g[p[n - 1]];
      assert p[n] in order[..i];
    }
  }

  // ---------------------------------------------------------------------
  // Termination
  // ---------------------------------------------------------------------

  lemma {:induction false} NoDupSize(p: seq<Factory>, s: set<Factory>)
    requires NoDup(p) && forall i :: 0 <= i < |p| ==> p[i] in s
    ensures |p| <= |s|
  {
    if p != [] {
      NoDupSize(p[1..], s - {p[0]});
    }
  }

  /** The call stack of a recursion that began at a cycle-free module. */
  lemma StackFacts(g: Graph, stack: seq<Factory>, f: Factory)
    requires Closed(g) && f in g && IsPath(g, stack + [f]) && CycleFree(g, (stack + [f])[0])
    ensures |stack| < |g| && f !in stack
    ensures forall d :: d in g[f] ==>
              d in g && IsPath(g, stack + [f] + [d]) && CycleFree(g, (stack + [f] + [d])[0])
  {
    var path := stack + [f];
    NoDupSize(path, g.Keys);
    assert forall i :: 0 <= i < |stack| ==> path[i] == stack[i] && path[i] != path[|stack|];
    forall d | d in g[f] ensures IsPath(g, path + [d]) && (path + [d])[0] == path[0] { PathSnoc(g, path, d); }
  }

  /** With a call stack `path` that grew from a cycle-free module, the remaining depth suffices. */
  lemma {:induction false} EnoughFuel(g: Graph, done: seq<Factory>, path: seq<Factory>, f: Factory, fuel: nat)
    requires Closed(g) && f in g && IsPath(g, path + [f]) && CycleFree(g, (path + [f])[0])
    requires fuel >= |g| - |path|
    ensures StartOne(g, done, f, fuel).Some?
    decreases fuel, 0
  {
    var stack := path + [f];
    NoDupSize(stack, g.Keys);
    if f !in done {
      forall d | d in g[f] ensures IsPath(g, stack + [d]) { PathSnoc(g, stack, d); }
      EnoughFuelList(g, done, stack, g[f], fuel - 1);
    }
  }

  lemma {:induction false} EnoughFuelList(g: Graph, done: seq<Factory>, path: seq<Factory>, fs: seq<Factory>, fuel: nat)
    requires Closed(g) && path != [] && CycleFree(g, path[0])
    requires forall d :: d in fs ==> d in g && IsPath(g, path + [d])
    requires fuel >= |g| - |path|
    ensures StartList(g, done, fs, fuel).Some?
    decreases fuel, |fs| + 1
  {
    if fs != [] {
      EnoughFuel(g, done, path, fs[0], fuel);
      EnoughFuelList(g, StartOne(g, done, fs[0], fuel).value, path, fs[1..], fuel);
    }
  }

  /** Modules that reach a cycle are never started, however deep the recursion may go. */
  lemma {:induction false} CyclesNeverStart(g: Graph, done: seq<Factory>, f: Factory, fuel: nat)
    requires Closed(g) && f in g && forall x :: x in done ==> CycleFree(g, x)
    ensures !CycleFree(g, f) ==> StartOne(g, done, f, fuel).None?
    ensures StartOne(g, done, f, fuel).Some? ==> forall x :: x in StartOne(g, done, f, fuel).value ==> CycleFree(g, x)
    decreases fuel, 0
  {
    if f !in done && fuel > 0 {
      CyclesNeverStartList(g, done, g[f], fuel - 1);
      if !CycleFree(g, f) {
        var d := CycleBelow(g, f);
      }
    }
  }

  lemma {:induction false} CyclesNeverStartList(g: Graph, done: seq<Factory>, fs: seq<Factory>, fuel: nat)
    requires Closed(g) && (forall d :: d in fs ==> d in g) && forall x :: x in done ==> CycleFree(g, x)
    ensures (exists d :: d in fs && !CycleFree(g, d)) ==> StartList(g, done, fs, fuel).None?
    ensures StartList(g, done, fs, fuel).Some? ==> forall x :: x in StartList(g, done, fs, fuel).value ==> CycleFree(g, x)
    decreases fuel, |fs| + 1
  {
    if fs != [] {
      CyclesNeverStart(g, done, fs[0], fuel);
      if StartOne(g, done, fs[0], fuel).Some? {
        CyclesNeverStartList(g, StartOne(g, done, fs[0], fuel).value, fs[1..], fuel);
      }
    }
  }

  /** Along a path inside a dependency-ordered set the positions strictly decrease. */
  lemma {:induction false} PathGoesBack(g: Graph, order: seq<Factory>, p: seq<Factory>, i: nat, j: nat, at: nat)
    requires Topological(g, order) && IsPath(g, p) && i < j < |p| && at < |order| && order[at] == p[i]
    ensures p[j] in order[..at]
    decreases j - i
  {
    assert p[j - 1 + 1] in g[p[j - 1]];
    if i < j - 1 {
      PathGoesBack(g, order, p, i, j - 1, at);
      var b :| 0 <= b < at && order[b] == p[j - 1];
      assert p[j] in order[..b];
    }
  }

  /** Whatever was started in dependency order reaches no cycle. */
  lemma TopologicalIsCycleFree(g: Graph, order: seq<Factory>, f: Factory)
    requires Topological(g, order) && f in order
    ensures CycleFree(g, f)
  {
    forall p | IsPath(g, p) && p[0] == f ensures NoDup(p) {
      forall i, j | 0 <= i < j < |p| ensures p[i] != p[j] {
        PathStaysInside(g, order, p, i);
        var at :| 0 <= at < |order| && order[at] == p[i];
        PathGoesBack(g, order, p, i, j, at);
        var b :| 0 <= b < at && order[b] == p[j];
      }
    }
  }

  lemma StartedIsCycleFree(g: Graph, done: seq<Factory>, f: Factory, fuel: nat)
    requires Closed(g) && f in g && Topological(g, done) && StartOne(g, done, f, fuel).Some?
    ensures CycleFree(g, f)
  {
    forall x | x in done ensures CycleFree(g, x) { TopologicalIsCycleFree(g, done, x); }
    CyclesNeverStart(g, done, f, fuel);
  }

  /** Start ends if and only if no cycle can be reached from the requested module. */
  lemma StartTerminatesIff(g: Graph, done: seq<Factory>, f: Factory)
    requires Closed(g) && f in g && Topological(g, done)
    ensures (exists fuel: nat :: StartOne(g, done, f, fuel).Some?) <==> CycleFree(g, f)
  {
    hide Topological, IsPath, StartOne, StartList;
    if CycleFree(g, f) {
      SingletonIsPath(g, f);
      EnoughFuel(g, done, [], f, |g|);
    } else {
      forall fuel: nat ensures StartOne(g, done, f, fuel).None? {
        if StartOne(g, done, f, fuel).Some? { StartedIsCycleFree(g, done, f, fuel); }
      }
    }
  }

  /** For instance, a module that lists itself is never started. */
  lemma SelfDependencyNeverStarts(g: Graph, done: seq<Factory>, f: Factory, fuel: nat)
    requires Closed(g) && f in g && f in g[f] && Topological(g, done)
    ensures StartOne(g, done, f, fuel).None?
  {
    var p := [f, f];
    assert IsPath(g, p) && p[0] == p[1] == f;
    assert !NoDup(p);
    if StartOne(g, done, f, fuel).Some? { StartedIsCycleFree(g, done, f, fuel); }
  }

  /** The depth allowed does not change the answer, once there is one. */
  lemma {:induction false} MoreFuel(g: Graph, done: seq<Factory>, f: Factory, fuel: nat, more: nat)
    requires Closed(g) && f in g && fuel <= more && StartOne(g, done, f, fuel).Some?
    ensures StartOne(g, done, f, more) == StartOne(g, done, f, fuel)
    decreases fuel, 0
  {
    if f !in done {
      MoreFuelList(g, done, g[f], fuel - 1, more - 1);
    }
  }

  lemma {:induction false} MoreFuelList(g: Graph, done: seq<Factory>, fs: seq<Factory>, fuel: nat, more: nat)
    requires Closed(g) && (forall d :: d in fs ==> d in g) && fuel <= more && StartList(g, done, fs, fuel).Some?
    ensures StartList(g, done, fs, more) == StartList(g, done, fs, fuel)
    decreases fuel, |fs| + 1
  {
    if fs != [] {
      MoreFuel(g, done, fs[0], fuel, more);
      MoreFuelList(g, StartOne(g, done, fs[0], fuel).value, fs[1..], fuel, more);
    }
  }
}
