/**
  The module registry.  The calls it makes on modules (construct, Start, Stop,
  delete) are methods here whose preconditions say what the module relies on,
  so that every call site in Start and StopAll has to prove them.
 */
module Registry {
  import opened Options
  import opened DependencyGraph

  datatype Module = Module(factory: Factory, dependencies: seq<Factory>)

  /** How far an instance has come; a deleted instance has no phase. */
  datatype Phase = Constructed | Running | Stopped

  datatype Call = StopCall(factory: Factory) | DeleteCall(factory: Factory)

  /** `NotListed` and `NotStarted` are the two assertions of a dependency lookup. */
  datatype Lookup = Found(instance: Module) | NotListed | NotStarted

  // ---------------------------------------------------------------------
  // The state, as values
  // ---------------------------------------------------------------------

  /** `stack` holds the modules constructed but not yet started, outermost first. */
  ghost predicate Consistent(g: Graph, started: map<Factory, Module>, order: seq<Factory>,
                             phase: map<Factory, Phase>, stack: seq<Factory>)
  {
    && Topological(g, order)
    && started.Keys == Elems(order)
    && (forall f :: f in started ==> f in g && started[f] == Module(f, g[f]))
    && phase.Keys == Elems(order) + Elems(stack)
    && (forall f :: f in order ==> f !in stack && phase[f] == Running)
    && (forall f :: f in stack ==> phase[f] == Constructed)
  }

  lemma ConsistentPush(g: Graph, started: map<Factory, Module>, order: seq<Factory>,
                       phase: map<Factory, Phase>, stack: seq<Factory>, f: Factory)
    requires Consistent(g, started, order, phase, stack) && f !in started && f !in stack
    ensures f !in phase && Consistent(g, started, order, phase[f := Constructed], stack + [f])
  {
  }

  lemma ConsistentStarted(g: Graph, started: map<Factory, Module>, order: seq<Factory>,
                          phase: map<Factory, Phase>, stack: seq<Factory>, f: Factory)
    requires Consistent(g, started, order, phase, stack + [f]) && f !in stack && f in g
    requires forall d :: d in g[f] ==> d in started
    ensures f in phase && phase[f] == Constructed
    ensures forall d :: d in g[f] ==> d in phase && phase[d] == Running
    ensures Consistent(g, started[f := Module(f, g[f])], order + [f], phase[f := Running], stack)
  {
    assert f in stack + [f];
    forall d | d in g[f] ensures d in order { assert d in Elems(order); }
    ExtendOrder(g, order, f);
  }

  /** Every dependency of a started module comes earlier, is started and is running. */
  lemma DependencyIsRunning(g: Graph, started: map<Factory, Module>, order: seq<Factory>,
                            phase: map<Factory, Phase>, stack: seq<Factory>, n: nat, d: Factory)
    requires Consistent(g, started, order, phase, stack) && n < |order| && order[n] in g && d in g[order[n]]
    ensures d in order[..n] && d in started && d in phase && phase[d] == Running
  {
    assert d in Elems(order);
  }

  // ---------------------------------------------------------------------
  // Teardown, in reverse
  // ---------------------------------------------------------------------

  /** The Stop calls for the modules from position `n` on, last module first. */
  function StopsFrom(order: seq<Factory>, n: nat): seq<Call>
    requires n <= |order|
    decreases |order| - n
  {
    if n == |order| then [] else StopsFrom(order, n + 1) + [StopCall(order[n])]
  }

  function DeletesFrom(order: seq<Factory>, n: nat): seq<Call>
    requires n <= |order|
    decreases |order| - n
  {
    if n == |order| then [] else DeletesFrom(order, n + 1) + [DeleteCall(order[n])]
  }

  /** The calls of the two teardown loops, position by position: once each, in reverse order. */
  lemma {:induction false} TeardownIsReverse(order: seq<Factory>, n: nat, k: nat)
    requires n <= |order| && k < |order| - n
    ensures |StopsFrom(order, n)| == |order| - n && StopsFrom(order, n)[k] == StopCall(order[|order| - 1 - k])
    ensures |DeletesFrom(order, n)| == |order| - n && DeletesFrom(order, n)[k] == DeleteCall(order[|order| - 1 - k])
    decreases |order| - n
  {
    if k < |order| - n - 1 {
      TeardownIsReverse(order, n + 1, k);
    } else if n + 1 < |order| {
      TeardownIsReverse(order, n + 1, 0);
    }
  }

  /** Modules from position `n` on have been stopped, the others still run. */
  ghost predicate StoppedFrom(order: seq<Factory>, phase: map<Factory, Phase>, n: nat)
    requires n <= |order|
  {
    && phase.Keys == Elems(order)
    && forall j :: 0 <= j < |order| ==>
         order[j] in phase && phase[order[j]] == if j < n then Running else Stopped
  }

  lemma AllStopped(order: seq<Factory>, phase: map<Factory, Phase>)
    requires StoppedFrom(order, phase, 0)
    ensures forall f :: f in phase ==> phase[f] == Stopped
  {
    forall f | f in phase ensures phase[f] == Stopped {
      var j :| 0 <= j < |order| && order[j] == f;
    }
  }

  lemma StopStep(g: Graph, order: seq<Factory>, phase: map<Factory, Phase>, n: nat)
    requires Topological(g, order) && n < |order| && StoppedFrom(order, phase, n + 1)
    ensures order[n] in g && phase[order[n]] == Running
    ensures forall d :: d in g[order[n]] ==> d in order && d in phase && phase[d] == Running
    ensures StoppedFrom(order, phase[order[n] := Stopped], n)
  {
    forall d | d in g[order[n]] ensures d in order && d in phase && phase[d] == Running {
      assert d in order[..n];
      var j :| 0 <= j < n && order[j] == d;
    }
  }

  lemma DropLast(order: seq<Factory>, n: nat)
    requires NoDup(order) && n < |order|
    ensures order[n] in order[..n + 1]
    ensures Elems(order[..n + 1]) - {order[n]} == Elems(order[..n])
  {
    var f := order[n];
    assert order[..n + 1] == order[..n] + [f];
  }

  class ModuleRegistry {
    const graph: Graph
    var startedModules: map<Factory, Module>
    var startOrder: seq<Factory>
    var teardown: seq<Call>              // the Stop calls and deletions made so far
    ghost var phase: map<Factory, Phase> // of every instance alive

    ghost predicate Valid(stack: seq<Factory>)
      reads this
    {
      Closed(graph) && Consistent(graph, startedModules, startOrder, phase, stack)
    }

    constructor (graph: Graph)
      requires Closed(graph)
      ensures Valid([]) && this.graph == graph && startOrder == [] && teardown == []
    {
      this.graph := graph;
      startedModules, startOrder, teardown, phase := map[], [], [], map[];
    }

    // -------------------------------------------------------------------
    // What the registry does to a module
    // -------------------------------------------------------------------

    /** Run the factory: at most one live instance per factory. */
    method Construct(f: Factory) returns (instance: Module)
      requires f in graph && f !in phase
      modifies this`phase
      ensures instance == Module(f, graph[f]) && phase == old(phase)[f := Constructed]
    {
      instance := Module(f, graph[f]);
      phase := phase[f := Constructed];
    }

    /** What a module may do inside its own Start or Stop: look up everything it listed. */
    method LookUpAll(instance: Module) returns (found: seq<Lookup>)
      requires forall d :: d in instance.dependencies ==> d in startedModules && d in phase && phase[d] == Running
      ensures FoundAll(instance, found)
    {
      found := [];
      for i := 0 to |instance.dependencies|
        invariant |found| == i
        invariant forall j :: 0 <= j < i ==> found[j] == Found(startedModules[instance.dependencies[j]])
      {
        var r := GetDependency(instance, instance.dependencies[i]);
        found := found + [r];
      }
    }

    /** Every lookup succeeded, in the order of the dependency list, and found a running module. */
    ghost predicate FoundAll(instance: Module, found: seq<Lookup>)
      reads this
    {
      && |found| == |instance.dependencies|
      && forall j :: 0 <= j < |found| ==>
           var d := instance.dependencies[j];
           d in startedModules && found[j] == Found(startedModules[d]) && d in phase && phase[d] == Running
    }

    /** `Module::Start`, which looks up the dependencies it listed. */
    method CallStart(instance: Module) returns (found: seq<Lookup>)
      requires instance.factory in phase && phase[instance.factory] == Constructed
      requires forall d :: d in instance.dependencies ==> d in startedModules && d in phase && phase[d] == Running
      modifies this`phase
      ensures phase == old(phase)[instance.factory := Running]
      ensures old(FoundAll(instance, found))
    {
      found := LookUpAll(instance);
      phase := phase[instance.factory := Running];
    }

    /** `Module::Stop`, which may still look up the dependencies it listed. */
    method CallStop(instance: Module) returns (found: seq<Lookup>)
      requires instance.factory in phase && phase[instance.factory] == Running
      requires forall d :: d in instance.dependencies ==> d in startedModules && d in phase && phase[d] == Running
      modifies this`phase, this`teardown
      ensures phase == old(phase)[instance.factory := Stopped]
      ensures teardown == old(teardown) + [StopCall(instance.factory)]
      ensures old(FoundAll(instance, found))
    {
      found := LookUpAll(instance);
      phase := phase[instance.factory := Stopped];
      teardown := teardown + [StopCall(instance.factory)];
    }

    /** Delete an instance: no module may still be running. */
    method Delete(instance: Module)
      requires instance.factory in phase
      requires forall f :: f in phase ==> phase[f] == Stopped
      modifies this`phase, this`teardown
      ensures phase == old(phase) - {instance.factory}
      ensures teardown == old(teardown) + [DeleteCall(instance.factory)]
    {
      phase := phase - {instance.factory};
      teardown := teardown + [DeleteCall(instance.factory)];
    }

    // -------------------------------------------------------------------
    // Lookups
    // -------------------------------------------------------------------

    predicate IsStarted(f: Factory)
      reads this
    {
      f in startedModules
    }

    method GetDependency(instance: Module, f: Factory) returns (r: Lookup)
      ensures r == NotListed <==> f !in instance.dependencies
      ensures r == NotStarted <==> f in instance.dependencies && f !in startedModules
      ensures r.Found? ==> f in startedModules && r.instance == startedModules[f]
    {
      for i := 0 to |instance.dependencies|
        invariant f !in instance.dependencies[..i]
      {
        if instance.dependencies[i] == f {
          return if f in startedModules then Found(startedModules[f]) else NotStarted;
        }
      }
      return NotListed;
    }

    /** A started module finds every dependency it listed, at any time after its Start. */
    method LookupAfterStart(f: Factory, d: Factory, ghost stack: seq<Factory>) returns (r: Lookup)
      requires Valid(stack) && f in startedModules && f in graph && d in graph[f]
      ensures d in graph && r == Found(Module(d, graph[d]))
    {
      ghost var i :| 0 <= i < |startOrder| && startOrder[i] == f;
      DependencyIsRunning(graph, startedModules, startOrder, phase, stack, i, d);
      r := GetDependency(startedModules[f], d);
    }

    // -------------------------------------------------------------------
    // Start
    // -------------------------------------------------------------------

    method Start(f: Factory, ghost stack: seq<Factory>) returns (instance: Module)
      requires Valid(stack) && f in graph
      requires IsPath(graph, stack + [f]) && CycleFree(graph, (stack + [f])[0])
      modifies this`startedModules, this`startOrder, this`phase
      ensures Valid(stack) && f in startedModules && instance == startedModules[f]
      ensures |graph| > |stack| && StartOne(graph, old(startOrder), f, |graph| - |stack|) == Some(startOrder)
      ensures old(startedModules).Keys <= startedModules.Keys
      decreases |graph| - |stack|, 0
    {
      hide IsPath, CycleFree, Consistent, Closed, StartList, Elems;
      StartedIsOrdered(stack, f);
      StackFacts(graph, stack, f);
      if f in startedModules {
        return startedModules[f];
      }
      ConsistentPush(graph, startedModules, startOrder, phase, stack, f);
      instance := Construct(f);
      StartAll(instance.dependencies, stack + [f]);
      ConsistentStarted(graph, startedModules, startOrder, phase, stack, f);
      var _ := CallStart(instance);
      startOrder := startOrder + [f];
      startedModules := startedModules[f := instance];
    }

    lemma StartedIsOrdered(stack: seq<Factory>, f: Factory)
      requires Valid(stack)
      ensures f in startedModules <==> f in startOrder
    {
      assert f in Elems(startOrder) <==> f in startOrder;
    }

    method StartAll(modules: seq<Factory>, ghost stack: seq<Factory>)
      requires Valid(stack) && |graph| >= |stack|
      requires forall d :: d in modules ==> d in graph && IsPath(graph, stack + [d]) && CycleFree(graph, (stack + [d])[0])
      modifies this`startedModules, this`startOrder, this`phase
      ensures Valid(stack)
      ensures StartList(graph, old(startOrder), modules, |graph| - |stack|) == Some(startOrder)
      ensures old(startedModules).Keys <= startedModules.Keys
      ensures forall d :: d in modules ==> d in startedModules
      decreases |graph| - |stack|, |modules| + 1
    {
      hide IsPath, CycleFree, Consistent;
      ghost var fuel: nat := |graph| - |stack|;
      for i := 0 to |modules|
        invariant Valid(stack)
        invariant StartList(graph, old(startOrder), modules, fuel) == StartList(graph, startOrder, modules[i..], fuel)
        invariant old(startedModules).Keys <= startedModules.Keys
        invariant forall j :: 0 <= j < i ==> modules[j] in startedModules
      {
        assert modules[i..][1..] == modules[i + 1..];
        var _ := Start(modules[i], stack);
      }
    }

    /**
      The public Start of a list: the order grows by the transitive closure of
      the request, duplicate-free and with every module after its dependencies.
     */
    method StartModules(modules: seq<Factory>)
      requires Valid([]) && forall d :: d in modules ==> d in graph && CycleFree(graph, d)
      modifies this`startedModules, this`startOrder, this`phase
      ensures Valid([])
      ensures old(startOrder) <= startOrder && Topological(graph, startOrder)
      ensures Elems(startOrder) == startedModules.Keys == old(startedModules).Keys + ReachAll(graph, modules)
    {
      forall d | d in modules ensures IsPath(graph, [] + [d]) && ([] + [d])[0] == d {
        SingletonIsPath(graph, d);
      }
      hide IsPath, CycleFree, Reach, ReachAll, Topological, StartList;
      StartAll(modules, []);
      StartListCorrect(graph, old(startOrder), modules, |graph|);
    }

    // -------------------------------------------------------------------
    // StopAll
    // -------------------------------------------------------------------

    /** The first loop of StopAll, in reverse start order. */
    method StopRunning()
      requires Valid([])
      modifies this`phase, this`teardown
      ensures StoppedFrom(startOrder, phase, 0)
      ensures teardown == old(teardown) + StopsFrom(startOrder, 0)
    {
      var n := |startOrder|;
      while n > 0
        invariant 0 <= n <= |startOrder| && StoppedFrom(startOrder, phase, n)
        invariant teardown == old(teardown) + StopsFrom(startOrder, n)
      {
        n := n - 1;
        StopStep(graph, startOrder, phase, n);
        var f := startOrder[n];
        StartedIsKnown(f);
        var _ := CallStop(startedModules[f]);
      }
    }

    lemma StartedIsKnown(f: Factory)
      requires Topological(graph, startOrder) && f in startOrder
      requires startedModules.Keys == Elems(startOrder)
      ensures f in startedModules && forall d :: d in startOrder ==> d in startedModules
    {
      assert f in Elems(startOrder);
      forall d | d in startOrder ensures d in startedModules { assert d in Elems(startOrder); }
    }

    /** The second loop of StopAll, which empties the registry. */
    method DeleteStopped()
      requires NoDup(startOrder)
      requires startedModules.Keys == Elems(startOrder) && forall f :: f in startedModules ==> startedModules[f].factory == f
      requires phase.Keys == Elems(startOrder) && forall f :: f in phase ==> phase[f] == Stopped
      modifies this`phase, this`teardown, this`startedModules
      ensures startedModules == map[] && phase == map[]
      ensures teardown == old(teardown) + DeletesFrom(startOrder, 0)
    {
      hide NoDup, Elems;
      var n := |startOrder|;
      assert startOrder[..n] == startOrder;
      while n > 0
        invariant 0 <= n <= |startOrder|
        invariant startedModules.Keys == Elems(startOrder[..n]) && phase.Keys == Elems(startOrder[..n])
        invariant forall f :: f in startedModules ==> startedModules[f].factory == f
        invariant forall f :: f in phase ==> phase[f] == Stopped
        invariant teardown == old(teardown) + DeletesFrom(startOrder, n)
      {
        n := n - 1;
        var f := startOrder[n];
        DropLast(startOrder, n);
        InElems(startOrder[..n + 1], f);
        Delete(startedModules[f]);
        startedModules := startedModules - {f};
      }
      NoElems(startOrder[..0]);
    }

    /** Everything is stopped in reverse start order, then everything is deleted. */
    method StopAll()
      requires Valid([])
      modifies this
      ensures Valid([]) && startedModules == map[] && startOrder == [] && phase == map[]
      ensures teardown == old(teardown) + StopsFrom(old(startOrder), 0) + DeletesFrom(old(startOrder), 0)
    {
      StopRunning();
      AllStopped(startOrder, phase);
      DeleteStopped();
      assert startedModules == map[];
      startOrder := [];
    }
  }

  lemma InElems(s: seq<Factory>, f: Factory)
    requires f in s
    ensures f in Elems(s)
  {
  }

  lemma NoElems(s: seq<Factory>)
    requires s == []
    ensures Elems(s) == {}
  {
  }
}
