/**
 Layering of the elements of a decision requirements diagram
 (scripts/dmn_add_di.py, `topological_layers`): Kahn's algorithm, one whole
 layer at a time, with one shared fallback layer for what never gets free.
 */
module DmnLayers {
  import opened Collections
  import opened Chains
  import opened Kahn

  datatype ShapeKind = Decision | InputData | BusinessKnowledgeModel | KnowledgeSource | DecisionService

  datatype Element = Element(kind: ShapeKind, name: string, dependencies: seq<Id>)

  type Elements = Dict<Id, Element>

  function Known(ids: seq<Id>, known: set<Id>): seq<Id> {
    if ids == [] then []
    else if ids[0] in known then [ids[0]] + Known(ids[1..], known)
    else Known(ids[1..], known)
  }

  /** The dependencies of `id` that are elements themselves, repeats kept. */
  function LocalDeps(elements: Elements, id: Id): seq<Id>
    requires id in elements.at
  {
    Known(elements.at[id].dependencies, elements.at.Keys)
  }

  /** Arcs run from a dependency to the element that depends on it. */
  ghost predicate DependencyArcs(arcs: Arcs, elements: Elements) {
    forall u, v :: (u, v) in arcs <==>
      u in elements.at && v in elements.at && u in elements.at[v].dependencies
  }

  ghost function ArcsInto(deps: seq<Id>, v: Id): Arcs {
    seq(|deps|, i requires 0 <= i < |deps| => (deps[i], v))
  }

  ghost function ArcsOfKeys(elements: Elements, keys: seq<Id>): Arcs
    requires forall k :: k in keys ==> k in elements.at
  {
    if keys == [] then [] else ArcsInto(LocalDeps(elements, keys[0]), keys[0]) + ArcsOfKeys(elements, keys[1..])
  }

  /** The dependency graph: an arc for every dependency entry that names an element. */
  ghost function DependencyGraph(elements: Elements): Arcs
    requires elements.Valid()
  {
    ArcsOfKeys(elements, elements.keys)
  }

  lemma {:induction false} ArcsOfKeysMembers(elements: Elements, keys: seq<Id>)
    requires forall k :: k in keys ==> k in elements.at
    ensures forall u, v :: (u, v) in ArcsOfKeys(elements, keys) <==> v in keys && u in LocalDeps(elements, v)
  {
    if keys == [] {
    } else {
      ArcsOfKeysMembers(elements, keys[1..]);
      assert keys == [keys[0]] + keys[1..];
      hide ArcsOfKeys;
      var head := ArcsInto(LocalDeps(elements, keys[0]), keys[0]);
      assert ArcsOfKeys(elements, keys) == head + ArcsOfKeys(elements, keys[1..]) by { ArcsOfKeysStep(elements, keys); }
      ArcsIntoMembers(LocalDeps(elements, keys[0]), keys[0]);
    }
  }

  lemma ArcsOfKeysStep(elements: Elements, keys: seq<Id>)
    requires keys != [] && forall k :: k in keys ==> k in elements.at
    ensures ArcsOfKeys(elements, keys) == ArcsInto(LocalDeps(elements, keys[0]), keys[0]) + ArcsOfKeys(elements, keys[1..])
  {
  }

  lemma ArcsIntoMembers(deps: seq<Id>, w: Id)
    ensures forall u, v :: (u, v) in ArcsInto(deps, w) <==> v == w && u in deps
  {
    forall u | u in deps ensures (u, w) in ArcsInto(deps, w) {
      var i :| 0 <= i < |deps| && deps[i] == u;
      assert ArcsInto(deps, w)[i] == (u, w);
    }
  }

  lemma GraphHasDependencies(elements: Elements)
    requires elements.Valid()
    ensures DependencyArcs(DependencyGraph(elements), elements)
  {
    ArcsOfKeysMembers(elements, elements.keys);
    forall u, v
      ensures (u, v) in DependencyGraph(elements) <==> u in elements.at && v in elements.at && u in elements.at[v].dependencies
    {
      if v in elements.at { KnownMembers(elements.at[v].dependencies, elements.at.Keys); }
    }
  }

  /**
   What a layering has to be: an element free of cycles sits at the length of its longest
   dependency chain; all others share the layer just above the highest of those.
   */
  ghost predicate IsLayering(layers: map<Id, nat>, arcs: Arcs, ids: set<Id>) {
    var free := CycleFree(arcs, ids);
    && layers.Keys == ids
    && (forall v :: v in free ==> IsLongest(arcs, v, layers[v]))
    && FallbackShared(layers, ids, free)
  }

  ghost function CycleFree(arcs: Arcs, ids: set<Id>): set<Id> {
    set v | v in ids && !DependsOnCycle(arcs, v)
  }

  /** All of `ids` outside `free` sit in one layer, the lowest above all of `free`. */
  ghost predicate FallbackShared(layers: map<Id, nat>, ids: set<Id>, free: set<Id>)
    requires layers.Keys == ids && free <= ids
  {
    forall v :: v in ids - free ==>
      && (forall w :: w in free ==> layers[w] < layers[v])
      && (layers[v] > 0 ==> exists w :: w in free && layers[w] == layers[v] - 1)
      && (forall w :: w in ids - free ==> layers[w] == layers[v])
  }

  lemma {:induction false} KnownMembers(ids: seq<Id>, known: set<Id>)
    ensures forall u :: u in Known(ids, known) <==> u in ids && u in known
  {
    if ids == [] {
    } else {
      KnownMembers(ids[1..], known);
      assert ids == [ids[0]] + ids[1..];
    }
  }

  /** The predecessor lists of the graph. */
  ghost function DepsOf(elements: Elements): map<Id, seq<Id>> {
    map v | v in elements.at :: LocalDeps(elements, v)
  }

  lemma DepsAreArcs(arcs: Arcs, elements: Elements)
    requires DependencyArcs(arcs, elements)
    ensures ArcsAre(arcs, DepsOf(elements)) && Within(arcs, elements.at.Keys)
    ensures forall v, u :: v in elements.at && u in DepsOf(elements)[v] ==> u in elements.at
  {
    var before := DepsOf(elements);
    forall v, u | v in elements.at
      ensures u in before[v] <==> u in elements.at[v].dependencies && u in elements.at
    {
      KnownMembers(elements.at[v].dependencies, elements.at.Keys);
    }
  }

  /** How often `v` stands in the list of `u`. */
  function Entries(m: map<Id, seq<Id>>, u: Id, v: Id): nat {
    multiset(Lookup(m, u))[v]
  }

  /** `id` enters the successor list of each of its dependencies, once per entry. */
  method Register(deps: seq<Id>, id: Id, dependents: map<Id, seq<Id>>) returns (dependents': map<Id, seq<Id>>)
    ensures forall u, v :: Entries(dependents', u, v) == Entries(dependents, u, v) + (if v == id then multiset(deps)[u] else 0)
  {
    dependents' := dependents;
    for j := 0 to |deps|
      invariant forall u, v :: Entries(dependents', u, v) == Entries(dependents, u, v) + (if v == id then multiset(deps[..j])[u] else 0)
    {
      assert deps[..j + 1] == deps[..j] + [deps[j]];
      ghost var was := dependents';
      dependents' := dependents'[deps[j] := Lookup(dependents', deps[j]) + [id]];
      forall u ensures Lookup(dependents', u) == if u == deps[j] then Lookup(was, u) + [id] else Lookup(was, u) {}
    }
    assert deps[..|deps|] == deps;
  }

  method CountDependencies(elements: Elements) returns (inDegree: map<Id, int>, dependents: map<Id, seq<Id>>)
    requires elements.Valid()
    ensures Counted(inDegree, DepsOf(elements), {})
    ensures Dual(elements.at.Keys, DepsOf(elements), dependents)
  {
    inDegree, dependents := map[], map[];
    ghost var before := DepsOf(elements);
    for i := 0 to |elements.keys|
      invariant inDegree.Keys == set v | v in elements.keys[..i]
      invariant forall v :: v in inDegree ==> inDegree[v] == |before[v]|
      invariant forall u, v :: Entries(dependents, u, v) == if v in elements.keys[..i] then multiset(before[v])[u] else 0
    {
      var id := elements.keys[i];
      assert elements.keys[..i + 1] == elements.keys[..i] + [id];
      var deps := LocalDeps(elements, id);
      assert deps == before[id];
      inDegree := inDegree[id := |deps|];
      dependents := Register(deps, id, dependents);
    }
    assert elements.keys[..|elements.keys|] == elements.keys;
    assert inDegree.Keys == before.Keys;
    CountedAtStart(inDegree, before);
    forall u, v | v in Lookup(dependents, u) ensures v in elements.at {
      assert Entries(dependents, u, v) > 0;
    }
    forall u, v | v in elements.at && u in before[v] ensures u in elements.at {
      KnownMembers(elements.at[v].dependencies, elements.at.Keys);
    }
  }

  method Idle(order: seq<Id>, inDegree: map<Id, int>) returns (queue: seq<Id>)
    requires Distinct(order) && forall v :: v in order ==> v in inDegree
    ensures Distinct(queue) && forall v :: v in queue <==> v in order && inDegree[v] == 0
  {
    queue := [];
    for i := 0 to |order|
      invariant Distinct(queue) && forall v :: v in queue <==> v in order[..i] && inDegree[v] == 0
    {
      assert order[..i + 1] == order[..i] + [order[i]];
      if inDegree[order[i]] == 0 {
        queue := queue + [order[i]];
      }
    }
    assert order[..|order|] == order;
  }

  ghost predicate Freed(next: seq<Id>, inDegree: map<Id, int>, inDegree': map<Id, int>)
    requires inDegree.Keys == inDegree'.Keys
  {
    Distinct(next) && forall v :: v in next <==> v in inDegree && inDegree'[v] == 0 < inDegree[v]
  }

  method ReleaseLayer(queue: seq<Id>, inDegree: map<Id, int>, dependents: map<Id, seq<Id>>, ghost before: map<Id, seq<Id>>, ghost settled: set<Id>)
    returns (inDegree': map<Id, int>, next: seq<Id>)
    requires Dual(before.Keys, before, dependents) && Counted(inDegree, before, settled)
    requires Distinct(queue) && forall v :: v in queue ==> v in before && v !in settled
    ensures Counted(inDegree', before, settled + set u | u in queue) && Freed(next, inDegree, inDegree')
  {
    hide Dual;
    inDegree', next := inDegree, [];
    ghost var done := settled;
    for i := 0 to |queue|
      invariant done == settled + set u | u in queue[..i]
      invariant Counted(inDegree', before, done) && Freed(next, inDegree, inDegree')
      invariant forall v :: v in inDegree ==> inDegree'[v] <= inDegree[v]
    {
      hide Freed;
      var id := queue[i];
      assert queue[..i + 1] == queue[..i] + [id];
      SuccessorsKnown(before, dependents, id);
      ghost var was := inDegree';
      var freed;
      inDegree', freed := Release(Lookup(dependents, id), inDegree');
      LoweredMeans(inDegree', was, Lookup(dependents, id), freed);
      CountsDone(was, inDegree', before, dependents, done, id);
      done := done + {id};
      FreedMore(next, freed, inDegree, was, inDegree', before, done);
      next := next + freed;
    }
    assert queue[..|queue|] == queue;
  }

  lemma FreedMore(next: seq<Id>, freed: seq<Id>, d0: map<Id, int>, d1: map<Id, int>, d2: map<Id, int>, before: map<Id, seq<Id>>, done: set<Id>)
    requires d0.Keys == d1.Keys == d2.Keys && Freed(next, d0, d1)
    requires forall v :: v in d0 ==> d2[v] <= d1[v] <= d0[v]
    requires Counted(d2, before, done)
    requires Distinct(freed) && forall v :: v in freed <==> v in d1 && d2[v] <= 0 < d1[v]
    ensures Freed(next + freed, d0, d2)
  {
    forall v | v in d2 ensures d2[v] >= 0 { CountedFree(d2, before, done, v); }
    DistinctConcat(next, freed);
  }

  method Settle(order: seq<Id>, layers: map<Id, nat>, layer: nat) returns (layers': map<Id, nat>)
    ensures layers'.Keys == layers.Keys + set u | u in order
    ensures forall v :: v in layers' ==> layers'[v] == if v in layers then layers[v] else layer
  {
    layers' := layers;
    for i := 0 to |order|
      invariant layers'.Keys == layers.Keys + set u | u in order[..i]
      invariant forall v :: v in layers' ==> layers'[v] == if v in layers then layers[v] else layer
    {
      assert order[..i + 1] == order[..i] + [order[i]];
      if order[i] !in layers' {
        layers' := layers'[order[i] := layer];
      }
    }
    assert order[..|order|] == order;
  }

  /** What has no chain of `k` arcs is settled, at its longest chain. */
  ghost predicate SettledBelow(k: nat, layers: map<Id, nat>, arcs: Arcs, ids: set<Id>) {
    && (forall v :: v in layers <==> v in ids && !HasChain(arcs, v, k))
    && (forall v :: v in layers ==> layers[v] < k && Between(arcs, v, layers[v]))
  }

  /** `k` is as far back as chains into `v` reach. */
  ghost predicate Between(arcs: Arcs, v: Id, k: nat) {
    HasChain(arcs, v, k) && !HasChain(arcs, v, k + 1)
  }

  ghost predicate QueuedAt(k: nat, queue: seq<Id>, arcs: Arcs, ids: set<Id>) {
    Distinct(queue) && forall v :: v in queue <==> v in ids && Between(arcs, v, k)
  }

  /** Layers are numbered by longest chain; what hangs on a cycle shares the fallback layer. */
  method TopologicalLayers(elements: Elements, order: seq<Id>) returns (layers: map<Id, nat>)
    requires elements.Valid() && IsOrderOf(order, elements.at.Keys)
    ensures IsLayering(layers, DependencyGraph(elements), elements.at.Keys)
  {
    hide Pending, HasChain, IsLongest, DependsOnCycle, Dual, ArcsAre, Within, DepsOf, Counted, DependencyGraph;
    ghost var arcs := DependencyGraph(elements);
    GraphHasDependencies(elements);
    ghost var ids, before := elements.at.Keys, DepsOf(elements);
    assert before.Keys == ids by { DepsKeys(elements); }
    var inDegree, dependents := CountDependencies(elements);
    assert inDegree.Keys == ids by { CountedKeys(inDegree, before, {}); }
    layers := map[];
    assert layers.Keys == {};
    var queue := Idle(order, inDegree);
    var currentLayer: nat := 0;
    DepsAreArcs(arcs, elements);
    StartsAtLayerZero(queue, inDegree, arcs, before);

    while queue != []
      invariant SettledBelow(currentLayer, layers, arcs, ids) && QueuedAt(currentLayer, queue, arcs, ids)
      invariant Counted(inDegree, before, layers.Keys)
      invariant currentLayer > 0 ==> currentLayer - 1 in layers.Values
      decreases ids - layers.Keys
    {
      ghost var settled, inDegree0 := layers, inDegree;
      assert queue[0] !in settled;
      layers := Settle(queue, layers, currentLayer);
      assert layers[queue[0]] == currentLayer;
      var next;
      inDegree, next := ReleaseLayer(queue, inDegree, dependents, before, settled.Keys);
      NextLayer(currentLayer, settled, queue, inDegree0, layers, next, inDegree, arcs, before);
      queue := next;
      currentLayer := currentLayer + 1;
    }

    Exhausted(currentLayer, layers, inDegree, arcs, before);
    ghost var settled := layers;
    layers := Settle(order, layers, currentLayer);
    FallbackLayer(currentLayer, settled, layers, arcs, ids);
  }

  lemma DepsKeys(elements: Elements)
    ensures DepsOf(elements).Keys == elements.at.Keys
  {
  }

  /** Once the queue runs dry, the settled elements are those free of cycles. */
  lemma Exhausted(k: nat, layers: map<Id, nat>, inDegree: map<Id, int>, arcs: Arcs, before: map<Id, seq<Id>>)
    requires SettledBelow(k, layers, arcs, before.Keys) && QueuedAt(k, [], arcs, before.Keys)
    requires ArcsAre(arcs, before) && Within(arcs, before.Keys) && Counted(inDegree, before, layers.Keys)
    ensures layers.Keys == CycleFree(arcs, before.Keys)
    ensures forall v :: v in layers ==> layers[v] < k && IsLongest(arcs, v, layers[v])
  {
    hide Pending, HasChain, DependsOnCycle, IsLongest;
    CountedKeys(inDegree, before, layers.Keys);
    forall v | v in before && inDegree[v] == 0 ensures v in layers {
      StepDegree(k, layers, inDegree, arcs, before, v);
    }
    LeftoversDependOnCycle(arcs, before, inDegree, layers.Keys);
    SettledAreFree(k, layers, arcs, before.Keys);
    forall v | v in layers ensures IsLongest(arcs, v, layers[v]) {
      assert Between(arcs, v, layers[v]);
      LongestIffHasChain(arcs, v, layers[v]);
    }
  }

  lemma FallbackLayer(k: nat, settled: map<Id, nat>, layers: map<Id, nat>, arcs: Arcs, ids: set<Id>)
    requires settled.Keys == CycleFree(arcs, ids) && layers.Keys == ids
    requires forall v :: v in settled ==> settled[v] < k && IsLongest(arcs, v, settled[v])
    requires k > 0 ==> k - 1 in settled.Values
    requires forall v :: v in layers ==> layers[v] == if v in settled then settled[v] else k
    ensures IsLayering(layers, arcs, ids)
  {
    hide IsLongest, DependsOnCycle;
  }

  lemma StartsAtLayerZero(queue: seq<Id>, inDegree: map<Id, int>, arcs: Arcs, before: map<Id, seq<Id>>)
    requires ArcsAre(arcs, before) && Counted(inDegree, before, {})
    requires Distinct(queue) && forall v :: v in queue <==> v in before && inDegree[v] == 0
    ensures SettledBelow(0, map[], arcs, before.Keys) && QueuedAt(0, queue, arcs, before.Keys)
  {
    forall v | v in before ensures v in queue <==> !HasChain(arcs, v, 1) {
      CountedFree(inDegree, before, {}, v);
      ChainOneMore(arcs, before, v, 0);
    }
  }

  lemma NextLayer(k: nat, layers: map<Id, nat>, queue: seq<Id>, inDegree: map<Id, int>,
                  layers': map<Id, nat>, next: seq<Id>, inDegree': map<Id, int>, arcs: Arcs, before: map<Id, seq<Id>>)
    requires SettledBelow(k, layers, arcs, before.Keys) && QueuedAt(k, queue, arcs, before.Keys)
    requires ArcsAre(arcs, before) && Within(arcs, before.Keys)
    requires Counted(inDegree, before, layers.Keys) && Counted(inDegree', before, layers'.Keys)
    requires layers'.Keys == layers.Keys + set u | u in queue
    requires forall v :: v in layers' ==> layers'[v] == if v in layers then layers[v] else k
    requires Freed(next, inDegree, inDegree')
    ensures SettledBelow(k + 1, layers', arcs, before.Keys) && QueuedAt(k + 1, next, arcs, before.Keys)
  {
    StepLayers(k, layers, queue, layers', arcs, before.Keys);
    NextQueue(k, layers, inDegree, layers', next, inDegree', arcs, before);
  }

  /** A queued node has no chain longer than the current layer. */
  lemma StepLayers(k: nat, layers: map<Id, nat>, queue: seq<Id>, layers': map<Id, nat>, arcs: Arcs, ids: set<Id>)
    requires SettledBelow(k, layers, arcs, ids) && QueuedAt(k, queue, arcs, ids)
    requires layers'.Keys == layers.Keys + set u | u in queue
    requires forall v :: v in layers' ==> layers'[v] == if v in layers then layers[v] else k
    ensures SettledBelow(k + 1, layers', arcs, ids)
  {
    forall v | v in ids && HasChain(arcs, v, k + 1) ensures HasChain(arcs, v, k) {
      HasChainDown(arcs, v, k, k + 1);
    }
    hide HasChain;
  }

  lemma NextQueue(k: nat, layers: map<Id, nat>, inDegree: map<Id, int>, layers': map<Id, nat>, next: seq<Id>,
                  inDegree': map<Id, int>, arcs: Arcs, before: map<Id, seq<Id>>)
    requires SettledBelow(k, layers, arcs, before.Keys) && SettledBelow(k + 1, layers', arcs, before.Keys)
    requires ArcsAre(arcs, before) && Within(arcs, before.Keys)
    requires Counted(inDegree, before, layers.Keys) && Counted(inDegree', before, layers'.Keys)
    requires Freed(next, inDegree, inDegree')
    ensures QueuedAt(k + 1, next, arcs, before.Keys)
  {
    hide Pending, HasChain;
    forall v | v in before
      ensures inDegree[v] >= 0 && (inDegree[v] == 0 <==> !HasChain(arcs, v, k + 1))
      ensures inDegree'[v] >= 0 && (inDegree'[v] == 0 <==> !HasChain(arcs, v, k + 2))
    {
      StepDegree(k, layers, inDegree, arcs, before, v);
      StepDegree(k + 1, layers', inDegree', arcs, before, v);
    }
    QueueFromCounts(k, inDegree, next, inDegree', arcs);
  }

  lemma QueueFromCounts(k: nat, inDegree: map<Id, int>, next: seq<Id>, inDegree': map<Id, int>, arcs: Arcs)
    requires inDegree.Keys == inDegree'.Keys && Freed(next, inDegree, inDegree')
    requires forall v :: v in inDegree ==> inDegree[v] >= 0 && (inDegree[v] == 0 <==> !HasChain(arcs, v, k + 1))
    requires forall v :: v in inDegree ==> inDegree'[v] >= 0 && (inDegree'[v] == 0 <==> !HasChain(arcs, v, k + 2))
    ensures QueuedAt(k + 1, next, arcs, inDegree.Keys)
  {
    hide HasChain;
  }

  lemma StepDegree(k: nat, layers: map<Id, nat>, inDegree: map<Id, int>, arcs: Arcs, before: map<Id, seq<Id>>, v: Id)
    requires forall v :: v in layers <==> v in before && !HasChain(arcs, v, k)
    requires ArcsAre(arcs, before) && Within(arcs, before.Keys) && Counted(inDegree, before, layers.Keys) && v in before
    ensures inDegree[v] >= 0
    ensures inDegree[v] == 0 <==> !HasChain(arcs, v, k + 1)
  {
    CountedFree(inDegree, before, layers.Keys, v);
    ChainOneMore(arcs, before, v, k);
    forall u | u in before[v] ensures u in before {
      assert (u, v) in arcs;
    }
  }

  lemma SettledAreFree(k: nat, layers: map<Id, nat>, arcs: Arcs, ids: set<Id>)
    requires SettledBelow(k, layers, arcs, ids) && Within(arcs, ids)
    ensures forall v :: v in layers ==> !DependsOnCycle(arcs, v)
  {
    hide HasChain, DependsOnCycle, Within;
    forall v | v in layers ensures !DependsOnCycle(arcs, v) {
      UnboundedIffCycle(arcs, v, ids);
      assert !HasChain(arcs, v, k);
    }
  }

  /** A layering is unique, so the order sets are iterated in cannot show. */
  lemma LayeringUnique(layers: map<Id, nat>, layers': map<Id, nat>, arcs: Arcs, ids: set<Id>)
    requires IsLayering(layers, arcs, ids) && IsLayering(layers', arcs, ids)
    ensures layers == layers'
  {
    var free := CycleFree(arcs, ids);
    forall v | v in free ensures layers[v] == layers'[v] {
      LongestUnique(arcs, v, layers[v], layers'[v]);
    }
    FallbackUnique(layers, layers', ids, free);
  }

  lemma FallbackUnique(layers: map<Id, nat>, layers': map<Id, nat>, ids: set<Id>, free: set<Id>)
    requires layers.Keys == ids && layers'.Keys == ids && free <= ids
    requires forall v :: v in free ==> layers[v] == layers'[v]
    requires FallbackShared(layers, ids, free) && FallbackShared(layers', ids, free)
    ensures layers == layers'
  {
    hide FallbackShared;
    forall v | v in ids - free ensures layers[v] == layers'[v] {
      FallbackNoLower(layers, layers', ids, free, v);
      FallbackNoLower(layers', layers, ids, free, v);
    }
  }

  lemma FallbackNoLower(layers: map<Id, nat>, layers': map<Id, nat>, ids: set<Id>, free: set<Id>, v: Id)
    requires layers.Keys == ids && layers'.Keys == ids && free <= ids && v in ids - free
    requires forall w :: w in free ==> layers[w] == layers'[w]
    requires FallbackShared(layers, ids, free) && FallbackShared(layers', ids, free)
    ensures layers[v] <= layers'[v]
  {
    if layers[v] > 0 {
      var w :| w in free && layers[w] == layers[v] - 1;
      assert layers'[w] < layers'[v];
    }
  }

  /** How often a dependency is repeated cannot show either. */
  lemma RepeatsDoNotMatter(layers: map<Id, nat>, arcs: Arcs, arcs': Arcs, ids: set<Id>)
    requires IsLayering(layers, arcs, ids) && Within(arcs, ids)
    requires forall e :: e in arcs <==> e in arcs'
    ensures IsLayering(layers, arcs', ids)
  {
    forall v ensures DependsOnCycle(arcs, v) <==> DependsOnCycle(arcs', v) {
      UnboundedIffCycle(arcs, v, ids);
      UnboundedIffCycle(arcs', v, ids);
      SameArcsSameChains(arcs, arcs', v, |ids| + 1);
    }
    assert CycleFree(arcs, ids) == CycleFree(arcs', ids);
    forall v | v in CycleFree(arcs, ids) ensures IsLongest(arcs', v, layers[v]) {
      LongestIffHasChain(arcs, v, layers[v]);
      LongestIffHasChain(arcs', v, layers[v]);
      SameArcsSameChains(arcs, arcs', v, layers[v]);
      SameArcsSameChains(arcs, arcs', v, layers[v] + 1);
    }
  }

  // ----- which of two layers is lower

  /** Some dependency chain into `v` is longer than every chain into `u`. */
  ghost predicate Outreaches(arcs: Arcs, v: Id, u: Id) {
    exists n: nat :: HasChain(arcs, v, n) && !HasChain(arcs, u, n)
  }

  /** An element lies in a lower layer than another exactly when the other has the longer chain, arc between them or not. */
  lemma LowerIffOutreached(layers: map<Id, nat>, arcs: Arcs, ids: set<Id>, u: Id, v: Id)
    requires IsLayering(layers, arcs, ids) && Within(arcs, ids) && u in ids && v in ids
    ensures layers[u] < layers[v] <==> Outreaches(arcs, v, u)
  {
    hide HasChain, IsLongest, DependsOnCycle, Within;
    UnboundedIffCycle(arcs, u, ids);
    UnboundedIffCycle(arcs, v, ids);
    var free := CycleFree(arcs, ids);
    if u !in free {
      assert forall n: nat :: HasChain(arcs, u, n);
    } else {
      LongestIffHasChain(arcs, u, layers[u]);
      if v in free {
        LongerIffOutreaches(arcs, u, layers[u], v, layers[v]);
      } else {
        assert HasChain(arcs, v, layers[u] + 1) && !HasChain(arcs, u, layers[u] + 1);
      }
    }
  }

  /** Of two longest chains, the one into `v` is the longer. */
  lemma LongerIffOutreaches(arcs: Arcs, u: Id, m: nat, v: Id, n: nat)
    requires IsLongest(arcs, u, m) && IsLongest(arcs, v, n)
    ensures m < n <==> Outreaches(arcs, v, u)
  {
    hide HasChain, IsLongest;
    LongestIffHasChain(arcs, u, m);
    LongestIffHasChain(arcs, v, n);
    if m < n {
      HasChainDown(arcs, v, m + 1, n);
    }
    if k: nat :| HasChain(arcs, v, k) && !HasChain(arcs, u, k) {
      if k <= m { HasChainDown(arcs, u, k, m); }
      if n < k { HasChainDown(arcs, v, n + 1, k); }
    }
  }

  /** Along an arc, that is when its source does not depend on a cycle. */
  lemma ArcOutreaches(arcs: Arcs, ids: set<Id>, u: Id, v: Id)
    requires Within(arcs, ids) && (u, v) in arcs
    ensures Outreaches(arcs, v, u) <==> !DependsOnCycle(arcs, u)
  {
    hide HasChain, DependsOnCycle, Within, IsLongest;
    UnboundedIffCycle(arcs, u, ids);
    LongestIffFree(arcs, u, ids);
    if DependsOnCycle(arcs, u) {
      assert forall n: nat :: HasChain(arcs, u, n);
    } else {
      var n: nat :| IsLongest(arcs, u, n);
      LongestIffHasChain(arcs, u, n);
      FirstArc(arcs, u, v, n);
      assert HasChain(arcs, v, n + 1) && !HasChain(arcs, u, n + 1);
    }
  }
}
