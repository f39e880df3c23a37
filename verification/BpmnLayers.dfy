/**
 Layering of the flow nodes of a process (scripts/bpmn_add_di.py, the first half
 of `Process.layout`): edges leaving a boundary event count as leaving its host,
 a first-in first-out queue relaxes layers along the edges, and every node the
 queue never reaches gets a layer of its own on top.
 */
module BpmnLayers {
  import opened Collections
  import opened Chains
  import opened Kahn

  datatype Flow = Flow(id: string, source: Id, target: Id)

  /** An edge that leaves an attached boundary event leaves its host instead. */
  function LiftedSource(flow: Flow, host: map<Id, Id>): Id {
    if flow.source in host then host[flow.source] else flow.source
  }

  /** The layered graph: lifted edges with both ends among the non-boundary nodes. */
  function LiftedArcs(flows: seq<Flow>, host: map<Id, Id>, main: set<Id>): Arcs {
    if flows == [] then []
    else
      var n := |flows| - 1;
      var source := LiftedSource(flows[n], host);
      LiftedArcs(flows[..n], host, main) +
      if source in main && flows[n].target in main then [(source, flows[n].target)] else []
  }

  function Incoming(arcs: Arcs, v: Id): seq<Id> {
    if arcs == [] then []
    else
      var n := |arcs| - 1;
      Incoming(arcs[..n], v) + if arcs[n].1 == v then [arcs[n].0] else []
  }

  function Outgoing(arcs: Arcs, u: Id): seq<Id> {
    if arcs == [] then []
    else
      var n := |arcs| - 1;
      Outgoing(arcs[..n], u) + if arcs[n].0 == u then [arcs[n].1] else []
  }

  /** The predecessor lists of the layered graph. */
  ghost function Before(arcs: Arcs, main: set<Id>): map<Id, seq<Id>> {
    map v | v in main :: Incoming(arcs, v)
  }

  lemma OneMoreArc(arcs: Arcs, a: (Id, Id), u: Id, v: Id)
    ensures Incoming(arcs + [a], v) == Incoming(arcs, v) + if v == a.1 then [a.0] else []
    ensures Outgoing(arcs + [a], u) == Outgoing(arcs, u) + if u == a.0 then [a.1] else []
    ensures Incoming([], v) == Outgoing([], u) == []
  {
    assert (arcs + [a])[..|arcs + [a]| - 1] == arcs;
  }

  /** Both adjacency lists hold the arcs so far. */
  ghost predicate HoldArcs(incoming: map<Id, seq<Id>>, outgoing: map<Id, seq<Id>>, arcs: Arcs) {
    && (forall v :: Lookup(incoming, v) == Incoming(arcs, v))
    && (forall u :: Lookup(outgoing, u) == Outgoing(arcs, u))
  }

  lemma HoldOneMore(incoming: map<Id, seq<Id>>, outgoing: map<Id, seq<Id>>, arcs: Arcs, source: Id, target: Id)
    requires HoldArcs(incoming, outgoing, arcs)
    ensures HoldArcs(incoming[target := Lookup(incoming, target) + [source]], outgoing[source := Lookup(outgoing, source) + [target]], arcs + [(source, target)])
    ensures HoldArcs(map[], map[], [])
  {
    hide Incoming, Outgoing;
    forall v
      ensures Incoming(arcs + [(source, target)], v) == Incoming(arcs, v) + if v == target then [source] else []
      ensures Outgoing(arcs + [(source, target)], v) == Outgoing(arcs, v) + if v == source then [target] else []
      ensures Incoming([], v) == Outgoing([], v) == []
    {
      OneMoreArc(arcs, (source, target), v, v);
    }
  }

  method LiftEdges(flows: seq<Flow>, host: map<Id, Id>, main: set<Id>) returns (outgoing: map<Id, seq<Id>>, incoming: map<Id, seq<Id>>)
    ensures forall v :: Lookup(incoming, v) == Incoming(LiftedArcs(flows, host, main), v)
    ensures forall u :: Lookup(outgoing, u) == Outgoing(LiftedArcs(flows, host, main), u)
  {
    outgoing, incoming := map[], map[];
    ghost var arcs: Arcs := [];
    assert HoldArcs(incoming, outgoing, []);
    for i := 0 to |flows|
      invariant arcs == LiftedArcs(flows[..i], host, main)
      invariant HoldArcs(incoming, outgoing, arcs)
    {
      hide HoldArcs, Lookup;
      assert flows[..i + 1][..i] == flows[..i];
      var source := if flows[i].source in host then host[flows[i].source] else flows[i].source;
      var target := flows[i].target;
      if source in main && target in main {
        HoldOneMore(incoming, outgoing, arcs, source, target);
        outgoing := outgoing[source := Lookup(outgoing, source) + [target]];
        incoming := incoming[target := Lookup(incoming, target) + [source]];
        arcs := arcs + [(source, target)];
      }
    }
    assert flows[..|flows|] == flows;
  }

  lemma {:induction false} ListsHoldArcs(arcs: Arcs, u: Id, v: Id)
    ensures multiset(Outgoing(arcs, u))[v] == multiset(arcs)[(u, v)] == multiset(Incoming(arcs, v))[u]
  {
    hide Incoming, Outgoing;
    OneMoreArc([], (u, v), u, v);
    if arcs == [] {
    } else {
      var rest, last := arcs[..|arcs| - 1], arcs[|arcs| - 1];
      assert arcs == rest + [last];
      ListsHoldArcs(rest, u, v);
      OneMoreArc(rest, last, u, v);
      CountLast(rest, last, (u, v));
      CountLast(Outgoing(rest, u), last.1, v);
      CountLast(Incoming(rest, v), last.0, u);
    }
  }

  lemma CountLast<T>(s: seq<T>, x: T, y: T)
    ensures multiset(s + [x])[y] == multiset(s)[y] + if x == y then 1 else 0
  {
  }

  lemma {:induction false} LiftedWithin(flows: seq<Flow>, host: map<Id, Id>, main: set<Id>)
    ensures Within(LiftedArcs(flows, host, main), main)
  {
    if flows == [] {
    } else {
      LiftedWithin(flows[..|flows| - 1], host, main);
    }
  }

  lemma ListedIsArc(arcs: Arcs, u: Id, v: Id)
    ensures u in Incoming(arcs, v) <==> (u, v) in arcs
    ensures v in Outgoing(arcs, u) <==> (u, v) in arcs
  {
    ListsHoldArcs(arcs, u, v);
    hide Incoming, Outgoing;
    assert u in Incoming(arcs, v) <==> u in multiset(Incoming(arcs, v));
    assert v in Outgoing(arcs, u) <==> v in multiset(Outgoing(arcs, u));
    assert (u, v) in arcs <==> (u, v) in multiset(arcs);
  }

  lemma BeforeIsIncoming(arcs: Arcs, main: set<Id>)
    ensures Before(arcs, main).Keys == main
    ensures forall v :: v in main ==> Before(arcs, main)[v] == Incoming(arcs, v)
  {
  }

  lemma GraphOf(arcs: Arcs, main: set<Id>, outgoing: map<Id, seq<Id>>)
    requires Within(arcs, main)
    requires forall u :: Lookup(outgoing, u) == Outgoing(arcs, u)
    ensures Before(arcs, main).Keys == main
    ensures ArcsAre(arcs, Before(arcs, main)) && Dual(main, Before(arcs, main), outgoing)
  {
    hide Incoming, Outgoing, Before, Lookup;
    BeforeIsIncoming(arcs, main);
    forall u, v ensures u in Incoming(arcs, v) <==> (u, v) in arcs { ListedIsArc(arcs, u, v); }
    forall u, v ensures v in Outgoing(arcs, u) <==> (u, v) in arcs { ListedIsArc(arcs, u, v); }
    forall u, v | u in main && v in main
      ensures multiset(Lookup(outgoing, u))[v] == multiset(Before(arcs, main)[v])[u]
    {
      ListsHoldArcs(arcs, u, v);
    }
  }

  /** No layer has gone down; unless the node is its own target, each target is just above it or higher, and nothing else moved. */
  ghost predicate Pushed(layerOf': map<Id, nat>, layerOf: map<Id, nat>, targets: seq<Id>, current: Id) {
    && layerOf'.Keys == layerOf.Keys && current in layerOf
    && (forall v :: v in layerOf ==> layerOf'[v] >= layerOf[v])
    && (current !in targets ==> forall v :: v in layerOf ==>
          layerOf'[v] == if v in targets && layerOf[v] <= layerOf[current] then layerOf[current] + 1 else layerOf[v])
  }

  lemma NothingPushed(layerOf: map<Id, nat>, current: Id)
    requires current in layerOf
    ensures Pushed(layerOf, layerOf, [], current)
  {
  }

  lemma PushedOne(layerOf': map<Id, nat>, layerOf: map<Id, nat>, targets: seq<Id>, current: Id, t: Id)
    requires Pushed(layerOf', layerOf, targets, current) && t in layerOf
    ensures t in layerOf' && current in layerOf'
    ensures Pushed(if layerOf'[t] < layerOf'[current] + 1 then layerOf'[t := layerOf'[current] + 1] else layerOf', layerOf, targets + [t], current)
  {
  }

  /**
   One node taken off the queue: each of its edges pushes the target at least one layer
   up and takes one off the target's counter.
   */
  method Visit(current: Id, successors: seq<Id>, layerOf: map<Id, nat>, inDegree: map<Id, int>)
    returns (layerOf': map<Id, nat>, inDegree': map<Id, int>, freed: seq<Id>)
    requires current in layerOf && layerOf.Keys == inDegree.Keys
    requires forall v :: v in successors ==> v in inDegree
    ensures Pushed(layerOf', layerOf, successors, current)
    ensures Lowered(inDegree', inDegree, successors, freed)
  {
    hide *;
    layerOf', inDegree', freed := layerOf, inDegree, [];
    NothingPushed(layerOf, current);
    NothingLowered(inDegree);
    for j := 0 to |successors|
      invariant Pushed(layerOf', layerOf, successors[..j], current)
      invariant Lowered(inDegree', inDegree, successors[..j], freed)
    {
      var target := successors[j];
      assert successors[..j + 1] == successors[..j] + [target];
      PushedOne(layerOf', layerOf, successors[..j], current, target);
      LoweredOne(inDegree', inDegree, successors[..j], freed, target);
      if layerOf'[target] < layerOf'[current] + 1 {
        layerOf' := layerOf'[target := layerOf'[current] + 1];
      }
      inDegree' := inDegree'[target := inDegree'[target] - 1];
      if inDegree'[target] == 0 {
        freed := freed + [target];
      }
    }
    assert successors[..|successors|] == successors;
  }

  // ----- what the queue keeps when it starts from nodes without predecessors

  /** Layers below `done` are relaxed: above every finished predecessor, and no higher than one of them demands. */
  ghost predicate Relaxed(layerOf: map<Id, nat>, before: map<Id, seq<Id>>, done: set<Id>) {
    && layerOf.Keys == before.Keys
    && forall v :: v in before ==> RelaxedAt(layerOf, before[v], done, layerOf[v])
  }

  ghost predicate RelaxedAt(layerOf: map<Id, nat>, before: seq<Id>, done: set<Id>, layer: nat) {
    && (forall u :: u in before && u in done && u in layerOf ==> layerOf[u] < layer)
    && (layer > 0 ==> exists u :: u in before && u in done && u in layerOf && layerOf[u] == layer - 1)
  }

  ghost predicate QueueHoldsFree(queue: seq<Id>, inDegree: map<Id, int>, done: set<Id>) {
    && Distinct(queue)
    && (forall v :: v in queue ==> v !in done)
    && (forall v :: v in inDegree ==> (inDegree[v] == 0 <==> v in done || v in queue))
  }

  ghost predicate Natural(layerOf: map<Id, nat>, inDegree: map<Id, int>, queue: seq<Id>, done: set<Id>, before: map<Id, seq<Id>>) {
    && Relaxed(layerOf, before, done)
    && Counted(inDegree, before, done)
    && QueueHoldsFree(queue, inDegree, done)
  }

  lemma NaturalStep(layerOf: map<Id, nat>, inDegree: map<Id, int>, queue: seq<Id>, done: set<Id>,
                    before: map<Id, seq<Id>>, after: map<Id, seq<Id>>,
                    layerOf': map<Id, nat>, inDegree': map<Id, int>, freed: seq<Id>)
    requires Dual(before.Keys, before, after) && queue != [] && queue[0] in before
    requires Natural(layerOf, inDegree, queue, done, before)
    requires Pushed(layerOf', layerOf, Lookup(after, queue[0]), queue[0])
    requires Lowered(inDegree', inDegree, Lookup(after, queue[0]), freed)
    ensures Natural(layerOf', inDegree', queue[1..] + freed, done + {queue[0]}, before)
  {
    hide Pending, Relaxed, Dual, Pushed, Lowered, QueueHoldsFree, Counted, Lookup;
    SuccessorsWait(inDegree, queue, done, before, after);
    LoweredMeans(inDegree', inDegree, Lookup(after, queue[0]), freed);
    CountsDone(inDegree, inDegree', before, after, done, queue[0]);
    QueueStep(queue, inDegree, inDegree', freed, done, before);
    RelaxStep(layerOf, layerOf', before, after, done, queue[0]);
  }

  /** The successors of the first in the queue are neither finished nor queued: it is still a predecessor to come. */
  lemma SuccessorsWait(inDegree: map<Id, int>, queue: seq<Id>, done: set<Id>, before: map<Id, seq<Id>>, after: map<Id, seq<Id>>)
    requires Dual(before.Keys, before, after) && queue != [] && queue[0] in before
    requires Counted(inDegree, before, done) && QueueHoldsFree(queue, inDegree, done)
    ensures queue[0] !in done
    ensures forall v :: v in Lookup(after, queue[0]) ==> v !in done && v != queue[0]
  {
    hide Pending, Dual, Lookup;
    assert queue[0] in queue;
    forall v | v in Lookup(after, queue[0]) ensures v !in done && v != queue[0] {
      EdgeBothWays(before, after, queue[0], v);
      CountedFree(inDegree, before, done, v);
    }
  }

  lemma EdgeBothWays(before: map<Id, seq<Id>>, after: map<Id, seq<Id>>, u: Id, v: Id)
    requires Dual(before.Keys, before, after) && u in before
    ensures v in Lookup(after, u) <==> v in before && u in before[v]
  {
    if v in before {
      assert multiset(Lookup(after, u))[v] == multiset(before[v])[u];
      assert v in Lookup(after, u) <==> v in multiset(Lookup(after, u));
      assert u in before[v] <==> u in multiset(before[v]);
    }
  }

  lemma QueueStep(queue: seq<Id>, inDegree: map<Id, int>, inDegree': map<Id, int>, freed: seq<Id>, done: set<Id>, before: map<Id, seq<Id>>)
    requires queue != [] && queue[0] in before && inDegree'.Keys == inDegree.Keys
    requires QueueHoldsFree(queue, inDegree, done)
    requires Counted(inDegree, before, done) && Counted(inDegree', before, done + {queue[0]})
    requires forall v :: v in inDegree ==> inDegree'[v] <= inDegree[v]
    requires Distinct(freed) && forall v :: v in freed <==> v in inDegree && inDegree'[v] <= 0 < inDegree[v]
    ensures QueueHoldsFree(queue[1..] + freed, inDegree', done + {queue[0]})
  {
    hide Pending, Counted, QueueHoldsFree, Distinct;
    CountedKeys(inDegree, before, done);
    forall v | v in before ensures inDegree[v] >= 0 && inDegree'[v] >= 0 {
      CountedFree(inDegree, before, done, v);
      CountedFree(inDegree', before, done + {queue[0]}, v);
    }
    QueueAdvances(queue, inDegree, inDegree', freed, done);
  }

  lemma QueueAdvances(queue: seq<Id>, inDegree: map<Id, int>, inDegree': map<Id, int>, freed: seq<Id>, done: set<Id>)
    requires queue != [] && inDegree'.Keys == inDegree.Keys && QueueHoldsFree(queue, inDegree, done)
    requires forall v :: v in inDegree ==> inDegree[v] >= 0 && 0 <= inDegree'[v] <= inDegree[v]
    requires Distinct(freed) && forall v :: v in freed <==> v in inDegree && inDegree'[v] <= 0 < inDegree[v]
    requires queue[0] in inDegree
    ensures QueueHoldsFree(queue[1..] + freed, inDegree', done + {queue[0]})
  {
    var rest := queue[1..];
    assert queue == [queue[0]] + rest;
    assert Distinct(rest) && queue[0] !in rest;
    hide Distinct;
    DistinctConcat(rest, freed);
  }

  lemma RelaxStep(layerOf: map<Id, nat>, layerOf': map<Id, nat>, before: map<Id, seq<Id>>, after: map<Id, seq<Id>>, done: set<Id>, current: Id)
    requires Relaxed(layerOf, before, done) && current in before && current !in done
    requires forall v :: v in Lookup(after, current) ==> v !in done && v != current
    requires Dual(before.Keys, before, after)
    requires Pushed(layerOf', layerOf, Lookup(after, current), current)
    ensures Relaxed(layerOf', before, done + {current})
  {
    hide Dual, RelaxedAt, Lookup;
    forall v | v in before ensures RelaxedAt(layerOf', before[v], done + {current}, layerOf'[v]) {
      EdgeBothWays(before, after, current, v);
      assert RelaxedAt(layerOf, before[v], done, layerOf[v]);
      RelaxOne(layerOf, layerOf', before[v], done, current, layerOf[v], layerOf'[v]);
    }
  }

  lemma RelaxOne(layerOf: map<Id, nat>, layerOf': map<Id, nat>, before: seq<Id>, done: set<Id>, current: Id, layer: nat, layer': nat)
    requires RelaxedAt(layerOf, before, done, layer) && current in layerOf && layerOf'.Keys == layerOf.Keys
    requires forall u :: u in layerOf && (u in done || u == current) ==> layerOf'[u] == layerOf[u]
    requires layer' == if current in before && layer <= layerOf[current] then layerOf[current] + 1 else layer
    ensures RelaxedAt(layerOf', before, done + {current}, layer')
  {
    if !(current in before && layer <= layerOf[current]) && layer > 0 {
      var u := DemandedAt(layerOf, before, done, layer);
      assert layerOf'[u] == layerOf[u];
    } else if layer' > 0 {
      assert layerOf'[current] == layer' - 1;
    }
  }

  /** When the queue has run dry, finished nodes are those free of cycles, at their longest chains. */
  lemma NaturalEnd(layerOf: map<Id, nat>, inDegree: map<Id, int>, done: set<Id>, before: map<Id, seq<Id>>, arcs: Arcs)
    requires Natural(layerOf, inDegree, [], done, before) && done <= before.Keys
    requires ArcsAre(arcs, before) && Within(arcs, before.Keys)
    ensures forall v :: v in before ==> (v in done <==> !DependsOnCycle(arcs, v))
    ensures forall v :: v in done ==> IsLongest(arcs, v, layerOf[v])
  {
    hide Pending, HasChain, IsLongest, DependsOnCycle, Relaxed, ArcsAre, Within, Counted, ClosedBack;
    RelaxedKeys(layerOf, before, done);
    CountedKeys(inDegree, before, done);
    LeftoversDependOnCycle(arcs, before, inDegree, done);
    FinishedAreClosed(inDegree, done, before);
    forall v | v in done ensures IsLongest(arcs, v, layerOf[v]) && !DependsOnCycle(arcs, v) {
      LongestByRelaxing(layerOf, done, before, arcs, v);
      UnboundedIffCycle(arcs, v, before.Keys);
    }
  }

  lemma FinishedAreClosed(inDegree: map<Id, int>, done: set<Id>, before: map<Id, seq<Id>>)
    requires Counted(inDegree, before, done) && QueueHoldsFree([], inDegree, done)
    ensures ClosedBack(done, before)
  {
    hide Pending;
    forall x, u | x in done && x in before && u in before[x] ensures u in done { CountedFree(inDegree, before, done, x); }
  }

  lemma LongestByRelaxing(layerOf: map<Id, nat>, done: set<Id>, before: map<Id, seq<Id>>, arcs: Arcs, v: Id)
    requires Relaxed(layerOf, before, done) && done <= before.Keys && ArcsAre(arcs, before) && v in done
    requires ClosedBack(done, before)
    ensures IsLongest(arcs, v, layerOf[v])
    ensures !HasChain(arcs, v, layerOf[v] + 1)
  {
    hide IsLongest, HasChain, Relaxed, ArcsAre, ClosedBack;
    RelaxedKeys(layerOf, before, done);
    ChainReached(layerOf, done, before, arcs, v);
    ChainBounded(layerOf, done, before, arcs, v, layerOf[v] + 1);
    LongestIffHasChain(arcs, v, layerOf[v]);
  }

  /** Predecessors of finished nodes are finished. */
  ghost predicate ClosedBack(done: set<Id>, before: map<Id, seq<Id>>) {
    forall x, u :: x in done && x in before && u in before[x] ==> u in done
  }

  lemma FinishedBefore(done: set<Id>, before: map<Id, seq<Id>>, u: Id, x: Id)
    requires ClosedBack(done, before) && x in done && x in before && u in before[x]
    ensures u in done
  {
  }

  lemma RelaxedKeys(layerOf: map<Id, nat>, before: map<Id, seq<Id>>, done: set<Id>)
    requires Relaxed(layerOf, before, done)
    ensures layerOf.Keys == before.Keys
  {
  }

  lemma DemandedBy(layerOf: map<Id, nat>, before: map<Id, seq<Id>>, done: set<Id>, v: Id) returns (u: Id)
    requires Relaxed(layerOf, before, done) && v in before && v in layerOf && layerOf[v] > 0
    ensures u in before[v] && u in done && u in layerOf && layerOf[u] == layerOf[v] - 1
  {
    hide RelaxedAt;
    assert RelaxedAt(layerOf, before[v], done, layerOf[v]);
    u := DemandedAt(layerOf, before[v], done, layerOf[v]);
  }

  lemma DemandedAt(layerOf: map<Id, nat>, before: seq<Id>, done: set<Id>, layer: nat) returns (u: Id)
    requires RelaxedAt(layerOf, before, done, layer) && layer > 0
    ensures u in before && u in done && u in layerOf && layerOf[u] == layer - 1
  {
    u :| u in before && u in done && u in layerOf && layerOf[u] == layer - 1;
  }

  lemma AbovePredecessor(layerOf: map<Id, nat>, before: map<Id, seq<Id>>, done: set<Id>, u: Id, v: Id)
    requires Relaxed(layerOf, before, done) && v in before && u in before[v] && u in done && u in layerOf && v in layerOf
    ensures layerOf[u] < layerOf[v]
  {
    assert RelaxedAt(layerOf, before[v], done, layerOf[v]);
  }

  lemma {:induction false} ChainReached(layerOf: map<Id, nat>, done: set<Id>, before: map<Id, seq<Id>>, arcs: Arcs, v: Id)
    requires Relaxed(layerOf, before, done) && done <= before.Keys && ArcsAre(arcs, before) && v in done
    ensures HasChain(arcs, v, layerOf[v])
    decreases layerOf[v]
  {
    hide HasChain, ArcsAre, Relaxed;
    RelaxedKeys(layerOf, before, done);
    if layerOf[v] > 0 {
      var u := DemandedBy(layerOf, before, done, v);
      PredecessorOf(arcs, before, u, v);
      ChainReached(layerOf, done, before, arcs, u);
      FirstArc(arcs, u, v, layerOf[u]);
    } else {
      EmptyChain(arcs, v);
    }
  }

  lemma {:induction false} ChainBounded(layerOf: map<Id, nat>, done: set<Id>, before: map<Id, seq<Id>>, arcs: Arcs, v: Id, k: nat)
    requires Relaxed(layerOf, before, done) && done <= before.Keys && ArcsAre(arcs, before) && v in done
    requires ClosedBack(done, before)
    ensures HasChain(arcs, v, k) ==> k <= layerOf[v]
    decreases k
  {
    hide HasChain, ArcsAre, Relaxed, ClosedBack;
    RelaxedKeys(layerOf, before, done);
    if k > 0 && HasChain(arcs, v, k) {
      var u := LastArc(arcs, v, k);
      assert u in before[v] by { PredecessorOf(arcs, before, u, v); }
      FinishedBefore(done, before, u, v);
      AbovePredecessor(layerOf, before, done, u, v);
      ChainBounded(layerOf, done, before, arcs, u, k - 1);
    }
  }

  lemma PredecessorOf(arcs: Arcs, before: map<Id, seq<Id>>, u: Id, v: Id)
    requires ArcsAre(arcs, before)
    ensures (u, v) in arcs <==> v in before && u in before[v]
  {
  }

  // ----- the algorithm

  ghost predicate HasSource(before: map<Id, seq<Id>>) {
    exists v :: v in before && before[v] == []
  }

  /**
   What the layering gives: nodes never visited hold a layer of their own above all visited
   ones; nodes free of cycles are all visited, each at the length of its longest chain; and as
   soon as some node has no predecessor, only those are visited.
   */
  ghost predicate IsFlowLayering(layerOf: map<Id, nat>, visited: set<Id>, arcs: Arcs, main: set<Id>) {
    && layerOf.Keys == main && visited <= main && visited != {}
    && (forall v, w :: v in main && v !in visited && w in visited ==> layerOf[w] < layerOf[v])
    && (forall v, w :: v in main && w in main && v !in visited && w !in visited && v != w ==> layerOf[v] != layerOf[w])
    && (forall v :: v in main && !DependsOnCycle(arcs, v) ==> v in visited && IsLongest(arcs, v, layerOf[v]))
    && (HasSource(Before(arcs, main)) ==> forall v :: v in visited ==> !DependsOnCycle(arcs, v))
  }

  function CountPositive(order: seq<Id>, inDegree: map<Id, int>): nat {
    if order == [] then 0
    else (if order[0] in inDegree && inDegree[order[0]] > 0 then 1 else 0) + CountPositive(order[1..], inDegree)
  }

  /** Freed nodes are those whose counters stop being positive. */
  lemma {:induction false} FewerPositive(order: seq<Id>, inDegree: map<Id, int>, inDegree': map<Id, int>, freed: seq<Id>)
    requires inDegree'.Keys == inDegree.Keys && Distinct(order) && Distinct(freed)
    requires forall v :: v in inDegree ==> inDegree'[v] <= inDegree[v]
    requires forall v :: v in freed <==> v in order && v in inDegree && inDegree'[v] <= 0 < inDegree[v]
    ensures CountPositive(order, inDegree') + |freed| == CountPositive(order, inDegree)
    decreases |order|
  {
    assert freed == [] || freed[0] in freed;
    if order == [] {
    } else {
      var v := order[0];
      assert order == [v] + order[1..];
      if v in freed {
        var i :| 0 <= i < |freed| && freed[i] == v;
        var rest := freed[..i] + freed[i + 1..];
        forall x ensures x in rest <==> x in freed && x != v {
          if x in freed && x != v {
            var j :| 0 <= j < |freed| && freed[j] == x;
            assert if j < i then rest[j] == x else rest[j - 1] == x;
          }
        }
        FewerPositive(order[1..], inDegree, inDegree', rest);
      } else {
        FewerPositive(order[1..], inDegree, inDegree', freed);
      }
    }
  }

  method Filter(order: seq<Id>, keep: set<Id>) returns (kept: seq<Id>)
    requires Distinct(order)
    ensures Distinct(kept) && forall v :: v in kept <==> v in order && v in keep
  {
    kept := [];
    for i := 0 to |order|
      invariant Distinct(kept) && forall v :: v in kept <==> v in order[..i] && v in keep
    {
      assert order[..i + 1] == order[..i] + [order[i]];
      if order[i] in keep { kept := kept + [order[i]]; }
    }
    assert order[..|order|] == order;
  }

  /** Nodes without predecessors; failing those, start events; failing those, whichever node comes first. */
  method Seeds(order: seq<Id>, inDegree: map<Id, int>, starts: set<Id>) returns (seeds: seq<Id>)
    requires order != [] && Distinct(order) && forall v :: v in order <==> v in inDegree
    ensures seeds != [] && Distinct(seeds) && forall v :: v in seeds ==> v in inDegree
    ensures (exists v :: v in inDegree && inDegree[v] == 0) ==> forall v :: v in seeds <==> v in inDegree && inDegree[v] == 0
    ensures (forall v :: v in inDegree ==> inDegree[v] != 0) ==>
      if exists v :: v in order && v in starts then forall v :: v in seeds <==> v in order && v in starts else seeds == [order[0]]
  {
    seeds := Filter(order, set v | v in inDegree && inDegree[v] == 0);
    if seeds == [] {
      seeds := Filter(order, starts);
      if seeds == [] {
        seeds := [order[0]];
      }
    }
    assert seeds[0] in seeds;
  }

  method Counters(order: seq<Id>, incoming: map<Id, seq<Id>>) returns (inDegree: map<Id, int>, layers: map<Id, nat>)
    ensures inDegree.Keys == layers.Keys == set v | v in order
    ensures forall v :: v in inDegree ==> inDegree[v] == |Lookup(incoming, v)| && layers[v] == 0
  {
    inDegree, layers := map[], map[];
    for i := 0 to |order|
      invariant inDegree.Keys == layers.Keys == set v | v in order[..i]
      invariant forall v :: v in inDegree ==> inDegree[v] == |Lookup(incoming, v)| && layers[v] == 0
    {
      assert order[..i + 1] == order[..i] + [order[i]];
      inDegree, layers := inDegree[order[i] := |Lookup(incoming, order[i])|], layers[order[i] := 0];
    }
    assert order[..|order|] == order;
  }

  lemma PushedKeys(layerOf': map<Id, nat>, layerOf: map<Id, nat>, targets: seq<Id>, current: Id)
    requires Pushed(layerOf', layerOf, targets, current)
    ensures layerOf'.Keys == layerOf.Keys
  {
  }

  /** The nodes taken off the queue, in order, are the visited ones; with natural seeds none is taken off twice. */
  ghost predicate IsVisitOrder(visits: seq<Id>, visited: set<Id>, once: bool) {
    && (forall v :: v in visits <==> v in visited)
    && (once ==> Distinct(visits))
  }

  lemma VisitMore(visits: seq<Id>, visited: set<Id>, current: Id, once: bool)
    requires IsVisitOrder(visits, visited, once) && (once ==> current !in visited)
    ensures IsVisitOrder(visits + [current], visited + {current}, once)
  {
  }

  lemma NothingVisited(once: bool)
    ensures IsVisitOrder([], {}, once)
  {
  }

  lemma FrontWaits(layerOf: map<Id, nat>, inDegree: map<Id, int>, queue: seq<Id>, done: set<Id>, before: map<Id, seq<Id>>)
    requires Natural(layerOf, inDegree, queue, done, before) && queue != []
    ensures queue[0] !in done
  {
    assert queue[0] in queue;
  }

  lemma QueuedAfter(seeds: seq<Id>, visits: seq<Id>, queue: seq<Id>, freed: seq<Id>)
    requires seeds <= visits + queue && queue != []
    ensures seeds <= (visits + [queue[0]]) + (queue[1..] + freed)
    ensures queue == [] + queue && visits + [] == visits
  {
    assert (visits + [queue[0]]) + (queue[1..] + freed) == (visits + queue) + freed;
  }

  /**
   Terminates on every graph: each node taken off the queue lowers queue length plus positive
   counters. `visits` records what is taken off: the seeds first, in their order.
   */
  method RunQueue(seeds: seq<Id>, inDegree0: map<Id, int>, layers0: map<Id, nat>, outgoing: map<Id, seq<Id>>,
                  ghost order: seq<Id>, ghost before: map<Id, seq<Id>>)
    returns (layers: map<Id, nat>, visited: set<Id>, ghost inDegree': map<Id, int>, ghost visits: seq<Id>)
    requires Distinct(order) && before.Keys == inDegree0.Keys == layers0.Keys == set v | v in order
    requires Dual(before.Keys, before, outgoing)
    requires seeds != [] && forall v :: v in seeds ==> v in before
    requires HasSource(before) ==> Natural(layers0, inDegree0, seeds, {}, before)
    ensures layers.Keys == before.Keys && visited <= before.Keys && visited != {}
    ensures HasSource(before) ==> Natural(layers, inDegree', [], visited, before)
    ensures IsVisitOrder(visits, visited, HasSource(before)) && seeds <= visits
  {
    hide Dual, Natural, HasSource, Lookup, Pushed, Lowered, IsVisitOrder;
    var queue, inDegree := seeds, inDegree0;
    layers, visited := layers0, {};
    visits := [];
    NothingVisited(HasSource(before));
    while queue != []
      invariant inDegree.Keys == layers.Keys == before.Keys
      invariant forall v :: v in queue ==> v in before
      invariant visited <= before.Keys && (visited != {} || queue != [])
      invariant HasSource(before) ==> Natural(layers, inDegree, queue, visited, before)
      invariant IsVisitOrder(visits, visited, HasSource(before)) && seeds <= visits + queue
      decreases |queue| + CountPositive(order, inDegree)
    {
      hide Distinct, CountPositive;
      var current := queue[0];
      assert current in queue;
      SuccessorsKnown(before, outgoing, current);
      ghost var wasLayers, wasDegree, wasQueue := layers, inDegree, queue;
      var freed;
      layers, inDegree, freed := Visit(current, Lookup(outgoing, current), layers, inDegree);
      LoweredMeans(inDegree, wasDegree, Lookup(outgoing, current), freed);
      assert layers.Keys == wasLayers.Keys by { PushedKeys(layers, wasLayers, Lookup(outgoing, current), current); }
      FewerPositive(order, wasDegree, inDegree, freed);
      if HasSource(before) {
        FrontWaits(wasLayers, wasDegree, wasQueue, visited, before);
        NaturalStep(wasLayers, wasDegree, wasQueue, visited, before, outgoing, layers, inDegree, freed);
      }
      VisitMore(visits, visited, current, HasSource(before));
      QueuedAfter(seeds, visits, queue, freed);
      visits := visits + [current];
      visited := visited + {current};
      queue := queue[1..] + freed;
    }
    inDegree' := inDegree;
  }

  /** Where a run has to begin: the nodes without predecessors, or failing those the start events. */
  ghost function FirstOf(before: map<Id, seq<Id>>, starts: set<Id>): set<Id> {
    if HasSource(before) then set v | v in before && before[v] == [] else set v | v in before && v in starts
  }

  /** The visits begin with these, each once, whichever order they are taken in. */
  ghost predicate BeginsWith(visits: seq<Id>, first: set<Id>) {
    exists k: nat :: k <= |visits| && Distinct(visits[..k]) && forall v :: v in visits[..k] <==> v in first
  }

  ghost predicate StartsRight(visits: seq<Id>, before: map<Id, seq<Id>>, starts: set<Id>) {
    FirstOf(before, starts) != {} ==> BeginsWith(visits, FirstOf(before, starts))
  }

  lemma SeedsFirst(order: seq<Id>, inDegree: map<Id, int>, starts: set<Id>, seeds: seq<Id>, visits: seq<Id>, before: map<Id, seq<Id>>)
    requires Distinct(seeds) && seeds <= visits && inDegree.Keys == before.Keys && forall v :: v in order <==> v in before
    requires forall v :: v in before ==> inDegree[v] == |before[v]|
    requires (exists v :: v in inDegree && inDegree[v] == 0) ==> forall v :: v in seeds <==> v in inDegree && inDegree[v] == 0
    requires (forall v :: v in inDegree ==> inDegree[v] != 0) && (exists v :: v in order && v in starts) ==>
      forall v :: v in seeds <==> v in order && v in starts
    ensures StartsRight(visits, before, starts)
  {
    if FirstOf(before, starts) != {} {
      assert visits[..|seeds|] == seeds;
      if HasSource(before) {
        var s :| s in before && before[s] == [];
        assert inDegree[s] == 0;
      } else {
        assert forall v :: v in inDegree ==> inDegree[v] != 0;
        var s :| s in FirstOf(before, starts);
        assert s in order && s in starts;
      }
      assert forall v :: v in seeds <==> v in FirstOf(before, starts);
    }
  }

  method LayerNodes(order: seq<Id>, outgoing: map<Id, seq<Id>>, incoming: map<Id, seq<Id>>, starts: set<Id>, ghost arcs: Arcs)
    returns (layerOf: map<Id, nat>, visited: set<Id>, ghost visits: seq<Id>)
    requires order != [] && Distinct(order) && Within(arcs, set v | v in order)
    requires forall v :: Lookup(incoming, v) == Incoming(arcs, v)
    requires forall u :: Lookup(outgoing, u) == Outgoing(arcs, u)
    ensures IsFlowLayering(layerOf, visited, arcs, set v | v in order)
    ensures IsVisitOrder(visits, visited, HasSource(Before(arcs, set v | v in order)))
    ensures StartsRight(visits, Before(arcs, set v | v in order), starts)
  {
    hide StartsRight, Pending, HasChain, DependsOnCycle, IsLongest, Dual, ArcsAre, Within, Natural, Incoming, Outgoing, Before, IsVisitOrder, IsFlowLayering, HasSource;
    ghost var main := set v | v in order;
    ghost var before := Before(arcs, main);
    GraphOf(arcs, main, outgoing);
    BeforeIsIncoming(arcs, main);
    var inDegree, layers := Counters(order, incoming);
    var queue := Seeds(order, inDegree, starts);
    NaturalStart(layers, inDegree, queue, before);
    var seen;
    ghost var inDegree';
    layers, seen, inDegree', visits := RunQueue(queue, inDegree, layers, outgoing, order, before);
    SeedsFirst(order, inDegree, starts, queue, visits, before);
    ghost var relaxed := layers;
    layers := LiftUnvisited(order, layers, seen);
    layerOf, visited := layers, seen;
    FlowLayering(relaxed, layerOf, visited, inDegree', arcs, main);
  }

  /** What the queue and the lift leave makes a layering. */
  lemma FlowLayering(relaxed: map<Id, nat>, layerOf: map<Id, nat>, visited: set<Id>, inDegree: map<Id, int>, arcs: Arcs, main: set<Id>)
    requires Within(arcs, main) && ArcsAre(arcs, Before(arcs, main)) && Before(arcs, main).Keys == main
    requires relaxed.Keys == layerOf.Keys == main && visited <= main && visited != {}
    requires HasSource(Before(arcs, main)) ==> Natural(relaxed, inDegree, [], visited, Before(arcs, main))
    requires forall v :: v in layerOf && v in visited ==> layerOf[v] == relaxed[v]
    requires forall v, w :: v in layerOf && v !in visited && w in layerOf && w in visited ==> layerOf[w] < layerOf[v]
    requires forall v, w :: v in layerOf && v !in visited && w in layerOf && w !in visited && v != w ==> layerOf[w] != layerOf[v]
    ensures IsFlowLayering(layerOf, visited, arcs, main)
  {
    hide Pending, HasChain, DependsOnCycle, IsLongest, ArcsAre, Within, Natural, Before, HasSource;
    if HasSource(Before(arcs, main)) {
      NaturalEnd(relaxed, inDegree, visited, Before(arcs, main), arcs);
    } else {
      NoSourceNoneFree(arcs, main);
    }
  }

  lemma NaturalStart(layerOf: map<Id, nat>, inDegree: map<Id, int>, queue: seq<Id>, before: map<Id, seq<Id>>)
    requires layerOf.Keys == inDegree.Keys == before.Keys
    requires forall v :: v in before ==> inDegree[v] == |before[v]| && layerOf[v] == 0
    requires Distinct(queue)
    requires (exists v :: v in inDegree && inDegree[v] == 0) ==> forall v :: v in queue <==> v in inDegree && inDegree[v] == 0
    ensures HasSource(before) ==> Natural(layerOf, inDegree, queue, {}, before)
  {
    CountedAtStart(inDegree, before);
  }

  method MaxOf(order: seq<Id>, layerOf: map<Id, nat>) returns (n: nat)
    requires forall v :: v in order ==> v in layerOf
    ensures forall v :: v in order ==> layerOf[v] <= n
  {
    n := 0;
    for i := 0 to |order|
      invariant forall v :: v in order[..i] ==> layerOf[v] <= n
    {
      assert order[..i + 1] == order[..i] + [order[i]];
      if layerOf[order[i]] > n { n := layerOf[order[i]]; }
    }
    assert order[..|order|] == order;
  }

  /** Each unvisited node goes one above everything there is at that moment. */
  method LiftUnvisited(order: seq<Id>, layerOf: map<Id, nat>, visited: set<Id>) returns (layerOf': map<Id, nat>)
    requires Distinct(order) && forall v :: v in order <==> v in layerOf
    ensures layerOf'.Keys == layerOf.Keys
    ensures forall v :: v in layerOf && v in visited ==> layerOf'[v] == layerOf[v]
    ensures forall v, w :: v in layerOf && v !in visited && w in layerOf && w in visited ==> layerOf'[w] < layerOf'[v]
    ensures forall v, w :: v in layerOf && v !in visited && w in layerOf && w !in visited && v != w ==> layerOf'[w] != layerOf'[v]
  {
    layerOf' := layerOf;
    for i := 0 to |order|
      invariant layerOf'.Keys == layerOf.Keys
      invariant forall v :: v in layerOf && v in visited ==> layerOf'[v] == layerOf[v]
      invariant forall v, w :: v in order[..i] && v !in visited && w in layerOf && w in visited ==> layerOf'[w] < layerOf'[v]
      invariant forall v, w :: v in order[..i] && v !in visited && w in order[..i] && w !in visited && v != w ==> layerOf'[w] != layerOf'[v]
    {
      assert order[..i + 1] == order[..i] + [order[i]];
      var node := order[i];
      assert node !in order[..i];
      if node !in visited {
        var top := MaxOf(order, layerOf');
        layerOf' := layerOf'[node := top + 1];
      }
    }
    assert order[..|order|] == order;
  }

  /** Where every node has a predecessor, every node depends on a cycle. */
  lemma NoSourceNoneFree(arcs: Arcs, main: set<Id>)
    requires Within(arcs, main) && !HasSource(Before(arcs, main))
    ensures forall v :: v in main ==> DependsOnCycle(arcs, v)
  {
    hide HasChain, DependsOnCycle;
    forall x | x in main ensures FedFrom(arcs, main, x) {
      assert Before(arcs, main)[x] != [];
      var u := Before(arcs, main)[x][0];
      assert u in Incoming(arcs, x);
      ListedIsArc(arcs, u, x);
    }
    forall v | v in main ensures DependsOnCycle(arcs, v) {
      TrappedHaveChains(arcs, main, v, |main| + 1);
      UnboundedIffCycle(arcs, v, main);
    }
  }

  /** So a node free of cycles forces one without predecessors. */
  lemma FreeHasSource(arcs: Arcs, main: set<Id>, v: Id)
    requires Within(arcs, main) && v in main && !DependsOnCycle(arcs, v)
    ensures HasSource(Before(arcs, main))
  {
    hide HasSource, DependsOnCycle, Within;
    if !HasSource(Before(arcs, main)) { NoSourceNoneFree(arcs, main); }
  }

  lemma AcyclicIsFree(arcs: Arcs)
    requires Acyclic(arcs)
    ensures forall v :: !DependsOnCycle(arcs, v)
  {
  }

  /** In an acyclic process every node is taken off the queue once, and ends at the length of the longest path reaching it. */
  lemma AcyclicLayers(layerOf: map<Id, nat>, visited: set<Id>, visits: seq<Id>, arcs: Arcs, main: set<Id>)
    requires IsFlowLayering(layerOf, visited, arcs, main) && Within(arcs, main) && Acyclic(arcs)
    requires IsVisitOrder(visits, visited, HasSource(Before(arcs, main)))
    ensures IsOrderOf(visits, main) && forall v :: v in main ==> IsLongest(arcs, v, layerOf[v])
  {
    hide DependsOnCycle, IsLongest, HasSource, Acyclic, Within;
    AcyclicIsFree(arcs);
    var v :| v in visited;
    FreeHasSource(arcs, main, v);
    assert visited == main;
  }

  /** In an acyclic process no iteration order shows in the layers. */
  lemma AcyclicLayersUnique(layerOf: map<Id, nat>, visited: set<Id>, layerOf': map<Id, nat>, visited': set<Id>, arcs: Arcs, main: set<Id>)
    requires IsFlowLayering(layerOf, visited, arcs, main) && IsFlowLayering(layerOf', visited', arcs, main)
    requires Within(arcs, main) && Acyclic(arcs)
    ensures layerOf == layerOf'
  {
    AcyclicIsFree(arcs);
    hide IsLongest, HasSource, DependsOnCycle;
    forall v | v in main ensures layerOf[v] == layerOf'[v] {
      LongestUnique(arcs, v, layerOf[v], layerOf'[v]);
    }
  }
}
