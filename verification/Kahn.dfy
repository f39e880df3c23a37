/**
 What the two layering algorithms share: in-degree counters that go down as
 predecessors are finished, over a graph whose predecessor and successor lists
 hold the same arcs with the same multiplicity.
 */
module Kahn {
  import opened Collections
  import opened Chains

  /** The entries of `s` outside `done`, counted with multiplicity. */
  function Pending(s: seq<Id>, done: set<Id>): nat {
    if s == [] then 0 else (if s[0] in done then 0 else 1) + Pending(s[1..], done)
  }

  lemma {:induction false} PendingDone(s: seq<Id>, done: set<Id>, u: Id)
    requires u !in done
    ensures Pending(s, done + {u}) + multiset(s)[u] == Pending(s, done)
  {
    if s == [] {
    } else {
      PendingDone(s[1..], done, u);
      assert s == [s[0]] + s[1..];
    }
  }

  lemma {:induction false} PendingZero(s: seq<Id>, done: set<Id>)
    ensures Pending(s, done) == 0 <==> forall u :: u in s ==> u in done
  {
    if s == [] {
    } else {
      PendingZero(s[1..], done);
      assert s == [s[0]] + s[1..];
    }
  }

  lemma {:induction false} PendingNone(s: seq<Id>)
    ensures Pending(s, {}) == |s|
  {
    if s == [] {
    } else {
      PendingNone(s[1..]);
    }
  }

  /** Predecessor lists `before` and successor lists `after` describe one graph over `nodes`. */
  ghost predicate Dual(nodes: set<Id>, before: map<Id, seq<Id>>, after: map<Id, seq<Id>>) {
    && before.Keys == nodes
    && (forall u, v :: u in nodes && v in nodes ==> multiset(Lookup(after, u))[v] == multiset(before[v])[u])
    && (forall u, v :: u in nodes && v in Lookup(after, u) ==> v in nodes)
    && (forall u, v :: v in nodes && u in before[v] ==> u in nodes)
  }

  lemma SuccessorsKnown(before: map<Id, seq<Id>>, after: map<Id, seq<Id>>, u: Id)
    requires Dual(before.Keys, before, after) && u in before
    ensures forall v :: v in Lookup(after, u) ==> v in before
  {
  }

  /** `arcs` holds exactly the arcs of the predecessor lists. */
  ghost predicate ArcsAre(arcs: Arcs, before: map<Id, seq<Id>>) {
    forall u, v :: (u, v) in arcs <==> v in before && u in before[v]
  }

  /** Every counter holds the number of predecessor entries not yet in `done`. */
  ghost predicate Counted(inDegree: map<Id, int>, before: map<Id, seq<Id>>, done: set<Id>) {
    && inDegree.Keys == before.Keys
    && forall v :: v in before ==> inDegree[v] == Pending(before[v], done)
  }

  lemma CountsDone(inDegree: map<Id, int>, inDegree': map<Id, int>, before: map<Id, seq<Id>>, after: map<Id, seq<Id>>, done: set<Id>, u: Id)
    requires Dual(before.Keys, before, after) && u in before && u !in done
    requires Counted(inDegree, before, done) && inDegree'.Keys == inDegree.Keys
    requires forall v :: v in inDegree ==> inDegree'[v] == inDegree[v] - multiset(Lookup(after, u))[v]
    ensures Counted(inDegree', before, done + {u})
  {
    forall v | v in before ensures inDegree'[v] == Pending(before[v], done + {u}) {
      PendingDone(before[v], done, u);
    }
  }

  lemma CountedKeys(inDegree: map<Id, int>, before: map<Id, seq<Id>>, done: set<Id>)
    requires Counted(inDegree, before, done)
    ensures inDegree.Keys == before.Keys
  {
  }

  lemma CountedFree(inDegree: map<Id, int>, before: map<Id, seq<Id>>, done: set<Id>, v: Id)
    requires Counted(inDegree, before, done) && v in before
    ensures inDegree[v] >= 0
    ensures inDegree[v] == 0 <==> forall u :: u in before[v] ==> u in done
  {
    PendingZero(before[v], done);
  }

  lemma CountedAtStart(inDegree: map<Id, int>, before: map<Id, seq<Id>>)
    requires inDegree.Keys == before.Keys && forall v :: v in before ==> inDegree[v] == |before[v]|
    ensures Counted(inDegree, before, {})
  {
    forall v | v in before ensures inDegree[v] == Pending(before[v], {}) {
      PendingNone(before[v]);
    }
  }

  lemma ChainOneMore(arcs: Arcs, before: map<Id, seq<Id>>, v: Id, k: nat)
    requires ArcsAre(arcs, before) && v in before
    ensures !HasChain(arcs, v, k + 1) <==> forall u :: u in before[v] ==> !HasChain(arcs, u, k)
  {
    if HasChain(arcs, v, k + 1) {
      var u :| (u, v) in arcs && HasChain(arcs, u, k);
      assert u in before[v];
    }
    forall u | u in before[v] && HasChain(arcs, u, k) ensures HasChain(arcs, v, k + 1) {
      assert (u, v) in arcs;
    }
  }

  /** What is left over once nothing is free any more is what depends on a cycle. */
  lemma LeftoversDependOnCycle(arcs: Arcs, before: map<Id, seq<Id>>, inDegree: map<Id, int>, done: set<Id>)
    requires ArcsAre(arcs, before) && Within(arcs, before.Keys) && Counted(inDegree, before, done)
    requires forall v :: v in before && inDegree[v] == 0 ==> v in done
    ensures forall v :: v in before && v !in done ==> DependsOnCycle(arcs, v)
  {
    var trapped := before.Keys - done;
    forall x | x in trapped ensures FedFrom(arcs, trapped, x) {
      CountedFree(inDegree, before, done, x);
      var u :| u in before[x] && u !in done;
      assert (u, x) in arcs;
    }
    forall v | v in trapped ensures DependsOnCycle(arcs, v) {
      TrappedHaveChains(arcs, trapped, v, |before.Keys| + 1);
      UnboundedIffCycle(arcs, v, before.Keys);
    }
  }

  /** Each entry of `targets` has taken one off; `freed` are the nodes whose counters stopped being positive. */
  ghost predicate Lowered(inDegree': map<Id, int>, inDegree: map<Id, int>, targets: seq<Id>, freed: seq<Id>) {
    && inDegree'.Keys == inDegree.Keys
    && (forall v :: v in inDegree ==> inDegree'[v] == inDegree[v] - multiset(targets)[v])
    && Distinct(freed)
    && forall v :: v in freed <==> v in inDegree && inDegree'[v] <= 0 < inDegree[v]
  }

  lemma LoweredMeans(inDegree': map<Id, int>, inDegree: map<Id, int>, targets: seq<Id>, freed: seq<Id>)
    requires Lowered(inDegree', inDegree, targets, freed)
    ensures inDegree'.Keys == inDegree.Keys
    ensures forall v :: v in inDegree ==> inDegree'[v] == inDegree[v] - multiset(targets)[v]
    ensures Distinct(freed) && forall v :: v in freed <==> v in inDegree && inDegree'[v] <= 0 < inDegree[v]
  {
  }

  lemma NothingLowered(inDegree: map<Id, int>)
    ensures Lowered(inDegree, inDegree, [], [])
  {
  }

  lemma LoweredOne(inDegree': map<Id, int>, inDegree: map<Id, int>, targets: seq<Id>, freed: seq<Id>, t: Id)
    requires Lowered(inDegree', inDegree, targets, freed) && t in inDegree
    ensures t in inDegree'
    ensures Lowered(inDegree'[t := inDegree'[t] - 1], inDegree, targets + [t], if inDegree'[t] == 1 then freed + [t] else freed)
  {
  }

  /**
   One finished node: every successor entry takes one off its counter, and a node whose
   counter reaches zero is freed.
   */
  method Release(successors: seq<Id>, inDegree: map<Id, int>) returns (inDegree': map<Id, int>, freed: seq<Id>)
    requires forall v :: v in successors ==> v in inDegree
    ensures Lowered(inDegree', inDegree, successors, freed)
  {
    hide *;
    inDegree', freed := inDegree, [];
    NothingLowered(inDegree);
    for j := 0 to |successors|
      invariant Lowered(inDegree', inDegree, successors[..j], freed)
    {
      var dep := successors[j];
      assert successors[..j + 1] == successors[..j] + [dep];
      LoweredOne(inDegree', inDegree, successors[..j], freed, dep);
      inDegree' := inDegree'[dep := inDegree'[dep] - 1];
      if inDegree'[dep] == 0 {
        freed := freed + [dep];
      }
    }
    assert successors[..|successors|] == successors;
  }
}
