/**
 Dependency chains in a finite directed graph, the yardstick both layering
 algorithms are measured against.

 A graph is a sequence of arcs `(from, to)`; repeated arcs are allowed and mean
 nothing more than one. A chain is a sequence of nodes each joined to the next
 by an arc, and its length is its number of arcs.
 */
module Chains {
  /** The identity of an element: a string compared as a whole. */
  datatype Id = Id(name: string)

  type Arcs = seq<(Id, Id)>

  ghost predicate IsChain(arcs: Arcs, p: seq<Id>) {
    && p != []
    && forall i :: 0 <= i < |p| - 1 ==> (p[i], p[i + 1]) in arcs
  }

  ghost predicate ChainInto(arcs: Arcs, p: seq<Id>, v: Id) {
    IsChain(arcs, p) && p[|p| - 1] == v
  }

  /** Some chain of exactly `k` arcs ends in `v`. */
  ghost predicate HasChain(arcs: Arcs, v: Id, k: nat)
    decreases k
  {
    k == 0 || exists u :: (u, v) in arcs && HasChain(arcs, u, k - 1)
  }

  /** `n` is the length of a longest chain into `v`. */
  ghost predicate IsLongest(arcs: Arcs, v: Id, n: nat) {
    && (exists p :: ChainInto(arcs, p, v) && |p| == n + 1)
    && (forall p :: ChainInto(arcs, p, v) ==> |p| <= n + 1)
  }

  ghost predicate OnCycle(arcs: Arcs, u: Id) {
    exists p :: ChainInto(arcs, p, u) && |p| >= 2 && p[0] == u
  }

  /** A chain leads from a node on a cycle to `v` (which may be on it itself). */
  ghost predicate DependsOnCycle(arcs: Arcs, v: Id) {
    exists p :: ChainInto(arcs, p, v) && OnCycle(arcs, p[0])
  }

  ghost predicate Acyclic(arcs: Arcs) {
    forall v :: !OnCycle(arcs, v)
  }

  ghost predicate Within(arcs: Arcs, nodes: set<Id>) {
    forall u, v :: (u, v) in arcs ==> u in nodes && v in nodes
  }

  lemma {:induction false} HasChainIffChain(arcs: Arcs, v: Id, k: nat)
    ensures HasChain(arcs, v, k) <==> exists p :: ChainInto(arcs, p, v) && |p| == k + 1
    decreases k
  {
    if k == 0 {
      assert ChainInto(arcs, [v], v);
    } else {
      if HasChain(arcs, v, k) {
        var u :| (u, v) in arcs && HasChain(arcs, u, k - 1);
        HasChainIffChain(arcs, u, k - 1);
        var p :| ChainInto(arcs, p, u) && |p| == k;
        assert ChainInto(arcs, p + [v], v);
      }
      if exists p :: ChainInto(arcs, p, v) && |p| == k + 1 {
        var p :| ChainInto(arcs, p, v) && |p| == k + 1;
        assert (p[k - 1], p[k]) in arcs;
        assert ChainInto(arcs, p[..k], p[k - 1]);
        HasChainIffChain(arcs, p[k - 1], k - 1);
      }
    }
  }

  lemma FirstArc(arcs: Arcs, u: Id, v: Id, k: nat)
    requires (u, v) in arcs && HasChain(arcs, u, k)
    ensures HasChain(arcs, v, k + 1)
  {
  }

  lemma EmptyChain(arcs: Arcs, v: Id)
    ensures HasChain(arcs, v, 0)
  {
  }

  /** The last step of a chain. */
  lemma LastArc(arcs: Arcs, v: Id, k: nat) returns (u: Id)
    requires HasChain(arcs, v, k) && k > 0
    ensures (u, v) in arcs && HasChain(arcs, u, k - 1)
  {
    u :| (u, v) in arcs && HasChain(arcs, u, k - 1);
  }

  lemma {:induction false} HasChainDown(arcs: Arcs, v: Id, j: nat, k: nat)
    requires HasChain(arcs, v, k) && j <= k
    ensures HasChain(arcs, v, j)
    decreases k
  {
    if j == 0 {
    } else {
      var u :| (u, v) in arcs && HasChain(arcs, u, k - 1);
      HasChainDown(arcs, u, j - 1, k - 1);
    }
  }

  /** Following a chain from its first node adds its length. */
  lemma {:induction false} HasChainAlong(arcs: Arcs, p: seq<Id>, k: nat, i: nat)
    requires IsChain(arcs, p) && i < |p|
    requires HasChain(arcs, p[0], k)
    ensures HasChain(arcs, p[i], k + i)
    decreases i
  {
    if i == 0 {
    } else {
      HasChainAlong(arcs, p, k, i - 1);
      assert (p[i - 1], p[i - 1 + 1]) in arcs;
    }
  }

  lemma {:induction false} CycleHasAllChains(arcs: Arcs, u: Id, k: nat)
    requires OnCycle(arcs, u)
    ensures HasChain(arcs, u, k)
    decreases k
  {
    if k == 0 {
    } else {
      CycleHasAllChains(arcs, u, k - 1);
      var p :| ChainInto(arcs, p, u) && |p| >= 2 && p[0] == u;
      HasChainAlong(arcs, p, k - 1, |p| - 1);
      HasChainDown(arcs, u, k, k - 1 + |p| - 1);
    }
  }

  lemma {:induction false} DistinctIsSmall(p: seq<Id>, nodes: set<Id>)
    requires forall i :: 0 <= i < |p| ==> p[i] in nodes
    requires forall i, j :: 0 <= i < j < |p| ==> p[i] != p[j]
    ensures |p| <= |nodes|
    decreases |p|
  {
    if p == [] {
    } else {
      var n := |p| - 1;
      DistinctIsSmall(p[..n], nodes - {p[n]});
    }
  }

  lemma {:induction false} LongChainRepeats(arcs: Arcs, p: seq<Id>, nodes: set<Id>)
    requires Within(arcs, nodes)
    requires IsChain(arcs, p) && |p| > |nodes| + 1
    ensures exists i, j :: 0 <= i < j < |p| && p[i] == p[j]
  {
    if forall i, j :: 0 <= i < j < |p| ==> p[i] != p[j] {
      var q := p[1..];
      forall i | 0 <= i < |q| ensures q[i] in nodes {
        assert (p[i], p[i + 1]) in arcs;
      }
      DistinctIsSmall(q, nodes);
    }
  }

  lemma BelowCycle(arcs: Arcs, v: Id, k: nat)
    requires DependsOnCycle(arcs, v)
    ensures HasChain(arcs, v, k)
  {
    hide HasChain, OnCycle;
    var p :| ChainInto(arcs, p, v) && OnCycle(arcs, p[0]);
    CycleHasAllChains(arcs, p[0], k);
    HasChainAlong(arcs, p, k, |p| - 1);
    HasChainDown(arcs, v, k, k + |p| - 1);
  }

  lemma RepeatMeansCycle(arcs: Arcs, p: seq<Id>, i: nat, j: nat)
    requires IsChain(arcs, p) && i < j < |p| && p[i] == p[j]
    ensures DependsOnCycle(arcs, p[|p| - 1])
  {
    var cycle, rest := p[i..j + 1], p[i..];
    assert ChainInto(arcs, cycle, p[i]) && |cycle| >= 2 && cycle[0] == p[i];
    assert OnCycle(arcs, p[i]);
    assert ChainInto(arcs, rest, p[|p| - 1]) && rest[0] == p[i];
  }

  lemma LongChainMeansCycle(arcs: Arcs, v: Id, nodes: set<Id>)
    requires Within(arcs, nodes) && HasChain(arcs, v, |nodes| + 1)
    ensures DependsOnCycle(arcs, v)
  {
    HasChainIffChain(arcs, v, |nodes| + 1);
    hide HasChain, DependsOnCycle, Within, IsChain;
    var p :| ChainInto(arcs, p, v) && |p| == |nodes| + 2;
    LongChainRepeats(arcs, p, nodes);
    var i, j :| 0 <= i < j < |p| && p[i] == p[j];
    RepeatMeansCycle(arcs, p, i, j);
  }

  /** Chains into a node have no bound on their length exactly when the node depends on a cycle. */
  lemma UnboundedIffCycle(arcs: Arcs, v: Id, nodes: set<Id>)
    requires Within(arcs, nodes)
    ensures DependsOnCycle(arcs, v) <==> HasChain(arcs, v, |nodes| + 1)
    ensures DependsOnCycle(arcs, v) <==> forall k: nat :: HasChain(arcs, v, k)
  {
    hide HasChain, DependsOnCycle, Within;
    if DependsOnCycle(arcs, v) {
      forall k: nat ensures HasChain(arcs, v, k) { BelowCycle(arcs, v, k); }
    }
    if HasChain(arcs, v, |nodes| + 1) { LongChainMeansCycle(arcs, v, nodes); }
  }

  lemma {:induction false} LongestIffHasChain(arcs: Arcs, v: Id, n: nat)
    ensures IsLongest(arcs, v, n) <==> HasChain(arcs, v, n) && !HasChain(arcs, v, n + 1)
  {
    HasChainIffChain(arcs, v, n);
    HasChainIffChain(arcs, v, n + 1);
    if !HasChain(arcs, v, n + 1) {
      forall p | ChainInto(arcs, p, v) ensures |p| <= n + 1 {
        if |p| > n + 1 {
          HasChainIffChain(arcs, v, |p| - 1);
          HasChainDown(arcs, v, n + 1, |p| - 1);
        }
      }
    }
  }

  /** Where chains are bounded there is a longest one. */
  lemma {:induction false} LongestExists(arcs: Arcs, v: Id, k: nat) returns (n: nat)
    requires !HasChain(arcs, v, k)
    ensures n < k && IsLongest(arcs, v, n)
    decreases k
  {
    if HasChain(arcs, v, k - 1) {
      n := k - 1;
      LongestIffHasChain(arcs, v, n);
    } else {
      n := LongestExists(arcs, v, k - 1);
    }
  }

  /** Some predecessor of `x` is in `nodes`. */
  ghost predicate FedFrom(arcs: Arcs, nodes: set<Id>, x: Id) {
    exists u :: (u, x) in arcs && u in nodes
  }

  /** Nodes that each have a predecessor among themselves have chains of every length. */
  lemma {:induction false} TrappedHaveChains(arcs: Arcs, trapped: set<Id>, v: Id, k: nat)
    requires v in trapped
    requires forall x {:trigger FedFrom(arcs, trapped, x)} :: x in trapped ==> FedFrom(arcs, trapped, x)
    ensures HasChain(arcs, v, k)
    decreases k
  {
    if k == 0 {
    } else {
      assert FedFrom(arcs, trapped, v);
      var u :| (u, v) in arcs && u in trapped;
      TrappedHaveChains(arcs, trapped, u, k - 1);
    }
  }

  lemma LongestUnique(arcs: Arcs, v: Id, m: nat, n: nat)
    requires IsLongest(arcs, v, m) && IsLongest(arcs, v, n)
    ensures m == n
  {
    var p :| ChainInto(arcs, p, v) && |p| == m + 1;
    var q :| ChainInto(arcs, q, v) && |q| == n + 1;
  }

  lemma ArcKeepsCycle(arcs: Arcs, u: Id, v: Id)
    requires (u, v) in arcs && DependsOnCycle(arcs, u)
    ensures DependsOnCycle(arcs, v)
  {
    hide OnCycle;
    var p :| ChainInto(arcs, p, u) && OnCycle(arcs, p[0]);
    assert ChainInto(arcs, p + [v], v);
  }

  lemma ArcLengthensChain(arcs: Arcs, u: Id, v: Id, m: nat, n: nat)
    requires (u, v) in arcs && IsLongest(arcs, u, m) && IsLongest(arcs, v, n)
    ensures m < n
  {
    var p :| ChainInto(arcs, p, u) && |p| == m + 1;
    assert ChainInto(arcs, p + [v], v);
  }

  lemma {:induction false} SameArcsSameChains(arcs: Arcs, arcs': Arcs, v: Id, k: nat)
    requires forall e :: e in arcs <==> e in arcs'
    ensures HasChain(arcs, v, k) <==> HasChain(arcs', v, k)
    decreases k
  {
    if k == 0 {
    } else {
      forall u | (u, v) in arcs
        ensures HasChain(arcs, u, k - 1) <==> HasChain(arcs', u, k - 1)
      {
        SameArcsSameChains(arcs, arcs', u, k - 1);
      }
    }
  }

  /** A node has a longest chain exactly when it does not depend on a cycle. */
  lemma LongestIffFree(arcs: Arcs, v: Id, nodes: set<Id>)
    requires Within(arcs, nodes)
    ensures (exists n :: IsLongest(arcs, v, n)) <==> !DependsOnCycle(arcs, v)
  {
    hide HasChain, DependsOnCycle, Within, IsLongest;
    UnboundedIffCycle(arcs, v, nodes);
    if n: nat :| IsLongest(arcs, v, n) { LongestIffHasChain(arcs, v, n); }
    if !HasChain(arcs, v, |nodes| + 1) { var n := LongestExists(arcs, v, |nodes| + 1); }
  }

  lemma CycleDependsOnItself(arcs: Arcs, u: Id)
    requires OnCycle(arcs, u)
    ensures DependsOnCycle(arcs, u)
  {
  }

  /** Without arcs nothing is on a cycle and no chain has a length. */
  lemma NoArcs(arcs: Arcs, v: Id)
    requires forall u, w :: (u, w) !in arcs
    ensures Acyclic(arcs) && !DependsOnCycle(arcs, v)
    ensures forall n: nat :: IsLongest(arcs, v, n) ==> n == 0
  {
    hide DependsOnCycle, IsLongest, OnCycle;
    forall u ensures !DependsOnCycle(arcs, u) && !OnCycle(arcs, u) {
      UnboundedIffCycle(arcs, u, {});
      assert !HasChain(arcs, u, 1);
      if OnCycle(arcs, u) { CycleDependsOnItself(arcs, u); }
    }
    forall n: nat | IsLongest(arcs, v, n) ensures n == 0 {
      LongestIffHasChain(arcs, v, n);
    }
  }
}
