/**
 The counter for made-up association ids (`autoIdCounter` in
 packages/js/sdk/src/bpmn/parser.ts) outlives a parse. Its starting value shows in
 the model only as one offset in the ids it made, and no id is made twice.
 */
module BpmnAutoIds {
  import opened Collections
  import opened Xml
  import opened BpmnModel
  import opened BpmnHoist
  import opened BpmnParser

  // ----- the offset

  function ShiftId(id: AssociationId, d: nat): AssociationId {
    match id case Auto(prefix, n) => Auto(prefix, n + d) case Given(_) => id
  }

  function ShiftEach(list: seq<DataAssociation>, d: nat): seq<DataAssociation> {
    seq(|list|, i requires 0 <= i < |list| => list[i].(id := ShiftId(list[i].id, d)))
  }

  function ShiftNode(node: FlowNode, d: nat): FlowNode
    decreases node, 1
  {
    node.(dataInputAssociations := ShiftEach(node.dataInputAssociations, d),
          dataOutputAssociations := ShiftEach(node.dataOutputAssociations, d),
          typeData := ShiftContent(node.typeData, d))
  }

  function ShiftContent(data: TypeData, d: nat): TypeData
    decreases data, 1
  {
    if data.SubProcessData?
    then SubProcessData(data.triggeredByEvent, data.isTransaction, data.isAdHoc, ShiftAll(data.flowNodes, d), data.sequenceFlows)
    else data
  }

  function ShiftAll(nodes: seq<FlowNode>, d: nat): seq<FlowNode>
    decreases nodes, 0
  {
    if nodes == [] then [] else ShiftAll(nodes[..|nodes| - 1], d) + [ShiftNode(nodes[|nodes| - 1], d)]
  }

  /** The model with every made-up id moved up by `d`. */
  function ShiftProcess(process: Process, d: nat): Process {
    process.(flowNodes := ShiftAll(process.flowNodes, d))
  }

  lemma ShiftAllLast(nodes: seq<FlowNode>, node: FlowNode, d: nat)
    ensures ShiftAll(nodes + [node], d) == ShiftAll(nodes, d) + [ShiftNode(node, d)]
    ensures ShiftAll([], d) == []
  {
    assert (nodes + [node])[..|nodes + [node]| - 1] == nodes;
  }

  lemma {:induction false} ShiftAllAt(nodes: seq<FlowNode>, d: nat)
    ensures |ShiftAll(nodes, d)| == |nodes|
    ensures forall i :: 0 <= i < |nodes| ==> ShiftAll(nodes, d)[i] == ShiftNode(nodes[i], d)
  {
    hide ShiftNode;
    if nodes == [] {
    } else {
      ShiftAllAt(nodes[..|nodes| - 1], d);
    }
  }

  // the offset passes through each stage of the parser

  lemma {:induction false} ReverseShift(list: seq<DataAssociation>, d: nat)
    ensures Reverse(ShiftEach(list, d)) == ShiftEach(Reverse(list), d)
  {
    if list == [] {
    } else {
      var n := |list| - 1;
      assert ShiftEach(list, d)[..n] == ShiftEach(list[..n], d);
      ReverseShift(list[..n], d);
    }
  }

  lemma {:induction false} AssociationsShift(kids: seq<Node>, prefix: Prefix, count: nat, d: nat)
    ensures DataAssociations(kids, prefix, count + d) == ShiftEach(DataAssociations(kids, prefix, count), d)
  {
    hide DataAssociations, DataAssociationOf, AssociationCount, PrefixOf;
    AssociationsLast([], Text(""), count);
    AssociationsLast([], Text(""), count + d);
    if kids == [] {
    } else {
      var rest, kid := kids[..|kids| - 1], kids[|kids| - 1];
      assert kids == rest + [kid];
      AssociationsShift(rest, prefix, count, d);
      AssociationsLast(rest, kid, count);
      AssociationsLast(rest, kid, count + d);
      AssociationShift(kid, prefix, count + AssociationCount(rest) + 1, d);
    }
  }

  lemma AssociationShift(node: Node, prefix: Prefix, count: nat, d: nat)
    ensures DataAssociationOf(node, prefix, count + d) == DataAssociationOf(node, prefix, count).(id := ShiftId(DataAssociationOf(node, prefix, count).id, d))
  {
    hide ChildText;
  }

  lemma WithDefaultShift(node: FlowNode, defaults: map<string, string>, d: nat)
    ensures WithDefault(ShiftNode(node, d), defaults) == ShiftNode(WithDefault(node, defaults), d)
    ensures ShiftNode(node, d).head == node.head
  {
    hide ShiftEach, ShiftAll;
  }

  lemma KeepsAttachment(node: FlowNode, host: string, d: nat)
    ensures IsAttached(ShiftNode(node, d), host) == IsAttached(node, host) && ShiftNode(node, d).head == node.head
  {
    hide ShiftEach, ShiftAll;
  }

  lemma {:induction false} AttachedShift(nodes: seq<FlowNode>, host: string, d: nat)
    ensures AttachedTo(ShiftAll(nodes, d), host) == AttachedTo(nodes, host)
  {
    hide ShiftAll, AttachedTo;
    ShiftAllAt([], d);
    if nodes == [] {
    } else {
      var rest, last := nodes[..|nodes| - 1], nodes[|nodes| - 1];
      assert nodes == rest + [last];
      AttachedShift(rest, host, d);
      ShiftAllLast(rest, last, d);
      Parser.AttachedLast(rest, last);
      Parser.AttachedLast(ShiftAll(rest, d), ShiftNode(last, d));
      KeepsAttachment(last, host, d);
    }
  }

  lemma WithRefsShift(node: FlowNode, nodes: seq<FlowNode>, d: nat)
    ensures WithRefs(ShiftNode(node, d), ShiftAll(nodes, d)) == ShiftNode(WithRefs(node, nodes), d)
  {
    hide ShiftAll, ShiftEach, AttachedTo;
    AttachedShift(nodes, node.head.id, d);
  }

  lemma LinkedShift(nodes: seq<FlowNode>, defaults: map<string, string>, d: nat)
    ensures Linked(ShiftAll(nodes, d), defaults) == ShiftAll(Linked(nodes, defaults), d)
  {
    hide ShiftAll, ShiftNode, WithDefault, WithRefs;
    var mid := EachWithDefault(nodes, defaults);
    ShiftAllAt(nodes, d);
    ShiftAllAt(mid, d);
    ShiftAllAt(EachWithRefs(mid), d);
    forall i | 0 <= i < |nodes| ensures EachWithDefault(ShiftAll(nodes, d), defaults)[i] == ShiftAll(mid, d)[i] {
      WithDefaultShift(nodes[i], defaults, d);
    }
    assert EachWithDefault(ShiftAll(nodes, d), defaults) == ShiftAll(mid, d);
    forall i | 0 <= i < |mid| ensures EachWithRefs(ShiftAll(mid, d))[i] == ShiftAll(EachWithRefs(mid), d)[i] {
      WithRefsShift(mid[i], mid, d);
    }
  }

  lemma {:induction false} CompensateShift(nodes: seq<FlowNode>, handlers: map<string, string>, d: nat)
    ensures CompensateAll(ShiftAll(nodes, d), handlers) == ShiftAll(CompensateAll(nodes, handlers), d)
    decreases nodes, 1
  {
    hide ShiftNode, Compensate;
    if nodes == [] {
    } else {
      var rest, last := nodes[..|nodes| - 1], nodes[|nodes| - 1];
      assert nodes == rest + [last];
      CompensateShift(rest, handlers, d);
      CompensateNodeShift(last, handlers, d);
      ShiftAllLast(rest, last, d);
      ShiftAllLast(CompensateAll(rest, handlers), Compensate(last, handlers), d);
      Parser.CompensateLast(ShiftAll(rest, d), [ShiftNode(last, d)], handlers);
    }
  }

  lemma {:induction false} CompensateNodeShift(node: FlowNode, handlers: map<string, string>, d: nat)
    ensures Compensate(ShiftNode(node, d), handlers) == ShiftNode(Compensate(node, handlers), d)
    decreases node, 0
  {
    hide ShiftEach, ShiftAll, CompensateAll;
    if node.typeData.SubProcessData? { CompensateShift(node.typeData.flowNodes, handlers, d); }
  }

  lemma {:induction false} ScopeShift(kids: seq<Node>, count: nat, d: nat)
    ensures ScopeNodes(kids, count + d) == ShiftAll(ScopeNodes(kids, count), d)
    decreases kids, 0
  {
    hide FlowNodeOf, NodeCount, ShiftNode, ShiftAll, ScopeNodes, ScopeCount;
    NothingInScope(count);
    NothingInScope(count + d);
    if kids == [] {
      ShiftAllAt([], d);
    } else {
      var rest, kid := kids[..|kids| - 1], kids[|kids| - 1];
      assert kids == rest + [kid];
      ScopeShift(rest, count, d);
      ScopeNodesLast(rest, kid, count);
      ScopeNodesLast(rest, kid, count + d);
      if IsFlowElement(kid) {
        var at := count + ScopeCount(rest);
        NodeShift(kid, KindOf(kid.tag).value, at, d);
        ShiftAllLast(ScopeNodes(rest, count), FlowNodeOf(kid, KindOf(kid.tag).value, at), d);
      } else {
        assert ScopeNodes(kids, count) == ScopeNodes(rest, count) && ScopeNodes(kids, count + d) == ScopeNodes(rest, count + d);
      }
    }
  }

  lemma {:induction false} NodeShift(node: Node, kind: FlowNodeKind, count: nat, d: nat)
    requires node.Elem?
    ensures FlowNodeOf(node, kind, count + d) == ShiftNode(FlowNodeOf(node, kind, count), d)
    decreases node, 2
  {
    hide HeadOf, DataAssociations, AssociationCount, TypeDataOf, ShiftEach, Reverse, ShiftContent;
    AssociationsShift(node.kids, Dia, count, d);
    AssociationsShift(node.kids, Doa, count, d);
    ReverseShift(DataAssociations(node.kids, Dia, count), d);
    ReverseShift(DataAssociations(node.kids, Doa, count), d);
    ContentShift(node, kind, count + AssociationCount(node.kids), d);
  }

  lemma {:induction false} ContentShift(node: Node, kind: FlowNodeKind, count: nat, d: nat)
    requires node.Elem?
    ensures TypeDataOf(node, kind, count + d) == ShiftContent(TypeDataOf(node, kind, count), d)
    decreases node, 1
  {
    hide ScopeNodes, DefaultsOf, Linked, EachMarked, FlowsOf, GetAttr, ShiftAll;
    if kind == SubProcess {
      ScopeShift(node.kids, count, d);
      LinkedShift(ScopeNodes(node.kids, count), DefaultsOf(node.kids), d);
    }
  }

  /** Two parses of one tree from different counter values differ by the offset alone. */
  lemma StartShowsOnlyInIds(process: Node, count: nat, d: nat)
    ensures ProcessOf(process, count + d) == ShiftProcess(ProcessOf(process, count), d)
  {
    hide ScopeNodes, CompensateAll, Linked, EachMarked, FlowsOf, DefaultsOf, LanesIn, AssociationsIn, HandlersOf, ShiftAll, GetAttr, AttrOrEmpty;
    var kids := Children(process);
    var nodes := ScopeNodes(kids, count);
    var handlers, defaults := HandlersOf(AssociationsIn(kids)), DefaultsOf(kids);
    ScopeShift(kids, count, d);
    CompensateShift(nodes, handlers, d);
    LinkedShift(CompensateAll(nodes, handlers), defaults, d);
  }

  // ----- no id twice

  /** The numbers of the made-up ids. */
  function NumbersIn(list: seq<DataAssociation>): seq<nat> {
    if list == [] then []
    else NumbersIn(list[..|list| - 1]) + match list[|list| - 1].id case Auto(_, n) => [n] case Given(_) => []
  }

  function NumbersOf(node: FlowNode): seq<nat>
    decreases node, 1
  {
    NumbersIn(node.dataInputAssociations) + NumbersIn(node.dataOutputAssociations) +
    if node.typeData.SubProcessData? then NumbersOfAll(node.typeData.flowNodes) else []
  }

  function NumbersOfAll(nodes: seq<FlowNode>): seq<nat>
    decreases nodes, 0
  {
    if nodes == [] then [] else NumbersOfAll(nodes[..|nodes| - 1]) + NumbersOf(nodes[|nodes| - 1])
  }

  /** Distinct numbers above `low`, up to `high`. */
  ghost predicate Fresh(numbers: seq<nat>, low: nat, high: nat) {
    Distinct(numbers) && forall n :: n in numbers ==> low < n <= high
  }

  lemma FreshConcat(a: seq<nat>, b: seq<nat>, low: nat, mid: nat, high: nat)
    requires low <= mid <= high && Fresh(a, low, mid) && Fresh(b, mid, high)
    ensures Fresh(a + b, low, high)
  {
    DistinctConcat(a, b);
  }

  lemma NumbersInLast(list: seq<DataAssociation>, a: DataAssociation)
    ensures NumbersIn(list + [a]) == NumbersIn(list) + match a.id case Auto(_, n) => [n] case Given(_) => []
    ensures NumbersIn([]) == []
  {
    assert (list + [a])[..|list + [a]| - 1] == list;
  }

  lemma {:induction false} NumbersInConcat(a: seq<DataAssociation>, b: seq<DataAssociation>)
    ensures NumbersIn(a + b) == NumbersIn(a) + NumbersIn(b)
  {
    hide NumbersIn;
    NumbersInLast([], DataAssociation(Given(""), None, None, None));
    if b == [] {
      assert a + b == a;
    } else {
      var rest, last := b[..|b| - 1], b[|b| - 1];
      assert b == rest + [last] && a + b == (a + rest) + [last];
      NumbersInConcat(a, rest);
      NumbersInLast(rest, last);
      NumbersInLast(a + rest, last);
    }
  }

  lemma {:induction false} ReverseNumbers(list: seq<DataAssociation>)
    ensures multiset(NumbersIn(Reverse(list))) == multiset(NumbersIn(list))
  {
    if list == [] {
    } else {
      var rest, last := list[..|list| - 1], list[|list| - 1];
      assert list == rest + [last];
      ReverseNumbers(rest);
      NumbersInConcat([last], Reverse(rest));
      NumbersInLast([], last);
      NumbersInLast(rest, last);
      assert [] + [last] == [last];
    }
  }

  lemma {:induction false} AssociationsFresh(kids: seq<Node>, count: nat)
    ensures Fresh(NumbersIn(DataAssociations(kids, Dia, count)) + NumbersIn(DataAssociations(kids, Doa, count)), count, count + AssociationCount(kids))
  {
    hide *;
    AssociationsLast([], Text(""), count);
    if kids != [] {
      var rest, kid := kids[..|kids| - 1], kids[|kids| - 1];
      assert kids == rest + [kid];
      AssociationsFresh(rest, count);
      AssociationsLast(rest, kid, count);
      OneMoreFresh(DataAssociations(rest, Dia, count), DataAssociations(rest, Doa, count), kid, count, count + AssociationCount(rest));
      assert PrefixOf(kid) == None || PrefixOf(kid) == Some(Dia) || PrefixOf(kid) == Some(Doa) by { OnePrefix(kid); }
    } else {
      NothingFresh(count);
    }
  }

  lemma OnePrefix(kid: Node)
    ensures PrefixOf(kid) in {None, Some(Dia), Some(Doa)}
  {
  }

  lemma NothingFresh(low: nat)
    ensures Fresh(NumbersIn([]) + NumbersIn([]), low, low)
  {
  }

  lemma OneMoreFresh(ins: seq<DataAssociation>, outs: seq<DataAssociation>, kid: Node, low: nat, high: nat)
    requires low <= high && Fresh(NumbersIn(ins) + NumbersIn(outs), low, high)
    ensures PrefixOf(kid) == Some(Dia) ==> Fresh(NumbersIn(ins + [DataAssociationOf(kid, Dia, high + 1)]) + NumbersIn(outs + []), low, high + 1)
    ensures PrefixOf(kid) == Some(Doa) ==> Fresh(NumbersIn(ins + []) + NumbersIn(outs + [DataAssociationOf(kid, Doa, high + 1)]), low, high + 1)
    ensures Fresh(NumbersIn(ins + []) + NumbersIn(outs + []), low, high)
  {
    hide NumbersIn, Fresh, ChildText, PrefixOf;
    NumbersInLast(ins, DataAssociationOf(kid, Dia, high + 1));
    NumbersInLast(outs, DataAssociationOf(kid, Doa, high + 1));
    AddFresh(NumbersIn(ins), NumbersIn(outs), high + 1, low);
    assert ins + [] == ins && outs + [] == outs;
  }

  lemma AddFresh(a: seq<nat>, b: seq<nat>, next: nat, low: nat)
    requires next > low && Fresh(a + b, low, next - 1)
    ensures Fresh(a + b, low, next) && Fresh((a + [next]) + b, low, next) && Fresh(a + (b + [next]), low, next)
    ensures a + [] == a && b + [] == b
  {
    assert a + (b + [next]) == (a + b) + [next];
    DistinctConcat(a + b, [next]);
    FreshReorders((a + b) + [next], (a + [next]) + b, low, next);
  }

  lemma FreshReorders(s: seq<nat>, t: seq<nat>, low: nat, high: nat)
    requires Fresh(s, low, high) && multiset(s) == multiset(t)
    ensures Fresh(t, low, high)
  {
    DistinctIffOnce(s);
    DistinctIffOnce(t);
    forall n | n in t ensures n in s {
      assert n in multiset(t);
    }
  }

  lemma {:induction false} NodeNumbersFresh(node: Node, kind: FlowNodeKind, count: nat)
    requires node.Elem? && KindOf(node.tag) == Some(kind)
    ensures Fresh(NumbersOf(FlowNodeOf(node, kind, count)), count, count + NodeCount(node))
    decreases node, 1
  {
    hide HeadOf, DataAssociations, AssociationCount, Reverse, NumbersIn, ScopeNodes, ScopeCount, Linked, EachMarked, TypeDataOf, NumbersOfAll, Distinct;
    var ins, outs := DataAssociations(node.kids, Dia, count), DataAssociations(node.kids, Doa, count);
    var mid := count + AssociationCount(node.kids);
    AssociationsFresh(node.kids, count);
    ReverseNumbers(ins);
    ReverseNumbers(outs);
    FreshReorders(NumbersIn(ins) + NumbersIn(outs), NumbersIn(Reverse(ins)) + NumbersIn(Reverse(outs)), count, mid);
    Parser.FlowNodeMeans(node, kind, count);
    if kind == SubProcess {
      ScopeNumbersFresh(node.kids, mid);
      ContentKeepsNumbers(node, mid);
      FreshConcat(NumbersIn(Reverse(ins)) + NumbersIn(Reverse(outs)), NumbersOfAll(ScopeNodes(node.kids, mid)), count, mid, count + NodeCount(node));
    } else {
      NoContent(node, kind, mid);
      assert NumbersOf(FlowNodeOf(node, kind, count)) == NumbersIn(Reverse(ins)) + NumbersIn(Reverse(outs));
    }
  }

  lemma NoContent(node: Node, kind: FlowNodeKind, count: nat)
    requires node.Elem? && kind != SubProcess
    ensures !TypeDataOf(node, kind, count).SubProcessData?
  {
  }

  lemma ContentKeepsNumbers(node: Node, count: nat)
    requires node.Elem?
    ensures TypeDataOf(node, SubProcess, count).SubProcessData?
    ensures NumbersOfAll(TypeDataOf(node, SubProcess, count).flowNodes) == NumbersOfAll(ScopeNodes(node.kids, count))
  {
    LinkedKeepsNumbers(ScopeNodes(node.kids, count), DefaultsOf(node.kids));
  }

  lemma {:induction false} SameNumbers(a: seq<FlowNode>, b: seq<FlowNode>)
    requires |a| == |b| && forall i :: 0 <= i < |a| ==> NumbersOf(a[i]) == NumbersOf(b[i])
    ensures NumbersOfAll(a) == NumbersOfAll(b)
  {
    hide NumbersOf;
    if a == [] {
    } else {
      SameNumbers(a[..|a| - 1], b[..|b| - 1]);
    }
  }

  lemma LinkedKeepsNumbers(nodes: seq<FlowNode>, defaults: map<string, string>)
    ensures NumbersOfAll(Linked(nodes, defaults)) == NumbersOfAll(nodes)
  {
    hide WithDefault, WithRefs, NumbersOfAll, NumbersOf;
    forall i | 0 <= i < |nodes| ensures NumbersOf(Linked(nodes, defaults)[i]) == NumbersOf(nodes[i]) {
      LinkedNodeKeepsNumbers(nodes[i], defaults, EachWithDefault(nodes, defaults));
    }
    SameNumbers(Linked(nodes, defaults), nodes);
  }

  lemma LinkedNodeKeepsNumbers(node: FlowNode, defaults: map<string, string>, nodes: seq<FlowNode>)
    ensures NumbersOf(WithRefs(WithDefault(node, defaults), nodes)) == NumbersOf(node)
  {
    hide NumbersIn, NumbersOfAll, AttachedTo;
  }

  lemma {:induction false} ScopeNumbersFresh(kids: seq<Node>, count: nat)
    ensures Fresh(NumbersOfAll(ScopeNodes(kids, count)), count, count + ScopeCount(kids))
    decreases kids, 0
  {
    hide ScopeNodes, ScopeCount, NumbersOf, FlowNodeOf, NodeCount, NumbersOfAll;
    NothingInScope(count);
    NumbersOfLast([], []);
    if kids == [] {
    } else {
      var rest, kid := kids[..|kids| - 1], kids[|kids| - 1];
      assert kids == rest + [kid];
      ScopeNumbersFresh(rest, count);
      ScopeNodesLast(rest, kid, count);
      if IsFlowElement(kid) {
        var at := count + ScopeCount(rest);
        var node := FlowNodeOf(kid, KindOf(kid.tag).value, at);
        NodeNumbersFresh(kid, KindOf(kid.tag).value, at);
        NumbersOfLast(ScopeNodes(rest, count), [node]);
        FreshConcat(NumbersOfAll(ScopeNodes(rest, count)), NumbersOf(node), count, at, at + NodeCount(kid));
      } else {
        assert ScopeNodes(kids, count) == ScopeNodes(rest, count);
      }
    }
  }

  lemma NumbersOfLast(nodes: seq<FlowNode>, more: seq<FlowNode>)
    ensures NumbersOfAll([]) == []
    ensures |more| == 1 ==> NumbersOfAll(nodes + more) == NumbersOfAll(nodes) + NumbersOf(more[0])
  {
    if |more| == 1 { assert (nodes + more)[..|nodes + more| - 1] == nodes; }
  }

  lemma {:induction false} CompensateKeepsNumbers(nodes: seq<FlowNode>, handlers: map<string, string>)
    ensures NumbersOfAll(CompensateAll(nodes, handlers)) == NumbersOfAll(nodes)
    decreases nodes, 1
  {
    hide NumbersOf, Compensate;
    if nodes == [] {
    } else {
      var rest, last := nodes[..|nodes| - 1], nodes[|nodes| - 1];
      assert nodes == rest + [last];
      CompensateKeepsNumbers(rest, handlers);
      CompensateNodeKeepsNumbers(last, handlers);
      NumbersOfLast(CompensateAll(rest, handlers), [Compensate(last, handlers)]);
    }
  }

  lemma {:induction false} CompensateNodeKeepsNumbers(node: FlowNode, handlers: map<string, string>)
    ensures NumbersOf(Compensate(node, handlers)) == NumbersOf(node)
    decreases node, 0
  {
    hide NumbersIn;
    if node.typeData.SubProcessData? { CompensateKeepsNumbers(node.typeData.flowNodes, handlers); }
  }

  /** In one parse no number is used twice, and all lie between the counter before and after. */
  lemma MadeUpIdsDistinct(process: Node, count: nat)
    ensures Fresh(NumbersOfAll(ProcessOf(process, count).flowNodes), count, count + ScopeCount(Children(process)))
  {
    hide ScopeNodes, CompensateAll, Linked, EachMarked, FlowsOf, DefaultsOf, LanesIn, AssociationsIn, HandlersOf, NumbersOfAll, ScopeCount, Fresh;
    var kids := Children(process);
    var nodes, handlers := ScopeNodes(kids, count), HandlersOf(AssociationsIn(kids));
    ScopeNumbersFresh(kids, count);
    CompensateKeepsNumbers(nodes, handlers);
    LinkedKeepsNumbers(CompensateAll(nodes, handlers), DefaultsOf(kids));
  }
}
