/**
 The selections of the model graph (`buildFlowNodeSelection` and `buildProcessModelSelection`
 in packages/js/sdk/src/graphql/model-fields.ts): how they are built from the field tables,
 and what that costs.
 */
module FlowNodeSelection {
  import opened Selection

  const SUB_PROCESS := "SubProcessNode"

  // ----- building

  function FieldsOf(table: seq<Fragment>, typeName: string): seq<Field> {
    if table == [] then []
    else if table[0].typeName == typeName then table[0].fields
    else FieldsOf(table[1..], typeName)
  }

  /** `on[typeName] = fields`: an entry there is overwritten in place, a new one goes to the end. */
  function Put(on: seq<Fragment>, typeName: string, fields: seq<Field>): seq<Fragment> {
    if on == [] then [Fragment(typeName, fields)]
    else if on[0].typeName == typeName then [Fragment(typeName, fields)] + on[1..]
    else [on[0]] + Put(on[1..], typeName, fields)
  }

  function Filled(table: seq<Fragment>): seq<Fragment> {
    if table == [] then []
    else
      var last := table[|table| - 1];
      if last.fields == [] then Filled(table[..|table| - 1]) else Put(Filled(table[..|table| - 1]), last.typeName, last.fields)
  }

  function FlowNodeFragments(common: seq<Field>, table: seq<Fragment>, depth: nat): seq<Fragment> {
    if depth == 0 then Filled(table)
    else Put(Filled(table), SUB_PROCESS,
             FieldsOf(table, SUB_PROCESS) + [Nested("flowNodes", common, FlowNodeFragments(common, table, depth - 1))])
  }

  /** The selection for one flow node, `depth` levels of subprocess content deep. */
  function FlowNode(common: seq<Field>, table: seq<Fragment>, depth: nat): Field {
    Nested("flowNode", common, FlowNodeFragments(common, table, depth))
  }

  method BuildFlowNodeSelection(common: seq<Field>, table: seq<Fragment>, depth: nat) returns (field: Field)
    ensures field == FlowNode(common, table, depth)
    decreases depth
  {
    hide Put, FieldsOf;
    var on: seq<Fragment> := [];
    for i := 0 to |table|
      invariant on == Filled(table[..i])
    {
      assert table[..i + 1][..i] == table[..i];
      if |table[i].fields| > 0 {
        on := Put(on, table[i].typeName, table[i].fields);
      }
    }
    assert table[..|table|] == table;
    if depth > 0 {
      var nested := BuildFlowNodeSelection(common, table, depth - 1);
      on := Put(on, SUB_PROCESS, FieldsOf(table, SUB_PROCESS) + [Nested("flowNodes", nested.fields, nested.on)]);
    }
    field := Nested("flowNode", common, on);
  }

  /** The `flowNodes` tree and the flat index, under the rest of the process model. */
  function ProcessModel(before: seq<Field>, after: seq<Field>, common: seq<Field>, table: seq<Fragment>, depth: nat): Field {
    Nested("processModel",
           before + [Nested("flowNodes", common, FlowNodeFragments(common, table, depth)),
                     Nested("allFlowNodes", common, FlowNodeFragments(common, table, 0))] + after, [])
  }

  // ----- what a table has to be

  /** Type names are distinct, and subprocesses have fields of their own. */
  ghost predicate Sound(table: seq<Fragment>) {
    && (forall i, j :: 0 <= i < j < |table| ==> table[i].typeName != table[j].typeName)
    && exists i :: IsSubProcess(table, i)
  }

  ghost predicate IsSubProcess(table: seq<Fragment>, i: nat) {
    i < |table| && table[i].typeName == SUB_PROCESS && table[i].fields != []
  }

  /** The table without its empty entries. */
  function NonEmpty(table: seq<Fragment>): seq<Fragment> {
    if table == [] then []
    else NonEmpty(table[..|table| - 1]) + if table[|table| - 1].fields == [] then [] else [table[|table| - 1]]
  }

  lemma {:induction false} PutNew(on: seq<Fragment>, typeName: string, fields: seq<Field>)
    requires forall i :: 0 <= i < |on| ==> on[i].typeName != typeName
    ensures Put(on, typeName, fields) == on + [Fragment(typeName, fields)]
  {
    if on == [] {
    } else {
      PutNew(on[1..], typeName, fields);
    }
  }

  lemma {:induction false} PutAt(on: seq<Fragment>, i: nat, fields: seq<Field>)
    requires i < |on| && forall j :: 0 <= j < i ==> on[j].typeName != on[i].typeName
    ensures Put(on, on[i].typeName, fields) == on[i := Fragment(on[i].typeName, fields)]
  {
    if i == 0 {
    } else {
      PutAt(on[1..], i - 1, fields);
      assert on[i := Fragment(on[i].typeName, fields)] == [on[0]] + on[1..][i - 1 := Fragment(on[i].typeName, fields)];
    }
  }

  lemma {:induction false} NonEmptyMembers(table: seq<Fragment>)
    ensures forall f :: f in NonEmpty(table) <==> f in table && f.fields != []
  {
    if table == [] {
    } else {
      NonEmptyMembers(table[..|table| - 1]);
      assert table == table[..|table| - 1] + [table[|table| - 1]];
    }
  }

  lemma {:induction false} FilledIsNonEmpty(table: seq<Fragment>)
    requires forall i, j :: 0 <= i < j < |table| ==> table[i].typeName != table[j].typeName
    ensures Filled(table) == NonEmpty(table)
    ensures forall i, j :: 0 <= i < j < |NonEmpty(table)| ==> NonEmpty(table)[i].typeName != NonEmpty(table)[j].typeName
  {
    hide Put;
    if table == [] {
    } else {
      var rest, last := table[..|table| - 1], table[|table| - 1];
      FilledIsNonEmpty(rest);
      NonEmptyMembers(rest);
      forall i | 0 <= i < |NonEmpty(rest)| ensures NonEmpty(rest)[i].typeName != last.typeName {
        assert NonEmpty(rest)[i] in rest;
        var k :| 0 <= k < |rest| && rest[k] == NonEmpty(rest)[i];
        assert table[k].typeName != table[|table| - 1].typeName;
      }
      PutNew(NonEmpty(rest), last.typeName, last.fields);
    }
  }

  lemma {:induction false} FieldsAt(table: seq<Fragment>, i: nat)
    requires i < |table| && forall j :: 0 <= j < i ==> table[j].typeName != table[i].typeName
    ensures FieldsOf(table, table[i].typeName) == table[i].fields
  {
    if i == 0 {
    } else {
      FieldsAt(table[1..], i - 1);
    }
  }

  /** One level more puts one selection more, the whole of the level below, into the subprocess fragment and changes nothing else. */
  lemma OneLevelMore(common: seq<Field>, table: seq<Fragment>, depth: nat) returns (k: nat)
    requires Sound(table) && depth > 0
    ensures k < |Filled(table)|
    ensures FlowNodeFragments(common, table, depth) ==
            Filled(table)[k := Fragment(SUB_PROCESS, Filled(table)[k].fields + [Nested("flowNodes", common, FlowNodeFragments(common, table, depth - 1))])]
  {
    hide Put, FieldsOf;
    FilledIsNonEmpty(table);
    NonEmptyMembers(table);
    var i: nat :| IsSubProcess(table, i);
    FieldsAt(table, i);
    assert table[i] in NonEmpty(table);
    k :| 0 <= k < |NonEmpty(table)| && NonEmpty(table)[k] == table[i];
    PutAt(Filled(table), k, FieldsOf(table, SUB_PROCESS) + [Nested("flowNodes", common, FlowNodeFragments(common, table, depth - 1))]);
  }

  // ----- the size law

  /** Selections when a nested field or a fragment costs one, lines when it costs two. */
  function Weight(field: Field, cost: nat): nat
    decreases field, 1
  {
    match field
    case Scalar(_) => 1
    case Nested(_, fields, on) => cost + WeightAll(fields, cost) + WeightOn(on, cost)
  }

  function WeightAll(fields: seq<Field>, cost: nat): nat
    decreases fields, 0
  {
    if fields == [] then 0 else WeightAll(fields[..|fields| - 1], cost) + Weight(fields[|fields| - 1], cost)
  }

  function WeightOn(on: seq<Fragment>, cost: nat): nat
    decreases on, 0
  {
    if on == [] then 0 else WeightOn(on[..|on| - 1], cost) + WeightFragment(on[|on| - 1], cost)
  }

  function WeightFragment(fragment: Fragment, cost: nat): nat
    decreases fragment, 0
  {
    cost + WeightAll(fragment.fields, cost)
  }

  function Selections(field: Field): nat {
    Weight(field, 1)
  }

  lemma WeightAllLast(fields: seq<Field>, field: Field, cost: nat)
    ensures WeightAll(fields + [field], cost) == WeightAll(fields, cost) + Weight(field, cost)
  {
    hide Weight;
    assert (fields + [field])[..|fields + [field]| - 1] == fields;
  }

  lemma {:induction false} WeightAfterChange(on: seq<Fragment>, k: nat, fragment: Fragment, cost: nat)
    requires k < |on|
    ensures WeightOn(on[k := fragment], cost) == WeightOn(on, cost) - WeightFragment(on[k], cost) + WeightFragment(fragment, cost)
  {
    hide WeightFragment;
    var n := |on| - 1;
    if k == n {
      assert on[k := fragment][..n] == on[..n];
    } else {
      WeightAfterChange(on[..n], k, fragment, cost);
      assert on[k := fragment][..n] == on[..n][k := fragment];
    }
  }

  /** Whatever a nested field costs, `depth` levels cost `depth + 1` times the selection without any. */
  lemma {:induction false} SizeLaw(common: seq<Field>, table: seq<Fragment>, depth: nat, cost: nat)
    requires Sound(table)
    ensures Weight(FlowNode(common, table, depth), cost) == (depth + 1) * Weight(FlowNode(common, table, 0), cost)
  {
    hide Filled, Put, FieldsOf, WeightAll, WeightOn, Sound;
    if depth == 0 {
    } else {
      var on := Filled(table);
      var k := OneLevelMore(common, table, depth);
      var below := Nested("flowNodes", common, FlowNodeFragments(common, table, depth - 1));
      var grown := Fragment(SUB_PROCESS, on[k].fields + [below]);
      WeightAfterChange(on, k, grown, cost);
      WeightAllLast(on[k].fields, below, cost);
      SizeLaw(common, table, depth - 1, cost);
      assert Weight(below, cost) == Weight(FlowNode(common, table, depth - 1), cost);
      assert Weight(FlowNode(common, table, depth), cost) == Weight(FlowNode(common, table, 0), cost) + Weight(below, cost);
      Times(depth, Weight(FlowNode(common, table, 0), cost));
    }
  }

  lemma Times(d: nat, w: nat)
    ensures d * w + w == (d + 1) * w
  {
  }

  // ----- the same for written lines

  /** Every nested field and every fragment selects something. */
  ghost predicate NoGap(field: Field)
    decreases field, 1
  {
    field.Nested? ==> (field.fields != [] || field.on != []) && NoGaps(field.fields) && NoGapsOn(field.on)
  }

  ghost predicate NoGaps(fields: seq<Field>)
    decreases fields, 0
  {
    forall i :: 0 <= i < |fields| ==> NoGap(fields[i])
  }

  ghost predicate NoGapFragment(fragment: Fragment)
    decreases fragment, 0
  {
    fragment.fields != [] && NoGaps(fragment.fields)
  }

  ghost predicate NoGapsOn(on: seq<Fragment>)
    decreases on, 0
  {
    forall i :: 0 <= i < |on| ==> NoGapFragment(on[i])
  }

  lemma {:induction false} LinesWeight(field: Field, prefix: string)
    requires NoGap(field)
    ensures |Rendered(field, prefix)| == Weight(field, 2)
    decreases field, 1
  {
    hide RenderedAll, RenderedOn, WeightAll, WeightOn, NoGaps, NoGapsOn;
    if field.Nested? {
      AllLinesWeight(field.fields, prefix + "  ");
      OnLinesWeight(field.on, prefix + "  ");
      NothingIffNothing(field.fields, prefix + "  ");
    }
  }

  lemma {:induction false} AllLinesWeight(fields: seq<Field>, prefix: string)
    requires NoGaps(fields)
    ensures |RenderedAll(fields, prefix)| == WeightAll(fields, 2)
    decreases fields, 0
  {
    hide Rendered, Weight, NoGap;
    if fields == [] {
    } else {
      AllLinesWeight(fields[..|fields| - 1], prefix);
      assert NoGap(fields[|fields| - 1]);
      LinesWeight(fields[|fields| - 1], prefix);
    }
  }

  lemma {:induction false} OnLinesWeight(on: seq<Fragment>, prefix: string)
    requires NoGapsOn(on)
    ensures |RenderedOn(on, prefix)| == WeightOn(on, 2)
    ensures on != [] ==> RenderedOn(on, prefix) != []
    decreases on, 0
  {
    hide RenderedAll, WeightAll, NoGaps;
    if on == [] {
    } else {
      var last := on[|on| - 1];
      OnLinesWeight(on[..|on| - 1], prefix);
      assert NoGapFragment(last);
      FragmentLinesWeight(last, prefix);
    }
  }

  lemma {:induction false} FragmentLinesWeight(fragment: Fragment, prefix: string)
    requires NoGapFragment(fragment)
    ensures |RenderedFragment(fragment, prefix)| == WeightFragment(fragment, 2) && RenderedFragment(fragment, prefix) != []
    decreases fragment, 0
  {
    hide RenderedAll, WeightAll, NoGaps;
    GapFree(fragment);
    AllLinesWeight(fragment.fields, prefix + "  ");
    NothingIffNothing(fragment.fields, prefix + "  ");
  }

  lemma GapFree(fragment: Fragment)
    requires NoGapFragment(fragment)
    ensures fragment.fields != [] && NoGaps(fragment.fields)
  {
  }

  /** No field table has a nested field that selects nothing. */
  ghost predicate TableNoGaps(table: seq<Fragment>) {
    forall i :: 0 <= i < |table| ==> NoGaps(table[i].fields)
  }

  lemma {:induction false} FragmentsNoGaps(common: seq<Field>, table: seq<Fragment>, depth: nat)
    requires Sound(table) && common != [] && NoGaps(common) && TableNoGaps(table)
    ensures NoGapsOn(FlowNodeFragments(common, table, depth))
  {
    hide Put, FieldsOf, NoGaps, NonEmpty, Filled;
    FilledIsNonEmpty(table);
    NonEmptyMembers(table);
    var on := Filled(table);
    forall i | 0 <= i < |on| ensures NoGapFragment(on[i]) {
      assert on[i] in table;
    }
    if depth == 0 {
    } else {
      FragmentsNoGaps(common, table, depth - 1);
      var k := OneLevelMore(common, table, depth);
      assert NoGapFragment(on[k]);
      NoGapsLast(on[k].fields, Nested("flowNodes", common, FlowNodeFragments(common, table, depth - 1)));
    }
  }

  lemma NoGapsLast(fields: seq<Field>, field: Field)
    requires NoGaps(fields) && NoGap(field)
    ensures NoGaps(fields + [field])
  {
    hide NoGap;
  }

  /** The lines of the query follow the same law as the selections in it, at any indentation. */
  lemma LineLaw(common: seq<Field>, table: seq<Fragment>, depth: nat, prefix: string)
    requires Sound(table) && common != [] && NoGaps(common) && TableNoGaps(table)
    ensures |Rendered(FlowNode(common, table, depth), prefix)| == (depth + 1) * |Rendered(FlowNode(common, table, 0), prefix)|
  {
    hide Sound, NoGaps, Rendered, Weight, TableNoGaps, FlowNodeFragments, NoGapsOn;
    FragmentsNoGaps(common, table, depth);
    FragmentsNoGaps(common, table, 0);
    LinesWeight(FlowNode(common, table, depth), prefix);
    LinesWeight(FlowNode(common, table, 0), prefix);
    SizeLaw(common, table, depth, 2);
  }

  // ----- nesting

  function Max(a: nat, b: nat): nat {
    if a < b then b else a
  }

  /** The most `flowNodes` fields that stand inside one another, this one included. */
  function Nesting(field: Field): nat
    decreases field, 1
  {
    match field
    case Scalar(_) => 0
    case Nested(name, fields, on) => (if name == "flowNodes" then 1 else 0) + Max(NestingAll(fields), NestingOn(on))
  }

  function NestingAll(fields: seq<Field>): nat
    decreases fields, 0
  {
    if fields == [] then 0 else Max(NestingAll(fields[..|fields| - 1]), Nesting(fields[|fields| - 1]))
  }

  function NestingOn(on: seq<Fragment>): nat
    decreases on, 0
  {
    if on == [] then 0 else Max(NestingOn(on[..|on| - 1]), NestingFragment(on[|on| - 1]))
  }

  function NestingFragment(fragment: Fragment): nat
    decreases fragment, 0
  {
    NestingAll(fragment.fields)
  }

  ghost predicate TableFlat(table: seq<Fragment>) {
    forall i :: 0 <= i < |table| ==> NestingFragment(table[i]) == 0
  }

  lemma {:induction false} FlatOn(on: seq<Fragment>)
    requires forall i :: 0 <= i < |on| ==> NestingFragment(on[i]) == 0
    ensures NestingOn(on) == 0
  {
    hide NestingFragment;
    if on == [] {
    } else {
      FlatOn(on[..|on| - 1]);
    }
  }

  lemma {:induction false} NestingAfterChange(on: seq<Fragment>, k: nat, fragment: Fragment)
    requires k < |on| && forall i :: 0 <= i < |on| ==> NestingFragment(on[i]) == 0
    ensures NestingOn(on[k := fragment]) == NestingFragment(fragment)
  {
    hide NestingFragment;
    var n := |on| - 1;
    if k == n {
      assert on[k := fragment][..n] == on[..n];
      FlatOn(on[..n]);
    } else {
      NestingAfterChange(on[..n], k, fragment);
      assert on[k := fragment][..n] == on[..n][k := fragment];
    }
  }

  lemma NestingAllLast(fields: seq<Field>, field: Field)
    ensures NestingAll(fields + [field]) == Max(NestingAll(fields), Nesting(field))
  {
    hide Nesting;
    assert (fields + [field])[..|fields + [field]| - 1] == fields;
  }

  /** With `depth` levels, `flowNodes` nests exactly that deep. */
  lemma {:induction false} NestsToDepth(common: seq<Field>, table: seq<Fragment>, depth: nat)
    requires Sound(table) && TableFlat(table) && NestingAll(common) == 0
    ensures NestingOn(FlowNodeFragments(common, table, depth)) == depth
    ensures Nesting(FlowNode(common, table, depth)) == depth
  {
    hide Put, FieldsOf, NonEmpty, Filled, NestingAll;
    FilledIsNonEmpty(table);
    NonEmptyMembers(table);
    var on := Filled(table);
    forall i | 0 <= i < |on| ensures NestingFragment(on[i]) == 0 {
      assert on[i] in table;
    }
    FlatOn(on);
    if depth == 0 {
    } else {
      NestsToDepth(common, table, depth - 1);
      var k := OneLevelMore(common, table, depth);
      var below := Nested("flowNodes", common, FlowNodeFragments(common, table, depth - 1));
      NestingAllLast(on[k].fields, below);
      assert NestingFragment(on[k]) == 0;
      NestingAfterChange(on, k, Fragment(SUB_PROCESS, on[k].fields + [below]));
    }
  }

  // ----- the whole process model

  lemma {:induction false} NestingConcat(a: seq<Field>, b: seq<Field>)
    ensures NestingAll(a + b) == Max(NestingAll(a), NestingAll(b))
  {
    hide Nesting;
    if b == [] {
      assert a + b == a;
    } else {
      assert (a + b)[..|a + b| - 1] == a + b[..|b| - 1];
      NestingConcat(a, b[..|b| - 1]);
    }
  }

  lemma {:induction false} WeightConcat(a: seq<Field>, b: seq<Field>, cost: nat)
    ensures WeightAll(a + b, cost) == WeightAll(a, cost) + WeightAll(b, cost)
  {
    hide Weight;
    if b == [] {
      assert a + b == a;
    } else {
      assert (a + b)[..|a + b| - 1] == a + b[..|b| - 1];
      WeightConcat(a, b[..|b| - 1], cost);
    }
  }

  function Both(common: seq<Field>, table: seq<Fragment>, depth: nat): seq<Field> {
    [Nested("flowNodes", common, FlowNodeFragments(common, table, depth)), Nested("allFlowNodes", common, FlowNodeFragments(common, table, 0))]
  }

  lemma BothWeight(common: seq<Field>, table: seq<Fragment>, depth: nat, cost: nat)
    ensures WeightAll(Both(common, table, depth), cost) == Weight(FlowNode(common, table, depth), cost) + Weight(FlowNode(common, table, 0), cost)
  {
    hide FlowNodeFragments;
    var both := Both(common, table, depth);
    WeightAllLast([], both[0], cost);
    WeightAllLast([both[0]], both[1], cost);
    assert [] + [both[0]] == [both[0]] && [both[0]] + [both[1]] == both;
  }

  /** Every level adds the weight of one flow node selection to the process model, and nothing else. */
  lemma ModelGrows(before: seq<Field>, after: seq<Field>, common: seq<Field>, table: seq<Fragment>, depth: nat, cost: nat)
    requires Sound(table)
    ensures Weight(ProcessModel(before, after, common, table, depth), cost) ==
            Weight(ProcessModel(before, after, common, table, 0), cost) + depth * Weight(FlowNode(common, table, 0), cost)
  {
    hide Sound, FlowNodeFragments, WeightAll;
    ModelWeight(before, after, common, table, depth, cost);
    ModelWeight(before, after, common, table, 0, cost);
    SizeLaw(common, table, depth, cost);
    Times(depth, Weight(FlowNode(common, table, 0), cost));
  }

  lemma ModelWeight(before: seq<Field>, after: seq<Field>, common: seq<Field>, table: seq<Fragment>, depth: nat, cost: nat)
    ensures Weight(ProcessModel(before, after, common, table, depth), cost) == cost + WeightAll(before, cost) + WeightAll(after, cost) +
            Weight(FlowNode(common, table, depth), cost) + Weight(FlowNode(common, table, 0), cost)
  {
    hide FlowNodeFragments, WeightAll;
    BothWeight(common, table, depth, cost);
    WeightConcat(before, Both(common, table, depth), cost);
    WeightConcat(before + Both(common, table, depth), after, cost);
    NoFragments(cost);
  }

  lemma NoFragments(cost: nat)
    ensures WeightOn([], cost) == 0 && NestingOn([]) == 0
  {
  }

  /** The content of `flowNodes` nests `depth` deep, that of `allFlowNodes` not at all, and nothing else does. */
  lemma ModelNests(before: seq<Field>, after: seq<Field>, common: seq<Field>, table: seq<Fragment>, depth: nat)
    requires Sound(table) && TableFlat(table) && NestingAll(common) == 0 && NestingAll(before) == 0 && NestingAll(after) == 0
    ensures var model := ProcessModel(before, after, common, table, depth);
      && model.fields[|before|].name == "flowNodes" && Nesting(model.fields[|before|]) == depth + 1
      && model.fields[|before| + 1].name == "allFlowNodes" && Nesting(model.fields[|before| + 1]) == 0
      && Nesting(model) == depth + 1
  {
    hide Sound, TableFlat, NestingAll, NestingOn, FlowNodeFragments;
    NestsToDepth(common, table, depth);
    NestsToDepth(common, table, 0);
    var both := Both(common, table, depth);
    NestingAllLast([], both[0]);
    NestingAllLast([both[0]], both[1]);
    assert [] + [both[0]] == [both[0]] && [both[0]] + [both[1]] == both;
    NestingConcat([], []);
    NestingConcat(before, both);
    NestingConcat(before + both, after);
    NoFragments(0);
    assert NestingAll([]) == 0 by { NothingNests(); }
  }

  lemma NothingNests()
    ensures NestingAll([]) == 0
  {
  }

  lemma ModelNoGaps(before: seq<Field>, after: seq<Field>, common: seq<Field>, table: seq<Fragment>, depth: nat)
    requires Sound(table) && common != [] && NoGaps(common) && TableNoGaps(table) && NoGaps(before) && NoGaps(after)
    ensures NoGap(ProcessModel(before, after, common, table, depth))
  {
    hide Sound, TableNoGaps, FlowNodeFragments, NoGapsOn;
    FragmentsNoGaps(common, table, depth);
    FragmentsNoGaps(common, table, 0);
    var both := Both(common, table, depth);
    assert NoGap(both[0]) && NoGap(both[1]);
    assert NoGapsOn([]) by { NoneNoGaps(); }
    assert ProcessModel(before, after, common, table, depth).fields == before + both + after;
  }

  lemma NoneNoGaps()
    ensures NoGapsOn([])
  {
  }
}
