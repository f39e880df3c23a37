/**
 Response records on their way back (`camelizeKeys` and `tryParseJsonScalar` in
 packages/js/client/src/graphql/graphql-client.ts). `JSON.parse` is a parameter: it
 gives a value or, where it throws, nothing.
 */
module CamelizeKeys {
  import opened Collections
  import opened Numerals
  import opened Xml
  import opened KeyCase

  datatype Json =
    | Null
    | Bool(b: bool)
    | Number(n: real)
    | String(s: string)
    | Array(items: seq<Json>)
    | Object(fields: seq<Field>)

  /** The fields of an object come in the order `Object.entries` lists them. */
  datatype Field = Field(key: string, value: Json)

  type Parse = string -> Option<Json>

  const OPAQUE_KEYS: set<string> := {
    "payload", "result", "input_token", "output_token", "started_with_context", "started_by", "deployer", "claims", "type_properties",
    "error_info", "payload_contract", "result_contract", "bpmn_xml", "dmn_xml", "violations", "metadata", "deleted_by", "data_object_cache"
  }

  function TryParseJsonScalar(s: string, parse: Parse): Json {
    var trimmed := TrimStart(s);
    if trimmed != [] && (trimmed[0] == '{' || trimmed[0] == '[') then
      match parse(s) case Some(json) => json case None => String(s)
    else String(s)
  }

  predicate IsRecord(json: Json) {
    json.Object? || json.Array?
  }

  /** What `Object.entries` gives: of an array, its items under their indices. */
  function Entries(record: Json): seq<Field>
    requires IsRecord(record)
  {
    match record
    case Object(fields) => fields
    case Array(items) => seq(|items|, i requires 0 <= i < |items| => Field(Decimal(i), items[i]))
  }

  /** `result[key] = value`: an entry there is overwritten in place, a new one goes to the end. */
  function Put(fields: seq<Field>, key: string, value: Json): seq<Field> {
    if fields == [] then [Field(key, value)]
    else if fields[0].key == key then [Field(key, value)] + fields[1..]
    else [fields[0]] + Put(fields[1..], key, value)
  }

  lemma EntrySmaller(record: Json, i: nat)
    requires IsRecord(record) && i < |Entries(record)|
    ensures Entries(record)[i].value < record
  {
    match record
    case Object(fields) => assert fields[i].value < fields[i];
    case Array(items) => assert items[i] < record;
  }

  /** The record after its first `n` entries have gone over. */
  function CamelizedUpto(record: Json, n: nat, parse: Parse): seq<Field>
    requires IsRecord(record) && n <= |Entries(record)|
    decreases record, n
  {
    if n == 0 then []
    else
      var entry := Entries(record)[n - 1];
      EntrySmaller(record, n - 1);
      Put(CamelizedUpto(record, n - 1, parse), ToCamel(entry.key), ValueOf(entry.key, entry.value, parse))
  }

  function Camelized(record: Json, parse: Parse): seq<Field>
    requires IsRecord(record)
    decreases record, |Entries(record)| + 1
  {
    CamelizedUpto(record, |Entries(record)|, parse)
  }

  function ValueOf(key: string, value: Json, parse: Parse): Json
    decreases value, |if IsRecord(value) then Entries(value) else []| + 2
  {
    if value.String? then TryParseJsonScalar(value.s, parse)
    else if key in OPAQUE_KEYS then value
    else if value.Array? then Array(Items(value.items, parse))
    else if value.Object? then Object(Camelized(value, parse))
    else value
  }

  function Items(items: seq<Json>, parse: Parse): seq<Json>
    decreases items, 0
  {
    if items == [] then []
    else
      var n := |items| - 1;
      Items(items[..n], parse) + [if IsRecord(items[n]) then Object(Camelized(items[n], parse)) else items[n]]
  }

  method CamelizeKeysOf(record: Json, parse: Parse) returns (result: seq<Field>)
    requires IsRecord(record)
    ensures result == Camelized(record, parse)
    decreases record, 1
  {
    hide ToCamel, TryParseJsonScalar, Put, ValueOf, Items;
    var entries := Entries(record);
    result := [];
    for i := 0 to |entries|
      invariant result == CamelizedUpto(record, i, parse)
    {
      EntrySmaller(record, i);
      var value := CamelizeEntry(entries[i].key, entries[i].value, parse);
      result := Put(result, ToCamel(entries[i].key), value);
    }
  }

  method CamelizeEntry(key: string, value: Json, parse: Parse) returns (result: Json)
    ensures result == ValueOf(key, value, parse)
    decreases value, 2
  {
    hide TryParseJsonScalar, CamelizedUpto, Items;
    if key in OPAQUE_KEYS {
      result := if value.String? then TryParseJsonScalar(value.s, parse) else value;
    } else if value.Array? {
      var items := CamelizeItems(value.items, parse);
      result := Array(items);
    } else if value.Object? {
      var fields := CamelizeKeysOf(value, parse);
      result := Object(fields);
    } else if value.String? {
      result := TryParseJsonScalar(value.s, parse);
    } else {
      result := value;
    }
  }

  method CamelizeItems(items: seq<Json>, parse: Parse) returns (result: seq<Json>)
    ensures result == Items(items, parse)
    decreases items, 0
  {
    hide Camelized;
    result := [];
    for i := 0 to |items|
      invariant result == Items(items[..i], parse)
    {
      assert items[..i + 1][..i] == items[..i];
      if IsRecord(items[i]) {
        var fields := CamelizeKeysOf(items[i], parse);
        result := result + [Object(fields)];
      } else {
        result := result + [items[i]];
      }
    }
    assert items[..|items|] == items;
  }

  // ----- nothing merged, nothing dropped

  function Keys(fields: seq<Field>): seq<string> {
    seq(|fields|, i requires 0 <= i < |fields| => fields[i].key)
  }

  lemma {:induction false} PutMeans(fields: seq<Field>, key: string, value: Json)
    ensures key !in Keys(fields) ==> Put(fields, key, value) == fields + [Field(key, value)]
    ensures key in Keys(fields) ==> |Put(fields, key, value)| == |fields| && Keys(Put(fields, key, value)) == Keys(fields)
  {
    if fields == [] {
    } else {
      var rest := fields[1..];
      PutMeans(rest, key, value);
      assert Keys(fields) == [fields[0].key] + Keys(rest);
    }
  }

  function CamelKey(record: Json, i: nat): string
    requires IsRecord(record) && i < |Entries(record)|
  {
    ToCamel(Entries(record)[i].key)
  }

  /** Two of the first `n` entries meet under one key. */
  ghost predicate Collide(record: Json, n: nat)
    requires IsRecord(record) && n <= |Entries(record)|
  {
    exists i, j :: 0 <= i < j < n && CamelKey(record, i) == CamelKey(record, j)
  }

  /** What the result is as long as no two keys have met. */
  function Plainly(record: Json, n: nat, parse: Parse): seq<Field>
    requires IsRecord(record) && n <= |Entries(record)|
  {
    seq(n, i requires 0 <= i < n => Field(CamelKey(record, i), ValueOf(Entries(record)[i].key, Entries(record)[i].value, parse)))
  }

  lemma {:induction false} UptoMeans(record: Json, n: nat, parse: Parse)
    requires IsRecord(record) && n <= |Entries(record)|
    ensures |CamelizedUpto(record, n, parse)| <= n
    ensures forall i :: 0 <= i < n ==> CamelKey(record, i) in Keys(CamelizedUpto(record, n, parse))
    ensures |CamelizedUpto(record, n, parse)| == n <==> !Collide(record, n)
    ensures !Collide(record, n) ==> CamelizedUpto(record, n, parse) == Plainly(record, n, parse)
  {
    hide ToCamel, ValueOf, Entries, Put, Plainly;
    PlainlyNext(record, n, parse);
    if n == 0 {
    } else {
      var before := CamelizedUpto(record, n - 1, parse);
      var entry := Entries(record)[n - 1];
      var key, value := CamelKey(record, n - 1), ValueOf(entry.key, entry.value, parse);
      UptoMeans(record, n - 1, parse);
      PutMeans(before, key, value);
      assert CamelizedUpto(record, n, parse) == Put(before, key, value);
      if key in Keys(before) {
        StillKnown(record, n, Keys(before), key);
        if !Collide(record, n - 1) { Met(record, n, key, parse); }
      } else {
        assert Keys(before + [Field(key, value)]) == Keys(before) + [key];
        StillKnown(record, n, Keys(before) + [key], key);
        NoneNew(record, n, Keys(before), key);
      }
    }
  }

  lemma PlainlyNext(record: Json, n: nat, parse: Parse)
    requires IsRecord(record) && n <= |Entries(record)|
    ensures if n == 0 then Plainly(record, n, parse) == [] else
      var entry := Entries(record)[n - 1];
      Plainly(record, n, parse) == Plainly(record, n - 1, parse) + [Field(CamelKey(record, n - 1), ValueOf(entry.key, entry.value, parse))]
  {
    hide ValueOf, CamelKey;
  }

  lemma Met(record: Json, n: nat, key: string, parse: Parse)
    requires IsRecord(record) && 0 < n <= |Entries(record)| && key == CamelKey(record, n - 1)
    requires key in Keys(Plainly(record, n - 1, parse))
    ensures Collide(record, n)
  {
    hide ValueOf;
    var i :| 0 <= i < n - 1 && Keys(Plainly(record, n - 1, parse))[i] == key;
    assert CamelKey(record, i) == CamelKey(record, n - 1);
  }

  lemma StillKnown(record: Json, n: nat, keys: seq<string>, key: string)
    requires IsRecord(record) && 0 < n <= |Entries(record)| && key in keys && key == CamelKey(record, n - 1)
    requires forall i :: 0 <= i < n - 1 ==> CamelKey(record, i) in keys
    ensures forall i :: 0 <= i < n ==> CamelKey(record, i) in keys
  {
  }

  lemma NoneNew(record: Json, n: nat, keys: seq<string>, key: string)
    requires IsRecord(record) && 0 < n <= |Entries(record)| && key !in keys && key == CamelKey(record, n - 1)
    requires forall i :: 0 <= i < n - 1 ==> CamelKey(record, i) in keys
    ensures Collide(record, n) <==> Collide(record, n - 1)
  {
    hide CamelKey;
    if Collide(record, n) {
      var i, j :| 0 <= i < j < n && CamelKey(record, i) == CamelKey(record, j);
      assert j < n - 1;
    }
  }

  /** An entry is merged away exactly where two keys have the same camel-case form. */
  lemma MergesIffCollide(record: Json, parse: Parse)
    requires IsRecord(record)
    ensures |Camelized(record, parse)| == |Entries(record)| <==> !Collide(record, |Entries(record)|)
    ensures !Collide(record, |Entries(record)|) ==> Camelized(record, parse) == Plainly(record, |Entries(record)|, parse)
  {
    UptoMeans(record, |Entries(record)|, parse);
  }

  lemma CollisionExists(parse: Parse)
    ensures Camelized(Object([Field("aB", Null), Field("a_b", Bool(true))]), parse) == [Field("aB", Bool(true))]
  {
    var record := Object([Field("aB", Null), Field("a_b", Bool(true))]);
    assert "aB"[1..] == "B" && "B"[1..] == "" && "a_b"[1..] == "_b" && "_b"[2..] == "";
    assert ToCamel("aB") == "aB" && ToCamel("a_b") == "aB";
    assert CamelizedUpto(record, 1, parse) == [Field("aB", Null)];
  }

  // ----- and nothing lost at any depth

  /** The first character that is not white space opens an object or a list. */
  ghost predicate LooksLikeJson(s: string) {
    exists i :: 0 <= i < |s| && (s[i] == '{' || s[i] == '[') && forall j :: 0 <= j < i ==> IsSpace(s[j])
  }

  /** What a string becomes: the value it is the text of, if it looks like one and is; itself otherwise. */
  ghost predicate Tried(s: string, result: Json, parse: Parse) {
    if LooksLikeJson(s) && parse(s).Some? then result == parse(s).value else result == String(s)
  }

  /** The keys whose values are passed on as they are. */
  predicate IsOpaque(key: string) {
    || key == "payload" || key == "payload_contract" || key == "result" || key == "result_contract" || key == "input_token" || key == "output_token"
    || key == "started_with_context" || key == "started_by" || key == "deployer" || key == "deleted_by" || key == "claims" || key == "metadata"
    || key == "type_properties" || key == "error_info" || key == "violations" || key == "bpmn_xml" || key == "dmn_xml" || key == "data_object_cache"
  }

  lemma OpaqueKeys(key: string)
    ensures IsOpaque(key) <==> key in OPAQUE_KEYS
  {
  }

  lemma StringTried(s: string, parse: Parse)
    ensures Tried(s, TryParseJsonScalar(s, parse), parse)
  {
    hide IsSpace;
    var n := TrimStartAt(s);
    BracesAreNoSpace();
    if n < |s| {
      assert TrimStart(s)[0] == s[n];
    }
  }

  lemma BracesAreNoSpace()
    ensures !IsSpace('{') && !IsSpace('[')
  {
  }

  /**
   What a record has become: the same number of entries in the same order, each under the
   camel-case form of its key, from which its key can be had again; a string has become the
   value it is the text of, if any, and anything else under an opaque key is as it was.
   */
  ghost predicate Kept(record: Json, result: seq<Field>, parse: Parse)
    requires IsRecord(record)
    decreases record, 1
  {
    var entries := Entries(record);
    && |result| == |entries|
    && forall i :: 0 <= i < |entries| ==>
         && result[i].key == ToCamel(entries[i].key) && ToSnake(result[i].key) == entries[i].key
         && (EntrySmaller(record, i); KeptValue(entries[i].key, entries[i].value, result[i].value, parse))
  }

  ghost predicate KeptValue(key: string, value: Json, result: Json, parse: Parse)
    decreases value, 2
  {
    if value.String? then Tried(value.s, result, parse)
    else if IsOpaque(key) then result == value
    else match value
      case Array(items) => result.Array? && |result.items| == |items| && forall i :: 0 <= i < |items| ==> KeptItem(items[i], result.items[i], parse)
      case Object(_) => result.Object? && Kept(value, result.fields, parse)
      case _ => result == value
  }

  /** A record in a list goes over like any other, and so does a list, as a record under its indices; the rest stays. */
  ghost predicate KeptItem(item: Json, result: Json, parse: Parse)
    decreases item, 2
  {
    if IsRecord(item) then result.Object? && Kept(item, result.fields, parse) else result == item
  }

  /** At every depth outside opaque values, keys are distinct and without capitals. */
  ghost predicate PlainKeys(json: Json)
    decreases json, 1
  {
    match json
    case Array(items) => forall i :: 0 <= i < |items| ==> PlainKeys(items[i])
    case Object(fields) =>
      && (forall i, j :: 0 <= i < j < |fields| ==> fields[i].key != fields[j].key)
      && forall i :: 0 <= i < |fields| ==> PlainField(fields[i])
    case _ => true
  }

  ghost predicate PlainField(field: Field)
    decreases field, 2
  {
    NoUpper(field.key) && (IsOpaque(field.key) || PlainKeys(field.value))
  }

  /** The keys of the record itself, indices where it is a list. */
  lemma PlainEntries(record: Json)
    requires IsRecord(record) && PlainKeys(record)
    ensures !Collide(record, |Entries(record)|)
    ensures forall i :: 0 <= i < |Entries(record)| ==>
      NoUpper(Entries(record)[i].key) && (IsOpaque(Entries(record)[i].key) || PlainKeys(Entries(record)[i].value))
  {
    hide ToCamel, NoUpper, Decimal, PlainKeys, IsOpaque;
    PlainRecord(record);
    var entries := Entries(record);
    forall i, j | 0 <= i < j < |entries| ensures CamelKey(record, i) != CamelKey(record, j) {
      if CamelKey(record, i) == CamelKey(record, j) { CamelInjective(entries[i].key, entries[j].key); }
    }
  }

  lemma PlainRecord(record: Json)
    requires IsRecord(record) && PlainKeys(record)
    ensures forall i, j :: 0 <= i < j < |Entries(record)| ==> Entries(record)[i].key != Entries(record)[j].key
    ensures forall i :: 0 <= i < |Entries(record)| ==>
      NoUpper(Entries(record)[i].key) && (IsOpaque(Entries(record)[i].key) || PlainKeys(Entries(record)[i].value))
  {
    hide NoUpper, Decimal, IsOpaque;
    match record
    case Object(fields) =>
      assert forall i :: 0 <= i < |fields| ==> PlainField(fields[i]);
    case Array(items) =>
      forall i | 0 <= i < |items| ensures NoUpper(Decimal(i)) { IndexHasNoUpper(i); }
      forall i, j | 0 <= i < j < |items| ensures Decimal(i) != Decimal(j) {
        if Decimal(i) == Decimal(j) { DecimalInjective(i, j); }
      }
  }

  /**
   No entry is merged or dropped at any depth, whatever JSON the strings hold and however
   lists are nested, as long as keys are distinct and without capitals.
   */
  lemma {:induction false} NothingLost(record: Json, parse: Parse)
    requires IsRecord(record) && PlainKeys(record)
    ensures Kept(record, Camelized(record, parse), parse)
    decreases record, 1
  {
    hide PlainKeys, KeptValue, ValueOf, ToCamel, ToSnake, Camelized, NoUpper, IsOpaque;
    var entries := Entries(record);
    PlainEntries(record);
    MergesIffCollide(record, parse);
    forall i | 0 <= i < |entries|
      ensures ToSnake(CamelKey(record, i)) == entries[i].key
      ensures KeptValue(entries[i].key, entries[i].value, ValueOf(entries[i].key, entries[i].value, parse), parse)
    {
      SnakeUndoesCamel(entries[i].key);
      EntrySmaller(record, i);
      ValueKept(entries[i].key, entries[i].value, parse);
    }
  }

  lemma {:induction false} ValueKept(key: string, value: Json, parse: Parse)
    requires IsOpaque(key) || PlainKeys(value)
    ensures KeptValue(key, value, ValueOf(key, value, parse), parse)
    decreases value, 2
  {
    OpaqueKeys(key);
    hide TryParseJsonScalar, Camelized, Items, Kept, KeptItem, PlainField, Tried, IsOpaque;
    if value.String? {
      StringTried(value.s, parse);
    } else if !IsOpaque(key) {
      match value
      case Array(items) => ItemsKept(items, parse);
      case Object(_) => NothingLost(value, parse);
      case _ =>
    }
  }

  lemma {:induction false} ItemsKept(items: seq<Json>, parse: Parse)
    requires forall i :: 0 <= i < |items| ==> PlainKeys(items[i])
    ensures |Items(items, parse)| == |items|
    ensures forall i :: 0 <= i < |items| ==> KeptItem(items[i], Items(items, parse)[i], parse)
    decreases items, 0
  {
    hide Camelized, Items, Kept, PlainKeys;
    if items == [] {
      NoItems(parse);
    } else {
      var rest, last := items[..|items| - 1], items[|items| - 1];
      assert items == rest + [last];
      ItemsKept(rest, parse);
      ItemsLast(rest, last, parse);
      if IsRecord(last) { NothingLost(last, parse); }
    }
  }

  lemma NoItems(parse: Parse)
    ensures Items([], parse) == []
  {
  }

  lemma ItemsLast(rest: seq<Json>, last: Json, parse: Parse)
    ensures Items(rest + [last], parse) == Items(rest, parse) + [if IsRecord(last) then Object(Camelized(last, parse)) else last]
  {
    hide Camelized;
    assert (rest + [last])[..|rest + [last]| - 1] == rest;
  }

  // ----- the way out again

  /** Outside opaque values there is no list directly in a list, and no string among the fields is the text of an object or a list. */
  ghost predicate Clean(json: Json, parse: Parse)
    decreases json, 1
  {
    match json
    case Array(items) => forall i :: 0 <= i < |items| ==> !items[i].Array? && (items[i].String? || Clean(items[i], parse))
    case Object(fields) => forall i :: 0 <= i < |fields| ==> CleanField(fields[i], parse)
    case String(s) => Tried(s, json, parse)
    case _ => true
  }

  ghost predicate CleanField(field: Field, parse: Parse)
    decreases field, 2
  {
    (IsOpaque(field.key) && !field.value.String?) || Clean(field.value, parse)
  }

  /** Every key in snake case, opaque values as they are. */
  function Snaked(json: Json): Json
    decreases json, 1
  {
    match json
    case Object(fields) => Object(SnakedFields(fields))
    case Array(items) => Array(SnakedItems(items))
    case _ => json
  }

  function SnakedItems(items: seq<Json>): seq<Json>
    decreases items, 0
  {
    if items == [] then [] else SnakedItems(items[..|items| - 1]) + [Snaked(items[|items| - 1])]
  }

  function SnakedField(field: Field): Field
    decreases field, 2
  {
    var key := ToSnake(field.key);
    Field(key, if IsOpaque(key) then field.value else Snaked(field.value))
  }

  function SnakedFields(fields: seq<Field>): seq<Field>
    decreases fields, 0
  {
    if fields == [] then [] else SnakedFields(fields[..|fields| - 1]) + [SnakedField(fields[|fields| - 1])]
  }

  lemma {:induction false} SnakedFieldsAt(fields: seq<Field>)
    ensures |SnakedFields(fields)| == |fields|
    ensures forall i :: 0 <= i < |fields| ==> SnakedFields(fields)[i] == SnakedField(fields[i])
  {
    hide SnakedField;
    if fields == [] {
    } else {
      SnakedFieldsAt(fields[..|fields| - 1]);
    }
  }

  lemma {:induction false} SnakedItemsAt(items: seq<Json>)
    ensures |SnakedItems(items)| == |items|
    ensures forall i :: 0 <= i < |items| ==> SnakedItems(items)[i] == Snaked(items[i])
  {
    hide Snaked;
    if items == [] {
    } else {
      SnakedItemsAt(items[..|items| - 1]);
    }
  }

  /** What is kept of a clean record is all of it: snake-casing the keys of the result gives the record back. */
  lemma {:induction false} KeptRestores(record: Json, result: seq<Field>, parse: Parse)
    requires record.Object? && Kept(record, result, parse) && Clean(record, parse)
    ensures Snaked(Object(result)) == record
    decreases record, 1
  {
    hide SnakedField, KeptValue, ToCamel, ToSnake, CleanField;
    var fields := record.fields;
    SnakedFieldsAt(result);
    forall i | 0 <= i < |fields| ensures SnakedField(result[i]) == fields[i] {
      assert CleanField(fields[i], parse);
      KeptFieldRestores(fields[i], result[i], parse);
    }
    assert SnakedFields(result) == fields;
  }

  lemma {:induction false} KeptFieldRestores(field: Field, result: Field, parse: Parse)
    requires CleanField(field, parse) && ToSnake(result.key) == field.key && KeptValue(field.key, field.value, result.value, parse)
    ensures SnakedField(result) == field
    decreases field, 2
  {
    hide ToSnake, Tried, Kept, KeptItem, Clean, SnakedFields, SnakedItems, IsOpaque;
    if field.value.String? {
      StringStays(field.value, result.value, parse);
    } else if !IsOpaque(field.key) {
      match field.value
      case Array(items) => CleanItems(items, parse); KeptItemsRestore(items, result.value.items, parse);
      case Object(_) => KeptRestores(field.value, result.value.fields, parse);
      case _ =>
    }
  }

  lemma StringStays(value: Json, result: Json, parse: Parse)
    requires value.String? && Clean(value, parse) && Tried(value.s, result, parse)
    ensures result == value && Snaked(value) == value
  {
  }

  lemma CleanItems(items: seq<Json>, parse: Parse)
    requires Clean(Array(items), parse)
    ensures forall i :: 0 <= i < |items| ==> !items[i].Array? && (items[i].String? || Clean(items[i], parse))
  {
  }

  lemma {:induction false} KeptItemsRestore(items: seq<Json>, result: seq<Json>, parse: Parse)
    requires |result| == |items| && forall i :: 0 <= i < |items| ==> KeptItem(items[i], result[i], parse)
    requires forall i :: 0 <= i < |items| ==> !items[i].Array? && (items[i].String? || Clean(items[i], parse))
    ensures SnakedItems(result) == items
    decreases items, 1
  {
    hide Kept, Clean, SnakedFields, SnakedItems;
    SnakedItemsAt(result);
    forall i | 0 <= i < |items| ensures Snaked(result[i]) == items[i] {
      assert KeptItem(items[i], result[i], parse);
      if items[i].Object? { KeptRestores(items[i], result[i].fields, parse); }
    }
  }

  /** A clean record with plain keys comes back whole, at every depth. */
  lemma Restores(record: Json, parse: Parse)
    requires record.Object? && PlainKeys(record) && Clean(record, parse)
    ensures Snaked(Object(Camelized(record, parse))) == record
  {
    hide PlainKeys, Clean, Camelized, Kept;
    NothingLost(record, parse);
    KeptRestores(record, Camelized(record, parse), parse);
  }

  // ----- an array in an array

  /** Every array directly in an array turns into a record under its indices: no list any more, but nothing lost. */
  lemma ArrayInArray(key: string, items: seq<Json>, i: nat, parse: Parse)
    requires key !in OPAQUE_KEYS && i < |items| && items[i].Array?
    ensures ValueOf(key, Array(items), parse).Array? && |ValueOf(key, Array(items), parse).items| == |items|
    ensures ValueOf(key, Array(items), parse).items[i] == Object(Plainly(items[i], |items[i].items|, parse))
    ensures forall k :: 0 <= k < |items[i].items| ==> Plainly(items[i], |items[i].items|, parse)[k].key == Decimal(k)
  {
    hide Camelized, ToCamel, Decimal;
    var record := items[i];
    ItemsAt(items, parse);
    forall k | 0 <= k < |record.items| ensures CamelKey(record, k) == Decimal(k) {
      IndexStays(k);
    }
    forall k, l | 0 <= k < l < |record.items| ensures CamelKey(record, k) != CamelKey(record, l) {
      if Decimal(k) == Decimal(l) { DecimalInjective(k, l); }
    }
    MergesIffCollide(record, parse);
  }

  lemma {:induction false} ItemsAt(items: seq<Json>, parse: Parse)
    ensures |Items(items, parse)| == |items|
    ensures forall i :: 0 <= i < |items| ==> Items(items, parse)[i] == if IsRecord(items[i]) then Object(Camelized(items[i], parse)) else items[i]
  {
    hide Camelized, Items;
    if items == [] {
      NoItems(parse);
    } else {
      var rest, last := items[..|items| - 1], items[|items| - 1];
      assert items == rest + [last];
      ItemsAt(rest, parse);
      ItemsLast(rest, last, parse);
    }
  }

  lemma IndexHasNoUpper(n: nat)
    ensures NoUpper(Decimal(n))
  {
    DecimalDigits(n);
    var s := Decimal(n);
    forall i | 0 <= i < |s| ensures !IsUpper(s[i]) {
      assert s[i] in s && IsDigit(s[i]);
    }
  }

  lemma IndexStays(n: nat)
    ensures ToCamel(Decimal(n)) == Decimal(n)
  {
    DecimalDigits(n);
    DigitsStay(Decimal(n));
  }

  lemma {:induction false} DigitsStay(s: string)
    requires AllDigits(s)
    ensures ToCamel(s) == s
  {
    if s == [] {
    } else {
      assert s[0] in s && IsDigit(s[0]);
      DigitsStay(s[1..]);
    }
  }
}
