/**
 * The generator of the API's dataclasses (scripts/gen-dataclass.py).
 *
 * Each definition of the Swagger document becomes the text of one Python
 * dataclass, and the classes are then put in an order in which every class
 * comes after the classes its fields refer to. Fetching the document and
 * writing the module file are left out; the definitions enter as JSON.
 */
module DataclassGen {
  import opened Wrappers
  import opened Dicts
  import opened Text
  import opened Json

  // ---- one dataclass per definition ----

  /** The Python type written for each Swagger primitive type. */
  const FieldTypesMap: map<string, string> := map[
    "array" := "list",
    "boolean" := "bool",
    "integer" := "int",
    "number" := "float",
    "object" := "object",
    "string" := "str"
  ]

  const DefinitionsPrefix := "#/definitions/V3."

  datatype GenError =
    | MissingKey(key: string)          // a `KeyError` on the schema
    | AssertionFailed(message: string) // one of the generator's assertions
    | NoSuchType(typeName: Json)       // the type is not in the type map
    | BadRef(ref: Json)                // a `$ref` that is not text or lacks the definitions prefix
    | NotText(value: Json)             // a description that is not text
    | NotObject(value: Json)           // properties that are not an object
    | BadClassName(name: string)       // a definition name without a `.`
    | MissingDependency(dependency: string) // a field refers to a dataclass no definition produces

  /** `get_dataclass_name` */
  function DataclassName(className: string): (r: string)
    ensures StartsWith(r, "V3") && r[2..] == className
  {
    "V3" + className
  }

  /** `schema[key]` */
  function Lookup(schema: Json, key: string): (r: Result<Json, GenError>)
    ensures r.Success? <==> Member(schema, key).Some?
    ensures r.Success? ==> r.value == Member(schema, key).value
    ensures r.Failure? ==> r.error == MissingKey(key)
  {
    match Member(schema, key)
    case None => Failure(MissingKey(key))
    case Some(v) => Success(v)
  }

  /** `FIELD_TYPES_MAP[t]` */
  function MapType(t: Json): (r: Result<string, GenError>)
    ensures r.Success? <==> t.Str? && t.s in FieldTypesMap
    ensures r.Success? ==> r.value == FieldTypesMap[t.s]
  {
    if t.Str? && t.s in FieldTypesMap then Success(FieldTypesMap[t.s]) else Failure(NoSuchType(t))
  }

  /** The dataclass a `$ref` names: what follows the first `#/definitions/V3.`, prefixed with `V3`. */
  function RefClass(ref: Json): (r: Result<string, GenError>)
    ensures r.Success? <==> ref.Str? && AfterFirst(ref.s, DefinitionsPrefix).Some?
    ensures r.Success? ==> r.value == DataclassName(AfterFirst(ref.s, DefinitionsPrefix).value)
  {
    if !ref.Str? then Failure(BadRef(ref))
    else
      match AfterFirst(ref.s, DefinitionsPrefix)
      case None => Failure(BadRef(ref))
      case Some(rest) => Success(DataclassName(rest))
  }

  /** A type written for a field that names no other dataclass. */
  predicate BuiltinType(t: string) {
    (exists k :: k in FieldTypesMap && FieldTypesMap[k] == t) ||
    (exists k :: k in FieldTypesMap && "list[" + FieldTypesMap[k] + "]" == t)
  }

  /**
   * The type of one property and the dataclass it depends on, if any: an
   * `object` takes the type of its `additionalProperties`, an `array` becomes
   * `list[...]` of a primitive item type or the dataclass of its item `$ref`,
   * a primitive maps through the type map, and a bare `$ref` names a dataclass.
   */
  function FieldType(propName: string, prop: Json): (r: Result<(string, Option<string>), GenError>)
    ensures r.Success? && r.value.1.Some? ==> r.value.0 == r.value.1.value && StartsWith(r.value.0, "V3")
    ensures r.Success? && r.value.1.None? ==> BuiltinType(r.value.0)
  {
    match Member(prop, "type")
    case Some(t) =>
      if t == Str("object") then
        match Member(prop, "additionalProperties")
        case None => Failure(AssertionFailed("Missing additionalProperties for " + propName))
        case Some(extra) =>
          if Member(extra, "$ref").Some? then
            var c :- RefClass(Member(extra, "$ref").value);
            Success((c, Some(c)))
          else if Member(extra, "type").None? then
            Failure(AssertionFailed("Missing type for " + propName))
          else
            var f :- MapType(Member(extra, "type").value);
            Success((f, None))
      else if t == Str("array") then
        var items :- Lookup(prop, "items");
        if Member(items, "type").Some? then
          var inner :- MapType(Member(items, "type").value);
          Success(("list[" + inner + "]", None))
        else
          var ref :- Lookup(items, "$ref");
          var c :- RefClass(ref);
          Success((c, Some(c)))
      else
        var f :- MapType(t);
        Success((f, None))
    case None =>
      var ref :- Lookup(prop, "$ref");
      var c :- RefClass(ref);
      Success((c, Some(c)))
  }

  /**
   * A reference to a definition becomes a field of that dataclass and a
   * dependency on it, for any property: a bare `$ref`, an `array` whose items
   * are a `$ref`, or an `object` whose `additionalProperties` are a `$ref`.
   * Whatever else the property holds (a format, a description) plays no part.
   */
  lemma RefField(propName: string, prop: Json, name: string)
    ensures Member(prop, "type").None? && Member(prop, "$ref") == Some(Str(DefinitionsPrefix + name)) ==>
      FieldType(propName, prop) == Success(("V3" + name, Some("V3" + name)))
    ensures Member(prop, "type") == Some(Str("array")) && Member(prop, "items").Some? &&
            Member(Member(prop, "items").value, "type").None? &&
            Member(Member(prop, "items").value, "$ref") == Some(Str(DefinitionsPrefix + name)) ==>
      FieldType(propName, prop) == Success(("V3" + name, Some("V3" + name)))
    ensures Member(prop, "type") == Some(Str("object")) && Member(prop, "additionalProperties").Some? &&
            Member(Member(prop, "additionalProperties").value, "$ref") == Some(Str(DefinitionsPrefix + name)) ==>
      FieldType(propName, prop) == Success(("V3" + name, Some("V3" + name)))
  {
    AfterFirstOfPrefixed(DefinitionsPrefix, name);
  }

  /**
   * For any property whose `type` is a primitive `t`, the field has the mapped
   * Python type; an `array` whose items have type `t` becomes `list[...]` of
   * it, and an `object` whose `additionalProperties` have type `t` (and no
   * `$ref`) takes the mapped type itself. None of these is a dependency.
   */
  lemma PrimitiveField(propName: string, prop: Json, t: string)
    requires t in FieldTypesMap
    ensures t != "object" && t != "array" && Member(prop, "type") == Some(Str(t)) ==>
      FieldType(propName, prop) == Success((FieldTypesMap[t], None))
    ensures Member(prop, "type") == Some(Str("array")) && Member(prop, "items").Some? &&
            Member(Member(prop, "items").value, "type") == Some(Str(t)) ==>
      FieldType(propName, prop) == Success(("list[" + FieldTypesMap[t] + "]", None))
    ensures Member(prop, "type") == Some(Str("object")) && Member(prop, "additionalProperties").Some? &&
            Member(Member(prop, "additionalProperties").value, "$ref").None? &&
            Member(Member(prop, "additionalProperties").value, "type") == Some(Str(t)) ==>
      FieldType(propName, prop) == Success((FieldTypesMap[t], None))
  {
  }

  /**
   * The properties the generator refuses, with the error it stops on: an
   * `object` without `additionalProperties`, or whose `additionalProperties`
   * have neither `$ref` nor `type`; an `array` without `items`, or whose items
   * have neither `type` nor `$ref`; a type, item type or `additionalProperties`
   * type missing from the type map; and a property with neither `type` nor `$ref`.
   */
  lemma RefusedFields(propName: string, prop: Json)
    ensures Member(prop, "type") == Some(Str("object")) && Member(prop, "additionalProperties").None? ==>
      FieldType(propName, prop) == Failure(AssertionFailed("Missing additionalProperties for " + propName))
    ensures Member(prop, "type") == Some(Str("object")) && Member(prop, "additionalProperties").Some? &&
            Member(Member(prop, "additionalProperties").value, "$ref").None? &&
            Member(Member(prop, "additionalProperties").value, "type").None? ==>
      FieldType(propName, prop) == Failure(AssertionFailed("Missing type for " + propName))
    ensures Member(prop, "type") == Some(Str("array")) && Member(prop, "items").None? ==>
      FieldType(propName, prop) == Failure(MissingKey("items"))
    ensures Member(prop, "type") == Some(Str("array")) && Member(prop, "items").Some? &&
            Member(Member(prop, "items").value, "type").None? &&
            Member(Member(prop, "items").value, "$ref").None? ==>
      FieldType(propName, prop) == Failure(MissingKey("$ref"))
    ensures Member(prop, "type").Some? && Member(prop, "type").value != Str("object") &&
            Member(prop, "type").value != Str("array") && MapType(Member(prop, "type").value).Failure? ==>
      FieldType(propName, prop) == Failure(NoSuchType(Member(prop, "type").value))
    ensures Member(prop, "type") == Some(Str("array")) && Member(prop, "items").Some? &&
            Member(Member(prop, "items").value, "type").Some? &&
            MapType(Member(Member(prop, "items").value, "type").value).Failure? ==>
      FieldType(propName, prop) == Failure(NoSuchType(Member(Member(prop, "items").value, "type").value))
    ensures Member(prop, "type") == Some(Str("object")) && Member(prop, "additionalProperties").Some? &&
            Member(Member(prop, "additionalProperties").value, "$ref").None? &&
            Member(Member(prop, "additionalProperties").value, "type").Some? &&
            MapType(Member(Member(prop, "additionalProperties").value, "type").value).Failure? ==>
      FieldType(propName, prop) == Failure(NoSuchType(Member(Member(prop, "additionalProperties").value, "type").value))
    ensures Member(prop, "type").None? && Member(prop, "$ref").None? ==>
      FieldType(propName, prop) == Failure(MissingKey("$ref"))
  {
  }

  /** `text.replace("\n", "\n    ")`: every line after the first indented by four spaces. */
  function Indent(text: string): string {
    ReplaceChar(text, '\n', "\n    ")
  }

  /** Undoes `Indent`: drops the four spaces after each line break. */
  function Dedent(text: string): string {
    if text == [] then []
    else if StartsWith(text, "\n    ") then "\n" + Dedent(text[5..])
    else [text[0]] + Dedent(text[1..])
  }

  lemma {:induction false} DedentIndent(text: string)
    ensures Dedent(Indent(text)) == text
  {
    if text != [] {
      var rest := Indent(text[1..]);
      DedentIndent(text[1..]);
      if text[0] == '\n' {
        assert Indent(text) == "\n    " + rest;
        assert Indent(text)[5..] == rest;
      } else {
        assert Indent(text) == [text[0]] + rest;
        assert Indent(text)[1..] == rest;
      }
    }
  }

  /** `schema.get("description", "")`, which must be text. */
  function Description(schema: Json): (r: Result<string, GenError>)
    ensures Member(schema, "description").None? ==> r == Success("")
    ensures r.Success? && Member(schema, "description").Some? ==> Member(schema, "description").value == Str(r.value)
  {
    match Member(schema, "description")
    case None => Success("")
    case Some(Str(s)) => Success(s)
    case Some(other) => Failure(NotText(other))
  }

  /** The text of one field: its declaration and its indented docstring. */
  function FieldText(propName: string, fieldType: string, description: string): string {
    "    " + propName + ": " + fieldType + "\n    \"\"\"\n    " + Indent(description) + "\n    \"\"\""
  }

  /** One property: its field text and the dataclass it depends on, if any. */
  function Field(propName: string, prop: Json): Result<(string, Option<string>), GenError> {
    var ft :- FieldType(propName, prop);
    var description :- Description(prop);
    Success((FieldText(propName, ft.0, description), ft.1))
  }

  function DepSet(dep: Option<string>): set<string> {
    if dep.Some? then {dep.value} else {}
  }

  /** What `Field` makes of each property, position by position. */
  function FieldResults(props: Entries<string, Json>): (rs: seq<Result<(string, Option<string>), GenError>>)
    ensures |rs| == |props| && forall i :: 0 <= i < |props| ==> rs[i] == Field(props[i].0, props[i].1)
  {
    seq(|props|, i requires 0 <= i < |props| => Field(props[i].0, props[i].1))
  }

  /**
   * The loop over the properties, in order, stopping at the first error: the
   * field texts and the dependencies collected from the per-property results.
   */
  function Fields(results: seq<Result<(string, Option<string>), GenError>>): Result<(seq<string>, set<string>), GenError>
    decreases |results|
  {
    if results == [] then Success(([], {}))
    else
      var acc :- Fields(results[..|results| - 1]);
      var field :- results[|results| - 1];
      Success((acc.0 + [field.0], acc.1 + DepSet(field.1)))
  }

  lemma {:induction false} FieldsFailurePersists(results: seq<Result<(string, Option<string>), GenError>>, i: nat)
    requires i <= |results| && Fields(results[..i]).Failure?
    ensures Fields(results) == Fields(results[..i])
    decreases |results|
  {
    if i < |results| {
      var init := results[..|results| - 1];
      assert init[..i] == results[..i];
      FieldsFailurePersists(init, i);
    } else {
      assert results[..i] == results;
    }
  }

  /** The properties are all turned into fields or none is; the error is the first property's error. */
  lemma {:induction false} FieldsSucceed(results: seq<Result<(string, Option<string>), GenError>>)
    ensures Fields(results).Success? <==> forall i :: 0 <= i < |results| ==> results[i].Success?
    ensures Fields(results).Failure? ==>
      exists i :: 0 <= i < |results| && results[i] == Failure(Fields(results).error) &&
        forall j :: 0 <= j < i ==> results[j].Success?
    decreases |results|
  {
    if results != [] {
      var init := results[..|results| - 1];
      FieldsSucceed(init);
      assert forall i :: 0 <= i < |init| ==> init[i] == results[i];
    }
  }

  /** On success there is one field text per property, in property order. */
  lemma {:induction false} FieldsInOrder(results: seq<Result<(string, Option<string>), GenError>>)
    requires Fields(results).Success?
    ensures |Fields(results).value.0| == |results|
    ensures forall i :: 0 <= i < |results| ==>
      results[i].Success? && Fields(results).value.0[i] == results[i].value.0
    decreases |results|
  {
    if results != [] {
      var init := results[..|results| - 1];
      FieldsInOrder(init);
      assert forall i :: 0 <= i < |init| ==> init[i] == results[i];
    }
  }

  /** On success the dependencies are exactly the dataclasses the properties refer to. */
  lemma {:induction false} FieldsDependencies(results: seq<Result<(string, Option<string>), GenError>>, d: string)
    requires Fields(results).Success?
    ensures d in Fields(results).value.1 <==>
      exists i :: 0 <= i < |results| && results[i].Success? && results[i].value.1 == Some(d)
    decreases |results|
  {
    if results != [] {
      var init := results[..|results| - 1];
      FieldsDependencies(init, d);
      assert forall i :: 0 <= i < |init| ==> init[i] == results[i];
    }
  }

  /** The dataclass text for one definition, with its dependencies. */
  function Dataclass(className: string, schema: Json): Result<(string, set<string>), GenError> {
    var props :- Lookup(schema, "properties");
    if !props.Obj? then Failure(NotObject(props))
    else
      var fields :- Fields(FieldResults(props.entries));
      var classDescription :- Description(schema);
      var signature := if |fields.0| > 0 then Join("\n", fields.0) else "    pass";
      Success((ClassHeader(className, classDescription) + signature, fields.1))
  }

  /** `@dataclass` and the class line. */
  function ClassOpening(className: string): string {
    "@dataclass\nclass " + className + ":\n"
  }

  /** The class docstring, indented, without its closing line break. */
  function ClassDocstring(description: string): string {
    "    \"\"\"\n    " + Indent(description) + "\n    \"\"\""
  }

  /** `@dataclass`, the class line, and the indented class docstring. */
  function ClassHeader(className: string, description: string): string {
    ClassOpening(className) + ClassDocstring(description) + "\n"
  }

  /**
   * A generated dataclass opens with its header and has a body of `pass` when
   * the definition has no properties; otherwise its text ends with the last
   * property's field.
   */
  lemma DataclassShape(className: string, schema: Json)
    requires Dataclass(className, schema).Success?
    ensures var props := Member(schema, "properties").value;
      var code := Dataclass(className, schema).value.0;
      && props.Obj?
      && StartsWith(code, "@dataclass\nclass " + className + ":\n")
      && (props.entries == [] ==> EndsWith(code, "\n    pass"))
      && (props.entries != [] ==>
            var last := props.entries[|props.entries| - 1];
            EndsWith(code, Field(last.0, last.1).value.0))
  {
    DataclassCode(className, schema);
    var props := Member(schema, "properties").value;
    var results := FieldResults(props.entries);
    var fields := Fields(results).value.0;
    FieldsInOrder(results);
    ClassTextShape(className, Description(schema).value, fields);
    if fields != [] {
      assert fields[|fields| - 1] == results[|results| - 1].value.0;
    }
  }

  /** The class text, laid out as header and field signature. */
  lemma DataclassCode(className: string, schema: Json)
    requires Dataclass(className, schema).Success?
    ensures Member(schema, "properties").Some? && Member(schema, "properties").value.Obj?
    ensures var props := Member(schema, "properties").value;
      && Fields(FieldResults(props.entries)).Success? && Description(schema).Success?
      && var fields := Fields(FieldResults(props.entries)).value.0;
         Dataclass(className, schema).value.0 ==
           ClassHeader(className, Description(schema).value) + (if |fields| > 0 then Join("\n", fields) else "    pass")
  {
  }

  /** Header then `pass`, or header then the fields joined by line breaks. */
  lemma ClassTextShape(className: string, description: string, fields: seq<string>)
    ensures var code := ClassHeader(className, description) + (if |fields| > 0 then Join("\n", fields) else "    pass");
      && StartsWith(code, "@dataclass\nclass " + className + ":\n")
      && (fields == [] ==> EndsWith(code, "\n    pass"))
      && (fields != [] ==> EndsWith(code, fields[|fields| - 1]))
  {
    var header := ClassHeader(className, description);
    var signature := if |fields| > 0 then Join("\n", fields) else "    pass";
    var opening := ClassOpening(className);
    var front := opening + ClassDocstring(description);
    PrefixOfConcat(opening, ClassDocstring(description), opening);
    PrefixOfConcat(front, "\n", opening);
    PrefixOfConcat(header, signature, opening);
    if fields == [] {
      EmptyClassEnds(className, description);
    } else {
      JoinEndsWithLast("\n", fields);
      SuffixOfConcat(header, signature, fields[|fields| - 1]);
    }
  }

  /** A class with no fields ends with a `pass` line. */
  lemma EmptyClassEnds(className: string, description: string)
    ensures EndsWith(ClassHeader(className, description) + "    pass", "\n    pass")
  {
    EndsWithBreakThen(ClassOpening(className) + ClassDocstring(description), "    pass");
    assert "\n" + "    pass" == "\n    pass";
  }

  /** `generate_dataclass`: the loop over the properties, then the class text. */
  method GenerateDataclass(className: string, schema: Json) returns (r: Result<(string, set<string>), GenError>)
    ensures r == Dataclass(className, schema)
  {
    var props := Lookup(schema, "properties");
    if props.Failure? {
      return Failure(props.error);
    }
    if !props.value.Obj? {
      return Failure(NotObject(props.value));
    }
    var entries := props.value.entries;
    ghost var results := FieldResults(entries);
    var fields: seq<string> := [];
    var classDependencies: set<string> := {};
    for i := 0 to |entries|
      invariant Fields(results[..i]) == Success((fields, classDependencies))
    {
      assert results[..i + 1][..i] == results[..i];
      var field := Field(entries[i].0, entries[i].1);
      if field.Failure? {
        FieldsFailurePersists(results, i + 1);
        return Failure(field.error);
      }
      fields := fields + [field.value.0];
      classDependencies := classDependencies + DepSet(field.value.1);
    }
    assert results[..|entries|] == results;
    var classDescription := Description(schema);
    if classDescription.Failure? {
      return Failure(classDescription.error);
    }
    var signature := if |fields| > 0 then Join("\n", fields) else "    pass";
    return Success((ClassHeader(className, classDescription.value) + signature, classDependencies));
  }

  // ---- dependency ordering ----

  /** The dependency map: each dataclass name with the dataclass names its fields refer to. */
  type DependencyMap = Entries<string, set<string>>

  /** The dependencies recorded for a class (none for a name that is not a key). */
  function DepsOf(deps: DependencyMap, c: string): set<string> {
    match Get(deps, c)
    case None => {}
    case Some(ds) => ds
  }

  /** Every dependency is itself a key of the map. */
  predicate Closed(deps: DependencyMap) {
    forall j, d :: 0 <= j < |deps| && d in deps[j].1 ==> d in Keys(deps)
  }

  /** Every dependency of the first `n` classes is a key of the map. */
  predicate ClosedBefore(deps: DependencyMap, n: int) {
    forall j, d :: 0 <= j < n && j < |deps| && d in deps[j].1 ==> d in Keys(deps)
  }

  /**
   * The dependency graph is acyclic, witnessed by a ranking in which every
   * class ranks above each of its dependencies.
   */
  ghost predicate Ranked(deps: DependencyMap, rank: map<string, nat>) {
    forall j :: 0 <= j < |deps| ==>
      deps[j].0 in rank && forall d :: d in deps[j].1 ==> d in rank && rank[d] < rank[deps[j].0]
  }

  /** The total number of dependencies still recorded. */
  function TotalSize(deps: DependencyMap): nat {
    if deps == [] then 0 else |deps[0].1| + TotalSize(deps[1..])
  }

  lemma {:induction false} TotalSizeUpdate(deps: DependencyMap, i: nat, ds: set<string>)
    requires i < |deps|
    ensures TotalSize(deps[i := (deps[i].0, ds)]) == TotalSize(deps) - |deps[i].1| + |ds|
  {
    if i > 0 {
      assert deps[i := (deps[i].0, ds)][1..] == deps[1..][i - 1 := (deps[i].0, ds)];
      TotalSizeUpdate(deps[1..], i - 1, ds);
    } else {
      assert deps[i := (deps[i].0, ds)][1..] == deps[1..];
    }
  }

  /**
   * Over an acyclic, closed map, if some class is not yet placed then some
   * unplaced class has all its dependencies placed.
   */
  lemma ReadyClass(deps: DependencyMap, rank: map<string, nat>, placed: set<string>, c: nat) returns (m: nat)
    requires Closed(deps) && Ranked(deps, rank)
    requires c < |deps| && deps[c].0 !in placed
    ensures m < |deps| && deps[m].0 !in placed && deps[m].1 <= placed
    decreases rank[deps[c].0]
  {
    if deps[c].1 <= placed {
      return c;
    }
    var d :| d in deps[c].1 && d !in placed;
    assert d in Keys(deps);
    var j :| 0 <= j < |deps| && deps[j].0 == d;
    m := ReadyClass(deps, rank, placed, j);
  }

  /**
   * `order` lists every class of the map exactly once, and no class comes
   * before (or is) one of its own dependencies.
   */
  ghost predicate DependencyOrder(deps: DependencyMap, order: seq<string>) {
    && |order| == |deps| && Distinct(order)
    && (forall x :: x in order <==> x in Keys(deps))
    && (forall j, k :: 0 <= j < |order| && 0 <= k < |order| && order[j] in DepsOf(deps, order[k]) ==> j < k)
  }

  /** In such an order over a closed map, each dependency of a class appears earlier in the order. */
  lemma DependenciesComeFirst(deps: DependencyMap, order: seq<string>, k: nat, d: string)
    requires DistinctKeys(deps) && Closed(deps) && DependencyOrder(deps, order)
    requires k < |order| && d in DepsOf(deps, order[k])
    ensures exists j :: 0 <= j < k && order[j] == d
  {
    assert order[k] in Keys(deps);
    var i :| 0 <= i < |deps| && deps[i].0 == order[k];
    GetAt(deps, i);
    assert d in Keys(deps);
    var j :| 0 <= j < |order| && order[j] == d;
  }

  /** A class that depends on itself admits no ranking, so the ordering requirement rules out such cycles. */
  lemma SelfDependencyUnranked(deps: DependencyMap, rank: map<string, nat>, j: nat)
    requires j < |deps| && deps[j].0 in deps[j].1
    ensures !Ranked(deps, rank)
  {
  }

  /** The state of the ordering loop, between any two steps. */
  ghost predicate Ordering(deps: DependencyMap, depsMap: DependencyMap, ordered: seq<string>, orderedSet: set<string>) {
    && |depsMap| == |deps|
    && (forall j :: 0 <= j < |deps| ==>
          depsMap[j].0 == deps[j].0 && depsMap[j].1 <= deps[j].1 && deps[j].1 - depsMap[j].1 <= orderedSet)
    && (forall x :: x in orderedSet <==> x in ordered)
    && Distinct(ordered) && |orderedSet| == |ordered|
    && (forall x :: x in orderedSet ==> x in Keys(deps))
    && (forall k :: 0 <= k < |ordered| ==> DepsOf(deps, ordered[k]) <= orderedSet)
    && (forall j, k :: 0 <= j < |ordered| && 0 <= k < |ordered| && ordered[j] in DepsOf(deps, ordered[k]) ==> j < k)
  }

  /** Placing a class whose dependencies are all placed keeps the ordering state. */
  lemma PlaceClass(deps: DependencyMap, depsMap: DependencyMap, ordered: seq<string>, orderedSet: set<string>, i: nat)
    requires DistinctKeys(deps) && Ordering(deps, depsMap, ordered, orderedSet)
    requires i < |deps| && deps[i].0 !in orderedSet && depsMap[i].1 == {}
    ensures Ordering(deps, depsMap, ordered + [deps[i].0], orderedSet + {deps[i].0})
  {
    var name := deps[i].0;
    GetAt(deps, i);
    assert DepsOf(deps, name) == deps[i].1 <= orderedSet;
    var ordered' := ordered + [name];
    forall j, k | 0 <= j < |ordered'| && 0 <= k < |ordered'| && ordered'[j] in DepsOf(deps, ordered'[k])
      ensures j < k
    {
      if k < |ordered| {
        assert ordered'[k] == ordered[k];
        assert ordered'[j] in orderedSet;
      } else {
        assert ordered'[j] in orderedSet;
      }
    }
  }

  /** Dropping placed dependencies keeps the ordering state, and takes out exactly the placed ones. */
  lemma DropPlaced(deps: DependencyMap, depsMap: DependencyMap, ordered: seq<string>, orderedSet: set<string>, i: nat)
    requires Ordering(deps, depsMap, ordered, orderedSet) && i < |deps|
    ensures Ordering(deps, depsMap[i := (depsMap[i].0, depsMap[i].1 - Elems(ordered))], ordered, orderedSet)
    ensures deps[i].1 <= orderedSet ==> depsMap[i].1 - Elems(ordered) == {}
  {
  }

  /** A subset at least as large as a finite set is that set. */
  lemma SubsetOfSameSize<T>(a: set<T>, b: set<T>)
    requires a <= b && |a| >= |b|
    ensures a == b
  {
    if a != b {
      var x :| x in b && x !in a;
      assert a <= b - {x};
      SubsetSize(a, b - {x});
    }
  }

  lemma {:induction false} SubsetSize<T>(a: set<T>, b: set<T>)
    requires a <= b
    ensures |a| <= |b|
    decreases |b|
  {
    if a != {} {
      var x :| x in a;
      SubsetSize(a - {x}, b - {x});
    }
  }

  /** A sequence without repetitions has as many distinct elements as positions. */
  lemma {:induction false} DistinctSize<T>(s: seq<T>)
    requires Distinct(s)
    ensures |Elems(s)| == |s|
  {
    if s != [] {
      var init := s[..|s| - 1];
      DistinctPrefix(s, |s| - 1);
      DistinctSize(init);
      assert Elems(s) == Elems(init) + {s[|s| - 1]};
    }
  }

  /** While fewer classes are placed than there are keys, some key is unplaced. */
  lemma UnplacedClass(deps: DependencyMap, placed: set<string>) returns (c: nat)
    requires DistinctKeys(deps) && |placed| < |deps|
    ensures c < |deps| && deps[c].0 !in placed
  {
    if forall j :: 0 <= j < |deps| ==> deps[j].0 in placed {
      DistinctSize(Keys(deps));
      SubsetSize(Elems(Keys(deps)), placed);
      assert false;
    }
    c :| 0 <= c < |deps| && deps[c].0 !in placed;
  }

  /**
   * One pass of the ordering loop over the map in order: a class already
   * ordered is skipped, a class with no recorded dependencies is appended,
   * and any other class has the ordered classes dropped from its
   * dependencies. Over an acyclic, closed map every pass that starts with a
   * class unordered either orders a class or drops a dependency.
   */
  method OrderingPass(deps: DependencyMap, ghost rank: map<string, nat>,
                      depsMap0: DependencyMap, ordered0: seq<string>, orderedSet0: set<string>)
    returns (depsMap: DependencyMap, ordered: seq<string>, orderedSet: set<string>)
    requires DistinctKeys(deps) && Closed(deps) && Ranked(deps, rank)
    requires Ordering(deps, depsMap0, ordered0, orderedSet0) && |orderedSet0| < |deps|
    ensures Ordering(deps, depsMap, ordered, orderedSet)
    ensures |orderedSet| > |orderedSet0| || (orderedSet == orderedSet0 && TotalSize(depsMap) < TotalSize(depsMap0))
  {
    depsMap, ordered, orderedSet := depsMap0, ordered0, orderedSet0;
    ghost var c := UnplacedClass(deps, orderedSet0);
    ghost var m := ReadyClass(deps, rank, orderedSet0, c);
    for i := 0 to |depsMap|
      invariant Ordering(deps, depsMap, ordered, orderedSet)
      invariant orderedSet0 <= orderedSet
      invariant orderedSet == orderedSet0 || |orderedSet| > |orderedSet0|
      invariant TotalSize(depsMap) <= TotalSize(depsMap0)
      invariant i > m ==> |orderedSet| > |orderedSet0| || TotalSize(depsMap) < TotalSize(depsMap0)
    {
      var className := depsMap[i].0;
      var dependencies := depsMap[i].1;
      if className in orderedSet {
        continue;
      }
      if |dependencies| == 0 {
        PlaceClass(deps, depsMap, ordered, orderedSet, i);
        ordered := ordered + [className];
        orderedSet := orderedSet + {className};
      } else {
        DropPlaced(deps, depsMap, ordered, orderedSet, i);
        TotalSizeUpdate(depsMap, i, dependencies - Elems(ordered));
        depsMap := depsMap[i := (className, dependencies - Elems(ordered))];
      }
    }
  }

  /**
   * The ordering loop (scripts/gen-dataclass.py, the `while` after the
   * dependency check): passes over the map until every class is ordered.
   * Over an acyclic, closed map it ends with every class exactly once, none
   * before one of its dependencies.
   */
  method OrderClasses(deps: DependencyMap, ghost rank: map<string, nat>) returns (ordered: seq<string>)
    requires DistinctKeys(deps) && Closed(deps) && Ranked(deps, rank)
    ensures DependencyOrder(deps, ordered)
  {
    var depsMap := deps;
    ordered := [];
    var orderedSet: set<string> := {};
    while |depsMap| > |orderedSet|
      invariant Ordering(deps, depsMap, ordered, orderedSet)
      decreases |deps| - |orderedSet|, TotalSize(depsMap)
    {
      depsMap, ordered, orderedSet := OrderingPass(deps, rank, depsMap, ordered, orderedSet);
    }
    DistinctSize(Keys(deps));
    SubsetOfSameSize(orderedSet, Elems(Keys(deps)));
  }

  // ---- the script's main steps ----

  /** `get_dataclass_name(class_name.split('.', 1)[1])` */
  function ClassNameOf(definitionName: string): (r: Result<string, GenError>)
    ensures r.Success? <==> '.' in definitionName
    ensures r.Success? ==>
      exists i :: 0 <= i < |definitionName| && definitionName[i] == '.' &&
        '.' !in definitionName[..i] && r.value == "V3" + definitionName[i + 1..]
  {
    AfterFirstChar(definitionName, '.');
    match AfterFirst(definitionName, ".")
    case None => Failure(BadClassName(definitionName))
    case Some(rest) => Success(DataclassName(rest))
  }

  /** What one definition yields: its dataclass name, code and dependencies. */
  function ClassResult(definition: (string, Json)): Result<(string, (string, set<string>)), GenError> {
    var name :- ClassNameOf(definition.0);
    var generated :- Dataclass(name, definition.1);
    Success((name, generated))
  }

  function ClassResults(defs: Entries<string, Json>): (rs: seq<Result<(string, (string, set<string>)), GenError>>)
    ensures |rs| == |defs| && forall i :: 0 <= i < |defs| ==> rs[i] == ClassResult(defs[i])
  {
    seq(|defs|, i requires 0 <= i < |defs| => ClassResult(defs[i]))
  }

  /**
   * The loop over the definitions, in order, stopping at the first error:
   * generated code and dependencies, each stored under the dataclass name.
   */
  function Classes(results: seq<Result<(string, (string, set<string>)), GenError>>): Result<(Entries<string, string>, DependencyMap), GenError>
    decreases |results|
  {
    if results == [] then Success(([], []))
    else
      var acc :- Classes(results[..|results| - 1]);
      var one :- results[|results| - 1];
      Success((Assign(acc.0, one.0, one.1.0), Assign(acc.1, one.0, one.1.1)))
  }

  lemma {:induction false} ClassesFailurePersists(results: seq<Result<(string, (string, set<string>)), GenError>>, i: nat)
    requires i <= |results| && Classes(results[..i]).Failure?
    ensures Classes(results) == Classes(results[..i])
    decreases |results|
  {
    if i < |results| {
      var init := results[..|results| - 1];
      assert init[..i] == results[..i];
      ClassesFailurePersists(init, i);
    } else {
      assert results[..i] == results;
    }
  }

  /** The code map and the dependency map have the same keys in the same order, without repetition. */
  lemma {:induction false} ClassesSameKeys(results: seq<Result<(string, (string, set<string>)), GenError>>)
    requires Classes(results).Success?
    ensures Keys(Classes(results).value.0) == Keys(Classes(results).value.1)
    ensures DistinctKeys(Classes(results).value.1)
    decreases |results|
  {
    if results != [] {
      ClassesSameKeys(results[..|results| - 1]);
    }
  }

  /** Some definition produced the dataclass name `name`. */
  predicate Produced(results: seq<Result<(string, (string, set<string>)), GenError>>, name: string) {
    exists i :: 0 <= i < |results| && results[i].Success? && results[i].value.0 == name
  }

  lemma ProducedSplit(results: seq<Result<(string, (string, set<string>)), GenError>>, name: string)
    requires results != []
    ensures var n := |results| - 1;
      Produced(results, name) <==>
        Produced(results[..n], name) || (results[n].Success? && results[n].value.0 == name)
  {
    var n := |results| - 1;
    if Produced(results, name) {
      var i :| 0 <= i < |results| && results[i].Success? && results[i].value.0 == name;
      if i < n {
        assert results[..n][i] == results[i];
      }
    }
    if Produced(results[..n], name) {
      var i :| 0 <= i < n && results[..n][i].Success? && results[..n][i].value.0 == name;
      assert results[..n][i] == results[i];
    }
  }

  /** There is one key per dataclass name produced. */
  lemma {:induction false} ClassesKeys(results: seq<Result<(string, (string, set<string>)), GenError>>, name: string)
    requires Classes(results).Success?
    ensures name in Keys(Classes(results).value.1) <==> Produced(results, name)
    decreases |results|
  {
    if results != [] {
      var n := |results| - 1;
      var init := results[..n];
      var acc := Classes(init).value;
      var one := results[n].value;
      ClassesKeys(init, name);
      ProducedSplit(results, name);
      assert Classes(results).value.1 == Assign(acc.1, one.0, one.1.1);
    }
  }

  /** No definition after the `i`-th produces the dataclass name `name`. */
  predicate NotProducedAfter(results: seq<Result<(string, (string, set<string>)), GenError>>, name: string, i: nat) {
    forall j :: i < j < |results| && results[j].Success? ==> results[j].value.0 != name
  }

  lemma NotProducedExtend(results: seq<Result<(string, (string, set<string>)), GenError>>, name: string, i: nat)
    requires results != [] && NotProducedAfter(results[..|results| - 1], name, i)
    requires results[|results| - 1].Success? ==> results[|results| - 1].value.0 != name
    ensures NotProducedAfter(results, name, i)
  {
    var n := |results| - 1;
    forall j | i < j < |results| && results[j].Success? ensures results[j].value.0 != name {
      if j < n {
        assert results[..n][j] == results[j];
      }
    }
  }

  /**
   * The code and the dependencies stored under a name come from one and the
   * same definition: the last one producing that name, since a later
   * assignment to the same key overwrites the earlier one.
   */
  lemma {:induction false} ClassesValues(results: seq<Result<(string, (string, set<string>)), GenError>>, name: string)
    requires Classes(results).Success?
    ensures var codes := Classes(results).value.0; var depMap := Classes(results).value.1;
      Get(depMap, name).Some? ==>
        Get(codes, name).Some? &&
        exists i :: 0 <= i < |results| && results[i].Success? &&
          results[i].value == (name, (Get(codes, name).value, Get(depMap, name).value)) &&
          NotProducedAfter(results, name, i)
    decreases |results|
  {
    if results != [] {
      var n := |results| - 1;
      var init := results[..n];
      var acc := Classes(init).value;
      var one := results[n].value;
      assert Classes(results).value == (Assign(acc.0, one.0, one.1.0), Assign(acc.1, one.0, one.1.1));
      GetAssign(acc.0, one.0, one.1.0, name);
      GetAssign(acc.1, one.0, one.1.1, name);
      if one.0 == name {
        assert NotProducedAfter(results, name, n);
      } else if Get(acc.1, name).Some? {
        ClassesValues(init, name);
        var i :| 0 <= i < |init| && init[i].Success? &&
          init[i].value == (name, (Get(acc.0, name).value, Get(acc.1, name).value)) &&
          NotProducedAfter(init, name, i);
        assert init[i] == results[i];
        NotProducedExtend(results, name, i);
      }
    }
  }

  /** The loop that builds the code map and the dependency map from the definitions. */
  method BuildClasses(defs: Entries<string, Json>) returns (r: Result<(Entries<string, string>, DependencyMap), GenError>)
    ensures r == Classes(ClassResults(defs))
  {
    ghost var results := ClassResults(defs);
    var generatedCodes: Entries<string, string> := [];
    var classDependenciesMap: DependencyMap := [];
    for i := 0 to |defs|
      invariant Classes(results[..i]) == Success((generatedCodes, classDependenciesMap))
    {
      assert results[..i + 1][..i] == results[..i];
      var name := ClassNameOf(defs[i].0);
      if name.Failure? {
        ClassesFailurePersists(results, i + 1);
        return Failure(name.error);
      }
      var generated := GenerateDataclass(name.value, defs[i].1);
      if generated.Failure? {
        ClassesFailurePersists(results, i + 1);
        return Failure(generated.error);
      }
      generatedCodes := Assign(generatedCodes, name.value, generated.value.0);
      classDependenciesMap := Assign(classDependenciesMap, name.value, generated.value.1);
    }
    assert results[..|defs|] == results;
    return Success((generatedCodes, classDependenciesMap));
  }

  /**
   * The check that every dependency is itself a generated dataclass. It stops
   * at the first class, in the map's order, with a missing dependency; which
   * of that class's missing dependencies it names is left open, as iteration
   * over a Python set is.
   */
  method CheckDependencies(deps: DependencyMap) returns (r: Result<(), GenError>)
    ensures r.Success? <==> Closed(deps)
    ensures r.Failure? ==>
      && r.error.MissingDependency?
      && r.error.dependency !in Keys(deps)
      && exists j :: 0 <= j < |deps| && r.error.dependency in deps[j].1 && ClosedBefore(deps, j)
  {
    for j := 0 to |deps|
      invariant ClosedBefore(deps, j)
    {
      var remaining := deps[j].1;
      while remaining != {}
        invariant remaining <= deps[j].1
        invariant forall d :: d in deps[j].1 && d !in remaining ==> d in Keys(deps)
        decreases remaining
      {
        var dependency :| dependency in remaining;
        if dependency !in Keys(deps) {
          return Failure(MissingDependency(dependency));
        }
        remaining := remaining - {dependency};
      }
    }
    return Success(());
  }

  const ModuleHeader := "from dataclasses import dataclass\n\n\n"

  /** The module text: the import, then each class's code followed by a blank line, in the given order. */
  function ModuleText(codes: Entries<string, string>, order: seq<string>): string {
    if order == [] then ModuleHeader
    else ModuleText(codes, order[..|order| - 1]) + CodeOf(codes, order[|order| - 1]) + "\n\n"
  }

  /** The code generated for a class (nothing for a name that is not a key). */
  function CodeOf(codes: Entries<string, string>, c: string): string {
    match Get(codes, c)
    case None => ""
    case Some(code) => code
  }

  /**
   * The whole script after the fetch: build the classes, check the
   * dependencies, order the classes and produce the module text. The ordering
   * only ends when the dependencies are acyclic, witnessed here by `rank`; it
   * is needed only once the dependency check has passed.
   */
  method GenerateModule(defs: Entries<string, Json>, ghost rank: map<string, nat>) returns (r: Result<string, GenError>)
    requires Classes(ClassResults(defs)).Success? && Closed(Classes(ClassResults(defs)).value.1) ==>
      Ranked(Classes(ClassResults(defs)).value.1, rank)
    ensures r.Success? <==> Classes(ClassResults(defs)).Success? && Closed(Classes(ClassResults(defs)).value.1)
    ensures r.Success? ==>
      var codes := Classes(ClassResults(defs)).value.0;
      var depMap := Classes(ClassResults(defs)).value.1;
      exists order :: DependencyOrder(depMap, order) && r.value == ModuleText(codes, order)
  {
    var classes := BuildClasses(defs);
    if classes.Failure? {
      return Failure(classes.error);
    }
    var codes, depMap := classes.value.0, classes.value.1;
    var check := CheckDependencies(depMap);
    if check.Failure? {
      return Failure(check.error);
    }
    ClassesSameKeys(ClassResults(defs));
    var ordered := OrderClasses(depMap, rank);
    var text := WriteModule(codes, ordered);
    return Success(text);
  }

  /** The loop that writes the module: the import, then each class's code and a blank line. */
  method WriteModule(codes: Entries<string, string>, ordered: seq<string>) returns (text: string)
    requires forall k :: 0 <= k < |ordered| ==> ordered[k] in Keys(codes)
    ensures text == ModuleText(codes, ordered)
  {
    text := ModuleHeader;
    for k := 0 to |ordered|
      invariant text == ModuleText(codes, ordered[..k])
    {
      assert ordered[..k + 1][..k] == ordered[..k];
      text := text + Get(codes, ordered[k]).value + "\n\n";
    }
    assert ordered[..|ordered|] == ordered;
  }

}
