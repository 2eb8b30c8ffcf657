/**
 * The patch the code-generation script applies to the API's Swagger document
 * before handing it to swagger-codegen (scripts/swagger-codegen.py).
 *
 * Every path must declare the definition its `200` response returns. A
 * return type that names no definition is refused, except for the fare
 * estimate path, whose `V3.FareEstimateResponse` is missing from the
 * published document: for it the script adds five hand-written definitions.
 * Fetching the document, writing it out and running swagger-codegen are left
 * out; the document enters as JSON.
 */
module SwaggerPatch {
  import opened Wrappers
  import opened Dicts
  import opened Text
  import opened Json

  const FarePath := "/v3/fare_estimate/min_zone/{minZone}/max_zone/{maxZone}"
  const FareType := "V3.FareEstimateResponse"
  const DefinitionsRef := "#/definitions/"

  /** The keys leading from a path object to its return type: `['get']['responses']['200']['schema']['$ref']`. */
  const ReturnRefKeys := ["get", "responses", "200", "schema", "$ref"]

  datatype PatchError =
    | MissingKey(key: string)                             // the document lacks `paths` or `definitions`
    | NotObject(key: string)                              // `paths` or `definitions` is not an object
    | MissingReturnRef(path: string)                      // the return-type assertion
    | BadRef(path: string)                                // a `$ref` that is not text or lacks `#/definitions/`
    | UnknownReturnType(returnType: string, path: string) // the unknown-return-type assertion
    | DuplicateDefinition                                 // the duplicate-key assertion

  /** `j[keys[0]][keys[1]]…`, when every step is an object holding the key. */
  function Follow(j: Json, keys: seq<string>): Option<Json>
    decreases |keys|
  {
    if keys == [] then Some(j)
    else
      match Member(j, keys[0])
      case None => None
      case Some(v) => Follow(v, keys[1..])
  }

  /** The return type a path object declares: the `$ref` text after the first `#/definitions/`. */
  function ReturnType(pathObj: Json): Option<string> {
    match Follow(pathObj, ReturnRefKeys)
    case Some(Str(ref)) => AfterFirst(ref, DefinitionsRef)
    case _ => None
  }

  // ---- the hand-written fare estimate definitions ----

  function RefTo(name: string): Json {
    Obj([("$ref", Str(DefinitionsRef + name))])
  }

  function OfType(t: string): Json {
    Obj([("type", Str(t))])
  }

  function ObjectSchema(properties: Entries<string, Json>): Json {
    Obj([("type", Str("object")), ("properties", Obj(properties))])
  }

  /** The five definitions added for the fare estimate response, in the script's order. */
  function FareDefinitions(): (defs: Entries<string, Json>)
    ensures Keys(defs) == [FareType, "V3.FareEstimateResultStatus", "V3.FareEstimateResult", "V3.ZoneInfo", "V3.PassengerFare"]
  {
    [ (FareType, ObjectSchema([
        ("FareEstimateResultStatus", RefTo("V3.FareEstimateResultStatus")),
        ("FareEstimateResult", RefTo("V3.FareEstimateResult"))])),
      ("V3.FareEstimateResultStatus", ObjectSchema([
        ("StatusCode", OfType("integer")),
        ("Message", OfType("string"))])),
      ("V3.FareEstimateResult", ObjectSchema([
        ("IsEarlyBird", OfType("boolean")),
        ("IsJourneyInFreeTramZone", OfType("boolean")),
        ("IsThisWeekendJourney", OfType("boolean")),
        ("ZoneInfo", RefTo("V3.ZoneInfo")),
        ("PassengerFares", Obj([("type", Str("array")), ("items", RefTo("V3.PassengerFare"))]))])),
      ("V3.ZoneInfo", ObjectSchema([
        ("MinZone", OfType("integer")),
        ("MaxZone", OfType("integer")),
        ("UniqueZones", Obj([("type", Str("array")), ("items", OfType("integer"))]))])),
      ("V3.PassengerFare", ObjectSchema([
        ("PassengerType", OfType("string")),
        ("Fare2HourPeak", OfType("number")),
        ("Fare2HourOffPeak", OfType("number")),
        ("FareDailyPeak", OfType("number")),
        ("FareDailyOffPeak", OfType("number")),
        ("Pass7Days", OfType("number")),
        ("Pass28To69DayPerDay", OfType("number")),
        ("Pass70PlusDayPerDay", OfType("number")),
        ("WeekendCap", OfType("number")),
        ("HolidayCap", OfType("number"))]))
    ]
  }

  /** No key of `a` is a key of `b`. */
  predicate Disjoint(a: seq<string>, b: seq<string>) {
    forall k :: k in a ==> k !in b
  }

  /** The definitions of a document (none when it has no `definitions` object). */
  function Defs(docs: Json): Entries<string, Json> {
    match Member(docs, "definitions")
    case Some(Obj(entries)) => entries
    case _ => []
  }

  // ---- the loop over the paths ----

  /** One iteration: check the path's return type and, for the fare estimate, add the missing definitions. */
  function PatchStep(docs: Json, path: string, pathObj: Json): Result<Json, PatchError> {
    match Follow(pathObj, ReturnRefKeys)
    case None => Failure(MissingReturnRef(path))
    case Some(ref) =>
      if !ref.Str? || AfterFirst(ref.s, DefinitionsRef).None? then Failure(BadRef(path))
      else
        var returnType := AfterFirst(ref.s, DefinitionsRef).value;
        match Member(docs, "definitions")
        case None => Failure(MissingKey("definitions"))
        case Some(defs) =>
          if !defs.Obj? then Failure(NotObject("definitions"))
          else if returnType in Keys(defs.entries) then Success(docs)
          else if path != FarePath || returnType != FareType then Failure(UnknownReturnType(returnType, path))
          else if !Disjoint(Keys(FareDefinitions()), Keys(defs.entries)) then Failure(DuplicateDefinition)
          else Success(WithFareDefinitions(docs, defs.entries))
  }

  /** The document with its definitions `defs` replaced by `defs` plus the fare estimate definitions. */
  function WithFareDefinitions(docs: Json, defs: Entries<string, Json>): Json
    requires docs.Obj?
  {
    Obj(Assign(docs.entries, "definitions", Obj(AssignAll(defs, FareDefinitions()))))
  }

  /** The loop over `paths`, in order, stopping at the first error. */
  function PatchPaths(docs: Json, paths: Entries<string, Json>): Result<Json, PatchError>
    decreases |paths|
  {
    if paths == [] then Success(docs)
    else
      var patched :- PatchPaths(docs, paths[..|paths| - 1]);
      PatchStep(patched, paths[|paths| - 1].0, paths[|paths| - 1].1)
  }

  /** The paths of a document, which must be an object. */
  function PathsOf(docs: Json): Result<Entries<string, Json>, PatchError> {
    match Member(docs, "paths")
    case None => Failure(MissingKey("paths"))
    case Some(paths) => if paths.Obj? then Success(paths.entries) else Failure(NotObject("paths"))
  }

  /** The document as the script writes it out. */
  function PatchDocs(docs: Json): Result<Json, PatchError> {
    var paths :- PathsOf(docs);
    PatchPaths(docs, paths)
  }

  lemma {:induction false} PathsFailurePersists(docs: Json, paths: Entries<string, Json>, i: nat)
    requires i <= |paths| && PatchPaths(docs, paths[..i]).Failure?
    ensures PatchPaths(docs, paths) == PatchPaths(docs, paths[..i])
    decreases |paths|
  {
    if i < |paths| {
      var init := paths[..|paths| - 1];
      assert init[..i] == paths[..i];
      PathsFailurePersists(docs, init, i);
    } else {
      assert paths[..i] == paths;
    }
  }

  lemma PathsStep(docs0: Json, paths: Entries<string, Json>, i: nat, docs: Json)
    requires i < |paths| && PatchPaths(docs0, paths[..i]) == Success(docs)
    ensures PatchPaths(docs0, paths[..i + 1]) == PatchStep(docs, paths[i].0, paths[i].1)
  {
    assert paths[..i + 1][..i] == paths[..i];
  }

  /** The script's loop, mutating the document's definitions in place. */
  method PatchSwaggerDocs(docs0: Json) returns (r: Result<Json, PatchError>)
    ensures r == PatchDocs(docs0)
  {
    var pathsOf := PathsOf(docs0);
    if pathsOf.Failure? {
      return Failure(pathsOf.error);
    }
    var paths := pathsOf.value;
    var docs := docs0;
    for i := 0 to |paths|
      invariant PatchPaths(docs0, paths[..i]) == Success(docs)
    {
      PathsStep(docs0, paths, i, docs);
      var path, pathObj := paths[i].0, paths[i].1;
      var ref := Follow(pathObj, ReturnRefKeys);
      if ref.None? {
        PathsFailurePersists(docs0, paths, i + 1);
        return Failure(MissingReturnRef(path));
      }
      if !ref.value.Str? || AfterFirst(ref.value.s, DefinitionsRef).None? {
        PathsFailurePersists(docs0, paths, i + 1);
        return Failure(BadRef(path));
      }
      var returnType := AfterFirst(ref.value.s, DefinitionsRef).value;
      var defs := Member(docs, "definitions");
      if defs.None? {
        PathsFailurePersists(docs0, paths, i + 1);
        return Failure(MissingKey("definitions"));
      }
      if !defs.value.Obj? {
        PathsFailurePersists(docs0, paths, i + 1);
        return Failure(NotObject("definitions"));
      }
      if returnType !in Keys(defs.value.entries) {
        if path != FarePath || returnType != FareType {
          PathsFailurePersists(docs0, paths, i + 1);
          return Failure(UnknownReturnType(returnType, path));
        }
        var newSchema := FareDefinitions();
        if !Disjoint(Keys(newSchema), Keys(defs.value.entries)) {
          PathsFailurePersists(docs0, paths, i + 1);
          return Failure(DuplicateDefinition);
        }
        docs := WithFareDefinitions(docs, defs.value.entries);
      }
    }
    assert paths[..|paths|] == paths;
    return Success(docs);
  }

  // ---- what a successful patch guarantees ----

  /** The document's definitions object, present and an object. */
  predicate HasDefinitions(docs: Json) {
    Member(docs, "definitions").Some? && Member(docs, "definitions").value.Obj?
  }

  /** The definitions after adding the fare estimate ones to `defs`, which held none of them. */
  predicate FarePatched(defs: Entries<string, Json>, patched: Entries<string, Json>) {
    Disjoint(Keys(FareDefinitions()), Keys(defs)) && patched == AssignAll(defs, FareDefinitions())
  }

  /**
   * One successful step leaves every key of the document but `definitions`
   * alone, makes the path's return type a definition, and either changes
   * nothing or adds the fare estimate definitions for the fare estimate path.
   */
  lemma StepFrame(docs: Json, path: string, pathObj: Json)
    requires PatchStep(docs, path, pathObj).Success?
    ensures var out := PatchStep(docs, path, pathObj).value;
      && HasDefinitions(docs) && HasDefinitions(out)
      && Keys(out.entries) == Keys(docs.entries)
      && (forall k :: k != "definitions" ==> Member(out, k) == Member(docs, k))
      && ReturnType(pathObj).Some? && ReturnType(pathObj).value in Keys(Defs(out))
      && (out == docs
          || (FarePatched(Defs(docs), Defs(out)) && path == FarePath && ReturnType(pathObj) == Some(FareType)))
  {
    StepShape(docs, path, pathObj);
    var out := PatchStep(docs, path, pathObj).value;
    if ReturnType(pathObj).value !in Keys(Defs(docs)) {
      FareFrame(docs);
    }
  }

  /** The two ways a step succeeds. */
  lemma StepShape(docs: Json, path: string, pathObj: Json)
    requires PatchStep(docs, path, pathObj).Success?
    ensures HasDefinitions(docs) && ReturnType(pathObj).Some?
    ensures var out := PatchStep(docs, path, pathObj).value;
      || (out == docs && ReturnType(pathObj).value in Keys(Defs(docs)))
      || (&& ReturnType(pathObj).value !in Keys(Defs(docs))
          && out == WithFareDefinitions(docs, Defs(docs))
          && Disjoint(Keys(FareDefinitions()), Keys(Defs(docs)))
          && path == FarePath && ReturnType(pathObj) == Some(FareType))
  {
  }

  /** Adding the fare estimate definitions touches only `definitions`, which then holds them. */
  lemma FareFrame(docs: Json)
    requires HasDefinitions(docs)
    ensures var out := WithFareDefinitions(docs, Defs(docs));
      && HasDefinitions(out)
      && Keys(out.entries) == Keys(docs.entries)
      && (forall k :: k != "definitions" ==> Member(out, k) == Member(docs, k))
      && Defs(out) == AssignAll(Defs(docs), FareDefinitions())
      && FareType in Keys(Defs(out))
  {
    var newDefs := AssignAll(Defs(docs), FareDefinitions());
    var out := WithFareDefinitions(docs, Defs(docs));
    forall k ensures Member(out, k) == if k == "definitions" then Some(Obj(newDefs)) else Member(docs, k) {
      GetAssign(docs.entries, "definitions", Obj(newDefs), k);
    }
    AssignAllKeys(Defs(docs), FareDefinitions(), FareType);
  }

  /** A run of steps changes no key of the document but `definitions`, which exists once there is a path. */
  lemma {:induction false} PathsFrame(docs: Json, paths: Entries<string, Json>)
    requires PatchPaths(docs, paths).Success?
    ensures var out := PatchPaths(docs, paths).value;
      && (paths == [] ==> out == docs)
      && (paths != [] ==> HasDefinitions(docs) && HasDefinitions(out) && Keys(out.entries) == Keys(docs.entries))
      && forall k :: k != "definitions" ==> Member(out, k) == Member(docs, k)
    decreases |paths|
  {
    if paths != [] {
      var init := paths[..|paths| - 1];
      PathsFrame(docs, init);
      var mid := PatchPaths(docs, init).value;
      StepFrame(mid, paths[|paths| - 1].0, paths[|paths| - 1].1);
    }
  }

  /** A successful step keeps every definition and adds the path's return type. */
  lemma StepDefinitions(docs: Json, path: string, pathObj: Json, out: Json)
    requires PatchStep(docs, path, pathObj) == Success(out)
    ensures ReturnType(pathObj).Some? && ReturnType(pathObj).value in Keys(Defs(out))
    ensures forall k :: k in Keys(Defs(docs)) ==> k in Keys(Defs(out))
  {
    StepFrame(docs, path, pathObj);
    forall k | k in Keys(Defs(docs)) ensures k in Keys(Defs(out)) {
      if out != docs {
        AssignAllKeys(Defs(docs), FareDefinitions(), k);
      }
    }
  }

  /** Every path declares a return type, and each is among `defs`. */
  predicate ReturnTypesIn(paths: Entries<string, Json>, defs: seq<string>) {
    forall i :: 0 <= i < |paths| ==> ReturnType(paths[i].1).Some? && ReturnType(paths[i].1).value in defs
  }

  /** After a successful run, every path's return type is a definition. */
  lemma {:induction false} PathsReturnTypes(docs: Json, paths: Entries<string, Json>)
    requires PatchPaths(docs, paths).Success?
    ensures ReturnTypesIn(paths, Keys(Defs(PatchPaths(docs, paths).value)))
    decreases |paths|
  {
    if paths != [] {
      var n := |paths| - 1;
      var init := paths[..n];
      PathsReturnTypes(docs, init);
      var mid := PatchPaths(docs, init).value;
      var out := PatchStep(mid, paths[n].0, paths[n].1).value;
      assert PatchPaths(docs, paths) == Success(out);
      StepDefinitions(mid, paths[n].0, paths[n].1, out);
      ReturnTypesExtend(paths, Keys(Defs(mid)), Keys(Defs(out)));
    }
  }

  lemma ReturnTypesExtend(paths: Entries<string, Json>, before: seq<string>, after: seq<string>)
    requires paths != [] && ReturnTypesIn(paths[..|paths| - 1], before)
    requires forall k :: k in before ==> k in after
    requires ReturnType(paths[|paths| - 1].1).Some? && ReturnType(paths[|paths| - 1].1).value in after
    ensures ReturnTypesIn(paths, after)
  {
    forall i | 0 <= i < |paths| - 1
      ensures ReturnType(paths[i].1).Some? && ReturnType(paths[i].1).value in after
    {
      assert paths[i] == paths[..|paths| - 1][i];
    }
  }

  /**
   * After a successful run the definitions are the old ones, or the old ones
   * with the fare estimate definitions added once, because the fare estimate
   * path named the missing `V3.FareEstimateResponse`.
   */
  lemma {:induction false} PathsDefinitions(docs: Json, paths: Entries<string, Json>)
    requires PatchPaths(docs, paths).Success?
    ensures var out := PatchPaths(docs, paths).value;
      || Defs(out) == Defs(docs)
      || (&& FarePatched(Defs(docs), Defs(out))
          && exists i :: 0 <= i < |paths| && paths[i].0 == FarePath && ReturnType(paths[i].1) == Some(FareType))
    decreases |paths|
  {
    if paths != [] {
      var n := |paths| - 1;
      var init := paths[..n];
      PathsDefinitions(docs, init);
      var mid := PatchPaths(docs, init).value;
      StepFrame(mid, paths[n].0, paths[n].1);
      var out := PatchPaths(docs, paths).value;
      if Defs(mid) != Defs(docs) {
        var i :| 0 <= i < n && init[i].0 == FarePath && ReturnType(init[i].1) == Some(FareType);
        assert paths[i] == init[i];
        if out != mid {
          // A second patch would need `V3.FareEstimateResponse` to be missing again.
          AssignAllKeys(Defs(docs), FareDefinitions(), FareType);
        }
      }
    }
  }

  /** Once every return type is a definition, the loop changes nothing. */
  lemma {:induction false} PathsNoop(docs: Json, paths: Entries<string, Json>)
    requires paths != [] ==> HasDefinitions(docs)
    requires forall i :: 0 <= i < |paths| ==> ReturnType(paths[i].1).Some? && ReturnType(paths[i].1).value in Keys(Defs(docs))
    ensures PatchPaths(docs, paths) == Success(docs)
    decreases |paths|
  {
    if paths != [] {
      var n := |paths| - 1;
      var init := paths[..n];
      forall i | 0 <= i < n ensures ReturnType(init[i].1) == ReturnType(paths[i].1) {
        assert init[i] == paths[i];
      }
      PathsNoop(docs, init);
    }
  }

  /** Patching a patched document changes nothing: the script can be run twice. */
  lemma PatchIdempotent(docs: Json, out: Json)
    requires PatchDocs(docs) == Success(out)
    ensures PatchDocs(out) == Success(out)
  {
    var paths := PathsOf(docs).value;
    assert PatchPaths(docs, paths) == Success(out);
    PathsFrame(docs, paths);
    assert Member(out, "paths") == Member(docs, "paths");
    PathsReturnTypes(docs, paths);
    PathsNoop(out, paths);
  }

  /** The fare estimate definitions added to distinct definitions that hold none of them come last, in order. */
  lemma FareAppended(defs: Entries<string, Json>)
    requires DistinctKeys(defs) && Disjoint(Keys(FareDefinitions()), Keys(defs))
    ensures AssignAll(defs, FareDefinitions()) == defs + FareDefinitions()
  {
    var d, f := Keys(defs), Keys(FareDefinitions());
    assert Distinct(d + f) by {
      forall i, j | 0 <= i < j < |d + f| ensures (d + f)[i] != (d + f)[j] {
        if i < |d| <= j {
          assert (d + f)[j] in f;
        }
      }
    }
    AssignAllFresh(defs, FareDefinitions());
  }

  /**
   * What the patched document holds: its paths unchanged, every return type
   * among the definitions, and definitions that are the old ones, possibly
   * followed by the five fare estimate ones when the old keys were distinct.
   */
  lemma PatchedDocument(docs: Json, out: Json)
    requires PatchDocs(docs) == Success(out)
    ensures Member(out, "paths") == Member(docs, "paths")
    ensures ReturnTypesIn(PathsOf(docs).value, Keys(Defs(out)))
    ensures DistinctKeys(Defs(docs)) ==> Defs(out) == Defs(docs) || Defs(out) == Defs(docs) + FareDefinitions()
  {
    var paths := PathsOf(docs).value;
    assert PatchPaths(docs, paths) == Success(out);
    PathsFrame(docs, paths);
    PathsReturnTypes(docs, paths);
    PathsDefinitions(docs, paths);
    if DistinctKeys(Defs(docs)) && Defs(out) != Defs(docs) {
      FareAppended(Defs(docs));
    }
  }

  /**
   * A patch succeeds only when every path returns a definition the document
   * already has or one of the fare estimate definitions: any other return type
   * is refused.
   */
  lemma KnownReturnTypes(docs: Json, out: Json)
    requires PatchDocs(docs) == Success(out)
    ensures ReturnTypesIn(PathsOf(docs).value, Keys(Defs(docs)) + Keys(FareDefinitions()))
  {
    var paths := PathsOf(docs).value;
    assert PatchPaths(docs, paths) == Success(out);
    PathsReturnTypes(docs, paths);
    PathsDefinitions(docs, paths);
    var known := Keys(Defs(docs)) + Keys(FareDefinitions());
    forall k | k in Keys(Defs(out)) ensures k in known {
      if Defs(out) != Defs(docs) {
        AssignAllKeys(Defs(docs), FareDefinitions(), k);
      }
    }
    ReturnTypesWeaken(paths, Keys(Defs(out)), known);
  }

  lemma ReturnTypesWeaken(paths: Entries<string, Json>, defs: seq<string>, wider: seq<string>)
    requires ReturnTypesIn(paths, defs)
    requires forall k :: k in defs ==> k in wider
    ensures ReturnTypesIn(paths, wider)
  {
  }
}
