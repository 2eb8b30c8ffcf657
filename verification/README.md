# pyptvdata in Dafny

A Dafny model of the core of pyptvdata. pyptvdata is a Python client for the
Public Transport Victoria (PTV) data services. The model covers five parts.

- **Timetable API v3 client** (`apiv3.dfy`, module `PtvApi`).
  - The signed request URL: the endpoint, `devid=`, and an HMAC-SHA1 signature in lowercase hex.
  - The choice between a signed and an anonymous URL.
  - The catalogue of `PTVAPI3` calls: the path each one requests, and the envelope key the five "get all" calls unwrap.
- **GTFS-Realtime flattening** (`gtfsr.dfy`, module `GtfsRealtime`). A decoded feed message becomes nested dicts and lists. Only the fields that are set appear.
- **Static GTFS bundle reader** (`gtfs.dfy`, module `GtfsArchive`).
  - The outer zip's mode directories.
  - Each mode's nested `google_transit.zip`, with its `.txt` tables parsed by table name.
  - The choice between fetching the bundle over HTTP and opening a local file.
- **Dataclass generator** (`gen_dataclass.dfy`, module `DataclassGen`).
  - The text of one Python dataclass per Swagger definition.
  - The dependency check.
  - The ordering loop that puts every class after the classes it refers to.
  - The module text.
- **Swagger patch** (`swagger_codegen.dfy`, module `SwaggerPatch`).
  - Checks that every path's return type is a definition.
  - Adds the five missing fare estimate definitions.

Shared pieces:
- `wrappers.dfy`: `Option` and `Result`.
- `dicts.dfy`: a Python insertion-ordered dict as a sequence of pairs, with `d[k] = v`, `d.get` and `d.update`.
- `text.dfy`: the `str` methods used.
- `encoding.dfy`: UTF-8 and `hexdigest`.
- `json.dfy`: JSON values.

Loops in the source are methods. Most are proved equal to a fold function whose properties are proved as lemmas. `OrderClasses` and `CheckDependencies` are instead proved against the properties they promise: a dependency-respecting order, and `Closed`.

## Model

| member | source | states |
|---|---|---|
| GtfsRealtime.ListFields | pyptvdata/gtfsr.py:7 | the fields listed are exactly the message's fields that are set (a singular field marked present, or a non-empty repeated field) |
| GtfsRealtime.Flatten | pyptvdata/gtfsr.py:3-14 | the result is a leaf exactly when the input is a scalar, and a scalar comes back unchanged |
| GtfsRealtime.FlattenContent | pyptvdata/gtfsr.py:9-12 | a repeated field becomes a list as long as the field, item by item flattened; a singular field becomes the flattening of its value |
| GtfsRealtime.ListFieldsDistinct | pyptvdata/gtfsr.py:7-13 | distinct field names stay distinct among the fields that are set, so no dict entry is overwritten |
| GtfsRealtime.ListFieldsOrder | pyptvdata/gtfsr.py:7 | a single field is listed once if set and dropped otherwise, and the fields of two runs of slots come one run after the other: the set fields in slot order, each once |
| GtfsRealtime.ListFieldsAll | pyptvdata/gtfsr.py:7 | when every field is set, all of them are listed, in order |
| GtfsRealtime.FlattenMessageFields | pyptvdata/gtfsr.py:6-14 | a message's dict has exactly the names of its set fields as keys, in field order, each mapped to the flattening of its content |
| GtfsRealtime.FlattenKeySet | pyptvdata/gtfsr.py:7-13 | a name is a key of the dict if and only if some set field carries it: unset fields never appear |
| GtfsRealtime.FlattenFieldLookup | pyptvdata/gtfsr.py:8-13 | looking up a set field's name gives the flattening of its content |
| GtfsRealtime.FlattenAllLeaves | pyptvdata/gtfsr.py:6-14 | a message whose fields are all set scalars flattens to exactly its name-to-value dict |
| GtfsRealtime.ParseGtfsR | pyptvdata/gtfsr.py:3-14 | the dict filled field by field equals `Flatten` of the input |
| GtfsRealtime.ParseField | pyptvdata/gtfsr.py:9-12 | the list comprehension or the single recursive call equals `FlattenContent` |
| GtfsRealtime.ParseRealtimeFeed | pyptvdata/gtfsr.py:16-17 | one flattened entity per `feed.entity`, in order |
| GtfsRealtime.ParseGtfsRBinary | pyptvdata/gtfsr.py:19-22 | fails exactly when decoding fails, with the decoder's error; otherwise one flattened entity per decoded entity |
| GtfsArchive.ReadTransitZip | pyptvdata/gtfs.py:33-42 | the inner loop returns exactly the `ReadTables` fold over the nested archive's name list |
| GtfsArchive.TablesFailurePersists | pyptvdata/gtfs.py:33-42 | once a member fails to open or parse, the whole read fails with that first error |
| GtfsArchive.TablesSucceed | pyptvdata/gtfs.py:33-42 | reading a nested archive succeeds if and only if every `.txt` member opens and parses |
| GtfsArchive.TableEntries | pyptvdata/gtfs.py:35-42 | the table names are distinct and are exactly the stems of the `.txt` members; each table is what the reader made of a member with that stem |
| GtfsArchive.ReadGtfsZipObj | pyptvdata/gtfs.py:9-44 | the outer loop returns exactly the `ReadModes` fold over the bundle's name list |
| GtfsArchive.ModesFailurePersists | pyptvdata/gtfs.py:22-42 | a missing nested archive or a failing table stops the whole read with that first error |
| GtfsArchive.ModesSucceed | pyptvdata/gtfs.py:22-42 | reading the bundle succeeds if and only if every directory entry's `google_transit.zip` exists and reads |
| GtfsArchive.ModeEntries | pyptvdata/gtfs.py:22-42 | the mode ids are distinct and are exactly the directory entries stripped of `/`; each maps to the tables of that mode's nested archive |
| GtfsArchive.DirectoryEntryMode | pyptvdata/gtfs.py:23-29 | the entry `m/` names mode `m`, whose tables come from `m/google_transit.zip` |
| GtfsArchive.ReadGtfsZip | pyptvdata/gtfs.py:47-72 | a path without the `.zip` suffix is refused; a path with `:` is fetched; a fetch that raises ends the call with that error and no local fallback; a 200 response is read from its bytes; a path without `:`, and a fetch that returned another status, is opened as a local file |
| GtfsArchive.DefaultSourceIsFetched | pyptvdata/gtfs.py:47-69 | reading the default source fetches it: a failed fetch is the call's error, and a 200 response is read from its bytes, never from a local file |
| PtvApi.GetPtvApiUrl | pyptvdata/apiv3.py:5-24 | fails if and only if the endpoint does not start with `/` (the assertion) or the key is an integer (which has no `encode`) |
| PtvApi.SignedPartLayout | pyptvdata/apiv3.py:21 | the signed part is the endpoint verbatim, then `&` if it holds `?` and `?` otherwise, then `devid=` and the rendered id |
| PtvApi.SplitJoined | pyptvdata/apiv3.py:24 | a URL built from host, signed part, `&signature=` and 40 characters splits back into the signed part and those 40 characters |
| PtvApi.SignedUrlLayout | pyptvdata/apiv3.py:20-24 | a signed URL ends in 40 lowercase hex digits that decode to the HMAC of the UTF-8 signed part (without the host) under the UTF-8 key |
| PtvApi.DataUrlChoice | pyptvdata/apiv3.py:33-40 | an unsigned URL is host plus endpoint, with no check on the endpoint; a signed one carries the signed part |
| PtvApi.Respond | pyptvdata/apiv3.py:57-90 | a call without an envelope key returns the body; one with a key returns that member and fails if and only if the key is absent |
| PtvApi.CatalogueShape | pyptvdata/apiv3.py:50-209 | every catalogue path starts with `/`; only `get_docs` goes unsigned; exactly the five "get all" calls unwrap a key |
| PtvApi.EnvelopeKeys | pyptvdata/apiv3.py:57-90 | the envelope key of each "get all" call |
| PtvApi.DisruptionsEndpoint | pyptvdata/apiv3.py:117-123 | the disruptions path is `/v3/disruptions` followed by the route segment and the stop segment, each present only when its id is not `None` |
| PtvApi.DisruptionsInjective | pyptvdata/apiv3.py:109-123 | different route and stop id combinations, `None` included, always request different disruption paths |
| PtvApi.FalsyOptionalIds | pyptvdata/apiv3.py:99-195 | an optional route id or route type of `0` requests the same path as `None`; any other value is appended as a final segment |
| PtvApi.SearchTermVerbatim | pyptvdata/apiv3.py:97 | the search term enters the path unescaped, and a `?` in it switches the `devid` separator to `&` |
| PtvApi.PerformOutcome | pyptvdata/apiv3.py:33-43 | a call fails if and only if it must be signed with an integer key, or its envelope key is missing; otherwise it requests the `get_data` URL and returns the body or its member |
| DataclassGen.DataclassName | scripts/gen-dataclass.py:15-16 | the dataclass name is `V3` followed by the class name |
| DataclassGen.RefClass | scripts/gen-dataclass.py:27-28 | a `$ref` yields a dataclass exactly when it is text containing `#/definitions/V3.`; the class is `V3` plus the text after the first occurrence |
| DataclassGen.FieldType | scripts/gen-dataclass.py:23-54 | a field that records a dependency has that dataclass as its type; any other field has a mapped primitive or a list of one (the type for each kind of property is stated by the three lemmas below) |
| DataclassGen.RefField | scripts/gen-dataclass.py:23-54 | for any property, a bare `$ref`, an `array` whose items are a `$ref`, and an `object` whose `additionalProperties` are a `$ref` all become a field of that dataclass and a dependency on it, whatever else the property holds |
| DataclassGen.PrimitiveField | scripts/gen-dataclass.py:23-50 | for any property whose `type` is a primitive, the field has the mapped type; `array` items of a mapped type give `list[...]` of it; `additionalProperties` of a mapped type give that type; none is a dependency |
| DataclassGen.RefusedFields | scripts/gen-dataclass.py:23-54 | for any property, each refused case stops with its error: the two assertions on `object`, `array` without `items` or with items lacking `type` and `$ref`, a type, item type or `additionalProperties` type missing from the map, and neither `type` nor `$ref` |
| DataclassGen.Description | scripts/gen-dataclass.py:56 | a missing description is empty text; a present one is that text |
| DataclassGen.DedentIndent | scripts/gen-dataclass.py:59 | the docstring indentation loses nothing: removing it gives back the description |
| DataclassGen.FieldsFailurePersists | scripts/gen-dataclass.py:22-59 | the first property that fails makes the whole class fail with its error |
| DataclassGen.FieldsSucceed | scripts/gen-dataclass.py:22-59 | a class's fields are generated if and only if every property's field is, and the error is the first failing property's |
| DataclassGen.FieldsInOrder | scripts/gen-dataclass.py:22-59 | one field text per property, in property order |
| DataclassGen.FieldsDependencies | scripts/gen-dataclass.py:21-54 | the class dependencies are exactly the dataclasses its properties refer to |
| DataclassGen.DataclassShape | scripts/gen-dataclass.py:61-65 | the class text opens with `@dataclass` and the class line; its body is `pass` when there are no properties, and otherwise it ends with the last property's field |
| DataclassGen.ClassTextShape | scripts/gen-dataclass.py:63-65 | for any description and fields, the header-plus-signature text opens with the class line, ends with `pass` when there are no fields, and otherwise ends with the last field |
| DataclassGen.GenerateDataclass | scripts/gen-dataclass.py:19-65 | the loop over the properties returns exactly `Dataclass` |
| DataclassGen.ClassNameOf | scripts/gen-dataclass.py:79 | succeeds if and only if the definition name holds a `.`; the name is `V3` plus the text after the first `.` |
| DataclassGen.ClassesFailurePersists | scripts/gen-dataclass.py:76-82 | the first definition that fails stops the whole build with its error |
| DataclassGen.ClassesSameKeys | scripts/gen-dataclass.py:73-82 | the code map and the dependency map have the same keys, in the same order, without repetition |
| DataclassGen.ClassesKeys | scripts/gen-dataclass.py:76-82 | a name is a key if and only if some definition produced that dataclass name |
| DataclassGen.ClassesValues | scripts/gen-dataclass.py:76-82 | the code and the dependencies stored under a name come from one and the same definition, the last one producing that name, because later assignments overwrite earlier ones |
| DataclassGen.BuildClasses | scripts/gen-dataclass.py:73-82 | the loop over the definitions returns exactly the `Classes` fold |
| DataclassGen.CheckDependencies | scripts/gen-dataclass.py:84-86 | passes if and only if every dependency is a generated dataclass; a failure names a missing dependency of the first class, in map order, that has one |
| DataclassGen.ReadyClass | scripts/gen-dataclass.py:91-99 | with acyclic, closed dependencies, whenever a class is unordered some unordered class has all its dependencies ordered |
| DataclassGen.UnplacedClass | scripts/gen-dataclass.py:91 | while fewer classes are ordered than there are keys, some key is unordered |
| DataclassGen.SelfDependencyUnranked | scripts/gen-dataclass.py:91-99 | a class that depends on itself has no acyclicity ranking |
| DataclassGen.PlaceClass | scripts/gen-dataclass.py:95-97 | appending a class whose remaining dependencies are empty keeps every class after its dependencies |
| DataclassGen.DropPlaced | scripts/gen-dataclass.py:98-99 | removing ordered classes from a dependency set keeps the loop state, and empties it once all its dependencies are ordered |
| DataclassGen.OrderingPass | scripts/gen-dataclass.py:92-99 | one pass keeps the loop state, and either orders a new class or removes a dependency |
| DataclassGen.OrderClasses | scripts/gen-dataclass.py:88-99 | the loop ends with every class exactly once, and no class before one of its dependencies |
| DataclassGen.DependenciesComeFirst | scripts/gen-dataclass.py:88-107 | in such an order each dependency of a class is written earlier in the module |
| DataclassGen.WriteModule | scripts/gen-dataclass.py:103-107 | the module is the import line, then each class's code and a blank line, in the order given |
| DataclassGen.GenerateModule | scripts/gen-dataclass.py:73-107 | succeeds if and only if every definition generates and every dependency is defined; the module text then follows an order that respects the dependencies (an acyclicity ranking is asked for only when the dependency check passes) |
| SwaggerPatch.FareDefinitions | scripts/swagger-codegen.py:37-92 | the five fare estimate definitions, keyed in the script's order |
| SwaggerPatch.PatchSwaggerDocs | scripts/swagger-codegen.py:17-96 | the loop over the paths, mutating the definitions, returns exactly `PatchDocs` |
| SwaggerPatch.PathsFailurePersists | scripts/swagger-codegen.py:17-96 | the first failing path stops the patch with its error |
| SwaggerPatch.StepShape | scripts/swagger-codegen.py:19-96 | a path passes because its return type is already defined, or because it is the fare estimate path returning `V3.FareEstimateResponse` and none of the five definitions exists yet |
| SwaggerPatch.FareFrame | scripts/swagger-codegen.py:96 | adding the fare definitions changes only `definitions`, which then holds `V3.FareEstimateResponse` |
| SwaggerPatch.StepFrame | scripts/swagger-codegen.py:19-96 | one path leaves every other key alone and makes its return type a definition; it changes nothing, or adds the fare definitions for the fare path |
| SwaggerPatch.StepDefinitions | scripts/swagger-codegen.py:26-96 | one path keeps every definition and adds its own return type |
| SwaggerPatch.PathsFrame | scripts/swagger-codegen.py:17-96 | the patch changes no key but `definitions`, which must exist when there is a path |
| SwaggerPatch.PathsReturnTypes | scripts/swagger-codegen.py:17-96 | after the patch every path's return type is a definition |
| SwaggerPatch.PathsDefinitions | scripts/swagger-codegen.py:29-96 | the definitions after the patch are the old ones, or the old ones with the fare definitions added once for a fare estimate path |
| SwaggerPatch.PathsNoop | scripts/swagger-codegen.py:17-29 | when every return type is already defined, the loop changes nothing |
| SwaggerPatch.PatchIdempotent | scripts/swagger-codegen.py:17-96 | patching a patched document succeeds and changes nothing |
| SwaggerPatch.FareAppended | scripts/swagger-codegen.py:93-96 | `update` on distinct definitions that hold none of the five appends them at the end, in order |
| SwaggerPatch.PatchedDocument | scripts/swagger-codegen.py:17-96 | the paths are unchanged, every return type is defined, and the definitions are the old ones or the old ones followed by the five fare definitions |
| SwaggerPatch.KnownReturnTypes | scripts/swagger-codegen.py:29-34 | the patch succeeds only if every return type is an existing definition or one of the fare definitions |
| Text.AfterFirst | scripts/swagger-codegen.py:26-28 | `split(sep, 1)[1]` is absent exactly when `sep` does not occur; otherwise it is the text after the first occurrence |
| Text.AfterFirstChar | scripts/gen-dataclass.py:79 | splitting at `.` succeeds if and only if the text holds a `.`, and gives what follows the first one |
| Text.RemoveSuffix | pyptvdata/gtfs.py:38 | `removesuffix` drops the suffix when present and otherwise changes nothing |
| Text.Strip | pyptvdata/gtfs.py:25 | `strip('/')` removes only `/`s from the two ends, keeps the middle as it stands, leaves no `/` at either end, and leaves text without `/` unchanged |
| Text.DecimalRoundTrip | pyptvdata/apiv3.py:21 | rendering an integer id in decimal loses nothing: parsing it gives the id back |
| Encoding.Utf8RoundTrip | pyptvdata/apiv3.py:22 | `encode('utf-8')` loses nothing: decoding gives back the text |
| Encoding.Hex | pyptvdata/apiv3.py:23 | `hexdigest` gives two lowercase hex digits per byte |
| Encoding.HexRoundTrip | pyptvdata/apiv3.py:23 | the hex digest decodes back to the digest bytes |
| Dicts.GetAssign | pyptvdata/gtfsr.py:13 | after `d[k] = v`, `k` maps to `v` and every other key keeps its value |
| Dicts.AssignAllFresh | scripts/swagger-codegen.py:96 | `update` with new, distinct keys appends the pairs in order |

## Left out

- HTTP is left out. `requests.get`, the session in `PTVAPIClient` and `raise_for_status` are replaced by a response body or a response value given as a parameter. In `read_gtfs_zip` the fetch is a parameter that either gives a response or fails, which stands for any exception `requests.get` raises.
- HMAC-SHA1 is a parameter: any function from key bytes and message bytes to a 20-byte digest. SHA-1 itself is not modelled.
- Protocol-buffer decoding (`ParseFromString`) is a decoder parameter. A decoded message is its fields in field-number order, the order `ListFields` reports them in, each with a set flag.
- Opening zip archives and `pd.read_csv` with the per-table column types are parameters. A table name without registered column types is one of the reader's errors. The outer bundle is given with the nested archives that open, so a `m/google_transit.zip` member that exists but is not a valid zip is reported as a missing member rather than as a bad archive.
- The floats `latitude` and `longitude` in `get_nearby_outlets` and `get_nearby_stops` are taken as their already-formatted text. Python's float formatting is not modelled.
- File writing is left out: the module file in `gen-dataclass.py`, and `swagger.json` in `swagger-codegen.py`. So are the Java code generator runs after line 97 of `swagger-codegen.py`.
- `pyptvdata/apiv3/types.py` is generated output and is not part of this model.
- Python `in`, `[]` and `.get` on values that are not dicts (strings, lists) are modelled as the key being absent. So are the `TypeError`/`AttributeError` they would raise. Such a value under `properties` or `definitions` is reported as not an object.
- DataclassGen.OrderClasses: requires an acyclicity ranking. The source loops forever on cyclic dependencies. The contract states a dependency-respecting order of all classes, not the exact order of the passes.
- DataclassGen.GenerateModule: states that some dependency-respecting order is used, not which one. It needs an acyclicity ranking only for a closed dependency map, where the source would otherwise loop forever.
- DataclassGen.CheckDependencies: a set's iteration order is unspecified, so when the first failing class has several missing dependencies, the one reported is any of them.
- GtfsRealtime.ListFields: its own contract states which fields are listed. Their order, and that each is listed once, is stated by `ListFieldsOrder`.
- DataclassGen.FieldType: its own contract gives only the shape of the result. The type each kind of property maps to is stated by `RefField`, `PrimitiveField` and `RefusedFields`.
- Dafny's `char` cannot hold a lone surrogate. A Python key or endpoint containing one makes `encode('utf-8')` raise in `get_ptv_api_url`, and the model cannot represent that input.
- SwaggerPatch.PatchedDocument: the statement that the definitions are followed by the fare definitions holds only when the document's definition keys are distinct, as they are in parsed JSON.
- The truthiness tests on optional ids in `get_departures`, `get_route_runs`, `get_direction_info` and `get_run_info` are modelled as written: an id of `0` is treated like `None` (see `PtvApi.FalsyOptionalIds`).
