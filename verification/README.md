# gen-api-docs translator core, in Dafny

This project models the schema translator of `gen-api-docs`, a tool that
crawls a Rancher-style hypermedia API and writes an OpenAPI 3.0.1 document
describing it. The model covers what `main.go` does between fetching
documents and writing the output:

- **Descriptor classifier** (`descriptor.dfy`, module `Descriptor`). The
  ordered list of anchored regular expressions that `translateSchema` tries
  on a field's type string is a parser into the tagged union `TypeClass`.
  It has one alternative per `case` of the `switch`. The switch is walked
  position by position (`ClassifyFrom`), and the first match wins. `\w`
  is `[A-Za-z0-9_]`. Reference targets use `[a-zA-Z0-9/]`.
- **Per-field fragment** (`property.dfy`, module `Property`). This part
  copies the validation attributes and sets the read-only flag. It builds
  the usage note from the create/update permissions and the type mapping
  of each `case`. The description is the segments joined with `"; "`. A
  nested object type that resolves becomes a `$ref` with every validation
  attribute and the description cleared. `readOnly` is not reset, so a
  read-only nested field keeps `readOnly: true` beside its `$ref`.
- **Registry translation** (`translate.dfy`, module `Translate`). This is
  `translateSchema` over an immutable registry (`components.schemas`).
  A registered name is a no-op. Otherwise the referenced types are
  translated first and the object schema is registered last. A field's
  fragment depends only on the field and on the fetched schema's id, never
  on the registry. So the field loop threads the registry alone, and the
  properties are the fold `PropertyMap` over the same fields. The remote
  server is a finite map from type name to schema document; a missing key
  is a failed fetch.
- **Path and parameter emission** (`paths.dfy`, module `Paths`). This
  covers `createPathParameter`, `setCollectionSchema`, the five operation
  builders, the method-gating loops and `contains`.
- **Collection loop** (`walker.dfy`, module `Walker`). This is the body of
  the loop in `main`: the optional single-collection filter, the denylist,
  the translation of the resource schema, the list schema, and the two
  path items.
- `openapi.dfy` holds the trimmed OpenAPI object model. `remote.dfy` holds
  the remote API's field, schema and collection documents. `strings.dfy`
  holds `strings.Join`. `wrappers.dfy` holds `Option`/`Result`.
  `scenario.dfy` is a worked end-to-end instance with one `widgets`
  collection.

## Behaviour the model follows

- **Cycles.** The presence check on the registry returns early only for a
  type that is already registered. A type is registered only after all
  its fields are translated. So a type that references itself, directly
  or through others, is re-entered before it is registered. In Go the
  recursion then goes on until the process dies of a stack overflow, and
  no output is written. `Translate.SelfReferenceDiverges` proves this for
  a type whose first field has its own type: the translation fails for
  every recursion bound. Without cycles, `Translate.AcyclicTranslates`
  proves that the translation succeeds.
- **Resource paths.** The resource path is `/{collection}/{id}`. Its only
  parameter is the shared `#/components/parameters/id`.
- **Collections.** Only the root collections are walked. The resource
  type of each is the collection's `resourceType`.
- **Type keywords.** Any bare type name without a `case` of its own, such
  as `base64`, `hostname`, `intOrString` or `dnsLabelRestricted`, falls to
  the nested-object default. `map[base64]` is taken by `map[\w+]`
  (`Descriptor.MapOfClassified`). So `base64` is fetched as a type, and
  `additionalProperties` points at the schema fetched for it.
- **`readOnly` beside `$ref`.** A read-only field of a nested object type
  is written as a `$ref` that still carries `readOnly: true`. The reset of
  the other attributes does not touch the flag.
- **Failed fetches.** A failed fetch in the `array[X]` and `map[X]`
  branches, or of a collection's resource schema, is logged and not
  otherwise handled. The schema value `getSchema` returned is translated
  anyway. For a request that failed, that is the Go zero value: an empty
  object is registered under the empty name, and an element reference
  points at `#/components/schemas/`. The model does the same. A failed
  fetch of a nested object type, by contrast, leaves the field as it is.

## Model

| member | source | states |
|---|---|---|
| Descriptor.Classify | main.go:389-401 | every type string gets an alternative whose anchored pattern matches the whole string, and the group it captures lies in the pattern's character class |
| Descriptor.Alternative | main.go:389-401 | the alternative tried at a position of the switch has that position, its anchored pattern matches the whole text, and the group it captures lies in the pattern's character class; the `default` position always applies |
| Descriptor.ClassifyFrom | main.go:403-492 | trying the cases from a given position on yields an alternative at or after that position whose pattern matches the whole text |
| Descriptor.AlternativeComplete | main.go:389-401 | every alternative whose pattern matches the text is found when its own position is tried, so no matching case is passed over |
| Descriptor.ClassifyIsFirstMatch | main.go:403-492 | the alternative chosen is exactly the earliest `case` of the switch whose pattern matches; there is no other |
| Descriptor.ArrayOfIdsPrecedence | main.go:392-396 | `array[reference[X]]` never takes the `array[\w+]` branch, because `\w` excludes `[`; it is classified as an array of ids of X |
| Descriptor.IdOfClassified | main.go:395 | `reference[X]` is classified as an id of X |
| Descriptor.KeywordClass | main.go:404-490 | each keyword (`string`, `boolean`, `object`, `array`, `date`, `password`, `int`, `array[string]`, `array[enum]`, `map[string]`, `enum`, `dnsLabel`) is taken by its own `case` |
| Descriptor.MapOfClassified | main.go:394 | `map[X]`, for any word X other than `string`, is taken by `map[\w+]` and classified as a map of X; so `map[base64]` fetches `base64` as a type |
| Descriptor.IntArrayIsTypeReference | main.go:392 | `array[int]` matches `array[\w+]`, so `int` is treated as a type to fetch |
| Property.ResolvedDoc | main.go:432-501 | a schema is fetched exactly for `array[X]`, `map[X]` and a nested type the server serves |
| Property.FetchedDocument | main.go:432-501 | for `array[X]`/`map[X]` the fetched schema is the served document of X, or the zero-value document when X is not served; for a served nested type it is that type's document |
| Property.Typed | main.go:403-516 | the type mapping never touches `readOnly`, and changes the reference only when a nested type resolved |
| Property.TypedAttributes | main.go:403-516 | each `case` keeps the copied validation attributes unless a nested type resolved, `dnsLabel` sets the hostname pattern, the scalar arrays set string items, and `map[string]` sets an object with the example `{"key": "value"}` |
| Property.FieldFragment | main.go:345-520 | the fragment stored for a field is read-only iff neither create nor update is allowed, and is a reference iff the field is of a nested type the server serves, to that type's fetched id |
| Property.Fragment | main.go:346-369 | read-only iff neither create nor update; a `$ref` exactly when a nested type resolved, to the fetched id, with default, enum, bounds, pattern, nullable and description cleared; `array[X]` and `map[X]` point items / additionalProperties at X's fetched id |
| Property.FragmentAttributes | main.go:346-490 | a fragment that is not a reference carries the field's default, options, bounds, lengths and nullability; its pattern is the field's allowed characters, or the hostname pattern for `dnsLabel`; `array[string]` and `array[enum]` are arrays of strings; `map[string]` is an object with the example `{"key": "value"}` and no `additionalProperties` |
| Property.DescriptionShape | main.go:364-386 | the exact description text of every non-reference fragment: for a writable field, "Allowed in Methods:", then `POST` if creatable and `PUT` if updatable; then the field's own text if any; then the class's note if any; the parts present are separated by "; ", so a create-only field with no text and no note gets "Allowed in Methods: `POST`" and nothing more |
| Property.NestedReference | main.go:492-515 | a served nested type gives a reference to `#/components/schemas/<id>` with every validation attribute and the description cleared (`readOnly` is kept); an unserved one gives no reference and keeps all eight copied attributes |
| Property.ScalarTypeMapping | main.go:404-417 | string/boolean/object/array pass through; date is a date-time string; password a password string; int an integer; enum a string; dnsLabel a string with the hostname pattern and the note "Must be valid Hostname" |
| Property.IdTypeMapping | main.go:471-482 | `array[reference[X]]` is an array of strings noted "Array of Ids of X"; `reference[X]` is a string noted "Id of X"; neither is a reference |
| Property.ScalarArrayNoteLost | main.go:418-431 | the "Array of Strings" / "Array of Valid Options" texts are overwritten: a scalar-array field's description equals that of a plain string field with the same flags and text |
| Translate.RequiredList | main.go:338-343 | the required list holds exactly the names of the fields flagged required |
| Translate.TranslateSchema | main.go:327-336 | a registered name leaves the registry unchanged; a success never drops or changes an existing entry and registers the name; a new name maps to the object schema of its fields |
| Translate.TranslateFields | main.go:345-521 | the field loop, which translates each field's referenced type in field order, only adds registry entries and never drops or changes one |
| Translate.Resolve | main.go:432-470 | the branches that fetch translate the fetched schema, which is then registered; the other branches leave the registry alone |
| Translate.FieldsRegisterFetched | main.go:432-501 | after a successful field loop, the schema every field fetched is registered under its id |
| Translate.SchemaRegistersFetched | main.go:327-529 | translating a new type registers the schema every one of its fields fetched |
| Translate.FragmentRefersIntoRegistry | main.go:440-513 | when the schema a field fetched is registered, every `$ref` in that field's fragment, including array items and map values, names a registered schema |
| Translate.TranslatedReferencesResolve | main.go:440-513 | after a new type is translated, every `$ref` in its fields' fragments, including array items and map values, names a registered schema |
| Translate.PropertyMapKeys | main.go:345-520 | the properties the field loop stores have exactly the field names as keys, besides those already present |
| Translate.PropertyMapValues | main.go:345-520 | with distinct field names, each field's own fragment is stored under its name |
| Translate.PropertyMapUntouched | main.go:345-520 | a property no field names keeps its value |
| Translate.ObjectSchema | main.go:338-527 | the registered schema is an `object` with no reference, its property keys are exactly the field names, and its required names are exactly the required fields |
| Translate.FieldCoverage | main.go:520-529 | the registered schema is an object whose property keys are exactly the field names; its required names, as a set, are exactly the required fields; each field's own fragment sits under its name; no reference property carries a validation attribute or a description (`readOnly` may remain) |
| Translate.ObjectSchemaCoverage | main.go:345-529 | the object schema built from a type's fields has exactly the field names as property keys, each field's own fragment under its name when names are distinct, and no reference property with a validation attribute or a description (`readOnly` may remain) |
| Translate.TranslateIdempotent | main.go:331-336 | after a successful translation, translating the same name again, with any fields, changes nothing |
| Translate.SchemaFuelMonotone | main.go:327-531 | a larger recursion bound gives the same registry, so the bound only cuts off recursion and does not change the result |
| Translate.SelfReferenceDiverges | main.go:492-501 | a type whose first field is of its own nested type is re-entered before it is registered, so no recursion bound suffices (Go overflows its stack) |
| Translate.AcyclicTranslates | main.go:327-531 | when a rank makes every type fetched by a served type's field rank strictly lower (no cycle of references), the translation of a served type succeeds for every bound above its rank, from any registry |
| Translate.LeafTranslation | main.go:523-529 | a type whose fields fetch nothing translates within a bound of one and registers only itself |
| Translate.UnresolvedElementType | main.go:432-469 | an `array[X]`/`map[X]` whose element type cannot be fetched registers an empty object under the empty name and points at it |
| Paths.CreatePathParameter | main.go:289-301 | adds a required string path parameter named `name` only when absent; every existing entry is kept unchanged |
| Paths.SetCollectionSchema | main.go:303-325 | the collection's name maps to an object that is allOf the `collection` envelope, with `data` an array of references to the resource type; that entry is replaced unconditionally and all other entries are kept |
| Paths.CollectionGet | main.go:238-258 | list operation: a single 200 response whose only schema reference is the collection's list schema; no request body |
| Paths.CollectionPost | main.go:260-287 | create operation: request body and 200 response, whose only schema reference is the resource type |
| Paths.ResourceGet | main.go:174-201 | read operation: takes the `id` parameter; its only schema reference is the resource type |
| Paths.ResourcePut | main.go:203-236 | update operation: takes the `id` parameter, has a request body; its only schema reference is the resource type |
| Paths.ResourceDelete | main.go:162-172 | delete operation: a single 204 response with no schema at all |
| Paths.CollectionMethods | main.go:117-126 | the list operation is set iff `GET` is advertised and the create operation iff `POST` is; other methods change nothing |
| Paths.ResourceMethods | main.go:139-149 | the get, put and delete operations are set iff `GET`, `PUT` and `DELETE` are advertised; other methods, `POST` included, change nothing |
| Paths.Contains | main.go:616-623 | true iff the string occurs in the list |
| Walker.CollectionItem | main.go:117-127 | `/col` has Get iff `GET` is among the schema's collection methods and Post iff `POST` is; never Put or Delete |
| Walker.ResourceItem | main.go:129-150 | `/col/{id}` always carries the `#/components/parameters/id` reference; Get, Put, Delete iff advertised; never Post |
| Walker.Emit | main.go:112-150 | after translation, exactly `/col` and `/col/{id}` are added with their path items, `id` is declared and existing parameters kept, and the registry gains only the collection's list schema, with every other entry kept |
| Walker.ProcessCollection | main.go:84-150 | a filtered-out or denylisted collection changes nothing; otherwise exactly `/col` and `/col/{id}` are written, `id` is declared, the resource schema and the list schema are registered, and every other path, parameter and schema entry is untouched |
| Walker.ProcessCollectionServed | main.go:98-150 | a selected collection whose resource type the server serves translates that schema, then yields exactly its two path items, the registry with its list schema, and the `id` parameter |
| Walker.ProcessAll | main.go:83-151 | the loop adds exactly the two paths of each selected collection, never drops a schema or parameter name, leaves every other path's item alone, and keeps the value of every schema no selected collection is named after |
| Walker.PathEquations | main.go:126-150 | `/a` equals `/b` only when a = b, `/a` equals `/b/{id}` only when a is `b/{id}`, and `/a/{id}` equals `/b/{id}` only when a = b |
| Walker.ProcessAllItems | main.go:83-151 | after the loop, a selected collection that no later selected collection collides with holds at `/col` the item with Get iff `GET` and Post iff `POST` is advertised, at `/col/{id}` the item with the `id` reference and the advertised Get, Put and Delete, and at `schemas[col]` its list schema |
| Walker.Generate | main.go:71-151 | the output's paths are exactly those of the selected collections, every base schema name is kept, and a base schema no selected collection is named after keeps its value |
| Walker.GenerateItems | main.go:71-151 | the same holds in the generated document, so the list schema replaces any base schema named like the collection |
| Walker.DenylistedNeverEmitted | main.go:24-31 | a denylisted collection never gets `/name`, wherever it appears in the loop, and gets no `/name/{id}` unless some collection is itself named `name/{id}` |
| Scenario.WidgetsEndToEnd | main.go:104-150 | for every recursion bound of at least one, a `widgets` collection over a `widget` schema with required string `name` and optional int `count` yields `required: [name]`, `name` a string, `count` an integer, a `widgets` list schema over `widget`, and both paths with every advertised operation |

## Left out

- The HTTP layer is not modelled: `httpGet`, `getSchema`, `getCollection`
  and `getCollections` use TLS verification off, basic auth and JSON
  decoding. Schema fetches are a finite map `Server` from type name to
  decoded document. A missing key is a failed request, which yields the
  Go zero value. The root collections arrive already fetched, as a
  sequence of (name, collection) pairs.
- `httpGet` does not check the HTTP status. A response with an error
  status whose body decodes counts as a success. The model can express
  that only as a served document, which is whatever that body decodes to.
- A body that `json.Unmarshal` decodes only in part: Go keeps the fields
  decoded before the type error, and `getSchema` returns that partial
  schema with the error. The `array[X]`/`map[X]` branches and the resource
  fetch then translate the partial schema. The model has no partial
  documents: such a fetch is either a served document or a missing key,
  and a missing key gives the zero value.
- A failed `getCollection` is not modelled. The source goes on with a nil
  collection and crashes, so that is not behaviour to specify.
- File and environment I/O is left out. This covers reading
  `data/descriptions.yml` and `data/base.yml`, writing the output, and
  logging. The base schemas are an input registry. The `COLLECTION`
  environment filter is the optional `only` input. `LOG_LEVEL` and
  `printPretty` have no effect on the document.
- Go map iteration order is unspecified. A schema's fields and the root
  collections are sequences in one `range` visit order. The two `range`
  loops over the same field map (main.go:339 and main.go:345) may visit
  the fields in different orders. The model ties both loops to one order,
  which fixes the order of `required` to the property order. So `required`
  is only promised as a set.
- `Default` and `Example` are `interface{}` payloads. `Default` is kept as
  optional JSON text. `Example` is the one string map the code writes.
- `openapi/v3.0.1/types.go` is borrowed only as the trimmed datatypes in
  `openapi.dfy`. `openapi/v2.0/types.go` is not used by `main.go` and is
  not part of this model.
- Translate.TranslateSchema: the source's recursion has no bound. The
  model takes a `fuel` bound and fails with `OutOfFuel` when it runs out.
  When the references between served types have no cycle, as witnessed by
  a rank, `AcyclicTranslates` shows that every bound above a type's rank
  succeeds. `SchemaFuelMonotone` shows that the result does not depend on
  the bound. On a cycle the source recurses until the process dies of a
  stack overflow. For a type that
  references itself, `SelfReferenceDiverges` shows that no bound succeeds.
