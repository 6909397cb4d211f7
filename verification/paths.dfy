/**
 * Path and parameter emission: the shared `id` path parameter, the
 * collection envelope schema, the five operation builders, and the gating
 * of operations on the methods a schema advertises.
 */
module Paths {
  import opened Wrappers
  import opened OpenApi
  import opened Remote

  const JsonMediaType := "application/json"

  /** Reference to the shared `id` path parameter. */
  const IdParameterRef := "#/components/parameters/id"

  const IdParameter := EmptyParameter.(ref := IdParameterRef)

  /** Registry name of the generic collection envelope every list schema extends. */
  const CollectionEnvelope := "collection"

  /** A required string parameter taken from the path. */
  function PathParameter(name: string): Parameter {
    EmptyParameter.(name := name, location := "path", required := true, schema := Some(EmptySchema.(typ := "string")))
  }

  /** `createPathParameter`: declares the path parameter `name` unless some parameter of that name exists. */
  function CreatePathParameter(params: map<string, Parameter>, name: string): (r: map<string, Parameter>)
    ensures r.Keys == params.Keys + {name}
    ensures forall k :: k in params ==> r[k] == params[k]
    ensures name !in params ==>
      r[name].name == name && r[name].location == "path" && r[name].required
      && r[name].schema == Some(EmptySchema.(typ := "string")) && r[name].ref == ""
  {
    if name in params then params else params[name := PathParameter(name)]
  }

  /** Declaring a parameter twice is the same as declaring it once. */
  lemma CreatePathParameterIdempotent(params: map<string, Parameter>, name: string)
    ensures CreatePathParameter(CreatePathParameter(params, name), name) == CreatePathParameter(params, name)
  {
  }

  /** The list schema of a collection: the envelope, with `data` an array of the resource type. */
  function CollectionSchema(resourceType: string): Schema {
    EmptySchema.(
      typ := "object",
      allOf := [RefSchema(CollectionEnvelope)],
      properties := map["data" := EmptySchema.(typ := "array", items := Some(RefSchema(resourceType)))])
  }

  /** `setCollectionSchema`: registers the list schema under the collection's name, replacing any entry. */
  function SetCollectionSchema(reg: Registry, name: string, coll: Collection): (r: Registry)
    ensures r.Keys == reg.Keys + {name}
    ensures forall k :: k in reg && k != name ==> r[k] == reg[k]
    ensures r[name].typ == "object" && r[name].allOf == [RefSchema(CollectionEnvelope)]
    ensures r[name].properties.Keys == {"data"}
    ensures r[name].properties["data"].typ == "array"
    ensures r[name].properties["data"].items == Some(RefSchema(coll.resourceType))
  {
    reg[name := CollectionSchema(coll.resourceType)]
  }

  /** A JSON body that is the registry entry `name`. */
  function JsonBody(name: string): map<string, MediaType> {
    map[JsonMediaType := MediaType(Some(RefSchema(name)))]
  }

  /** The references of the schemas a content map carries. */
  function ContentRefs(content: map<string, MediaType>): set<string> {
    set k | k in content && content[k].schema.Some? :: content[k].schema.value.ref
  }

  /** Every schema reference an operation's request and responses carry. */
  function OperationRefs(op: Operation): set<string> {
    (if op.requestBody.Some? then ContentRefs(op.requestBody.value.content) else {})
    + (set k, x | k in op.responses && x in ContentRefs(op.responses[k].content) :: x)
  }

  lemma JsonBodyRefs(name: string)
    ensures ContentRefs(JsonBody(name)) == {SchemaRef(name)}
  {
    assert JsonMediaType in JsonBody(name);
  }

  /** `createCollectionGet`: lists the collection, answering with its list schema. */
  function CollectionGet(col: string): (r: Operation)
    ensures r.responses.Keys == {"200"} && r.requestBody.None? && r.parameters == []
    ensures OperationRefs(r) == {SchemaRef(col)}
  {
    JsonBodyRefs(col);
    Operation(
      description := "`" + col + "` Collection",
      parameters := [],
      requestBody := None,
      responses := map["200" := Response("Returns list of '" + col + "'", JsonBody(col))])
  }

  /** `createCollectionPost`: creates a resource, sending and answering with the resource type. */
  function CollectionPost(col: string, coll: Collection): (r: Operation)
    ensures r.responses.Keys == {"200"} && r.requestBody.Some? && r.parameters == []
    ensures OperationRefs(r) == {SchemaRef(coll.resourceType)}
  {
    var content := JsonBody(coll.resourceType);
    JsonBodyRefs(coll.resourceType);
    Operation(
      description := "`" + col + "` Collection",
      parameters := [],
      requestBody := Some(RequestBody("Create a new `" + coll.resourceType + "` object.", content)),
      responses := map["200" := Response("Returns new `" + coll.resourceType + "` object.", content)])
  }

  /** `createResourceGet`: reads one resource by id. */
  function ResourceGet(resourceType: string): (r: Operation)
    ensures r.responses.Keys == {"200"} && r.requestBody.None? && r.parameters == [IdParameter]
    ensures OperationRefs(r) == {SchemaRef(resourceType)}
  {
    JsonBodyRefs(resourceType);
    Operation(
      description := "`" + resourceType + "` Resource",
      parameters := [IdParameter],
      requestBody := None,
      responses := map["200" := Response("Returns '" + resourceType + "' object.", JsonBody(resourceType))])
  }

  /** `createResourcePut`: replaces one resource by id. */
  function ResourcePut(resourceType: string): (r: Operation)
    ensures r.responses.Keys == {"200"} && r.requestBody.Some? && r.parameters == [IdParameter]
    ensures OperationRefs(r) == {SchemaRef(resourceType)}
  {
    var content := JsonBody(resourceType);
    JsonBodyRefs(resourceType);
    Operation(
      description := "`" + resourceType + "` Resource",
      parameters := [IdParameter],
      requestBody := Some(RequestBody("Update `" + resourceType + "` object.", content)),
      responses := map["200" := Response("Returns '" + resourceType + "' object.", content)])
  }

  /** `createResourceDelete`: deletes one resource; the answer has no body. */
  function ResourceDelete(resourceType: string): (r: Operation)
    ensures r.responses.Keys == {"204"} && r.requestBody.None? && r.parameters == []
    ensures OperationRefs(r) == {}
  {
    Operation(
      description := "Delete `" + resourceType + "` Resource",
      parameters := [],
      requestBody := None,
      responses := map["204" := Response("Delete Successful", map[])])
  }

  /**
   * The collection path's loop over advertised methods: `GET` sets the list
   * operation, `POST` the create operation, anything else is only logged.
   */
  function CollectionMethods(item: PathItem, col: string, coll: Collection, methods: seq<string>): (r: PathItem)
    ensures r.get == if "GET" in methods then Some(CollectionGet(col)) else item.get
    ensures r.post == if "POST" in methods then Some(CollectionPost(col, coll)) else item.post
    ensures r.put == item.put && r.delete == item.delete && r.parameters == item.parameters
    decreases |methods|
  {
    if |methods| == 0 then item
    else
      var m := methods[0];
      var item' :=
        if m == "GET" then item.(get := Some(CollectionGet(col)))
        else if m == "POST" then item.(post := Some(CollectionPost(col, coll)))
        else item;
      assert forall x :: x in methods <==> x == m || x in methods[1..];
      CollectionMethods(item', col, coll, methods[1..])
  }

  /**
   * The resource path's loop over advertised methods: `GET`, `PUT` and
   * `DELETE` set their operations, anything else is only logged.
   */
  function ResourceMethods(item: PathItem, resourceType: string, methods: seq<string>): (r: PathItem)
    ensures r.get == if "GET" in methods then Some(ResourceGet(resourceType)) else item.get
    ensures r.put == if "PUT" in methods then Some(ResourcePut(resourceType)) else item.put
    ensures r.delete == if "DELETE" in methods then Some(ResourceDelete(resourceType)) else item.delete
    ensures r.post == item.post && r.parameters == item.parameters
    decreases |methods|
  {
    if |methods| == 0 then item
    else
      var m := methods[0];
      var item' :=
        if m == "GET" then item.(get := Some(ResourceGet(resourceType)))
        else if m == "PUT" then item.(put := Some(ResourcePut(resourceType)))
        else if m == "DELETE" then item.(delete := Some(ResourceDelete(resourceType)))
        else item;
      assert forall x :: x in methods <==> x == m || x in methods[1..];
      ResourceMethods(item', resourceType, methods[1..])
  }

  /** `contains`: whether `x` occurs in `a`. */
  method Contains(a: seq<string>, x: string) returns (found: bool)
    ensures found <==> x in a
  {
    var i := 0;
    while i < |a|
      invariant 0 <= i <= |a|
      invariant x !in a[..i]
    {
      if a[i] == x {
        return true;
      }
      assert a[..i + 1] == a[..i] + [a[i]];
      i := i + 1;
    }
    assert a[..i] == a;
    return false;
  }
}
