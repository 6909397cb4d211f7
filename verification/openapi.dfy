/**
 * The part of the OpenAPI 3.0.1 object model that the translator writes:
 * Schema, Parameter, MediaType, Response, RequestBody, Operation and
 * PathItem objects, and the output document's three mutable registries.
 * Fields the translator never sets are left out; a Go string field that is
 * empty is omitted from the serialised document, and so is `None` here.
 */
module OpenApi {
  import opened Wrappers

  /** Prefix of every reference into `components.schemas`. */
  const SchemaRefPrefix := "#/components/schemas/"

  /** The JSON reference to the registry entry `name`. */
  function SchemaRef(name: string): (r: string)
    ensures |r| == |SchemaRefPrefix| + |name|
    ensures r[..|SchemaRefPrefix|] == SchemaRefPrefix && r[|SchemaRefPrefix|..] == name
  {
    SchemaRefPrefix + name
  }

  /**
   * A Schema Object. `default` holds the JSON text of the Go program's
   * `interface{}` default; `example` is the only example the translator
   * ever writes, a string-to-string map.
   */
  datatype Schema = Schema(
    ref: string,
    typ: string,
    format: string,
    description: string,
    default: Option<string>,
    enum: seq<string>,
    maximum: Option<int>,
    minimum: Option<int>,
    maxLength: Option<int>,
    minLength: Option<int>,
    pattern: string,
    nullable: bool,
    readOnly: bool,
    items: Option<Schema>,
    additionalProperties: Option<Schema>,
    properties: map<string, Schema>,
    required: seq<string>,
    allOf: seq<Schema>,
    example: Option<map<string, string>>)

  /** The zero value of the Go `Schema` struct: every field omitted. */
  const EmptySchema := Schema(
    ref := "", typ := "", format := "", description := "", default := None,
    enum := [], maximum := None, minimum := None, maxLength := None,
    minLength := None, pattern := "", nullable := false, readOnly := false,
    items := None, additionalProperties := None, properties := map[],
    required := [], allOf := [], example := None)

  /** A schema that is nothing but a reference to the registry entry `name`. */
  function RefSchema(name: string): Schema {
    EmptySchema.(ref := SchemaRef(name))
  }

  /** A Parameter Object; `location` is the object's `in` field. */
  datatype Parameter = Parameter(
    ref: string,
    name: string,
    location: string,
    required: bool,
    schema: Option<Schema>)

  const EmptyParameter := Parameter(ref := "", name := "", location := "", required := false, schema := None)

  datatype MediaType = MediaType(schema: Option<Schema>)

  datatype Response = Response(description: string, content: map<string, MediaType>)

  datatype RequestBody = RequestBody(description: string, content: map<string, MediaType>)

  datatype Operation = Operation(
    description: string,
    parameters: seq<Parameter>,
    requestBody: Option<RequestBody>,
    responses: map<string, Response>)

  datatype PathItem = PathItem(
    get: Option<Operation>,
    post: Option<Operation>,
    put: Option<Operation>,
    delete: Option<Operation>,
    parameters: seq<Parameter>)

  const EmptyPathItem := PathItem(get := None, post := None, put := None, delete := None, parameters := [])

  /** `components.schemas`: type name to its schema. */
  type Registry = map<string, Schema>

  /** The output document's mutable state: paths, schemas and parameters. */
  datatype Document = Document(
    paths: map<string, PathItem>,
    schemas: Registry,
    parameters: map<string, Parameter>)

  /** `b` keeps every entry of `a`, with the same value. */
  ghost predicate Extends(a: Registry, b: Registry) {
    forall k :: k in a ==> k in b && b[k] == a[k]
  }

  lemma ExtendsTransitive(a: Registry, b: Registry, c: Registry)
    requires Extends(a, b) && Extends(b, c)
    ensures Extends(a, c)
  {
  }
}
