/**
 * The remote API's documents as the translator sees them after JSON
 * decoding: field descriptors, schema documents and collections. The HTTP
 * layer that fetches them is abstracted into a finite map.
 */
module Remote {
  import opened Wrappers

  /**
   * One field descriptor of a remote schema. `default` is the JSON text of
   * the opaque default value; `min`, `max`, `minLength` and `maxLength` are
   * the optional 64-bit bounds, never computed with, so kept as `int`.
   */
  datatype Field = Field(
    typ: string,
    required: bool,
    create: bool,
    update: bool,
    default: Option<string>,
    nullable: bool,
    options: seq<string>,
    min: Option<int>,
    max: Option<int>,
    minLength: Option<int>,
    maxLength: Option<int>,
    validChars: string,
    description: string)

  /**
   * A remote schema's `resourceFields` in the order a `range` over the
   * decoded map visits them: pairs of field name and descriptor.
   */
  type Fields = seq<(string, Field)>

  /** A remote schema document. */
  datatype SchemaDoc = SchemaDoc(
    id: string,
    fields: Fields,
    collectionMethods: seq<string>,
    resourceMethods: seq<string>)

  /** What a failed fetch leaves behind: Go's zero-value schema. */
  const ZeroDoc := SchemaDoc(id := "", fields := [], collectionMethods := [], resourceMethods := [])

  /** A remote collection document; only its resource type is used. */
  datatype Collection = Collection(resourceType: string)

  /**
   * The remote server's schema endpoint: the document served for a type
   * name, or no entry when the fetch or the decoding fails.
   */
  type Server = map<string, SchemaDoc>

  function Fetch(srv: Server, name: string): (r: Option<SchemaDoc>)
    ensures r.Some? <==> name in srv
    ensures r.Some? ==> r.value == srv[name]
  {
    if name in srv then Some(srv[name]) else None
  }

  /** The field names of `fields`. */
  function Names(fields: Fields): set<string> {
    set i | 0 <= i < |fields| :: fields[i].0
  }

  /** The names of the fields flagged required. */
  function RequiredNames(fields: Fields): set<string> {
    set i | 0 <= i < |fields| && fields[i].1.required :: fields[i].0
  }

  /** A decoded JSON object has each key once. */
  predicate DistinctNames(fields: Fields) {
    forall i, j :: 0 <= i < j < |fields| ==> fields[i].0 != fields[j].0
  }
}
