/**
 * A worked instance of the whole translation: a `widgets` collection whose
 * `widget` schema has a required string field `name` and an optional
 * integer field `count`.
 */
module Scenario {
  import opened Wrappers
  import opened OpenApi
  import opened Remote
  import opened Property
  import opened Translate
  import opened Paths
  import opened Walker

  function PlainField(typ: string, required: bool): Field {
    Field(typ := typ, required := required, create := true, update := true, default := None,
          nullable := false, options := [], min := None, max := None, minLength := None,
          maxLength := None, validChars := "", description := "")
  }

  const WidgetDoc := SchemaDoc(
    id := "widget",
    fields := [("name", PlainField("string", true)), ("count", PlainField("int", false))],
    collectionMethods := ["GET", "POST"],
    resourceMethods := ["GET", "PUT", "DELETE"])

  const WidgetServer: Server := map["widget" := WidgetDoc]

  const WidgetCollections := [("widgets", Collection("widget"))]

  lemma WidgetFieldFacts()
    ensures IsLeaf(WidgetServer, WidgetDoc.fields)
    ensures RequiredList(WidgetDoc.fields) == ["name"]
    ensures Names(WidgetDoc.fields) == {"name", "count"} && DistinctNames(WidgetDoc.fields)
  {
    var fields := WidgetDoc.fields;
    Descriptor.KeywordClass("string");
    Descriptor.KeywordClass("int");
    assert fields[1..][1..] == [];
    assert RequiredList(fields[1..]) == [];
    assert fields[0].0 == "name" && fields[1].0 == "count";
  }

  /** The registry after translating `widget`: its object schema alone. */
  const WidgetRegistry: Registry := map["widget" := ObjectSchema(WidgetServer, WidgetDoc.fields)]

  /** The `widget` schema translates in one level, registering only itself. */
  lemma WidgetTranslates()
    ensures TranslateSchema(WidgetServer, WidgetDoc.fields, "widget", map[], 1) == Success(WidgetRegistry)
  {
    WidgetFieldFacts();
    LeafTranslation(WidgetServer, WidgetDoc.fields, "widget", map[], 1);
  }

  /** The `widget` object schema requires `name`, and maps `name` to a string and `count` to an integer. */
  lemma WidgetSchema()
    ensures var s := ObjectSchema(WidgetServer, WidgetDoc.fields);
      && s.required == ["name"]
      && s.properties.Keys == {"name", "count"}
      && s.properties["name"].typ == "string"
      && s.properties["count"].typ == "integer"
  {
    var fields := WidgetDoc.fields;
    WidgetFieldFacts();
    ObjectSchemaCoverage(WidgetServer, fields);
    assert fields[0].1 == PlainField("string", true) && fields[1].1 == PlainField("int", false);
    ScalarTypeMapping(WidgetServer, PlainField("string", true));
    ScalarTypeMapping(WidgetServer, PlainField("int", false));
  }

  lemma WidgetPaths()
    ensures CollectionPath("widgets") == "/widgets" && ResourcePath("widgets") == "/widgets/{id}"
  {
  }

  /** The two path items of the `widgets` collection. */
  function WidgetItems(): map<string, PathItem> {
    map[CollectionPath("widgets") := CollectionItem("widgets", Collection("widget"), WidgetDoc)]
       [ResourcePath("widgets") := ResourceItem(Collection("widget"), WidgetDoc)]
  }

  /** The document after the single loop iteration. */
  function WidgetOutput(): Document {
    Document(WidgetItems(), SetCollectionSchema(WidgetRegistry, "widgets", Collection("widget")),
             CreatePathParameter(map[], "id"))
  }

  /** With any larger bound the translation is the same. */
  lemma WidgetTranslatesAt(fuel: nat)
    requires fuel >= 1
    ensures TranslateSchema(WidgetServer, WidgetDoc.fields, WidgetDoc.id, map[], fuel) == Success(WidgetRegistry)
  {
    WidgetTranslates();
    SchemaFuelMonotone(WidgetServer, WidgetDoc.fields, "widget", map[], 1, fuel);
  }

  lemma WidgetStep(fuel: nat)
    requires fuel >= 1
    ensures ProcessCollection(Document(map[], map[], map[]), WidgetServer, None, "widgets", Collection("widget"), fuel)
            == Success(WidgetOutput())
  {
    WidgetTranslatesAt(fuel);
    assert Selected(None, "widgets");
    ProcessCollectionServed(Document(map[], map[], map[]), WidgetServer, None, "widgets", Collection("widget"), fuel,
                            WidgetDoc, WidgetRegistry);
  }

  lemma WidgetGenerates(fuel: nat)
    requires fuel >= 1
    ensures Generate(map[], WidgetServer, None, WidgetCollections, fuel) == Success(WidgetOutput())
  {
    WidgetStep(fuel);
    ProcessAllSingle(Document(map[], map[], map[]), WidgetServer, None, "widgets", Collection("widget"), fuel);
  }

  lemma WidgetOutputKeys()
    ensures WidgetItems().Keys == {"/widgets", "/widgets/{id}"}
  {
    WidgetPaths();
  }

  /** `/widgets` lists and creates, as the collection methods advertise. */
  lemma WidgetCollectionOperations()
    ensures "/widgets" in WidgetItems()
    ensures WidgetItems()["/widgets"].get.Some? && WidgetItems()["/widgets"].post.Some?
  {
    WidgetPaths();
    var item := CollectionItem("widgets", Collection("widget"), WidgetDoc);
    assert WidgetItems()["/widgets"] == item;
    assert "GET" in WidgetDoc.collectionMethods && "POST" in WidgetDoc.collectionMethods;
  }

  /** `/widgets/{id}` reads, updates and deletes, as the resource methods advertise. */
  lemma WidgetResourceOperations()
    ensures "/widgets/{id}" in WidgetItems()
    ensures var item := WidgetItems()["/widgets/{id}"];
      item.get.Some? && item.put.Some? && item.delete.Some?
  {
    WidgetPaths();
    var item := ResourceItem(Collection("widget"), WidgetDoc);
    assert WidgetItems()["/widgets/{id}"] == item;
    assert "GET" in WidgetDoc.resourceMethods && "PUT" in WidgetDoc.resourceMethods;
    assert "DELETE" in WidgetDoc.resourceMethods;
  }

  /** The registry holds the `widget` object schema and the `widgets` list schema, and nothing else. */
  lemma WidgetOutputSchemas()
    ensures var s := WidgetOutput().schemas;
      && s.Keys == {"widget", "widgets"}
      && s["widget"] == ObjectSchema(WidgetServer, WidgetDoc.fields)
      && s["widgets"] == CollectionSchema("widget")
  {
    ListBesideObject(ObjectSchema(WidgetServer, WidgetDoc.fields));
  }

  /** Registering the `widgets` list schema beside a `widget` entry keeps that entry. */
  lemma ListBesideObject(w: Schema)
    ensures var s := SetCollectionSchema(map["widget" := w], "widgets", Collection("widget"));
      && s.Keys == {"widget", "widgets"}
      && s["widget"] == w
      && s["widgets"] == CollectionSchema("widget")
  {
  }

  /**
   * The output holds a `widget` schema requiring exactly `name`, with
   * `name` a string and `count` an integer, a `widgets` list schema over
   * `widget`, and the two paths with every advertised operation, for every
   * recursion bound of at least one.
   */
  lemma WidgetsEndToEnd(fuel: nat)
    requires fuel >= 1
    ensures var r := Generate(map[], WidgetServer, None, WidgetCollections, fuel);
      && r.Success?
      && r.value.paths.Keys == {"/widgets", "/widgets/{id}"}
      && r.value.schemas.Keys == {"widget", "widgets"}
      && r.value.schemas["widget"].required == ["name"]
      && r.value.schemas["widget"].properties.Keys == {"name", "count"}
      && r.value.schemas["widget"].properties["name"].typ == "string"
      && r.value.schemas["widget"].properties["count"].typ == "integer"
      && r.value.schemas["widgets"] == CollectionSchema("widget")
      && r.value.paths["/widgets"].get.Some? && r.value.paths["/widgets"].post.Some?
      && r.value.paths["/widgets/{id}"].get.Some? && r.value.paths["/widgets/{id}"].put.Some?
      && r.value.paths["/widgets/{id}"].delete.Some?
  {
    WidgetGenerates(fuel);
    WidgetOutputSchemas();
    WidgetSchema();
    WidgetOutputKeys();
    WidgetCollectionOperations();
    WidgetResourceOperations();
  }
}
