/**
 * The collection loop of `main`: for every root collection that passes the
 * optional name filter and the denylist, translate its resource schema,
 * register its list schema, and emit the collection path and the resource
 * path with the operations its schema advertises. The collections (already
 * fetched) and the remote schemas are inputs.
 */
module Walker {
  import opened Wrappers
  import opened OpenApi
  import opened Remote
  import opened Translate
  import opened Paths

  /** Collections whose documents do not follow the generic convention. */
  const Skips: set<string> := {"root", "self", "subscribe", "authConfigs", "dynamicSchemas", "ldapConfigs"}

  function CollectionPath(col: string): string {
    "/" + col
  }

  function ResourcePath(col: string): string {
    "/" + col + "/{id}"
  }

  /** The collection passes the optional single-collection filter and is not denylisted. */
  predicate Selected(only: Option<string>, col: string) {
    (only.None? || only.value == col) && col !in Skips
  }

  /** The resource schema of a collection, or the zero value when it cannot be fetched. */
  function ResourceDoc(srv: Server, coll: Collection): SchemaDoc {
    Fetch(srv, coll.resourceType).GetOr(ZeroDoc)
  }

  /** The `/{col}` path item. */
  function CollectionItem(col: string, coll: Collection, doc: SchemaDoc): (r: PathItem)
    ensures r.get.Some? <==> "GET" in doc.collectionMethods
    ensures r.post.Some? <==> "POST" in doc.collectionMethods
    ensures r.put.None? && r.delete.None?
  {
    CollectionMethods(EmptyPathItem, col, coll, doc.collectionMethods)
  }

  /** The `/{col}/{id}` path item. */
  function ResourceItem(coll: Collection, doc: SchemaDoc): (r: PathItem)
    ensures r.parameters == [IdParameter]
    ensures r.get.Some? <==> "GET" in doc.resourceMethods
    ensures r.put.Some? <==> "PUT" in doc.resourceMethods
    ensures r.delete.Some? <==> "DELETE" in doc.resourceMethods
    ensures r.post.None?
  {
    ResourceMethods(EmptyPathItem.(parameters := [IdParameter]), coll.resourceType, doc.resourceMethods)
  }

  /** One iteration of the collection loop. */
  function ProcessCollection(d: Document, srv: Server, only: Option<string>, col: string, coll: Collection, fuel: nat)
    : (r: Result<Document, Halt>)
    ensures !Selected(only, col) ==> r == Success(d)
    ensures Selected(only, col) && r.Success? ==>
      var d' := r.value;
      var doc := ResourceDoc(srv, coll);
      && d'.paths.Keys == d.paths.Keys + {CollectionPath(col), ResourcePath(col)}
      && (forall p :: p in d.paths && p != CollectionPath(col) && p != ResourcePath(col) ==> d'.paths[p] == d.paths[p])
      && d'.paths[CollectionPath(col)] == CollectionItem(col, coll, doc)
      && d'.paths[ResourcePath(col)] == ResourceItem(coll, doc)
      && "id" in d'.parameters && (forall k :: k in d.parameters ==> k in d'.parameters && d'.parameters[k] == d.parameters[k])
      && d.schemas.Keys + {col, doc.id} <= d'.schemas.Keys
      && (forall k :: k in d.schemas && k != col ==> d'.schemas[k] == d.schemas[k])
      && d'.schemas[col] == CollectionSchema(coll.resourceType)
  {
    if !Selected(only, col) then Success(d)
    else
      var doc := ResourceDoc(srv, coll);
      var schemas :- TranslateSchema(srv, doc.fields, doc.id, d.schemas, fuel);
      Success(Emit(d, schemas, col, coll, doc))
  }

  /** The writes after translation: the list schema, the two path items and the `id` parameter. */
  function Emit(d: Document, schemas: Registry, col: string, coll: Collection, doc: SchemaDoc): (r: Document)
    ensures r.paths.Keys == d.paths.Keys + {CollectionPath(col), ResourcePath(col)}
    ensures forall p :: p in d.paths && p != CollectionPath(col) && p != ResourcePath(col) ==> r.paths[p] == d.paths[p]
    ensures r.paths[CollectionPath(col)] == CollectionItem(col, coll, doc)
    ensures r.paths[ResourcePath(col)] == ResourceItem(coll, doc)
    ensures "id" in r.parameters
    ensures forall k :: k in d.parameters ==> k in r.parameters && r.parameters[k] == d.parameters[k]
    ensures r.schemas.Keys == schemas.Keys + {col}
    ensures forall k :: k in schemas && k != col ==> r.schemas[k] == schemas[k]
    ensures r.schemas[col] == CollectionSchema(coll.resourceType)
  {
    assert |CollectionPath(col)| < |ResourcePath(col)|;
    var schemas := SetCollectionSchema(schemas, col, coll);
    var paths := d.paths[CollectionPath(col) := CollectionItem(col, coll, doc)];
    var parameters := CreatePathParameter(d.parameters, "id");
    var paths := paths[ResourcePath(col) := ResourceItem(coll, doc)];
    Document(paths, schemas, parameters)
  }

  /** A selected collection whose resource schema translates to `reg` yields its two paths, `reg` with its list schema, and `id`. */
  lemma ProcessCollectionSelected(d: Document, srv: Server, only: Option<string>, col: string, coll: Collection,
                                  fuel: nat, reg: Registry)
    requires Selected(only, col)
    requires TranslateSchema(srv, ResourceDoc(srv, coll).fields, ResourceDoc(srv, coll).id, d.schemas, fuel) == Success(reg)
    ensures ProcessCollection(d, srv, only, col, coll, fuel) == Success(Document(
      d.paths[CollectionPath(col) := CollectionItem(col, coll, ResourceDoc(srv, coll))]
             [ResourcePath(col) := ResourceItem(coll, ResourceDoc(srv, coll))],
      SetCollectionSchema(reg, col, coll),
      CreatePathParameter(d.parameters, "id")))
  {
  }

  /** The same, for a collection whose resource type the server serves with `doc`. */
  lemma ProcessCollectionServed(d: Document, srv: Server, only: Option<string>, col: string, coll: Collection,
                                fuel: nat, doc: SchemaDoc, reg: Registry)
    requires Selected(only, col) && coll.resourceType in srv && srv[coll.resourceType] == doc
    requires TranslateSchema(srv, doc.fields, doc.id, d.schemas, fuel) == Success(reg)
    ensures ProcessCollection(d, srv, only, col, coll, fuel) == Success(Document(
      d.paths[CollectionPath(col) := CollectionItem(col, coll, doc)][ResourcePath(col) := ResourceItem(coll, doc)],
      SetCollectionSchema(reg, col, coll),
      CreatePathParameter(d.parameters, "id")))
  {
    ProcessCollectionSelected(d, srv, only, col, coll, fuel, reg);
  }

  /** The names of the collections the loop processes. */
  function SelectedNames(only: Option<string>, cols: seq<(string, Collection)>): set<string> {
    set i | 0 <= i < |cols| && Selected(only, cols[i].0) :: cols[i].0
  }

  /** The paths the loop writes. */
  function EmittedPaths(only: Option<string>, cols: seq<(string, Collection)>): set<string> {
    (set c | c in SelectedNames(only, cols) :: CollectionPath(c))
    + (set c | c in SelectedNames(only, cols) :: ResourcePath(c))
  }

  lemma SelectedNamesCons(only: Option<string>, cols: seq<(string, Collection)>)
    requires |cols| > 0
    ensures SelectedNames(only, cols) ==
      (if Selected(only, cols[0].0) then {cols[0].0} else {}) + SelectedNames(only, cols[1..])
  {
    forall n | n in SelectedNames(only, cols)
      ensures n in (if Selected(only, cols[0].0) then {cols[0].0} else {}) + SelectedNames(only, cols[1..])
    {
      var i :| 0 <= i < |cols| && Selected(only, cols[i].0) && cols[i].0 == n;
      if i > 0 { assert cols[1..][i - 1] == cols[i]; }
    }
    forall n | n in SelectedNames(only, cols[1..]) ensures n in SelectedNames(only, cols) {
      var i :| 0 <= i < |cols[1..]| && Selected(only, cols[1..][i].0) && cols[1..][i].0 == n;
      assert cols[i + 1] == cols[1..][i];
    }
  }

  /** The paths of a non-empty loop are those of its first collection, if selected, and those of the rest. */
  lemma EmittedPathsCons(only: Option<string>, cols: seq<(string, Collection)>)
    requires |cols| > 0
    ensures EmittedPaths(only, cols) ==
      (if Selected(only, cols[0].0) then {CollectionPath(cols[0].0), ResourcePath(cols[0].0)} else {})
      + EmittedPaths(only, cols[1..])
  {
    SelectedNamesCons(only, cols);
  }

  /**
   * The whole loop, in the order the range visits the collections. The
   * paths it adds are exactly those of the selected collections, and no
   * parameter or registry name is ever dropped.
   */
  function ProcessAll(d: Document, srv: Server, only: Option<string>, cols: seq<(string, Collection)>, fuel: nat)
    : (r: Result<Document, Halt>)
    ensures r.Success? ==> r.value.paths.Keys == d.paths.Keys + EmittedPaths(only, cols)
    ensures r.Success? ==> d.schemas.Keys <= r.value.schemas.Keys && d.parameters.Keys <= r.value.parameters.Keys
    ensures r.Success? && SelectedNames(only, cols) != {} ==> "id" in r.value.parameters
    ensures r.Success? ==> forall p :: p in d.paths && p !in EmittedPaths(only, cols) ==> r.value.paths[p] == d.paths[p]
    ensures r.Success? ==> forall k :: k in d.schemas && k !in SelectedNames(only, cols) ==> r.value.schemas[k] == d.schemas[k]
    decreases |cols|
  {
    if |cols| == 0 then Success(d)
    else
      var d1 :- ProcessCollection(d, srv, only, cols[0].0, cols[0].1, fuel);
      var r := ProcessAll(d1, srv, only, cols[1..], fuel);
      SelectedNamesCons(only, cols);
      EmittedPathsCons(only, cols);
      r
  }

  /** What the name of one collection determines of its two paths. */
  lemma PathEquations(a: string, b: string)
    ensures CollectionPath(a) == CollectionPath(b) ==> a == b
    ensures CollectionPath(a) == ResourcePath(b) ==> a == b + "/{id}"
    ensures ResourcePath(a) == ResourcePath(b) ==> a == b
  {
    assert CollectionPath(a)[1..] == a && CollectionPath(b)[1..] == b;
    assert ResourcePath(b)[1..] == b + "/{id}";
    assert ResourcePath(a)[1..|ResourcePath(a)| - 5] == a;
    assert ResourcePath(b)[1..|ResourcePath(b)| - 5] == b;
  }

  /** Two collections whose paths cannot coincide: different names, neither the other's resource path. */
  predicate Apart(a: string, b: string) {
    a != b && a != b + "/{id}" && b != a + "/{id}"
  }

  /** A collection apart from every selected one keeps its paths and its registry entry out of the loop's writes. */
  lemma ApartNotEmitted(only: Option<string>, cols: seq<(string, Collection)>, col: string)
    requires forall j :: 0 <= j < |cols| && Selected(only, cols[j].0) ==> Apart(col, cols[j].0)
    ensures CollectionPath(col) !in EmittedPaths(only, cols) && ResourcePath(col) !in EmittedPaths(only, cols)
    ensures col !in SelectedNames(only, cols)
  {
    forall c | c in SelectedNames(only, cols)
      ensures c != col && CollectionPath(col) != CollectionPath(c) && CollectionPath(col) != ResourcePath(c)
      ensures ResourcePath(col) != CollectionPath(c) && ResourcePath(col) != ResourcePath(c)
    {
      var j :| 0 <= j < |cols| && Selected(only, cols[j].0) && cols[j].0 == c;
      PathEquations(col, c);
      PathEquations(c, col);
    }
  }

  /**
   * What the loop leaves for a selected collection: its `/col` item with the
   * operations its schema advertises, its `/col/{id}` item with the `id`
   * parameter, and its list schema, unless a later selected collection
   * writes the same paths or name.
   */
  lemma {:induction false} ProcessAllItems(d: Document, srv: Server, only: Option<string>,
                                           cols: seq<(string, Collection)>, fuel: nat, i: nat)
    requires ProcessAll(d, srv, only, cols, fuel).Success?
    requires i < |cols| && Selected(only, cols[i].0)
    requires forall j :: i < j < |cols| && Selected(only, cols[j].0) ==> Apart(cols[i].0, cols[j].0)
    ensures var r := ProcessAll(d, srv, only, cols, fuel).value;
            var col, coll := cols[i].0, cols[i].1;
            && CollectionPath(col) in r.paths && r.paths[CollectionPath(col)] == CollectionItem(col, coll, ResourceDoc(srv, coll))
            && ResourcePath(col) in r.paths && r.paths[ResourcePath(col)] == ResourceItem(coll, ResourceDoc(srv, coll))
            && col in r.schemas && r.schemas[col] == CollectionSchema(coll.resourceType)
    decreases i
  {
    var d1 := ProcessCollection(d, srv, only, cols[0].0, cols[0].1, fuel).value;
    assert ProcessAll(d, srv, only, cols, fuel) == ProcessAll(d1, srv, only, cols[1..], fuel);
    if i == 0 {
      forall j | 0 <= j < |cols[1..]| && Selected(only, cols[1..][j].0) ensures Apart(cols[0].0, cols[1..][j].0) {
        assert cols[1..][j] == cols[j + 1];
      }
      ApartNotEmitted(only, cols[1..], cols[0].0);
    } else {
      assert cols[1..][i - 1] == cols[i];
      forall j | i - 1 < j < |cols[1..]| && Selected(only, cols[1..][j].0) ensures Apart(cols[i].0, cols[1..][j].0) {
        assert cols[1..][j] == cols[j + 1];
      }
      ProcessAllItems(d1, srv, only, cols[1..], fuel, i - 1);
    }
  }

  /** A loop over one collection is that collection's iteration. */
  lemma ProcessAllSingle(d: Document, srv: Server, only: Option<string>, col: string, coll: Collection, fuel: nat)
    ensures ProcessAll(d, srv, only, [(col, coll)], fuel) == ProcessCollection(d, srv, only, col, coll, fuel)
  {
    assert [(col, coll)][1..] == [];
  }

  /** The generated document: empty paths and parameters, the base schemas, then the loop. */
  function Generate(base: Registry, srv: Server, only: Option<string>, cols: seq<(string, Collection)>, fuel: nat)
    : (r: Result<Document, Halt>)
    ensures r.Success? ==> r.value.paths.Keys == EmittedPaths(only, cols) && base.Keys <= r.value.schemas.Keys
    ensures r.Success? ==> forall k :: k in base && k !in SelectedNames(only, cols) ==> r.value.schemas[k] == base[k]
  {
    ProcessAll(Document(map[], base, map[]), srv, only, cols, fuel)
  }

  /**
   * In the generated document, a selected collection apart from every later
   * selected one has its two path items and its list schema, which replaces
   * any base schema of the same name.
   */
  lemma GenerateItems(base: Registry, srv: Server, only: Option<string>, cols: seq<(string, Collection)>,
                      fuel: nat, i: nat)
    requires Generate(base, srv, only, cols, fuel).Success?
    requires i < |cols| && Selected(only, cols[i].0)
    requires forall j :: i < j < |cols| && Selected(only, cols[j].0) ==> Apart(cols[i].0, cols[j].0)
    ensures var r := Generate(base, srv, only, cols, fuel).value;
            var col, coll := cols[i].0, cols[i].1;
            && CollectionPath(col) in r.paths && r.paths[CollectionPath(col)] == CollectionItem(col, coll, ResourceDoc(srv, coll))
            && ResourcePath(col) in r.paths && r.paths[ResourcePath(col)] == ResourceItem(coll, ResourceDoc(srv, coll))
            && col in r.schemas && r.schemas[col] == CollectionSchema(coll.resourceType)
  {
    ProcessAllItems(Document(map[], base, map[]), srv, only, cols, fuel, i);
  }

  /**
   * A denylisted collection never gets a collection path, wherever it appears
   * in the loop, nor a resource path unless some collection is itself named
   * like that path.
   */
  lemma DenylistedNeverEmitted(only: Option<string>, cols: seq<(string, Collection)>, s: string)
    requires s in Skips
    ensures CollectionPath(s) !in EmittedPaths(only, cols)
    ensures (forall j :: 0 <= j < |cols| ==> cols[j].0 != s + "/{id}") ==> ResourcePath(s) !in EmittedPaths(only, cols)
  {
    if forall j :: 0 <= j < |cols| ==> cols[j].0 != s + "/{id}" {
      forall c | c in SelectedNames(only, cols)
        ensures ResourcePath(s) != CollectionPath(c) && ResourcePath(s) != ResourcePath(c)
      {
        PathEquations(c, s);
        PathEquations(s, c);
      }
    }
    var p := CollectionPath(s);
    assert p[1..] == s;
    assert p[|p| - 1] != '}';
    forall c | c in SelectedNames(only, cols)
      ensures p != CollectionPath(c) && p != ResourcePath(c)
    {
      assert CollectionPath(c)[1..] == c;
      assert ResourcePath(c)[|ResourcePath(c)| - 1] == '}';
    }
  }
}
