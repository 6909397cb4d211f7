/**
 * `translateSchema`: builds the object schema of one remote type, recursing
 * into the types its fields reference, and registers it in the shared
 * `components.schemas` registry. The unbounded recursion of `translateSchema` is
 * bounded by `fuel`; running out of it is the only failure.
 */
module Translate {
  import opened Wrappers
  import opened OpenApi
  import opened Remote
  import opened Descriptor
  import opened Property

  /** The recursion bound ran out while translating `name`. */
  datatype Halt = OutOfFuel(name: string)

  /** The names of the required fields, in range order. */
  function RequiredList(fields: Fields): (r: seq<string>)
    ensures forall n :: n in r <==> n in RequiredNames(fields)
  {
    if |fields| == 0 then []
    else
      var rest := RequiredList(fields[1..]);
      assert forall n :: n in RequiredNames(fields) <==>
        (fields[0].1.required && n == fields[0].0) || n in RequiredNames(fields[1..]) by {
        forall n ensures n in RequiredNames(fields) <==>
          (fields[0].1.required && n == fields[0].0) || n in RequiredNames(fields[1..])
        {
          if n in RequiredNames(fields[1..]) {
            var i :| 0 <= i < |fields[1..]| && fields[1..][i].1.required && fields[1..][i].0 == n;
            assert fields[i + 1] == fields[1..][i];
          }
          if n in RequiredNames(fields) {
            var i :| 0 <= i < |fields| && fields[i].1.required && fields[i].0 == n;
            if i > 0 { assert fields[1..][i - 1] == fields[i]; }
          }
        }
      }
      if fields[0].1.required then [fields[0].0] + rest else rest
  }

  /**
   * The properties the field loop stores into `acc`, without the registry:
   * each field's fragment under its name, a later field overwriting an
   * earlier one of the same name.
   */
  function PropertyMap(srv: Server, fields: Fields, acc: map<string, Schema>): map<string, Schema>
    decreases |fields|
  {
    if |fields| == 0 then acc
    else PropertyMap(srv, fields[1..], acc[fields[0].0 := FieldFragment(srv, fields[0].1)])
  }

  /** An object schema with these properties and required names. */
  function ObjectOf(props: map<string, Schema>, required: seq<string>): Schema {
    EmptySchema.(typ := "object", properties := props, required := required)
  }

  /** The object schema registered for a remote type with these fields. */
  function ObjectSchema(srv: Server, fields: Fields): (s: Schema)
    ensures s.typ == "object" && s.ref == ""
    ensures s.properties.Keys == Names(fields)
    ensures forall n :: n in s.required <==> n in RequiredNames(fields)
  {
    PropertyMapKeys(srv, fields, map[]);
    ObjectOf(PropertyMap(srv, fields, map[]), RequiredList(fields))
  }

  /** Registers the object schema once the field loop has finished. */
  function Finish(loop: Result<Registry, Halt>, srv: Server, name: string, fields: Fields): Result<Registry, Halt> {
    match loop
    case Failure(e) => Failure(e)
    case Success(reg) => Success(reg[name := ObjectSchema(srv, fields)])
  }

  /**
   * Translates the type `name` with `fields` into `reg`. A registered name
   * is left alone; otherwise every field is translated, the referenced
   * types first, and the object schema is registered last.
   */
  function TranslateSchema(srv: Server, fields: Fields, name: string, reg: Registry, fuel: nat): (r: Result<Registry, Halt>)
    ensures name in reg ==> r == Success(reg)
    ensures r.Success? ==> Extends(reg, r.value) && name in r.value
    ensures r.Success? && name !in reg ==> r.value[name] == ObjectSchema(srv, fields)
    decreases fuel, 0, 0
  {
    if name in reg then Success(reg)
    else if fuel == 0 then Failure(OutOfFuel(name))
    else Finish(TranslateFields(srv, fields, reg, fuel - 1), srv, name, fields)
  }

  /**
   * The field loop's effect on the registry: each field's referenced type
   * is translated, in field order. The fragments the loop stores depend on
   * the server and the field alone, so they are `PropertyMap`.
   */
  function TranslateFields(srv: Server, fields: Fields, reg: Registry, fuel: nat): (r: Result<Registry, Halt>)
    ensures r.Success? ==> Extends(reg, r.value)
    decreases fuel, 2, |fields|
  {
    if |fields| == 0 then Success(reg)
    else
      var reg' :- Resolve(srv, Classify(fields[0].1.typ), reg, fuel);
      var r := TranslateFields(srv, fields[1..], reg', fuel);
      if r.Success? then ExtendsTransitive(reg, reg', r.value); r else r
  }

  /** Translates the schema fetched for a class, if it fetches one. */
  function Resolve(srv: Server, c: TypeClass, reg: Registry, fuel: nat): (r: Result<Registry, Halt>)
    ensures r.Success? ==> Extends(reg, r.value)
    ensures ResolvedDoc(srv, c).None? ==> r == Success(reg)
    ensures ResolvedDoc(srv, c).Some? && r.Success? ==> ResolvedDoc(srv, c).value.id in r.value
    decreases fuel, 1, 0
  {
    match ResolvedDoc(srv, c)
    case None => Success(reg)
    case Some(d) => TranslateSchema(srv, d.fields, d.id, reg, fuel)
  }

  /** The schema a field fetches, if it fetches one, is registered under its id. */
  predicate Registers(srv: Server, f: Field, reg: Registry) {
    var d := ResolvedDoc(srv, Classify(f.typ));
    d.Some? ==> d.value.id in reg
  }

  /**
   * After a successful field loop, the schema every field fetched is
   * registered under its id, so each `$ref` the fields' fragments carry
   * names a registry entry.
   */
  lemma {:induction false} FieldsRegisterFetched(srv: Server, fields: Fields, reg: Registry, fuel: nat)
    requires TranslateFields(srv, fields, reg, fuel).Success?
    ensures forall i :: 0 <= i < |fields| ==> Registers(srv, fields[i].1, TranslateFields(srv, fields, reg, fuel).value)
    decreases |fields|
  {
    if |fields| > 0 {
      var c := Classify(fields[0].1.typ);
      var reg' := Resolve(srv, c, reg, fuel);
      assert reg'.Success?;
      var r := TranslateFields(srv, fields[1..], reg'.value, fuel);
      assert TranslateFields(srv, fields, reg, fuel) == r;
      FieldsRegisterFetched(srv, fields[1..], reg'.value, fuel);
      forall i | 0 <= i < |fields| ensures Registers(srv, fields[i].1, r.value) {
        if i == 0 {
          assert Registers(srv, fields[0].1, reg'.value);
        } else {
          assert fields[1..][i - 1] == fields[i];
        }
      }
    }
  }

  /**
   * Translating a new type registers, besides the type itself, the schema
   * every one of its fields fetched.
   */
  lemma SchemaRegistersFetched(srv: Server, fields: Fields, name: string, reg: Registry, fuel: nat)
    requires name !in reg && TranslateSchema(srv, fields, name, reg, fuel).Success?
    ensures forall i :: 0 <= i < |fields| ==> Registers(srv, fields[i].1, TranslateSchema(srv, fields, name, reg, fuel).value)
  {
    TranslateSchemaSucceeded(srv, fields, name, reg, fuel);
    FieldsRegisterFetched(srv, fields, reg, fuel - 1);
  }

  /** A schema reference, if present, names an entry of `reg`. */
  predicate RefersInto(p: Schema, reg: Registry) {
    p.ref != "" ==>
      |SchemaRefPrefix| <= |p.ref| && p.ref[..|SchemaRefPrefix|] == SchemaRefPrefix && p.ref[|SchemaRefPrefix|..] in reg
  }

  /** The fragment's own reference and those of its items and additional properties all name entries of `reg`. */
  predicate FragmentRefersInto(p: Schema, reg: Registry) {
    && RefersInto(p, reg)
    && (p.items.Some? ==> RefersInto(p.items.value, reg))
    && (p.additionalProperties.Some? ==> RefersInto(p.additionalProperties.value, reg))
  }

  /** A field whose fetched schema is registered gets a fragment whose references all resolve. */
  lemma FragmentRefersIntoRegistry(srv: Server, f: Field, reg: Registry)
    requires Registers(srv, f, reg)
    ensures FragmentRefersInto(FieldFragment(srv, f), reg)
  {
    var c := Classify(f.typ);
    var resolved := ResolvedId(srv, c);
    var p := Fragment(f, c, resolved);
    TypedAttributes(Base(f), c, resolved);
    if resolved.Some? {
      var id := resolved.value;
      assert id in reg;
      assert RefersInto(RefSchema(id), reg);
    }
  }

  /**
   * After a new type is translated, every reference in the fragments of its
   * fields, including array items and map values, names a registered schema.
   */
  lemma TranslatedReferencesResolve(srv: Server, fields: Fields, name: string, reg: Registry, fuel: nat)
    requires name !in reg && TranslateSchema(srv, fields, name, reg, fuel).Success?
    ensures forall i :: 0 <= i < |fields| ==>
      FragmentRefersInto(FieldFragment(srv, fields[i].1), TranslateSchema(srv, fields, name, reg, fuel).value)
  {
    var r := TranslateSchema(srv, fields, name, reg, fuel).value;
    SchemaRegistersFetched(srv, fields, name, reg, fuel);
    forall i | 0 <= i < |fields| ensures FragmentRefersInto(FieldFragment(srv, fields[i].1), r) {
      FragmentRefersIntoRegistry(srv, fields[i].1, r);
    }
  }

  /** The property keys are the accumulated keys and every field name. */
  lemma {:induction false} PropertyMapKeys(srv: Server, fields: Fields, acc: map<string, Schema>)
    ensures PropertyMap(srv, fields, acc).Keys == acc.Keys + Names(fields)
    decreases |fields|
  {
    if |fields| > 0 {
      PropertyMapKeys(srv, fields[1..], acc[fields[0].0 := FieldFragment(srv, fields[0].1)]);
      assert Names(fields) == {fields[0].0} + Names(fields[1..]) by {
        forall n | n in Names(fields) ensures n in {fields[0].0} + Names(fields[1..]) {
          var i :| 0 <= i < |fields| && fields[i].0 == n;
          if i > 0 { assert fields[1..][i - 1] == fields[i]; }
        }
        forall n | n in Names(fields[1..]) ensures n in Names(fields) {
          var i :| 0 <= i < |fields[1..]| && fields[1..][i].0 == n;
          assert fields[i + 1] == fields[1..][i];
        }
      }
    }
  }

  /** With distinct names, each field's own fragment is stored under its name. */
  lemma {:induction false} PropertyMapValues(srv: Server, fields: Fields, acc: map<string, Schema>, i: nat)
    requires DistinctNames(fields) && i < |fields|
    ensures fields[i].0 in PropertyMap(srv, fields, acc)
    ensures PropertyMap(srv, fields, acc)[fields[i].0] == FieldFragment(srv, fields[i].1)
    decreases |fields|
  {
    var acc' := acc[fields[0].0 := FieldFragment(srv, fields[0].1)];
    if i == 0 {
      PropertyMapUntouched(srv, fields[1..], acc', fields[0].0);
    } else {
      PropertyMapValues(srv, fields[1..], acc', i - 1);
      assert fields[1..][i - 1] == fields[i];
    }
  }

  /** A key no field names keeps its accumulated value. */
  lemma {:induction false} PropertyMapUntouched(srv: Server, fields: Fields, acc: map<string, Schema>, k: string)
    requires k in acc && forall i :: 0 <= i < |fields| ==> fields[i].0 != k
    ensures k in PropertyMap(srv, fields, acc) && PropertyMap(srv, fields, acc)[k] == acc[k]
    decreases |fields|
  {
    if |fields| > 0 {
      assert fields[0].0 != k;
      forall i | 0 <= i < |fields[1..]| ensures fields[1..][i].0 != k {
        assert fields[1..][i] == fields[i + 1];
      }
      PropertyMapUntouched(srv, fields[1..], acc[fields[0].0 := FieldFragment(srv, fields[0].1)], k);
    }
  }

  /** No stored property that carries a reference also carries a validation attribute or a description. */
  ghost predicate ReferencesExclusive(props: map<string, Schema>) {
    forall k :: k in props && props[k].ref != "" ==> Cleared(props[k])
  }

  lemma {:induction false} PropertyMapExclusive(srv: Server, fields: Fields, acc: map<string, Schema>)
    requires ReferencesExclusive(acc)
    ensures ReferencesExclusive(PropertyMap(srv, fields, acc))
    decreases |fields|
  {
    if |fields| > 0 {
      var c := Classify(fields[0].1.typ);
      var p := Fragment(fields[0].1, c, ResolvedId(srv, c));
      PropertyMapExclusive(srv, fields[1..], acc[fields[0].0 := p]);
    }
  }

  /**
   * A successful translation of an unregistered type registers an object
   * schema whose property keys are exactly the field names, whose required
   * list holds exactly the required fields' names, in which each field's
   * own fragment sits under its name, and in which no property that is a
   * reference carries a validation attribute or a description.
   */
  lemma FieldCoverage(srv: Server, fields: Fields, name: string, reg: Registry, fuel: nat)
    requires name !in reg
    requires TranslateSchema(srv, fields, name, reg, fuel).Success?
    ensures var s := TranslateSchema(srv, fields, name, reg, fuel).value[name];
      && s.typ == "object"
      && s.properties.Keys == Names(fields)
      && (forall n :: n in s.required <==> n in RequiredNames(fields))
      && ReferencesExclusive(s.properties)
      && (DistinctNames(fields) ==>
            forall i :: 0 <= i < |fields| ==> s.properties[fields[i].0] == FieldFragment(srv, fields[i].1))
  {
    ObjectSchemaCoverage(srv, fields);
  }

  /** The object schema built for a type's fields, as `FieldCoverage` describes it. */
  lemma ObjectSchemaCoverage(srv: Server, fields: Fields)
    ensures var s := ObjectSchema(srv, fields);
      && s.typ == "object"
      && s.properties.Keys == Names(fields)
      && ReferencesExclusive(s.properties)
      && (DistinctNames(fields) ==>
            forall i :: 0 <= i < |fields| ==> s.properties[fields[i].0] == FieldFragment(srv, fields[i].1))
  {
    PropertyMapKeys(srv, fields, map[]);
    PropertyMapExclusive(srv, fields, map[]);
    if DistinctNames(fields) {
      forall i | 0 <= i < |fields|
        ensures PropertyMap(srv, fields, map[])[fields[i].0] == FieldFragment(srv, fields[i].1)
      {
        PropertyMapValues(srv, fields, map[], i);
      }
    }
  }

  /** Translating a registered name again, with any fields and any bound, changes nothing. */
  lemma TranslateIdempotent(srv: Server, fields: Fields, name: string, reg: Registry, fuel: nat,
                            fields': Fields, fuel': nat)
    requires TranslateSchema(srv, fields, name, reg, fuel).Success?
    ensures var reg' := TranslateSchema(srv, fields, name, reg, fuel).value;
      TranslateSchema(srv, fields', name, reg', fuel') == Success(reg')
  {
  }

  /** A larger bound gives the same registry: the bound only cuts off recursion. */
  lemma {:induction false} SchemaFuelMonotone(srv: Server, fields: Fields, name: string, reg: Registry, fuel: nat, fuel': nat)
    requires fuel <= fuel' && TranslateSchema(srv, fields, name, reg, fuel).Success?
    ensures TranslateSchema(srv, fields, name, reg, fuel') == TranslateSchema(srv, fields, name, reg, fuel)
    decreases fuel, 0, 1
  {
    if name !in reg {
      TranslateSchemaSucceeded(srv, fields, name, reg, fuel);
      NewSchemaFuelMonotone(srv, fields, name, reg, fuel, fuel');
    }
  }

  /** The case of an unregistered name: the field loops agree, so the registrations do. */
  lemma {:induction false} NewSchemaFuelMonotone(srv: Server, fields: Fields, name: string, reg: Registry, fuel: nat, fuel': nat)
    requires name !in reg && 0 < fuel <= fuel' && TranslateFields(srv, fields, reg, fuel - 1).Success?
    ensures TranslateSchema(srv, fields, name, reg, fuel') == TranslateSchema(srv, fields, name, reg, fuel)
    decreases fuel, 0, 0
  {
    FieldsFuelMonotone(srv, fields, reg, fuel - 1, fuel' - 1);
    SchemaFuelStep(srv, fields, name, reg, fuel, fuel');
  }

  /** A successful translation of a new name ran its field loop to success. */
  lemma TranslateSchemaSucceeded(srv: Server, fields: Fields, name: string, reg: Registry, fuel: nat)
    requires name !in reg && TranslateSchema(srv, fields, name, reg, fuel).Success?
    ensures fuel > 0 && TranslateFields(srv, fields, reg, fuel - 1).Success?
  {
  }

  /** Two bounds whose field loops agree give the same translation. */
  lemma SchemaFuelStep(srv: Server, fields: Fields, name: string, reg: Registry, fuel: nat, fuel': nat)
    requires name !in reg && 0 < fuel <= fuel'
    requires TranslateFields(srv, fields, reg, fuel' - 1) == TranslateFields(srv, fields, reg, fuel - 1)
    ensures TranslateSchema(srv, fields, name, reg, fuel') == TranslateSchema(srv, fields, name, reg, fuel)
  {
  }

  lemma {:induction false} FieldsFuelMonotone(srv: Server, fields: Fields, reg: Registry, fuel: nat, fuel': nat)
    requires fuel <= fuel' && TranslateFields(srv, fields, reg, fuel).Success?
    ensures TranslateFields(srv, fields, reg, fuel') == TranslateFields(srv, fields, reg, fuel)
    decreases fuel, 2, |fields|
  {
    if |fields| > 0 {
      var c := Classify(fields[0].1.typ);
      ResolveFuelMonotone(srv, c, reg, fuel, fuel');
      FieldsFuelMonotone(srv, fields[1..], Resolve(srv, c, reg, fuel).value, fuel, fuel');
    }
  }

  lemma {:induction false} ResolveFuelMonotone(srv: Server, c: TypeClass, reg: Registry, fuel: nat, fuel': nat)
    requires fuel <= fuel' && Resolve(srv, c, reg, fuel).Success?
    ensures Resolve(srv, c, reg, fuel') == Resolve(srv, c, reg, fuel)
    decreases fuel, 1, 0
  {
    match ResolvedDoc(srv, c)
    case None =>
    case Some(d) => SchemaFuelMonotone(srv, d.fields, d.id, reg, fuel, fuel');
  }

  /**
   * The registry check does not break cycles: a type whose first field is a
   * nested object of its own type is re-entered before it is registered,
   * so its translation fails for every bound (in Go, a stack overflow).
   */
  lemma {:induction false} SelfReferenceDiverges(srv: Server, n: string, reg: Registry, fuel: nat)
    requires n in srv && srv[n].id == n && n !in reg
    requires |srv[n].fields| > 0 && srv[n].fields[0].1.typ == n && Classify(n).Nested?
    ensures TranslateSchema(srv, srv[n].fields, n, reg, fuel).Failure?
    decreases fuel
  {
    if fuel > 0 {
      SelfReferenceDiverges(srv, n, reg, fuel - 1);
      assert Resolve(srv, Classify(n), reg, fuel - 1).Failure?;
    }
  }

  /**
   * The fetches of `fields` nest at most `depth` levels: every schema a
   * field fetches has fields whose fetches nest at most `depth - 1` levels.
   */
  predicate FieldsWithin(srv: Server, fields: Fields, depth: nat)
    decreases depth, 1, |fields|
  {
    |fields| == 0
    || (DocWithin(srv, ResolvedDoc(srv, Classify(fields[0].1.typ)), depth) && FieldsWithin(srv, fields[1..], depth))
  }

  /** Nothing is fetched, or the fetched schema's fields nest below `depth`. */
  predicate DocWithin(srv: Server, d: Option<SchemaDoc>, depth: nat)
    decreases depth, 0, 0
  {
    match d
    case None => true
    case Some(doc) => depth > 0 && FieldsWithin(srv, doc.fields, depth - 1)
  }

  lemma {:induction false} WithinMonotone(srv: Server, fields: Fields, depth: nat, depth': nat)
    requires FieldsWithin(srv, fields, depth) && depth <= depth'
    ensures FieldsWithin(srv, fields, depth')
    decreases depth, 1, |fields|
  {
    if |fields| > 0 {
      DocWithinMonotone(srv, ResolvedDoc(srv, Classify(fields[0].1.typ)), depth, depth');
      WithinMonotone(srv, fields[1..], depth, depth');
    }
  }

  lemma {:induction false} DocWithinMonotone(srv: Server, d: Option<SchemaDoc>, depth: nat, depth': nat)
    requires DocWithin(srv, d, depth) && depth <= depth'
    ensures DocWithin(srv, d, depth')
    decreases depth, 0, 0
  {
    if d.Some? {
      WithinMonotone(srv, d.value.fields, depth - 1, depth' - 1);
    }
  }

  /** A field loop whose fetches nest within the bound runs to success, from any registry. */
  lemma {:induction false} WithinTranslates(srv: Server, fields: Fields, reg: Registry, fuel: nat)
    requires FieldsWithin(srv, fields, fuel)
    ensures TranslateFields(srv, fields, reg, fuel).Success?
    decreases fuel, 1, |fields|
  {
    if |fields| > 0 {
      var c := Classify(fields[0].1.typ);
      var d := ResolvedDoc(srv, c);
      if d.Some? {
        SchemaTranslates(srv, d.value.fields, d.value.id, reg, fuel);
      }
      var reg' := Resolve(srv, c, reg, fuel);
      WithinTranslates(srv, fields[1..], reg'.value, fuel);
    }
  }

  /** A type whose fields' fetches nest below the bound translates, from any registry. */
  lemma {:induction false} SchemaTranslates(srv: Server, fields: Fields, name: string, reg: Registry, fuel: nat)
    requires fuel > 0 && FieldsWithin(srv, fields, fuel - 1)
    ensures TranslateSchema(srv, fields, name, reg, fuel).Success?
    decreases fuel, 0, 0
  {
    if name !in reg {
      WithinTranslates(srv, fields, reg, fuel - 1);
    }
  }

  /** The rank a served type has; a type the server does not serve ranks 0. */
  function RankOf(rank: map<string, nat>, x: string): nat {
    if x in rank then rank[x] else 0
  }

  /** The type name a class fetches, if it fetches one. */
  function FetchedName(c: TypeClass): string {
    match c
    case ArrayOf(x) => x
    case MapOf(x) => x
    case Nested(n) => n
    case _ => ""
  }

  /** A field of class `c` that fetches a schema fetches one of rank below `r`. */
  predicate FetchBelow(srv: Server, rank: map<string, nat>, c: TypeClass, r: nat) {
    ResolvedDoc(srv, c).Some? ==> RankOf(rank, FetchedName(c)) < r
  }

  /**
   * `rank` orders the served types so that every type a served type's field
   * fetches ranks strictly lower. A cycle of references admits no such rank.
   */
  ghost predicate Ranked(srv: Server, rank: map<string, nat>) {
    && srv.Keys <= rank.Keys
    && forall n, i :: n in srv && 0 <= i < |srv[n].fields| ==>
         FetchBelow(srv, rank, Classify(srv[n].fields[i].1.typ), rank[n])
  }

  lemma {:induction false} RankedWithin(srv: Server, rank: map<string, nat>, fields: Fields, r: nat)
    requires Ranked(srv, rank)
    requires forall i :: 0 <= i < |fields| ==> FetchBelow(srv, rank, Classify(fields[i].1.typ), r)
    ensures FieldsWithin(srv, fields, r)
    decreases r, |fields|
  {
    if |fields| > 0 {
      RankedDocWithin(srv, rank, Classify(fields[0].1.typ), r);
      forall i | 0 <= i < |fields[1..]| ensures FetchBelow(srv, rank, Classify(fields[1..][i].1.typ), r) {
        assert fields[1..][i] == fields[i + 1];
      }
      RankedWithin(srv, rank, fields[1..], r);
    }
  }

  /** The schema a field of class `c` fetches below rank `r` nests below `r`. */
  lemma {:induction false} RankedDocWithin(srv: Server, rank: map<string, nat>, c: TypeClass, r: nat)
    requires Ranked(srv, rank) && FetchBelow(srv, rank, c, r)
    ensures DocWithin(srv, ResolvedDoc(srv, c), r)
    decreases r, 0
  {
    var d := ResolvedDoc(srv, c);
    if d.Some? {
      var x := FetchedName(c);
      if x in srv {
        assert d.value == srv[x];
        forall i | 0 <= i < |srv[x].fields|
          ensures FetchBelow(srv, rank, Classify(srv[x].fields[i].1.typ), rank[x])
        {
        }
        RankedWithin(srv, rank, srv[x].fields, rank[x]);
        WithinMonotone(srv, srv[x].fields, rank[x], r - 1);
      } else {
        assert d.value == ZeroDoc;
      }
    }
  }

  /**
   * When the references between served types have no cycle, as witnessed by
   * a rank, a served type's translation succeeds for every bound above its
   * rank, from any registry.
   */
  lemma AcyclicTranslates(srv: Server, rank: map<string, nat>, n: string, name: string, reg: Registry, fuel: nat)
    requires Ranked(srv, rank) && n in srv && fuel > rank[n]
    ensures TranslateSchema(srv, srv[n].fields, name, reg, fuel).Success?
  {
    forall i | 0 <= i < |srv[n].fields|
      ensures FetchBelow(srv, rank, Classify(srv[n].fields[i].1.typ), rank[n])
    {
    }
    RankedWithin(srv, rank, srv[n].fields, rank[n]);
    WithinMonotone(srv, srv[n].fields, rank[n], fuel - 1);
    SchemaTranslates(srv, srv[n].fields, name, reg, fuel);
  }

  /** A type none of whose fields fetches another schema. */
  predicate IsLeaf(srv: Server, fields: Fields) {
    forall i :: 0 <= i < |fields| ==> ResolvedDoc(srv, Classify(fields[i].1.typ)).None?
  }

  lemma {:induction false} LeafFields(srv: Server, fields: Fields, reg: Registry, fuel: nat)
    requires IsLeaf(srv, fields)
    ensures TranslateFields(srv, fields, reg, fuel) == Success(reg)
    decreases |fields|
  {
    if |fields| > 0 {
      assert ResolvedDoc(srv, Classify(fields[0].1.typ)).None?;
      assert IsLeaf(srv, fields[1..]) by {
        forall i | 0 <= i < |fields[1..]| ensures ResolvedDoc(srv, Classify(fields[1..][i].1.typ)).None? {
          assert fields[1..][i] == fields[i + 1];
        }
      }
      LeafFields(srv, fields[1..], reg, fuel);
    }
  }

  /** A leaf type translates within a bound of one and registers only itself. */
  lemma LeafTranslation(srv: Server, fields: Fields, name: string, reg: Registry, fuel: nat)
    requires IsLeaf(srv, fields) && name !in reg && fuel >= 1
    ensures TranslateSchema(srv, fields, name, reg, fuel) == Success(reg[name := ObjectSchema(srv, fields)])
  {
    LeafFields(srv, fields, reg, fuel - 1);
  }

  /**
   * An `array[X]` or `map[X]` field whose element type cannot be fetched is
   * not skipped: the zero-value schema is translated, registering an empty
   * object under the empty name, and the field points at that empty name.
   */
  lemma UnresolvedElementType(srv: Server, f: Field, reg: Registry, fuel: nat)
    requires (Classify(f.typ).ArrayOf? && Classify(f.typ).elem !in srv)
          || (Classify(f.typ).MapOf? && Classify(f.typ).elem !in srv)
    requires "" !in reg && fuel >= 1
    ensures var r := Resolve(srv, Classify(f.typ), reg, fuel);
      && r.Success? && r.value == reg["" := ObjectOf(map[], [])]
    ensures var p := FieldFragment(srv, f);
      Classify(f.typ).ArrayOf? ==> p.items == Some(RefSchema(""))
    ensures var p := FieldFragment(srv, f);
      Classify(f.typ).MapOf? ==> p.additionalProperties == Some(RefSchema(""))
  {
    assert ResolvedDoc(srv, Classify(f.typ)) == Some(ZeroDoc);
    LeafTranslation(srv, [], "", reg, fuel);
  }
}
