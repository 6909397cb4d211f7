/**
 * The per-field schema fragment: the validation attributes copied from the
 * field descriptor, the read-only flag and usage note derived from its
 * create/update permissions, the type mapping chosen by the classifier, and
 * the description assembled from its segments.
 */
module Property {
  import opened Wrappers
  import opened Strings
  import opened OpenApi
  import opened Remote
  import opened Descriptor

  /** The pattern a `dnsLabel` field is constrained by. */
  const HostnamePattern := "^(\\w|[A-Za-z0-9-\\.]*\\w)$"

  const UsageHeader := "Allowed in Methods:"

  const DescriptionSeparator := "; "

  const StringSchema := EmptySchema.(typ := "string")

  /** The usage note naming the methods that accept the field; empty when none does. */
  function Usage(f: Field): string {
    var u := if f.update || f.create then UsageHeader else "";
    var u := if f.create then u + " `POST`" else u;
    if f.update then u + " `PUT`" else u
  }

  /** The segments every description starts from: the usage note, then the field's own text. */
  function BaseSegments(f: Field): seq<string> {
    (if Usage(f) != "" then [Usage(f)] else []) + (if f.description != "" then [f.description] else [])
  }

  /** The fragment before the type mapping: copied validation attributes and the read-only flag. */
  function Base(f: Field): Schema {
    EmptySchema.(
      default := f.default, enum := f.options, maximum := f.max, maxLength := f.maxLength,
      minimum := f.min, minLength := f.minLength, pattern := f.validChars,
      nullable := f.nullable, readOnly := !f.create && !f.update)
  }

  /**
   * Every validation attribute and the description are absent; `readOnly`
   * is not among them, so a read-only reference keeps it.
   */
  predicate Cleared(p: Schema) {
    && p.default.None? && p.enum == [] && p.maximum.None? && p.minimum.None?
    && p.maxLength.None? && p.minLength.None? && p.pattern == "" && !p.nullable
    && p.description == ""
  }

  /**
   * The schema document the translator fetches for a class, if any. For
   * `array[X]` and `map[X]` a failed fetch is not checked and the Go zero
   * value is used; for a nested object type a failed fetch yields nothing.
   */
  function ResolvedDoc(srv: Server, c: TypeClass): (r: Option<SchemaDoc>)
    ensures r.Some? <==> c.ArrayOf? || c.MapOf? || (c.Nested? && c.typeName in srv)
  {
    match c
    case ArrayOf(x) => Some(Fetch(srv, x).GetOr(ZeroDoc))
    case MapOf(x) => Some(Fetch(srv, x).GetOr(ZeroDoc))
    case Nested(n) => Fetch(srv, n)
    case _ => None
  }

  /**
   * Which document is fetched: for `array[X]` and `map[X]` the one served
   * for X, or the zero value when X is not served; for a served nested type
   * its own document.
   */
  lemma FetchedDocument(srv: Server, c: TypeClass)
    ensures (c.ArrayOf? || c.MapOf?) && c.elem !in srv ==> ResolvedDoc(srv, c) == Some(ZeroDoc)
    ensures (c.ArrayOf? || c.MapOf?) && c.elem in srv ==> ResolvedDoc(srv, c) == Some(srv[c.elem])
    ensures c.Nested? && c.typeName in srv ==> ResolvedDoc(srv, c) == Some(srv[c.typeName])
  {
  }

  function ResolvedId(srv: Server, c: TypeClass): Option<string> {
    match ResolvedDoc(srv, c)
    case Some(d) => Some(d.id)
    case None => None
  }

  /**
   * The type mapping of the `switch`: what each class sets on the fragment.
   * The descriptions the two scalar-array cases write here do not survive:
   * `Fragment` overwrites the description with the joined segments.
   */
  function Typed(p: Schema, c: TypeClass, resolved: Option<string>): (r: Schema)
    ensures r.readOnly == p.readOnly
    ensures !(c.Nested? && resolved.Some?) ==> r.ref == p.ref
  {
    match c
    case Primitive(n) => p.(typ := n)
    case Date => p.(typ := "string", format := "date-time")
    case Password => p.(typ := "string", format := "password")
    case Int => p.(typ := "integer")
    case ArrayOfStrings => p.(typ := "array", description := "Array of Strings", items := Some(StringSchema))
    case ArrayOfEnums => p.(typ := "array", items := Some(StringSchema), description := "Array of Valid Options")
    case ArrayOf(_) => p.(typ := "array", items := Some(RefSchema(resolved.GetOr(""))))
    case MapOfStrings => p.(typ := "object", example := Some(map["key" := "value"]))
    case MapOf(_) => p.(typ := "object", additionalProperties := Some(RefSchema(resolved.GetOr(""))))
    case IdOf(_) => p.(typ := "string")
    case ArrayOfIds(_) => p.(typ := "array", items := Some(StringSchema))
    case Enum => p.(typ := "string")
    case DnsLabel => p.(typ := "string", pattern := HostnamePattern)
    case Nested(_) =>
      if resolved.None? then p
      else p.(default := None, description := "", enum := [], maximum := None, maxLength := None,
              minimum := None, minLength := None, pattern := "", nullable := false,
              ref := SchemaRef(resolved.value))
  }

  /** The description segments: none once a nested type resolved, otherwise the base ones and the class's note. */
  function Segments(f: Field, c: TypeClass, resolved: Option<string>): seq<string> {
    if c.Nested? && resolved.Some? then [] else BaseSegments(f) + Notes(c)
  }

  /** The fragment for field `f` of class `c`, where `resolved` is the id of the schema fetched for it. */
  function Fragment(f: Field, c: TypeClass, resolved: Option<string>): (p: Schema)
    ensures p.readOnly <==> !f.create && !f.update
    ensures p.ref != "" <==> c.Nested? && resolved.Some?
    ensures p.ref != "" ==> p.ref == SchemaRef(resolved.value) && Cleared(p)
    ensures c.ArrayOf? ==> p.typ == "array" && p.items == Some(RefSchema(resolved.GetOr("")))
    ensures c.MapOf? ==> p.typ == "object" && p.additionalProperties == Some(RefSchema(resolved.GetOr("")))
    ensures p.description == Description(f, c, resolved)
  {
    Typed(Base(f), c, resolved).(description := Description(f, c, resolved))
  }

  /** The description text of a fragment: its segments joined with "; ". */
  function Description(f: Field, c: TypeClass, resolved: Option<string>): string {
    Join(Segments(f, c, resolved), DescriptionSeparator)
  }

  /** The note a class appends to the description. */
  function Notes(c: TypeClass): seq<string> {
    match c
    case IdOf(x) => ["Id of " + x]
    case ArrayOfIds(x) => ["Array of Ids of " + x]
    case DnsLabel => ["Must be valid Hostname"]
    case _ => []
  }

  /** What the type mapping keeps of the copied attributes and what each class sets. */
  lemma TypedAttributes(p: Schema, c: TypeClass, resolved: Option<string>)
    ensures var r := Typed(p, c, resolved);
      && (!(c.Nested? && resolved.Some?) ==>
            && r.default == p.default && r.enum == p.enum
            && r.maximum == p.maximum && r.minimum == p.minimum
            && r.maxLength == p.maxLength && r.minLength == p.minLength
            && r.nullable == p.nullable
            && r.pattern == (if c == DnsLabel then HostnamePattern else p.pattern))
      && (c == ArrayOfStrings || c == ArrayOfEnums ==> r.typ == "array" && r.items == Some(StringSchema))
      && (c == MapOfStrings ==>
            r.typ == "object" && r.example == Some(map["key" := "value"])
            && r.additionalProperties == p.additionalProperties)
  {
  }

  /**
   * A fragment that did not become a reference carries the field's default,
   * options, bounds, lengths, nullability and allowed characters, except
   * that `dnsLabel` replaces the pattern with the hostname pattern. The
   * scalar arrays have string items, and `map[string]` is an object with the
   * example `{"key": "value"}`.
   */
  lemma FragmentAttributes(f: Field, c: TypeClass, resolved: Option<string>)
    ensures var p := Fragment(f, c, resolved);
      && (!(c.Nested? && resolved.Some?) ==>
            && p.default == f.default && p.enum == f.options
            && p.maximum == f.max && p.minimum == f.min
            && p.maxLength == f.maxLength && p.minLength == f.minLength
            && p.nullable == f.nullable
            && p.pattern == (if c == DnsLabel then HostnamePattern else f.validChars))
      && (c == ArrayOfStrings || c == ArrayOfEnums ==> p.typ == "array" && p.items == Some(StringSchema))
      && (c == MapOfStrings ==>
            p.typ == "object" && p.example == Some(map["key" := "value"]) && p.additionalProperties.None?)
  {
    TypedAttributes(Base(f), c, resolved);
  }

  /** The fragment the translator stores for one field. */
  function FieldFragment(srv: Server, f: Field): (p: Schema)
    ensures p.readOnly <==> !f.create && !f.update
    ensures p.ref != "" <==> Classify(f.typ).Nested? && f.typ in srv
    ensures p.ref != "" ==> p.ref == SchemaRef(srv[f.typ].id)
  {
    var c := Classify(f.typ);
    Fragment(f, c, ResolvedId(srv, c))
  }

  /** The usage note of a writable field: the header, then `POST` if creatable and `PUT` if updatable. */
  lemma UsageText(f: Field)
    ensures Usage(f) == if f.create || f.update
      then UsageHeader + (if f.create then " `POST`" else "") + (if f.update then " `PUT`" else "")
      else ""
  {
  }

  /** The joined base segments: the usage note and the field's own text, separated when both are present. */
  lemma BaseText(f: Field)
    ensures var u := UsageHeader + (if f.create then " `POST`" else "") + (if f.update then " `PUT`" else "");
      Join(BaseSegments(f), DescriptionSeparator) ==
        if (f.create || f.update) && f.description != "" then u + DescriptionSeparator + f.description
        else if f.create || f.update then u
        else f.description
  {
    UsageText(f);
    if (f.create || f.update) && f.description != "" {
      assert BaseSegments(f)[1..] == [f.description];
    }
  }

  /** Up to two segments followed by a note: each segment present is followed by the separator. */
  lemma SegmentsThenNote(a: string, b: string, n: string, sep: string)
    ensures Join((if a != "" then [a] else []) + (if b != "" then [b] else []) + [n], sep)
         == (if a != "" then a + sep else "") + (if b != "" then b + sep else "") + n
  {
    var base := (if a != "" then [a] else []) + (if b != "" then [b] else []);
    JoinSnoc(base, n, sep);
    if a != "" && b != "" {
      assert base == [a, b];
      assert base[1..] == [b];
    } else if a != "" {
      assert base == [a];
    } else if b != "" {
      assert base == [b];
    } else {
      assert base == [];
    }
  }

  /** With a note, each base segment present is followed by the separator, and the note closes the text. */
  lemma NoteText(f: Field, n: string)
    ensures var u := UsageHeader + (if f.create then " `POST`" else "") + (if f.update then " `PUT`" else "");
      Join(BaseSegments(f) + [n], DescriptionSeparator) ==
        (if f.create || f.update then u + DescriptionSeparator else "")
        + (if f.description != "" then f.description + DescriptionSeparator else "")
        + n
  {
    UsageText(f);
    assert Usage(f) != "" <==> f.create || f.update;
    SegmentsThenNote(Usage(f), f.description, n, DescriptionSeparator);
  }

  /**
   * The description of a fragment that is not a reference. A writable field's
   * text opens with "Allowed in Methods:", then `POST` if it can be created
   * and `PUT` if it can be updated; the field's own text comes next; the
   * class's note closes it; the present parts are separated by "; ".
   */
  lemma DescriptionShape(f: Field, c: TypeClass, resolved: Option<string>)
    requires !(c.Nested? && resolved.Some?)
    ensures var d := Description(f, c, resolved);
      var u := UsageHeader + (if f.create then " `POST`" else "") + (if f.update then " `PUT`" else "");
      var writable := f.create || f.update;
      var own := f.description;
      && (Notes(c) == [] ==>
            d == if writable && own != "" then u + DescriptionSeparator + own
                 else if writable then u
                 else own)
      && (Notes(c) != [] ==>
            d == (if writable then u + DescriptionSeparator else "")
                 + (if own != "" then own + DescriptionSeparator else "")
                 + Notes(c)[0])
    ensures Notes(c) != [] ==> IsSuffix(Notes(c)[0], Description(f, c, resolved))
  {
    var d := Description(f, c, resolved);
    var notes := Notes(c);
    assert d == Join(BaseSegments(f) + notes, DescriptionSeparator);
    if notes == [] {
      assert BaseSegments(f) + notes == BaseSegments(f);
      BaseText(f);
    } else {
      assert notes == [notes[0]];
      NoteText(f, notes[0]);
      var u := UsageHeader + (if f.create then " `POST`" else "") + (if f.update then " `PUT`" else "");
      NoteCloses((if f.create || f.update then u + DescriptionSeparator else "")
                 + (if f.description != "" then f.description + DescriptionSeparator else ""), notes[0]);
    }
  }

  lemma NoteCloses(x: string, n: string)
    ensures IsSuffix(n, x + n)
  {
    assert (x + n)[|x + n| - |n|..] == n;
  }

  /**
   * A nested object type that the server serves becomes a reference to the
   * fetched schema's id with every validation attribute and the description
   * cleared (`readOnly` stays); one it does not serve gets no reference and
   * keeps the copied attributes.
   */
  lemma NestedReference(srv: Server, f: Field)
    requires Classify(f.typ).Nested?
    ensures var p := FieldFragment(srv, f);
      && (f.typ in srv ==> p.ref == SchemaRef(srv[f.typ].id) && Cleared(p))
      && (f.typ !in srv ==> p.ref == "" && p.default == f.default && p.enum == f.options
                            && p.maximum == f.max && p.minimum == f.min && p.nullable == f.nullable
                            && p.maxLength == f.maxLength && p.minLength == f.minLength
                            && p.pattern == f.validChars)
  {
  }

  /**
   * The scalar type keywords: the four JSON types pass through, `date` and
   * `password` are formatted strings, `int` is an integer, `enum` a string,
   * and `dnsLabel` a string held to the hostname pattern with a note.
   */
  lemma ScalarTypeMapping(srv: Server, f: Field)
    ensures var p := FieldFragment(srv, f);
      && (IsPrimitiveName(f.typ) ==> p.typ == f.typ && p.format == "")
      && (f.typ == "date" ==> p.typ == "string" && p.format == "date-time")
      && (f.typ == "password" ==> p.typ == "string" && p.format == "password")
      && (f.typ == "int" ==> p.typ == "integer" && p.format == "")
      && (f.typ == "enum" ==> p.typ == "string" && p.format == "")
      && (f.typ == "dnsLabel" ==> p.typ == "string" && p.pattern == HostnamePattern
                                  && IsSuffix("Must be valid Hostname", p.description))
      && (p.ref == "" <== !Classify(f.typ).Nested?)
  {
    KeywordClass(f.typ);
    var c := Classify(f.typ);
    ScalarFragment(f, c, ResolvedId(srv, c));
  }

  /** The type, format and pattern each scalar class gives a fragment. */
  lemma ScalarFragment(f: Field, c: TypeClass, resolved: Option<string>)
    ensures var p := Fragment(f, c, resolved);
      && (c.Primitive? ==> p.typ == c.name && p.format == "")
      && (c == Date ==> p.typ == "string" && p.format == "date-time")
      && (c == Password ==> p.typ == "string" && p.format == "password")
      && (c == Int ==> p.typ == "integer" && p.format == "")
      && (c == Enum ==> p.typ == "string" && p.format == "")
      && (c == DnsLabel ==>
            p.typ == "string" && p.pattern == HostnamePattern && IsSuffix("Must be valid Hostname", p.description))
  {
    if c == DnsLabel {
      DescriptionShape(f, DnsLabel, resolved);
    }
  }

  /**
   * `array[reference[X]]` is an array of string ids noted "Array of Ids of X";
   * `reference[X]` is a string noted "Id of X". Neither is a reference.
   */
  lemma IdTypeMapping(srv: Server, f: Field, x: string)
    requires IsRefId(x)
    ensures f.typ == "array[reference[" + x + "]]" ==>
      var p := FieldFragment(srv, f);
      p.typ == "array" && p.items == Some(StringSchema) && p.ref == ""
      && IsSuffix("Array of Ids of " + x, p.description)
    ensures f.typ == "reference[" + x + "]" ==>
      var p := FieldFragment(srv, f);
      p.typ == "string" && p.items.None? && p.ref == "" && IsSuffix("Id of " + x, p.description)
  {
    if f.typ == "array[reference[" + x + "]]" {
      ArrayOfIdsPrecedence(x);
      DescriptionShape(f, ArrayOfIds(x), None);
    }
    if f.typ == "reference[" + x + "]" {
      IdOfClassified(x);
      DescriptionShape(f, IdOf(x), None);
    }
  }

  /**
   * The "Array of Strings" and "Array of Valid Options" texts never reach
   * the output: a scalar-array field gets exactly the description a plain
   * string field with the same flags and text would get.
   */
  lemma ScalarArrayNoteLost(srv: Server, f: Field)
    requires f.typ == "array[string]" || f.typ == "array[enum]"
    ensures FieldFragment(srv, f).description == FieldFragment(srv, f.(typ := "string")).description
    ensures f.typ == "array[string]" ==> FieldFragment(srv, f).items == Some(StringSchema)
  {
    KeywordClass(f.typ);
    KeywordClass("string");
  }
}
