/**
 * The field-type descriptor grammar and its classifier: the ordered list of
 * anchored regular expressions the translator tries, first match wins,
 * recast as a parser into a tagged union.
 */
module Descriptor {
  import opened Wrappers

  /** One alternative of the classifier, in the order they are tried. */
  datatype TypeClass =
    | Primitive(name: string)       // ^(string|boolean|object|array)$
    | Date                          // ^date$
    | Password                      // ^password$
    | Int                           // ^int$
    | ArrayOfStrings                // ^array\[string\]$
    | ArrayOfEnums                  // ^array\[enum\]$
    | ArrayOf(elem: string)         // ^array\[(\w+)\]$
    | MapOfStrings                  // ^map\[string\]$
    | MapOf(elem: string)           // ^map\[(\w+)\]$
    | IdOf(target: string)          // ^reference\[([a-zA-Z0-9/]+)\]$
    | ArrayOfIds(target: string)    // ^array\[reference\[([a-zA-Z0-9/]+)\]\]$
    | Enum                          // ^enum$
    | DnsLabel                      // ^dnsLabel$
    | Nested(typeName: string)      // anything else: a nested object type

  /** `\w` in Go's regular expressions: ASCII letters, digits and underscore. */
  predicate IsWordChar(c: char) {
    ('a' <= c <= 'z') || ('A' <= c <= 'Z') || ('0' <= c <= '9') || c == '_'
  }

  /** The class `[a-zA-Z0-9/]` of reference targets. */
  predicate IsRefIdChar(c: char) {
    ('a' <= c <= 'z') || ('A' <= c <= 'Z') || ('0' <= c <= '9') || c == '/'
  }

  /** `\w+` */
  predicate IsWord(s: string) {
    |s| > 0 && forall i :: 0 <= i < |s| ==> IsWordChar(s[i])
  }

  /** `[a-zA-Z0-9/]+` */
  predicate IsRefId(s: string) {
    |s| > 0 && forall i :: 0 <= i < |s| ==> IsRefIdChar(s[i])
  }

  predicate IsPrimitiveName(s: string) {
    s == "string" || s == "boolean" || s == "object" || s == "array"
  }

  /** The descriptor text an alternative stands for. */
  function Render(c: TypeClass): string {
    match c
    case Primitive(n) => n
    case Date => "date"
    case Password => "password"
    case Int => "int"
    case ArrayOfStrings => "array[string]"
    case ArrayOfEnums => "array[enum]"
    case ArrayOf(x) => "array[" + x + "]"
    case MapOfStrings => "map[string]"
    case MapOf(x) => "map[" + x + "]"
    case IdOf(x) => "reference[" + x + "]"
    case ArrayOfIds(x) => "array[reference[" + x + "]]"
    case Enum => "enum"
    case DnsLabel => "dnsLabel"
    case Nested(n) => n
  }

  /** The captured text satisfies its character class. */
  predicate WellFormed(c: TypeClass) {
    match c
    case Primitive(n) => IsPrimitiveName(n)
    case ArrayOf(x) => IsWord(x)
    case MapOf(x) => IsWord(x)
    case IdOf(x) => IsRefId(x)
    case ArrayOfIds(x) => IsRefId(x)
    case _ => true
  }

  /** The alternative's regular expression matches the whole of `t`. */
  predicate Matches(c: TypeClass, t: string) {
    WellFormed(c) && Render(c) == t
  }

  /** Position of the alternative in the `switch`. */
  function Rank(c: TypeClass): nat {
    match c
    case Primitive(_) => 0
    case Date => 1
    case Password => 2
    case Int => 3
    case ArrayOfStrings => 4
    case ArrayOfEnums => 5
    case ArrayOf(_) => 6
    case MapOfStrings => 7
    case MapOf(_) => 8
    case IdOf(_) => 9
    case ArrayOfIds(_) => 10
    case Enum => 11
    case DnsLabel => 12
    case Nested(_) => 13
  }

  /** The text between a fixed opening and closing, if `t` has that shape. */
  function Unwrap(open: string, close: string, t: string): (r: Option<string>)
    ensures r.Some? ==> t == open + r.value + close
  {
    if |open| + |close| <= |t| && t[..|open|] == open && t[|t| - |close|..] == close
    then
      var inner := t[|open|..|t| - |close|];
      assert t == t[..|open|] + inner + t[|t| - |close|..];
      Some(inner)
    else None
  }

  /** Unwrap finds every inner text there is. */
  lemma UnwrapComplete(open: string, close: string, x: string)
    ensures Unwrap(open, close, open + x + close) == Some(x)
  {
    var t := open + x + close;
    assert t[..|open|] == open;
    assert t[|t| - |close|..] == close;
    assert t[|open|..|t| - |close|] == x;
  }

  /** The group a pattern `open(class+)close` captures from `t`: `\w+` or, with `refClass`, `[a-zA-Z0-9/]+`. */
  function Capture(open: string, close: string, t: string, refClass: bool): Option<string> {
    var inner := Unwrap(open, close, t);
    if inner.Some? && (if refClass then IsRefId(inner.value) else IsWord(inner.value))
    then inner else None
  }

  /** Position of the last alternative, the nested-object default. */
  const LastRank: nat := 13

  /** The alternative at position `k` of the switch, if its pattern matches the whole of `t`. */
  function Alternative(k: nat, t: string): (r: Option<TypeClass>)
    requires k <= LastRank
    ensures r.Some? ==> Matches(r.value, t) && Rank(r.value) == k
    ensures k == LastRank ==> r.Some?
  {
    if k == 0 then (if IsPrimitiveName(t) then Some(Primitive(t)) else None)
    else if k == 1 then (if t == "date" then Some(Date) else None)
    else if k == 2 then (if t == "password" then Some(Password) else None)
    else if k == 3 then (if t == "int" then Some(Int) else None)
    else if k == 4 then (if t == "array[string]" then Some(ArrayOfStrings) else None)
    else if k == 5 then (if t == "array[enum]" then Some(ArrayOfEnums) else None)
    else if k == 6 then (var g := Capture("array[", "]", t, false); if g.Some? then Some(ArrayOf(g.value)) else None)
    else if k == 7 then (if t == "map[string]" then Some(MapOfStrings) else None)
    else if k == 8 then (var g := Capture("map[", "]", t, false); if g.Some? then Some(MapOf(g.value)) else None)
    else if k == 9 then (var g := Capture("reference[", "]", t, true); if g.Some? then Some(IdOf(g.value)) else None)
    else if k == 10 then
      (var g := Capture("array[reference[", "]]", t, true); if g.Some? then Some(ArrayOfIds(g.value)) else None)
    else if k == 11 then (if t == "enum" then Some(Enum) else None)
    else if k == 12 then (if t == "dnsLabel" then Some(DnsLabel) else None)
    else Some(Nested(t))
  }

  /** The switch from position `k` on: the first alternative whose pattern matches wins. */
  function ClassifyFrom(t: string, k: nat): (c: TypeClass)
    requires k <= LastRank
    ensures Matches(c, t) && k <= Rank(c)
    decreases LastRank - k
  {
    match Alternative(k, t)
    case Some(c) => c
    case None => ClassifyFrom(t, k + 1)
  }

  /** The classifier: the whole switch. */
  function Classify(t: string): (c: TypeClass)
    ensures Matches(c, t)
  {
    ClassifyFrom(t, 0)
  }

  /** An alternative whose pattern matches is found at its own position. */
  lemma AlternativeComplete(c: TypeClass, t: string)
    requires Matches(c, t)
    ensures Alternative(Rank(c), t) == Some(c)
  {
    match c
    case ArrayOf(x) => UnwrapComplete("array[", "]", x);
    case MapOf(x) => UnwrapComplete("map[", "]", x);
    case IdOf(x) => UnwrapComplete("reference[", "]", x);
    case ArrayOfIds(x) => UnwrapComplete("array[reference[", "]]", x);
    case _ =>
  }

  lemma {:induction false} ClassifyFromFirst(t: string, k: nat, c: TypeClass)
    requires k <= Rank(c) && Matches(c, t)
    ensures Rank(ClassifyFrom(t, k)) <= Rank(c)
    decreases Rank(c) - k
  {
    if k == Rank(c) {
      AlternativeComplete(c, t);
    } else if Alternative(k, t).None? {
      ClassifyFromFirst(t, k + 1, c);
    }
  }

  /** No alternative that matches `t` comes before the one Classify picks. */
  lemma ClassifyFirstMatch(t: string, c: TypeClass)
    requires Matches(c, t)
    ensures Rank(Classify(t)) <= Rank(c)
  {
    ClassifyFromFirst(t, 0, c);
  }

  /** Two alternatives at the same position matching the same text are the same. */
  lemma MatchesUnique(t: string, c1: TypeClass, c2: TypeClass)
    requires Matches(c1, t) && Matches(c2, t) && Rank(c1) == Rank(c2)
    ensures c1 == c2
  {
    match c1
    case ArrayOf(x) => UnwrapComplete("array[", "]", x); UnwrapComplete("array[", "]", c2.elem);
    case MapOf(x) => UnwrapComplete("map[", "]", x); UnwrapComplete("map[", "]", c2.elem);
    case IdOf(x) => UnwrapComplete("reference[", "]", x); UnwrapComplete("reference[", "]", c2.target);
    case ArrayOfIds(x) =>
      UnwrapComplete("array[reference[", "]]", x); UnwrapComplete("array[reference[", "]]", c2.target);
    case _ =>
  }

  /** Classify picks exactly the earliest alternative that matches. */
  lemma ClassifyIsFirstMatch(t: string, c: TypeClass)
    ensures Classify(t) == c <==> (Matches(c, t) && forall c' :: Matches(c', t) ==> Rank(c) <= Rank(c'))
  {
    if Classify(t) == c {
      forall c' | Matches(c', t)
        ensures Rank(c) <= Rank(c')
      {
        ClassifyFirstMatch(t, c');
      }
    }
    if Matches(c, t) && forall c' :: Matches(c', t) ==> Rank(c) <= Rank(c') {
      ClassifyFirstMatch(t, c);
      MatchesUnique(t, c, Classify(t));
    }
  }

  /** A position whose pattern does not match passes `t` on to the next. */
  lemma SkipAlternative(t: string, k: nat)
    requires k < LastRank && Alternative(k, t).None?
    ensures ClassifyFrom(t, k) == ClassifyFrom(t, k + 1)
  {
  }

  /**
   * `array[reference[X]]` is never taken by `array[\w+]`, because `\w`
   * does not contain `[`: it reaches the array-of-ids alternative.
   */
  lemma ArrayOfIdsPrecedence(x: string)
    requires IsRefId(x)
    ensures Classify("array[reference[" + x + "]]") == ArrayOfIds(x)
  {
    var t := "array[reference[" + x + "]]";
    var inner := "reference[" + x + "]";
    assert |t| > 18 && t[0] == 'a';
    assert t == "array[" + inner + "]";
    SkipAlternative(t, 0);
    SkipAlternative(t, 1);
    SkipAlternative(t, 2);
    SkipAlternative(t, 3);
    SkipAlternative(t, 4);
    SkipAlternative(t, 5);
    UnwrapComplete("array[", "]", inner);
    assert inner[9] == '[' && !IsWordChar(inner[9]);
    assert Capture("array[", "]", t, false) == None;
    SkipAlternative(t, 6);
    SkipAlternative(t, 7);
    assert Unwrap("map[", "]", t) == None;
    SkipAlternative(t, 8);
    assert Unwrap("reference[", "]", t) == None;
    SkipAlternative(t, 9);
    UnwrapComplete("array[reference[", "]]", x);
    assert Alternative(10, t) == Some(ArrayOfIds(x));
  }

  /** `reference[X]` is an id of X. */
  lemma IdOfClassified(x: string)
    requires IsRefId(x)
    ensures Classify("reference[" + x + "]") == IdOf(x)
  {
    var t := "reference[" + x + "]";
    assert |t| > 10 && t[0] == 'r';
    SkipAlternative(t, 0);
    SkipAlternative(t, 1);
    SkipAlternative(t, 2);
    SkipAlternative(t, 3);
    SkipAlternative(t, 4);
    SkipAlternative(t, 5);
    assert t[..6] != "array[";
    SkipAlternative(t, 6);
    SkipAlternative(t, 7);
    assert t[..4] != "map[";
    SkipAlternative(t, 8);
    UnwrapComplete("reference[", "]", x);
    assert Alternative(9, t) == Some(IdOf(x));
  }

  /**
   * `map[X]` for any word X other than `string` is taken by `map[\w+]`, so X
   * is fetched as a type: `map[base64]` is not a nested object name.
   */
  lemma MapOfClassified(x: string)
    requires IsWord(x) && x != "string"
    ensures Classify("map[" + x + "]") == MapOf(x)
  {
    var t := "map[" + x + "]";
    assert |t| > 5 && t[0] == 'm';
    SkipAlternative(t, 0);
    SkipAlternative(t, 1);
    SkipAlternative(t, 2);
    SkipAlternative(t, 3);
    SkipAlternative(t, 4);
    SkipAlternative(t, 5);
    assert Unwrap("array[", "]", t) == None;
    SkipAlternative(t, 6);
    UnwrapComplete("map[", "]", x);
    assert t != "map[string]" by {
      UnwrapComplete("map[", "]", "string");
    }
    SkipAlternative(t, 7);
    assert Alternative(8, t) == Some(MapOf(x));
  }

  /** `array[int]` falls to the element-type alternative, so `int` is fetched as a type. */
  lemma IntArrayIsTypeReference()
    ensures Classify("array[int]") == ArrayOf("int")
  {
    var t := "array[int]";
    assert |t| == 10 && t == "array[" + "int" + "]";
    SkipAlternative(t, 0);
    SkipAlternative(t, 1);
    SkipAlternative(t, 2);
    SkipAlternative(t, 3);
    SkipAlternative(t, 4);
    SkipAlternative(t, 5);
    UnwrapComplete("array[", "]", "int");
    assert IsWord("int") by {
      assert forall i :: 0 <= i < 3 ==> "int"[i] in {'i', 'n', 't'};
    }
    assert Alternative(6, t) == Some(ArrayOf("int"));
  }

  /** The keyword alternatives before the first capturing one, each at its own position. */
  lemma KeywordClasses()
    ensures Classify("string") == Primitive("string") && Classify("boolean") == Primitive("boolean")
    ensures Classify("object") == Primitive("object") && Classify("array") == Primitive("array")
    ensures Classify("date") == Date && Classify("password") == Password && Classify("int") == Int
    ensures Classify("array[string]") == ArrayOfStrings && Classify("array[enum]") == ArrayOfEnums
  {
  }

  /** `map[string]` is not taken by `array[\w+]`, and reaches its own alternative. */
  lemma MapOfStringsClassified()
    ensures Classify("map[string]") == MapOfStrings
  {
    var t := "map[string]";
    SkipAlternative(t, 0);
    SkipAlternative(t, 1);
    SkipAlternative(t, 2);
    SkipAlternative(t, 3);
    SkipAlternative(t, 4);
    SkipAlternative(t, 5);
    assert t[..6] != "array[" by { assert t[0] == 'm'; }
    SkipAlternative(t, 6);
  }

  /** `enum` and `dnsLabel` are taken by no capturing alternative, and reach their own. */
  lemma LateKeywordClasses(t: string)
    requires t == "enum" || t == "dnsLabel"
    ensures Classify(t) == if t == "enum" then Enum else DnsLabel
  {
    assert |t| <= 8 && (t[0] == 'e' || t[0] == 'd');
    SkipAlternative(t, 0);
    SkipAlternative(t, 1);
    SkipAlternative(t, 2);
    SkipAlternative(t, 3);
    SkipAlternative(t, 4);
    SkipAlternative(t, 5);
    assert Unwrap("array[", "]", t) == None;
    SkipAlternative(t, 6);
    SkipAlternative(t, 7);
    assert Unwrap("map[", "]", t) == None;
    SkipAlternative(t, 8);
    SkipAlternative(t, 9);
    SkipAlternative(t, 10);
    if t == "dnsLabel" {
      SkipAlternative(t, 11);
    }
  }

  /** Every keyword of the switch is classified by its own alternative. */
  lemma KeywordClass(t: string)
    ensures IsPrimitiveName(t) ==> Classify(t) == Primitive(t)
    ensures t == "date" ==> Classify(t) == Date
    ensures t == "password" ==> Classify(t) == Password
    ensures t == "int" ==> Classify(t) == Int
    ensures t == "array[string]" ==> Classify(t) == ArrayOfStrings
    ensures t == "array[enum]" ==> Classify(t) == ArrayOfEnums
    ensures t == "map[string]" ==> Classify(t) == MapOfStrings
    ensures t == "enum" ==> Classify(t) == Enum
    ensures t == "dnsLabel" ==> Classify(t) == DnsLabel
  {
    if t == "map[string]" {
      MapOfStringsClassified();
    } else if t == "enum" || t == "dnsLabel" {
      LateKeywordClasses(t);
    } else {
      KeywordClasses();
    }
  }
}
