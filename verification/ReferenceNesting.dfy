/** A document with one definition table inside another, and a reference into the inner
    one: what the generator publishes for it leads nowhere. */
module ReferenceNesting {
  import opened Basics
  import opened JsonPointer
  import opened ReferenceHoisting
  import opened ReferenceMeaning
  import opened ReferenceTargets
  import opened ReferenceScopes

  function Single(name: string, value: Json): Json {
    Obj([Field(name, value)])
  }

  const LEAF := Obj([])
  const INNER := Single("$defs", Single("Y", LEAF))
  const TABLES := Single("X", INNER)
  const TO: Path := ["components", "schemas", "A", "definitions", "X", "$defs", "Y"]
  const AT: Path := ["components", "schemas", "A"]

  /** The schema A, with its table and a reference. */
  function Schema(text: string): Json {
    Obj([Field("definitions", TABLES), Field("$ref", Str(text))])
  }

  function Nested(text: string): Json {
    Single("components", Single("schemas", Single("A", Schema(text))))
  }

  lemma SchemaParts(text: string)
    ensures Child(Schema(text), "definitions") == Some(TABLES) && EntersTable(Schema(text), "definitions")
    ensures Get(Schema(text).fields, "$ref") == Some(Str(text))
    ensures Get(Schema(text).fields, "$schema").None?
  {
    var table, ref := Field("definitions", TABLES), Field("$ref", Str(text));
    assert |"definitions"| == 11 && |"$ref"| == 4 && |"$schema"| == 7;
    TwoFields(table, ref, "$ref");
    TwoFields(table, ref, "$schema");
    TwoFields(table, ref, "definitions");
  }

  lemma SchemaKeeps(text: string)
    ensures DistinctKeys(TABLES) ==> DistinctKeys(Schema(text))
    ensures ObjectTables(TABLES) ==> ObjectTables(Schema(text))
  {
    assert |"definitions"| == 11 && |"$ref"| == 4;
    TwoKeep(Field("definitions", TABLES), Field("$ref", Str(text)));
  }

  lemma TwoKeep(a: Field, b: Field)
    requires a.name != b.name && a.value.Obj? && b.value.Str?
    ensures DistinctKeys(a.value) ==> DistinctKeys(Obj([a, b]))
    ensures ObjectTables(a.value) ==> ObjectTables(Obj([a, b]))
  {
    assert DistinctKeys(b.value) && ObjectTables(b.value);
  }

  lemma TwoFields(a: Field, b: Field, name: string)
    requires a.name != b.name
    ensures Find([a, b], name) == if a.name == name then Some(0) else if b.name == name then Some(1) else None
  {
    assert [a, b][1..] == [b] && [b][1..] == [];
  }

  /** A key of a node that is no schema root leads to a value, not into a table. */
  predicate Leads(j: Json, name: string, value: Json) {
    Child(j, name) == Some(value) && !EntersTable(j, name) && !(j.Obj? && IsString(j.fields, "$schema"))
  }

  /** What a walk along a path finds: the value, the first and the last table, the schema root above. */
  datatype Sight = Sight(value: Option<Json>, first: Option<nat>, last: Option<nat>, root: Path)

  function Look(j: Json, path: Path, here: Path): Sight {
    Sight(Resolve(j, path), TableAt(j, path), LastTable(j, path), RootAbove(j, path, here, []))
  }

  /** The same seen from some steps above. */
  function From(s: Sight, steps: nat): Sight {
    s.(first := Later(s.first, steps), last := Later(s.last, steps))
  }

  lemma Through(j: Json, name: string, value: Json, rest: Path, path: Path, here: Path)
    requires Leads(j, name, value) && path == [name] + rest
    ensures Look(j, path, here) == From(Look(value, rest, here + [name]), 1)
  {
    assert path[1..] == rest;
  }

  lemma ThreeSteps(a: Sight, b: Sight, c: Sight, d: Sight)
    requires a == From(b, 1) && b == From(c, 1) && c == From(d, 1)
    ensures a == From(d, 3)
  {
  }

  lemma SingleLeads(name: string, value: Json)
    requires name != "$schema" && !IsKeyword(name)
    ensures Leads(Single(name, value), name, value)
  {
    assert Single(name, value).fields[1..] == [];
  }

  /** Walking through a table into one of its definitions. */
  lemma ThroughTable(j: Json, token: string, name: string, value: Json, rest: Path)
    requires EntersTable(j, token) && Child(j, token) == Some(Single(name, value))
    ensures var path := [token, name] + rest;
      && Resolve(j, path) == Resolve(value, rest)
      && TableAt(j, path) == Some(0)
      && LastTable(j, path) == (if LastTable(value, rest).None? then Some(0) else Later(LastTable(value, rest), 2))
  {
    var path := [token, name] + rest;
    assert path[1..] == [name] + rest && path[2..] == rest && path[1..][1..] == rest;
    assert Child(Single(name, value), name) == Some(value);
  }

  lemma SingleKeeps(name: string, value: Json)
    ensures DistinctKeys(value) ==> DistinctKeys(Single(name, value))
    ensures ObjectTables(value) && (IsKeyword(name) ==> value.Obj?) ==> ObjectTables(Single(name, value))
  {
  }

  lemma NestedIsAssembled(text: string)
    ensures Assembled(Nested(text))
  {
    SingleKeeps("Y", LEAF);
    SingleKeeps("$defs", Single("Y", LEAF));
    SingleKeeps("X", INNER);
    SchemaKeeps(text);
    SingleKeeps("A", Schema(text));
    SingleKeeps("schemas", Single("A", Schema(text)));
    SingleKeeps("components", Single("schemas", Single("A", Schema(text))));
    assert Schemas(Nested(text)) == [Field("A", Schema(text))];
    assert !("Generated_" <= "A");
  }

  /** The reference's target lies behind two tables, the first of which holds X and the second Y. */
  lemma WayToNested(text: string)
    ensures Resolve(Nested(text), TO) == Some(LEAF)
    ensures TableAt(Nested(text), TO) == Some(3) && LastTable(Nested(text), TO) == Some(5)
  {
    var below := ["definitions", "X"] + (["$defs", "Y"] + []);
    WayInSchema(text);
    ToComponent(Schema(text), below);
    assert TO == AT + below;
  }

  /** Walking to the only component. */
  lemma ToComponent(value: Json, rest: Path)
    ensures Look(Single("components", Single("schemas", Single("A", value))), AT + rest, []) == From(Look(value, rest, AT), 3)
  {
    var schemas := Single("A", value);
    var components := Single("schemas", schemas);
    SingleLeads("A", value);
    SingleLeads("schemas", schemas);
    SingleLeads("components", components);
    assert AT + rest == ["components"] + (["schemas"] + (["A"] + rest));
    assert [] + ["components"] + ["schemas"] + ["A"] == AT;
    ThroughThree(Single("components", components), components, schemas, value, "components", "schemas", "A", rest);
  }

  lemma ThroughThree(doc: Json, first: Json, second: Json, value: Json, a: string, b: string, c: string, rest: Path)
    requires Leads(doc, a, first) && Leads(first, b, second) && Leads(second, c, value)
    ensures Look(doc, [a] + ([b] + ([c] + rest)), []) == From(Look(value, rest, [] + [a] + [b] + [c]), 3)
  {
    var p1, p2 := [c] + rest, [b] + ([c] + rest);
    Through(second, c, value, rest, p1, [] + [a] + [b]);
    Through(first, b, second, p1, p2, [] + [a]);
    Through(doc, a, first, p2, [a] + p2, []);
    ThreeSteps(Look(doc, [a] + p2, []), Look(first, p2, [] + [a]), Look(second, p1, [] + [a] + [b]),
               Look(value, rest, [] + [a] + [b] + [c]));
  }

  lemma WayInSchema(text: string)
    ensures var below := ["definitions", "X"] + (["$defs", "Y"] + []);
      && Resolve(Schema(text), below) == Some(LEAF)
      && TableAt(Schema(text), below) == Some(0) && LastTable(Schema(text), below) == Some(2)
  {
    SchemaParts(text);
    assert EntersTable(INNER, "$defs") && Child(INNER, "$defs") == Some(Single("Y", LEAF));
    ThroughTable(INNER, "$defs", "Y", LEAF, []);
    ThroughTable(Schema(text), "definitions", "X", INNER, ["$defs", "Y"] + []);
  }

  /** The schema that holds the reference is not in a table, and has no schema root above it. */
  lemma WayToSchema(text: string)
    ensures Resolve(Nested(text), AT) == Some(Schema(text))
    ensures LastTable(Nested(text), AT).None? && SchemaRoot(Nested(text), AT) == []
  {
    SchemaParts(text);
    ToComponent(Schema(text), []);
    assert AT + [] == AT;
  }

  /** With A the only component schema, X in the `definitions` of A and Y in the `$defs` of
      X, the reference of A to Y has a target in the document; in the published document it
      still names a location, and nothing is there. */
  lemma NestedReferenceDangles()
    ensures var text := RefText(TO); var doc := Nested(text);
      && Assembled(doc) && Denotes(doc, AT, text, TO) && Resolve(doc, TO) == Some(LEAF)
      && var target := Target(Generate(doc), Relocate(doc, AT));
         target.Some? && Resolve(Generate(doc), target.value).None?
  {
    var text := RefText(TO);
    NestedIsAssembled(text);
    WayToNested(text);
    NestedDenotes(text);
    assert !(AT <= ["components", "schemas"]) && !(TO <= ["components", "schemas"]);
    ReferencesKeepTheirMeaning(Nested(text), AT, text, TO);
  }

  lemma NestedDenotes(text: string)
    requires text == RefText(TO)
    ensures Denotes(Nested(text), AT, text, TO) && NotATable(Nested(text), AT)
  {
    WayToSchema(text);
    SchemaParts(text);
    RefRoundTrip(TO);
    Denoting(Nested(text), AT, text, TO);
  }

  lemma Denoting(doc: Json, at: Path, text: string, to: Path)
    requires Carries(doc, at, text) && ParseRef(text) == Some(to) && SchemaRoot(doc, at) == []
    ensures Denotes(doc, at, text, to)
  {
    assert [] + to == to;
  }
}
