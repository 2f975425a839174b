/** The three passes finnor-os/scripts/generate-openapi.ts runs over the assembled
    document: rebase local references of embedded schemas, hoist their definition
    tables into components.schemas, and redirect references to the hoisted places. */
module ReferenceHoisting {
  import opened Basics
  import Decimal
  import opened JsonPointer

  predicate IsString(fields: seq<Field>, name: string) {
    Get(fields, name).Some? && Get(fields, name).value.Str?
  }

  // ------------------------------------------------------------------------
  // Pass 1: rebase
  // ------------------------------------------------------------------------

  function JoinEscaped(path: Path): string {
    if path == [] then ""
    else if |path| == 1 then Escape(path[0])
    else Escape(path[0]) + "/" + JoinEscaped(path[1..])
  }

  function ScopeText(path: Path): string {
    "#/" + JoinEscaped(path)
  }

  predicate IsLocal(ref: string) {
    "#" <= ref && !("#/components/" <= ref)
  }

  function RebaseRef(ref: string, scope: string): string {
    if IsLocal(ref) then scope + ref[1..] else ref
  }

  /** A string $schema marks the root of an embedded schema, which scopes what is below. */
  function OwnScope(fields: seq<Field>, path: Path, scope: string): string {
    if IsString(fields, "$schema") then ScopeText(path) else scope
  }

  function Rebase(j: Json, path: Path, scope: string): Json
    decreases j
  {
    match j
    case Arr(items) => Arr(RebaseItems(items, path, scope, 0))
    case Obj(fields) => Obj(RebaseFields(fields, path, OwnScope(fields, path, scope)))
    case _ => j
  }

  function RebaseItems(items: seq<Json>, path: Path, scope: string, index: nat): (r: seq<Json>)
    ensures |r| == |items|
    decreases items
  {
    if items == [] then []
    else [Rebase(items[0], path + [Decimal.Print(index)], scope)] + RebaseItems(items[1..], path, scope, index + 1)
  }

  function RebaseFields(fields: seq<Field>, path: Path, scope: string): seq<Field>
    decreases fields
  {
    if fields == [] then []
    else
      var f := fields[0];
      var rest := RebaseFields(fields[1..], path, scope);
      if f.name == "$schema" && f.value.Str? then rest
      else if f.name == "$ref" && f.value.Str? then [Field("$ref", Str(RebaseRef(f.value.s, scope)))] + rest
      else [Field(f.name, Rebase(f.value, path + [f.name], scope))] + rest
  }

  // ------------------------------------------------------------------------
  // Pass 2: hoist
  // ------------------------------------------------------------------------

  predicate IsKeyword(name: string) {
    name == "definitions" || name == "$defs"
  }

  predicate IsTable(f: Field) {
    IsKeyword(f.name) && (f.value.Obj? || f.value.Arr?)
  }

  /** Stands for "Generated_" and the first 24 hex digits of a SHA-256: an injective
      text of the pointer that needs no escaping. */
  function Digest(pointer: string): string {
    if pointer == "" then "" else Decimal.Print(pointer[0] as nat) + "." + Digest(pointer[1..])
  }

  function Component(pointer: Path): string {
    "Generated_" + Digest(RefText(pointer))
  }

  const COMPONENTS := "components"
  const SCHEMAS := "schemas"

  function ComponentPath(pointer: Path): Path {
    [COMPONENTS, SCHEMAS, Component(pointer)]
  }

  function Strip(j: Json): Json
    decreases j
  {
    match j
    case Arr(items) => Arr(StripItems(items))
    case Obj(fields) => Obj(StripFields(fields))
    case _ => j
  }

  function StripItems(items: seq<Json>): (r: seq<Json>)
    ensures |r| == |items|
    decreases items
  {
    if items == [] then [] else [Strip(items[0])] + StripItems(items[1..])
  }

  function StripFields(fields: seq<Field>): seq<Field>
    decreases fields
  {
    if fields == [] then []
    else if IsTable(fields[0]) then StripFields(fields[1..])
    else [Field(fields[0].name, Strip(fields[0].value))] + StripFields(fields[1..])
  }

  /** A definition that was moved: where it was, and what is left of it. */
  datatype Moved = Moved(pointer: Path, schema: Json)

  function WithNested(own: Moved, nested: seq<Moved>, nestedFirst: bool): seq<Moved> {
    if nestedFirst then nested + [own] else [own] + nested
  }

  /** The definitions below a node. A definition comes before those nested in it in the
      list of redirection targets, and after them in the record of components. */
  function Collect(j: Json, path: Path, nestedFirst: bool): seq<Moved>
    decreases j
  {
    match j
    case Arr(items) => CollectItems(items, path, 0, nestedFirst)
    case Obj(fields) => CollectTable(fields, path, "definitions", nestedFirst)
        + CollectTable(fields, path, "$defs", nestedFirst)
        + CollectFields(fields, path, nestedFirst)
    case _ => []
  }

  function CollectTable(fields: seq<Field>, path: Path, keyword: string, nestedFirst: bool): seq<Moved>
    decreases fields
  {
    var i := Find(fields, keyword);
    if i.None? then []
    else
      assert fields[i.value] in fields;
      match fields[i.value].value
      case Obj(defs) => CollectDefs(defs, path + [keyword], nestedFirst)
      case Arr(items) => CollectDefItems(items, path + [keyword], 0, nestedFirst)
      case _ => []
  }

  function CollectDefs(defs: seq<Field>, path: Path, nestedFirst: bool): seq<Moved>
    decreases defs
  {
    if defs == [] then []
    else
      var here := path + [defs[0].name];
      WithNested(Moved(here, Strip(defs[0].value)), Collect(defs[0].value, here, nestedFirst), nestedFirst)
      + CollectDefs(defs[1..], path, nestedFirst)
  }

  function CollectDefItems(items: seq<Json>, path: Path, index: nat, nestedFirst: bool): seq<Moved>
    decreases items
  {
    if items == [] then []
    else
      var here := path + [Decimal.Print(index)];
      WithNested(Moved(here, Strip(items[0])), Collect(items[0], here, nestedFirst), nestedFirst)
      + CollectDefItems(items[1..], path, index + 1, nestedFirst)
  }

  function CollectFields(fields: seq<Field>, path: Path, nestedFirst: bool): seq<Moved>
    decreases fields
  {
    if fields == [] then []
    else if IsTable(fields[0]) then CollectFields(fields[1..], path, nestedFirst)
    else Collect(fields[0].value, path + [fields[0].name], nestedFirst) + CollectFields(fields[1..], path, nestedFirst)
  }

  function CollectItems(items: seq<Json>, path: Path, index: nat, nestedFirst: bool): seq<Moved>
    decreases items
  {
    if items == [] then []
    else Collect(items[0], path + [Decimal.Print(index)], nestedFirst) + CollectItems(items[1..], path, index + 1, nestedFirst)
  }

  /** The record of hoisted components after each definition has been filed under its name. */
  function File(moved: seq<Moved>): seq<Field> {
    if moved == [] then []
    else
      var last := moved[|moved| - 1];
      Put(File(moved[..|moved| - 1]), Component(last.pointer), last.schema)
  }

  /** Copies every key of a record over an object, as Object.assign does. */
  function Assign(fields: seq<Field>, record: seq<Field>): seq<Field> {
    if record == [] then fields
    else
      var last := record[|record| - 1];
      Put(Assign(fields, record[..|record| - 1]), last.name, last.value)
  }

  /** Extends document.components.schemas; a document without it is left alone. */
  function AssignSchemas(doc: Json, record: seq<Field>): Json {
    if doc.Obj? && Get(doc.fields, "components").Some? && Get(doc.fields, "components").value.Obj?
       && Get(Get(doc.fields, "components").value.fields, "schemas").Some?
       && Get(Get(doc.fields, "components").value.fields, "schemas").value.Obj?
    then
      var components := Get(doc.fields, "components").value.fields;
      var schemas := Get(components, "schemas").value.fields;
      Obj(Put(doc.fields, "components", Obj(Put(components, "schemas", Obj(Assign(schemas, record))))))
    else doc
  }

  // ------------------------------------------------------------------------
  // Pass 3: rewrite
  // ------------------------------------------------------------------------

  /** Redirects a reference text by the first recorded definition it equals or enters. */
  function Redirect(ref: string, moved: seq<Moved>): string {
    if moved == [] then ref
    else
      var source := RefText(moved[0].pointer);
      if ref == source || source + "/" <= ref then "#/components/schemas/" + Component(moved[0].pointer) + ref[|source|..]
      else Redirect(ref, moved[1..])
  }

  function Rewrite(j: Json, moved: seq<Moved>): Json
    decreases j
  {
    match j
    case Arr(items) => Arr(RewriteItems(items, moved))
    case Obj(fields) => Obj(RewriteFields(fields, moved))
    case _ => j
  }

  function RewriteItems(items: seq<Json>, moved: seq<Moved>): (r: seq<Json>)
    ensures |r| == |items|
    decreases items
  {
    if items == [] then [] else [Rewrite(items[0], moved)] + RewriteItems(items[1..], moved)
  }

  function RewriteFields(fields: seq<Field>, moved: seq<Moved>): (r: seq<Field>)
    ensures |r| == |fields|
    decreases fields
  {
    if fields == [] then []
    else
      var f := fields[0];
      [Field(f.name, if f.name == "$ref" && f.value.Str? then Str(Redirect(f.value.s, moved)) else Rewrite(f.value, moved))]
      + RewriteFields(fields[1..], moved)
  }

  /** The published document. */
  function Generate(doc: Json): Json {
    var rebased := Rebase(doc, [], "#");
    var record := File(Collect(rebased, [], true));
    Rewrite(AssignSchemas(Strip(rebased), record), Collect(rebased, [], false))
  }
}
