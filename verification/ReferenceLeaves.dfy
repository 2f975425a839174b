/** What the generator leaves alone: every value that is neither a reference nor a schema
    marker, the length of every array and the keys of every object. */
module ReferenceLeaves {
  import opened Basics
  import Decimal
  import opened JsonPointer
  import opened ReferenceHoisting
  import opened ReferenceMeaning
  import opened ReferenceTargets
  import opened ReferenceScopes

  predicate Leaf(j: Json) {
    j.Null? || j.Bool? || j.Num? || j.Str?
  }

  /** A leaf that is not the text of a `$ref` or `$schema` key. */
  ghost predicate PlainLeaf(j: Json, path: Path, leaf: Json) {
    && Resolve(j, path) == Some(leaf) && Leaf(leaf)
    && (leaf.Str? ==> path != [] && path[|path| - 1] != "$ref" && path[|path| - 1] != "$schema")
  }

  // ------------------------------------------------------------------------
  // A leaf and its parent
  // ------------------------------------------------------------------------

  lemma Parent(j: Json, path: Path, leaf: Json)
    requires path != [] && Resolve(j, path) == Some(leaf)
    ensures var q := path[..|path| - 1];
      Resolve(j, q).Some? && !Resolve(j, q).value.Str? && Child(Resolve(j, q).value, path[|path| - 1]) == Some(leaf)
  {
    var q, t := path[..|path| - 1], path[|path| - 1];
    assert path == q + [t];
    ResolveConcat(j, q, [t]);
    if Resolve(j, q).Some? {
      OneStep(Resolve(j, q).value, t);
    }
  }

  lemma OneStep(j: Json, token: string)
    ensures Resolve(j, [token]) == Child(j, token)
  {
    assert [token][1..] == [];
  }

  lemma BelowParent(j: Json, q: Path, token: string, leaf: Json)
    requires Resolve(j, q).Some? && Child(Resolve(j, q).value, token) == Some(leaf)
    ensures Resolve(j, q + [token]) == Some(leaf)
  {
    ResolveConcat(j, q, [token]);
    OneStep(Resolve(j, q).value, token);
  }

  /** A leaf is no table, so the last table on the way to it lies on the way to its parent. */
  lemma {:induction false} LastTableOfLeaf(j: Json, q: Path, token: string, leaf: Json)
    requires Resolve(j, q).Some? && Child(Resolve(j, q).value, token) == Some(leaf) && Leaf(leaf)
    ensures LastTable(j, q + [token]) == LastTable(j, q)
    decreases |q|
  {
    var p := q + [token];
    if q == [] {
      assert p == [token] && p[1..] == [];
    } else {
      var c := Child(j, q[0]).value;
      assert p[0] == q[0] && p[1..] == q[1..] + [token];
      if !EntersTable(j, q[0]) {
        LastTableOfLeaf(c, q[1..], token, leaf);
      } else if |q| == 1 {
        assert q[1..] == [] && p[1] == token && p[2..] == [];
      } else {
        assert p[1] == q[1] && p[2..] == q[2..] + [token] && q[1..][1..] == q[2..];
        LastTableOfLeaf(Child(c, q[1]).value, q[2..], token, leaf);
      }
    }
  }

  lemma {:induction false} LeafIsNoTable(j: Json, path: Path, leaf: Json)
    requires Resolve(j, path) == Some(leaf) && Leaf(leaf)
    ensures NotATable(j, path)
    decreases |path|
  {
    if path != [] {
      var c := Child(j, path[0]).value;
      if |path| == 1 {
        assert path == [path[0]];
        OneStep(j, path[0]);
      } else if !EntersTable(j, path[0]) {
        LeafIsNoTable(c, path[1..], leaf);
      } else {
        assert path[1..][1..] == path[2..];
        LeafIsNoTable(Child(c, path[1]).value, path[2..], leaf);
      }
    }
  }

  lemma LeafIsNoContainer(j: Json, path: Path, leaf: Json)
    requires HasSchemas(j) && Resolve(j, path) == Some(leaf) && Leaf(leaf)
    ensures !(path <= ["components", "schemas"])
  {
    ContainersAreObjects(j);
    if path <= ["components", "schemas"] {
      PartOfContainers(path);
    }
  }

  lemma ContainersAreObjects(j: Json)
    requires HasSchemas(j)
    ensures Resolve(j, []).value.Obj?
    ensures Resolve(j, ["components"]).Some? && Resolve(j, ["components"]).value.Obj?
    ensures Resolve(j, ["components", "schemas"]).Some? && Resolve(j, ["components", "schemas"]).value.Obj?
  {
    OneStep(j, "components");
    assert ["components", "schemas"] == ["components"] + ["schemas"];
    ResolveCons(j, "components", ["schemas"]);
    OneStep(Get(j.fields, "components").value, "schemas");
  }

  lemma PartOfContainers(path: Path)
    requires path <= ["components", "schemas"]
    ensures path == [] || path == ["components"] || path == ["components", "schemas"]
  {
  }

  // ------------------------------------------------------------------------
  // The passes
  // ------------------------------------------------------------------------

  lemma ChildTextOfRebase(j: Json, here: Path, root: Path, token: string, text: string)
    requires DistinctKeys(j) && PlainRoot(j, here) && Child(j, token) == Some(Str(text))
    requires token != "$ref" && token != "$schema"
    ensures Child(Rebase(j, here, RefText(root)), token) == Some(Str(text))
  {
    ScopeOfNode(j, here, root);
    match j
    case Obj(fields) => GetRebase(fields, here, RefText(OwnRoot(j, here, root)), token);
    case Arr(items) =>
      Decimal.PrintOfValue(token);
      RebaseItemsAt(items, here, RefText(root), 0, Decimal.Value(token));
  }

  lemma LeafOfRebase(doc: Json, path: Path, leaf: Json)
    requires DistinctKeys(doc) && PlainRoot(doc, []) && PlainLeaf(doc, path, leaf)
    ensures PlainLeaf(RebasedDocument(doc), path, leaf)
    ensures LastTable(RebasedDocument(doc), path) == LastTable(doc, path)
  {
    if path == [] {
    } else {
      var q, t := path[..|path| - 1], path[|path| - 1];
      var rebased := RebasedDocument(doc);
      assert path == q + [t];
      Parent(doc, path, leaf);
      ResolveRebase(doc, [], [], q);
      ResolvedKeepsDistinct(doc, q);
      LastTableOfRebase(doc, [], [], q);
      LastTableOfLeaf(doc, q, t, leaf);
      var node, above := Resolve(doc, q).value, RootAbove(doc, q, [], []);
      assert [] + q == q;
      if leaf.Str? {
        ChildTextOfRebase(node, q, above, t, leaf.s);
      } else {
        ChildOfRebase(node, q, above, t);
      }
      BelowParent(rebased, q, t, leaf);
      LastTableOfLeaf(rebased, q, t, leaf);
    }
  }

  lemma ChildTextOfRewrite(j: Json, moved: seq<Moved>, token: string, text: string)
    requires Child(j, token) == Some(Str(text)) && token != "$ref"
    ensures Child(Rewrite(j, moved), token) == Some(Str(text))
  {
    match j
    case Obj(fields) => GetRewrite(fields, moved, token);
    case Arr(items) => RewriteItemsAt(items, moved, Decimal.Value(token));
  }

  lemma LeafOfRewrite(j: Json, moved: seq<Moved>, path: Path, leaf: Json)
    requires Resolve(j, path) == Some(leaf) && Leaf(leaf)
    requires leaf.Str? ==> path != [] && path[|path| - 1] != "$ref"
    ensures Resolve(Rewrite(j, moved), path) == Some(leaf)
  {
    if leaf.Str? {
      var q, t := path[..|path| - 1], path[|path| - 1];
      assert path == q + [t];
      Parent(j, path, leaf);
      ResolveRewrite(j, moved, q);
      ChildTextOfRewrite(Resolve(j, q).value, moved, t, leaf.s);
      BelowParent(Rewrite(j, moved), q, t, leaf);
    } else {
      ResolveRewrite(j, moved, path);
    }
  }

  /** A leaf outside all tables stays where it is. */
  lemma StayingLeaf(j: Json, path: Path, leaf: Json)
    requires Hoistable(j) && PlainLeaf(j, path, leaf) && LastTable(j, path).None?
    ensures Resolve(Publish(j), path) == Some(leaf)
  {
    var record, stripped := File(Collect(j, [], true)), Strip(j);
    LeafIsNoContainer(j, path, leaf);
    LastAfterFirst(j, path);
    StripKeepsSchemas(j);
    ResolveStrip(j, path);
    if ["components", "schemas"] <= path {
      RecordedNotPublic(j, path);
    }
    AssignedElsewhere(stripped, record, path);
    LeafOfRewrite(AssignSchemas(stripped, record), Collect(j, [], false), path, leaf);
  }

  /** A leaf in a definition moves with it. */
  lemma MovingLeaf(j: Json, path: Path, leaf: Json, p: Path)
    requires Hoistable(j) && PlainLeaf(j, path, leaf) && LastTable(j, path).Some?
    requires LastTable(j, path).value + 2 <= |path| && p == path[..LastTable(j, path).value + 2]
    ensures Resolve(Publish(j), ComponentPath(p) + path[|p|..]) == Some(leaf)
  {
    var rest := path[|p|..];
    LeafIsAssigned(j, path, leaf, p, rest);
    LastOfMoved(p, rest, path);
    LeafOfRewrite(AssignSchemas(Strip(j), File(Collect(j, [], true))), Collect(j, [], false), ComponentPath(p) + rest, leaf);
  }

  lemma LeafIsAssigned(j: Json, path: Path, leaf: Json, p: Path, rest: Path)
    requires Hoistable(j) && PlainLeaf(j, path, leaf) && LastTable(j, path).Some?
    requires LastTable(j, path).value + 2 <= |path| && p == path[..LastTable(j, path).value + 2] && rest == path[|p|..]
    ensures Resolve(AssignSchemas(Strip(j), File(Collect(j, [], true))), ComponentPath(p) + rest) == Some(leaf)
  {
    NothingAfterLast(j, path, p);
    ResolvedKeepsDistinct(j, p);
    ResolveStrip(Resolve(j, p).value, rest);
    CollectIsComplete(j, [], true, p);
    assert [] + p == p;
    DefinitionIsAssigned(j, Moved(p, Strip(Resolve(j, p).value)), rest);
  }

  lemma LastOfMoved(p: Path, rest: Path, path: Path)
    requires path == p + rest && path != []
    ensures var moved := ComponentPath(p) + rest;
      moved[|moved| - 1] == (if rest == [] then Component(p) else path[|path| - 1]) && Component(p) != "$ref"
  {
    assert Component(p)[0] == 'G';
  }

  /** Every leaf of the assembled document that is not the text of a `$ref` or `$schema` is,
      unchanged, at its published location. */
  lemma LeavesStay(doc: Json, at: Path, leaf: Json)
    requires Assembled(doc) && PlainLeaf(doc, at, leaf)
    ensures Resolve(Generate(doc), Relocate(doc, at)) == Some(leaf)
  {
    var rebased := RebasedDocument(doc);
    GenerateIsPublish(doc);
    RebasedIsHoistable(doc);
    LeafOfRebase(doc, at, leaf);
    LeafIsNoTable(rebased, at, leaf);
    if LastTable(rebased, at).None? {
      StayingLeaf(rebased, at, leaf);
    } else {
      var p := at[..LastTable(rebased, at).value + 2];
      RelocateUnder(rebased, at, p);
      MovingLeaf(rebased, at, leaf, p);
    }
  }

  // ------------------------------------------------------------------------
  // Arrays and objects
  // ------------------------------------------------------------------------

  function Names(fields: seq<Field>): seq<string> {
    if fields == [] then [] else [fields[0].name] + Names(fields[1..])
  }

  /** A key that the published document drops: a schema marker or a definition table. */
  predicate Dropped(f: Field) {
    || (f.name == "$schema" && f.value.Str?)
    || ((f.name == "definitions" || f.name == "$defs") && (f.value.Obj? || f.value.Arr?))
  }

  function KeptNames(fields: seq<Field>): seq<string> {
    if fields == [] then []
    else if Dropped(fields[0]) then KeptNames(fields[1..])
    else [fields[0].name] + KeptNames(fields[1..])
  }

  lemma {:induction false} NamesOfRewrite(fields: seq<Field>, moved: seq<Moved>)
    ensures Names(RewriteFields(fields, moved)) == Names(fields)
  {
    if fields != [] {
      NamesOfRewrite(fields[1..], moved);
      assert RewriteFields(fields, moved)[1..] == RewriteFields(fields[1..], moved);
    }
  }

  lemma NamesCons(f: Field, rest: seq<Field>)
    ensures Names([f] + rest) == [f.name] + Names(rest)
  {
    assert ([f] + rest)[1..] == rest;
  }

  lemma {:induction false} NamesOfStripped(fields: seq<Field>, path: Path, scope: string)
    ensures Names(StripFields(RebaseFields(fields, path, scope))) == KeptNames(fields)
  {
    if fields != [] {
      NamesOfStripped(fields[1..], path, scope);
      var f, rest := fields[0], RebaseFields(fields[1..], path, scope);
      if !(f.name == "$schema" && f.value.Str?) {
        var first := Field(f.name, Rebased(f.name, f.value, path, scope));
        assert RebaseFields(fields, path, scope) == [first] + rest;
        assert ([first] + rest)[1..] == rest && IsTable(first) == IsTable(f);
        if !IsTable(f) {
          NamesCons(Field(f.name, Strip(first.value)), StripFields(rest));
        }
      }
    }
  }

  /** One node before and after: arrays keep their length, objects the order of their keys. */
  ghost predicate SameShape(before: Json, after: Json) {
    && (before.Arr? ==> after.Arr? && |after.items| == |before.items|)
    && (before.Obj? ==> after.Obj? && Names(after.fields) == KeptNames(before.fields))
  }

  lemma ImageHasShape(doc: Json, at: Path)
    requires Resolve(doc, at).Some?
    ensures SameShape(Resolve(doc, at).value, Image(doc, at))
  {
    var value, scope := Resolve(doc, at).value, RefText(RootAbove(doc, at, [], []));
    var moved := Collect(RebasedDocument(doc), [], false);
    if value.Obj? {
      var rebased := RebaseFields(value.fields, at, OwnScope(value.fields, at, scope));
      NamesOfStripped(value.fields, at, OwnScope(value.fields, at, scope));
      NamesOfRewrite(StripFields(rebased), moved);
    }
  }

  /** Every array of the assembled document keeps its length, and every object its keys in
      order but for schema markers and tables, at its published location. */
  lemma ShapesStay(doc: Json, at: Path)
    requires Assembled(doc) && Resolve(doc, at).Some? && NotATable(doc, at)
    requires Resolve(doc, at).value.Arr? || Resolve(doc, at).value.Obj?
    requires !(at <= ["components", "schemas"])
    ensures Resolve(Generate(doc), Relocate(doc, at)).Some?
    ensures SameShape(Resolve(doc, at).value, Resolve(Generate(doc), Relocate(doc, at)).value)
  {
    ImageMoves(doc, at);
    ImageHasShape(doc, at);
  }

  // ------------------------------------------------------------------------
  // The containers of the components
  // ------------------------------------------------------------------------

  lemma {:induction false} NamesAt(fields: seq<Field>, i: nat)
    requires i < |fields|
    ensures |Names(fields)| == |fields| && Names(fields)[i] == fields[i].name
  {
    if i > 0 {
      NamesAt(fields[1..], i - 1);
    } else if |fields| > 1 {
      NamesAt(fields[1..], 0);
    }
  }

  lemma SameNames(a: seq<Field>, b: seq<Field>)
    requires |a| == |b| && forall i :: 0 <= i < |a| ==> a[i].name == b[i].name
    ensures Names(a) == Names(b)
  {
    forall i | 0 <= i < |a| ensures |Names(a)| == |a| && |Names(b)| == |b| && Names(a)[i] == Names(b)[i] {
      NamesAt(a, i);
      NamesAt(b, i);
    }
  }

  lemma PutKeepsNames(fields: seq<Field>, name: string, value: Json)
    ensures if Find(fields, name).Some? then Names(Put(fields, name, value)) == Names(fields)
            else Names(Put(fields, name, value)) == Names(fields) + [name]
  {
    if Find(fields, name).Some? {
      SameNames(Put(fields, name, value), fields);
    } else {
      NamesSnoc(fields, Field(name, value));
    }
  }

  lemma {:induction false} NamesSnoc(fields: seq<Field>, f: Field)
    ensures Names(fields + [f]) == Names(fields) + [f.name]
  {
    if fields != [] {
      assert (fields + [f])[1..] == fields[1..] + [f];
      NamesSnoc(fields[1..], f);
    } else {
      assert [f][1..] == [];
    }
  }

  lemma {:induction false} AssignAddsNames(fields: seq<Field>, record: seq<Field>)
    ensures Names(fields) <= Names(Assign(fields, record))
    ensures forall k :: |Names(fields)| <= k < |Names(Assign(fields, record))| ==>
      exists f :: f in record && f.name == Names(Assign(fields, record))[k]
  {
    if record != [] {
      var init, last := record[..|record| - 1], record[|record| - 1];
      AssignAddsNames(fields, init);
      PutKeepsNames(Assign(fields, init), last.name, last.value);
      assert record == init + [last];
    }
  }

  /** The object at the root and the components keep their keys; the schemas keep theirs, and
      have generated names behind them. */
  lemma ContainersStay(doc: Json)
    requires Assembled(doc)
    ensures HasSchemas(Generate(doc))
    ensures Names(Generate(doc).fields) == KeptNames(doc.fields)
    ensures Names(Get(Generate(doc).fields, "components").value.fields) == KeptNames(Get(doc.fields, "components").value.fields)
    ensures KeptNames(Schemas(doc)) <= Names(Schemas(Generate(doc)))
    ensures forall k :: |KeptNames(Schemas(doc))| <= k < |Names(Schemas(Generate(doc)))| ==>
      "Generated_" <= Names(Schemas(Generate(doc)))[k]
  {
    var rebased := RebasedDocument(doc);
    var record, moved := File(Collect(rebased, [], true)), Collect(rebased, [], false);
    GenerateIsPublish(doc);
    RebasedIsHoistable(doc);
    StripKeepsSchemas(rebased);
    RecordIsGenerated(rebased);
    AssignedContainers(Strip(rebased), record, moved);
    NamesOfContainers(doc, rebased);
  }

  lemma AssignedContainers(stripped: Json, record: seq<Field>, moved: seq<Moved>)
    requires HasSchemas(stripped) && forall f :: f in record ==> "Generated_" <= f.name
    ensures var out := Rewrite(AssignSchemas(stripped, record), moved);
      && HasSchemas(out)
      && Names(out.fields) == Names(stripped.fields)
      && Names(Get(out.fields, "components").value.fields) == Names(Get(stripped.fields, "components").value.fields)
      && Names(Schemas(stripped)) <= Names(Schemas(out))
      && (forall k :: |Names(Schemas(stripped))| <= k < |Names(Schemas(out))| ==> "Generated_" <= Names(Schemas(out))[k])
  {
    var components := Get(stripped.fields, "components").value.fields;
    var extended := Assign(Schemas(stripped), record);
    var inner := Put(components, "schemas", Obj(extended));
    var outer := Put(stripped.fields, "components", Obj(inner));
    PutKeepsNames(components, "schemas", Obj(extended));
    PutKeepsNames(stripped.fields, "components", Obj(inner));
    AssignAddsNames(Schemas(stripped), record);
    GetPut(components, "schemas", Obj(extended), "schemas");
    GetPut(stripped.fields, "components", Obj(inner), "components");
    GetRewrite(outer, moved, "components");
    GetRewrite(inner, moved, "schemas");
    NamesOfRewrite(outer, moved);
    NamesOfRewrite(inner, moved);
    NamesOfRewrite(extended, moved);
  }

  lemma NamesOfContainers(doc: Json, rebased: Json)
    requires Assembled(doc) && rebased == RebasedDocument(doc) && HasSchemas(Strip(rebased))
    ensures Names(Strip(rebased).fields) == KeptNames(doc.fields)
    ensures Names(Get(Strip(rebased).fields, "components").value.fields) == KeptNames(Get(doc.fields, "components").value.fields)
    ensures Names(Schemas(Strip(rebased))) == KeptNames(Schemas(doc))
  {
    var components := Get(doc.fields, "components").value.fields;
    var scope := OwnScope(components, ["components"], RefText([]));
    ScopeOfNode(doc, [], []);
    RebaseKeepsTables(doc, [], RefText([]));
    NamesOfStripped(doc.fields, [], RefText([]));
    assert [] + ["components"] == ["components"];
    ObjectMember(doc.fields, [], RefText([]), "components");
    ObjectMember(components, ["components"], scope, "schemas");
  }

  /** What becomes of a member that is an object and no table. */
  lemma ObjectMember(fields: seq<Field>, path: Path, scope: string, name: string)
    requires DistinctKeys(Obj(fields)) && ObjectTables(Obj(fields)) && !IsKeyword(name) && name != "$schema"
    requires Get(fields, name).Some? && Get(fields, name).value.Obj?
    ensures var inside := Get(fields, name).value.fields;
      var out := Get(StripFields(RebaseFields(fields, path, scope)), name);
      && out == Some(Obj(StripFields(RebaseFields(inside, path + [name], OwnScope(inside, path + [name], scope)))))
      && Names(out.value.fields) == KeptNames(inside)
  {
    var inside := Get(fields, name).value.fields;
    GetRebase(fields, path, scope, name);
    RebaseFieldsKeep(fields, path, scope);
    GetStrip(RebaseFields(fields, path, scope), name);
    NamesOfStripped(inside, path + [name], OwnScope(inside, path + [name], scope));
  }
}
