/** The whole generator: what a local reference means in the assembled document, and
    what it leads to in the published one. */
module ReferenceScopes {
  import opened Basics
  import Decimal
  import opened JsonPointer
  import opened ReferenceHoisting
  import opened ReferenceMeaning
  import opened ReferenceTargets

  // ------------------------------------------------------------------------
  // What a reference means
  // ------------------------------------------------------------------------

  /** The root of the embedded schema that holds a node at `here`. */
  function OwnRoot(j: Json, here: Path, root: Path): Path {
    if j.Obj? && IsString(j.fields, "$schema") then here else root
  }

  /** The root inherited by the value that `path` leads to. */
  function RootAbove(j: Json, path: Path, here: Path, root: Path): Path
    decreases |path|
  {
    if path == [] || Child(j, path[0]).None? then root
    else RootAbove(Child(j, path[0]).value, path[1..], here + [path[0]], OwnRoot(j, here, root))
  }

  /** The root of the embedded schema that a location of a document belongs to. */
  function SchemaRoot(doc: Json, at: Path): Path
    requires Resolve(doc, at).Some?
  {
    OwnRoot(Resolve(doc, at).value, at, RootAbove(doc, at, [], []))
  }

  /** The object at a location carries a reference with this text. */
  predicate Carries(doc: Json, at: Path, text: string) {
    Resolve(doc, at).Some? && Resolve(doc, at).value.Obj? && Get(Resolve(doc, at).value.fields, "$ref") == Some(Str(text))
  }

  /** The pointer goes below the document's components. */
  predicate InComponents(path: Path) {
    |path| >= 2 && path[0] == "components"
  }

  /** A hash reference names tokens below its schema's root; below the document when it
      already points into the components. */
  predicate Denotes(doc: Json, at: Path, text: string, to: Path) {
    && Carries(doc, at, text) && ParseRef(text).Some?
    && to == (if InComponents(ParseRef(text).value) then [] else SchemaRoot(doc, at)) + ParseRef(text).value
  }

  // ------------------------------------------------------------------------
  // Scopes as text
  // ------------------------------------------------------------------------

  lemma {:induction false} ScopeIsText(path: Path)
    requires path != []
    ensures "/" + JoinEscaped(path) == Text(path)
  {
    if |path| == 1 {
      assert Text(path[1..]) == "";
    } else {
      ScopeIsText(path[1..]);
    }
  }

  /** The scope text of an embedded schema is the reference to its root. Not so for the
      document itself, whose own reference text is a bare hash. */
  lemma ScopeIsReference(path: Path)
    ensures ScopeText(path) == RefText(path) <==> path != []
  {
    if path == [] {
      assert ScopeText(path)[1..] != RefText(path)[1..];
    } else {
      ScopeIsText(path);
      Regroup("#", "/", JoinEscaped(path));
    }
  }

  lemma ParsedIsText(text: string)
    requires ParseRef(text).Some?
    ensures text == RefText(ParseRef(text).value) && text[1..] == Text(ParseRef(text).value)
  {
    TextParse(text[1..]);
    assert text == [text[0]] + text[1..];
  }

  /** The text test for references into the components, on the tokens. */
  lemma LocalExactly(path: Path)
    ensures IsLocal(RefText(path)) <==> !InComponents(path)
  {
    if path == [] {
      assert RefText(path) == "#";
    } else {
      var e, rest := Escape(path[0]), Text(path[1..]);
      EscapedHasNoSlash(path[0]);
      TextStartsWithSlash(path[1..]);
      ComponentsFirst(e, rest, e + rest);
      ComponentsName(path[0], e, "components");
      RefOf(path, e, rest);
      LocalByText(e + rest, RefText(path));
    }
  }

  lemma LocalByText(s: string, ref: string)
    requires ref == "#/" + s
    ensures IsLocal(ref) <==> !("components/" <= s)
  {
    BehindHash("components/", s);
    assert "#/" + "components/" == "#/components/";
    assert ref == "#" + ref[1..];
  }

  lemma RefOf(path: Path, e: string, rest: string)
    requires path != [] && e == Escape(path[0]) && rest == Text(path[1..])
    ensures RefText(path) == "#/" + (e + rest) && (rest == "" <==> |path| == 1)
  {
    assert Text(path) == "/" + e + rest;
    assert "#" + ("/" + e + rest) == "#/" + (e + rest);
  }

  /** A name without marks is its own escape, and no other token's. */
  lemma PlainName(token: string, name: string)
    requires '~' !in name && '/' !in name
    ensures Escape(token) == name <==> token == name
  {
    PlainEscape(name);
    if Escape(token) == name {
      UnescapeEscape(token);
      UnescapeEscape(name);
    }
  }

  lemma ComponentsName(token: string, e: string, name: string)
    requires e == Escape(token) && name == "components"
    ensures e == name <==> token == name
  {
    assert forall i :: 0 <= i < |name| ==> name[i] != '~' && name[i] != '/';
    PlainName(token, name);
  }

  lemma {:induction false} PlainEscape(token: string)
    requires '~' !in token && '/' !in token
    ensures Escape(token) == token
  {
    if token != "" {
      PlainEscape(token[1..]);
      assert token == [token[0]] + token[1..];
    }
  }

  lemma BehindHash(prefix: string, s: string)
    ensures "#/" + prefix <= "#/" + s <==> prefix <= s
  {
    if prefix <= s {
      assert s == prefix + s[|prefix|..];
      assert "#/" + s == ("#/" + prefix) + s[|prefix|..];
    }
    if "#/" + prefix <= "#/" + s {
      assert forall i :: 0 <= i < |prefix| ==> prefix[i] == ("#/" + prefix)[i + 2] && s[i] == ("#/" + s)[i + 2];
    }
  }

  /** A text starts with this name and a slash exactly when the name is its first token and
      more follows. */
  lemma ComponentsFirst(e: string, rest: string, s: string)
    requires s == e + rest && '/' !in e && (rest == "" || rest[0] == '/')
    ensures "components/" <= s <==> e == "components" && rest != ""
  {
    NextSlashAt(e, rest);
    if "components/" <= s {
      assert s == "components" + s[10..] && s[10] == '/';
      NextSlashAt("components", s[10..]);
      assert e == s[..|e|] && |e| == 10;
    }
    if e == "components" && rest != "" {
      assert s[..11] == "components/";
    }
  }

  lemma LocalBelowRoot(tokens: Path, root: Path)
    ensures RefText(root) + Text(tokens) == RefText(root + tokens)
  {
    TextConcat(root, tokens);
    Regroup("#", Text(root), Text(tokens));
  }

  /** Rebasing a reference text puts its tokens below the root. */
  lemma RebasedReference(text: string, root: Path)
    requires ParseRef(text).Some?
    ensures RebaseRef(text, RefText(root)) == RefText((if InComponents(ParseRef(text).value) then [] else root) + ParseRef(text).value)
  {
    var tokens := ParseRef(text).value;
    ParsedIsText(text);
    LocalExactly(tokens);
    if IsLocal(text) {
      LocalBelowRoot(tokens, root);
    } else {
      assert [] + tokens == tokens;
    }
  }

  // ------------------------------------------------------------------------
  // Rebasing keeps the document's shape
  // ------------------------------------------------------------------------

  /** What rebasing makes of one member's value. */
  function Rebased(name: string, value: Json, path: Path, scope: string): Json {
    if name == "$ref" && value.Str? then Str(RebaseRef(value.s, scope)) else Rebase(value, path + [name], scope)
  }

  lemma {:induction false} GetRebase(fields: seq<Field>, path: Path, scope: string, token: string)
    requires forall i, k :: 0 <= i < k < |fields| ==> fields[i].name != fields[k].name
    ensures Get(RebaseFields(fields, path, scope), token) ==
      if Get(fields, token).None? || (token == "$schema" && Get(fields, token).value.Str?) then None
      else Some(Rebased(token, Get(fields, token).value, path, scope))
  {
    if fields != [] {
      GetRebase(fields[1..], path, scope, token);
      if fields[0].name == token {
        assert forall i :: 0 <= i < |fields[1..]| ==> fields[1..][i].name != token;
      }
    }
  }

  lemma {:induction false} RebaseItemsAt(items: seq<Json>, path: Path, scope: string, index: nat, i: nat)
    requires i < |items|
    ensures RebaseItems(items, path, scope, index)[i] == Rebase(items[i], path + [Decimal.Print(index + i)], scope)
  {
    if i > 0 {
      RebaseItemsAt(items[1..], path, scope, index + 1, i - 1);
    }
  }

  /** The document's own root is not marked as an embedded schema. */
  predicate PlainRoot(j: Json, here: Path) {
    here == [] ==> !(j.Obj? && IsString(j.fields, "$schema"))
  }

  lemma ScopeOfNode(j: Json, here: Path, root: Path)
    requires PlainRoot(j, here)
    ensures j.Obj? ==> OwnScope(j.fields, here, RefText(root)) == RefText(OwnRoot(j, here, root))
  {
    ScopeIsReference(here);
  }

  lemma ChildOfRebase(j: Json, here: Path, root: Path, token: string)
    requires DistinctKeys(j) && PlainRoot(j, here)
    requires Child(j, token).Some? && !Child(j, token).value.Str?
    ensures Child(Rebase(j, here, RefText(root)), token)
         == Some(Rebase(Child(j, token).value, here + [token], RefText(OwnRoot(j, here, root))))
    ensures EntersTable(Rebase(j, here, RefText(root)), token) <==> EntersTable(j, token)
  {
    ScopeOfNode(j, here, root);
    match j
    case Obj(fields) => GetRebase(fields, here, RefText(OwnRoot(j, here, root)), token);
    case Arr(items) =>
      Decimal.PrintOfValue(token);
      RebaseItemsAt(items, here, RefText(root), 0, Decimal.Value(token));
  }

  lemma {:induction false} TableAtRebase(j: Json, here: Path, root: Path, path: Path)
    requires DistinctKeys(j) && PlainRoot(j, here)
    requires Resolve(j, path).Some? && !Resolve(j, path).value.Str?
    ensures TableAt(Rebase(j, here, RefText(root)), path) == TableAt(j, path)
    decreases |path|
  {
    if path != [] {
      NotTextOnTheWay(j, path);
      ChildOfRebase(j, here, root, path[0]);
      var c := Child(j, path[0]).value;
      var own := OwnRoot(j, here, root);
      TableAtRebase(c, here + [path[0]], own, path[1..]);
      TableAtStep(j, Rebase(j, here, RefText(root)), c, Rebase(c, here + [path[0]], RefText(own)), path);
    }
  }

  lemma TableAtStep(a: Json, b: Json, c: Json, d: Json, path: Path)
    requires path != [] && Child(a, path[0]) == Some(c) && Child(b, path[0]) == Some(d)
    requires EntersTable(a, path[0]) <==> EntersTable(b, path[0])
    requires TableAt(c, path[1..]) == TableAt(d, path[1..])
    ensures TableAt(a, path) == TableAt(b, path)
  {
  }

  /** Every non-text value stays where it is, rebased from the root it belongs to. */
  lemma {:induction false} ResolveRebase(j: Json, here: Path, root: Path, path: Path)
    requires DistinctKeys(j) && PlainRoot(j, here)
    requires Resolve(j, path).Some? && !Resolve(j, path).value.Str?
    ensures Resolve(Rebase(j, here, RefText(root)), path)
         == Some(Rebase(Resolve(j, path).value, here + path, RefText(RootAbove(j, path, here, root))))
    decreases |path|
  {
    if path == [] {
      assert here + path == here;
    } else {
      var c := Child(j, path[0]).value;
      NotTextOnTheWay(j, path);
      ChildOfRebase(j, here, root, path[0]);
      assert here + [path[0]] + path[1..] == here + path;
      ResolveRebase(c, here + [path[0]], OwnRoot(j, here, root), path[1..]);
    }
  }

  lemma NotTextOnTheWay(j: Json, path: Path)
    requires path != [] && Resolve(j, path).Some? && !Resolve(j, path).value.Str?
    ensures !Child(j, path[0]).value.Str?
  {
    assert path[1..] == [] || Child(Child(j, path[0]).value, path[1..][0]).Some?;
  }

  lemma {:induction false} LastTableOfRebase(j: Json, here: Path, root: Path, path: Path)
    requires DistinctKeys(j) && PlainRoot(j, here)
    requires Resolve(j, path).Some? && !Resolve(j, path).value.Str?
    ensures LastTable(Rebase(j, here, RefText(root)), path) == LastTable(j, path)
    decreases |path|
  {
    if path != [] {
      var c := Child(j, path[0]).value;
      var below := OwnRoot(j, here, root);
      NotTextOnTheWay(j, path);
      ChildOfRebase(j, here, root, path[0]);
      if !EntersTable(j, path[0]) {
        LastTableOfRebase(c, here + [path[0]], below, path[1..]);
      } else if |path| > 1 {
        assert path[1..][0] == path[1] && path[1..][1..] == path[2..];
        NotTextOnTheWay(c, path[1..]);
        ChildOfRebase(c, here + [path[0]], below, path[1]);
        LastTableOfRebase(Child(c, path[1]).value, here + [path[0]] + [path[1]], OwnRoot(c, here + [path[0]], below), path[2..]);
      }
    }
  }

  // ------------------------------------------------------------------------
  // Rebasing keeps what hoisting relies on
  // ------------------------------------------------------------------------

  lemma {:induction false} RebaseKeepsTables(j: Json, path: Path, scope: string)
    requires DistinctKeys(j) && ObjectTables(j)
    ensures DistinctKeys(Rebase(j, path, scope)) && ObjectTables(Rebase(j, path, scope))
    decreases j
  {
    match j
    case Arr(items) =>
      forall i | 0 <= i < |items|
        ensures DistinctKeys(RebaseItems(items, path, scope, 0)[i]) && ObjectTables(RebaseItems(items, path, scope, 0)[i])
      {
        RebaseItemsAt(items, path, scope, 0, i);
        RebaseKeepsTables(items[i], path + [Decimal.Print(i)], scope);
      }
    case Obj(fields) => RebaseFieldsKeep(fields, path, OwnScope(fields, path, scope));
    case _ =>
  }

  /** One member after rebasing: sound itself, and still a table only when an object. */
  ghost predicate SoundMember(f: Field) {
    DistinctKeys(f.value) && ObjectTables(f.value) && (IsTable(f) ==> f.value.Obj?)
  }

  ghost predicate SoundMembers(fields: seq<Field>) {
    && (forall i :: 0 <= i < |fields| ==> SoundMember(fields[i]))
    && (forall i, k :: 0 <= i < k < |fields| ==> fields[i].name != fields[k].name)
  }

  lemma SoundObject(fields: seq<Field>)
    ensures SoundMembers(fields) <==> DistinctKeys(Obj(fields)) && ObjectTables(Obj(fields))
  {
    if DistinctKeys(Obj(fields)) && ObjectTables(Obj(fields)) {
      assert forall i :: 0 <= i < |fields| ==> SoundMember(fields[i]);
    }
  }

  lemma {:induction false} RebaseFieldsKeep(fields: seq<Field>, path: Path, scope: string)
    requires DistinctKeys(Obj(fields)) && ObjectTables(Obj(fields))
    ensures DistinctKeys(Obj(RebaseFields(fields, path, scope))) && ObjectTables(Obj(RebaseFields(fields, path, scope)))
    decreases fields
  {
    SoundObject(fields);
    if fields != [] {
      var rest := RebaseFields(fields[1..], path, scope);
      SoundObject(fields[1..]);
      RebaseFieldsKeep(fields[1..], path, scope);
      SoundObject(rest);
      assert SoundMember(fields[0]);
      RebaseKeepsTables(fields[0].value, path + [fields[0].name], scope);
      NamesStayDistinct(fields, path, scope);
      SoundCons(Field(fields[0].name, Rebased(fields[0].name, fields[0].value, path, scope)), rest);
    }
  }

  lemma SoundCons(first: Field, rest: seq<Field>)
    requires SoundMember(first) && SoundMembers(rest) && forall f :: f in rest ==> f.name != first.name
    ensures DistinctKeys(Obj([first] + rest)) && ObjectTables(Obj([first] + rest))
  {
    SoundObject([first] + rest);
  }

  lemma NamesStayDistinct(fields: seq<Field>, path: Path, scope: string)
    requires fields != [] && DistinctKeys(Obj(fields))
    ensures forall f :: f in RebaseFields(fields[1..], path, scope) ==> f.name != fields[0].name
  {
    var rest := RebaseFields(fields[1..], path, scope);
    forall f | f in rest ensures f.name != fields[0].name {
      var i := RebaseFieldNames(fields[1..], path, scope, f);
      assert fields[1..][i] == fields[i + 1];
    }
  }

  lemma {:induction false} RebaseFieldNames(fields: seq<Field>, path: Path, scope: string, f: Field) returns (i: nat)
    requires f in RebaseFields(fields, path, scope)
    ensures i < |fields| && fields[i].name == f.name
  {
    if f in RebaseFields(fields[1..], path, scope) {
      var k := RebaseFieldNames(fields[1..], path, scope, f);
      i := k + 1;
    } else {
      i := 0;
    }
  }

  /** The assembled document: it has component schemas, none under a generated name, and
      is not itself an embedded schema. */
  ghost predicate Assembled(doc: Json) {
    Hoistable(doc) && PlainRoot(doc, [])
  }

  function RebasedDocument(doc: Json): Json {
    Rebase(doc, [], RefText([]))
  }

  lemma MemberOfRebase(j: Json, here: Path, root: Path, token: string) returns (path: Path, scope: string)
    requires DistinctKeys(j) && PlainRoot(j, here)
    requires j.Obj? && Get(j.fields, token).Some? && Get(j.fields, token).value.Obj?
    ensures Rebase(j, here, RefText(root)).Obj?
    ensures Get(Rebase(j, here, RefText(root)).fields, token)
         == Some(Obj(RebaseFields(Get(j.fields, token).value.fields, path, scope)))
    ensures Get(Rebase(j, here, RefText(root)).fields, token)
         == Some(Rebase(Get(j.fields, token).value, here + [token], RefText(OwnRoot(j, here, root))))
  {
    ChildOfRebase(j, here, root, token);
    path, scope := here + [token], OwnScope(Get(j.fields, token).value.fields, here + [token], RefText(OwnRoot(j, here, root)));
  }

  lemma SchemasOfRebased(doc: Json) returns (path: Path, scope: string)
    requires Assembled(doc)
    ensures HasSchemas(RebasedDocument(doc))
    ensures Schemas(RebasedDocument(doc)) == RebaseFields(Schemas(doc), path, scope)
  {
    var p, s := MemberOfRebase(doc, [], [], "components");
    var components := Get(doc.fields, "components").value;
    assert DistinctKeys(components);
    path, scope := MemberOfRebase(components, [] + ["components"], OwnRoot(doc, [], []), "schemas");
  }

  lemma RebasedIsHoistable(doc: Json)
    requires Assembled(doc)
    ensures Hoistable(RebasedDocument(doc))
  {
    RebaseKeepsTables(doc, [], RefText([]));
    var path, scope := SchemasOfRebased(doc);
    var schemas := Schemas(doc);
    forall f | f in RebaseFields(schemas, path, scope)
      ensures !("Generated_" <= f.name)
    {
      var i := RebaseFieldNames(schemas, path, scope, f);
      assert schemas[i] in schemas;
    }
  }

  /** The reference text at a location, after rebasing. */
  lemma CarriesRebased(doc: Json, at: Path, text: string, to: Path)
    requires DistinctKeys(doc) && PlainRoot(doc, []) && Denotes(doc, at, text, to)
    ensures Carries(RebasedDocument(doc), at, RefText(to))
  {
    ResolveRebase(doc, [], [], at);
    assert [] + at == at;
    ResolvedKeepsDistinct(doc, at);
    var node := Resolve(doc, at).value;
    var root := SchemaRoot(doc, at);
    ScopeOfNode(node, at, RootAbove(doc, at, [], []));
    GetRebase(node.fields, at, RefText(root), "$ref");
    RebasedReference(text, root);
  }

  // ------------------------------------------------------------------------
  // References keep their meaning
  // ------------------------------------------------------------------------

  lemma GenerateIsPublish(doc: Json)
    ensures Generate(doc) == Publish(RebasedDocument(doc))
  {
    assert RefText([]) == "#";
  }

  /** What takes the place of the value at a location of the assembled document: the same
      value without its schema marks and tables, and with its references brought up to date. */
  function Image(doc: Json, to: Path): Json
    requires Resolve(doc, to).Some?
  {
    Published(RebasedDocument(doc), Rebase(Resolve(doc, to).value, to, RefText(RootAbove(doc, to, [], []))))
  }

  lemma SameLocation(doc: Json, to: Path, rebased: Json)
    requires Assembled(doc) && rebased == RebasedDocument(doc)
    requires Resolve(doc, to).Some? && !Resolve(doc, to).value.Str?
    ensures Resolve(rebased, to) == Some(Rebase(Resolve(doc, to).value, to, RefText(RootAbove(doc, to, [], []))))
    ensures !Resolve(rebased, to).value.Str?
    ensures TableAt(rebased, to) == TableAt(doc, to) && LastTable(rebased, to) == LastTable(doc, to)
    ensures Relocate(rebased, to) == Relocate(doc, to)
  {
    var start: Path := [];
    ResolveRebase(doc, start, start, to);
    assert start + to == to;
    SameTables(doc, to, start, rebased);
  }

  lemma SameTables(doc: Json, to: Path, start: Path, rebased: Json)
    requires DistinctKeys(doc) && PlainRoot(doc, start) && rebased == Rebase(doc, start, RefText(start))
    requires Resolve(doc, to).Some? && !Resolve(doc, to).value.Str?
    ensures TableAt(rebased, to) == TableAt(doc, to)
    ensures LastTable(rebased, to) == LastTable(doc, to) && Relocate(rebased, to) == Relocate(doc, to)
  {
    TableAtRebase(doc, start, start, to);
    LastTableOfRebase(doc, start, start, to);
    SameRelocation(doc, rebased, to);
  }

  lemma SameRelocation(a: Json, b: Json, to: Path)
    requires LastTable(a, to) == LastTable(b, to)
    ensures Relocate(a, to) == Relocate(b, to)
  {
  }

  lemma ImageMoves(doc: Json, to: Path)
    requires Assembled(doc) && Resolve(doc, to).Some? && !Resolve(doc, to).value.Str?
    requires NotATable(doc, to) && !(to <= ["components", "schemas"])
    ensures Resolve(Generate(doc), Relocate(doc, to)) == Some(Image(doc, to))
  {
    GenerateIsPublish(doc);
    RebasedIsHoistable(doc);
    SameLocation(doc, to, RebasedDocument(doc));
    EveryLocationMoves(RebasedDocument(doc), to);
  }

  lemma PublishedReference(rebased: Json, fields: seq<Field>, text: string)
    requires DistinctKeys(Obj(fields)) && Get(fields, "$ref") == Some(Str(text))
    ensures Published(rebased, Obj(fields)).Obj?
    ensures Get(Published(rebased, Obj(fields)).fields, "$ref") == Some(Str(Redirect(text, Collect(rebased, [], false))))
  {
    GetStrip(fields, "$ref");
    GetRewrite(StripFields(fields), Collect(rebased, [], false), "$ref");
  }

  /** The published object carries the reference to its old target, redirected. */
  lemma PublishedText(doc: Json, at: Path, text: string, to: Path)
    requires Assembled(doc) && Denotes(doc, at, text, to)
    requires NotATable(doc, at) && !(at <= ["components", "schemas"])
    ensures Carries(Generate(doc), Relocate(doc, at), Redirect(RefText(to), Collect(RebasedDocument(doc), [], false)))
  {
    var rebased := RebasedDocument(doc);
    ImageMoves(doc, at);
    CarriesRebased(doc, at, text, to);
    ImageIsPublished(doc, rebased, at);
    RebasedIsHoistable(doc);
    ResolvedKeepsDistinct(rebased, at);
    PublishedReference(rebased, Resolve(rebased, at).value.fields, RefText(to));
  }

  lemma ImageIsPublished(doc: Json, rebased: Json, at: Path)
    requires DistinctKeys(doc) && PlainRoot(doc, []) && rebased == RebasedDocument(doc)
    requires Resolve(doc, at).Some? && !Resolve(doc, at).value.Str?
    ensures Resolve(rebased, at).Some? && Image(doc, at) == Published(rebased, Resolve(rebased, at).value)
  {
    ResolveRebase(doc, [], [], at);
    assert [] + at == at;
  }

  /** Where the reference at a location leads. */
  function Target(doc: Json, at: Path): Option<Path> {
    if Resolve(doc, at).Some? && Resolve(doc, at).value.Obj? && IsString(Resolve(doc, at).value.fields, "$ref")
    then ParseRef(Get(Resolve(doc, at).value.fields, "$ref").value.s) else None
  }

  /** The published reference leads to the image of what it meant exactly when that was
      reached through at most one definition table; otherwise it leads nowhere. */
  lemma ReferencesKeepTheirMeaning(doc: Json, at: Path, text: string, to: Path)
    requires Assembled(doc) && Denotes(doc, at, text, to)
    requires Resolve(doc, to).Some? && !Resolve(doc, to).value.Str?
    requires NotATable(doc, at) && !(at <= ["components", "schemas"]) && !(to <= ["components", "schemas"])
    ensures Target(Generate(doc), Relocate(doc, at)).Some?
    ensures var target := Target(Generate(doc), Relocate(doc, at)).value;
      if Reachable(doc, to)
      then target == Relocate(doc, to) && Resolve(Generate(doc), target) == Some(Image(doc, to))
      else Resolve(Generate(doc), target).None?
  {
    var moved := Collect(RebasedDocument(doc), [], false);
    PublishedText(doc, at, text, to);
    TargetOfText(Generate(doc), Relocate(doc, at), Redirect(RefText(to), moved));
    TargetIsImage(doc, to, Redirect(RefText(to), moved));
  }

  lemma TargetOfText(doc: Json, at: Path, text: string)
    requires Carries(doc, at, text)
    ensures Target(doc, at) == ParseRef(text)
  {
  }

  lemma TargetIsImage(doc: Json, to: Path, text: string)
    requires Assembled(doc)
    requires Resolve(doc, to).Some? && !Resolve(doc, to).value.Str? && !(to <= ["components", "schemas"])
    requires text == Redirect(RefText(to), Collect(RebasedDocument(doc), [], false))
    ensures ParseRef(text).Some?
    ensures Reachable(doc, to) ==>
      ParseRef(text).value == Relocate(doc, to) && Resolve(Generate(doc), Relocate(doc, to)) == Some(Image(doc, to))
    ensures !Reachable(doc, to) ==> Resolve(Generate(doc), ParseRef(text).value).None?
  {
    var rebased := RebasedDocument(doc);
    GenerateIsPublish(doc);
    RebasedIsHoistable(doc);
    SameLocation(doc, to, rebased);
    if Reachable(doc, to) {
      ImageMoves(doc, to);
      ReachableTarget(rebased, to);
      RefRoundTrip(Relocate(doc, to));
    } else {
      UnreachableTarget(rebased, to);
    }
  }

  lemma {:induction false} ForeignTextStays(text: string, scope: string, moved: seq<Moved>)
    requires !("#" <= text)
    ensures RebaseRef(text, scope) == text && Redirect(text, moved) == text
  {
    if moved != [] {
      assert RefText(moved[0].pointer)[0] == '#';
      ForeignTextStays(text, scope, moved[1..]);
    }
  }
}
