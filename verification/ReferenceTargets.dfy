/** Hoisting and redirecting together: every location keeps its value under its new
    address, and every reference text follows. */
module ReferenceTargets {
  import opened Basics
  import Decimal
  import opened JsonPointer
  import opened ReferenceHoisting
  import opened ReferenceMeaning

  // ------------------------------------------------------------------------
  // Component names
  // ------------------------------------------------------------------------

  lemma {:induction false} SplitAtDot(a: string, b: string, restA: string, restB: string)
    requires '.' !in a && '.' !in b
    requires a + "." + restA == b + "." + restB
    ensures a == b && restA == restB
  {
    var s := a + "." + restA;
    assert s == b + "." + restB;
    assert s[|a|] == '.' && s[|b|] == '.';
    assert forall i :: 0 <= i < |a| ==> s[i] == a[i];
    assert forall i :: 0 <= i < |b| ==> s[i] == b[i];
    assert |a| == |b|;
    assert a == s[..|a|] == b;
    assert restA == s[|a| + 1..] == restB;
  }

  lemma DigitsHaveNoPunctuation(n: nat)
    ensures '.' !in Decimal.Print(n) && '~' !in Decimal.Print(n) && '/' !in Decimal.Print(n)
  {
    var s := Decimal.Print(n);
    assert forall i :: 0 <= i < |s| ==> Decimal.IsDigit(s[i]);
  }

  lemma {:induction false} DigestInjective(a: string, b: string)
    requires Digest(a) == Digest(b)
    ensures a == b
  {
    if a != "" && b != "" {
      var x, y := a[0] as nat, b[0] as nat;
      DigitsHaveNoPunctuation(x);
      DigitsHaveNoPunctuation(y);
      SplitAtDot(Decimal.Print(x), Decimal.Print(y), Digest(a[1..]), Digest(b[1..]));
      Decimal.PrintInjective(x, y);
      DigestInjective(a[1..], b[1..]);
      assert a == [a[0]] + a[1..] && b == [b[0]] + b[1..];
    }
  }

  lemma ComponentInjective(p: Path, q: Path)
    requires Component(p) == Component(q)
    ensures p == q
  {
    assert Component(p)[|"Generated_"|..] == Digest(RefText(p));
    assert Component(q)[|"Generated_"|..] == Digest(RefText(q));
    DigestInjective(RefText(p), RefText(q));
    assert RefText(p)[1..] == Text(p) && RefText(q)[1..] == Text(q);
    TextInjective(p, q);
  }

  lemma {:induction false} DigestIsPlain(pointer: string)
    ensures '~' !in Digest(pointer) && '/' !in Digest(pointer)
  {
    if pointer != "" {
      DigitsHaveNoPunctuation(pointer[0] as nat);
      DigestIsPlain(pointer[1..]);
    }
  }

  lemma {:induction false} EscapePlain(s: string)
    requires '~' !in s && '/' !in s
    ensures Escape(s) == s
  {
    if s != "" {
      EscapePlain(s[1..]);
      assert s == [s[0]] + s[1..];
    }
  }

  lemma TextOfHead(a: string, rest: Path)
    requires Escape(a) == a
    ensures Text([a] + rest) == "/" + a + Text(rest)
  {
    assert ([a] + rest)[1..] == rest;
  }

  lemma TextOfPlain(a: string, b: string, c: string, rest: Path)
    requires Escape(a) == a && Escape(b) == b && Escape(c) == c
    ensures Text([a, b, c] + rest) == "/" + a + ("/" + b + ("/" + c + Text(rest)))
  {
    ThreeAndRest(a, b, c, rest);
    TextOfHead(a, [b] + ([c] + rest));
    TextOfHead(b, [c] + rest);
    TextOfHead(c, rest);
  }

  lemma ThreeAndRest(a: string, b: string, c: string, rest: Path)
    ensures [a, b, c] + rest == [a] + ([b] + ([c] + rest))
  {
  }

  lemma SchemasPrefix(a: string, b: string, c: string, t: string)
    requires a == "components" && b == "schemas"
    ensures "#" + ("/" + a + ("/" + b + ("/" + c + t))) == "#/components/schemas/" + c + t
  {
    var x := "#" + ("/" + a + ("/" + b + "/"));
    assert x == "#/components/schemas/";
    assert "#" + ("/" + a + ("/" + b + ("/" + c + t))) == x + (c + t);
    Regroup(x, c, t);
  }

  lemma ComponentIsPlain(p: Path)
    ensures Escape(Component(p)) == Component(p)
  {
    DigestIsPlain(RefText(p));
    EscapePlain(Component(p));
  }

  lemma ContainerIsPlain(name: string)
    requires name == COMPONENTS || name == SCHEMAS
    ensures Escape(name) == name
  {
    EscapePlain(name);
  }

  lemma ComponentRefText(p: Path, rest: Path)
    ensures RefText(ComponentPath(p) + rest) == "#/components/schemas/" + Component(p) + Text(rest)
  {
    ComponentIsPlain(p);
    ContainerIsPlain(COMPONENTS);
    ContainerIsPlain(SCHEMAS);
    TextOfPlain(COMPONENTS, SCHEMAS, Component(p), rest);
    SchemasPrefix(COMPONENTS, SCHEMAS, Component(p), Text(rest));
  }

  // ------------------------------------------------------------------------
  // Redirecting a reference text
  // ------------------------------------------------------------------------

  /** A reference text enters a recorded definition exactly when its path does. */
  lemma EntersIffPrefix(source: Path, to: Path)
    ensures (RefText(to) == RefText(source) || RefText(source) + "/" <= RefText(to)) <==> source <= to
    ensures source <= to ==> RefText(to)[|RefText(source)|..] == Text(to[|source|..])
  {
    TextPrefix(source, to);
    SameBehindHash(Text(to), Text(source));
    if source <= to {
      assert to == source + to[|source|..];
      TextConcat(source, to[|source|..]);
    }
  }

  /** The pointer of the first recorded definition that a location is or lies in. */
  function FirstMatch(moved: seq<Moved>, to: Path): (r: Option<Path>)
    ensures r.Some? ==> r.value <= to
  {
    if moved == [] then None
    else if moved[0].pointer <= to then Some(moved[0].pointer)
    else FirstMatch(moved[1..], to)
  }

  lemma {:induction false} NoneMatches(moved: seq<Moved>, to: Path)
    requires forall i :: 0 <= i < |moved| ==> !(moved[i].pointer <= to)
    ensures FirstMatch(moved, to).None?
  {
    if moved != [] {
      NoneMatches(moved[1..], to);
    }
  }

  /** A reference text is redirected the way its path is matched. */
  lemma {:induction false} RedirectIsFirstMatch(moved: seq<Moved>, to: Path)
    ensures FirstMatch(moved, to).None? ==> Redirect(RefText(to), moved) == RefText(to)
    ensures FirstMatch(moved, to).Some? ==>
      var p := FirstMatch(moved, to).value;
      Redirect(RefText(to), moved) == RefText(ComponentPath(p) + to[|p|..])
  {
    if moved != [] {
      EntersIffPrefix(moved[0].pointer, to);
      if moved[0].pointer <= to {
        ComponentRefText(moved[0].pointer, to[|moved[0].pointer|..]);
      } else {
        RedirectIsFirstMatch(moved[1..], to);
      }
    }
  }

  lemma {:induction false} FirstMatchConcat(a: seq<Moved>, b: seq<Moved>, to: Path)
    ensures FirstMatch(a + b, to) == if FirstMatch(a, to).Some? then FirstMatch(a, to) else FirstMatch(b, to)
  {
    if a == [] {
      assert a + b == b;
    } else {
      assert (a + b)[1..] == a[1..] + b;
      FirstMatchConcat(a[1..], b, to);
    }
  }

  /** Definitions below a node that is not on the way do not match. */
  lemma OffTheWay(j: Json, path: Path, to: Path)
    requires DistinctKeys(j) && ObjectTables(j)
    requires !(path <= to) || |to| < |path| + 2
    ensures FirstMatch(Collect(j, path, false), to).None?
  {
    var moved := Collect(j, path, false);
    forall i | 0 <= i < |moved|
      ensures !(moved[i].pointer <= to)
    {
      CollectIsGenuine(j, path, false, moved[i]);
    }
    NoneMatches(moved, to);
  }

  lemma StepOn(path: Path, token: string, to: Path)
    ensures path + [token] <= to <==> path < to && to[|path|] == token
    ensures path < to && to[|path|] == token ==> to[..|path| + 1] == path + [token]
  {
    if path + [token] <= to {
      assert to[|path|] == (path + [token])[|path|];
    }
    if path < to && to[|path|] == token {
      assert to[..|path| + 1] == path + [token];
    }
  }

  lemma {:induction false} MatchInDefs(defs: seq<Field>, path: Path, to: Path)
    requires forall i :: 0 <= i < |defs| ==> DistinctKeys(defs[i].value) && ObjectTables(defs[i].value)
    ensures path <= to && |path| < |to| && Find(defs, to[|path|]).Some? ==>
      FirstMatch(CollectDefs(defs, path, false), to) == Some(path + [to[|path|]])
    ensures !(path < to) || Find(defs, to[|path|]).None? ==>
      FirstMatch(CollectDefs(defs, path, false), to).None?
  {
    if defs != [] {
      var here := path + [defs[0].name];
      var own := Moved(here, Strip(defs[0].value));
      var nested := Collect(defs[0].value, here, false);
      FirstMatchConcat([own] + nested, CollectDefs(defs[1..], path, false), to);
      FirstMatchConcat([own], nested, to);
      MatchInDefs(defs[1..], path, to);
      StepOn(path, defs[0].name, to);
      if !(here <= to) {
        OffTheWay(defs[0].value, here, to);
      }
    }
  }

  lemma {:induction false} MatchInFields(fields: seq<Field>, path: Path, to: Path)
    requires DistinctKeys(Obj(fields)) && ObjectTables(Obj(fields))
    requires path < to
    ensures FirstMatch(CollectFields(fields, path, false), to) ==
      var i := Find(fields, to[|path|]);
      if i.Some? && !IsTable(fields[i.value])
      then FirstMatch(Collect(fields[i.value].value, path + [to[|path|]], false), to) else None
  {
    if fields != [] {
      var here := path + [fields[0].name];
      var tail := CollectFields(fields[1..], path, false);
      MatchInFields(fields[1..], path, to);
      if IsTable(fields[0]) {
        assert CollectFields(fields, path, false) == tail;
      } else {
        FirstMatchConcat(Collect(fields[0].value, here, false), tail, to);
      }
      StepOn(path, fields[0].name, to);
      if fields[0].name == to[|path|] {
        NotFoundAgain(fields);
      } else {
        OffTheWay(fields[0].value, here, to);
      }
    }
  }

  lemma NotFoundAgain(fields: seq<Field>)
    requires fields != [] && DistinctKeys(Obj(fields))
    ensures Find(fields[1..], fields[0].name).None?
  {
    assert forall i :: 0 <= i < |fields[1..]| ==> fields[1..][i].name != fields[0].name;
  }

  lemma {:induction false} MatchInItems(items: seq<Json>, path: Path, index: nat, to: Path, k: nat)
    requires DistinctKeys(Arr(items)) && ObjectTables(Arr(items))
    requires path < to && to[|path|] == Decimal.Print(k) && index <= k < index + |items|
    ensures FirstMatch(CollectItems(items, path, index, false), to)
         == FirstMatch(Collect(items[k - index], path + [to[|path|]], false), to)
  {
    var head, tail := Collect(items[0], path + [Decimal.Print(index)], false), CollectItems(items[1..], path, index + 1, false);
    PartsUsable(items);
    if index == k {
      NoMatchInItems(items[1..], path, index + 1, to, k);
    } else {
      MatchInItems(items[1..], path, index + 1, to, k);
      assert items[1..][k - index - 1] == items[k - index];
    }
    MatchInHead(items[0], head, tail, path, index, to, k);
    assert CollectItems(items, path, index, false) == head + tail;
  }

  lemma {:induction false} NoMatchInItems(items: seq<Json>, path: Path, index: nat, to: Path, k: nat)
    requires DistinctKeys(Arr(items)) && ObjectTables(Arr(items))
    requires path < to && to[|path|] == Decimal.Print(k) && !(index <= k < index + |items|)
    ensures FirstMatch(CollectItems(items, path, index, false), to).None?
  {
    if items != [] {
      var head, tail := Collect(items[0], path + [Decimal.Print(index)], false), CollectItems(items[1..], path, index + 1, false);
      PartsUsable(items);
      NoMatchInItems(items[1..], path, index + 1, to, k);
      MatchInHead(items[0], head, tail, path, index, to, k);
      assert CollectItems(items, path, index, false) == head + tail;
    }
  }

  lemma PartsUsable(items: seq<Json>)
    requires items != [] && DistinctKeys(Arr(items)) && ObjectTables(Arr(items))
    ensures DistinctKeys(items[0]) && ObjectTables(items[0])
    ensures DistinctKeys(Arr(items[1..])) && ObjectTables(Arr(items[1..]))
  {
  }

  lemma MatchInHead(item: Json, head: seq<Moved>, tail: seq<Moved>, path: Path, index: nat, to: Path, k: nat)
    requires DistinctKeys(item) && ObjectTables(item)
    requires path < to && to[|path|] == Decimal.Print(k)
    requires head == Collect(item, path + [Decimal.Print(index)], false)
    ensures index != k ==> FirstMatch(head + tail, to) == FirstMatch(tail, to)
    ensures index == k && FirstMatch(tail, to).None? ==> FirstMatch(head + tail, to) == FirstMatch(head, to)
  {
    FirstMatchConcat(head, tail, to);
    if index != k {
      StepOn(path, Decimal.Print(index), to);
      if Decimal.Print(index) == Decimal.Print(k) {
        Decimal.PrintInjective(index, k);
      }
      OffTheWay(item, path + [Decimal.Print(index)], to);
    }
  }

  /** The definition, if any, by which a table matches a location. */
  ghost predicate LeadsInto(fields: seq<Field>, path: Path, keyword: string, to: Path) {
    && path < to && to[|path|] == keyword && EntersTable(Obj(fields), keyword)
    && |path| + 2 <= |to| && Get(fields, keyword).value.Obj?
    && Find(Get(fields, keyword).value.fields, to[|path| + 1]).Some?
  }

  ghost predicate MatchedByTable(fields: seq<Field>, path: Path, keyword: string, to: Path, found: Option<Path>) {
    if LeadsInto(fields, path, keyword, to) then found == Some(to[..|path| + 2]) else found.None?
  }

  lemma MatchInTable(fields: seq<Field>, path: Path, keyword: string, to: Path)
    requires DistinctKeys(Obj(fields)) && ObjectTables(Obj(fields)) && IsKeyword(keyword)
    requires path < to
    ensures MatchedByTable(fields, path, keyword, to, FirstMatch(CollectTable(fields, path, keyword, false), to))
  {
    var at := Find(fields, keyword);
    if at.Some? {
      assert IsTable(fields[at.value]) ==> fields[at.value].value.Obj?;
      if fields[at.value].value.Obj? {
        MatchBehind(fields[at.value].value.fields, path, keyword, to);
      }
    }
  }

  lemma MatchBehind(defs: seq<Field>, path: Path, keyword: string, to: Path)
    requires forall i :: 0 <= i < |defs| ==> DistinctKeys(defs[i].value) && ObjectTables(defs[i].value)
    requires path < to
    ensures var found := FirstMatch(CollectDefs(defs, path + [keyword], false), to);
      if to[|path|] == keyword && |path| + 2 <= |to| && Find(defs, to[|path| + 1]).Some?
      then found == Some(to[..|path| + 2]) else found.None?
  {
    var here := path + [keyword];
    StepOn(path, keyword, to);
    MatchInDefs(defs, here, to);
    if here < to {
      StepOn(here, to[|here|], to);
    }
  }

  /** The definition that a location's path enters first. */
  ghost function Outermost(j: Json, path: Path, to: Path): Option<Path>
    requires path <= to
  {
    var first := TableAt(j, to[|path|..]);
    if first.Some? && |path| + first.value + 2 <= |to| then Some(to[..|path| + first.value + 2]) else None
  }

  lemma OutermostBelow(j: Json, path: Path, to: Path)
    requires path < to && Resolve(j, to[|path|..]).Some? && !EntersTable(j, to[|path|])
    ensures path + [to[|path|]] <= to && Child(j, to[|path|]).Some?
    ensures Outermost(j, path, to) == Outermost(Child(j, to[|path|]).value, path + [to[|path|]], to)
  {
    StepOn(path, to[|path|], to);
    assert to[|path|..][1..] == to[|path| + 1..];
  }

  /** The first match for a location is the definition its path enters first. */
  lemma {:induction false} FirstMatchIsOutermost(j: Json, path: Path, to: Path)
    requires DistinctKeys(j) && ObjectTables(j)
    requires path <= to && Resolve(j, to[|path|..]).Some?
    ensures FirstMatch(Collect(j, path, false), to) == Outermost(j, path, to)
    decreases |to| - |path|
  {
    var rest := to[|path|..];
    if rest == [] {
      OffTheWay(j, path, to);
    } else {
      var token := rest[0];
      var here := path + [token];
      StepOn(path, token, to);
      assert to[|here|..] == rest[1..];
      FirstMatchAtNode(j, path, to);
      if !EntersTable(j, token) {
        OutermostBelow(j, path, to);
        FirstMatchIsOutermost(Child(j, token).value, here, to);
      }
    }
  }

  lemma FirstMatchAtNode(j: Json, path: Path, to: Path)
    requires DistinctKeys(j) && ObjectTables(j)
    requires path < to && Resolve(j, to[|path|..]).Some?
    ensures EntersTable(j, to[|path|]) ==> FirstMatch(Collect(j, path, false), to) == Outermost(j, path, to)
    ensures !EntersTable(j, to[|path|]) ==>
      FirstMatch(Collect(j, path, false), to)
        == FirstMatch(Collect(Child(j, to[|path|]).value, path + [to[|path|]], false), to)
  {
    var token := to[|path|];
    match j
    case Arr(items) =>
      Decimal.PrintOfValue(token);
      MatchInItems(items, path, 0, to, Decimal.Value(token));
    case Obj(fields) =>
      if EntersTable(j, token) {
        FirstMatchAtTable(fields, path, to);
      } else {
        MatchInObject(fields, path, to, token, FirstMatch(Collect(j, path, false), to));
      }
  }

  lemma FirstMatchAtTable(fields: seq<Field>, path: Path, to: Path)
    requires DistinctKeys(Obj(fields)) && ObjectTables(Obj(fields))
    requires path < to && Resolve(Obj(fields), to[|path|..]).Some? && EntersTable(Obj(fields), to[|path|])
    ensures FirstMatch(Collect(Obj(fields), path, false), to) == Outermost(Obj(fields), path, to)
  {
    MatchInObject(fields, path, to, to[|path|], FirstMatch(Collect(Obj(fields), path, false), to));
    TableEntryFound(Obj(fields), to[|path|], to[|path|..]);
    OutermostHere(Obj(fields), path, to);
  }

  lemma OutermostHere(j: Json, path: Path, to: Path)
    requires path < to && EntersTable(j, to[|path|])
    ensures Outermost(j, path, to) == if |path| + 2 <= |to| then Some(to[..|path| + 2]) else None
  {
    assert to[|path|..][0] == to[|path|];
  }

  lemma FirstOfThree(a: seq<Moved>, b: seq<Moved>, c: seq<Moved>, to: Path)
    ensures FirstMatch(a + b + c, to) ==
      if FirstMatch(a, to).Some? then FirstMatch(a, to)
      else if FirstMatch(b, to).Some? then FirstMatch(b, to) else FirstMatch(c, to)
  {
    FirstMatchConcat(a + b, c, to);
    FirstMatchConcat(a, b, to);
  }

  lemma MatchInObject(fields: seq<Field>, path: Path, to: Path, token: string, whole: Option<Path>)
    requires DistinctKeys(Obj(fields)) && ObjectTables(Obj(fields))
    requires path < to && token == to[|path|]
    requires whole == FirstMatch(Collect(Obj(fields), path, false), to)
    ensures LeadsInto(fields, path, token, to) && IsKeyword(token) ==> whole == Some(to[..|path| + 2])
    ensures EntersTable(Obj(fields), token) && |to| == |path| + 1 ==> whole.None?
    ensures !EntersTable(Obj(fields), token) && Find(fields, token).Some? ==>
      whole == FirstMatch(Collect(Get(fields, token).value, path + [token], false), to)
  {
    var c := CollectFields(fields, path, false);
    var one, two := FirstOfTables(fields, path, to, whole, c);
    MatchInField(fields, path, to, c);
    OneTableMatches(fields, path, to, "definitions", one);
    OneTableMatches(fields, path, to, "$defs", two);
  }

  lemma FirstOfTables(fields: seq<Field>, path: Path, to: Path, whole: Option<Path>, c: seq<Moved>)
    returns (one: Option<Path>, two: Option<Path>)
    requires DistinctKeys(Obj(fields)) && ObjectTables(Obj(fields))
    requires path < to && c == CollectFields(fields, path, false)
    requires whole == FirstMatch(Collect(Obj(fields), path, false), to)
    ensures whole == if one.Some? then one else if two.Some? then two else FirstMatch(c, to)
    ensures MatchedByTable(fields, path, "definitions", to, one)
    ensures MatchedByTable(fields, path, "$defs", to, two)
  {
    var a, b := CollectTable(fields, path, "definitions", false), CollectTable(fields, path, "$defs", false);
    MatchInTable(fields, path, "definitions", to);
    MatchInTable(fields, path, "$defs", to);
    FirstOfThree(a, b, c, to);
    one, two := FirstMatch(a, to), FirstMatch(b, to);
  }

  lemma OneTableMatches(fields: seq<Field>, path: Path, to: Path, keyword: string, found: Option<Path>)
    requires path < to && MatchedByTable(fields, path, keyword, to, found)
    ensures found.Some? ==> to[|path|] == keyword && EntersTable(Obj(fields), keyword) && found.value == to[..|path| + 2]
    ensures found.Some? ==> |to| > |path| + 1
    ensures found.None? ==> !(LeadsInto(fields, path, to[|path|], to) && to[|path|] == keyword)
  {
  }

  lemma MatchInField(fields: seq<Field>, path: Path, to: Path, c: seq<Moved>)
    requires DistinctKeys(Obj(fields)) && ObjectTables(Obj(fields))
    requires path < to && c == CollectFields(fields, path, false)
    ensures EntersTable(Obj(fields), to[|path|]) ==> FirstMatch(c, to).None?
    ensures !EntersTable(Obj(fields), to[|path|]) && Find(fields, to[|path|]).Some? ==>
      FirstMatch(c, to) == FirstMatch(Collect(Get(fields, to[|path|]).value, path + [to[|path|]], false), to)
  {
    MatchInFields(fields, path, to);
  }

  lemma TableEntryFound(j: Json, token: string, rest: Path)
    requires ObjectTables(j) && EntersTable(j, token)
    requires |rest| >= 1 && rest[0] == token && Resolve(j, rest).Some?
    ensures Get(j.fields, token).value.Obj? && IsTable(j.fields[Find(j.fields, token).value])
    ensures |rest| >= 2 ==> Find(Get(j.fields, token).value.fields, rest[1]).Some?
  {
    assert IsTable(j.fields[Find(j.fields, token).value]);
    assert |rest| >= 2 ==> Child(Child(j, token).value, rest[1..][0]).Some?;
  }

  // ------------------------------------------------------------------------
  // The record of components, and copying it into the document
  // ------------------------------------------------------------------------

  lemma PutMembers(fields: seq<Field>, name: string, value: Json)
    ensures forall f :: f in Put(fields, name, value) ==> f == Field(name, value) || f in fields
    ensures Field(name, value) in Put(fields, name, value)
    ensures forall f :: f in fields ==> f.name == name || f in Put(fields, name, value)
  {
    var at := Find(fields, name);
    var put := Put(fields, name, value);
    assert put[if at.Some? then at.value else |fields|] == Field(name, value);
    forall f | f in fields && f.name != name
      ensures f in put
    {
      var i :| 0 <= i < |fields| && fields[i] == f;
      assert put[i] == f;
    }
  }

  lemma {:induction false} FiledWasMoved(moved: seq<Moved>, f: Field) returns (m: Moved)
    requires f in File(moved)
    ensures m in moved && f == Field(Component(m.pointer), m.schema)
  {
    var init, last := moved[..|moved| - 1], moved[|moved| - 1];
    PutMembers(File(init), Component(last.pointer), last.schema);
    if f == Field(Component(last.pointer), last.schema) {
      m := last;
    } else {
      m := FiledWasMoved(init, f);
    }
  }

  lemma {:induction false} MovedIsFiled(moved: seq<Moved>, m: Moved) returns (f: Field)
    requires m in moved
    ensures f in File(moved) && f.name == Component(m.pointer)
  {
    var init, last := moved[..|moved| - 1], moved[|moved| - 1];
    PutMembers(File(init), Component(last.pointer), last.schema);
    if Component(m.pointer) == Component(last.pointer) {
      f := Field(Component(last.pointer), last.schema);
    } else {
      assert moved == init + [last];
      f := MovedIsFiled(init, m);
    }
  }

  lemma {:induction false} GetAssign(fields: seq<Field>, record: seq<Field>, name: string)
    ensures (forall f :: f in record ==> f.name != name) ==> Get(Assign(fields, record), name) == Get(fields, name)
    ensures (exists f :: f in record && f.name == name) ==>
      exists f :: f in record && f.name == name && Get(Assign(fields, record), name) == Some(f.value)
  {
    if record != [] {
      var init, last := record[..|record| - 1], record[|record| - 1];
      GetAssign(fields, init, name);
      GetPut(Assign(fields, init), last.name, last.value, name);
      assert record == init + [last];
    }
  }

  ghost predicate HasSchemas(doc: Json) {
    && doc.Obj? && Get(doc.fields, "components").Some? && Get(doc.fields, "components").value.Obj?
    && Get(Get(doc.fields, "components").value.fields, "schemas").Some?
    && Get(Get(doc.fields, "components").value.fields, "schemas").value.Obj?
  }

  ghost function Schemas(doc: Json): seq<Field>
    requires HasSchemas(doc)
  {
    Get(Get(doc.fields, "components").value.fields, "schemas").value.fields
  }

  lemma ChildOfPut(fields: seq<Field>, name: string, value: Json, token: string)
    ensures Child(Obj(Put(fields, name, value)), token) == (if token == name then Some(value) else Child(Obj(fields), token))
  {
    GetPut(fields, name, value, token);
  }

  lemma ResolveCons(j: Json, token: string, rest: Path)
    ensures Resolve(j, [token] + rest) ==
      (if Child(j, token).Some? then Resolve(Child(j, token).value, rest) else None)
  {
    assert ([token] + rest)[1..] == rest;
  }

  lemma ResolveInSchemas(doc: Json, name: string, rest: Path)
    requires HasSchemas(doc)
    ensures Resolve(doc, ["components", "schemas", name] + rest) ==
      (if Get(Schemas(doc), name).Some? then Resolve(Get(Schemas(doc), name).value, rest) else None)
  {
    var components := Get(doc.fields, "components").value;
    assert ["components", "schemas", name] + rest == ["components"] + (["schemas"] + ([name] + rest));
    ResolveCons(doc, "components", ["schemas"] + ([name] + rest));
    ResolveCons(components, "schemas", [name] + rest);
    ResolveCons(Obj(Schemas(doc)), name, rest);
  }

  lemma AssignedSchemas(doc: Json, record: seq<Field>)
    requires HasSchemas(doc)
    ensures HasSchemas(AssignSchemas(doc, record))
    ensures Schemas(AssignSchemas(doc, record)) == Assign(Schemas(doc), record)
  {
    var components := Get(doc.fields, "components").value.fields;
    var extended := Obj(Assign(Schemas(doc), record));
    GetPut(components, "schemas", extended, "schemas");
    GetPut(doc.fields, "components", Obj(Put(components, "schemas", extended)), "components");
  }

  lemma AssignedComponent(doc: Json, record: seq<Field>, name: string, value: Json, rest: Path)
    requires HasSchemas(doc)
    requires exists f :: f in record && f.name == name
    requires forall f :: f in record && f.name == name ==> f.value == value
    ensures Resolve(AssignSchemas(doc, record), ["components", "schemas", name] + rest) == Resolve(value, rest)
  {
    AssignedSchemas(doc, record);
    ResolveInSchemas(AssignSchemas(doc, record), name, rest);
    GetAssign(Schemas(doc), record, name);
  }

  lemma AssignedElsewhere(doc: Json, record: seq<Field>, path: Path)
    requires HasSchemas(doc)
    requires !(path <= ["components", "schemas"])
    requires ["components", "schemas"] <= path ==> forall f :: f in record ==> f.name != path[2]
    ensures Resolve(AssignSchemas(doc, record), path) == Resolve(doc, path)
  {
    var components := Get(doc.fields, "components").value.fields;
    var extended := Obj(Assign(Schemas(doc), record));
    var inner := Obj(Put(components, "schemas", extended));
    if ["components", "schemas"] <= path {
      assert path == ["components", "schemas", path[2]] + path[3..];
      AssignedSchemas(doc, record);
      ResolveInSchemas(doc, path[2], path[3..]);
      ResolveInSchemas(AssignSchemas(doc, record), path[2], path[3..]);
      GetAssign(Schemas(doc), record, path[2]);
    } else if path[0] == "components" {
      assert |path| >= 2 && path[1] != "schemas" by {
        assert |path| == 1 ==> path == ["components"];
        if |path| >= 2 {
          assert path[..2] == [path[0], path[1]];
        }
      }
      assert path == ["components"] + ([path[1]] + path[2..]);
      ResolveCons(doc, "components", [path[1]] + path[2..]);
      ResolveCons(AssignSchemas(doc, record), "components", [path[1]] + path[2..]);
      ChildOfPut(doc.fields, "components", inner, "components");
      ResolveCons(Obj(components), path[1], path[2..]);
      ResolveCons(inner, path[1], path[2..]);
      ChildOfPut(components, "schemas", extended, path[1]);
    } else {
      assert path == [path[0]] + path[1..];
      ResolveCons(doc, path[0], path[1..]);
      ResolveCons(AssignSchemas(doc, record), path[0], path[1..]);
      ChildOfPut(doc.fields, "components", inner, path[0]);
    }
  }

  // ------------------------------------------------------------------------
  // Rewriting leaves the shape of the document alone
  // ------------------------------------------------------------------------

  lemma {:induction false} GetRewrite(fields: seq<Field>, moved: seq<Moved>, token: string)
    ensures Get(RewriteFields(fields, moved), token) ==
      match Get(fields, token)
      case None => None
      case Some(v) => Some(if token == "$ref" && v.Str? then Str(Redirect(v.s, moved)) else Rewrite(v, moved))
  {
    if fields != [] {
      GetRewrite(fields[1..], moved, token);
    }
  }

  lemma {:induction false} RewriteItemsAt(items: seq<Json>, moved: seq<Moved>, i: nat)
    requires i < |items|
    ensures RewriteItems(items, moved)[i] == Rewrite(items[i], moved)
  {
    if i > 0 {
      RewriteItemsAt(items[1..], moved, i - 1);
    }
  }

  lemma ChildOfRewrite(j: Json, moved: seq<Moved>, token: string)
    requires Child(j, token).Some? && !Child(j, token).value.Str?
    ensures Child(Rewrite(j, moved), token) == Some(Rewrite(Child(j, token).value, moved))
  {
    match j
    case Obj(fields) => GetRewrite(fields, moved, token);
    case Arr(items) => RewriteItemsAt(items, moved, Decimal.Value(token));
  }

  lemma {:induction false} ResolveRewrite(j: Json, moved: seq<Moved>, path: Path)
    requires Resolve(j, path).Some? && !Resolve(j, path).value.Str?
    ensures Resolve(Rewrite(j, moved), path) == Some(Rewrite(Resolve(j, path).value, moved))
    decreases |path|
  {
    if path != [] {
      var c := Child(j, path[0]).value;
      assert !c.Str? by {
        assert path[1..] == [] || Child(c, path[1..][0]).Some?;
      }
      ChildOfRewrite(j, moved, path[0]);
      ResolveRewrite(c, moved, path[1..]);
    }
  }

  lemma {:induction false} RewriteKeepsLocations(j: Json, moved: seq<Moved>, path: Path)
    ensures Resolve(Rewrite(j, moved), path).Some? <==> Resolve(j, path).Some?
    decreases |path|
  {
    if path != [] {
      var c := Child(j, path[0]);
      ChildrenOfRewrite(j, moved, path[0]);
      if c.Some? && !c.value.Str? {
        ChildOfRewrite(j, moved, path[0]);
        RewriteKeepsLocations(c.value, moved, path[1..]);
      }
    }
  }

  lemma ChildrenOfRewrite(j: Json, moved: seq<Moved>, token: string)
    ensures Child(Rewrite(j, moved), token).Some? <==> Child(j, token).Some?
    ensures Child(j, token).Some? && Child(j, token).value.Str? ==> Child(Rewrite(j, moved), token).value.Str?
  {
    match j
    case Obj(fields) => GetRewrite(fields, moved, token);
    case Arr(items) =>
      if Child(j, token).Some? {
        RewriteItemsAt(items, moved, Decimal.Value(token));
      }
    case _ =>
  }

  // ------------------------------------------------------------------------
  // Hoisting and rewriting a rebased document
  // ------------------------------------------------------------------------

  function Publish(rebased: Json): Json {
    Rewrite(AssignSchemas(Strip(rebased), File(Collect(rebased, [], true))), Collect(rebased, [], false))
  }

  /** The value that takes the place of a value of the rebased document. */
  function Published(rebased: Json, value: Json): Json {
    Rewrite(Strip(value), Collect(rebased, [], false))
  }

  /** No component already carries a generated name. */
  ghost predicate FreshNames(doc: Json)
    requires HasSchemas(doc)
  {
    forall f :: f in Schemas(doc) ==> !("Generated_" <= f.name)
  }

  ghost predicate Hoistable(j: Json) {
    DistinctKeys(j) && ObjectTables(j) && HasSchemas(j) && FreshNames(j)
  }

  lemma StripKeepsSchemas(j: Json)
    requires Hoistable(j)
    ensures HasSchemas(Strip(j)) && FreshNames(Strip(j))
  {
    GetStrip(j.fields, "components");
    var components := Get(j.fields, "components").value;
    assert DistinctKeys(components);
    GetStrip(components.fields, "schemas");
    StripKeepsNames(Schemas(j));
  }

  lemma {:induction false} StripKeepsNames(fields: seq<Field>)
    ensures forall f :: f in StripFields(fields) ==> exists g :: g in fields && g.name == f.name
  {
    if fields != [] {
      StripKeepsNames(fields[1..]);
      assert fields[0] in fields;
    }
  }

  lemma RecordNames(j: Json, m: Moved)
    requires Hoistable(j) && m in Collect(j, [], true)
    ensures var record := File(Collect(j, [], true)); var name := Component(m.pointer);
      && (exists f :: f in record && f.name == name)
      && (forall f :: f in record && f.name == name ==> f.value == m.schema)
  {
    var moved := Collect(j, [], true);
    var filed := MovedIsFiled(moved, m);
    forall f | f in File(moved) && f.name == Component(m.pointer)
      ensures f.value == m.schema
    {
      var other := FiledWasMoved(moved, f);
      ComponentInjective(other.pointer, m.pointer);
      CollectIsGenuine(j, [], true, m);
      CollectIsGenuine(j, [], true, other);
      assert m.pointer[0..] == m.pointer;
    }
  }

  lemma RecordIsGenerated(j: Json)
    ensures forall f :: f in File(Collect(j, [], true)) ==> "Generated_" <= f.name
  {
    forall f | f in File(Collect(j, [], true)) ensures "Generated_" <= f.name {
      var m := FiledWasMoved(Collect(j, [], true), f);
    }
  }

  lemma RecordedNotPublic(j: Json, path: Path)
    requires Hoistable(j) && Resolve(j, path).Some?
    requires ["components", "schemas"] <= path && !(path <= ["components", "schemas"])
    ensures forall f :: f in File(Collect(j, [], true)) ==> f.name != path[2]
  {
    RecordIsGenerated(j);
    assert path == ["components", "schemas", path[2]] + path[3..];
    ResolveInSchemas(j, path[2], path[3..]);
    assert Schemas(j)[Find(Schemas(j), path[2]).value] in Schemas(j);
  }

  lemma StayingLocation(j: Json, path: Path)
    requires Hoistable(j) && TableAt(j, path).None?
    requires Resolve(j, path).Some? && !Resolve(j, path).value.Str?
    requires !(path <= ["components", "schemas"])
    ensures Resolve(Publish(j), path) == Some(Published(j, Resolve(j, path).value))
  {
    var record, stripped := File(Collect(j, [], true)), Strip(j);
    StripKeepsSchemas(j);
    ResolveStrip(j, path);
    if ["components", "schemas"] <= path {
      RecordedNotPublic(j, path);
    }
    AssignedElsewhere(stripped, record, path);
    ResolveRewrite(AssignSchemas(stripped, record), Collect(j, [], false), path);
  }

  lemma DefinitionIsAssigned(j: Json, m: Moved, rest: Path)
    requires Hoistable(j) && m in Collect(j, [], true)
    ensures Resolve(AssignSchemas(Strip(j), File(Collect(j, [], true))), ComponentPath(m.pointer) + rest)
         == Resolve(m.schema, rest)
  {
    StripKeepsSchemas(j);
    RecordNames(j, m);
    AssignedComponent(Strip(j), File(Collect(j, [], true)), Component(m.pointer), m.schema, rest);
  }

  /** What a component holds, seen through the published document. */
  lemma InsideComponent(j: Json, p: Path, rest: Path)
    requires Hoistable(j)
    requires Resolve(j, p).Some? && LastTable(j, p) == Some(|p| - 2)
    ensures Resolve(Publish(j), ComponentPath(p) + rest).Some? <==> Resolve(Strip(Resolve(j, p).value), rest).Some?
    ensures Resolve(Strip(Resolve(j, p).value), rest).Some? && !Resolve(Strip(Resolve(j, p).value), rest).value.Str? ==>
      Resolve(Publish(j), ComponentPath(p) + rest)
        == Some(Rewrite(Resolve(Strip(Resolve(j, p).value), rest).value, Collect(j, [], false)))
  {
    CollectIsComplete(j, [], true, p);
    assert [] + p == p;
    DefinitionIsAssigned(j, Moved(p, Strip(Resolve(j, p).value)), rest);
    var joined := AssignSchemas(Strip(j), File(Collect(j, [], true)));
    RewriteKeepsLocations(joined, Collect(j, [], false), ComponentPath(p) + rest);
    if Resolve(joined, ComponentPath(p) + rest).Some? && !Resolve(joined, ComponentPath(p) + rest).value.Str? {
      ResolveRewrite(joined, Collect(j, [], false), ComponentPath(p) + rest);
    }
  }

  /** The fragment sign in front changes neither the comparison of two texts nor the prefix test. */
  lemma SameBehindHash(a: string, b: string)
    ensures "#" + a == "#" + b <==> a == b
    ensures "#" + b + "/" <= "#" + a <==> b + "/" <= a
    ensures b <= a ==> ("#" + a)[|"#" + b|..] == a[|b|..]
  {
    assert ("#" + a)[1..] == a && ("#" + b)[1..] == b;
    assert "#" + b + "/" == "#" + (b + "/") && ("#" + (b + "/"))[1..] == b + "/";
    if "#" + b + "/" <= "#" + a {
      assert b + "/" == ("#" + a)[1..][..|b| + 1];
    }
  }

  lemma RelocateUnder(j: Json, path: Path, p: Path)
    requires LastTable(j, path).Some? && NotATable(j, path)
    requires p == path[..LastTable(j, path).value + 2]
    ensures p <= path && Relocate(j, path) == ComponentPath(p) + path[|p|..]
  {
    UnderTable(path, LastTable(j, path), p);
  }

  lemma UnderTable(path: Path, last: Option<nat>, p: Path)
    requires last.Some? && last.value + 2 <= |path| && p == path[..last.value + 2]
    ensures p <= path && BehindTable(path, last) == ComponentPath(p) + path[|p|..]
  {
  }

  /** Every location of the rebased document, except a table itself and the document's
      own component containers, has a new address that holds its published value. */
  lemma EveryLocationMoves(j: Json, path: Path)
    requires Hoistable(j)
    requires Resolve(j, path).Some? && !Resolve(j, path).value.Str?
    requires NotATable(j, path) && !(path <= ["components", "schemas"])
    ensures Resolve(Publish(j), Relocate(j, path)) == Some(Published(j, Resolve(j, path).value))
  {
    LastAfterFirst(j, path);
    if LastTable(j, path).None? {
      StayingLocation(j, path);
    } else {
      var p := path[..LastTable(j, path).value + 2];
      RelocateUnder(j, path, p);
      NothingAfterLast(j, path, p);
      DefinitionMoves(j, p, path[|p|..]);
    }
  }

  /** What lies in a definition, with no further table on the way, lies in its component. */
  lemma DefinitionMoves(j: Json, p: Path, rest: Path)
    requires Hoistable(j) && Resolve(j, p).Some? && LastTable(j, p) == Some(|p| - 2)
    requires TableAt(Resolve(j, p).value, rest).None?
    requires Resolve(Resolve(j, p).value, rest).Some? && !Resolve(Resolve(j, p).value, rest).value.Str?
    ensures Resolve(Publish(j), ComponentPath(p) + rest) == Some(Published(j, Resolve(Resolve(j, p).value, rest).value))
  {
    ResolvedKeepsDistinct(j, p);
    ResolveStrip(Resolve(j, p).value, rest);
    InsideComponent(j, p, rest);
  }

  lemma {:induction false} ResolvedKeepsDistinct(j: Json, path: Path)
    requires DistinctKeys(j) && Resolve(j, path).Some?
    ensures DistinctKeys(Resolve(j, path).value)
    decreases |path|
  {
    if path != [] {
      ResolvedKeepsDistinct(Child(j, path[0]).value, path[1..]);
    }
  }

  // ------------------------------------------------------------------------
  // Where redirected references lead
  // ------------------------------------------------------------------------

  lemma RedirectByFirst(j: Json, to: Path, first: Option<Path>)
    requires DistinctKeys(j) && ObjectTables(j) && Resolve(j, to).Some?
    requires first == Outermost(j, [], to)
    ensures first.None? ==> Redirect(RefText(to), Collect(j, [], false)) == RefText(to)
    ensures first.Some? ==>
      Redirect(RefText(to), Collect(j, [], false)) == RefText(ComponentPath(first.value) + to[|first.value|..])
  {
    assert to[0..] == to;
    FirstMatchIsOutermost(j, [], to);
    RedirectIsFirstMatch(Collect(j, [], false), to);
  }

  lemma OutermostIsFirst(j: Json, to: Path)
    ensures Outermost(j, [], to) ==
      if TableAt(j, to).Some? && TableAt(j, to).value + 2 <= |to| then Some(to[..TableAt(j, to).value + 2]) else None
  {
    assert to[0..] == to;
  }

  lemma RelocateReachable(j: Json, to: Path, first: Option<Path>)
    requires Resolve(j, to).Some? && Reachable(j, to)
    requires first == Outermost(j, [], to)
    ensures first.None? ==> Relocate(j, to) == to
    ensures first.Some? ==> Relocate(j, to) == ComponentPath(first.value) + to[|first.value|..]
  {
    OutermostIsFirst(j, to);
    if first.Some? {
      RelocateUnder(j, to, first.value);
    }
  }

  /** A reference whose target is reached through at most one table follows it. */
  lemma ReachableTarget(j: Json, to: Path)
    requires Hoistable(j) && Resolve(j, to).Some? && Reachable(j, to)
    ensures Redirect(RefText(to), Collect(j, [], false)) == RefText(Relocate(j, to))
  {
    var first := Outermost(j, [], to);
    RelocateReachable(j, to, first);
    RedirectByFirst(j, to, first);
  }

  /** Any other target is lost: the reference text leads nowhere any more. */
  lemma UnreachableTarget(j: Json, to: Path)
    requires Hoistable(j) && Resolve(j, to).Some? && !Reachable(j, to)
    ensures var ref := ParseRef(Redirect(RefText(to), Collect(j, [], false)));
      ref.Some? && Resolve(Publish(j), ref.value).None?
  {
    var first := Outermost(j, [], to);
    RedirectByFirst(j, to, first);
    OutermostIsFirst(j, to);
    LastAfterFirst(j, to);
    if first.Some? {
      InnerDefinitionIsLost(j, to, first.value);
      RefRoundTrip(ComponentPath(first.value) + to[|first.value|..]);
    } else {
      TableIsLost(j, to);
      RefRoundTrip(to);
    }
  }

  lemma InnerDefinitionIsLost(j: Json, to: Path, p: Path)
    requires Hoistable(j) && Resolve(j, to).Some? && !Reachable(j, to)
    requires TableAt(j, to).Some? && TableAt(j, to).value + 2 <= |to| && p == to[..TableAt(j, to).value + 2]
    ensures Resolve(Publish(j), ComponentPath(p) + to[|p|..]).None?
  {
    CutAtFirst(j, to, p);
    ResolvedKeepsDistinct(j, p);
    StripDropsTables(Resolve(j, p).value, to[|p|..]);
    InsideComponent(j, p, to[|p|..]);
  }

  lemma {:induction false} FirstTableOfContainers(j: Json, path: Path)
    requires path <= ["components", "schemas"]
    ensures TableAt(j, path).None?
  {
    if path != [] {
      assert path[0] == "components" && !IsKeyword(path[0]);
      if |path| == 2 {
        assert path[1..] == ["schemas"] && !IsKeyword("schemas");
      } else {
        assert path[1..] == [];
      }
    }
  }

  lemma TableIsLost(j: Json, to: Path)
    requires Hoistable(j) && Resolve(j, to).Some? && TableAt(j, to).Some?
    ensures Resolve(Publish(j), to).None?
  {
    var record, stripped := File(Collect(j, [], true)), Strip(j);
    StripKeepsSchemas(j);
    StripDropsTables(j, to);
    if to <= ["components", "schemas"] {
      FirstTableOfContainers(j, to);
    }
    if ["components", "schemas"] <= to {
      RecordedNotPublic(j, to);
    }
    AssignedElsewhere(stripped, record, to);
    RewriteKeepsLocations(AssignSchemas(stripped, record), Collect(j, [], false), to);
  }
}
