/** Reference hoisting preserves what every local reference means. */
module ReferenceMeaning {
  import opened Basics
  import Decimal
  import opened JsonPointer
  import opened ReferenceHoisting

  // ------------------------------------------------------------------------
  // Finding keys after a key is written
  // ------------------------------------------------------------------------

  lemma {:induction false} FindFirst(fields: seq<Field>, i: nat)
    requires i < |fields|
    requires forall k :: 0 <= k < i ==> fields[k].name != fields[i].name
    ensures Find(fields, fields[i].name) == Some(i)
  {
    if i > 0 {
      FindFirst(fields[1..], i - 1);
    }
  }

  lemma GetPut(fields: seq<Field>, name: string, value: Json, other: string)
    ensures Get(Put(fields, name, value), other) == (if other == name then Some(value) else Get(fields, other))
  {
    var i := Find(fields, name);
    var put := Put(fields, name, value);
    var at := if i.Some? then i.value else |fields|;
    if i.Some? {
      FirstIsFirst(fields, name);
    }
    FindFirst(put, at);
    if other != name {
      var k := Find(fields, other);
      if k.Some? {
        FirstIsFirst(fields, other);
        FindFirst(put, k.value);
      } else {
        assert forall i :: 0 <= i < |put| ==> put[i].name != other;
      }
    }
  }

  lemma {:induction false} FirstIsFirst(fields: seq<Field>, name: string)
    requires Find(fields, name).Some?
    ensures forall k :: 0 <= k < Find(fields, name).value ==> fields[k].name != name
  {
    if fields[0].name != name {
      FirstIsFirst(fields[1..], name);
    }
  }

  // ------------------------------------------------------------------------
  // Where definitions sit, and where they move
  // ------------------------------------------------------------------------

  /** Stepping from j to this child enters a definition table. */
  predicate EntersTable(j: Json, token: string) {
    j.Obj? && IsKeyword(token) && Get(j.fields, token).Some?
    && (Get(j.fields, token).value.Obj? || Get(j.fields, token).value.Arr?)
  }

  /** The number of tokens before the first definition table on a path. */
  function TableAt(j: Json, path: Path): (r: Option<nat>)
    ensures r.Some? ==> r.value < |path|
  {
    if path == [] then None
    else if EntersTable(j, path[0]) then Some(0)
    else
      match Child(j, path[0])
      case None => None
      case Some(c) =>
        match TableAt(c, path[1..])
        case None => None
        case Some(k) => Some(k + 1)
  }

  /** The number of tokens before the last definition table on a path. The token after a
      table's name is the name of a definition, whatever it spells. */
  function LastTable(j: Json, path: Path): (r: Option<nat>)
    ensures r.Some? ==> r.value < |path|
    decreases |path|
  {
    if path == [] || Child(j, path[0]).None? then None
    else
      var c := Child(j, path[0]).value;
      if !EntersTable(j, path[0]) then Later(LastTable(c, path[1..]), 1)
      else if |path| == 1 || Child(c, path[1]).None? then Some(0)
      else
        var inner := LastTable(Child(c, path[1]).value, path[2..]);
        if inner.None? then Some(0) else Later(inner, 2)
  }

  function Later(at: Option<nat>, steps: nat): Option<nat> {
    if at.None? then None else Some(at.value + steps)
  }

  /** Where the value at a location of the rebased document ends up. */
  function Relocate(j: Json, path: Path): Path {
    BehindTable(path, LastTable(j, path))
  }

  function BehindTable(path: Path, last: Option<nat>): Path {
    match last
    case None => path
    case Some(k) => if k + 2 <= |path| then ComponentPath(path[..k + 2]) + path[k + 2..] else path
  }

  /** A location that is not a definition table itself. */
  predicate NotATable(j: Json, path: Path) {
    LastTable(j, path).Some? ==> LastTable(j, path).value + 2 <= |path|
  }

  /** The path enters no second table after the first, and does not stop at a table. */
  predicate Reachable(j: Json, path: Path) {
    LastTable(j, path) == TableAt(j, path) && NotATable(j, path)
  }

  /** Definition tables are objects, as JSON Schema has them. */
  ghost predicate ObjectTables(j: Json) {
    match j
    case Arr(items) => forall i :: 0 <= i < |items| ==> ObjectTables(items[i])
    case Obj(fields) =>
      forall i :: 0 <= i < |fields| ==> ObjectTables(fields[i].value) && (IsTable(fields[i]) ==> fields[i].value.Obj?)
    case _ => true
  }

  // ------------------------------------------------------------------------
  // Strip keeps what is outside the tables
  // ------------------------------------------------------------------------

  lemma {:induction false} GetStrip(fields: seq<Field>, token: string)
    requires forall i, k :: 0 <= i < k < |fields| ==> fields[i].name != fields[k].name
    ensures Get(StripFields(fields), token) ==
      (if Get(fields, token).None? || EntersTable(Obj(fields), token) then None else Some(Strip(Get(fields, token).value)))
  {
    if fields != [] {
      GetStrip(fields[1..], token);
      if fields[0].name == token {
        assert forall i :: 0 <= i < |fields[1..]| ==> fields[1..][i].name != token;
      }
    }
  }

  lemma {:induction false} StripItemsAt(items: seq<Json>, i: nat)
    requires i < |items|
    ensures StripItems(items)[i] == Strip(items[i])
  {
    if i > 0 {
      StripItemsAt(items[1..], i - 1);
    }
  }

  lemma ChildOfStrip(j: Json, token: string)
    requires DistinctKeys(j) && Child(j, token).Some? && !EntersTable(j, token)
    ensures Child(Strip(j), token) == Some(Strip(Child(j, token).value))
    ensures DistinctKeys(Child(j, token).value)
  {
    match j
    case Obj(fields) => GetStrip(fields, token);
    case Arr(items) => StripItemsAt(items, Decimal.Value(token));
    case _ =>
  }

  lemma {:induction false} ResolveStrip(j: Json, path: Path)
    requires DistinctKeys(j) && TableAt(j, path).None? && Resolve(j, path).Some?
    ensures Resolve(Strip(j), path) == Some(Strip(Resolve(j, path).value))
    decreases |path|
  {
    if path != [] {
      ChildOfStrip(j, path[0]);
      ResolveStrip(Child(j, path[0]).value, path[1..]);
    }
  }

  /** What is inside a table is gone. */
  lemma {:induction false} StripDropsTables(j: Json, path: Path)
    requires DistinctKeys(j) && TableAt(j, path).Some?
    ensures Resolve(Strip(j), path).None?
    decreases |path|
  {
    if EntersTable(j, path[0]) {
      GetStrip(j.fields, path[0]);
    } else {
      ChildOfStrip(j, path[0]);
      StripDropsTables(Child(j, path[0]).value, path[1..]);
    }
  }

  // ------------------------------------------------------------------------
  // First and last table
  // ------------------------------------------------------------------------

  lemma {:induction false} LastAfterFirst(j: Json, path: Path)
    requires Resolve(j, path).Some?
    ensures LastTable(j, path).Some? <==> TableAt(j, path).Some?
    ensures LastTable(j, path).Some? ==> TableAt(j, path).value <= LastTable(j, path).value
    decreases |path|
  {
    if path != [] && !EntersTable(j, path[0]) {
      LastAfterFirst(Child(j, path[0]).value, path[1..]);
    }
  }

  /** Behind the definition that the last table leads to there is no further table. */
  lemma {:induction false} NothingAfterLast(j: Json, path: Path, p: Path)
    requires Resolve(j, path).Some? && LastTable(j, path).Some? && NotATable(j, path)
    requires p == path[..LastTable(j, path).value + 2]
    ensures Resolve(j, p).Some? && LastTable(j, p) == LastTable(j, path)
    ensures TableAt(Resolve(j, p).value, path[|p|..]).None?
    ensures Resolve(Resolve(j, p).value, path[|p|..]) == Resolve(j, path)
    decreases |path|
  {
    assert path == p + path[|p|..];
    ResolveConcat(j, p, path[|p|..]);
    var c := Child(j, path[0]).value;
    if EntersTable(j, path[0]) {
      assert path[1..][1..] == path[2..] && p[1..][1..] == p[2..];
      var def := Child(c, path[1]).value;
      LastAfterFirst(def, path[2..]);
      if LastTable(def, path[2..]).Some? {
        assert p[2..] == path[2..][..LastTable(def, path[2..]).value + 2];
        assert path[2..][|p[2..]|..] == path[|p|..];
        NothingAfterLast(def, path[2..], p[2..]);
      } else {
        assert p[2..] == [] && path[|p|..] == path[2..];
        assert Resolve(j, p) == Resolve(c, p[1..]) == Some(def);
      }
    } else {
      assert p[1..] == path[1..][..LastTable(c, path[1..]).value + 2];
      assert path[1..][|p[1..]|..] == path[|p|..];
      NothingAfterLast(c, path[1..], p[1..]);
    }
  }

  /** Cutting a path right behind its first table's definition. */
  lemma {:induction false} CutAtFirst(j: Json, path: Path, p: Path)
    requires Resolve(j, path).Some? && TableAt(j, path).Some? && TableAt(j, path).value + 2 <= |path|
    requires p == path[..TableAt(j, path).value + 2]
    ensures Resolve(j, p).Some? && LastTable(j, p) == Some(|p| - 2)
    ensures Resolve(Resolve(j, p).value, path[|p|..]) == Resolve(j, path)
    ensures LastTable(j, path) == TableAt(j, path) <==> TableAt(Resolve(j, p).value, path[|p|..]).None?
    decreases |path|
  {
    assert path == p + path[|p|..];
    ResolveConcat(j, p, path[|p|..]);
    var c := Child(j, path[0]).value;
    if EntersTable(j, path[0]) {
      assert path[1..][1..] == path[2..] && p[1..][1..] == p[2..] == [];
      var def := Child(c, path[1]).value;
      assert Resolve(j, p) == Resolve(c, p[1..]) == Some(def) && path[|p|..] == path[2..];
      LastAfterFirst(def, path[2..]);
    } else {
      assert p[1..] == path[1..][..TableAt(c, path[1..]).value + 2];
      assert path[1..][|p[1..]|..] == path[|p|..];
      CutAtFirst(c, path[1..], p[1..]);
    }
  }

  // ------------------------------------------------------------------------
  // What Collect finds
  // ------------------------------------------------------------------------

  /** A moved definition, seen from a node at `path`: a table holds it, and what was filed
      is the definition without the tables inside it. */
  ghost predicate Genuine(j: Json, path: Path, m: Moved) {
    && path <= m.pointer
    && var rest := m.pointer[|path|..];
    && |rest| >= 2
    && LastTable(j, rest) == Some(|rest| - 2)
    && Resolve(j, rest).Some?
    && m.schema == Strip(Resolve(j, rest).value)
  }

  lemma GenuineFromChild(j: Json, path: Path, token: string, m: Moved)
    requires Child(j, token).Some? && !EntersTable(j, token)
    requires Genuine(Child(j, token).value, path + [token], m)
    ensures Genuine(j, path, m)
  {
    var rest := m.pointer[|path|..];
    assert rest[0] == (path + [token])[|path|] == token;
    assert rest[1..] == m.pointer[|path| + 1..];
  }

  lemma GenuineFromDefinition(j: Json, path: Path, keyword: string, name: string, m: Moved)
    requires EntersTable(j, keyword) && Child(Get(j.fields, keyword).value, name).Some?
    requires Genuine(Child(Get(j.fields, keyword).value, name).value, path + [keyword] + [name], m)
    ensures Genuine(j, path, m)
  {
    var rest := m.pointer[|path|..];
    var here := path + [keyword] + [name];
    assert rest[0] == here[|path|] == keyword && rest[1] == here[|path| + 1] == name;
    assert rest[1..][1..] == rest[2..] == m.pointer[|here|..];
  }

  lemma {:induction false} CollectIsGenuine(j: Json, path: Path, nf: bool, m: Moved)
    requires DistinctKeys(j) && ObjectTables(j) && m in Collect(j, path, nf)
    ensures Genuine(j, path, m)
    decreases j
  {
    match j
    case Arr(items) =>
      var i := CollectItemsAt(items, path, 0, nf, m);
      assert items[i] < j;
      CollectIsGenuine(items[i], path + [Decimal.Print(i)], nf, m);
      Decimal.ValueOfPrint(i);
      GenuineFromChild(j, path, Decimal.Print(i), m);
    case Obj(fields) =>
      if m in CollectTable(fields, path, "definitions", nf) {
        TableIsGenuine(fields, path, "definitions", nf, m);
      } else if m in CollectTable(fields, path, "$defs", nf) {
        TableIsGenuine(fields, path, "$defs", nf, m);
      } else {
        var i := CollectFieldsAt(fields, path, nf, m);
        assert fields[i].value < j;
        CollectIsGenuine(fields[i].value, path + [fields[i].name], nf, m);
        FindFirst(fields, i);
        GenuineFromChild(j, path, fields[i].name, m);
      }
    case _ =>
  }

  lemma {:induction false} CollectItemsAt(items: seq<Json>, path: Path, index: nat, nf: bool, m: Moved) returns (i: nat)
    requires m in CollectItems(items, path, index, nf)
    ensures index <= i < index + |items|
    ensures m in Collect(items[i - index], path + [Decimal.Print(i)], nf)
  {
    InEither(Collect(items[0], path + [Decimal.Print(index)], nf), CollectItems(items[1..], path, index + 1, nf), m);
    if m in Collect(items[0], path + [Decimal.Print(index)], nf) {
      i := index;
    } else {
      i := CollectItemsAt(items[1..], path, index + 1, nf, m);
      assert items[1..][i - (index + 1)] == items[i - index];
    }
  }

  lemma {:induction false} CollectFieldsAt(fields: seq<Field>, path: Path, nf: bool, m: Moved) returns (i: nat)
    requires m in CollectFields(fields, path, nf)
    ensures i < |fields| && !IsTable(fields[i])
    ensures m in Collect(fields[i].value, path + [fields[i].name], nf)
  {
    if !IsTable(fields[0]) && m in Collect(fields[0].value, path + [fields[0].name], nf) {
      i := 0;
    } else {
      var k := CollectFieldsAt(fields[1..], path, nf, m);
      i := k + 1;
    }
  }

  lemma InWithNested(own: Moved, nested: seq<Moved>, nf: bool, m: Moved)
    ensures m in WithNested(own, nested, nf) <==> m == own || m in nested
  {
  }

  lemma {:induction false} CollectDefsAt(defs: seq<Field>, path: Path, nf: bool, m: Moved) returns (i: nat)
    requires m in CollectDefs(defs, path, nf)
    ensures i < |defs|
    ensures m == Moved(path + [defs[i].name], Strip(defs[i].value))
      || m in Collect(defs[i].value, path + [defs[i].name], nf)
  {
    var here := path + [defs[0].name];
    var own, nested := Moved(here, Strip(defs[0].value)), Collect(defs[0].value, here, nf);
    InEither(WithNested(own, nested, nf), CollectDefs(defs[1..], path, nf), m);
    InWithNested(own, nested, nf, m);
    if m == own || m in nested {
      i := 0;
    } else {
      var k := CollectDefsAt(defs[1..], path, nf, m);
      i := k + 1;
    }
  }

  lemma {:induction false} TableIsGenuine(fields: seq<Field>, path: Path, keyword: string, nf: bool, m: Moved)
    requires DistinctKeys(Obj(fields)) && ObjectTables(Obj(fields)) && IsKeyword(keyword)
    requires m in CollectTable(fields, path, keyword, nf)
    ensures Genuine(Obj(fields), path, m)
    decreases fields
  {
    var at := Find(fields, keyword).value;
    assert IsTable(fields[at]);
    var table := fields[at].value;
    assert DistinctKeys(table) && ObjectTables(table);
    var i := CollectDefsAt(table.fields, path + [keyword], nf, m);
    FindFirst(table.fields, i);
    var name, def := table.fields[i].name, table.fields[i].value;
    if m in Collect(def, path + [keyword] + [name], nf) {
      CollectIsGenuine(def, path + [keyword] + [name], nf, m);
      GenuineFromDefinition(Obj(fields), path, keyword, name, m);
    } else {
      var rest := m.pointer[|path|..];
      assert rest == [keyword, name] && rest[1..] == [name] && rest[1..][1..] == [];
      assert Resolve(table, rest[1..]) == Some(def);
    }
  }

  /** Every definition reached through a table is collected. */
  lemma {:induction false} CollectIsComplete(j: Json, path: Path, nf: bool, rest: Path)
    requires DistinctKeys(j) && ObjectTables(j)
    requires LastTable(j, rest) == Some(|rest| - 2) && Resolve(j, rest).Some?
    ensures Moved(path + rest, Strip(Resolve(j, rest).value)) in Collect(j, path, nf)
    decreases |rest|
  {
    var token := rest[0];
    var c := Child(j, token).value;
    var m := Moved(path + rest, Strip(Resolve(j, rest).value));
    if EntersTable(j, token) {
      var i := Find(c.fields, rest[1]).value;
      var def := c.fields[i].value;
      var here := path + [token] + [rest[1]];
      ResolveTwo(j, rest);
      LastBehindTable(j, rest, def);
      if |rest| == 2 {
        assert here == path + rest;
      } else {
        assert here + rest[2..] == path + rest;
        CollectIsComplete(def, here, nf, rest[2..]);
      }
      TableHas(j.fields, c.fields, path, nf, token, i, m);
    } else {
      assert path + [token] + rest[1..] == path + rest;
      CollectIsComplete(c, path + [token], nf, rest[1..]);
      ChildHas(j, path, nf, token, m);
    }
  }

  lemma ResolveTwo(j: Json, rest: Path)
    requires |rest| >= 2 && Resolve(j, rest).Some?
    ensures Child(j, rest[0]).Some? && Child(Child(j, rest[0]).value, rest[1]).Some?
    ensures Resolve(j, rest) == Resolve(Child(Child(j, rest[0]).value, rest[1]).value, rest[2..])
  {
    assert rest[1..][1..] == rest[2..];
  }

  /** The definition that the last table on the way leads to is also the one that its own table leads to. */
  lemma LastBehindTable(j: Json, rest: Path, def: Json)
    requires LastTable(j, rest) == Some(|rest| - 2) && EntersTable(j, rest[0])
    requires Child(j, rest[0]).Some? && Child(Child(j, rest[0]).value, rest[1]) == Some(def)
    ensures |rest| > 2 ==> LastTable(def, rest[2..]) == Some(|rest[2..]| - 2)
  {
  }

  lemma TableHas(fields: seq<Field>, defs: seq<Field>, path: Path, nf: bool, token: string, i: nat, m: Moved)
    requires EntersTable(Obj(fields), token) && Get(fields, token) == Some(Obj(defs)) && i < |defs|
    requires m == Moved(path + [token] + [defs[i].name], Strip(defs[i].value))
      || m in Collect(defs[i].value, path + [token] + [defs[i].name], nf)
    ensures m in Collect(Obj(fields), path, nf)
  {
    CollectDefsHas(defs, path + [token], nf, i, m);
    assert m in CollectTable(fields, path, token, nf);
  }

  lemma ChildHas(j: Json, path: Path, nf: bool, token: string, m: Moved)
    requires Child(j, token).Some? && !EntersTable(j, token)
    requires m in Collect(Child(j, token).value, path + [token], nf)
    ensures m in Collect(j, path, nf)
  {
    match j
    case Obj(fields) =>
      CollectFieldsHas(fields, path, nf, Find(fields, token).value, m);
    case Arr(items) =>
      Decimal.PrintOfValue(token);
      CollectItemsHas(items, path, 0, nf, Decimal.Value(token), m);
  }

  lemma {:induction false} CollectDefsHas(defs: seq<Field>, path: Path, nf: bool, i: nat, m: Moved)
    requires i < |defs|
    requires m == Moved(path + [defs[i].name], Strip(defs[i].value))
      || m in Collect(defs[i].value, path + [defs[i].name], nf)
    ensures m in CollectDefs(defs, path, nf)
  {
    if i > 0 {
      CollectDefsHas(defs[1..], path, nf, i - 1, m);
    }
  }

  lemma {:induction false} CollectFieldsHas(fields: seq<Field>, path: Path, nf: bool, i: nat, m: Moved)
    requires i < |fields| && !IsTable(fields[i])
    requires m in Collect(fields[i].value, path + [fields[i].name], nf)
    ensures m in CollectFields(fields, path, nf)
  {
    if i > 0 {
      CollectFieldsHas(fields[1..], path, nf, i - 1, m);
    }
  }

  lemma {:induction false} CollectItemsHas(items: seq<Json>, path: Path, index: nat, nf: bool, i: nat, m: Moved)
    requires i < |items|
    requires m in Collect(items[i], path + [Decimal.Print(index + i)], nf)
    ensures m in CollectItems(items, path, index, nf)
  {
    if i > 0 {
      CollectItemsHas(items[1..], path, index + 1, nf, i - 1, m);
    }
  }
}
