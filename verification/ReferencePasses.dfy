/** The generator's passes as it runs them: two tables filled while the document is
    walked. A node that the program changes in place is returned as a new value here. */
module ReferencePasses {
  import opened Basics
  import Decimal
  import opened JsonPointer
  import opened ReferenceHoisting
  import opened ReferenceMeaning
  import opened ReferenceScopes
  import opened ReferenceTargets

  /** Files definitions into a record that may already hold some. */
  function Record(base: seq<Field>, moved: seq<Moved>): seq<Field>
    decreases |moved|
  {
    if moved == [] then base else Record(Put(base, Component(moved[0].pointer), moved[0].schema), moved[1..])
  }

  lemma {:induction false} RecordConcat(base: seq<Field>, a: seq<Moved>, b: seq<Moved>)
    ensures Record(base, a + b) == Record(Record(base, a), b)
    decreases |a|
  {
    if a == [] {
      assert a + b == b;
    } else {
      assert (a + b)[1..] == a[1..] + b;
      RecordConcat(Put(base, Component(a[0].pointer), a[0].schema), a[1..], b);
    }
  }

  lemma {:induction false} RecordIsFile(moved: seq<Moved>)
    ensures Record([], moved) == File(moved)
  {
    if moved != [] {
      var init, last := moved[..|moved| - 1], moved[|moved| - 1];
      assert moved == init + [last];
      RecordIsFile(init);
      RecordConcat([], init, [last]);
      assert [last][1..] == [];
    }
  }

  /** One more element goes from what is left to what is done. */
  lemma Push<T>(done: seq<T>, x: T, rest: seq<T>, whole: seq<T>)
    requires done + ([x] + rest) == whole
    ensures (done + [x]) + rest == whole
  {
  }

  lemma InThreeParts<T>(start: seq<T>, a: seq<T>, b: seq<T>, c: seq<T>, one: seq<T>, two: seq<T>, three: seq<T>)
    requires one == start + a && two == one + b && three == two + c
    ensures three == start + (a + b + c)
  {
  }

  lemma FiledBehind(start: seq<Field>, nested: seq<Moved>, own: Moved, later: seq<Moved>, after: seq<Field>)
    requires after == Put(Record(start, nested), Component(own.pointer), own.schema)
    ensures Record(after, later) == Record(start, nested + [own] + later)
  {
    RecordConcat(start, nested + [own], later);
    RecordConcat(start, nested, [own]);
    assert [own][1..] == [];
  }

  lemma FoundBefore<T>(start: seq<T>, own: T, nested: seq<T>, later: seq<T>)
    ensures (start + [own]) + nested + later == start + ([own] + nested + later)
  {
  }

  lemma RecordInThreeParts(start: seq<Field>, a: seq<Moved>, b: seq<Moved>, c: seq<Moved>,
                           one: seq<Field>, two: seq<Field>, three: seq<Field>)
    requires one == Record(start, a) && two == Record(one, b) && three == Record(two, c)
    ensures three == Record(start, a + b + c)
  {
    RecordConcat(start, a, b);
    RecordConcat(start, a + b, c);
  }

  /** What the walk finds from an item on. */
  lemma ItemsUnfold(items: seq<Json>, path: Path, i: nat, nf: bool)
    requires i < |items|
    ensures CollectItems(items[i..], path, i, nf)
         == Collect(items[i], path + [Decimal.Print(i)], nf) + CollectItems(items[i + 1..], path, i + 1, nf)
  {
    assert items[i..][1..] == items[i + 1..];
  }

  lemma StripUnfold(items: seq<Json>, i: nat)
    requires i < |items|
    ensures StripItems(items[i..]) == [Strip(items[i])] + StripItems(items[i + 1..])
  {
    assert items[i..][1..] == items[i + 1..];
  }

  /** Behind the last item nothing is left to find. */
  lemma Exhausted(items: seq<Json>, path: Path, children: seq<Json>, found: seq<Moved>, filed: seq<Field>)
    ensures children + StripItems(items[|items|..]) == children
    ensures found + CollectItems(items[|items|..], path, |items|, false) == found
    ensures Record(filed, CollectItems(items[|items|..], path, |items|, true)) == filed
  {
    assert items[|items|..] == [];
  }

  class Generator {
    var targets: seq<Moved>
    var hoisted: seq<Field>

    constructor ()
      ensures targets == [] && hoisted == []
    {
      targets, hoisted := [], [];
    }

    // The state after hoisting some definitions, from the state before.
    ghost predicate Extended(targets0: seq<Moved>, hoisted0: seq<Field>, found: seq<Moved>, filed: seq<Moved>)
      reads this
    {
      targets == targets0 + found && hoisted == Record(hoisted0, filed)
    }

    method RebaseNode(j: Json, path: Path, scope: string) returns (r: Json)
      ensures r == Rebase(j, path, scope)
      decreases j
    {
      match j
      case Arr(items) =>
        var children: seq<Json> := [];
        for i := 0 to |items|
          invariant |children| == i
          invariant forall k :: 0 <= k < i ==> children[k] == RebaseItems(items, path, scope, 0)[k]
        {
          var child := RebaseNode(items[i], path + [Decimal.Print(i)], scope);
          RebaseItemsAt(items, path, scope, 0, i);
          children := children + [child];
        }
        assert children == RebaseItems(items, path, scope, 0);
        r := Arr(children);
      case Obj(fields) =>
        var kept := RebaseMembers(fields, path, if IsString(fields, "$schema") then ScopeText(path) else scope);
        r := Obj(kept);
      case _ =>
        r := j;
    }

    method RebaseMembers(fields: seq<Field>, path: Path, scope: string) returns (kept: seq<Field>)
      ensures kept == RebaseFields(fields, path, scope)
      decreases fields, 0
    {
      kept := [];
      for i := 0 to |fields|
        invariant kept + RebaseFields(fields[i..], path, scope) == RebaseFields(fields, path, scope)
      {
        var f := fields[i];
        assert f in fields && fields[i..][1..] == fields[i + 1..];
        ghost var rest := RebaseFields(fields[i + 1..], path, scope);
        if !(f.name == "$schema" && f.value.Str?) {
          var value := f.value;
          if f.name == "$ref" && f.value.Str? {
            value := Str(RebaseRef(f.value.s, scope));
          } else {
            value := RebaseNode(f.value, path + [f.name], scope);
          }
          Push(kept, Field(f.name, value), rest, RebaseFields(fields, path, scope));
          kept := kept + [Field(f.name, value)];
        }
      }
    }

    method HoistNode(j: Json, path: Path) returns (r: Json)
      modifies this
      ensures r == Strip(j)
      ensures Extended(old(targets), old(hoisted), Collect(j, path, false), Collect(j, path, true))
      decreases j, 1
    {
      match j
      case Arr(items) =>
        var children := HoistItems(items, path);
        r := Arr(children);
      case Obj(fields) =>
        var kept := HoistMembers(fields, path);
        r := Obj(kept);
      case _ =>
        r := j;
    }

    method HoistMembers(fields: seq<Field>, path: Path) returns (kept: seq<Field>)
      modifies this
      ensures kept == StripFields(fields)
      ensures Extended(old(targets), old(hoisted), Collect(Obj(fields), path, false), Collect(Obj(fields), path, true))
      decreases fields, 1
    {
      ghost var targets0, hoisted0 := targets, hoisted;
      HoistTable(fields, path, "definitions");
      ghost var targets1, hoisted1 := targets, hoisted;
      HoistTable(fields, path, "$defs");
      ghost var targets2, hoisted2 := targets, hoisted;
      kept := HoistFields(fields, path);
      InThreeParts(targets0, CollectTable(fields, path, "definitions", false), CollectTable(fields, path, "$defs", false),
                   CollectFields(fields, path, false), targets1, targets2, targets);
      RecordInThreeParts(hoisted0, CollectTable(fields, path, "definitions", true), CollectTable(fields, path, "$defs", true),
                         CollectFields(fields, path, true), hoisted1, hoisted2, hoisted);
    }

    method HoistItems(items: seq<Json>, path: Path) returns (children: seq<Json>)
      modifies this
      ensures children == StripItems(items)
      ensures Extended(old(targets), old(hoisted), CollectItems(items, path, 0, false), CollectItems(items, path, 0, true))
      decreases items
    {
      ghost var targets0, hoisted0 := targets, hoisted;
      children := [];
      for i := 0 to |items|
        invariant children + StripItems(items[i..]) == StripItems(items)
        invariant targets + CollectItems(items[i..], path, i, false) == targets0 + CollectItems(items, path, 0, false)
        invariant Record(hoisted, CollectItems(items[i..], path, i, true))
               == Record(hoisted0, CollectItems(items, path, 0, true))
      {
        ItemsUnfold(items, path, i, false);
        ItemsUnfold(items, path, i, true);
        var child := HoistPart(items[i], path + [Decimal.Print(i)],
                               CollectItems(items[i + 1..], path, i + 1, false), CollectItems(items[i + 1..], path, i + 1, true));
        StripUnfold(items, i);
        Push(children, child, StripItems(items[i + 1..]), StripItems(items));
        children := children + [child];
      }
      Exhausted(items, path, children, targets, hoisted);
    }

    /** Hoists one child, seen together with what the rest of the walk will find. */
    method HoistPart(j: Json, here: Path, ghost laterFound: seq<Moved>, ghost laterFiled: seq<Moved>) returns (r: Json)
      modifies this
      ensures r == Strip(j)
      ensures targets + laterFound == old(targets) + (Collect(j, here, false) + laterFound)
      ensures Record(hoisted, laterFiled) == Record(old(hoisted), Collect(j, here, true) + laterFiled)
      decreases j, 2
    {
      ghost var found, filed := Collect(j, here, false), Collect(j, here, true);
      Regroup(targets, found, laterFound);
      RecordConcat(hoisted, filed, laterFiled);
      r := HoistNode(j, here);
    }

    method HoistFields(fields: seq<Field>, path: Path) returns (kept: seq<Field>)
      modifies this
      ensures kept == StripFields(fields)
      ensures Extended(old(targets), old(hoisted), CollectFields(fields, path, false), CollectFields(fields, path, true))
      decreases fields, 0
    {
      ghost var targets0, hoisted0 := targets, hoisted;
      kept := [];
      for i := 0 to |fields|
        invariant kept + StripFields(fields[i..]) == StripFields(fields)
        invariant targets + CollectFields(fields[i..], path, false) == targets0 + CollectFields(fields, path, false)
        invariant Record(hoisted, CollectFields(fields[i..], path, true)) == Record(hoisted0, CollectFields(fields, path, true))
      {
        assert fields[i..][1..] == fields[i + 1..];
        if !IsTable(fields[i]) {
          assert fields[i] in fields;
          var child := HoistPart(fields[i].value, path + [fields[i].name],
                                 CollectFields(fields[i + 1..], path, false), CollectFields(fields[i + 1..], path, true));
          Push(kept, Field(fields[i].name, child), StripFields(fields[i + 1..]), StripFields(fields));
          kept := kept + [Field(fields[i].name, child)];
        }
      }
    }

    method HoistTable(fields: seq<Field>, path: Path, keyword: string)
      modifies this
      ensures Extended(old(targets), old(hoisted), CollectTable(fields, path, keyword, false), CollectTable(fields, path, keyword, true))
      decreases fields, 0
    {
      ghost var targets0, hoisted0 := targets, hoisted;
      var at := Find(fields, keyword);
      if at.Some? {
        assert fields[at.value] in fields;
        match fields[at.value].value
        case Obj(defs) =>
          for i := 0 to |defs|
            invariant targets + CollectDefs(defs[i..], path + [keyword], false)
                   == targets0 + CollectDefs(defs, path + [keyword], false)
            invariant Record(hoisted, CollectDefs(defs[i..], path + [keyword], true))
                   == Record(hoisted0, CollectDefs(defs, path + [keyword], true))
          {
            assert defs[i] in defs && defs[i..][1..] == defs[i + 1..];
            HoistDefinition(defs[i].value, path + [keyword] + [defs[i].name],
                            CollectDefs(defs[i + 1..], path + [keyword], false), CollectDefs(defs[i + 1..], path + [keyword], true));
          }
        case Arr(items) =>
          for i := 0 to |items|
            invariant targets + CollectDefItems(items[i..], path + [keyword], i, false)
                   == targets0 + CollectDefItems(items, path + [keyword], 0, false)
            invariant Record(hoisted, CollectDefItems(items[i..], path + [keyword], i, true))
                   == Record(hoisted0, CollectDefItems(items, path + [keyword], 0, true))
          {
            assert items[i..][1..] == items[i + 1..];
            HoistDefinition(items[i], path + [keyword] + [Decimal.Print(i)],
                            CollectDefItems(items[i + 1..], path + [keyword], i + 1, false),
                            CollectDefItems(items[i + 1..], path + [keyword], i + 1, true));
          }
        case _ =>
      }
    }

    /** Records a definition as a target, hoists what is nested in it, then files it. */
    method HoistDefinition(schema: Json, here: Path, ghost laterFound: seq<Moved>, ghost laterFiled: seq<Moved>)
      modifies this
      ensures targets + laterFound
        == old(targets) + (WithNested(Moved(here, Strip(schema)), Collect(schema, here, false), false) + laterFound)
      ensures Record(hoisted, laterFiled)
        == Record(old(hoisted), WithNested(Moved(here, Strip(schema)), Collect(schema, here, true), true) + laterFiled)
      decreases schema, 2
    {
      ghost var own := Moved(here, Strip(schema));
      ghost var targets0, hoisted0 := targets, hoisted;
      targets := targets + [Moved(here, Strip(schema))];
      var stripped := HoistNode(schema, here);
      hoisted := Put(hoisted, Component(here), stripped);
      FiledBehind(hoisted0, Collect(schema, here, true), own, laterFiled, hoisted);
      FoundBefore(targets0, own, Collect(schema, here, false), laterFound);
    }

    method RewriteText(ref: string) returns (r: string)
      ensures r == Redirect(ref, targets)
    {
      r := ref;
      for i := 0 to |targets|
        invariant r == ref && Redirect(ref, targets[i..]) == Redirect(ref, targets)
      {
        assert targets[i..][1..] == targets[i + 1..];
        var source := RefText(targets[i].pointer);
        if ref == source || source + "/" <= ref {
          r := "#/components/schemas/" + Component(targets[i].pointer) + ref[|source|..];
          break;
        }
      }
    }

    method RewriteNode(j: Json) returns (r: Json)
      ensures r == Rewrite(j, targets)
      decreases j
    {
      match j
      case Arr(items) =>
        var children: seq<Json> := [];
        for i := 0 to |items|
          invariant |children| == i
          invariant forall k :: 0 <= k < i ==> children[k] == RewriteItems(items, targets)[k]
        {
          var child := RewriteNode(items[i]);
          RewriteItemsAt(items, targets, i);
          children := children + [child];
        }
        assert children == RewriteItems(items, targets);
        r := Arr(children);
      case Obj(fields) =>
        var kept := RewriteMembers(fields);
        r := Obj(kept);
      case _ =>
        r := j;
    }

    method RewriteMembers(fields: seq<Field>) returns (kept: seq<Field>)
      ensures kept == RewriteFields(fields, targets)
      decreases fields, 0
    {
      kept := [];
      for i := 0 to |fields|
        invariant kept + RewriteFields(fields[i..], targets) == RewriteFields(fields, targets)
      {
        var f := fields[i];
        assert f in fields && fields[i..][1..] == fields[i + 1..];
        var value := f.value;
        if f.name == "$ref" && f.value.Str? {
          var text := RewriteText(f.value.s);
          value := Str(text);
        } else {
          value := RewriteNode(f.value);
        }
        Push(kept, Field(f.name, value), RewriteFields(fields[i + 1..], targets), RewriteFields(fields, targets));
        kept := kept + [Field(f.name, value)];
      }
    }

    /** The three passes in order, from empty tables. */
    method Publish(doc: Json) returns (r: Json)
      requires targets == [] && hoisted == []
      modifies this
      ensures r == Generate(doc)
    {
      var rebased := RebaseNode(doc, [], "#");
      var stripped := HoistNode(rebased, []);
      RecordIsFile(Collect(rebased, [], true));
      assert targets == Collect(rebased, [], false);
      r := RewriteNode(AssignSchemas(stripped, hoisted));
    }
  }
}
