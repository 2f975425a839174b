/** JSON documents and local JSON Pointer references (sections 3 and 4 of RFC 6901, in
    the URI fragment form without percent-encoding that the generator writes). */
module JsonPointer {
  import opened Basics
  import Decimal

  datatype Json = Null | Bool(b: bool) | Num(n: int) | Str(s: string) | Arr(items: seq<Json>) | Obj(fields: seq<Field>)

  /** Objects keep their keys in insertion order. */
  datatype Field = Field(name: string, value: Json)

  type Path = seq<string>

  function Find(fields: seq<Field>, name: string): (r: Option<nat>)
    ensures r.Some? ==> r.value < |fields| && fields[r.value].name == name
    ensures r.None? ==> forall i :: 0 <= i < |fields| ==> fields[i].name != name
  {
    if fields == [] then None
    else if fields[0].name == name then Some(0)
    else
      match Find(fields[1..], name)
      case None => None
      case Some(i) => Some(i + 1)
  }

  function Get(fields: seq<Field>, name: string): Option<Json> {
    var i := Find(fields, name);
    if i.Some? then Some(fields[i.value].value) else None
  }

  /** Writes a key: in place when the object has it, at the end otherwise. */
  function Put(fields: seq<Field>, name: string, value: Json): seq<Field> {
    var i := Find(fields, name);
    if i.Some? then fields[i.value := Field(name, value)] else fields + [Field(name, value)]
  }

  /** Keys of one object are distinct, at every depth. */
  ghost predicate DistinctKeys(j: Json) {
    match j
    case Arr(items) => forall i :: 0 <= i < |items| ==> DistinctKeys(items[i])
    case Obj(fields) =>
      && (forall i, k :: 0 <= i < k < |fields| ==> fields[i].name != fields[k].name)
      && (forall i :: 0 <= i < |fields| ==> DistinctKeys(fields[i].value))
    case _ => true
  }

  function Child(j: Json, token: string): Option<Json> {
    match j
    case Obj(fields) =>
      var i := Find(fields, token);
      if i.Some? then Some(fields[i.value].value) else None
    case Arr(items) =>
      if Decimal.IsCanonical(token) && Decimal.Value(token) < |items| then Some(items[Decimal.Value(token)]) else None
    case _ => None
  }

  /** The value a pointer's tokens lead to. */
  function Resolve(j: Json, path: Path): Option<Json> {
    if path == [] then Some(j)
    else
      match Child(j, path[0])
      case None => None
      case Some(c) => Resolve(c, path[1..])
  }

  /** A token of a pointer names a member of an object, the item of an array at its number, and
      nothing else (section 4 of RFC 6901). */
  lemma ChildExactly(j: Json, token: string)
    requires DistinctKeys(j)
    ensures match j
      case Obj(fields) =>
        && (forall i :: 0 <= i < |fields| && fields[i].name == token ==> Child(j, token) == Some(fields[i].value))
        && ((forall i :: 0 <= i < |fields| ==> fields[i].name != token) ==> Child(j, token) == None)
      case Arr(items) =>
        && (forall i :: 0 <= i < |items| && token == Decimal.Print(i) ==> Child(j, token) == Some(items[i]))
        && ((forall i :: 0 <= i < |items| ==> token != Decimal.Print(i)) ==> Child(j, token) == None)
      case _ => Child(j, token) == None
  {
    if j.Arr? {
      forall i | 0 <= i < |j.items| && token == Decimal.Print(i) ensures Child(j, token) == Some(j.items[i]) {
        Decimal.ValueOfPrint(i);
      }
      if Decimal.IsCanonical(token) {
        Decimal.PrintOfValue(token);
      }
    }
  }

  /** The empty pointer leads to the document, and one token more to the child it names. */
  lemma ResolveExactly(j: Json, path: Path, token: string)
    ensures Resolve(j, []) == Some(j)
    ensures Resolve(j, path + [token]) == if Resolve(j, path).Some? then Child(Resolve(j, path).value, token) else None
  {
    ResolveConcat(j, path, [token]);
    if Resolve(j, path).Some? {
      var c := Resolve(j, path).value;
      assert Resolve(c, [token]) == if Child(c, token).Some? then Resolve(Child(c, token).value, []) else None;
    }
  }

  lemma {:induction false} ResolveConcat(j: Json, a: Path, b: Path)
    ensures Resolve(j, a + b) == (if Resolve(j, a).Some? then Resolve(Resolve(j, a).value, b) else None)
    decreases |a|
  {
    if a == [] {
      assert a + b == b;
    } else {
      assert (a + b)[1..] == a[1..] + b;
      if Child(j, a[0]).Some? {
        ResolveConcat(Child(j, a[0]).value, a[1..], b);
      }
    }
  }

  // ------------------------------------------------------------------------
  // Escaping
  // ------------------------------------------------------------------------

  function Escape(token: string): string {
    if token == "" then ""
    else (if token[0] == '~' then "~0" else if token[0] == '/' then "~1" else [token[0]]) + Escape(token[1..])
  }

  lemma {:induction false} EscapedHasNoSlash(token: string)
    ensures '/' !in Escape(token)
  {
    if token != "" {
      EscapedHasNoSlash(token[1..]);
    }
  }

  /** None on a tilde that starts no escape. */
  function Unescape(e: string): Option<string> {
    if e == "" then Some("")
    else if e[0] == '~' then
      if |e| == 1 || (e[1] != '0' && e[1] != '1') then None
      else
        match Unescape(e[2..])
        case None => None
        case Some(rest) => Some([if e[1] == '0' then '~' else '/'] + rest)
    else
      match Unescape(e[1..])
      case None => None
      case Some(rest) => Some([e[0]] + rest)
  }

  lemma {:induction false} UnescapeEscape(token: string)
    ensures Unescape(Escape(token)) == Some(token)
  {
    if token != "" {
      UnescapeEscape(token[1..]);
      assert token == [token[0]] + token[1..];
      var rest := Escape(token[1..]);
      if token[0] == '~' {
        assert ("~0" + rest)[2..] == rest;
      } else if token[0] == '/' {
        assert ("~1" + rest)[2..] == rest;
      } else {
        assert ([token[0]] + rest)[1..] == rest;
      }
    }
  }

  lemma {:induction false} EscapeUnescape(e: string)
    requires '/' !in e && Unescape(e).Some?
    ensures Escape(Unescape(e).value) == e
    decreases |e|
  {
    if e != "" {
      var n := if e[0] == '~' then 2 else 1;
      EscapeUnescape(e[n..]);
      var token := Unescape(e).value;
      assert token[1..] == Unescape(e[n..]).value;
      assert e == e[..n] + e[n..];
    }
  }

  // ------------------------------------------------------------------------
  // Pointers as text
  // ------------------------------------------------------------------------

  function Text(path: Path): string {
    if path == [] then "" else "/" + Escape(path[0]) + Text(path[1..])
  }

  function NextSlash(s: string): (n: nat)
    ensures n <= |s|
    ensures '/' !in s[..n]
    ensures n < |s| ==> s[n] == '/'
  {
    if s == "" || s[0] == '/' then 0 else 1 + NextSlash(s[1..])
  }

  function Parse(s: string): Option<Path>
    decreases |s|
  {
    if s == "" then Some([])
    else if s[0] != '/' then None
    else
      var n := 1 + NextSlash(s[1..]);
      match Unescape(s[1..n])
      case None => None
      case Some(token) =>
        match Parse(s[n..])
        case None => None
        case Some(rest) => Some([token] + rest)
  }

  lemma {:induction false} NextSlashAt(e: string, rest: string)
    requires '/' !in e && (rest == "" || rest[0] == '/')
    ensures NextSlash(e + rest) == |e|
  {
    if e == "" {
      assert e + rest == rest;
    } else {
      assert (e + rest)[1..] == e[1..] + rest;
      NextSlashAt(e[1..], rest);
    }
  }

  function Behind(path: Path, more: Option<Path>): Option<Path> {
    if more.None? then None else Some(path + more.value)
  }

  /** The first token of a pointer, and what follows it. */
  lemma ParseFirst(s: string, n: nat, token: string)
    requires s != "" && s[0] == '/' && n == 1 + NextSlash(s[1..])
    requires Unescape(s[1..n]) == Some(token)
    ensures Parse(s) == Behind([token], Parse(s[n..]))
  {
  }

  lemma Slices(e: string, rest: string)
    ensures ("/" + e + rest)[0] == '/'
    ensures ("/" + e + rest)[1..] == e + rest
    ensures ("/" + e + rest)[1..1 + |e|] == e
    ensures ("/" + e + rest)[1 + |e|..] == rest
  {
  }

  lemma ParseStep(token: string, rest: string)
    requires rest == "" || rest[0] == '/'
    ensures Parse("/" + Escape(token) + rest) == Behind([token], Parse(rest))
  {
    var e := Escape(token);
    EscapedHasNoSlash(token);
    NextSlashAt(e, rest);
    UnescapeEscape(token);
    Slices(e, rest);
    ParseFirst("/" + e + rest, 1 + |e|, token);
  }

  lemma BehindCons(path: Path, more: Option<Path>)
    requires path != []
    ensures Behind([path[0]], Behind(path[1..], more)) == Behind(path, more)
  {
    if more.Some? {
      assert [path[0]] + (path[1..] + more.value) == path + more.value;
    }
  }

  lemma TextCons(path: Path, rest: string)
    requires path != []
    ensures Text(path) + rest == "/" + Escape(path[0]) + (Text(path[1..]) + rest)
  {
    Regroup("/" + Escape(path[0]), Text(path[1..]), rest);
  }

  /** Printed tokens in front of a pointer are read back as those tokens. */
  lemma {:induction false} ParseAppend(path: Path, rest: string)
    requires rest == "" || rest[0] == '/'
    ensures Parse(Text(path) + rest) == Behind(path, Parse(rest))
    decreases |path|
  {
    if path == [] {
      assert Text(path) + rest == rest;
      if Parse(rest).Some? {
        assert path + Parse(rest).value == Parse(rest).value;
      }
    } else {
      var tail := Text(path[1..]) + rest;
      TextStartsWithSlash(path[1..]);
      calc {
        Parse(Text(path) + rest);
        { TextCons(path, rest); }
        Parse("/" + Escape(path[0]) + tail);
        { ParseStep(path[0], tail); }
        Behind([path[0]], Parse(tail));
        { ParseAppend(path[1..], rest); }
        Behind([path[0]], Behind(path[1..], Parse(rest)));
        { BehindCons(path, Parse(rest)); }
        Behind(path, Parse(rest));
      }
    }
  }

  lemma TextStartsWithSlash(path: Path)
    ensures Text(path) == "" || Text(path)[0] == '/'
  {
  }

  lemma ParseText(path: Path)
    ensures Parse(Text(path)) == Some(path)
  {
    ParseAppend(path, "");
    assert Text(path) + "" == Text(path);
    assert path + [] == path;
  }

  lemma {:induction false} TextParse(s: string)
    requires Parse(s).Some?
    ensures Text(Parse(s).value) == s
    decreases |s|
  {
    if s != "" {
      var n := 1 + NextSlash(s[1..]);
      assert s[1..n] == s[1..][..n - 1];
      EscapeUnescape(s[1..n]);
      TextParse(s[n..]);
      var path := Parse(s).value;
      assert path[1..] == Parse(s[n..]).value && Escape(path[0]) == s[1..n];
      Reassembled(s, n);
      assert Text(path) == "/" + Escape(path[0]) + Text(path[1..]);
    }
  }

  lemma Reassembled(s: string, n: nat)
    requires 1 <= n <= |s| && s[0] == '/'
    ensures "/" + s[1..n] + s[n..] == s
  {
  }

  lemma {:induction false} TextConcat(a: Path, b: Path)
    ensures Text(a + b) == Text(a) + Text(b)
  {
    if a == [] {
      assert a + b == b;
    } else {
      assert (a + b)[1..] == a[1..] + b;
      TextConcat(a[1..], b);
    }
  }

  lemma TextInjective(a: Path, b: Path)
    requires Text(a) == Text(b)
    ensures a == b
  {
    ParseText(a);
    ParseText(b);
  }

  lemma ContinuedText(a: Path, b: Path)
    requires Text(a) + "/" <= Text(b)
    ensures a <= b
  {
    var rest := Text(b)[|Text(a)|..];
    assert rest[0] == (Text(a) + "/")[|Text(a)|];
    assert Text(b) == Text(a) + rest;
    ParseText(b);
    ParseAppend(a, rest);
  }

  lemma PrefixText(a: Path, b: Path)
    requires a <= b
    ensures Text(b) == Text(a) || Text(a) + "/" <= Text(b)
  {
    TextConcat(a, b[|a|..]);
    assert b == a + b[|a|..];
  }

  /** A reference text equals another, or continues it at a slash, exactly when the one
      token path is a prefix of the other. */
  lemma TextPrefix(a: Path, b: Path)
    ensures (Text(b) == Text(a) || Text(a) + "/" <= Text(b)) <==> a <= b
  {
    if a <= b {
      PrefixText(a, b);
    } else if Text(b) == Text(a) {
      TextInjective(a, b);
    } else if Text(a) + "/" <= Text(b) {
      ContinuedText(a, b);
    }
  }

  /** A local reference: a hash followed by a pointer. */
  function ParseRef(ref: string): Option<Path> {
    if ref == "" || ref[0] != '#' then None else Parse(ref[1..])
  }

  function RefText(path: Path): string {
    "#" + Text(path)
  }

  lemma RefRoundTrip(path: Path)
    ensures ParseRef(RefText(path)) == Some(path)
  {
    ParseText(path);
    assert RefText(path)[1..] == Text(path);
  }
}
