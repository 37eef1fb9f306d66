/** Resource specs as generic values, and the two ways of finding a list in one:
    the engine's underscore path over upper-cased keys and the rules' dotted path. */
module Specs {
  import opened GoStrings
  import opened Results

  type Fields = map<string, Value>

  /** A decoded JSON value. A scalar keeps the text that `%v` prints for it. */
  datatype Value = Null | Scalar(text: string) | List(items: seq<Value>) | Obj(fields: map<string, Value>)

  // ---- Upper-casing the keys -------------------------------------------------------------------

  /** `u` is `v` with every key in upper case. Go visits a map in any order, so when two keys of `v`
      differ only in case either of them may be the one that is kept. */
  ghost predicate UpperCased(v: Value, u: Value) {
    match v
    case Null => u == Null
    case Scalar(_) => u == v
    case List(items) =>
      u.List? && |u.items| == |items| && forall i :: 0 <= i < |items| ==> UpperCased(items[i], u.items[i])
    case Obj(fields) =>
      && u.Obj?
      && (forall k :: k in fields ==> ToUpper(k) in u.fields)
      && (forall n :: n in u.fields ==>
            exists k :: k in fields && ToUpper(k) == n && UpperCased(fields[k], u.fields[n]))
  }

  method NormalizeKeys(v: Value) returns (u: Value)
    ensures UpperCased(v, u)
    decreases v
  {
    match v
    case Null => u := v;
    case Scalar(_) => u := v;
    case List(items) =>
      var done: seq<Value> := [];
      while |done| < |items|
        invariant |done| <= |items|
        invariant forall i :: 0 <= i < |done| ==> UpperCased(items[i], done[i])
      {
        var item := NormalizeKeys(items[|done|]);
        done := done + [item];
      }
      u := List(done);
    case Obj(fields) =>
      var renamed: map<string, Value> := map[];
      var rest := fields.Keys;
      while rest != {}
        invariant rest <= fields.Keys
        invariant forall k :: k in fields && k !in rest ==> ToUpper(k) in renamed
        invariant forall n :: n in renamed ==>
            exists k :: k in fields && ToUpper(k) == n && UpperCased(fields[k], renamed[n])
      {
        var k :| k in rest;
        var item := NormalizeKeys(fields[k]);
        ghost var before := renamed;
        renamed := renamed[ToUpper(k) := item];
        rest := rest - {k};
        forall n | n in renamed
          ensures exists k' :: k' in fields && ToUpper(k') == n && UpperCased(fields[k'], renamed[n])
        {
          if n == ToUpper(k) {
            assert k in fields && UpperCased(fields[k], renamed[n]);
          } else {
            assert n in before && renamed[n] == before[n];
          }
        }
      }
      u := Obj(renamed);
  }

  // ---- Items and paths -------------------------------------------------------------------------

  /** What a loop iterates over: an object as it is, any other value as an object with the one key
      VALUE; null items are skipped. */
  function ResolveItem(item: Value): Option<Fields> {
    match item
    case Obj(fields) => Some(fields)
    case Null => None
    case _ => Some(map["VALUE" := item])
  }

  /** Following `keys` one object at a time. */
  function Walk(v: Value, keys: seq<string>): Option<Value> {
    if keys == [] then Some(v)
    else if v.Obj? && keys[0] in v.fields then Walk(v.fields[keys[0]], keys[1..])
    else None
  }

  function AsList(v: Option<Value>): Option<seq<Value>> {
    if v.Some? && v.value.List? then Some(v.value.items) else None
  }

  /** The list a loop tag names: a field of exactly that name if it is a list, otherwise the list
      at the end of the path that the underscores of the tag spell. */
  function ListAt(container: Fields, tag: string): Option<seq<Value>> {
    if tag in container && container[tag].List? then Some(container[tag].items)
    else if |Split(tag, '_')| < 2 then None
    else AsList(Walk(Obj(container), Split(tag, '_')))
  }

  method ResolveListPath(container: Fields, tag: string) returns (r: Option<seq<Value>>)
    ensures r == ListAt(container, tag)
  {
    if tag in container {
      var v := container[tag];
      if v.List? {
        return Some(v.items);
      }
    }
    var parts := Split(tag, '_');
    if |parts| < 2 {
      return None;
    }
    var cur := Obj(container);
    for i := 0 to |parts|
      invariant Walk(Obj(container), parts) == Walk(cur, parts[i..])
    {
      if !cur.Obj? || parts[i] !in cur.fields {
        return None;
      }
      assert parts[i..][1..] == parts[i + 1..];
      cur := cur.fields[parts[i]];
    }
    r := if cur.List? then Some(cur.items) else None;
  }

  function NonEmpty(parts: seq<string>): seq<string> {
    if parts == [] then []
    else if parts[0] == "" then NonEmpty(parts[1..])
    else [parts[0]] + NonEmpty(parts[1..])
  }

  /** The value at a dotted path: an optional `spec.` prefix and empty segments do not count. */
  function RawAt(data: Fields, path: string): Option<Value> {
    Walk(Obj(data), NonEmpty(Split(TrimPrefix(path, "spec."), '.')))
  }

  method LookupRawPath(data: Fields, path: string) returns (r: Option<Value>)
    ensures r == RawAt(data, path)
  {
    var parts := Split(TrimPrefix(path, "spec."), '.');
    var cur := Obj(data);
    for i := 0 to |parts|
      invariant RawAt(data, path) == Walk(cur, NonEmpty(parts[i..]))
    {
      assert parts[i..][1..] == parts[i + 1..];
      if parts[i] == "" {
        continue;
      }
      if !cur.Obj? || parts[i] !in cur.fields {
        return None;
      }
      cur := cur.fields[parts[i]];
    }
    r := Some(cur);
  }

  /** The text a mapping's path stands for, None when it leads to no scalar. The prefix `spec.` is
      taken off here and once more by the walk itself. */
  function TextAt(crName: string, data: Fields, path: string): Option<string> {
    if path == "$cr.name" then Some(crName)
    else
      var rest := TrimPrefix(path, "spec.");
      if rest == "" then None
      else
        match RawAt(data, rest)
        case Some(Scalar(text)) => Some(text)
        case _ => None
  }

  method LookupPath(crName: string, data: Fields, path: string) returns (r: Option<string>)
    ensures r == TextAt(crName, data, path)
  {
    if path == "$cr.name" {
      return Some(crName);
    }
    var rest := TrimPrefix(path, "spec.");
    if rest == "" {
      return None;
    }
    var cur := LookupRawPath(data, rest);
    match cur
    case Some(Scalar(text)) => r := Some(text);
    case _ => r := None;
  }

  // ---- The two kinds of path name the same list ------------------------------------------------

  /** No object on the way down has two keys that differ only in case. */
  ghost predicate CaseDistinct(v: Value) {
    v.Obj? ==>
      && (forall k, k' :: k in v.fields && k' in v.fields && ToUpper(k) == ToUpper(k') ==> k == k')
      && (forall k :: k in v.fields ==> CaseDistinct(v.fields[k]))
  }

  predicate PlainKey(k: string) {
    k != "" && '.' !in k && '_' !in k
  }

  function UpperAll(keys: seq<string>): (r: seq<string>)
    ensures |r| == |keys|
  {
    if keys == [] then [] else [ToUpper(keys[0])] + UpperAll(keys[1..])
  }

  lemma {:induction false} WalkUpperCased(v: Value, u: Value, keys: seq<string>)
    requires UpperCased(v, u) && CaseDistinct(v)
    requires Walk(v, keys).Some?
    ensures Walk(u, UpperAll(keys)).Some?
    ensures UpperCased(Walk(v, keys).value, Walk(u, UpperAll(keys)).value)
  {
    if keys != [] {
      var k := keys[0];
      var n := ToUpper(k);
      assert n in u.fields;
      assert UpperCased(v.fields[k], u.fields[n]);
      WalkUpperCased(v.fields[k], u.fields[n], keys[1..]);
      assert UpperAll(keys)[1..] == UpperAll(keys[1..]);
    }
  }

  lemma {:induction false} ToUpperJoin(keys: seq<string>)
    ensures ToUpper(Join(keys, '_')) == Join(UpperAll(keys), '_')
  {
    if |keys| > 1 {
      ToUpperJoin(keys[1..]);
      ToUpperConcat(keys[0] + ['_'], Join(keys[1..], '_'));
      ToUpperConcat(keys[0], ['_']);
      assert ToUpper(['_']) == ['_'];
      assert UpperAll(keys)[1..] == UpperAll(keys[1..]);
    }
  }

  lemma {:induction false} PlainUpperAll(keys: seq<string>)
    requires forall k :: k in keys ==> '_' !in k
    ensures forall k :: k in UpperAll(keys) ==> '_' !in k
  {
    if keys != [] {
      PlainUpperAll(keys[1..]);
      assert '_' !in keys[0];
      assert forall i :: 0 <= i < |keys[0]| ==> ToUpper(keys[0])[i] == UpperChar(keys[0][i]);
    }
  }

  lemma {:induction false} NonEmptyAll(parts: seq<string>)
    requires "" !in parts
    ensures NonEmpty(parts) == parts
  {
    if parts != [] {
      NonEmptyAll(parts[1..]);
    }
  }

  lemma FirstDot(keys: seq<string>)
    requires keys != [] && PlainKey(keys[0])
    ensures HasPrefix(Join(keys, '.'), "spec.") ==> keys[0] == "spec"
  {
    var s := Join(keys, '.');
    assert forall i :: 0 <= i < |keys[0]| ==> s[i] == keys[0][i] != '.';
    assert |keys| > 1 ==> s[|keys[0]|] == '.';
    assert HasPrefix(s, "spec.") ==> s[4] == '.' && s[..4] == "spec";
    assert s[..|keys[0]|] == keys[0];
  }

  /** A dotted path of plain keys walks exactly those keys, with or without the `spec.` prefix. */
  lemma DottedPathWalks(data: Fields, keys: seq<string>)
    requires keys != [] && forall k :: k in keys ==> PlainKey(k)
    requires keys[0] != "spec"
    ensures RawAt(data, Join(keys, '.')) == Walk(Obj(data), keys)
    ensures RawAt(data, "spec." + Join(keys, '.')) == Walk(Obj(data), keys)
  {
    var path := Join(keys, '.');
    SplitJoin(keys, '.');
    NonEmptyAll(keys);
    FirstDot(keys);
    assert ("spec." + path)[|"spec."|..] == path;
  }

  /** An underscore path of plain keys walks exactly those keys of the upper-cased spec. */
  lemma UnderscorePathWalks(spec: Fields, up: Fields, keys: seq<string>)
    requires keys != [] && forall k :: k in keys ==> PlainKey(k)
    requires UpperCased(Obj(spec), Obj(up))
    requires forall k :: k in spec ==> '_' !in k
    ensures ListAt(up, ToUpper(Join(keys, '_'))) == AsList(Walk(Obj(up), UpperAll(keys)))
  {
    var tag := ToUpper(Join(keys, '_'));
    ToUpperJoin(keys);
    PlainUpperAll(keys);
    SplitJoin(UpperAll(keys), '_');
    if |keys| == 1 {
      assert UpperAll(keys) == [tag];
      assert Walk(Obj(up), [tag]) == if tag in up then Some(up[tag]) else None;
    } else {
      assert tag[|UpperAll(keys)[0]|] == '_';
      forall k | k in spec
        ensures ToUpper(k) != tag
      {
        PlainUpperAll([k]);
        assert '_' !in UpperAll([k])[0];
      }
    }
  }

  /** The other way round: what the upper-cased spec has at the upper-cased keys comes from a path that is
      `keys` up to case. */
  lemma {:induction false} UpperWalkComesFrom(v: Value, u: Value, keys: seq<string>) returns (exact: seq<string>)
    requires UpperCased(v, u) && Walk(u, UpperAll(keys)).Some?
    ensures UpperAll(exact) == UpperAll(keys) && Walk(v, exact).Some?
    ensures UpperCased(Walk(v, exact).value, Walk(u, UpperAll(keys)).value)
  {
    if keys == [] {
      exact := [];
    } else {
      var n := ToUpper(keys[0]);
      assert UpperAll(keys)[1..] == UpperAll(keys[1..]);
      assert n in u.fields;
      var k :| k in v.fields && ToUpper(k) == n && UpperCased(v.fields[k], u.fields[n]);
      var rest := UpperWalkComesFrom(v.fields[k], u.fields[n], keys[1..]);
      exact := [k] + rest;
      assert exact[1..] == rest;
    }
  }

  /** A list at `exact`, a spelling of `keys` in whatever case. */
  ghost predicate ListSpelled(spec: Fields, keys: seq<string>, exact: seq<string>) {
    UpperAll(exact) == UpperAll(keys) && AsList(Walk(Obj(spec), exact)).Some?
  }

  /** The template's upper-cased underscore path finds a list exactly when the spec has one at a path that
      is `keys` up to case, and the list it finds is that one, with the same length and at each index the
      same value up to upper-cased keys. The rule's dotted path finds a list exactly when the spec has
      one at `keys` as they are written. */
  lemma PathsNameTheSameList(spec: Fields, up: Fields, keys: seq<string>)
    requires keys != [] && forall k :: k in keys ==> PlainKey(k)
    requires keys[0] != "spec"
    requires UpperCased(Obj(spec), Obj(up)) && CaseDistinct(Obj(spec))
    requires forall k :: k in spec ==> '_' !in k
    ensures RawAt(spec, "spec." + Join(keys, '.')) == RawAt(spec, Join(keys, '.'))
    ensures var rule, engine := AsList(RawAt(spec, Join(keys, '.'))), ListAt(up, ToUpper(Join(keys, '_')));
            && (engine.Some? <==> exists exact :: ListSpelled(spec, keys, exact))
            && (forall exact :: ListSpelled(spec, keys, exact) ==>
                  UpperCased(List(AsList(Walk(Obj(spec), exact)).value), List(engine.value)))
            && (rule.Some? <==> ListSpelled(spec, keys, keys))
            && (rule.Some? ==> engine.Some? && UpperCased(List(rule.value), List(engine.value)))
  {
    hide RawAt, ListAt, Join, Walk, UpperAll, PlainKey, CaseDistinct;
    DottedPathWalks(spec, keys);
    UnderscorePathWalks(spec, up, keys);
    if ListAt(up, ToUpper(Join(keys, '_'))).Some? {
      var exact := UpperWalkComesFrom(Obj(spec), Obj(up), keys);
      SameShape(Walk(Obj(spec), exact).value, Walk(Obj(up), UpperAll(keys)).value);
      assert ListSpelled(spec, keys, exact);
    }
    forall exact | ListSpelled(spec, keys, exact)
      ensures AsList(Walk(Obj(up), UpperAll(keys))).Some?
      ensures UpperCased(List(AsList(Walk(Obj(spec), exact)).value), List(AsList(Walk(Obj(up), UpperAll(keys))).value))
    {
      WalkUpperCased(Obj(spec), Obj(up), exact);
      SameShape(Walk(Obj(spec), exact).value, Walk(Obj(up), UpperAll(keys)).value);
    }
  }

  lemma SameShape(v: Value, u: Value)
    requires UpperCased(v, u)
    ensures v.List? <==> u.List?
  {
  }

  /** Both find a list or neither does, unless the list field spells the path in another case than the
      spec: then the engine alone finds the list, and the rule fails after the engine has split the template. */
  lemma PathsAgreeIff(spec: Fields, up: Fields, keys: seq<string>)
    requires keys != [] && forall k :: k in keys ==> PlainKey(k)
    requires keys[0] != "spec"
    requires UpperCased(Obj(spec), Obj(up)) && CaseDistinct(Obj(spec))
    requires forall k :: k in spec ==> '_' !in k
    ensures (AsList(RawAt(spec, Join(keys, '.'))).Some? <==> ListAt(up, ToUpper(Join(keys, '_'))).Some?) <==>
            forall exact :: ListSpelled(spec, keys, exact) ==> exact == keys
  {
    PathsNameTheSameList(spec, up, keys);
    forall exact | ListSpelled(spec, keys, exact) && ListSpelled(spec, keys, keys)
      ensures exact == keys
    {
      OneSpelling(Obj(spec), keys, exact);
    }
  }

  lemma {:induction false} OneSpelling(v: Value, a: seq<string>, b: seq<string>)
    requires CaseDistinct(v) && UpperAll(a) == UpperAll(b) && Walk(v, a).Some? && Walk(v, b).Some?
    ensures a == b
    decreases |a|
  {
    assert |a| == |UpperAll(a)| == |b|;
    if a != [] {
      assert UpperAll(a)[1..] == UpperAll(a[1..]) && UpperAll(b)[1..] == UpperAll(b[1..]);
      assert UpperAll(a)[0] == ToUpper(a[0]) && UpperAll(b)[0] == ToUpper(b[0]);
      OneSpelling(v.fields[a[0]], a[1..], b[1..]);
      assert a == [a[0]] + a[1..] && b == [b[0]] + b[1..];
    }
  }

  /** An input at which they disagree: the list field says `List`, the resource `list`. */
  lemma CaseOfListFieldMatters()
    ensures var spec, up := map["list" := List([])], map["LIST" := List([])];
            && UpperCased(Obj(spec), Obj(up)) && CaseDistinct(Obj(spec))
            && RawAt(spec, "List") == None && ListAt(up, ToUpper("List")) == Some([])
  {
    hide RawAt, Split, Join;
    assert ToUpper("list") == "LIST" && ToUpper("List") == "LIST";
    OneKey(map["list" := List([])], "list", "LIST");
    assert "List"[0] != "list"[0];
    DottedKey(map["list" := List([])], "List");
  }

  lemma OneKey(spec: Fields, k: string, n: string)
    requires spec == map[k := List([])] && ToUpper(k) == n
    ensures UpperCased(Obj(spec), Obj(map[n := List([])])) && CaseDistinct(Obj(spec))
  {
    hide ToUpper;
    assert UpperCased(spec[k], map[n := List([])][n]);
  }

  lemma DottedKey(spec: Fields, k: string)
    requires PlainKey(k) && k != "spec"
    ensures RawAt(spec, k) == if k in spec then Some(spec[k]) else None
  {
    hide RawAt;
    JoinOne(k);
    DottedPathWalks(spec, [k]);
  }

  lemma JoinOne(key: string)
    ensures Join([key], '.') == key
  {
  }
}
