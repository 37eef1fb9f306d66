/** How a spec is looked into, key by key, and what upper-casing its keys does to it. */
module SpecLaws {
  import opened GoStrings
  import opened Results
  import opened Specs

  // ---- Key by key ------------------------------------------------------------------------------

  /** What a key of an object leads to, when that is an object again. */
  function Inside(fields: Fields, k: string): Option<Fields> {
    if k in fields && fields[k].Obj? then Some(fields[k].fields) else None
  }

  lemma NonEmptyStep(part: string, parts: seq<string>)
    ensures NonEmpty([part] + parts) == if part == "" then NonEmpty(parts) else [part] + NonEmpty(parts)
  {
    assert ([part] + parts)[1..] == parts;
  }

  lemma WalkStep(data: Fields, k: string, keys: seq<string>)
    requires keys != []
    ensures Walk(Obj(data), [k] + keys) ==
            match Inside(data, k)
            case Some(inner) => Walk(Obj(inner), keys)
            case None => None
  {
    assert ([k] + keys)[1..] == keys;
  }

  lemma {:induction false} SplitOfSomething(s: string, sep: char)
    requires exists c :: c in s && c != sep
    ensures NonEmpty(Split(s, sep)) != []
    decreases |s|
  {
    var i := IndexChar(s, sep, 0);
    if i == -1 {
      assert NonEmpty([s]) == [s] + NonEmpty([s][1..]);
    } else {
      assert s == s[..i] + [sep] + s[i + 1..];
      NonEmptyStep(s[..i], Split(s[i + 1..], sep));
      if i == 0 {
        SplitOfSomething(s[i + 1..], sep);
      }
    }
  }

  /** A dotted path is followed one key after the other, from the left, inside the objects of the spec. */
  lemma DottedPathStep(data: Fields, k: string, rest: string)
    requires PlainKey(k) && k != "spec" && !HasPrefix(rest, "spec.")
    requires exists c :: c in rest && c != '.'
    ensures RawAt(data, k) == if k in data then Some(data[k]) else None
    ensures RawAt(data, k + "." + rest) ==
            match Inside(data, k)
            case Some(inner) => RawAt(inner, rest)
            case None => None
  {
    hide Walk, Split;
    DottedKey(data, k);
    var path := k + "." + rest;
    PathIsNoPrefix(k, rest);
    SplitFirst(k, rest, '.');
    assert path == k + ['.'] + rest;
    NonEmptyStep(k, Split(rest, '.'));
    SplitOfSomething(rest, '.');
    WalkStep(data, k, NonEmpty(Split(rest, '.')));
  }

  /** `spec.` in front and dots too many make no difference. */
  lemma DottedPathNoise(data: Fields, rest: string)
    ensures !HasPrefix(rest, "spec.") ==> RawAt(data, "spec." + rest) == RawAt(data, rest)
    ensures !HasPrefix(rest, "spec.") && !HasPrefix("." + rest, "spec.") ==>
              RawAt(data, "." + rest) == RawAt(data, rest)
  {
    hide Walk, Split;
    TrimPrefixIs(rest, "spec.");
    SplitFirst("", rest, '.');
    assert "" + ['.'] + rest == "." + rest;
    NonEmptyStep("", Split(rest, '.'));
  }

  /** An underscore path is followed the same way, unless a field of exactly that name is a list. */
  lemma UnderscorePathStep(spec: Fields, k: string, rest: string)
    requires '_' !in k
    ensures ListAt(spec, k) == if k in spec && spec[k].List? then Some(spec[k].items) else None
    ensures var tag := k + "_" + rest;
            ListAt(spec, tag) ==
            if tag in spec && spec[tag].List? then Some(spec[tag].items)
            else
              match Inside(spec, k)
              case Some(inner) => AsList(Walk(Obj(inner), Split(rest, '_')))
              case None => None
  {
    hide Walk, Split;
    var tag := k + "_" + rest;
    assert tag == k + ['_'] + rest;
    SplitFirst(k, rest, '_');
    WalkStep(spec, k, Split(rest, '_'));
    assert |Split(k, '_')| < 2;
  }

  /** Below the first key too. */
  lemma UnderscoreWalkStep(inner: Fields, k: string, rest: string)
    requires '_' !in k
    ensures AsList(Walk(Obj(inner), Split(k, '_'))) ==
            if k in inner && inner[k].List? then Some(inner[k].items) else None
    ensures AsList(Walk(Obj(inner), Split(k + "_" + rest, '_'))) ==
            match Inside(inner, k)
            case Some(deeper) => AsList(Walk(Obj(deeper), Split(rest, '_')))
            case None => None
  {
    hide Split;
    assert k + "_" + rest == k + ['_'] + rest;
    SplitFirst(k, rest, '_');
    WalkStep(inner, k, Split(rest, '_'));
    assert [k][1..] == [];
  }

  /** A mapping's path gives the resource's own name for `$cr.name`, the text of a scalar, and nothing for
      null, lists, objects, and paths that lead nowhere or name nothing. */
  lemma MappedText(crName: string, data: Fields, k: string)
    requires PlainKey(k) && k != "spec"
    ensures TextAt(crName, data, "$cr.name") == Some(crName)
    ensures TextAt(crName, data, "") == None && TextAt(crName, data, "spec.") == None
    ensures k in data && data[k].Scalar? ==>
              TextAt(crName, data, k) == TextAt(crName, data, "spec." + k) == Some(data[k].text)
    ensures !(k in data && data[k].Scalar?) ==> TextAt(crName, data, k) == TextAt(crName, data, "spec." + k) == None
  {
    hide RawAt;
    TrimPrefixIs(k, "spec.");
    TrimPrefixIs("", "spec.");
    assert "spec." + "" == "spec.";
    PlainKeyIsNoPath(k);
    DottedKey(data, k);
    assert "$cr.name"[0] == '$' && "spec."[0] == 's';
  }

  lemma PlainKeyIsNoPath(k: string)
    requires PlainKey(k)
    ensures !HasPrefix(k, "spec.") && k != "$cr.name"
  {
    assert forall i :: 0 <= i < |k| ==> k[i] in k;
    assert "$cr.name"[3] == '.' && "spec."[4] == '.';
  }

  /** Two keys deep, as in the shipped rules. */
  lemma MappedTextTwoKeysDeep(crName: string, data: Fields, k: string, j: string)
    requires PlainKey(k) && k != "spec" && PlainKey(j) && j != "spec"
    ensures TextAt(crName, data, "spec." + (k + "." + j)) ==
            match Inside(data, k)
            case Some(inner) => if j in inner && inner[j].Scalar? then Some(inner[j].text) else None
            case None => None
  {
    hide RawAt;
    var path := k + "." + j;
    TrimPrefixIs(path, "spec.");
    PlainKeyIsNoPath(j);
    assert j[0] in j && j[0] != '.';
    DottedPathStep(data, k, j);
    if Inside(data, k).Some? {
      DottedKey(Inside(data, k).value, j);
    }
    PathIsNoPrefix(k, j);
    assert "spec."[0] == 's' && "$cr.name"[0] == '$';
  }

  lemma PathIsNoPrefix(k: string, rest: string)
    requires PlainKey(k) && k != "spec"
    ensures !HasPrefix(k + "." + rest, "spec.")
  {
    assert [k, rest][1..] == [rest];
    assert k + ['.'] + rest == k + "." + rest == Join([k, rest], '.');
    FirstDot([k, rest]);
  }

  // ---- Upper-cased specs -----------------------------------------------------------------------

  /** Every key at every depth, in lists too, is in upper case. */
  ghost predicate AllUpper(v: Value) {
    match v
    case Null => true
    case Scalar(_) => true
    case List(items) => forall i :: 0 <= i < |items| ==> AllUpper(items[i])
    case Obj(fields) => forall k :: k in fields ==> ToUpper(k) == k && AllUpper(fields[k])
  }

  lemma {:induction false} UpperCasedIsUpper(v: Value, u: Value)
    requires UpperCased(v, u)
    ensures AllUpper(u)
    decreases v
  {
    match v
    case Null =>
    case Scalar(_) =>
    case List(items) =>
      forall i | 0 <= i < |items| {
        UpperCasedIsUpper(items[i], u.items[i]);
      }
    case Obj(fields) =>
      forall n | n in u.fields
        ensures ToUpper(n) == n && AllUpper(u.fields[n])
      {
        var k :| k in fields && ToUpper(k) == n && UpperCased(fields[k], u.fields[n]);
        UpperCasedIsUpper(fields[k], u.fields[n]);
      }
  }

  /** Nothing but keys changes: a scalar or null at a path is at the upper-cased path, a list there is a list
      of the same length, and so it is again inside the items of the list. */
  lemma UpperCasedKeeps(v: Value, u: Value, keys: seq<string>)
    requires UpperCased(v, u) && CaseDistinct(v) && Walk(v, keys).Some?
    ensures Walk(u, UpperAll(keys)).Some?
    ensures var x, y := Walk(v, keys).value, Walk(u, UpperAll(keys)).value;
            && (x.Scalar? || x.Null? ==> y == x)
            && (x.Obj? <==> y.Obj?)
            && (x.List? <==> y.List?)
            && (x.List? ==>
                  && |y.items| == |x.items|
                  && forall i :: 0 <= i < |x.items| ==> UpperCased(x.items[i], y.items[i]))
  {
    WalkUpperCased(v, u, keys);
  }
}
