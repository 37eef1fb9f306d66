/** Placeholders of the form `<name>` in a text, and the passes that replace them. */
module Tags {
  import opened GoStrings
  import opened Results
  import opened Specs

  // ---- One pass over one name ------------------------------------------------------------------

  /** A substitution pass over a text: the fields of one loop item under the cumulative path of its
      loop, where an unresolved name collects the item's index (`index` is None outside every
      loop); or the modifications of a rule, keyed by the name between the brackets. */
  datatype Pass =
    | ItemFields(path: string, item: Fields, index: Option<nat>)
    | Modifications(values: map<string, string>)

  datatype Outcome = Done(text: string) | Pending(name: string)

  predicate IsMarkerName(name: string) {
    name == "FGT_FOR_STR" || name == "FGT_FOR_END" || HasPrefix(name, "FGT_FOR_STR")
  }

  predicate IsPlain(v: Value) {
    v.Scalar? || v.Null?
  }

  function FieldPath(path: string, key: string): string {
    if path == "" then key else path + "_" + key
  }

  /** The scalar or null field of `item` whose cumulative path is `tag`. */
  function FieldNamed(tag: string, path: string, item: Fields): Option<Value> {
    var prefix := FieldPath(path, "");
    var key := TrimPrefix(tag, prefix);
    if HasPrefix(tag, prefix) && key in item && IsPlain(item[key]) then Some(item[key]) else None
  }

  /** What one pass makes of `<name>`. A null field is printed as `<nil>`, so what it leaves behind
      is again a placeholder, named nil. */
  function Step(name: string, pass: Pass): Outcome {
    match pass
    case Modifications(values) =>
      if name in values then Done(values[name]) else Pending(name)
    case ItemFields(path, item, index) =>
      if IsMarkerName(name) then Pending(name)
      else
        match FieldNamed(ToUpper(TrimPrefix(name, "FGT_")), path, item)
        case Some(Scalar(text)) => Done(text)
        case Some(_) => Pending("nil")
        case None => Pending(if index.Some? then name + "_" + Itoa(index.value) else name)
  }

  /** Several passes, the first one first; a later pass sees a name as the earlier ones left it. */
  function Resolve(name: string, passes: seq<Pass>): Outcome
    decreases |passes|
  {
    if passes == [] then Pending(name)
    else
      match Step(name, passes[0])
      case Done(text) => Done(text)
      case Pending(next) => Resolve(next, passes[1..])
  }

  function Continue(o: Outcome, passes: seq<Pass>): Outcome {
    if o.Done? then o else Resolve(o.name, passes)
  }

  function Show(o: Outcome): string {
    match o
    case Done(text) => text
    case Pending(name) => "<" + name + ">"
  }

  // ---- The scanner -----------------------------------------------------------------------------

  /** The length of the leftmost match of `<([^>]+)>` when it starts at the front of `s`, else 1. */
  function HeadLength(s: string): (n: nat)
    requires s != ""
    ensures 1 <= n <= |s|
    ensures n > 1 <==> s[0] == '<' && IndexChar(s, '>', 1) >= 2
    ensures n > 1 ==> n >= 3 && s[n - 1] == '>'
  {
    var close := IndexChar(s, '>', 1);
    if s[0] == '<' && close >= 2 then close + 1 else 1
  }

  function HeadText(s: string, passes: seq<Pass>): string
    requires s != ""
  {
    var n := HeadLength(s);
    if n > 1 then Show(Resolve(s[1..n - 1], passes)) else s[..1]
  }

  /** Every placeholder of `s` replaced by what `passes` make of its name, in one scan of `s`. */
  function MapTags(s: string, passes: seq<Pass>): string
    decreases |s|
  {
    if s == "" then "" else HeadText(s, passes) + MapTags(s[HeadLength(s)..], passes)
  }

  /** A `<` at the front of `s` opens a placeholder whose name is not empty and holds no `<`. */
  predicate HeadIsWhole(s: string)
    requires s != ""
  {
    s[0] == '<' ==> HeadLength(s) > 1 && '<' !in s[1..HeadLength(s) - 1]
  }

  /** Every `<` of `s` opens such a placeholder. */
  predicate TagComplete(s: string)
    decreases |s|
  {
    s == "" || (HeadIsWhole(s) && TagComplete(s[HeadLength(s)..]))
  }

  lemma HeadName(s: string)
    requires s != "" && HeadIsWhole(s) && HeadLength(s) > 1
    ensures LegalName(s[1..HeadLength(s) - 1])
  {
    var n := HeadLength(s);
    assert forall i :: 1 <= i < n - 1 ==> s[1..n - 1][i - 1] == s[i];
  }

  predicate LegalName(name: string) {
    name != "" && '<' !in name && '>' !in name
  }

  // ---- Concatenating and cutting tag-complete texts --------------------------------------------

  lemma HeadConcat(a: string, b: string)
    requires a != "" && HeadIsWhole(a)
    ensures HeadLength(a + b) == HeadLength(a) && HeadIsWhole(a + b)
    ensures a[HeadLength(a)..] + b == (a + b)[HeadLength(a)..]
  {
    if a[0] == '<' {
      var c := IndexChar(a, '>', 1);
      var d := IndexChar(a + b, '>', 1);
      assert (a + b)[c] == '>';
      assert forall i :: 1 <= i < c ==> (a + b)[i] == a[i];
      assert c == d;
      assert (a + b)[1..c] == a[1..c];
    }
  }

  lemma {:induction false} TagCompleteConcat(a: string, b: string)
    requires TagComplete(a) && TagComplete(b)
    ensures TagComplete(a + b)
    decreases |a|
  {
    hide HeadIsWhole, HeadLength;
    if a == "" {
      assert a + b == b;
    } else {
      HeadConcat(a, b);
      TagCompleteConcat(a[HeadLength(a)..], b);
    }
  }

  lemma HeadTextConcat(a: string, b: string, passes: seq<Pass>)
    requires a != "" && HeadIsWhole(a)
    ensures HeadText(a + b, passes) == HeadText(a, passes)
  {
    HeadConcat(a, b);
    var n := HeadLength(a);
    assert n > 1 ==> (a + b)[1..n - 1] == a[1..n - 1];
    assert (a + b)[..1] == a[..1];
  }

  lemma {:induction false} MapTagsConcat(a: string, b: string, passes: seq<Pass>)
    requires TagComplete(a)
    ensures MapTags(a + b, passes) == MapTags(a, passes) + MapTags(b, passes)
    decreases |a|
  {
    hide HeadIsWhole, HeadLength, HeadText;
    if a == "" {
      assert a + b == b;
    } else {
      HeadConcat(a, b);
      HeadTextConcat(a, b, passes);
      var rest := a[HeadLength(a)..];
      MapTagsConcat(rest, b, passes);
      var h, x, y := HeadText(a, passes), MapTags(rest, passes), MapTags(b, passes);
      assert h + (x + y) == (h + x) + y;
    }
  }

  lemma {:induction false} NoBracketComplete(s: string)
    requires '<' !in s
    ensures TagComplete(s)
    decreases |s|
  {
    if s != "" {
      NoBracketComplete(s[1..]);
    }
  }

  lemma SingleTag(name: string, rest: string)
    requires LegalName(name)
    ensures var s := "<" + name + ">" + rest;
            HeadLength(s) == |name| + 2 && s[1..|name| + 1] == name && s[|name| + 2..] == rest
  {
    var s := "<" + name + ">" + rest;
    assert s[|name| + 1] == '>';
    assert forall i :: 1 <= i < |name| + 1 ==> s[i] == name[i - 1];
    assert IndexChar(s, '>', 1) == |name| + 1;
    assert s[1..|name| + 1] == name && s[|name| + 2..] == rest;
  }

  lemma SingleTagComplete(name: string)
    requires LegalName(name)
    ensures TagComplete("<" + name + ">")
  {
    SingleTag(name, "");
    assert "<" + name + ">" + "" == "<" + name + ">";
  }

  lemma HeadBeforeBracket(s: string, p: nat)
    requires s != "" && HeadIsWhole(s) && 0 < p <= |s| && (p < |s| ==> s[p] == '<')
    ensures HeadLength(s) <= p
  {
    var n := HeadLength(s);
    if n > 1 {
      assert s[n - 1] != '<';
      assert forall i :: 1 <= i < n - 1 ==> s[1..n - 1][i - 1] == s[i];
    }
  }

  lemma HeadComplete(s: string)
    requires s != "" && HeadIsWhole(s)
    ensures TagComplete(s[..HeadLength(s)])
  {
    var n := HeadLength(s);
    if n == 1 {
      NoBracketComplete(s[..1]);
    } else {
      HeadName(s);
      SingleTagComplete(s[1..n - 1]);
      assert "<" + s[1..n - 1] + ">" == s[..n];
    }
  }

  lemma {:induction false} TagCompleteDrop(s: string, p: nat)
    requires TagComplete(s) && p <= |s| && (p < |s| ==> s[p] == '<')
    ensures TagComplete(s[p..])
    decreases |s|
  {
    hide HeadIsWhole, HeadLength;
    if p == 0 {
      assert s[p..] == s;
    } else {
      HeadBeforeBracket(s, p);
      var n := HeadLength(s);
      TagCompleteDrop(s[n..], p - n);
      assert s[n..][p - n..] == s[p..];
    }
  }

  lemma {:induction false} TagCompleteTake(s: string, p: nat)
    requires TagComplete(s) && p <= |s| && (p < |s| ==> s[p] == '<')
    ensures TagComplete(s[..p])
    decreases |s|
  {
    hide HeadIsWhole, HeadLength;
    if p > 0 {
      HeadBeforeBracket(s, p);
      var n := HeadLength(s);
      assert TagComplete(s[..n] + s[n..][..p - n]) by {
        TagCompleteTake(s[n..], p - n);
        HeadComplete(s);
        TagCompleteConcat(s[..n], s[n..][..p - n]);
      }
      assert s[..n] + s[n..][..p - n] == s[..p];
    }
  }

  lemma {:induction false} WithoutLast(s: string)
    requires TagComplete(s) && s != "" && s[|s| - 1] != '>'
    ensures TagComplete(s[..|s| - 1])
    decreases |s|
  {
    hide HeadIsWhole, HeadLength;
    var n := HeadLength(s);
    if n == |s| {
      assert s[..|s| - 1] == "";
    } else {
      var rest := s[n..];
      WithoutLast(rest);
      HeadComplete(s);
      TagCompleteConcat(s[..n], rest[..|rest| - 1]);
      assert s[..n] + rest[..|rest| - 1] == s[..|s| - 1];
    }
  }

  lemma {:induction false} TrimRightKeepsComplete(s: string)
    requires TagComplete(s)
    ensures TagComplete(TrimRightSpace(s))
  {
    hide TagComplete;
    if s != "" && IsSpace(s[|s| - 1]) {
      WithoutLast(s);
      TrimRightKeepsComplete(s[..|s| - 1]);
    }
  }

  lemma {:induction false} TrimLeftKeepsComplete(s: string)
    requires TagComplete(s)
    ensures TagComplete(TrimLeftSpace(s))
  {
    if s != "" && IsSpace(s[0]) {
      TrimLeftKeepsComplete(s[1..]);
    }
  }

  /** Trimming the file, as the engine does first, keeps a template tag-complete. */
  lemma TrimKeepsComplete(s: string)
    requires TagComplete(s)
    ensures TagComplete(TrimSpace(s))
  {
    TrimLeftKeepsComplete(s);
    TrimRightKeepsComplete(TrimLeftSpace(s));
  }

  // ---- Composing passes ------------------------------------------------------------------------

  /** No text the pass can put in contains `<`. */
  ghost predicate CleanPass(pass: Pass) {
    match pass
    case Modifications(values) => forall k :: k in values ==> '<' !in values[k]
    case ItemFields(_, item, _) => forall k :: k in item && item[k].Scalar? ==> '<' !in item[k].text
  }

  ghost predicate CleanPasses(passes: seq<Pass>) {
    forall p :: p in passes ==> CleanPass(p)
  }

  lemma StepKeepsLegal(name: string, pass: Pass)
    requires LegalName(name) && CleanPass(pass)
    ensures Step(name, pass).Pending? ==> LegalName(Step(name, pass).name)
    ensures Step(name, pass).Done? ==> '<' !in Step(name, pass).text
  {
    if pass.ItemFields? && pass.index.Some? {
      var digits := Itoa(pass.index.value);
      assert '<' !in digits && '>' !in digits;
    }
  }

  lemma {:induction false} ResolveKeepsLegal(name: string, passes: seq<Pass>)
    requires LegalName(name) && CleanPasses(passes)
    ensures Resolve(name, passes).Pending? ==> LegalName(Resolve(name, passes).name)
    ensures Resolve(name, passes).Done? ==> '<' !in Resolve(name, passes).text
    decreases |passes|
  {
    if passes != [] {
      StepKeepsLegal(name, passes[0]);
      var o := Step(name, passes[0]);
      if o.Pending? {
        ResolveKeepsLegal(o.name, passes[1..]);
      }
    }
  }

  lemma {:induction false} ResolveConcat(name: string, first: seq<Pass>, later: seq<Pass>)
    ensures Resolve(name, first + later) == Continue(Resolve(name, first), later)
    decreases |first|
  {
    if first == [] {
      assert first + later == later;
    } else {
      assert (first + later)[1..] == first[1..] + later;
      var o := Step(name, first[0]);
      if o.Pending? {
        ResolveConcat(o.name, first[1..], later);
      }
    }
  }

  lemma {:induction false} MapTagsPlain(s: string, passes: seq<Pass>)
    requires '<' !in s
    ensures MapTags(s, passes) == s
    decreases |s|
  {
    if s != "" {
      MapTagsPlain(s[1..], passes);
      assert s[..1] + s[1..] == s;
    }
  }

  lemma ShownComplete(o: Outcome)
    requires o.Pending? ==> LegalName(o.name)
    requires o.Done? ==> '<' !in o.text
    ensures TagComplete(Show(o))
  {
    match o
    case Done(text) => NoBracketComplete(text);
    case Pending(name) => SingleTagComplete(name);
  }

  lemma RescanShown(o: Outcome, passes: seq<Pass>)
    requires o.Pending? ==> LegalName(o.name)
    requires o.Done? ==> '<' !in o.text
    ensures MapTags(Show(o), passes) ==
            Show(Continue(o, passes))
  {
    match o
    case Done(text) => MapTagsPlain(text, passes);
    case Pending(name) =>
      SingleTag(name, "");
      assert "<" + name + ">" + "" == Show(o);
  }

  lemma HeadTextTwice(s: string, first: seq<Pass>, later: seq<Pass>)
    requires s != "" && HeadIsWhole(s) && CleanPasses(first)
    ensures TagComplete(HeadText(s, first))
    ensures MapTags(HeadText(s, first), later) == HeadText(s, first + later)
  {
    var n := HeadLength(s);
    if n > 1 {
      var name := s[1..n - 1];
      var o := Resolve(name, first);
      HeadName(s);
      ResolveKeepsLegal(name, first);
      ShownComplete(o);
      RescanShown(o, later);
      ResolveConcat(name, first, later);
    } else {
      NoBracketComplete(s[..1]);
      MapTagsPlain(s[..1], later);
    }
  }

  /** Scanning the outcome of one series of passes with a second series is one scan with both: on a
      tag-complete text and data free of `<`, rescanning never meets anything but the names the
      first series left pending. */
  lemma {:induction false} MapTagsTwice(s: string, first: seq<Pass>, later: seq<Pass>)
    requires TagComplete(s) && CleanPasses(first)
    ensures TagComplete(MapTags(s, first))
    ensures MapTags(MapTags(s, first), later) == MapTags(s, first + later)
    decreases |s|
  {
    hide HeadIsWhole, HeadLength, HeadText, CleanPasses;
    if s != "" {
      var rest := s[HeadLength(s)..];
      HeadTextTwice(s, first, later);
      MapTagsTwice(rest, first, later);
      TagCompleteConcat(HeadText(s, first), MapTags(rest, first));
      MapTagsConcat(HeadText(s, first), MapTags(rest, first), later);
    }
  }

  lemma HeadTextNoPasses(s: string)
    requires s != ""
    ensures HeadText(s, []) == s[..HeadLength(s)]
  {
    var n := HeadLength(s);
    if n > 1 {
      assert "<" + s[1..n - 1] + ">" == s[..n];
    }
  }

  lemma {:induction false} NoPasses(s: string)
    ensures MapTags(s, []) == s
    decreases |s|
  {
    hide HeadLength, HeadText;
    if s != "" {
      var n := HeadLength(s);
      HeadTextNoPasses(s);
      NoPasses(s[n..]);
      assert s[..n] + s[n..] == s;
    }
  }

  // ---- How a field is written in a template ----------------------------------------------------

  /** At most one key of an item can match a tag, whatever order the keys are visited in. */
  lemma FieldPathIsUnique(tag: string, path: string, item: Fields, key: string)
    requires key in item && IsPlain(item[key]) && FieldPath(path, key) == tag
    ensures FieldNamed(tag, path, item) == Some(item[key])
  {
    var prefix := FieldPath(path, "");
    assert tag == prefix + key;
    assert TrimPrefix(tag, prefix) == key;
  }

  /** What the pass compares with the cumulative paths: the name in upper case, without the prefix `FGT_`,
      which it takes off only when it is written in upper case. */
  predicate Names(name: string, path: string, key: string) {
    ToUpper(TrimPrefix(name, "FGT_")) == FieldPath(path, key)
  }

  /** A name is replaced exactly when it names a scalar field, and then by the text of that field. */
  lemma FieldIsFound(name: string, path: string, item: Fields, index: Option<nat>)
    requires !IsMarkerName(name)
    ensures Step(name, ItemFields(path, item, index)).Done? <==>
            exists key :: key in item && item[key].Scalar? && Names(name, path, key)
    ensures forall key :: key in item && item[key].Scalar? && Names(name, path, key) ==>
              Step(name, ItemFields(path, item, index)) == Done(item[key].text)
  {
    var tag := ToUpper(TrimPrefix(name, "FGT_"));
    forall key | key in item && item[key].Scalar? && Names(name, path, key)
      ensures FieldNamed(tag, path, item) == Some(item[key])
    {
      FieldPathIsUnique(tag, path, item, key);
    }
    if !exists key :: key in item && IsPlain(item[key]) && Names(name, path, key) {
      NoFieldNamed(tag, path, item);
    }
  }

  /** In any case a field's own path names the field, unless it is written with the prefix in front; with
      the prefix added in front it does so exactly when the prefix is in upper case. */
  lemma SpellingsOfAField(name: string, path: string, key: string)
    ensures ToUpper(name) == FieldPath(path, key) ==> (Names(name, path, key) <==> !HasPrefix(name, "FGT_"))
    ensures ToUpper(name) == "FGT_" + FieldPath(path, key) ==> (Names(name, path, key) <==> HasPrefix(name, "FGT_"))
  {
    if HasPrefix(name, "FGT_") {
      assert ToUpper(name)[4..] == ToUpper(name[4..]);
      assert ("FGT_" + FieldPath(path, key))[4..] == FieldPath(path, key);
    }
  }

  /** The prefix in lower case is not taken off, and the placeholder stays. */
  lemma LowerCasePrefixStays()
    ensures Step("fgt_hostname", ItemFields("", map["HOSTNAME" := Scalar("x")], None)) == Pending("fgt_hostname")
    ensures Step("FGT_hostname", ItemFields("", map["HOSTNAME" := Scalar("x")], None)) == Done("x")
  {
    var item := map["HOSTNAME" := Scalar("x")];
    var upper := ToUpper("FGT_hostname"[4..]);
    assert upper == "HOSTNAME";
    assert "FGT_hostname"[7] == 't' && "fgt_hostname"[0] == 'f' && "FGT_FOR_STR"[0] == 'F' && "FGT_FOR_STR"[4] == 'F';
    FieldPathIsUnique("HOSTNAME", "", item, "HOSTNAME");
    assert |ToUpper("fgt_hostname")| != |"HOSTNAME"|;
    NoFieldNamed(ToUpper("fgt_hostname"), "", item);
  }

  /** An item that is no object is found as the field VALUE of its loop, unless the path of the loop makes
      that name begin with the prefix the pass takes off. */
  lemma ScalarItemIsValue(text: string, path: string, index: Option<nat>)
    requires path != "" && ToUpper(path) == path
    ensures ResolveItem(Scalar(text)).Some?
    ensures Step(path + "_VALUE", ItemFields(path, ResolveItem(Scalar(text)).value, index)) == Done(text) <==>
            !HasPrefix(path + "_VALUE", "FGT_")
  {
    var name := path + "_VALUE";
    var item := ResolveItem(Scalar(text)).value;
    ToUpperConcat(path, "_VALUE");
    assert ToUpper("_VALUE") == "_VALUE";
    assert name == FieldPath(path, "VALUE");
    if HasPrefix(name, "FGT_") {
      var tag := ToUpper(TrimPrefix(name, "FGT_"));
      assert |tag| < |name|;
      NoFieldNamed(tag, path, item);
    } else {
      assert !HasPrefix(name, "FGT_FOR_STR") by {
        assert "FGT_FOR_STR"[..4] == "FGT_";
      }
      assert name != "FGT_FOR_END" by {
        assert "FGT_FOR_END"[..4] == "FGT_";
      }
      assert TrimPrefix(name, "FGT_") == name;
      FieldPathIsUnique(name, path, item, "VALUE");
    }
  }

  /** A null field is printed as `<nil>`, and the passes of the enclosing loops go on with that name. */
  lemma NullFieldIsScannedAgain(name: string, path: string, item: Fields, key: string, index: Option<nat>,
                                later: seq<Pass>)
    requires key in item && item[key].Null? && !IsMarkerName(name)
    requires ToUpper(TrimPrefix(name, "FGT_")) == FieldPath(path, key)
    ensures Resolve(name, [ItemFields(path, item, index)] + later) == Resolve("nil", later)
  {
    FieldPathIsUnique(FieldPath(path, key), path, item, key);
    assert ([ItemFields(path, item, index)] + later)[1..] == later;
  }

  // ---- The engine's substitution methods -------------------------------------------------------

  lemma NoFieldNamed(tag: string, path: string, item: Fields)
    requires forall k :: k in item && IsPlain(item[k]) ==> FieldPath(path, k) != tag
    ensures FieldNamed(tag, path, item) == None
  {
    var prefix := FieldPath(path, "");
    if HasPrefix(tag, prefix) {
      assert tag == prefix + TrimPrefix(tag, prefix);
      assert FieldPath(path, TrimPrefix(tag, prefix)) == tag;
    }
  }

  method SubstituteTag(name: string, path: string, item: Fields, index: Option<nat>) returns (r: string)
    ensures r == Show(Step(name, ItemFields(path, item, index)))
  {
    hide FieldNamed, Itoa, TrimPrefix, ToUpper;
    if name == "FGT_FOR_STR" || name == "FGT_FOR_END" || HasPrefix(name, "FGT_FOR_STR") {
      return "<" + name + ">";
    }
    var tag := ToUpper(TrimPrefix(name, "FGT_"));
    var rest := item.Keys;
    while rest != {}
      invariant rest <= item.Keys
      invariant forall k :: k in item && k !in rest && IsPlain(item[k]) ==> FieldPath(path, k) != tag
    {
      var key :| key in rest;
      rest := rest - {key};
      var v := item[key];
      if v.List? || v.Obj? {
        continue;
      }
      var expected := if path == "" then key else path + "_" + key;
      if tag == expected {
        FieldPathIsUnique(tag, path, item, key);
        if v.Scalar? {
          return v.text;
        }
        return "<nil>";
      }
    }
    NoFieldNamed(tag, path, item);
    r := if index.Some? then "<" + (name + "_" + Itoa(index.value)) + ">" else "<" + name + ">";
  }

  lemma SinglePass(name: string, pass: Pass)
    ensures Resolve(name, [pass]) == Step(name, pass)
  {
    var o := Step(name, pass);
    assert o.Pending? ==> Resolve(o.name, [pass][1..]) == o;
  }

  lemma SinglePassHead(s: string, pass: Pass)
    requires s != ""
    ensures HeadText(s, [pass]) ==
            if HeadLength(s) > 1 then Show(Step(s[1..HeadLength(s) - 1], pass)) else s[..1]
  {
    if HeadLength(s) > 1 {
      SinglePass(s[1..HeadLength(s) - 1], pass);
    }
  }

  /** `ReplaceAllStringFunc` with the tag expression and the callback above. */
  method ReplaceTags(text: string, path: string, item: Fields, index: Option<nat>) returns (r: string)
    ensures r == MapTags(text, [ItemFields(path, item, index)])
  {
    hide HeadText, Step;
    ghost var passes := [ItemFields(path, item, index)];
    var rest := text;
    r := "";
    while rest != ""
      invariant MapTags(text, passes) == r + MapTags(rest, passes)
      decreases |rest|
    {
      var n := HeadLength(rest);
      var head := rest[..1];
      if n > 1 {
        head := SubstituteTag(rest[1..n - 1], path, item, index);
      }
      assert head == HeadText(rest, passes) by {
        SinglePassHead(rest, passes[0]);
      }
      var next := rest[n..];
      assert r + (head + MapTags(next, passes)) == (r + head) + MapTags(next, passes);
      r := r + head;
      rest := next;
    }
  }

  method ProcessVariables(text: string, index: nat, item: Fields, path: string) returns (r: string)
    ensures r == MapTags(text, [ItemFields(path, item, Some(index))])
  {
    r := ReplaceTags(text, path, item, Some(index));
  }

  method ProcessVariablesNoSuffix(text: string, item: Fields, path: string) returns (r: string)
    ensures r == MapTags(text, [ItemFields(path, item, None)])
  {
    r := ReplaceTags(text, path, item, None);
  }

  // ---- What a chain of passes makes of a name --------------------------------------------------

  /** The name as a pass that does not match it leaves it. */
  function Suffix(name: string, pass: Pass): string {
    if pass.ItemFields? && pass.index.Some? then name + "_" + Itoa(pass.index.value) else name
  }

  function Suffixed(name: string, passes: seq<Pass>): string
    decreases |passes|
  {
    if passes == [] then name else Suffixed(Suffix(name, passes[0]), passes[1..])
  }

  /** The pass holds a value for the name. */
  predicate Matches(name: string, pass: Pass) {
    match pass
    case Modifications(values) => name in values
    case ItemFields(path, item, _) => FieldNamed(ToUpper(TrimPrefix(name, "FGT_")), path, item).Some?
  }

  lemma SuffixIsNoMarker(name: string, pass: Pass)
    requires !IsMarkerName(name)
    ensures !IsMarkerName(Suffix(name, pass))
  {
    if pass.ItemFields? && pass.index.Some? {
      var digits := Itoa(pass.index.value);
      var s := name + "_" + digits;
      assert digits[0] in digits && digits[|digits| - 1] in digits;
      assert s[|name|] == '_' && s[|name| + 1] == digits[0] && s[|s| - 1] == digits[|digits| - 1];
      var word := "FGT_FOR_STR";
      assert s != "FGT_FOR_END" by {
        assert "FGT_FOR_END"[10] == 'D';
      }
      if |name| < |word| && |s| >= |word| {
        assert |name| + 1 < |word| ==> word[|name|] != '_' || word[|name| + 1] != digits[0];
        assert |name| + 1 == |word| ==> word[|name|] == 'R';
      }
      assert |name| >= |word| ==> s[..|word|] == name[..|word|];
    }
  }

  lemma SuffixedNext(name: string, passes: seq<Pass>, k: nat)
    requires k < |passes|
    ensures Suffixed(Suffix(name, passes[0]), passes[1..][..k]) == Suffixed(name, passes[..k + 1])
  {
    assert passes[..k + 1][1..] == passes[1..][..k];
  }

  lemma StepUnmatched(name: string, pass: Pass)
    requires !IsMarkerName(name) && !Matches(name, pass)
    ensures Step(name, pass) == Pending(Suffix(name, pass))
  {
  }

  lemma ResolveStep(name: string, passes: seq<Pass>)
    requires passes != []
    ensures Resolve(name, passes) == Continue(Step(name, passes[0]), passes[1..])
  {
  }

  /** A name takes its value at the first pass, innermost outward, that matches the name as the
      passes before it have suffixed it. */
  lemma {:induction false} ResolvedAtFirstMatch(name: string, passes: seq<Pass>, k: nat)
    requires k < |passes| && !IsMarkerName(name)
    requires forall j :: 0 <= j < k ==> !Matches(Suffixed(name, passes[..j]), passes[j])
    requires Matches(Suffixed(name, passes[..k]), passes[k])
    ensures Resolve(name, passes) == Continue(Step(Suffixed(name, passes[..k]), passes[k]), passes[k + 1..])
    decreases |passes|
  {
    hide Matches, Suffix, IsMarkerName, Step;
    assert passes[..0] == [];
    if k == 0 {
      ResolveStep(name, passes);
    } else {
      StepUnmatched(name, passes[0]);
      assert !Matches(Suffixed(name, passes[..0]), passes[0]);
      var next := Suffix(name, passes[0]);
      SuffixIsNoMarker(name, passes[0]);
      forall j | 0 <= j < |passes| - 1
        ensures Suffixed(next, passes[1..][..j]) == Suffixed(name, passes[..j + 1])
      {
        SuffixedNext(name, passes, j);
      }
      ResolvedAtFirstMatch(next, passes[1..], k - 1);
      assert passes[1..][k..] == passes[k + 1..];
    }
  }

  /** A name that matches at no pass ends with the indices of all of them, innermost first. */
  lemma {:induction false} UnresolvedCollectsIndices(name: string, passes: seq<Pass>)
    requires !IsMarkerName(name)
    requires forall j :: 0 <= j < |passes| ==> !Matches(Suffixed(name, passes[..j]), passes[j])
    ensures Resolve(name, passes) == Pending(Suffixed(name, passes))
    decreases |passes|
  {
    if passes != [] {
      assert passes[..0] == [];
      assert !Matches(Suffixed(name, passes[..0]), passes[0]);
      var next := Suffix(name, passes[0]);
      SuffixIsNoMarker(name, passes[0]);
      forall j | 0 <= j < |passes| - 1
        ensures Suffixed(next, passes[1..][..j]) == Suffixed(name, passes[..j + 1])
      {
        SuffixedNext(name, passes, j);
      }
      UnresolvedCollectsIndices(next, passes[1..]);
    }
  }

  /** What becomes of a null field inside other loops: unless one of them has a field that matches, `nil` with
      the indices of all of them; so it stays `<nil>` exactly when none of them has an index. */
  lemma NullCollectsIndices(name: string, path: string, item: Fields, key: string, index: Option<nat>, later: seq<Pass>)
    requires key in item && item[key].Null? && !IsMarkerName(name) && Names(name, path, key)
    requires forall j :: 0 <= j < |later| ==> !Matches(Suffixed("nil", later[..j]), later[j])
    ensures Resolve(name, [ItemFields(path, item, index)] + later) == Pending(Suffixed("nil", later))
    ensures Suffixed("nil", later) == "nil" <==> forall j :: 0 <= j < |later| ==> !HasIndex(later[j])
  {
    hide Matches, IsMarkerName, Resolve, Suffixed, HasIndex, ToUpper, TrimPrefix, FieldPath;
    NilIsNoMarker();
    NullFieldIsScannedAgain(name, path, item, key, index, later);
    UnresolvedCollectsIndices("nil", later);
    SuffixedGrowsIff("nil", later);
  }

  lemma NilIsNoMarker()
    ensures !IsMarkerName("nil")
  {
    assert "FGT_FOR_STR"[0] == 'F' && "nil"[0] == 'n';
  }

  predicate HasIndex(pass: Pass) {
    pass.ItemFields? && pass.index.Some?
  }

  lemma {:induction false} SuffixedGrowsIff(name: string, passes: seq<Pass>)
    ensures |Suffixed(name, passes)| >= |name|
    ensures Suffixed(name, passes) == name <==> forall j :: 0 <= j < |passes| ==> !HasIndex(passes[j])
    decreases |passes|
  {
    if passes != [] {
      SuffixedGrowsIff(Suffix(name, passes[0]), passes[1..]);
      assert forall j :: 0 < j < |passes| ==> passes[j] == passes[1..][j - 1];
    }
  }

  /** An input: a null field of an inner loop's item, in the second item of the outer loop. */
  lemma NullInInnerLoop()
    ensures Resolve("A_B_N", [ItemFields("A_B", map["N" := Null], Some(1)), ItemFields("A", map[], Some(2))]) ==
            Pending("nil_2")
  {
    var inner, outer := ItemFields("A_B", map["N" := Null], Some(1)), ItemFields("A", map[], Some(2));
    assert [inner, outer] == [inner] + [outer];
    assert !HasPrefix("A_B_N", "FGT_") && !HasPrefix("A_B_N", "FGT_FOR_STR") by {
      assert "FGT_"[0] == 'F' && "FGT_FOR_STR"[0] == 'F' && "A_B_N"[0] == 'A';
    }
    assert ToUpper("A_B_N") == "A_B_N" == FieldPath("A_B", "N");
    assert [outer][..0] == [];
    NullCollectsIndices("A_B_N", "A_B", map["N" := Null], "N", Some(1), [outer]);
    assert [outer][1..] == [];
    assert Suffix("nil", outer) == "nil_2";
  }

  // ---- The scanner, whatever the text ----------------------------------------------------------

  lemma PlaceholderAtFront(n: string, b: string)
    requires n != "" && '>' !in n
    ensures var s := "<" + n + ">" + b;
            HeadLength(s) == |n| + 2 && s[1..|n| + 1] == n && s[|n| + 2..] == b
  {
    var s := "<" + n + ">" + b;
    assert s[|n| + 1] == '>';
    assert forall i :: 1 <= i < |n| + 1 ==> s[i] == n[i - 1];
    assert IndexChar(s, '>', 1) == |n| + 1;
    assert s[1..|n| + 1] == n && s[|n| + 2..] == b;
  }

  lemma ScanChar(s: string, passes: seq<Pass>)
    requires s != "" && s[0] != '<'
    ensures MapTags(s, passes) == s[..1] + MapTags(s[1..], passes)
  {
  }

  lemma ScanPlaceholder(n: string, b: string, passes: seq<Pass>)
    requires n != "" && '>' !in n
    ensures MapTags("<" + n + ">" + b, passes) == Show(Resolve(n, passes)) + MapTags(b, passes)
  {
    hide HeadLength, Resolve;
    PlaceholderAtFront(n, b);
  }

  /** The first bracketed name that is not empty is replaced; text in front of it stays; the scan goes on
      behind it. The name reaches from the first `<` to the next `>`. */
  lemma {:induction false} FirstPlaceholder(a: string, n: string, b: string, passes: seq<Pass>)
    requires '<' !in a && n != "" && '>' !in n
    ensures MapTags(a + ("<" + n + ">") + b, passes) == a + Show(Resolve(n, passes)) + MapTags(b, passes)
    decreases |a|
  {
    hide Resolve, MapTags, Show;
    var s, shown, more := a + ("<" + n + ">") + b, Show(Resolve(n, passes)), MapTags(b, passes);
    if a == "" {
      assert s == "<" + n + ">" + b;
      ScanPlaceholder(n, b, passes);
      assert "" + shown + more == shown + more;
    } else {
      var rest := a[1..];
      assert s[1..] == rest + ("<" + n + ">") + b && s[0] == a[0] && s[..1] == a[..1];
      ScanChar(s, passes);
      FirstPlaceholder(rest, n, b, passes);
      assert a[..1] + (rest + shown + more) == a + shown + more;
    }
  }

  /** Without a closing bracket there is nothing to replace, and an empty pair of brackets is no placeholder. */
  lemma {:induction false} NothingToScan(s: string, passes: seq<Pass>)
    ensures '>' !in s ==> MapTags(s, passes) == s
    ensures MapTags("<>" + s, passes) == "<" + MapTags(">" + s, passes)
    decreases |s|
  {
    if '>' !in s && s != "" {
      assert IndexChar(s, '>', 1) == -1;
      NothingToScan(s[1..], passes);
      assert s[..1] + s[1..] == s;
    }
    var t := "<>" + s;
    assert t[1] == '>' && IndexChar(t, '>', 1) == 1 && t[1..] == ">" + s && t[..1] == "<";
  }

  /** Loop markers, and every name that begins like a start marker, are left alone by the items' passes. */
  lemma MarkersStay(rest: string, path: string, item: Fields, index: Option<nat>)
    ensures Step("FGT_FOR_STR" + rest, ItemFields(path, item, index)) == Pending("FGT_FOR_STR" + rest)
    ensures Step("FGT_FOR_END", ItemFields(path, item, index)) == Pending("FGT_FOR_END")
    ensures IsMarkerName("FGT_FOR_END" + rest) ==> rest == ""
  {
    hide FieldNamed, Itoa;
    assert ("FGT_FOR_STR" + rest)[..11] == "FGT_FOR_STR";
    assert ("FGT_FOR_END" + rest)[8] == 'E' && "FGT_FOR_STR"[8] == 'S';
    assert |"FGT_FOR_END" + rest| == 11 + |rest|;
  }
}
