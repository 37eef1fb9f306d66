/** The second pass over a generated file: `strings.ReplaceAll` once for each modification, in the order
    Go happens to visit a map. */
module Replacements {
  import opened GoStrings
  import opened Results
  import opened Tags
  import opened Disks

  datatype Modification = Modification(oldValue: string, newValue: string)

  /** `strings.ReplaceAll`: every occurrence from left to right; an empty `old` matches before each
      character and at the end. */
  function ReplaceAll(s: string, oldText: string, newText: string): string {
    if oldText == "" then (if s == "" then newText else newText + s[..1] + ReplaceAll(s[1..], oldText, newText))
    else if s == "" then ""
    else if OccursAt(s, oldText, 0) then newText + ReplaceAll(s[|oldText|..], oldText, newText)
    else s[..1] + ReplaceAll(s[1..], oldText, newText)
  }

  function ReplaceEach(s: string, mods: seq<Modification>): string
    decreases |mods|
  {
    if mods == [] then s
    else ReplaceEach(ReplaceAll(s, mods[0].oldValue, mods[0].newValue), mods[1..])
  }

  method ModifyFileValue(disk: Disk, filePath: string, mods: seq<Modification>) returns (r: Result<()>)
    modifies disk
    ensures r.Ok? ==> filePath in old(disk.files)
    ensures r.Ok? ==> disk.files == old(disk.files)[filePath := ReplaceEach(old(disk.files)[filePath], mods)]
    ensures r.Err? ==> r.error == ReadFailed(filePath) || r.error == WriteFailed(filePath)
    ensures r.Err? ==> disk.files - {filePath} == old(disk.files) - {filePath}
    ensures r.Err? && r.error.ReadFailed? ==> disk.files == old(disk.files)
    ensures disk.reliable && filePath in old(disk.files) ==> r.Ok?
  {
    var content := disk.ReadFile(filePath);
    if content.Err? {
      return Err(content.error);
    }
    var modifiedContent := content.value;
    for i := 0 to |mods|
      invariant ReplaceEach(content.value, mods) == ReplaceEach(modifiedContent, mods[i..])
    {
      assert mods[i..][0] == mods[i] && mods[i..][1..] == mods[i + 1..];
      modifiedContent := ReplaceAll(modifiedContent, mods[i].oldValue, mods[i].newValue);
    }
    var info := disk.Stat(filePath);
    if info.Err? {
      return Err(info.error);
    }
    r := disk.WriteFile(filePath, modifiedContent);
  }

  // ---- The order does not matter ---------------------------------------------------------------

  /** The modifications for the placeholders `names`, in that order. */
  function ModsFor(names: seq<string>, values: map<string, string>): seq<Modification>
    requires forall n :: n in names ==> n in values
  {
    if names == [] then []
    else [Modification("<" + names[0] + ">", values[names[0]])] + ModsFor(names[1..], values)
  }

  ghost predicate Distinct(names: seq<string>) {
    forall i, j :: 0 <= i < j < |names| ==> names[i] != names[j]
  }

  /** One of the orders in which Go may visit the keys of `values`. */
  ghost predicate IsOrderOf(names: seq<string>, values: map<string, string>) {
    Distinct(names) && (forall n :: n in names <==> n in values)
  }

  lemma {:induction false} ReplaceSkips(s: string, oldText: string, newText: string, k: nat)
    requires oldText != "" && k <= |s|
    requires forall i: nat :: i < k ==> !OccursAt(s, oldText, i)
    ensures ReplaceAll(s, oldText, newText) == s[..k] + ReplaceAll(s[k..], oldText, newText)
    decreases k
  {
    hide OccursAt, ReplaceAll;
    if k == 0 {
      assert s[0..] == s;
      assert s[..0] == "";
    } else {
      var t := s[1..];
      forall i: nat | i < k - 1
        ensures !OccursAt(t, oldText, i)
      {
        OccursShift(s, oldText, i);
      }
      ReplaceSkips(t, oldText, newText, k - 1);
      ReplaceStep(s, oldText, newText);
      assert t[k - 1..] == s[k..];
      assert s[..k] == s[..1] + t[..k - 1];
      var r := ReplaceAll(s[k..], oldText, newText);
      assert s[..1] + (t[..k - 1] + r) == s[..k] + r;
    }
  }

  lemma ReplaceStep(s: string, oldText: string, newText: string)
    requires oldText != "" && s != "" && !OccursAt(s, oldText, 0)
    ensures ReplaceAll(s, oldText, newText) == s[..1] + ReplaceAll(s[1..], oldText, newText)
  {
  }

  lemma OccursShift(s: string, pat: string, i: nat)
    requires |s| > 0
    ensures OccursAt(s[1..], pat, i) <==> OccursAt(s, pat, i + 1)
  {
    hide OccursAt;
    OccursAtIsSlice(s[1..], pat, i);
    OccursAtIsSlice(s, pat, i + 1);
    if i + 1 + |pat| <= |s| {
      SliceOfSlice(s, 1, |s|, i, i + |pat|);
      assert s[1..|s|] == s[1..];
    }
  }

  lemma TagOccursOnlyAtBracket(s: string, name: string, i: nat)
    requires i < |s| && s[i] != '<'
    ensures !OccursAt(s, "<" + name + ">", i)
  {
    hide OccursAt;
    var tag := "<" + name + ">";
    OccursAtIsSlice(s, tag, i);
    if i + |tag| <= |s| {
      assert s[i..i + |tag|][0] == s[i];
    }
  }

  /** `<name>` stands at the front of a tag-complete text exactly when that is the first placeholder. */
  lemma TagAtFront(s: string, name: string)
    requires s != "" && HeadIsWhole(s) && s[0] == '<' && LegalName(name)
    ensures OccursAt(s, "<" + name + ">", 0) <==> s[1..HeadLength(s) - 1] == name
    ensures s[1..HeadLength(s) - 1] == name ==> HeadLength(s) == |name| + 2
  {
    hide OccursAt;
    var tag := "<" + name + ">";
    var n := HeadLength(s);
    OccursAtIsSlice(s, tag, 0);
    if s[1..n - 1] == name {
      assert s[0..0 + |tag|] == [s[0]] + s[1..n - 1] + [s[n - 1]];
    } else if OccursAt(s, tag, 0) {
      assert s == tag + s[|tag|..];
      SingleTag(name, s[|tag|..]);
    }
  }

  /** On a tag-complete text, replacing all occurrences of `<name>` is one scan for that placeholder. */
  lemma ReplaceIsPass(s: string, name: string, value: string)
    requires TagComplete(s) && LegalName(name)
    ensures ReplaceAll(s, "<" + name + ">", value) == MapTags(s, [Modifications(map[name := value])])
  {
    hide TagComplete, ReplaceAll, MapTags;
    EmptyModifications(s);
    ReplaceOneMore(s, map[], name, value);
  }

  lemma ReplaceInNothing(oldText: string, newText: string)
    requires oldText != ""
    ensures ReplaceAll("", oldText, newText) == ""
  {
  }

  ghost predicate CleanValues(values: map<string, string>) {
    forall n :: n in values ==> LegalName(n) && '<' !in values[n]
  }

  lemma {:induction false} SameOutcomes(s: string, a: seq<Pass>, b: seq<Pass>)
    requires forall name :: Resolve(name, a) == Resolve(name, b)
    ensures MapTags(s, a) == MapTags(s, b)
    decreases |s|
  {
    hide HeadLength, Resolve;
    if s != "" {
      SameOutcomes(s[HeadLength(s)..], a, b);
    }
  }

  /** Followed by any text, `v` brings no placeholder `<name>`: it holds none and does not end in the beginning
      of one. */
  ghost predicate Apart(v: string, name: string) {
    var tag := "<" + name + ">";
    !Holds(v, name) && forall k :: 0 < k < |tag| && k <= |v| ==> v[|v| - k..] != tag[..k]
  }

  /** No value brings a placeholder of another name. */
  ghost predicate ApartValues(values: map<string, string>) {
    && (forall n :: n in values ==> LegalName(n))
    && forall n, m :: n in values && m in values && n != m ==> Apart(values[n], m)
  }

  /** Every order of the modifications gives the same text: the one simultaneous substitution gives.
      Go's random map order does not change the file. */
  lemma OrderDoesNotMatter(text: string, names: seq<string>, values: map<string, string>)
    requires TagComplete(text) && ApartValues(values) && IsOrderOf(names, values)
    ensures ReplaceEach(text, ModsFor(names, values)) == MapTags(text, [Modifications(values)])
  {
    hide TagComplete, MapTags, ReplaceEach, ModsFor, ApartValues;
    EmptyModifications(text);
    ReplaceRest(text, map[], names, values);
  }

  /** The placeholders in `done` are replaced, those in `names` are still to be. */
  lemma {:induction false} ReplaceRest(text: string, done: map<string, string>, names: seq<string>,
                                       values: map<string, string>)
    requires TagComplete(text) && ApartValues(values) && Distinct(names)
    requires forall n :: n in names ==> n in values && n !in done
    requires forall n :: n in values ==> n in done || n in names
    requires forall n :: n in done ==> n in values && done[n] == values[n]
    ensures ReplaceEach(MapTags(text, [Modifications(done)]), ModsFor(names, values)) ==
            MapTags(text, [Modifications(values)])
    decreases |names|
  {
    hide TagComplete, MapTags, ReplaceAll, Apart;
    if names == [] {
      assert done == values;
    } else {
      var n := names[0];
      assert n in names;
      ReplaceOneMore(text, done, n, values[n]);
      assert forall m :: m in names[1..] ==> m in names && m != n;
      assert forall m :: m in names ==> m == n || m in names[1..];
      ReplaceRest(text, done[n := values[n]], names[1..], values);
    }
  }

  /** One replacement more is one value more in the simultaneous substitution. */
  lemma {:induction false} ReplaceOneMore(s: string, done: map<string, string>, m: string, v: string)
    requires TagComplete(s) && LegalName(m) && m !in done && forall n :: n in done ==> Apart(done[n], m)
    ensures ReplaceAll(MapTags(s, [Modifications(done)]), "<" + m + ">", v) ==
            MapTags(s, [Modifications(done[m := v])])
    decreases |s|
  {
    hide HeadIsWhole, HeadLength, HeadText, ReplaceAll, Apart;
    var tag := "<" + m + ">";
    if s == "" {
      ReplaceInNothing(tag, v);
    } else {
      var rest := s[HeadLength(s)..];
      ReplaceOneMore(rest, done, m, v);
      HeadOneMore(s, done, m, v, MapTags(rest, [Modifications(done)]));
    }
  }

  lemma HeadOneMore(s: string, done: map<string, string>, m: string, v: string, rest: string)
    requires s != "" && HeadIsWhole(s)
    requires LegalName(m) && m !in done && forall n :: n in done ==> Apart(done[n], m)
    ensures ReplaceAll(HeadText(s, [Modifications(done)]) + rest, "<" + m + ">", v) ==
            HeadText(s, [Modifications(done[m := v])]) + ReplaceAll(rest, "<" + m + ">", v)
  {
    hide HeadIsWhole, ReplaceAll, Apart, Holds;
    var n, tag := HeadLength(s), "<" + m + ">";
    SinglePassHead(s, Modifications(done));
    SinglePassHead(s, Modifications(done[m := v]));
    if n == 1 {
      assert '<' !in s[..1] by {
        HeadIsPlain(s);
      }
      NoBracketComplete(s[..1]);
      NoBracketHoldsNone(s[..1], m);
      SkipComplete(s[..1], rest, m, v);
    } else {
      var name := s[1..n - 1];
      HeadName(s);
      if name == m {
        ReplaceFront(m, v, rest);
      } else if name in done {
        SkipApart(done[name], rest, m, v);
      } else {
        SingleTagComplete(name);
        PlaceholderHoldsItself(name, m);
        SkipComplete("<" + name + ">", rest, m, v);
      }
    }
  }

  lemma HeadIsPlain(s: string)
    requires s != "" && HeadIsWhole(s) && HeadLength(s) == 1
    ensures '<' !in s[..1]
  {
  }

  lemma ReplaceFront(m: string, v: string, rest: string)
    ensures ReplaceAll("<" + m + ">" + rest, "<" + m + ">", v) == v + ReplaceAll(rest, "<" + m + ">", v)
  {
    hide OccursAt;
    var tag := "<" + m + ">";
    var s := tag + rest;
    OccursAtIsSlice(s, tag, 0);
    assert s[0..0 + |tag|] == tag && s[|tag|..] == rest;
  }

  lemma SkipComplete(h: string, rest: string, m: string, v: string)
    requires TagComplete(h) && LegalName(m) && !Holds(h, m)
    ensures ReplaceAll(h + rest, "<" + m + ">", v) == h + ReplaceAll(rest, "<" + m + ">", v)
  {
    hide ReplaceAll, OccursAt, TagComplete;
    var s := h + rest;
    forall i: nat | i < |h|
      ensures !OccursAt(s, "<" + m + ">", i)
    {
      OccursInConcat(h, rest, m, i);
    }
    ReplaceSkips(s, "<" + m + ">", v, |h|);
    assert s[..|h|] == h && s[|h|..] == rest;
  }

  /** Where `pat` occurs and starts in `h`, it lies in `h` or `h` ends in the beginning of it. */
  lemma OccursAcross(h: string, rest: string, pat: string, i: nat)
    requires i < |h|
    ensures OccursAt(h + rest, pat, i) ==>
              OccursAt(h, pat, i) || exists k :: 0 < k < |pat| && k <= |h| && h[|h| - k..] == pat[..k]
  {
    hide OccursAt;
    var s := h + rest;
    OccursAtIsSlice(s, pat, i);
    OccursAtIsSlice(h, pat, i);
    if OccursAt(s, pat, i) {
      if i + |pat| <= |h| {
        assert s[i..i + |pat|] == h[i..i + |pat|];
      } else {
        var k := |h| - i;
        assert s[i..i + |pat|][..k] == h[i..];
        assert h[|h| - k..] == pat[..k];
      }
    }
  }

  lemma SkipApart(h: string, rest: string, m: string, v: string)
    requires Apart(h, m)
    ensures ReplaceAll(h + rest, "<" + m + ">", v) == h + ReplaceAll(rest, "<" + m + ">", v)
  {
    hide ReplaceAll, OccursAt;
    var s, tag := h + rest, "<" + m + ">";
    forall i: nat | i < |h|
      ensures !OccursAt(s, tag, i)
    {
      OccursAcross(h, rest, tag, i);
    }
    ReplaceSkips(s, tag, v, |h|);
    assert s[..|h|] == h && s[|h|..] == rest;
  }

  /** Values without `<` bring no placeholder at all. */
  lemma CleanIsApart(values: map<string, string>)
    requires CleanValues(values)
    ensures ApartValues(values)
  {
    hide Holds;
    forall n, m | n in values && m in values
      ensures Apart(values[n], m)
    {
      var v, tag := values[n], "<" + m + ">";
      NoBracketHoldsNone(v, m);
      forall k | 0 < k < |tag| && k <= |v|
        ensures v[|v| - k..] != tag[..k]
      {
        assert v[|v| - k..][0] == v[|v| - k] && tag[..k][0] == '<';
      }
    }
  }

  lemma EmptyModifications(text: string)
    ensures MapTags(text, [Modifications(map[])]) == text
  {
    hide MapTags;
    forall name
      ensures Resolve(name, [Modifications(map[])]) == Resolve(name, [])
    {
      SinglePass(name, Modifications(map[]));
    }
    SameOutcomes(text, [Modifications(map[])], []);
    NoPasses(text);
  }

  /** Applying the modifications a second time, in any order, changes nothing. */
  lemma TwiceIsOnce(text: string, names: seq<string>, again: seq<string>, values: map<string, string>)
    requires TagComplete(text) && CleanValues(values) && IsOrderOf(names, values) && IsOrderOf(again, values)
    ensures ReplaceEach(ReplaceEach(text, ModsFor(names, values)), ModsFor(again, values)) ==
            ReplaceEach(text, ModsFor(names, values))
  {
    hide TagComplete, MapTags, ReplaceEach, LegalName, IsOrderOf, Resolve, ApartValues;
    var pass := Modifications(values);
    CleanIsApart(values);
    OrderDoesNotMatter(text, names, values);
    MapTagsTwice(text, [pass], [pass]);
    OrderDoesNotMatter(MapTags(text, [pass]), again, values);
    SamePassTwice(values);
    SameOutcomes(text, [pass] + [pass], [pass]);
  }

  lemma SamePassTwice(values: map<string, string>)
    ensures forall name :: Resolve(name, [Modifications(values)] + [Modifications(values)]) ==
                           Resolve(name, [Modifications(values)])
  {
    var pass := Modifications(values);
    forall name
      ensures Resolve(name, [pass] + [pass]) == Resolve(name, [pass])
    {
      SinglePass(name, pass);
      assert ([pass] + [pass])[1..] == [pass];
    }
  }

  // ---- What is left in the file ----------------------------------------------------------------

  /** The placeholder `<name>` stands somewhere in `s`. */
  ghost predicate Holds(s: string, name: string) {
    exists i: nat :: OccursAt(s, "<" + name + ">", i)
  }

  lemma OccursAtFront(s: string, pat: string, i: nat)
    requires i <= |s|
    ensures OccursAt(s, pat, i) <==> OccursAt(s[i..], pat, 0)
  {
    hide OccursAt;
    OccursAtIsSlice(s, pat, i);
    OccursInSlice(s, i, |s|, pat, 0);
    assert s[i..|s|] == s[i..];
  }

  /** In front of a text, a tag-complete text keeps the placeholders it holds and gets no new ones. */
  lemma OccursInConcat(a: string, b: string, name: string, i: nat)
    requires TagComplete(a) && LegalName(name) && i < |a|
    ensures OccursAt(a + b, "<" + name + ">", i) <==> OccursAt(a, "<" + name + ">", i)
  {
    hide OccursAt, HeadLength, HeadIsWhole;
    if a[i] != '<' {
      TagOccursOnlyAtBracket(a + b, name, i);
      TagOccursOnlyAtBracket(a, name, i);
    } else {
      var t := a[i..];
      TagCompleteDrop(a, i);
      assert (a + b)[i..] == t + b;
      OccursAtFront(a, "<" + name + ">", i);
      OccursAtFront(a + b, "<" + name + ">", i);
      HeadConcat(t, b);
      TagAtFront(t, name);
      TagAtFront(t + b, name);
      var n := HeadLength(t);
      assert n >= 1 && (t + b)[1..n - 1] == t[1..n - 1];
    }
  }

  lemma HoldsConcat(a: string, b: string, name: string)
    requires TagComplete(a) && LegalName(name)
    ensures Holds(a + b, name) <==> Holds(a, name) || Holds(b, name)
  {
    hide OccursAt, TagComplete;
    var s, tag := a + b, "<" + name + ">";
    if Holds(s, name) {
      var i: nat :| OccursAt(s, tag, i);
      if i < |a| {
        OccursInConcat(a, b, name, i);
      } else {
        OccursInRest(a, b, tag, i - |a|);
      }
    }
    if Holds(a, name) {
      var i: nat :| OccursAt(a, tag, i);
      OccursAtIsSlice(a, tag, i);
      OccursInConcat(a, b, name, i);
    }
    if Holds(b, name) {
      var j: nat :| OccursAt(b, tag, j);
      OccursInRest(a, b, tag, j);
    }
  }

  lemma OccursInRest(a: string, b: string, pat: string, j: nat)
    ensures OccursAt(a + b, pat, |a| + j) <==> OccursAt(b, pat, j)
  {
    hide OccursAt;
    var s := a + b;
    OccursAtIsSlice(s, pat, |a| + j);
    OccursAtIsSlice(b, pat, j);
    if j + |pat| <= |b| {
      assert s[|a| + j..|a| + j + |pat|] == b[j..j + |pat|];
    }
  }

  lemma NoBracketHoldsNone(s: string, name: string)
    requires '<' !in s
    ensures !Holds(s, name)
  {
    hide OccursAt;
    forall i: nat
      ensures !OccursAt(s, "<" + name + ">", i)
    {
      if i < |s| {
        TagOccursOnlyAtBracket(s, name, i);
      } else {
        OccursAtIsSlice(s, "<" + name + ">", i);
      }
    }
  }

  lemma PlaceholderHoldsItself(m: string, name: string)
    requires LegalName(m) && LegalName(name)
    ensures Holds("<" + m + ">", name) <==> m == name
  {
    hide OccursAt, HeadLength;
    var s := "<" + m + ">";
    SingleTag(m, "");
    assert s + "" == s;
    SingleTagComplete(m);
    TagAtFront(s, name);
    forall i: nat | i > 0
      ensures !OccursAt(s, "<" + name + ">", i)
    {
      if i < |s| {
        assert s[i] != '<';
        TagOccursOnlyAtBracket(s, name, i);
      } else {
        OccursAtIsSlice(s, "<" + name + ">", i);
      }
    }
  }

  lemma FilledTag(m: string, values: map<string, string>, name: string)
    requires LegalName(m) && LegalName(name) && CleanValues(values)
    ensures var shown := Show(Step(m, Modifications(values)));
            && (Holds(shown, name) <==> name !in values && m == name)
            && (m !in values ==> shown == "<" + m + ">")
  {
    hide Holds;
    PlaceholderHoldsItself(m, name);
    if m in values {
      NoBracketHoldsNone(values[m], name);
    }
  }

  /** After the scan the placeholder at the front is gone if it has a value, and itself otherwise. */
  lemma HeadFilled(s: string, values: map<string, string>, name: string)
    requires s != "" && HeadIsWhole(s) && CleanValues(values) && LegalName(name)
    ensures var head, now := s[..HeadLength(s)], HeadText(s, [Modifications(values)]);
            && TagComplete(now)
            && (Holds(now, name) <==> name !in values && Holds(head, name))
            && ((forall n :: n in values ==> !Holds(head, n)) ==> now == head)
  {
    hide TagComplete, Holds, Step, CleanValues, HeadText;
    var n, pass := HeadLength(s), Modifications(values);
    assert CleanPasses([pass]) by {
      assert CleanPass(pass) by {
        forall k | k in values {
          CleanName(values, k);
        }
      }
    }
    HeadTextTwice(s, [pass], []);
    SinglePassHead(s, pass);
    if n > 1 {
      var m := s[1..n - 1];
      HeadName(s);
      assert s[..n] == "<" + m + ">";
      FilledTag(m, values, name);
      PlaceholderHoldsItself(m, name);
      PlaceholderHoldsItself(m, m);
    } else {
      NoBracketHoldsNone(s[..1], name);
    }
  }

  /** A scan with a rule's values leaves exactly the placeholders that have no value, and leaves the text
      as it is if it holds none that has. */
  lemma {:induction false} HoldsAfterPass(s: string, values: map<string, string>, name: string)
    requires TagComplete(s) && CleanValues(values) && LegalName(name)
    ensures Holds(MapTags(s, [Modifications(values)]), name) <==> Holds(s, name) && name !in values
    ensures (forall n :: n in values ==> !Holds(s, n)) ==> MapTags(s, [Modifications(values)]) == s
    decreases |s|
  {
    hide HeadIsWhole, HeadLength, HeadText, Holds, CleanValues;
    if s == "" {
      NoBracketHoldsNone(s, name);
    } else {
      var k := HeadLength(s);
      var head, rest := s[..k], s[k..];
      assert s == head + rest;
      HeadComplete(s);
      HeadFilled(s, values, name);
      HoldsAfterPass(rest, values, name);
      HoldsConcat(head, rest, name);
      HoldsConcat(HeadText(s, [Modifications(values)]), MapTags(rest, [Modifications(values)]), name);
      forall n | n in values
        ensures !Holds(s, n) ==> !Holds(head, n) && !Holds(rest, n)
      {
        CleanName(values, n);
        HoldsConcat(head, rest, n);
      }
    }
  }

  lemma CleanName(values: map<string, string>, n: string)
    requires CleanValues(values) && n in values
    ensures LegalName(n) && '<' !in values[n]
  {
  }

  /** The scan changes the text exactly when the text holds a placeholder that has a value. */
  lemma UnchangedIffNoneHeld(s: string, values: map<string, string>)
    requires TagComplete(s) && CleanValues(values)
    ensures MapTags(s, [Modifications(values)]) == s <==> forall n :: n in values ==> !Holds(s, n)
  {
    hide TagComplete, Holds, MapTags;
    forall n | n in values
      ensures !Holds(MapTags(s, [Modifications(values)]), n)
    {
      CleanName(values, n);
      HoldsAfterPass(s, values, n);
    }
    HoldsAfterPass(s, values, "T");
  }

  /** Where the placeholder stood there is its value. */
  lemma PassAround(a: string, n: string, b: string, values: map<string, string>)
    requires TagComplete(a) && CleanValues(values) && n in values
    ensures MapTags(a + ("<" + n + ">") + b, [Modifications(values)]) ==
            MapTags(a, [Modifications(values)]) + values[n] + MapTags(b, [Modifications(values)])
  {
    hide TagComplete;
    var tag, passes := "<" + n + ">", [Modifications(values)];
    CleanName(values, n);
    SingleTagComplete(n);
    TagCompleteConcat(a, tag);
    MapTagsConcat(a + tag, b, passes);
    MapTagsConcat(a, tag, passes);
    assert MapTags(tag, passes) == values[n] by {
      SingleTag(n, "");
      assert tag + "" == tag;
      SinglePassHead(tag, passes[0]);
      assert values[n] + "" == values[n];
    }
  }

  // ---- Values with brackets --------------------------------------------------------------------

  lemma ReplaceTag(a: string, name: string, b: string, value: string)
    requires '<' !in a && '<' !in b && LegalName(name)
    ensures ReplaceAll(a + ("<" + name + ">") + b, "<" + name + ">", value) == a + value + b
  {
    hide ReplaceAll, TagComplete;
    var s, passes := a + ("<" + name + ">") + b, [Modifications(map[name := value])];
    NoBracketComplete(a);
    NoBracketComplete(b);
    SingleTagComplete(name);
    TagCompleteConcat(a, "<" + name + ">");
    TagCompleteConcat(a + ("<" + name + ">"), b);
    ReplaceIsPass(s, name, value);
    MapTagsConcat(a + ("<" + name + ">"), b, passes);
    MapTagsConcat(a, "<" + name + ">", passes);
    MapTagsPlain(a, passes);
    MapTagsPlain(b, passes);
    SingleTag(name, "");
    assert "<" + name + ">" + "" == "<" + name + ">" && value + "" == value;
    SinglePassHead("<" + name + ">", passes[0]);
  }

  lemma NothingToReplace(s: string, name: string, value: string)
    requires TagComplete(s) && LegalName(name) && !Holds(s, name)
    ensures ReplaceAll(s, "<" + name + ">", value) == s
  {
    hide ReplaceAll, TagComplete, OccursAt;
    ReplaceSkips(s, "<" + name + ">", value, |s|);
    ReplaceInNothing("<" + name + ">", value);
    assert s[..|s|] == s && s[|s|..] == "";
  }

  lemma {:induction false} ReplaceLength(s: string, oldText: string, newText: string)
    requires oldText != ""
    ensures |newText| >= |oldText| ==> |ReplaceAll(s, oldText, newText)| >= |s|
    ensures |newText| <= |oldText| ==> |ReplaceAll(s, oldText, newText)| <= |s|
    decreases |s|
  {
    hide OccursAt;
    if s != "" {
      if OccursAt(s, oldText, 0) {
        OccursAtIsSlice(s, oldText, 0);
        ReplaceLength(s[|oldText|..], oldText, newText);
      } else {
        ReplaceLength(s[1..], oldText, newText);
      }
    }
  }

  lemma ReplaceAtFront(s: string, oldText: string, newText: string)
    requires oldText != "" && OccursAt(s, oldText, 0)
    ensures |oldText| <= |s| && s[..|oldText|] == oldText
    ensures ReplaceAll(s, oldText, newText) == newText + ReplaceAll(s[|oldText|..], oldText, newText)
  {
    OccursAtIsSlice(s, oldText, 0);
  }

  /** Replacing something that occurs by something else changes the text. */
  lemma ReplaceChanges(s: string, oldText: string, newText: string, i: nat)
    requires oldText != "" && newText != oldText && i <= |s| && OccursAt(s, oldText, i)
    ensures ReplaceAll(s, oldText, newText) != s
  {
    hide OccursAt, ReplaceAll;
    IndexFromIsFirst(s, oldText, 0);
    var p := IndexFrom(s, oldText, 0);
    var t := s[p..];
    ReplaceSkips(s, oldText, newText, p);
    OccursAtFront(s, oldText, p);
    ReplaceAtFront(t, oldText, newText);
    ReplaceLength(t[|oldText|..], oldText, newText);
    var r := ReplaceAll(s, oldText, newText);
    assert r == s[..p] + newText + ReplaceAll(t[|oldText|..], oldText, newText);
    assert s == s[..p] + oldText + t[|oldText|..];
    if |newText| == |oldText| {
      assert r[p..p + |newText|] == newText && s[p..p + |oldText|] == oldText;
    }
  }

  lemma {:induction false} ReplaceBySame(s: string, x: string)
    ensures x != "" ==> ReplaceAll(s, x, x) == s
    decreases |s|
  {
    hide OccursAt;
    if x != "" && s != "" {
      if OccursAt(s, x, 0) {
        ReplaceAtFront(s, x, x);
        ReplaceBySame(s[|x|..], x);
        assert x + s[|x|..] == s;
      } else {
        ReplaceBySame(s[1..], x);
        assert s[..1] + s[1..] == s;
      }
    }
  }

  /** A text on which a value that is not apart from the other name makes the order show. */
  lemma OrderShows(a: string, b: string, va: string, vb: string) returns (text: string)
    requires LegalName(a) && LegalName(b) && a != b && vb != "<" + b + ">" && !Apart(va, b)
    ensures TagComplete(text)
    ensures ReplaceAll(ReplaceAll(text, "<" + a + ">", va), "<" + b + ">", vb) !=
            ReplaceAll(ReplaceAll(text, "<" + b + ">", vb), "<" + a + ">", va)
  {
    hide ReplaceAll, Holds, TagComplete, OccursAt;
    var tagA, tagB := "<" + a + ">", "<" + b + ">";
    var q, i := BringsPlaceholder(va, b);
    text := "" + tagA + q;
    SingleTagComplete(a);
    NoBracketComplete(q);
    TagCompleteConcat(tagA, q);
    assert text == tagA + q;
    PlaceholderHoldsItself(a, b);
    NoBracketHoldsNone(q, b);
    HoldsConcat(tagA, q, b);
    NothingToReplace(text, b, vb);
    ReplaceTag("", a, q, va);
    assert "" + va + q == va + q;
    ReplaceChanges(va + q, tagB, vb, i);
  }

  /** The rest `q` of a placeholder that `v` holds or begins at its end. */
  lemma BringsPlaceholder(v: string, name: string) returns (q: string, i: nat)
    requires LegalName(name) && !Apart(v, name)
    ensures '<' !in q && i <= |v + q| && OccursAt(v + q, "<" + name + ">", i)
  {
    hide OccursAt;
    var tag := "<" + name + ">";
    if Holds(v, name) {
      q := "";
      i :| OccursAt(v, tag, i);
      OccursAtIsSlice(v, tag, i);
      assert v + q == v;
    } else {
      var k :| 0 < k < |tag| && k <= |v| && v[|v| - k..] == tag[..k];
      q, i := tag[k..], |v| - k;
      RestHasNoBracket(name, k);
      BeginningAndRest(v, tag, k);
    }
  }

  lemma BeginningAndRest(v: string, pat: string, k: nat)
    requires k <= |pat| && k <= |v| && v[|v| - k..] == pat[..k]
    ensures OccursAt(v + pat[k..], pat, |v| - k)
  {
    hide OccursAt;
    var s, i := v + pat[k..], |v| - k;
    OccursAtIsSlice(s, pat, i);
    assert s == v[..i] + (pat[..k] + pat[k..]);
    assert pat[..k] + pat[k..] == pat;
    assert s[i..i + |pat|] == pat;
  }

  lemma RestHasNoBracket(name: string, k: nat)
    requires LegalName(name) && 0 < k < |name| + 2
    ensures '<' !in ("<" + name + ">")[k..]
  {
    var tag := "<" + name + ">";
    assert forall j :: k <= j < |tag| ==> tag[j] == (if j == |tag| - 1 then '>' else name[j - 1]);
    assert forall j :: 0 <= j < |tag[k..]| ==> tag[k..][j] == tag[k + j];
  }

  /** When the order of two modifications can show. It never shows exactly when no value brings the
      other's placeholder, or that other is replaced by itself. */
  lemma OrderNeverShowsIff(a: string, b: string, values: map<string, string>)
    requires LegalName(a) && LegalName(b) && a != b && values.Keys == {a, b}
    ensures (forall text :: TagComplete(text) ==>
               ReplaceEach(text, ModsFor([a, b], values)) == ReplaceEach(text, ModsFor([b, a], values))) <==>
            (Apart(values[a], b) || values[b] == "<" + b + ">") && (Apart(values[b], a) || values[a] == "<" + a + ">")
  {
    hide TagComplete, ReplaceAll, ReplaceEach, ModsFor, Apart;
    var va, vb, tagA, tagB := values[a], values[b], "<" + a + ">", "<" + b + ">";
    forall text
      ensures ReplaceEach(text, ModsFor([a, b], values)) == ReplaceAll(ReplaceAll(text, tagA, va), tagB, vb)
      ensures ReplaceEach(text, ModsFor([b, a], values)) == ReplaceAll(ReplaceAll(text, tagB, vb), tagA, va)
    {
      TwoReplacements(text, a, b, values);
      TwoReplacements(text, b, a, values);
    }
    if !(Apart(va, b) || vb == tagB) {
      var text := OrderShows(a, b, va, vb);
    } else if !(Apart(vb, a) || va == tagA) {
      var text := OrderShows(b, a, vb, va);
    } else {
      forall text | TagComplete(text)
        ensures ReplaceEach(text, ModsFor([a, b], values)) == ReplaceEach(text, ModsFor([b, a], values))
      {
        OrderDoesNotShow(text, a, b, values);
      }
    }
  }

  lemma OrderDoesNotShow(text: string, a: string, b: string, values: map<string, string>)
    requires LegalName(a) && LegalName(b) && a != b && values.Keys == {a, b} && TagComplete(text)
    requires Apart(values[a], b) || values[b] == "<" + b + ">"
    requires Apart(values[b], a) || values[a] == "<" + a + ">"
    ensures ReplaceEach(text, ModsFor([a, b], values)) == ReplaceEach(text, ModsFor([b, a], values))
  {
    hide TagComplete, ReplaceAll, ReplaceEach, ModsFor, Apart;
    var va, vb, tagA, tagB := values[a], values[b], "<" + a + ">", "<" + b + ">";
    TwoReplacements(text, a, b, values);
    TwoReplacements(text, b, a, values);
    if vb == tagB {
      ReplaceBySame(text, tagB);
      ReplaceBySame(ReplaceAll(text, tagA, va), tagB);
    } else if va == tagA {
      ReplaceBySame(text, tagA);
      ReplaceBySame(ReplaceAll(text, tagB, vb), tagA);
    } else {
      OrderDoesNotMatter(text, [a, b], values);
      OrderDoesNotMatter(text, [b, a], values);
    }
  }

  /** Without clean values the order shows. A value `<` makes a new placeholder with the text after it, and
      whether that one is replaced depends on which modification comes first. */
  lemma OrderMattersWithBrackets()
    ensures var values := map["N" := "<", "X" := "v"];
            && IsOrderOf(["N", "X"], values) && IsOrderOf(["X", "N"], values)
            && ReplaceEach("<N>X>", ModsFor(["N", "X"], values)) == "v"
            && ReplaceEach("<N>X>", ModsFor(["X", "N"], values)) == "<X>"
  {
    hide ReplaceAll, ReplaceEach, ModsFor;
    var values := map["N" := "<", "X" := "v"];
    TwoReplacements("<N>X>", "N", "X", values);
    TwoReplacements("<N>X>", "X", "N", values);
    FirstOrder();
    SecondOrder();
  }

  lemma FirstOrder()
    ensures ReplaceAll(ReplaceAll("<N>X>", "<" + "N" + ">", "<"), "<" + "X" + ">", "v") == "v"
  {
    hide ReplaceAll;
    assert "" + ("<" + "N" + ">") + "X>" == "<N>X>" && "" + "<" + "X>" == "" + ("<" + "X" + ">") + "";
    ReplaceTag("", "N", "X>", "<");
    ReplaceTag("", "X", "", "v");
  }

  lemma SecondOrder()
    ensures ReplaceAll(ReplaceAll("<N>X>", "<" + "X" + ">", "v"), "<" + "N" + ">", "<") == "<X>"
  {
    hide ReplaceAll, Holds, TagComplete;
    var tag := "<" + "N" + ">";
    assert "" + tag + "X>" == tag + "X>" == "<N>X>";
    SingleTagComplete("N");
    NoBracketComplete("X>");
    TagCompleteConcat(tag, "X>");
    PlaceholderHoldsItself("N", "X");
    NoBracketHoldsNone("X>", "X");
    HoldsConcat(tag, "X>", "X");
    NothingToReplace("<N>X>", "X", "v");
    ReplaceTag("", "N", "X>", "<");
  }

  lemma TwoReplacements(s: string, a: string, b: string, values: map<string, string>)
    requires a in values && b in values
    ensures ReplaceEach(s, ModsFor([a, b], values)) ==
            ReplaceAll(ReplaceAll(s, "<" + a + ">", values[a]), "<" + b + ">", values[b])
  {
    hide ReplaceAll;
    assert [a, b][1..] == [b] && [b][1..] == [];
    var x, y := Modification("<" + a + ">", values[a]), Modification("<" + b + ">", values[b]);
    assert ModsFor([b], values) == [y] + [];
    assert ModsFor([a, b], values) == [x] + ModsFor([b], values) == [x, y];
    var once := ReplaceAll(s, x.oldValue, x.newValue);
    assert [x, y][1..] == [y] && [y][1..] == [];
    assert ReplaceEach(once, [y]) == ReplaceAll(once, y.oldValue, y.newValue);
  }

  /** As in Go, an empty text occurs in front of every character and at the end. */
  lemma ReplaceEmpty()
    ensures ReplaceAll("ab", "", "-") == "-a-b-" && ReplaceAll("", "", "-") == "-"
  {
    assert "ab"[1..] == "b" && "b"[1..] == "";
    assert ReplaceAll("", "", "-") == "-";
    assert ReplaceAll("b", "", "-") == "-b-";
  }
}
