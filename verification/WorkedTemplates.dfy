/** Templates worked through by engine and rule, from the file's text to the files that are left. */
module WorkedTemplates {
  import opened GoStrings
  import opened Results
  import opened Specs
  import opened SpecLaws
  import opened Tags
  import opened Loops
  import opened LoopTrees
  import opened Rendering
  import opened RenderingLaws
  import opened FileNames
  import opened Splitting
  import opened Replacements
  import opened Rules
  import opened Operator
  import E = Engine
  import F = RenderingFacts

  // ---- A placeholder outside loops, filled by the rule -----------------------------------------

  lemma NoHeadLoop(content: string)
    requires FindLoops(content, 0).Ok? && !HasPrefix(content, START_TAG)
    ensures FindLoops(content, 0).value == [] || FindLoops(content, 0).value[0].start != 0
  {
    hide OccursAt, IndexFrom, BlockAt;
    IndexFromIsFirst(content, START_TAG, 0);
    FirstOfLoops(content, 0);
    OccursAtIsSlice(content, START_TAG, 0);
    assert 0 + |START_TAG| <= |content| ==> content[0..0 + |START_TAG|] == content[..|START_TAG|];
  }

  /** For a rule without a list field: a mapped placeholder outside every loop that names no field of the
      spec is in the final file the text at its mapped path, between what the rule makes of the texts
      around it. */
  lemma MappedOutsideLoops(before: map<string, string>, expanded: map<string, string>, now: map<string, string>,
                           fileName: string, rule: RuleMapping, crName: string, spec: Fields, up: Fields,
                           u: string, n: string, w: string) returns (x: string, y: string)
    requires E.Processed(before, expanded, fileName, up)
    requires RuleApplied(expanded, now, FinalName(fileName), rule, crName, spec) && rule.listField == ""
    requires TrimSpace(before[fileName]) == u + ("<" + n + ">") + w && !HasPrefix(u + ("<" + n + ">") + w, START_TAG)
    requires CleanInput(u + ("<" + n + ">") + w, rule.mappings, crName, spec, up)
    requires TagComplete(u) && TagComplete(w) && LegalHeaders(u) && LegalHeaders(w)
    requires FindLoops(u, 0).Ok? && FindLoops(w, 0).Ok?
    requires n in rule.mappings && !IsMarkerName(n) && MarkerFree("<" + n + ">")
    requires forall key :: key in up && ToUpper(TrimPrefix(n, "FGT_")) == key ==> up[key].List? || up[key].Obj?
    ensures Inline(u, up).Ok? && Filled(Inline(u, up).value, x, ModValues(rule.mappings, crName, spec, ""))
    ensures Inline(w, up).Ok? && Filled(Inline(w, up).value, y, ModValues(rule.mappings, crName, spec, ""))
    ensures FinalName(fileName) in now
    ensures now[FinalName(fileName)] == x + TextAt(crName, spec, rule.mappings[n]).GetOr("") + y
  {
    hide FindLoops, TrimSpace, E.SplitDone, RenderTop, ModValues, Filled, FinalName, MarkerFree, LegalHeaders,
      UpperCased, Clean, IsMarkerName, TagComplete, TextAt;
    var content := u + ("<" + n + ">") + w;
    assert LegalName(n);
    PlaceholderBetween(u, n, w, up);
    NoHeadLoop(content);
    PlaceholderOutsideLoops(n, up);
    var file := FinalName(fileName);
    assert Inline(content, up) == Ok(expanded[file]);
    x, y := FilledAround(u, n, w, rule, crName, spec, up, expanded[file], now[file]);
  }

  lemma FilledAround(u: string, n: string, w: string, rule: RuleMapping, crName: string, spec: Fields, up: Fields,
                     text: string, now: string) returns (x: string, y: string)
    requires Both(Both(Inline(u, up), Ok("<" + n + ">")), Inline(w, up)) == Ok(text)
    requires Filled(text, now, ModValues(rule.mappings, crName, spec, "")) && n in rule.mappings
    requires TagComplete(u) && TagComplete(w) && LegalHeaders(u) && LegalHeaders(w)
    requires FindLoops(u, 0).Ok? && FindLoops(w, 0).Ok?
    requires UpperCased(Obj(spec), Obj(up)) && Clean(Obj(spec)) && '<' !in crName
    requires forall tag :: tag in rule.mappings ==> LegalName(tag)
    ensures Inline(u, up).Ok? && Filled(Inline(u, up).value, x, ModValues(rule.mappings, crName, spec, ""))
    ensures Inline(w, up).Ok? && Filled(Inline(w, up).value, y, ModValues(rule.mappings, crName, spec, ""))
    ensures now == x + TextAt(crName, spec, rule.mappings[n]).GetOr("") + y
  {
    hide TagComplete, LegalHeaders, FindLoops, UpperCased, Clean, ModValues, RenderTop, MapTags, TextAt, ReplaceEach,
      ModsFor, CleanValues, ApartValues, IsOrderOf;
    var values, a, b := ModValues(rule.mappings, crName, spec, ""), Inline(u, up).value, Inline(w, up).value;
    RuleValuesAreClean(rule.mappings, crName, spec, "");
    UpperCasedIsClean(Obj(spec), Obj(up));
    InlineIsComplete(u, up);
    InlineIsComplete(w, up);
    SingleTagComplete(n);
    TagCompleteConcat(a, "<" + n + ">");
    TagCompleteConcat(a + ("<" + n + ">"), b);
    FilledInOnePass(text, now, values);
    ModValueOf(rule.mappings, crName, spec, "", n);
    assert n + "" == n;
    PassAround(a, n, b, values);
    x, y := MapTags(a, [Modifications(values)]), MapTags(b, [Modifications(values)]);
    PassIsFilled(text, now, a, values);
    PassIsFilled(text, now, b, values);
  }

  lemma PassIsFilled(text: string, now: string, a: string, values: map<string, string>)
    requires Filled(text, now, values) && TagComplete(a) && CleanValues(values)
    ensures Filled(a, MapTags(a, [Modifications(values)]), values)
  {
    hide TagComplete, MapTags, ReplaceEach, CleanValues, ApartValues;
    var names :| IsOrderOf(names, values) && now == ReplaceEach(text, ModsFor(names, values));
    CleanIsApart(values);
    OrderDoesNotMatter(a, names, values);
  }

  lemma InlineIsComplete(u: string, up: Fields)
    requires TagComplete(u) && LegalHeaders(u) && FindLoops(u, 0).Ok? && Clean(Obj(up)) && Inline(u, up).Ok?
    ensures TagComplete(Inline(u, up).value)
  {
    hide TagComplete, LegalHeaders, FindLoops, Clean, RenderTop;
    WellFormedAtEveryDepth(u);
    F.RenderingAgrees(u, up, []);
  }

  // ---- A template that starts with a loop ------------------------------------------------------

  const BODY := "<T>:<LIST_N>;"

  lemma BodyIs()
    ensures BODY == ("<" + "T" + ">") + ":" + ("<" + "LIST_N" + ">") + ";"
    ensures TagComplete(BODY) && MarkerFree(BODY) && BalancedFrom(BODY, 0) && FindLoops(BODY, 0) == Ok([])
  {
    hide TagComplete, MarkerFree, BalancedFrom, FindLoops, IsMarkerWord;
    var t, n := "<" + "T" + ">", "<" + "LIST_N" + ">";
    assert BODY == t + ":" + n + ";";
    SingleTagComplete("T");
    SingleTagComplete("LIST_N");
    NoBracketComplete(":");
    NoBracketComplete(";");
    TagCompleteConcat(t, ":");
    TagCompleteConcat(t + ":", n);
    TagCompleteConcat(t + ":" + n, ";");
    NotMarkerWords();
    F.TagIsMarkerFree("T");
    F.TagIsMarkerFree("LIST_N");
    F.NoBracketMarkerFree(":");
    F.NoBracketMarkerFree(";");
    F.MarkerFreeConcat(t, ":");
    F.MarkerFreeConcat(t + ":", n);
    F.MarkerFreeConcat(t + ":" + n, ";");
    MarkerFreeBalanced(BODY);
    NoLoopsIn(BODY);
  }

  lemma NotMarkerWords()
    ensures !IsMarkerWord("T") && !IsMarkerWord("LIST_N") && !IsMarkerWord("LIST")
    ensures !IsMarkerName("T") && !IsMarkerName("LIST_N")
    ensures LegalName("T") && LegalName("LIST_N") && LegalName("LIST")
  {
    assert "FGT_FOR_STR"[0] == "FGT_FOR_END"[0] == 'F' && "T"[0] != 'F' && "LIST_N"[0] != 'F' && "LIST"[0] != 'F';
  }

  /** The body for one item: its own field, and the placeholder nobody knows with the item's number. */
  lemma BodyFor(v: string, index: nat)
    ensures MapTags(BODY, [ItemFields("LIST", map["N" := Scalar(v)], Some(index))]) ==
            "<T_" + Itoa(index) + ">:" + v + ";"
  {
    hide Itoa, TagComplete, MapTags;
    var item: Fields := map["N" := Scalar(v)];
    var own := ItemFields("LIST", item, Some(index));
    var t, n := "<" + "T" + ">", "<" + "LIST_N" + ">";
    BodyIs();
    SingleTagComplete("T");
    SingleTagComplete("LIST_N");
    NoBracketComplete(":");
    TagCompleteConcat(t, ":");
    TagCompleteConcat(t + ":", n);
    MapTagsConcat(t + ":" + n, ";", [own]);
    MapTagsConcat(t + ":", n, [own]);
    MapTagsConcat(t, ":", [own]);
    MapTagsPlain(":", [own]);
    MapTagsPlain(";", [own]);
    OneTag("T", own);
    OneTag("LIST_N", own);
    StepsOf(v, index);
    assert "<" + ("T" + "_" + Itoa(index)) + ">" + ":" + v + ";" == "<T_" + Itoa(index) + ">:" + v + ";";
  }

  lemma StepsOf(v: string, index: nat)
    ensures Step("T", ItemFields("LIST", map["N" := Scalar(v)], Some(index))) == Pending("T" + "_" + Itoa(index))
    ensures Step("LIST_N", ItemFields("LIST", map["N" := Scalar(v)], Some(index))) == Done(v)
  {
    hide FieldNamed, Itoa, IsMarkerName;
    var item: Fields := map["N" := Scalar(v)];
    NotMarkerWords();
    assert "T"[0] != "FGT_"[0] && "LIST_N"[0] != "FGT_"[0];
    assert TrimPrefix("T", "FGT_") == "T" && TrimPrefix("LIST_N", "FGT_") == "LIST_N";
    assert ToUpper("T") == "T" && ToUpper("LIST_N") == "LIST_N" == FieldPath("LIST", "N");
    NoFieldNamed("T", "LIST", item);
    FieldPathIsUnique("LIST_N", "LIST", item, "N");
  }

  lemma OneLoopTemplate()
    ensures var content := Wrap("LIST", BODY);
            && FindLoops(content, 0) == Ok([Block("LIST", BODY, 0, |content|)])
            && FindLoops("", 0) == Ok([]) && content[|content|..] == ""
  {
    hide FindLoops, Wrap, MarkerFree, BalancedFrom, TagComplete;
    var content := Wrap("LIST", BODY);
    BodyIs();
    NotMarkerWords();
    F.TagIsMarkerFree("LIST");
    NothingIsPlain();
    NoLoopsIn("");
    LoopThenRest("LIST", BODY, "");
    assert content + "" == content && ToUpper("LIST") == "LIST";
    var head := Block("LIST", BODY, 0, |content|);
    assert [head] + [] == [head];
  }

  lemma FileFor(up: Fields, v: string, index: nat)
    ensures var head := Block("LIST", BODY, 0, |Wrap("LIST", BODY)|);
            ItemFileText(head, [], "", [], up, map["N" := Scalar(v)], index) ==
            Ok("<T_" + Itoa(index) + ">:" + v + ";")
  {
    hide MapTags, Itoa, Wrap;
    BodyFor(v, index);
    assert BODY[0..] == BODY && ""[0..] == "";
    MapTagsPlain("", [RootPass(up)]);
    var text := "<T_" + Itoa(index) + ">:" + v + ";";
    assert text + "" == text;
  }

  lemma TextOfItem(before: map<string, string>, now: map<string, string>, up: Fields, list: seq<Value>, i: nat,
                   v: string)
    requires "x.tf.tmpl" in before && before["x.tf.tmpl"] == "\n" + Wrap("LIST", BODY)
    requires ListAt(up, "LIST") == Some(list) && i < |list| && list[i] == Obj(map["N" := Scalar(v)])
    requires E.Processed(before, now, "x.tf.tmpl", up)
    ensures IndexedResourceFile("x.tf.tmpl", i) in now
    ensures now[IndexedResourceFile("x.tf.tmpl", i)] == "<T_" + Itoa(i + 1) + ">:" + v + ";"
  {
    hide FindLoops, TrimSpace, Wrap, ItemFileText, IndexedResourceFile, E.Processed, ListAt, Itoa;
    TrimmedTemplate();
    OneLoopTemplate();
    BodyIs();
    FileFor(up, v, i + 1);
    EngineWroteItemFile(before, now, "x.tf.tmpl", Wrap("LIST", BODY), up, list, i);
  }

  /** A loop over an object, null and another object, after an empty line, in the file `x.tf.tmpl`: the first
      and the third item get the files `x_1.tf` and `x_3.tf`, the template is gone, and no other file has
      changed. */
  lemma SplitOverThreeItems(before: map<string, string>, now: map<string, string>, up: Fields, v: string, w: string)
    requires "x.tf.tmpl" in before
    requires before["x.tf.tmpl"] == "\n" + LOOP
    requires "LIST" in up && up["LIST"] == List([Obj(map["N" := Scalar(v)]), Null, Obj(map["N" := Scalar(w)])])
    requires E.Processed(before, now, "x.tf.tmpl", up)
    ensures "x_1.tf" in now && now["x_1.tf"] == "<T_1>:" + v + ";"
    ensures "x_3.tf" in now && now["x_3.tf"] == "<T_3>:" + w + ";"
    ensures "x.tf.tmpl" !in now
    ensures forall n :: n !in ["x_1.tf", "x_3.tf", "x.tf.tmpl"] ==>
              (n in now <==> n in before) && (n in now ==> now[n] == before[n])
  {
    hide FindLoops, TrimSpace, Wrap, ItemFileText, IndexedResourceFile, RenderTop, ListAt;
    var list := [Obj(map["N" := Scalar(v)]), Null, Obj(map["N" := Scalar(w)])];
    LoopWritten();
    TrimmedTemplate();
    OneLoopTemplate();
    NamesOfThree();
    assert ListAt(up, "LIST") == Some(list) by {
      ListOfName(up, list);
    }
    assert Itoa(1) == "1" && Itoa(3) == "3";
    assert "<T_" + Itoa(1) + ">:" == "<T_1>:" && "<T_" + Itoa(3) + ">:" == "<T_3>:";
    hide Itoa;
    assert ResolveItem(list[0]) == Some(map["N" := Scalar(v)]) && ResolveItem(list[2]) == Some(map["N" := Scalar(w)]);
    assert ResolveItem(list[1]) == None;
    TextOfItem(before, now, up, list, 0, v);
    TextOfItem(before, now, up, list, 2, w);
    forall n | n !in ["x_1.tf", "x_3.tf", "x.tf.tmpl"]
      ensures !IsGenerated(n, "x.tf.tmpl", list)
    {
      OnlyThese(n, list);
    }
  }

  lemma ListOfName(up: Fields, list: seq<Value>)
    requires "LIST" in up && up["LIST"] == List(list)
    ensures ListAt(up, "LIST") == Some(list)
  {
  }

  lemma TrimmedTemplate()
    ensures TrimSpace("\n" + Wrap("LIST", BODY)) == Wrap("LIST", BODY)
  {
    hide TrimSpace, Wrap;
    var content := Wrap("LIST", BODY);
    WrapEdges("LIST", BODY);
    SpacesOf('<');
    SpacesOf('>');
    assert "\n" + content + "" == "\n" + content;
    TrimSpaceIs("\n", content, "");
  }

  lemma NamesOfThree()
    ensures IndexedResourceFile("x.tf.tmpl", 0) == "x_1.tf" && IndexedResourceFile("x.tf.tmpl", 2) == "x_3.tf"
  {
    hide Ext;
    assert "x" + ".tf" + ".tmpl" == "x.tf.tmpl";
    assert IsExt(".tf");
    SplitOfTemplate("x", ".tf");
    assert Itoa(0 + 1) == "1" && Itoa(2 + 1) == "3";
  }

  lemma OnlyThese(n: string, list: seq<Value>)
    requires |list| == 3 && list[1] == Null && n !in ["x_1.tf", "x_3.tf", "x.tf.tmpl"]
    ensures !IsGenerated(n, "x.tf.tmpl", list)
  {
    hide IndexedResourceFile;
    NamesOfThree();
    assert "x_1.tf" in ["x_1.tf", "x_3.tf", "x.tf.tmpl"] && "x_3.tf" in ["x_1.tf", "x_3.tf", "x.tf.tmpl"];
  }

  const LOOP := "<FGT_FOR_STR><LIST><T>:<LIST_N>;<FGT_FOR_END>"

  lemma LoopWritten()
    ensures Wrap("LIST", BODY) == LOOP
  {
    assert Header("LIST") == "<FGT_FOR_STR><LIST>";
    assert "<FGT_FOR_STR><LIST>" + "<T>:<LIST_N>;" + "<FGT_FOR_END>" == LOOP;
  }

  // ---- A loop in the middle of a template ------------------------------------------------------

  lemma LoopInline(up: Fields, v: string, w: string)
    requires "LIST" in up && up["LIST"] == List([Obj(map["N" := Scalar(v)]), Null, Obj(map["N" := Scalar(w)])])
    ensures FindLoops(Wrap("LIST", BODY), 0).Ok?
    ensures Inline(Wrap("LIST", BODY), up) == Ok(("<T_1>:" + v + ";") + ("<T_3>:" + w + ";"))
  {
    hide FindLoops, Wrap, RenderItems, RenderTop, ListAt;
    var content, list := Wrap("LIST", BODY), [Obj(map["N" := Scalar(v)]), Null, Obj(map["N" := Scalar(w)])];
    var head, text := Block("LIST", BODY, 0, |content|), ("<T_1>:" + v + ";") + ("<T_3>:" + w + ";");
    OneLoopTemplate();
    BodyIs();
    ListOfName(up, list);
    ItemsInOrder(list, v, w);
    assert RenderLoop(head, up, "") == Ok(text);
    TopOverOne(content, head, up, text);
  }

  lemma ItemsInOrder(list: seq<Value>, v: string, w: string)
    requires list == [Obj(map["N" := Scalar(v)]), Null, Obj(map["N" := Scalar(w)])]
    ensures RenderItems(BODY, [], list, 0, "LIST") == Ok(("<T_1>:" + v + ";") + ("<T_3>:" + w + ";"))
  {
    hide MapTags;
    BodyFor(v, 1);
    BodyFor(w, 3);
    assert Itoa(1) == "1" && Itoa(3) == "3";
    assert "<T_" + Itoa(1) + ">:" == "<T_1>:" && "<T_" + Itoa(3) + ">:" == "<T_3>:";
    assert BODY[0..] == BODY;
    assert RenderItems(BODY, [], list, 3, "LIST") == Ok("");
    var last := "<T_3>:" + w + ";";
    assert last + "" == last;
    assert RenderItems(BODY, [], list, 2, "LIST") == Ok(last);
    assert RenderItems(BODY, [], list, 1, "LIST") == Ok(last);
  }

  /** The same loop between two texts: the items in order in one file, renamed from `x.tf.tmpl` to `x.tf`. */
  lemma LoopBetweenTexts(before: map<string, string>, now: map<string, string>, up: Fields, v: string, w: string)
    requires "x.tf.tmpl" in before
    requires before["x.tf.tmpl"] == "h " + LOOP + ".\n"
    requires "LIST" in up && up["LIST"] == List([Obj(map["N" := Scalar(v)]), Null, Obj(map["N" := Scalar(w)])])
    requires E.Processed(before, now, "x.tf.tmpl", up)
    ensures now == before["x.tf" := "h " + (("<T_1>:" + v + ";") + ("<T_3>:" + w + ";")) + "."] - {"x.tf.tmpl"}
  {
    hide FindLoops, TrimSpace, Wrap, RenderTop, Inline, E.SplitDone, FinalName, MarkerFree, TagComplete;
    var loop, text := Wrap("LIST", BODY), ("<T_1>:" + v + ";") + ("<T_3>:" + w + ";");
    LoopWritten();
    TrimmedMiddle();
    PlainEnds(up);
    LoopInline(up, v, w);
    WrapEdges("LIST", BODY);
    LoopIsComplete();
    NoBracketComplete("h ");
    TagCompleteConcat("h ", loop);
    InlineConcat("h ", loop, up);
    InlineConcat("h " + loop, ".", up);
    var content := "h " + loop + ".";
    assert !HasPrefix(content, START_TAG) by {
      assert content[0] == 'h' && START_TAG[0] == '<';
    }
    NoHeadLoop(content);
    assert Inline(content, up) == Ok("h " + text + ".");
    FinalNameOfX();
    RenderedIs(before, now, up, content, "h " + text + ".");
  }

  lemma RenderedIs(before: map<string, string>, now: map<string, string>, up: Fields, content: string, text: string)
    requires "x.tf.tmpl" in before && TrimSpace(before["x.tf.tmpl"]) == content && FindLoops(content, 0).Ok?
    requires FindLoops(content, 0).value == [] || FindLoops(content, 0).value[0].start != 0
    requires E.Processed(before, now, "x.tf.tmpl", up) && Inline(content, up) == Ok(text)
    requires FinalName("x.tf.tmpl") == "x.tf"
    ensures now == before["x.tf" := text] - {"x.tf.tmpl"}
  {
    hide FindLoops, TrimSpace, RenderTop, E.SplitDone, FinalName;
    assert "x.tf" != "x.tf.tmpl";
  }

  lemma FinalNameOfX()
    ensures FinalName("x.tf.tmpl") == "x.tf"
  {
    hide Ext;
    assert "x" + ".tf" + ".tmpl" == "x.tf.tmpl" && "x" + ".tf" == "x.tf";
    assert IsExt(".tf");
    SplitOfTemplate("x", ".tf");
  }

  lemma TrimmedMiddle()
    ensures TrimSpace("h " + Wrap("LIST", BODY) + ".\n") == "h " + Wrap("LIST", BODY) + "."
  {
    hide TrimSpace, Wrap;
    var content := "h " + Wrap("LIST", BODY) + ".";
    SpacesOf('h');
    SpacesOf('.');
    assert "" + content + "\n" == "h " + Wrap("LIST", BODY) + ".\n";
    TrimSpaceIs("", content, "\n");
  }

  lemma PlainEnds(up: Fields)
    ensures FindLoops("h ", 0).Ok? && Inline("h ", up) == Ok("h ")
    ensures FindLoops(".", 0).Ok? && Inline(".", up) == Ok(".")
  {
    hide FindLoops, Inline, MarkerFree, MapTags;
    F.NoBracketMarkerFree("h ");
    F.NoBracketMarkerFree(".");
    PlainInline("h ", up);
    PlainInline(".", up);
    MapTagsPlain("h ", [RootPass(up)]);
    MapTagsPlain(".", [RootPass(up)]);
  }

  lemma LoopIsComplete()
    ensures TagComplete(Wrap("LIST", BODY))
  {
    hide TagComplete, Wrap;
    BodyIs();
    NotMarkerWords();
    WrapIsComplete("LIST", BODY);
  }

  // ---- The rule after the engine ---------------------------------------------------------------

  /** A rule over the same list fills the files of the split: the first item's placeholder gets the first
      item's field, the third item's the third's. */
  lemma RuleOverThreeItems(expanded: map<string, string>, now: map<string, string>, rule: RuleMapping, crName: string,
                           v: string, w: string, x: string, y: string)
    requires rule.listField == "spec.list" && rule.itemMappings == map["T" := "name"]
    requires RuleApplied(expanded, now, "x.tf", rule, crName, ThreeItems(v, w))
    requires "x_1.tf" in expanded && expanded["x_1.tf"] == "<T_1>:" + x && '<' !in x && '<' !in v
    requires "x_3.tf" in expanded && expanded["x_3.tf"] == "<T_3>:" + y && '<' !in y && '<' !in w
    ensures "x_1.tf" in now && now["x_1.tf"] == v + (":" + x)
    ensures "x_3.tf" in now && now["x_3.tf"] == w + (":" + y)
    ensures now - {"x_1.tf", "x_3.tf"} == expanded - {"x_1.tf", "x_3.tf"}
  {
    hide RawAt, Filled, ModValues, IndexedResourceFile;
    var spec := ThreeItems(v, w);
    var items := [Obj(map["name" := Scalar(v)]), Null, Obj(map["name" := Scalar(w)])];
    ListOfSpec(v, w);
    NamesOfThree();
    NamesOfX();
    assert Itoa(0 + 1) == "1" && Itoa(2 + 1) == "3";
    assert "<T_" + Itoa(0 + 1) + ">:" == "<T_1>:" && "<T_" + Itoa(2 + 1) + ">:" == "<T_3>:";
    FillOne(rule, crName, items, 0, v, x, now["x_1.tf"]);
    FillOne(rule, crName, items, 2, w, y, now["x_3.tf"]);
    forall n | n !in ["x_1.tf", "x_3.tf"]
      ensures (n in now <==> n in expanded) && (n in now ==> now[n] == expanded[n])
    {
      NoOtherTarget(n, items);
    }
    assert forall n :: n in now - {"x_1.tf", "x_3.tf"} ==> n !in ["x_1.tf", "x_3.tf"];
    assert forall n :: n in expanded - {"x_1.tf", "x_3.tf"} ==> n !in ["x_1.tf", "x_3.tf"];
  }

  function ThreeItems(v: string, w: string): Fields {
    map["list" := List([Obj(map["name" := Scalar(v)]), Null, Obj(map["name" := Scalar(w)])])]
  }

  lemma ListOfSpec(v: string, w: string)
    ensures RawAt(ThreeItems(v, w), "spec.list") ==
            Some(List([Obj(map["name" := Scalar(v)]), Null, Obj(map["name" := Scalar(w)])]))
  {
    hide RawAt;
    assert "spec." + "list" == "spec.list";
    DottedKey(ThreeItems(v, w), "list");
    PlainKeyIsNoPath("list");
    DottedPathNoise(ThreeItems(v, w), "list");
  }

  lemma NamesOfX()
    ensures IndexedResourceFile("x.tf", 0) == "x_1.tf" && IndexedResourceFile("x.tf", 2) == "x_3.tf"
  {
    hide Ext;
    assert "x" + ".tf" == "x.tf";
    assert IsExt(".tf");
    SplitOfJoined("x", ".tf");
    assert Itoa(0 + 1) == "1" && Itoa(2 + 1) == "3";
  }

  lemma NoOtherTarget(n: string, items: seq<Value>)
    requires |items| == 3 && items[1] == Null && n !in ["x_1.tf", "x_3.tf"]
    ensures !IsItemFile(n, "x.tf", items, 3)
  {
    hide IndexedResourceFile;
    NamesOfX();
    assert "x_1.tf" in ["x_1.tf", "x_3.tf"] && "x_3.tf" in ["x_1.tf", "x_3.tf"];
  }

  lemma FillOne(rule: RuleMapping, crName: string, items: seq<Value>, i: nat, v: string, x: string, now: string)
    requires rule.itemMappings == map["T" := "name"] && i < |items| && items[i] == Obj(map["name" := Scalar(v)])
    requires '<' !in x && '<' !in v
    requires Filled("<T_" + Itoa(i + 1) + ">:" + x, now, ItemValues(rule, crName, items, i))
    ensures now == v + (":" + x)
  {
    hide ModValues, MapTags, TagComplete, Itoa, Filled;
    var n, data := "T" + ItemSuffix(i), map["name" := Scalar(v)];
    var values := ItemValues(rule, crName, items, i);
    var text, rest := "<T_" + Itoa(i + 1) + ">:" + x, ":" + x;
    PlainKeyIsNoPath("name");
    MappedText(crName, data, "name");
    ModValueOf(rule.itemMappings, crName, data, ItemSuffix(i), "T");
    ValuesAreT(rule, crName, data, i);
    assert text == "" + ("<" + n + ">") + rest;
    SuffixIsLegal(i);
    NoBracketComplete("");
    NoBracketComplete(rest);
    SingleTagComplete(n);
    assert "" + ("<" + n + ">") == "<" + n + ">";
    TagCompleteConcat("<" + n + ">", rest);
    FilledInOnePass(text, now, values);
    PassAround("", n, rest, values);
    MapTagsPlain("", [Modifications(values)]);
    MapTagsPlain(rest, [Modifications(values)]);
    assert "" + v + rest == v + rest;
  }

  lemma ValuesAreT(rule: RuleMapping, crName: string, data: Fields, i: nat)
    requires rule.itemMappings == map["T" := "name"] && "name" in data && data["name"].Scalar?
    requires '<' !in data["name"].text
    ensures CleanValues(ModValues(rule.itemMappings, crName, data, ItemSuffix(i)))
    ensures LegalName("T" + ItemSuffix(i))
  {
    hide ModValues, TextAt, Itoa;
    var values := ModValues(rule.itemMappings, crName, data, ItemSuffix(i));
    SuffixIsLegal(i);
    assert forall c :: c in "T" + ItemSuffix(i) ==> c == 'T' || c in ItemSuffix(i);
    MappedText(crName, data, "name");
    ModValueOf(rule.itemMappings, crName, data, ItemSuffix(i), "T");
    forall n | n in values
      ensures LegalName(n) && '<' !in values[n]
    {
      ModValueKeys(rule.itemMappings, crName, data, ItemSuffix(i), n);
    }
  }
}
