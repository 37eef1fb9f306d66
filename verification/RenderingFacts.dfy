/** What holds of every rendered template. */
module RenderingFacts {
  import opened GoStrings
  import opened Results
  import opened Specs
  import opened Tags
  import opened Loops
  import opened LoopDepth
  import opened LoopTrees
  import opened Rendering

  // ---- The whole template ----------------------------------------------------------------------

  lemma {:induction false} TopAgrees(s: string, blocks: seq<Block>, pos: nat, spec: Fields, outer: seq<Pass>,
                                     nodes: seq<Node>)
    requires Fit(s, pos, blocks) && InOrder(s, pos, blocks) && TreeFrom(s, pos, blocks) == Ok(nodes)
    requires TagComplete(s[pos..]) && Clean(Obj(spec))
    ensures Agrees(RenderTop(s, blocks, pos, spec), outer, EvalTop(nodes, spec, outer))
    decreases |blocks|
  {
    hide TagComplete, Agrees, LaidOut, RenderLoop, EvalLoop, ParseTree, Clean, MapTags;
    if blocks == [] {
      RootTextAgrees(s[pos..], spec, outer);
      EvalTopText(s[pos..], spec, outer);
    } else {
      var b := blocks[0];
      BlockPieces(s, pos, b);
      var inner, rest := ParseTree(b.body).value, TreeFrom(s, b.end, blocks[1..]).value;
      LoopAgrees(b, spec, "", outer, inner);
      TopAgrees(s, blocks[1..], b.end, spec, outer, rest);
      var gap := s[pos..b.start];
      RootTextAgrees(gap, spec, outer);
      var text, root := Ok(MapTags(gap, [RootPass(spec)])), Ok(MapTags(gap, [RootPass(spec)] + outer));
      AgreesBoth(text, RenderLoop(b, spec, ""), outer, root, EvalLoop(b.tag, inner, spec, "", outer));
      AgreesBoth(Both(text, RenderLoop(b, spec, "")), RenderTop(s, blocks[1..], b.end, spec), outer,
                 Both(root, EvalLoop(b.tag, inner, spec, "", outer)), EvalTop(rest, spec, outer));
      EvalTopTextAndLoop(gap, b.tag, inner, rest, spec, outer);
    }
  }

  lemma RootTextAgrees(text: string, spec: Fields, outer: seq<Pass>)
    requires TagComplete(text) && Clean(Obj(spec))
    ensures Agrees(Ok(MapTags(text, [RootPass(spec)])), outer, Ok(MapTags(text, [RootPass(spec)] + outer)))
  {
    hide TagComplete, MapTags, Clean;
    RootPassIsClean(spec);
    MapTagsTwice(text, [RootPass(spec)], outer);
  }

  lemma EvalTopText(text: string, spec: Fields, outer: seq<Pass>)
    ensures EvalTop([Text(text)], spec, outer) == Ok(MapTags(text, [RootPass(spec)] + outer))
  {
    hide MapTags;
    var r := MapTags(text, [RootPass(spec)] + outer);
    assert [Text(text)][1..] == [];
    assert r + "" == r;
  }

  lemma EvalTopTextAndLoop(gap: string, tag: string, inner: seq<Node>, rest: seq<Node>, spec: Fields,
                           outer: seq<Pass>)
    ensures EvalTop([Text(gap), Loop(tag, inner)] + rest, spec, outer) ==
            Both(Both(Ok(MapTags(gap, [RootPass(spec)] + outer)), EvalLoop(tag, inner, spec, "", outer)),
                 EvalTop(rest, spec, outer))
  {
    hide MapTags, EvalLoop;
    var nodes := [Text(gap), Loop(tag, inner)] + rest;
    assert nodes[1..][1..] == rest && nodes[1..][0] == Loop(tag, inner);
    var g, l, r := MapTags(gap, [RootPass(spec)] + outer), EvalLoop(tag, inner, spec, "", outer),
      EvalTop(rest, spec, outer);
    assert EvalTop(nodes[1..], spec, outer) == Both(l, r);
    if l.Ok? && r.Ok? {
      assert g + (l.value + r.value) == g + l.value + r.value;
    }
  }

  /** Rendering by offsets, with every level scanning again what the inner levels produced, and `outer`
      scanning all of it once more, computes what the one-pass evaluator computes on the tree of the
      template with `outer` around it, errors included. What is rendered is tag-complete again. */
  lemma RenderingAgrees(content: string, spec: Fields, outer: seq<Pass>)
    requires TagComplete(content) && FindLoops(content, 0).Ok? && ParseTree(content).Ok? && Clean(Obj(spec))
    ensures Agrees(RenderTop(content, FindLoops(content, 0).value, 0, spec), outer,
                   EvalTop(ParseTree(content).value, spec, outer))
  {
    hide FindLoops, TagComplete, InOrder, Clean, TreeFrom, Agrees;
    FoundInOrder(content, 0);
    assert content[0..] == content;
    TopAgrees(content, FindLoops(content, 0).value, 0, spec, outer, ParseTree(content).value);
  }

  /** The engine alone: rendering is evaluation. */
  lemma RenderingIsEvaluation(content: string, spec: Fields)
    requires TagComplete(content) && LegalHeaders(content) && FindLoops(content, 0).Ok?
    requires Clean(Obj(spec))
    ensures ParseTree(content).Ok?
    ensures RenderTop(content, FindLoops(content, 0).value, 0, spec) == EvalTop(ParseTree(content).value, spec, [])
  {
    hide FindLoops, TagComplete, LegalHeaders, Clean, RenderTop, MapTags;
    WellFormedAtEveryDepth(content);
    RenderingAgrees(content, spec, []);
    var r := RenderTop(content, FindLoops(content, 0).value, 0, spec);
    if r.Ok? {
      NoPasses(r.value);
    }
  }

  // ---- When rendering fails --------------------------------------------------------------------

  /** Some loop that an evaluation of `nodes` against `item` reaches names no list. */
  ghost predicate Stuck(nodes: seq<Node>, item: Fields) {
    exists n :: 0 <= n < |nodes| && nodes[n].Loop? &&
      match ListAt(item, nodes[n].tag)
      case None => true
      case Some(list) =>
        exists i :: 0 <= i < |list| && ResolveItem(list[i]).Some? && Stuck(nodes[n].body, ResolveItem(list[i]).value)
  }

  ghost predicate LoopStuck(tag: string, body: seq<Node>, item: Fields) {
    match ListAt(item, tag)
    case None => true
    case Some(list) => ItemsStuck(body, list, 0)
  }

  ghost predicate ItemsStuck(body: seq<Node>, list: seq<Value>, i: nat) {
    exists j :: i <= j < |list| && ResolveItem(list[j]).Some? && Stuck(body, ResolveItem(list[j]).value)
  }

  lemma StuckText(text: string, item: Fields)
    ensures !Stuck([Text(text)], item)
  {
  }

  lemma StuckTextAndLoop(gap: string, tag: string, body: seq<Node>, rest: seq<Node>, item: Fields)
    ensures Stuck([Text(gap), Loop(tag, body)] + rest, item) <==> LoopStuck(tag, body, item) || Stuck(rest, item)
  {
    hide LoopStuck, ListAt, ResolveItem;
    var nodes := [Text(gap), Loop(tag, body)] + rest;
    assert nodes[1..][0] == Loop(tag, body) && nodes[1..][1..] == rest;
    StuckStep(nodes, item);
    StuckStep(nodes[1..], item);
  }

  lemma StuckStep(nodes: seq<Node>, item: Fields)
    requires nodes != []
    ensures Stuck(nodes, item) <==>
            (nodes[0].Loop? && LoopStuck(nodes[0].tag, nodes[0].body, item)) || Stuck(nodes[1..], item)
  {
    hide ListAt;
    assert forall n :: 0 < n < |nodes| ==> nodes[n] == nodes[1..][n - 1];
    assert forall n :: 0 <= n < |nodes[1..]| ==> nodes[1..][n] == nodes[n + 1];
  }

  ghost predicate FailsIff(r: Result<string>, stuck: bool) {
    (r.Err? <==> stuck) && (r.Err? ==> r.error.NoList?)
  }

  lemma {:induction false} LoopFailsIffStuck(blk: Block, parent: Fields, base: string, nodes: seq<Node>)
    requires ParseTree(blk.body) == Ok(nodes)
    ensures FailsIff(RenderLoop(blk, parent, base), LoopStuck(blk.tag, nodes, parent))
    decreases |blk.body|, 3, 0
  {
    hide ListAt, FindLoops, ItemsStuck;
    var nested := FindLoops(blk.body, 0).value;
    match ListAt(parent, blk.tag)
    case None =>
    case Some(list) => ItemsFailIffStuck(blk.body, nested, list, 0, FieldPath(base, blk.tag), nodes);
  }

  lemma {:induction false} ItemsFailIffStuck(body: string, nested: seq<Block>, list: seq<Value>, i: nat, path: string,
                                             nodes: seq<Node>)
    requires Fit(body, 0, nested) && TreeFrom(body, 0, nested) == Ok(nodes) && i <= |list|
    ensures FailsIff(RenderItems(body, nested, list, i, path), ItemsStuck(nodes, list, i))
    decreases |body|, 2, |list| - i
  {
    hide Stuck, TreeFrom, RenderNested, MapTags;
    if i < |list| {
      ItemsFailIffStuck(body, nested, list, i + 1, path, nodes);
      match ResolveItem(list[i])
      case None =>
      case Some(item) => NestedFailsIffStuck(body, nested, 0, item, path, nodes);
    }
  }

  lemma {:induction false} NestedFailsIffStuck(body: string, nested: seq<Block>, pos: nat, item: Fields, path: string,
                                               nodes: seq<Node>)
    requires Fit(body, pos, nested) && TreeFrom(body, pos, nested) == Ok(nodes)
    ensures FailsIff(RenderNested(body, nested, pos, item, path), Stuck(nodes, item))
    decreases |body|, 0, |nested|
  {
    hide Stuck, LoopStuck, ParseTree, RenderLoop;
    if nested == [] {
      StuckText(body[pos..], item);
    } else {
      var b := nested[0];
      var inner, rest := ParseTree(b.body).value, TreeFrom(body, b.end, nested[1..]).value;
      LoopFailsIffStuck(b, item, path, inner);
      NestedFailsIffStuck(body, nested[1..], b.end, item, path, rest);
      StuckTextAndLoop(body[pos..b.start], b.tag, inner, rest, item);
    }
  }

  lemma {:induction false} TopFailsIffStuck(s: string, blocks: seq<Block>, pos: nat, spec: Fields, nodes: seq<Node>)
    requires Fit(s, pos, blocks) && TreeFrom(s, pos, blocks) == Ok(nodes)
    ensures FailsIff(RenderTop(s, blocks, pos, spec), Stuck(nodes, spec))
    decreases |blocks|
  {
    hide Stuck, LoopStuck, ParseTree, RenderLoop, MapTags;
    if blocks == [] {
      StuckText(s[pos..], spec);
    } else {
      var b := blocks[0];
      var inner, rest := ParseTree(b.body).value, TreeFrom(s, b.end, blocks[1..]).value;
      LoopFailsIffStuck(b, spec, "", inner);
      TopFailsIffStuck(s, blocks[1..], b.end, spec, rest);
      StuckTextAndLoop(s[pos..b.start], b.tag, inner, rest, spec);
    }
  }

  /** A template that parses, with legal names after its start markers, fails to render exactly when a
      loop it reaches names no list, and then with that error. */
  lemma RenderingFailsIffNoList(content: string, spec: Fields)
    requires LegalHeaders(content) && FindLoops(content, 0).Ok?
    ensures ParseTree(content).Ok?
    ensures FailsIff(RenderTop(content, FindLoops(content, 0).value, 0, spec), Stuck(ParseTree(content).value, spec))
  {
    hide FindLoops, LegalHeaders, TreeFrom, Stuck;
    WellFormedAtEveryDepth(content);
    TopFailsIffStuck(content, FindLoops(content, 0).value, 0, spec, ParseTree(content).value);
  }

  // ---- No marker survives ----------------------------------------------------------------------

  /** Every text of the tree is tag-complete and holds no marker. */
  ghost predicate PlainTexts(nodes: seq<Node>) {
    forall n :: 0 <= n < |nodes| ==>
      match nodes[n]
      case Text(text) => TagComplete(text) && MarkerFree(text)
      case Loop(_, body) => PlainTexts(body)
  }

  lemma SignInCompletePrefix(a: string, b: string, i: nat)
    requires TagComplete(a) && i < |a|
    ensures Sign(a + b, i) == Sign(a, i)
  {
    hide OccursAt, TagComplete;
    var s := a + b;
    if Sign(s, i) != 0 {
      MarkerShape(s, i);
      TagCompleteDrop(a, i);
      assert a[i..][0] == '<';
      ClosesInside(a[i..]);
      var close: nat :| 0 < close < |a[i..]| && a[i..][close] == '>';
      assert s[i + close] == '>';
    }
    assert s[0..|a|] == a;
    OccursInSlice(s, 0, |a|, START_TAG, i);
    OccursInSlice(s, 0, |a|, END_TAG, i);
  }

  lemma ClosesInside(s: string)
    requires s != "" && s[0] == '<' && TagComplete(s)
    ensures exists close: nat :: 0 < close < |s| && s[close] == '>'
  {
    assert s[HeadLength(s) - 1] == '>';
  }

  lemma MarkerFreeConcat(a: string, b: string)
    requires TagComplete(a) && MarkerFree(a) && MarkerFree(b)
    ensures MarkerFree(a + b)
  {
    hide TagComplete, Sign;
    var s := a + b;
    forall p: nat | p < |s|
      ensures Sign(s, p) == 0
    {
      if p < |a| {
        SignInCompletePrefix(a, b, p);
      } else {
        SignInSlice(s, |a|, |s|, p - |a|);
        assert s[|a|..|s|] == b;
      }
    }
  }

  lemma MarkerFreeRest(s: string, k: nat)
    requires MarkerFree(s) && k <= |s|
    ensures MarkerFree(s[k..])
  {
    hide Sign;
    assert s[k..|s|] == s[k..];
    forall p: nat | p < |s[k..]|
      ensures Sign(s[k..], p) == 0
    {
      SignInSlice(s, k, |s|, p);
    }
  }

  lemma NoBracketMarkerFree(s: string)
    requires '<' !in s
    ensures MarkerFree(s)
  {
    hide Sign;
    forall p: nat | p < |s|
      ensures Sign(s, p) == 0
    {
      NoBracketNoMarker(s, p);
    }
  }

  lemma TagIsMarkerFree(name: string)
    requires LegalName(name) && !IsMarkerWord(name)
    ensures MarkerFree("<" + name + ">")
  {
    hide Sign;
    var s := "<" + name + ">";
    assert s[|name| + 1] == '>';
    assert forall i :: 0 < i <= |name| ==> s[i] == name[i - 1];
    assert IndexChar(s, '>', 0) == |name| + 1;
    assert s[1..|name| + 1] == name;
    forall p: nat | p < |s|
      ensures Sign(s, p) == 0
    {
      if p > 0 {
        NoBracketNoMarker(s, p);
      } else if Sign(s, 0) != 0 {
        MarkerWord(s, 0);
      }
    }
  }

  lemma MarkerWordIsMarker(s: string)
    requires s != "" && HeadLength(s) > 1 && IsMarkerWord(s[1..HeadLength(s) - 1])
    ensures Sign(s, 0) != 0
  {
    hide OccursAt;
    var n := HeadLength(s);
    var name := s[1..n - 1];
    var tag := if name == "FGT_FOR_STR" then START_TAG else END_TAG;
    assert "<" + name + ">" == tag;
    assert s[0..0 + MARKER_LENGTH] == "<" + name + ">";
    OccursAtIsSlice(s, tag, 0);
  }

  lemma HeadIsNoMarkerWord(s: string)
    requires s != "" && HeadLength(s) > 1 && MarkerFree(s)
    ensures !IsMarkerWord(s[1..HeadLength(s) - 1])
  {
    hide Sign, IsMarkerWord;
    assert Sign(s, 0) == 0;
    if IsMarkerWord(s[1..HeadLength(s) - 1]) {
      MarkerWordIsMarker(s);
    }
  }

  lemma StepMakesNoMarker(name: string, pass: Pass)
    requires !IsMarkerWord(name)
    ensures Step(name, pass).Pending? ==> !IsMarkerWord(Step(name, pass).name)
  {
    if !IsMarkerName(name) {
      SuffixIsNoMarker(name, pass);
    }
  }

  lemma {:induction false} ResolveMakesNoMarker(name: string, passes: seq<Pass>)
    requires !IsMarkerWord(name)
    ensures Resolve(name, passes).Pending? ==> !IsMarkerWord(Resolve(name, passes).name)
    decreases |passes|
  {
    hide Step, IsMarkerWord;
    if passes != [] {
      StepMakesNoMarker(name, passes[0]);
      var o := Step(name, passes[0]);
      if o.Pending? {
        ResolveMakesNoMarker(o.name, passes[1..]);
      }
    }
  }

  lemma HeadTextMarkerFree(s: string, passes: seq<Pass>)
    requires s != "" && HeadIsWhole(s) && MarkerFree(s) && CleanPasses(passes)
    ensures TagComplete(HeadText(s, passes)) && MarkerFree(HeadText(s, passes))
  {
    hide Sign, TagComplete, IsMarkerWord, MarkerFree, CleanPasses;
    var n := HeadLength(s);
    HeadTextTwice(s, passes, []);
    if n > 1 {
      var name := s[1..n - 1];
      HeadName(s);
      HeadIsNoMarkerWord(s);
      ResolveKeepsLegal(name, passes);
      ResolveMakesNoMarker(name, passes);
      match Resolve(name, passes)
      case Done(text) => NoBracketMarkerFree(text);
      case Pending(next) => TagIsMarkerFree(next);
    } else {
      NoBracketMarkerFree(s[..1]);
    }
  }

  lemma {:induction false} MapTagsMarkerFree(s: string, passes: seq<Pass>)
    requires TagComplete(s) && MarkerFree(s) && CleanPasses(passes)
    ensures TagComplete(MapTags(s, passes)) && MarkerFree(MapTags(s, passes))
    decreases |s|
  {
    hide HeadIsWhole, HeadLength, HeadText, MarkerFree, CleanPasses;
    if s != "" {
      var rest := s[HeadLength(s)..];
      MarkerFreeRest(s, HeadLength(s));
      MapTagsMarkerFree(rest, passes);
      HeadTextMarkerFree(s, passes);
      TagCompleteConcat(HeadText(s, passes), MapTags(rest, passes));
      MarkerFreeConcat(HeadText(s, passes), MapTags(rest, passes));
    } else {
      NoBracketMarkerFree(s);
    }
  }

  lemma GapIsPlain(s: string, pos: nat, end: nat)
    requires BalancedFrom(s, pos) && pos <= end <= |s| && (end < |s| ==> s[end] == '<')
    requires forall i: nat :: pos <= i < end ==> !OccursAt(s, START_TAG, i)
    ensures MarkerFree(s[pos..end])
  {
    hide OccursAt;
    forall p: nat | p < end - pos
      ensures Sign(s[pos..end], p) == 0
    {
      SignInSlice(s, pos, end, p);
      NoStartsNoRise(s, pos, pos + p);
      assert Depth(s, pos, pos + p) == 0;
      assert Depth(s, pos, pos + p + 1) == Sign(s, pos + p);
    }
  }

  lemma PlainPair(gap: string, tag: string, body: seq<Node>, rest: seq<Node>)
    requires TagComplete(gap) && MarkerFree(gap) && PlainTexts(body) && PlainTexts(rest)
    ensures PlainTexts([Text(gap), Loop(tag, body)] + rest)
  {
    hide TagComplete, MarkerFree;
  }

  /** All texts of a balanced tag-complete template, at any depth, are plain. */
  lemma {:induction false} TextsArePlain(s: string, pos: nat)
    requires LegalHeaders(s) && BalancedFrom(s, pos) && TagComplete(s[pos..])
    ensures FindLoops(s, pos).Ok?
    ensures TreeFrom(s, pos, FindLoops(s, pos).value).Ok?
    ensures PlainTexts(TreeFrom(s, pos, FindLoops(s, pos).value).value)
    decreases |s|, |s| - pos
  {
    hide LegalHeaders, BalancedFrom, TagComplete, IndexFrom, BlockAt, OccursAt, LaidOut, PlainTexts, MarkerFree;
    BalancedParses(s, pos);
    TreeFromParses(s, pos);
    IndexFromIsFirst(s, START_TAG, pos);
    var start := IndexFrom(s, START_TAG, pos);
    if start == -1 {
      GapIsPlain(s, pos, |s|);
      assert s[pos..|s|] == s[pos..];
      PlainText(s[pos..]);
    } else {
      var b := BlockAt(s, start).value;
      NextBlockCloses(s, pos);
      BlockIsLaidOut(s, start);
      BlockPieces(s, pos, b);
      MarkerStarts(s, start);
      GapIsPlain(s, pos, start);
      BodyParses(s, start);
      BodyTextsArePlain(b.body);
      TextsArePlain(s, b.end);
      assert FindLoops(s, pos).value[1..] == FindLoops(s, b.end).value;
      PlainPair(s[pos..start], b.tag, ParseTree(b.body).value, TreeFrom(s, b.end, FindLoops(s, b.end).value).value);
    }
  }

  lemma PlainText(text: string)
    requires TagComplete(text) && MarkerFree(text)
    ensures PlainTexts([Text(text)])
  {
  }

  lemma MarkerStarts(s: string, p: nat)
    requires OccursAt(s, START_TAG, p)
    ensures p < |s| && s[p] == '<'
  {
    hide OccursAt;
    assert Sign(s, p) == 1;
    MarkerShape(s, p);
  }

  lemma {:induction false} BodyTextsArePlain(s: string)
    requires LegalHeaders(s) && BalancedFrom(s, 0) && TagComplete(s)
    ensures ParseTree(s).Ok? && PlainTexts(ParseTree(s).value)
    decreases |s|, |s| + 1
  {
    hide LegalHeaders, BalancedFrom, TagComplete, FindLoops, PlainTexts, TreeFrom;
    assert s[0..] == s;
    TextsArePlain(s, 0);
  }

  ghost predicate Unmarked(r: Result<string>) {
    r.Ok? ==> TagComplete(r.value) && MarkerFree(r.value)
  }

  lemma UnmarkedBoth(a: Result<string>, b: Result<string>)
    requires Unmarked(a) && (a.Ok? ==> Unmarked(b))
    ensures Unmarked(Both(a, b))
  {
    hide TagComplete, MarkerFree;
    if a.Ok? && b.Ok? {
      TagCompleteConcat(a.value, b.value);
      MarkerFreeConcat(a.value, b.value);
    }
  }

  lemma NothingUnmarked()
    ensures Unmarked(Ok(""))
  {
    NoBracketMarkerFree("");
  }

  lemma {:induction false} NodesUnmarked(nodes: seq<Node>, item: Fields, path: string, passes: seq<Pass>)
    requires PlainTexts(nodes) && Clean(Obj(item)) && CleanPasses(passes)
    ensures Unmarked(EvalNodes(nodes, item, path, passes))
    decreases nodes, 0, 0
  {
    hide TagComplete, MarkerFree, Clean, CleanPasses, Unmarked, MapTags, EvalLoop;
    if nodes == [] {
      NothingUnmarked();
    } else {
      match nodes[0] {
        case Text(text) =>
          MapTagsMarkerFree(text, passes);
          TextUnmarked(text, passes);
        case Loop(tag, body) =>
          LoopUnmarked(tag, body, item, path, passes);
      }
      NodesUnmarked(nodes[1..], item, path, passes);
      UnmarkedBoth(EvalNode(nodes[0], item, path, passes), EvalNodes(nodes[1..], item, path, passes));
    }
  }

  lemma TextUnmarked(text: string, passes: seq<Pass>)
    requires TagComplete(MapTags(text, passes)) && MarkerFree(MapTags(text, passes))
    ensures Unmarked(Ok(MapTags(text, passes)))
  {
  }

  lemma {:induction false} LoopUnmarked(tag: string, body: seq<Node>, parent: Fields, base: string, outer: seq<Pass>)
    requires PlainTexts(body) && Clean(Obj(parent)) && CleanPasses(outer)
    ensures Unmarked(EvalLoop(tag, body, parent, base, outer))
    decreases body, 2, 0
  {
    hide ListAt, PlainTexts, Clean, CleanPasses, EvalItems;
    match ListAt(parent, tag)
    case None =>
    case Some(list) =>
      CleanList(parent, tag);
      ItemsUnmarked(body, list, 0, FieldPath(base, tag), outer);
  }

  lemma {:induction false} ItemsUnmarked(body: seq<Node>, list: seq<Value>, i: nat, path: string, outer: seq<Pass>)
    requires PlainTexts(body) && i <= |list| && CleanPasses(outer)
    requires forall j :: 0 <= j < |list| ==> Clean(list[j])
    ensures Unmarked(EvalItems(body, list, i, path, outer))
    decreases body, 1, |list| - i
  {
    hide PlainTexts, Clean, EvalNodes, Unmarked, CleanPass;
    if i == |list| {
      NothingUnmarked();
    } else {
      ItemsUnmarked(body, list, i + 1, path, outer);
      match ResolveItem(list[i])
      case None =>
      case Some(item) =>
        CleanItem(list[i]);
        OwnPassIsClean(path, item, i + 1);
        var passes := [ItemFields(path, item, Some(i + 1))] + outer;
        assert CleanPasses(passes) by {
          assert CleanPass([ItemFields(path, item, Some(i + 1))][0]);
        }
        NodesUnmarked(body, item, path, passes);
        UnmarkedBoth(EvalNodes(body, item, path, passes), EvalItems(body, list, i + 1, path, outer));
    }
  }

  lemma {:induction false} TopUnmarked(nodes: seq<Node>, spec: Fields)
    requires PlainTexts(nodes) && Clean(Obj(spec))
    ensures Unmarked(EvalTop(nodes, spec, []))
    decreases |nodes|
  {
    hide TagComplete, MarkerFree, Clean, CleanPasses, Unmarked, MapTags, EvalLoop;
    if nodes == [] {
      NothingUnmarked();
    } else {
      TopUnmarked(nodes[1..], spec);
      match nodes[0] {
        case Text(text) =>
          RootPassIsClean(spec);
          assert [RootPass(spec)] + [] == [RootPass(spec)];
          MapTagsMarkerFree(text, [RootPass(spec)]);
          TextUnmarked(text, [RootPass(spec)]);
          UnmarkedBoth(Ok(MapTags(text, [RootPass(spec)])), EvalTop(nodes[1..], spec, []));
        case Loop(tag, body) =>
          NoPassIsClean();
          LoopUnmarked(tag, body, spec, "", []);
          UnmarkedBoth(EvalLoop(tag, body, spec, "", []), EvalTop(nodes[1..], spec, []));
      }
    }
  }

  lemma RootPassIsClean(spec: Fields)
    requires Clean(Obj(spec))
    ensures CleanPasses([RootPass(spec)])
  {
    forall k | k in spec && spec[k].Scalar?
      ensures '<' !in spec[k].text
    {
      assert Clean(spec[k]);
    }
  }

  lemma NoPassIsClean()
    ensures CleanPasses([])
  {
  }

  /** A balanced tag-complete template, rendered over data free of `<`, leaves no loop marker anywhere
      in the output. */
  lemma NoMarkerSurvives(content: string, spec: Fields)
    requires TagComplete(content) && LegalHeaders(content) && BalancedFrom(content, 0)
    requires Clean(Obj(spec))
    ensures FindLoops(content, 0).Ok?
    ensures var r := RenderTop(content, FindLoops(content, 0).value, 0, spec);
            r.Ok? ==> MarkerFree(r.value)
  {
    hide FindLoops, TagComplete, LegalHeaders, BalancedFrom, Clean, RenderTop, EvalTop, PlainTexts, MarkerFree,
      ParseTree;
    BalancedParses(content, 0);
    BodyTextsArePlain(content);
    RenderingIsEvaluation(content, spec);
    TopUnmarked(ParseTree(content).value, spec);
  }
}
