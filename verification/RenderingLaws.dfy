/** What rendering does to the pieces of a template, stated piece by piece: texts one after the other,
    placeholders outside and inside loops, and loops inside loops. */
module RenderingLaws {
  import opened GoStrings
  import opened Results
  import opened Specs
  import opened Tags
  import opened Loops
  import opened LoopDepth
  import opened LoopTrees
  import opened Rendering
  import opened Splitting
  import F = RenderingFacts

  // ---- Parsing a text in front of another ------------------------------------------------------

  lemma OccursInFront(u: string, v: string, pat: string, i: nat)
    requires i + |pat| <= |u|
    ensures OccursAt(u + v, pat, i) <==> OccursAt(u, pat, i)
  {
    hide OccursAt;
    OccursInSlice(u + v, 0, |u|, pat, i);
    assert (u + v)[0..|u|] == u;
  }

  lemma IndexInFront(u: string, v: string, pat: string, from: nat)
    requires from <= |u| && IndexFrom(u, pat, from) != -1
    ensures IndexFrom(u + v, pat, from) == IndexFrom(u, pat, from)
  {
    hide OccursAt, IndexFrom;
    IndexFromIsFirst(u, pat, from);
    var p := IndexFrom(u, pat, from);
    forall i: nat | i <= p
      ensures OccursAt(u + v, pat, i) <==> OccursAt(u, pat, i)
    {
      OccursInFront(u, v, pat, i);
    }
    IndexFromAt(u + v, pat, from, p);
  }

  /** An end that the scan finds before `v` begins is found all the same. */
  lemma {:induction false} MatchEndInFront(u: string, v: string, scan: nat, depth: nat)
    requires scan <= |u| && MatchEnd(u, scan, depth) != -1
    ensures MatchEnd(u + v, scan, depth) == MatchEnd(u, scan, depth)
    decreases |u| - scan
  {
    hide OccursAt, IndexFrom;
    if depth > 0 {
      var x, y := IndexFrom(u, START_TAG, scan), IndexFrom(u, END_TAG, scan);
      IndexInFront(u, v, END_TAG, scan);
      if x != -1 {
        IndexInFront(u, v, START_TAG, scan);
      } else {
        LaterStart(u, v, scan, y);
      }
      if x != -1 && x < y {
        MatchEndInFront(u, v, x + MARKER_LENGTH, depth + 1);
      } else {
        MatchEndInFront(u, v, y + MARKER_LENGTH, depth - 1);
      }
    }
  }

  lemma LaterStart(u: string, v: string, scan: nat, y: nat)
    requires scan <= y && y + MARKER_LENGTH <= |u| && IndexFrom(u, START_TAG, scan) == -1
    ensures IndexFrom(u + v, START_TAG, scan) == -1 || IndexFrom(u + v, START_TAG, scan) >= y
  {
    hide OccursAt, IndexFrom;
    IndexFromIsFirst(u, START_TAG, scan);
    IndexFromIsFirst(u + v, START_TAG, scan);
    var p := IndexFrom(u + v, START_TAG, scan);
    if scan <= p < y {
      OccursInFront(u, v, START_TAG, p);
    }
  }

  lemma BlockInFront(u: string, v: string, start: nat)
    requires start + MARKER_LENGTH <= |u| && BlockAt(u, start).Ok?
    ensures BlockAt(u + v, start) == BlockAt(u, start)
  {
    hide MatchEnd;
    var after := start + MARKER_LENGTH;
    var s, close := u + v, IndexChar(u, '>', after);
    assert forall i :: 0 <= i < |u| ==> s[i] == u[i];
    assert IndexChar(s, '>', after) == close;
    MatchEndInFront(u, v, close + 1, 1);
    var end := MatchEnd(u, close + 1, 1);
    assert s[after + 1..close] == u[after + 1..close];
    assert s[close + 1..end - MARKER_LENGTH] == u[close + 1..end - MARKER_LENGTH];
  }

  /** No start marker begins from `pos` up to where `v` begins. */
  lemma NoStartInFront(u: string, v: string, pos: nat)
    requires pos <= |u| && Seam(u, v) && IndexFrom(u, START_TAG, pos) == -1
    ensures IndexFrom(u + v, START_TAG, pos) == IndexFrom(u + v, START_TAG, |u|)
  {
    hide OccursAt, IndexFrom, Seam;
    var s := u + v;
    IndexFromIsFirst(u, START_TAG, pos);
    IndexFromIsFirst(s, START_TAG, pos);
    IndexFromIsFirst(s, START_TAG, |u|);
    forall i: nat | pos <= i < |u|
      ensures !OccursAt(s, START_TAG, i)
    {
      SignInPrefix(u, v, i);
    }
    var p, q := IndexFrom(s, START_TAG, pos), IndexFrom(s, START_TAG, |u|);
    assert p == -1 || p >= |u|;
    assert q != -1 ==> p != -1 && p <= q;
  }

  lemma FirstOfLoops(s: string, pos: nat)
    requires pos <= |s| && FindLoops(s, pos).Ok?
    ensures var start := IndexFrom(s, START_TAG, pos);
            if start == -1 then FindLoops(s, pos) == Ok([])
            else
              && BlockAt(s, start).Ok? && FindLoops(s, BlockAt(s, start).value.end).Ok?
              && FindLoops(s, pos) ==
                 Ok([BlockAt(s, start).value] + FindLoops(s, BlockAt(s, start).value.end).value)
  {
    hide IndexFrom, BlockAt, Fit;
  }

  /** The blocks of two texts one after the other are the blocks of both, the second ones moved. */
  lemma {:induction false} FindLoopsConcat(u: string, v: string, pos: nat)
    requires pos <= |u| && Seam(u, v) && FindLoops(u, pos).Ok? && FindLoops(v, 0).Ok?
    ensures FindLoops(u + v, pos) == Ok(FindLoops(u, pos).value + Shift(FindLoops(v, 0).value, |u|))
    decreases |u| - pos
  {
    hide IndexFrom, BlockAt, Seam, OccursAt, FindLoops, Fit, Shift;
    var s, start := u + v, IndexFrom(u, START_TAG, pos);
    FirstOfLoops(u, pos);
    if start == -1 {
      NoStartInFront(u, v, pos);
      assert s[|u|..] == v;
      FindLoopsShift(s, |u|, v, 0);
      SameStartSameBlocks(s, pos, |u|);
      assert [] + Shift(FindLoops(v, 0).value, |u|) == Shift(FindLoops(v, 0).value, |u|);
    } else {
      IndexInFront(u, v, START_TAG, pos);
      BlockInFront(u, v, start);
      var b := BlockAt(u, start).value;
      FindLoopsConcat(u, v, b.end);
      FindLoopsStep(s, pos, start, b);
      var x, y := FindLoops(u, b.end).value, Shift(FindLoops(v, 0).value, |u|);
      assert [b] + (x + y) == ([b] + x) + y;
    }
  }

  lemma SameStartSameBlocks(s: string, p: nat, q: nat)
    requires p <= |s| && q <= |s| && IndexFrom(s, START_TAG, p) == IndexFrom(s, START_TAG, q)
    ensures FindLoops(s, p) == FindLoops(s, q)
  {
    hide IndexFrom, BlockAt;
  }

  // ---- Rendering one text after the other ------------------------------------------------------

  /** The template with all its loops in place. */
  function Inline(content: string, spec: Fields): Result<string> {
    var blocks :- FindLoops(content, 0);
    RenderTop(content, blocks, 0, spec)
  }

  lemma EarlierGap(s: string, blocks: seq<Block>, pos: nat, mid: nat, spec: Fields)
    requires pos <= mid <= |s| && Fit(s, mid, blocks) && Fit(s, pos, blocks) && TagComplete(s[pos..mid])
    ensures RenderTop(s, blocks, pos, spec) ==
            Both(Ok(MapTags(s[pos..mid], [RootPass(spec)])), RenderTop(s, blocks, mid, spec))
  {
    hide TagComplete, MapTags, RenderLoop;
    var root := [RootPass(spec)];
    var end := if blocks == [] then |s| else blocks[0].start;
    assert s[pos..end] == s[pos..mid] + s[mid..end] && s[mid..|s|] == s[mid..] && s[pos..|s|] == s[pos..];
    MapTagsConcat(s[pos..mid], s[mid..end], root);
    if blocks != [] {
      var g, h, r := MapTags(s[pos..mid], root), MapTags(s[mid..end], root), RenderLoop(blocks[0], spec, "");
      var rest := RenderTop(s, blocks[1..], blocks[0].end, spec);
      if r.Ok? && rest.Ok? {
        assert (g + h) + r.value + rest.value == g + (h + r.value + rest.value);
      }
    }
  }

  lemma {:induction false} TopConcat(u: string, v: string, pos: nat, blocks: seq<Block>, more: seq<Block>, spec: Fields)
    requires Fit(u, pos, blocks) && Fit(v, 0, more) && InOrder(u, pos, blocks) && TagComplete(u[pos..])
    requires Fit(u + v, pos, blocks + Shift(more, |u|)) && Fit(u + v, |u|, Shift(more, |u|))
    ensures RenderTop(u + v, blocks + Shift(more, |u|), pos, spec) ==
            Both(RenderTop(u, blocks, pos, spec), RenderTop(v, more, 0, spec))
    decreases |blocks|
  {
    hide TagComplete, RenderLoop, MapTags, LaidOut, OccursAt;
    var s, moved := u + v, Shift(more, |u|);
    if blocks == [] {
      assert [] + moved == moved && s[|u|..] == v && s[pos..|u|] == u[pos..];
      EarlierGap(s, moved, pos, |u|, spec);
      RenderTopShift(s, |u|, v, 0, more, spec);
    } else {
      var b := blocks[0];
      BlockPieces(u, pos, b);
      assert (blocks + moved)[0] == b && (blocks + moved)[1..] == blocks[1..] + moved;
      assert s[pos..b.start] == u[pos..b.start];
      TopConcat(u, v, b.end, blocks[1..], more, spec);
      var r, x, y := RenderLoop(b, spec, ""), RenderTop(u, blocks[1..], b.end, spec), RenderTop(v, more, 0, spec);
      if r.Ok? && x.Ok? && y.Ok? {
        var g := MapTags(u[pos..b.start], [RootPass(spec)]);
        assert g + r.value + (x.value + y.value) == (g + r.value + x.value) + y.value;
      }
    }
  }

  lemma {:induction false} FitConcat(u: string, v: string, pos: nat, blocks: seq<Block>, more: seq<Block>)
    requires Fit(u, pos, blocks) && Fit(v, 0, more)
    ensures Fit(u + v, pos, blocks + Shift(more, |u|)) && Fit(u + v, |u|, Shift(more, |u|))
    decreases |blocks|
  {
    FitShift(u, v, 0, more);
    if blocks == [] {
      assert [] + Shift(more, |u|) == Shift(more, |u|);
      FitEarlier(u + v, pos, |u|, Shift(more, |u|));
    } else {
      assert (blocks + Shift(more, |u|))[1..] == blocks[1..] + Shift(more, |u|);
      FitConcat(u, v, blocks[0].end, blocks[1..], more);
    }
  }

  lemma {:induction false} FitShift(u: string, v: string, pos: nat, more: seq<Block>)
    requires Fit(v, pos, more)
    ensures Fit(u + v, |u| + pos, Shift(more, |u|))
    decreases |more|
  {
    if more != [] {
      FitShift(u, v, more[0].end, more[1..]);
      assert Shift(more, |u|)[1..] == Shift(more[1..], |u|);
    }
  }

  lemma FitEarlier(s: string, pos: nat, mid: nat, blocks: seq<Block>)
    requires pos <= mid && Fit(s, mid, blocks)
    ensures Fit(s, pos, blocks)
  {
  }

  /** Two texts one after the other render to their renderings one after the other. */
  lemma InlineConcat(u: string, v: string, spec: Fields)
    requires TagComplete(u) && Seam(u, v) && FindLoops(u, 0).Ok? && FindLoops(v, 0).Ok?
    ensures FindLoops(u + v, 0).Ok?
    ensures Inline(u + v, spec) == Both(Inline(u, spec), Inline(v, spec))
  {
    hide FindLoops, TagComplete, Seam, InOrder, RenderTop;
    FindLoopsConcat(u, v, 0);
    FoundInOrder(u, 0);
    var blocks, more := FindLoops(u, 0).value, FindLoops(v, 0).value;
    FitConcat(u, v, 0, blocks, more);
    assert u[0..] == u;
    TopConcat(u, v, 0, blocks, more, spec);
  }

  lemma PlainInline(t: string, spec: Fields)
    requires MarkerFree(t)
    ensures FindLoops(t, 0) == Ok([])
    ensures Inline(t, spec) == Ok(MapTags(t, [RootPass(spec)]))
  {
    hide FindLoops, MarkerFree, MapTags;
    NoLoopsIn(t);
    assert t[0..] == t;
  }

  /** Outside every loop a placeholder that names a scalar field of the spec becomes its text, one that
      names a null field `<nil>`, and one that names no such field stays exactly as it is. */
  lemma PlaceholderOutsideLoops(n: string, spec: Fields)
    requires LegalName(n) && !IsMarkerName(n) && MarkerFree("<" + n + ">")
    ensures forall key :: key in spec && spec[key].Scalar? && ToUpper(TrimPrefix(n, "FGT_")) == key ==>
              Inline("<" + n + ">", spec) == Ok(spec[key].text)
    ensures forall key :: key in spec && spec[key].Null? && ToUpper(TrimPrefix(n, "FGT_")) == key ==>
              Inline("<" + n + ">", spec) == Ok("<nil>")
    ensures (forall key :: key in spec && ToUpper(TrimPrefix(n, "FGT_")) == key ==>
               spec[key].List? || spec[key].Obj?) ==>
              Inline("<" + n + ">", spec) == Ok("<" + n + ">")
  {
    hide MarkerFree, FindLoops, MapTags, ToUpper, TrimPrefix;
    var s := "<" + n + ">";
    PlainInline(s, spec);
    hide Inline;
    OneTag(n, RootPass(spec));
    RootStep(n, spec);
    assert "<" + "nil" + ">" == "<nil>";
  }

  lemma RootStep(n: string, spec: Fields)
    requires !IsMarkerName(n)
    ensures var tag := ToUpper(TrimPrefix(n, "FGT_"));
            Step(n, RootPass(spec)) ==
            if tag in spec && spec[tag].Scalar? then Done(spec[tag].text)
            else if tag in spec && spec[tag].Null? then Pending("nil")
            else Pending(n)
  {
    hide IsMarkerName, ToUpper, TrimPrefix, FieldNamed;
    var tag := ToUpper(TrimPrefix(n, "FGT_"));
    if tag in spec && IsPlain(spec[tag]) {
      FieldPathIsUnique(tag, "", spec, tag);
    } else {
      NoFieldNamed(tag, "", spec);
    }
  }

  lemma OneTag(n: string, pass: Pass)
    requires LegalName(n)
    ensures MapTags("<" + n + ">", [pass]) == Show(Step(n, pass))
  {
    hide Step;
    var s, shown := "<" + n + ">", Show(Step(n, pass));
    SingleTag(n, "");
    assert s + "" == s && shown + "" == shown;
    SinglePassHead(s, pass);
  }

  /** The same wherever the placeholder stands in a template, as long as that is outside every loop. */
  lemma PlaceholderBetween(u: string, n: string, w: string, spec: Fields)
    requires TagComplete(u) && FindLoops(u, 0).Ok? && FindLoops(w, 0).Ok?
    requires LegalName(n) && MarkerFree("<" + n + ">")
    ensures FindLoops(u + ("<" + n + ">") + w, 0).Ok?
    ensures Inline(u + ("<" + n + ">") + w, spec) ==
            Both(Both(Inline(u, spec), Inline("<" + n + ">", spec)), Inline(w, spec))
  {
    hide FindLoops, TagComplete, MarkerFree, Inline;
    var s := "<" + n + ">";
    assert s[0] == '<' && (u + s)[|u + s| - 1] == '>';
    PlainInline(s, spec);
    InlineConcat(u, s, spec);
    SingleTagComplete(n);
    TagCompleteConcat(u, s);
    InlineConcat(u + s, w, spec);
  }

  // ---- The body of a loop ----------------------------------------------------------------------

  /** The body of a loop for one of its items. */
  function Body(body: string, item: Fields, path: string, index: nat): Result<string> {
    var nested :- FindLoops(body, 0);
    RenderBody(body, nested, item, path, index)
  }

  lemma {:induction false} NestedShift(s: string, k: nat, t: string, pos: nat, blocks: seq<Block>, item: Fields,
                                       path: string)
    requires k <= |s| && t == s[k..] && Fit(t, pos, blocks) && Fit(s, k + pos, Shift(blocks, k))
    ensures RenderNested(s, Shift(blocks, k), k + pos, item, path) == RenderNested(t, blocks, pos, item, path)
    decreases |blocks|
  {
    hide RenderLoop;
    if blocks == [] {
      assert t[pos..] == s[k + pos..];
    } else {
      var b, moved := blocks[0], Shift(blocks, k);
      assert moved[0] == b.(start := b.start + k, end := b.end + k) && moved[1..] == Shift(blocks[1..], k);
      assert t[pos..b.start] == s[k + pos..k + b.start];
      SameLoop(b, moved[0], item, path);
      NestedShift(s, k, t, b.end, blocks[1..], item, path);
    }
  }

  lemma NestedEarlierGap(s: string, blocks: seq<Block>, pos: nat, mid: nat, item: Fields, path: string)
    requires pos <= mid <= |s| && Fit(s, mid, blocks) && Fit(s, pos, blocks)
    ensures RenderNested(s, blocks, pos, item, path) == Both(Ok(s[pos..mid]), RenderNested(s, blocks, mid, item, path))
  {
    if blocks == [] {
      assert s[pos..] == s[pos..mid] + s[mid..];
    } else {
      hide RenderLoop, RenderNested;
      var b := blocks[0];
      assert s[pos..b.start] == s[pos..mid] + s[mid..b.start];
      var r, rest := RenderLoop(b, item, path), RenderNested(s, blocks[1..], b.end, item, path);
      NestedStep(s, blocks, pos, item, path);
      NestedStep(s, blocks, mid, item, path);
      LongerGap(s[pos..mid], s[mid..b.start], r, rest);
    }
  }

  lemma LongerGap(g: string, h: string, r: Result<string>, rest: Result<string>)
    ensures Both(Both(Ok(g + h), r), rest) == Both(Ok(g), Both(Both(Ok(h), r), rest))
  {
    if r.Ok? && rest.Ok? {
      assert (g + h) + r.value + rest.value == g + (h + r.value + rest.value);
    }
  }

  lemma NestedStep(s: string, blocks: seq<Block>, pos: nat, item: Fields, path: string)
    requires Fit(s, pos, blocks) && blocks != []
    ensures RenderNested(s, blocks, pos, item, path) ==
            Both(Both(Ok(s[pos..blocks[0].start]), RenderLoop(blocks[0], item, path)),
                 RenderNested(s, blocks[1..], blocks[0].end, item, path))
  {
    hide RenderLoop;
  }

  lemma {:induction false} NestedConcat(u: string, v: string, pos: nat, blocks: seq<Block>, more: seq<Block>,
                                        item: Fields, path: string)
    requires Fit(u, pos, blocks) && Fit(v, 0, more)
    requires Fit(u + v, pos, blocks + Shift(more, |u|)) && Fit(u + v, |u|, Shift(more, |u|))
    ensures RenderNested(u + v, blocks + Shift(more, |u|), pos, item, path) ==
            Both(RenderNested(u, blocks, pos, item, path), RenderNested(v, more, 0, item, path))
    decreases |blocks|
  {
    hide RenderLoop;
    var s, moved := u + v, Shift(more, |u|);
    if blocks == [] {
      assert [] + moved == moved && s[|u|..] == v && s[pos..|u|] == u[pos..];
      NestedEarlierGap(s, moved, pos, |u|, item, path);
      NestedShift(s, |u|, v, 0, more, item, path);
    } else {
      var b := blocks[0];
      assert (blocks + moved)[0] == b && (blocks + moved)[1..] == blocks[1..] + moved;
      assert s[pos..b.start] == u[pos..b.start];
      NestedConcat(u, v, b.end, blocks[1..], more, item, path);
      var r := RenderLoop(b, item, path);
      var x, y := RenderNested(u, blocks[1..], b.end, item, path), RenderNested(v, more, 0, item, path);
      if r.Ok? && x.Ok? && y.Ok? {
        var g := u[pos..b.start];
        assert g + r.value + (x.value + y.value) == (g + r.value + x.value) + y.value;
      }
    }
  }

  /** Two texts one after the other in a body become what they become alone, one after the other. */
  lemma BodyConcat(u: string, v: string, item: Fields, path: string, index: nat)
    requires TagComplete(u) && Seam(u, v) && FindLoops(u, 0).Ok? && FindLoops(v, 0).Ok?
    requires ParseTree(u).Ok? && Clean(Obj(item))
    ensures FindLoops(u + v, 0).Ok?
    ensures Body(u + v, item, path, index) == Both(Body(u, item, path, index), Body(v, item, path, index))
  {
    hide FindLoops, TagComplete, Seam, InOrder, RenderNested, TreeFrom, Clean, EvalNodes;
    FindLoopsConcat(u, v, 0);
    FoundInOrder(u, 0);
    var blocks, more, own := FindLoops(u, 0).value, FindLoops(v, 0).value, [ItemFields(path, item, Some(index))];
    FitConcat(u, v, 0, blocks, more);
    NestedConcat(u, v, 0, blocks, more, item, path);
    assert u[0..] == u;
    NestedAgrees(u, blocks, 0, item, path, own, ParseTree(u).value);
    var x, y := RenderNested(u, blocks, 0, item, path), RenderNested(v, more, 0, item, path);
    if x.Ok? && y.Ok? {
      MapTagsConcat(x.value, y.value, own);
    }
  }

  // ---- A placeholder inside loops --------------------------------------------------------------

  /** `t` stands somewhere in `s`. */
  ghost predicate Contains(s: string, t: string) {
    exists x, y :: s == x + t + y
  }

  lemma ContainsIn(x: string, s: string, y: string, t: string)
    requires Contains(s, t)
    ensures Contains(x + s + y, t)
  {
    var a, b :| s == a + t + b;
    assert x + s + y == (x + a) + t + (b + y);
  }

  lemma ContainsItself(t: string)
    ensures Contains(t, t)
  {
    assert t == "" + t + "";
  }

  /** `inner` inside loops over `tags`, the first one outermost. */
  function Wrapped(tags: seq<string>, inner: string): string {
    if tags == [] then inner else Wrap(tags[0], Wrapped(tags[1..], inner))
  }

  /** The same as a tree. */
  function WrappedTree(tags: seq<string>, inner: string): seq<Node> {
    if tags == [] then [Text(inner)] else [Text(""), Loop(tags[0], WrappedTree(tags[1..], inner)), Text("")]
  }

  function UpperTree(tags: seq<string>, inner: string): seq<Node> {
    if tags == [] then [Text(inner)] else [Text(""), Loop(ToUpper(tags[0]), UpperTree(tags[1..], inner)), Text("")]
  }

  /** The items that the loops over `tags` stand at when the outermost one is at its item `idx[0]`, the next
      at its item `idx[1]` and so on, counted from 0; innermost first, in front of `outer`. None when there
      is no such item or it is null. */
  function PassesAt(tags: seq<string>, idx: seq<nat>, parent: Fields, base: string, outer: seq<Pass>): Option<seq<Pass>>
    requires |idx| == |tags|
    decreases |tags|
  {
    if tags == [] then Some(outer)
    else
      match ListAt(parent, ToUpper(tags[0]))
      case None => None
      case Some(list) =>
        if idx[0] >= |list| then None
        else
          match ResolveItem(list[idx[0]])
          case None => None
          case Some(item) =>
            var path := FieldPath(base, ToUpper(tags[0]));
            PassesAt(tags[1..], idx[1..], item, path, [ItemFields(path, item, Some(idx[0] + 1))] + outer)
  }

  lemma {:induction false} ItemIsRendered(body: seq<Node>, list: seq<Value>, i: nat, j: nat, path: string,
                                          outer: seq<Pass>, t: string)
    requires i <= j < |list| && ResolveItem(list[j]).Some? && EvalItems(body, list, i, path, outer).Ok?
    requires var item := ResolveItem(list[j]).value;
             var one := EvalNodes(body, item, path, [ItemFields(path, item, Some(j + 1))] + outer);
             one.Ok? ==> Contains(one.value, t)
    ensures Contains(EvalItems(body, list, i, path, outer).value, t)
    decreases j - i
  {
    hide EvalNodes, Contains;
    var whole := EvalItems(body, list, i, path, outer).value;
    var rest := EvalItems(body, list, i + 1, path, outer).value;
    match ResolveItem(list[i])
    case None => ItemIsRendered(body, list, i + 1, j, path, outer, t);
    case Some(item) =>
      var first := EvalNodes(body, item, path, [ItemFields(path, item, Some(i + 1))] + outer).value;
      assert whole == first + rest;
      if i == j {
        ContainsIn("", first, rest, t);
        assert "" + first + rest == whole;
      } else {
        ItemIsRendered(body, list, i + 1, j, path, outer, t);
        ContainsIn(first, rest, "", t);
        assert first + rest + "" == whole;
      }
  }

  lemma LoopAlone(tag: string, body: seq<Node>, item: Fields, path: string, passes: seq<Pass>)
    ensures EvalNodes([Text(""), Loop(tag, body), Text("")], item, path, passes) ==
            EvalLoop(tag, body, item, path, passes)
  {
    hide EvalLoop;
    var nodes := [Text(""), Loop(tag, body), Text("")];
    assert nodes == [Text(""), Loop(tag, body)] + [Text("")];
    EvalTextAndLoop("", tag, body, [Text("")], item, path, passes);
    EvalOneText("", item, path, passes);
    assert MapTags("", passes) == "";
    var r := EvalLoop(tag, body, item, path, passes);
    assert r.Ok? ==> "" + r.value == r.value && r.value + "" == r.value;
  }

  lemma {:induction false} DeepPlaceholder(tags: seq<string>, idx: seq<nat>, n: string, item: Fields, path: string,
                                           outer: seq<Pass>)
    requires |idx| == |tags| && LegalName(n) && PassesAt(tags, idx, item, path, outer).Some?
    requires EvalNodes(UpperTree(tags, "<" + n + ">"), item, path, outer).Ok?
    ensures Contains(EvalNodes(UpperTree(tags, "<" + n + ">"), item, path, outer).value,
                     Show(Resolve(n, PassesAt(tags, idx, item, path, outer).value)))
    decreases |tags|
  {
    hide Contains, ListAt, EvalNodes;
    var s := "<" + n + ">";
    if tags == [] {
      EvalOneText(s, item, path, outer);
      TagThrough(n, outer);
      ContainsItself(Show(Resolve(n, outer)));
    } else {
      var tag, inner := ToUpper(tags[0]), UpperTree(tags[1..], s);
      LoopAlone(tag, inner, item, path, outer);
      var list := ListAt(item, tag).value;
      var next, below := ResolveItem(list[idx[0]]).value, FieldPath(path, tag);
      var passes := [ItemFields(below, next, Some(idx[0] + 1))] + outer;
      if EvalNodes(inner, next, below, passes).Ok? {
        DeepPlaceholder(tags[1..], idx[1..], n, next, below, passes);
      }
      ItemIsRendered(inner, list, 0, idx[0], below, outer,
                     Show(Resolve(n, PassesAt(tags, idx, item, path, outer).value)));
    }
  }

  lemma TagThrough(n: string, passes: seq<Pass>)
    requires LegalName(n)
    ensures MapTags("<" + n + ">", passes) == Show(Resolve(n, passes))
  {
    hide Resolve;
    var s, shown := "<" + n + ">", Show(Resolve(n, passes));
    SingleTag(n, "");
    assert s + "" == s && shown + "" == shown;
  }

  predicate LegalTags(tags: seq<string>) {
    forall t :: t in tags ==> LegalName(t) && !IsMarkerWord(t)
  }

  lemma {:induction false} WrappedIs(tags: seq<string>, inner: string)
    requires LegalTags(tags) && TagComplete(inner) && MarkerFree(inner)
    ensures WellFormed(WrappedTree(tags, inner)) && UpperNames(WrappedTree(tags, inner)) == UpperTree(tags, inner)
    ensures Print(WrappedTree(tags, inner)) == Wrapped(tags, inner) && TagComplete(Wrapped(tags, inner))
  {
    hide TagComplete, MarkerFree, Print, Wrap;
    if tags == [] {
      PrintText(inner);
    } else {
      var rest := tags[1..];
      assert tags[0] in tags && forall t :: t in rest ==> t in tags;
      WrappedIs(rest, inner);
      var tree := [Text(""), Loop(tags[0], WrappedTree(rest, inner)), Text("")];
      assert tree[2..] == [Text("")];
      NothingIsPlain();
      NoBracketComplete("");
      F.TagIsMarkerFree(tags[0]);
      UpperThree(tree);
      PrintThree(tree);
      PrintText("");
      var w := Wrap(tags[0], Wrapped(rest, inner));
      assert "" + w + "" == w;
      WrapIsComplete(tags[0], Wrapped(rest, inner));
    }
  }

  lemma WrapIsComplete(name: string, body: string)
    requires LegalName(name) && TagComplete(body)
    ensures TagComplete(Wrap(name, body))
  {
    hide TagComplete;
    var tag := "<" + name + ">";
    SingleTagComplete("FGT_FOR_STR");
    SingleTagComplete("FGT_FOR_END");
    SingleTagComplete(name);
    assert "<" + "FGT_FOR_STR" + ">" == START_TAG && "<" + "FGT_FOR_END" + ">" == END_TAG;
    TagCompleteConcat(START_TAG, tag);
    assert START_TAG + tag == Header(name);
    TagCompleteConcat(Header(name), body);
    TagCompleteConcat(Header(name) + body, END_TAG);
  }

  /** A placeholder inside loops, at any depth: for every item of the outermost loop, every item of the next
      in it and so on, the output contains what that placeholder becomes there, scanned by the items from
      the innermost outward. */
  lemma PlaceholderInLoops(tags: seq<string>, idx: seq<nat>, n: string, spec: Fields)
    requires tags != [] && |idx| == |tags| && LegalTags(tags) && Clean(Obj(spec))
    requires LegalName(n) && MarkerFree("<" + n + ">")
    requires PassesAt(tags, idx, spec, "", []).Some? && Inline(Wrapped(tags, "<" + n + ">"), spec).Ok?
    ensures Contains(Inline(Wrapped(tags, "<" + n + ">"), spec).value,
                     Show(Resolve(n, PassesAt(tags, idx, spec, "", []).value)))
  {
    hide TagComplete, MarkerFree, FindLoops, ParseTree, Clean, RenderTop, EvalLoop, Contains, Wrapped, ListAt, MapTags;
    var s := "<" + n + ">";
    var content, tree := Wrapped(tags, s), UpperTree(tags, s);
    SingleTagComplete(n);
    WrappedIs(tags, s);
    ParseUndoesPrint(WrappedTree(tags, s));
    F.RenderingAgrees(content, spec, []);
    var r := Inline(content, spec);
    NoPasses(r.value);
    TopLoopAlone(ToUpper(tags[0]), UpperTree(tags[1..], s), spec);
    LoopAlone(ToUpper(tags[0]), UpperTree(tags[1..], s), spec, "", []);
    DeepPlaceholder(tags, idx, n, spec, "", []);
  }

  lemma TopLoopAlone(tag: string, body: seq<Node>, spec: Fields)
    ensures EvalTop([Text(""), Loop(tag, body), Text("")], spec, []) == EvalLoop(tag, body, spec, "", [])
  {
    hide EvalLoop, MapTags;
    var nodes := [Text(""), Loop(tag, body), Text("")];
    assert nodes == [Text(""), Loop(tag, body)] + [Text("")];
    F.EvalTopTextAndLoop("", tag, body, [Text("")], spec, []);
    F.EvalTopText("", spec, []);
    MapTagsPlain("", [RootPass(spec)] + []);
    var r := EvalLoop(tag, body, spec, "", []);
    assert r.Ok? ==> "" + r.value == r.value && r.value + "" == r.value;
  }

  /** The numbers of the items, counted from 1, the innermost first. */
  function Numbers(idx: seq<nat>): string {
    if idx == [] then "" else Numbers(idx[1..]) + "_" + Itoa(idx[0] + 1)
  }

  lemma {:induction false} SuffixedIsNumbered(tags: seq<string>, idx: seq<nat>, n: string, parent: Fields, base: string,
                                              outer: seq<Pass>)
    requires |idx| == |tags| && PassesAt(tags, idx, parent, base, outer).Some?
    ensures Suffixed(n, PassesAt(tags, idx, parent, base, outer).value) == Suffixed(n + Numbers(idx), outer)
    decreases |tags|
  {
    hide ListAt, Itoa;
    if tags == [] {
      assert n + "" == n;
    } else {
      var item := ResolveItem(ListAt(parent, ToUpper(tags[0])).value[idx[0]]).value;
      var path := FieldPath(base, ToUpper(tags[0]));
      var own := ItemFields(path, item, Some(idx[0] + 1));
      SuffixedIsNumbered(tags[1..], idx[1..], n, item, path, [own] + outer);
      var m := n + Numbers(idx[1..]);
      assert ([own] + outer)[1..] == outer;
      assert m + "_" + Itoa(idx[0] + 1) == n + (Numbers(idx[1..]) + "_" + Itoa(idx[0] + 1));
    }
  }

  /** A placeholder that no level matches ends with the numbers of the items it stands in, `<n_id_..._i1>`. */
  lemma UnmatchedInLoops(tags: seq<string>, idx: seq<nat>, n: string, spec: Fields)
    requires tags != [] && |idx| == |tags| && LegalTags(tags) && Clean(Obj(spec))
    requires LegalName(n) && MarkerFree("<" + n + ">") && !IsMarkerName(n)
    requires PassesAt(tags, idx, spec, "", []).Some? && Inline(Wrapped(tags, "<" + n + ">"), spec).Ok?
    requires var passes := PassesAt(tags, idx, spec, "", []).value;
             forall j :: 0 <= j < |passes| ==> !Matches(Suffixed(n, passes[..j]), passes[j])
    ensures Contains(Inline(Wrapped(tags, "<" + n + ">"), spec).value, "<" + n + Numbers(idx) + ">")
  {
    hide MarkerFree, Contains, PassesAt, Clean, Matches, IsMarkerName, Inline, Wrapped, Resolve;
    PlaceholderInLoops(tags, idx, n, spec);
    var passes := PassesAt(tags, idx, spec, "", []).value;
    UnresolvedCollectsIndices(n, passes);
    SuffixedIsNumbered(tags, idx, n, spec, "", []);
    assert "<" + (n + Numbers(idx)) + ">" == "<" + n + Numbers(idx) + ">";
  }

  /** One that its own, innermost item has as a scalar field is that field's text. */
  lemma OwnFieldInLoops(tags: seq<string>, idx: seq<nat>, n: string, key: string, spec: Fields)
    requires tags != [] && |idx| == |tags| && LegalTags(tags) && Clean(Obj(spec))
    requires LegalName(n) && MarkerFree("<" + n + ">") && !IsMarkerName(n)
    requires PassesAt(tags, idx, spec, "", []).Some? && Inline(Wrapped(tags, "<" + n + ">"), spec).Ok?
    requires var passes := PassesAt(tags, idx, spec, "", []).value;
             && passes != [] && passes[0].ItemFields? && key in passes[0].item && passes[0].item[key].Scalar?
             && ToUpper(TrimPrefix(n, "FGT_")) == passes[0].path + "_" + key && passes[0].path != ""
    ensures Contains(Inline(Wrapped(tags, "<" + n + ">"), spec).value,
                     PassesAt(tags, idx, spec, "", []).value[0].item[key].text)
  {
    hide MarkerFree, Contains, PassesAt, Clean, IsMarkerName, Inline, Wrapped;
    PlaceholderInLoops(tags, idx, n, spec);
    var pass := PassesAt(tags, idx, spec, "", []).value[0];
    FieldIsFound(n, pass.path, pass.item, pass.index);
    assert Names(n, pass.path, key);
  }
}
