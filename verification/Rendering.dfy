/** What the engine renders, and a one-pass evaluator over loop trees that it agrees with. */
module Rendering {
  import opened GoStrings
  import opened Results
  import opened Specs
  import opened Tags
  import opened Loops
  import opened LoopTrees

  // ---- Rendering as the engine does it ---------------------------------------------------------

  /** One block against the object its list lives in. `base` is the path of the enclosing loops. */
  function RenderLoop(blk: Block, parent: Fields, base: string): (r: Result<string>)
    ensures r.Err? ==> IsTemplateError(r.error)
    decreases |blk.body|, 3, 0
  {
    match ListAt(parent, blk.tag)
    case None => Err(NoList(blk.tag))
    case Some(list) =>
      var nested :- FindLoops(blk.body, 0);
      RenderItems(blk.body, nested, list, 0, FieldPath(base, blk.tag))
  }

  function RenderItems(body: string, nested: seq<Block>, list: seq<Value>, i: nat, path: string): (r: Result<string>)
    requires Fit(body, 0, nested) && i <= |list|
    ensures r.Err? ==> IsTemplateError(r.error)
    decreases |body|, 2, |list| - i
  {
    if i == |list| then Ok("")
    else
      match ResolveItem(list[i])
      case None => RenderItems(body, nested, list, i + 1, path)
      case Some(item) =>
        var first :- RenderBody(body, nested, item, path, i + 1);
        var rest :- RenderItems(body, nested, list, i + 1, path);
        Ok(first + rest)
  }

  /** The body once: its nested loops first, then the item's own fields over all of that text. */
  function RenderBody(body: string, nested: seq<Block>, item: Fields, path: string, index: nat): (r: Result<string>)
    requires Fit(body, 0, nested)
    ensures r.Err? ==> IsTemplateError(r.error)
    decreases |body|, 1, 0
  {
    var raw :- RenderNested(body, nested, 0, item, path);
    Ok(MapTags(raw, [ItemFields(path, item, Some(index))]))
  }

  function RenderNested(body: string, nested: seq<Block>, pos: nat, item: Fields, path: string): (r: Result<string>)
    requires Fit(body, pos, nested)
    ensures r.Err? ==> IsTemplateError(r.error)
    decreases |body|, 0, |nested|
  {
    if nested == [] then Ok(body[pos..])
    else
      var first :- RenderLoop(nested[0], item, path);
      var rest :- RenderNested(body, nested[1..], nested[0].end, item, path);
      Ok(body[pos..nested[0].start] + first + rest)
  }

  function RootPass(spec: Fields): Pass {
    ItemFields("", spec, None)
  }

  /** All blocks of a text in place; the text between them against the root of the spec. */
  function RenderTop(content: string, blocks: seq<Block>, pos: nat, spec: Fields): (r: Result<string>)
    requires Fit(content, pos, blocks)
    ensures r.Err? ==> IsTemplateError(r.error)
    decreases |blocks|
  {
    if blocks == [] then Ok(MapTags(content[pos..], [RootPass(spec)]))
    else
      var first :- RenderLoop(blocks[0], spec, "");
      var rest :- RenderTop(content, blocks[1..], blocks[0].end, spec);
      Ok(MapTags(content[pos..blocks[0].start], [RootPass(spec)]) + first + rest)
  }

  // ---- Evaluating a tree in one pass -----------------------------------------------------------

  /** The nodes inside one item of a loop. `passes` are the items of this loop and of all those around
      it, innermost first; every piece of template text is scanned once, with all of them. */
  function EvalNodes(nodes: seq<Node>, item: Fields, path: string, passes: seq<Pass>): Result<string>
    decreases nodes, 0, 0
  {
    if nodes == [] then Ok("")
    else
      var first :- EvalNode(nodes[0], item, path, passes);
      var rest :- EvalNodes(nodes[1..], item, path, passes);
      Ok(first + rest)
  }

  function EvalNode(node: Node, item: Fields, path: string, passes: seq<Pass>): Result<string>
    decreases node, 2, 0
  {
    match node
    case Text(text) => Ok(MapTags(text, passes))
    case Loop(tag, body) => EvalLoop(tag, body, item, path, passes)
  }

  function EvalLoop(tag: string, body: seq<Node>, parent: Fields, base: string, outer: seq<Pass>): Result<string>
    decreases body, 2, 0
  {
    match ListAt(parent, tag)
    case None => Err(NoList(tag))
    case Some(list) => EvalItems(body, list, 0, FieldPath(base, tag), outer)
  }

  function EvalItems(body: seq<Node>, list: seq<Value>, i: nat, path: string, outer: seq<Pass>): Result<string>
    requires i <= |list|
    decreases body, 1, |list| - i
  {
    if i == |list| then Ok("")
    else
      match ResolveItem(list[i])
      case None => EvalItems(body, list, i + 1, path, outer)
      case Some(item) =>
        var first :- EvalNodes(body, item, path, [ItemFields(path, item, Some(i + 1))] + outer);
        var rest :- EvalItems(body, list, i + 1, path, outer);
        Ok(first + rest)
  }

  /** The whole template: its own texts against the root of the spec, then `outer`; its loops with `outer`
      around them. The engine has no pass around the template; a rule is one. */
  function EvalTop(nodes: seq<Node>, spec: Fields, outer: seq<Pass>): Result<string> {
    if nodes == [] then Ok("")
    else
      var first :-
        match nodes[0]
        case Text(text) => Ok(MapTags(text, [RootPass(spec)] + outer))
        case Loop(tag, body) => EvalLoop(tag, body, spec, "", outer);
      var rest :- EvalTop(nodes[1..], spec, outer);
      Ok(first + rest)
  }

  // ---- Tag-complete pieces ---------------------------------------------------------------------

  lemma StripTag(name: string, rest: string)
    requires '>' !in name && TagComplete("<" + name + ">" + rest)
    ensures LegalName(name) && TagComplete(rest)
  {
    var s := "<" + name + ">" + rest;
    assert s[|name| + 1] == '>';
    assert forall i :: 0 < i <= |name| ==> s[i] == name[i - 1];
    assert IndexChar(s, '>', 1) == |name| + 1;
    assert s[|name| + 2..] == rest;
    assert s[1..|name| + 1] == name;
  }

  /** In a tag-complete text the gap before a block, its body and the text after it are tag-complete. */
  lemma BlockPieces(s: string, pos: nat, b: Block)
    requires pos <= b.start && LaidOut(s, b) && TagComplete(s[pos..])
    ensures TagComplete(s[pos..b.start]) && TagComplete(b.body) && TagComplete(s[b.end..])
  {
    hide TagComplete;
    var name := WrittenName(s, b);
    var block := Wrap(name, b.body);
    assert s[b.start..b.end] == block;
    assert block[0] == '<';
    assert s[b.start] == '<';
    var t := s[pos..];
    TagCompleteTake(t, b.start - pos);
    TagCompleteDrop(t, b.start - pos);
    assert t[..b.start - pos] == s[pos..b.start];
    assert t[b.start - pos..] == s[b.start..];
    var after := s[b.end..];
    assert s[b.start..] == block + after;
    WrapPieces(name, b.body, after);
  }

  lemma StripMarker(marker: string, rest: string)
    requires (marker == START_TAG || marker == END_TAG) && TagComplete(marker + rest)
    ensures TagComplete(rest)
  {
    hide TagComplete;
    var name := marker[1..MARKER_LENGTH - 1];
    assert marker == "<" + name + ">";
    StripTag(name, rest);
  }

  lemma WrapPieces(name: string, body: string, rest: string)
    requires '>' !in name && TagComplete(Wrap(name, body) + rest)
    ensures TagComplete(body) && TagComplete(rest) && LegalName(name)
  {
    hide TagComplete;
    var u := END_TAG + rest;
    var w := body + u;
    var v := "<" + name + ">" + w;
    assert Wrap(name, body) + rest == START_TAG + v;
    StripMarker(START_TAG, v);
    StripTag(name, w);
    assert w[|body|] == '<';
    TagCompleteTake(w, |body|);
    TagCompleteDrop(w, |body|);
    assert w[..|body|] == body && w[|body|..] == u;
    StripMarker(END_TAG, rest);
  }

  // ---- Agreement -------------------------------------------------------------------------------

  /** No scalar anywhere in the value contains `<`. */
  ghost predicate Clean(v: Value) {
    match v
    case Null => true
    case Scalar(text) => '<' !in text
    case List(items) => forall i :: 0 <= i < |items| ==> Clean(items[i])
    case Obj(fields) => forall k :: k in fields ==> Clean(fields[k])
  }

  lemma {:induction false} CleanWalk(v: Value, keys: seq<string>)
    requires Clean(v)
    ensures Walk(v, keys).Some? ==> Clean(Walk(v, keys).value)
    decreases |keys|
  {
    if keys != [] && v.Obj? && keys[0] in v.fields {
      CleanWalk(v.fields[keys[0]], keys[1..]);
    }
  }

  lemma CleanList(container: Fields, tag: string)
    requires Clean(Obj(container)) && ListAt(container, tag).Some?
    ensures forall i :: 0 <= i < |ListAt(container, tag).value| ==> Clean(ListAt(container, tag).value[i])
  {
    CleanWalk(Obj(container), Split(tag, '_'));
    if tag in container {
      assert Clean(container[tag]);
    }
  }

  /** The text of a rendering after further passes have scanned it. */
  function Rescan(r: Result<string>, passes: seq<Pass>): Result<string> {
    if r.Err? then r else Ok(MapTags(r.value, passes))
  }

  /** The rendering is tag-complete, and scanning it with `passes` gives what the evaluator computes. */
  ghost predicate Agrees(r: Result<string>, passes: seq<Pass>, eval: Result<string>) {
    (r.Ok? ==> TagComplete(r.value)) && Rescan(r, passes) == eval
  }

  function Both(a: Result<string>, b: Result<string>): Result<string> {
    if a.Err? then a else if b.Err? then b else Ok(a.value + b.value)
  }

  lemma AgreesBoth(a: Result<string>, b: Result<string>, passes: seq<Pass>, x: Result<string>, y: Result<string>)
    requires Agrees(a, passes, x) && (a.Ok? ==> Agrees(b, passes, y))
    ensures Agrees(Both(a, b), passes, Both(x, y))
  {
    hide TagComplete;
    if a.Ok? && b.Ok? {
      TagCompleteConcat(a.value, b.value);
      MapTagsConcat(a.value, b.value, passes);
    }
  }

  lemma {:induction false} LoopAgrees(blk: Block, parent: Fields, base: string, outer: seq<Pass>, nodes: seq<Node>)
    requires ParseTree(blk.body) == Ok(nodes) && TagComplete(blk.body) && Clean(Obj(parent))
    ensures Agrees(RenderLoop(blk, parent, base), outer, EvalLoop(blk.tag, nodes, parent, base, outer))
    decreases |blk.body|, 3, 0
  {
    hide FindLoops, ListAt, TagComplete, Clean;
    var nested := FindLoops(blk.body, 0).value;
    match ListAt(parent, blk.tag)
    case None =>
    case Some(list) =>
      CleanList(parent, blk.tag);
      ItemsAgree(blk.body, nested, list, 0, FieldPath(base, blk.tag), outer, nodes);
  }

  lemma {:induction false} ItemsAgree(body: string, nested: seq<Block>, list: seq<Value>, i: nat, path: string,
                                      outer: seq<Pass>, nodes: seq<Node>)
    requires FindLoops(body, 0) == Ok(nested) && TreeFrom(body, 0, nested) == Ok(nodes) && TagComplete(body)
    requires i <= |list| && forall j :: 0 <= j < |list| ==> Clean(list[j])
    ensures Agrees(RenderItems(body, nested, list, i, path), outer, EvalItems(nodes, list, i, path, outer))
    decreases |body|, 2, |list| - i
  {
    hide FindLoops, TagComplete, Agrees, TreeFrom, EvalNodes, RenderBody;
    if i == |list| {
      NothingAgrees(outer);
    } else {
      ItemsAgree(body, nested, list, i + 1, path, outer, nodes);
      match ResolveItem(list[i])
      case None =>
      case Some(item) =>
        CleanItem(list[i]);
        BodyAgrees(body, nested, item, path, i + 1, outer, nodes);
        AgreesBoth(RenderBody(body, nested, item, path, i + 1), RenderItems(body, nested, list, i + 1, path), outer,
                   EvalNodes(nodes, item, path, [ItemFields(path, item, Some(i + 1))] + outer),
                   EvalItems(nodes, list, i + 1, path, outer));
    }
  }

  lemma NothingAgrees(passes: seq<Pass>)
    ensures Agrees(Ok(""), passes, Ok(""))
  {
  }

  lemma CleanItem(v: Value)
    requires Clean(v) && ResolveItem(v).Some?
    ensures Clean(Obj(ResolveItem(v).value))
  {
  }

  lemma {:induction false} BodyAgrees(body: string, nested: seq<Block>, item: Fields, path: string, index: nat,
                                      outer: seq<Pass>, nodes: seq<Node>)
    requires FindLoops(body, 0) == Ok(nested) && TreeFrom(body, 0, nested) == Ok(nodes) && TagComplete(body)
    requires Clean(Obj(item))
    ensures Agrees(RenderBody(body, nested, item, path, index), outer,
                   EvalNodes(nodes, item, path, [ItemFields(path, item, Some(index))] + outer))
    decreases |body|, 1, 0
  {
    hide FindLoops, TagComplete, TreeFrom, EvalNodes, RenderNested, MapTags, InOrder;
    var own := [ItemFields(path, item, Some(index))];
    FoundInOrder(body, 0);
    assert body[0..] == body;
    NestedAgrees(body, nested, 0, item, path, own + outer, nodes);
    var raw := RenderNested(body, nested, 0, item, path);
    if raw.Ok? {
      OwnPassIsClean(path, item, index);
      MapTagsTwice(raw.value, own, outer);
    }
  }

  lemma OwnPassIsClean(path: string, item: Fields, index: nat)
    requires Clean(Obj(item))
    ensures CleanPasses([ItemFields(path, item, Some(index))])
  {
    forall k | k in item && item[k].Scalar?
      ensures '<' !in item[k].text
    {
      assert Clean(item[k]);
    }
  }

  lemma {:induction false} NestedAgrees(body: string, nested: seq<Block>, pos: nat, item: Fields, path: string,
                                        passes: seq<Pass>, nodes: seq<Node>)
    requires Fit(body, pos, nested) && InOrder(body, pos, nested) && TreeFrom(body, pos, nested) == Ok(nodes)
    requires TagComplete(body[pos..]) && Clean(Obj(item))
    ensures Agrees(RenderNested(body, nested, pos, item, path), passes, EvalNodes(nodes, item, path, passes))
    decreases |body|, 0, |nested|
  {
    hide TagComplete, Agrees, LaidOut, RenderLoop, EvalLoop, ParseTree, Clean;
    if nested == [] {
      TextAgrees(body[pos..], passes);
      EvalOneText(body[pos..], item, path, passes);
    } else {
      var b := nested[0];
      BlockPieces(body, pos, b);
      var inner, rest := ParseTree(b.body).value, TreeFrom(body, b.end, nested[1..]).value;
      LoopAgrees(b, item, path, passes, inner);
      NestedAgrees(body, nested[1..], b.end, item, path, passes, rest);
      var gap := body[pos..b.start];
      TextAgrees(gap, passes);
      AgreesBoth(Ok(gap), RenderLoop(b, item, path), passes,
                 Ok(MapTags(gap, passes)), EvalLoop(b.tag, inner, item, path, passes));
      AgreesBoth(Both(Ok(gap), RenderLoop(b, item, path)), RenderNested(body, nested[1..], b.end, item, path), passes,
                 Both(Ok(MapTags(gap, passes)), EvalLoop(b.tag, inner, item, path, passes)),
                 EvalNodes(rest, item, path, passes));
      EvalTextAndLoop(gap, b.tag, inner, rest, item, path, passes);
    }
  }

  lemma TextAgrees(text: string, passes: seq<Pass>)
    requires TagComplete(text)
    ensures Agrees(Ok(text), passes, Ok(MapTags(text, passes)))
  {
  }

  lemma EvalOneText(text: string, item: Fields, path: string, passes: seq<Pass>)
    ensures EvalNodes([Text(text)], item, path, passes) == Ok(MapTags(text, passes))
  {
    assert [Text(text)][1..] == [];
    assert MapTags(text, passes) + "" == MapTags(text, passes);
  }

  lemma EvalTextAndLoop(gap: string, tag: string, inner: seq<Node>, rest: seq<Node>, item: Fields, path: string,
                        passes: seq<Pass>)
    ensures EvalNodes([Text(gap), Loop(tag, inner)] + rest, item, path, passes) ==
            Both(Both(Ok(MapTags(gap, passes)), EvalLoop(tag, inner, item, path, passes)),
                 EvalNodes(rest, item, path, passes))
  {
    hide MapTags, EvalLoop;
    var nodes := [Text(gap), Loop(tag, inner)] + rest;
    assert nodes[1..][1..] == rest && nodes[1..][0] == Loop(tag, inner);
    var g, l, r := MapTags(gap, passes), EvalLoop(tag, inner, item, path, passes), EvalNodes(rest, item, path, passes);
    assert EvalNodes(nodes[1..], item, path, passes) == Both(l, r);
    if l.Ok? && r.Ok? {
      assert g + (l.value + r.value) == g + l.value + r.value;
    }
  }
}
