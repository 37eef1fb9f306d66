/** One file per item of the head loop. */
module Splitting {
  import opened GoStrings
  import opened Results
  import opened Specs
  import opened Tags
  import opened Loops
  import opened Rendering
  import opened FileNames

  /** What one generated file holds: the head loop's body for its item, then the rest of the template
      with its own loops in place. */
  function ItemFileText(head: Block, nested: seq<Block>, after: string, siblings: seq<Block>, spec: Fields,
                        item: Fields, index: nat): (r: Result<string>)
    requires Fit(head.body, 0, nested) && Fit(after, 0, siblings)
    ensures r.Err? ==> IsTemplateError(r.error)
  {
    var main :- RenderBody(head.body, nested, item, head.tag, index);
    var rest :- RenderTop(after, siblings, 0, spec);
    Ok(main + rest)
  }

  predicate IsGenerated(name: string, filename: string, list: seq<Value>) {
    exists i :: 0 <= i < |list| && ResolveItem(list[i]).Some? && name == IndexedResourceFile(filename, i)
  }

  // ---- Split mode refines inline mode ----------------------------------------------------------

  lemma {:induction false} RenderTopShift(s: string, k: nat, t: string, pos: nat, blocks: seq<Block>, spec: Fields)
    requires k <= |s| && t == s[k..] && Fit(t, pos, blocks) && Fit(s, k + pos, Shift(blocks, k))
    ensures RenderTop(s, Shift(blocks, k), k + pos, spec) == RenderTop(t, blocks, pos, spec)
    decreases |blocks|
  {
    hide RenderLoop, MapTags;
    if blocks == [] {
      assert t[pos..] == s[k + pos..];
    } else {
      var b, moved := blocks[0], Shift(blocks, k);
      assert moved[0] == b.(start := b.start + k, end := b.end + k) && moved[1..] == Shift(blocks[1..], k);
      assert t[pos..b.start] == s[k + pos..k + b.start];
      SameLoop(b, moved[0], spec, "");
      RenderTopShift(s, k, t, b.end, blocks[1..], spec);
    }
  }

  /** Where a block stands does not matter for how it is rendered. */
  lemma SameLoop(a: Block, b: Block, parent: Fields, base: string)
    requires a.tag == b.tag && a.body == b.body
    ensures RenderLoop(a, parent, base) == RenderLoop(b, parent, base)
  {
    hide RenderItems, FindLoops, ListAt;
  }

  lemma RestOfBlocks(content: string, blocks: seq<Block>)
    requires FindLoops(content, 0) == Ok(blocks) && blocks != []
    ensures blocks[0].end <= |content| && FindLoops(content, blocks[0].end) == Ok(blocks[1..])
  {
    hide BlockAt, IndexFrom, Fit;
    var start := IndexFrom(content, START_TAG, 0);
    var b := BlockAt(content, start).value;
    var rest := FindLoops(content, b.end).value;
    assert blocks == [b] + rest;
    assert blocks[1..] == rest;
  }

  /** Parsing the text after the head block finds its sibling blocks, moved. */
  lemma SiblingsAreTheRest(content: string, blocks: seq<Block>)
    requires FindLoops(content, 0) == Ok(blocks) && blocks != []
    ensures blocks[0].end <= |content| && FindLoops(content[blocks[0].end..], 0).Ok?
    ensures blocks[1..] == Shift(FindLoops(content[blocks[0].end..], 0).value, blocks[0].end)
  {
    hide FindLoops, Shift;
    RestOfBlocks(content, blocks);
    FindLoopsShift(content, blocks[0].end, content[blocks[0].end..], 0);
  }

  /** The inline rendering of a template that starts with a loop is the bodies of all its items, in
      order, followed by the text every generated file ends with. */
  lemma SplitRefinesInline(content: string, blocks: seq<Block>, list: seq<Value>, nested: seq<Block>, spec: Fields)
    requires FindLoops(content, 0) == Ok(blocks) && blocks != [] && blocks[0].start == 0
    requires ListAt(spec, blocks[0].tag) == Some(list) && FindLoops(blocks[0].body, 0) == Ok(nested)
    ensures blocks[0].end <= |content| && FindLoops(content[blocks[0].end..], 0).Ok?
    ensures RenderTop(content, blocks, 0, spec) ==
            Both(RenderItems(blocks[0].body, nested, list, 0, blocks[0].tag),
                 RenderTop(content[blocks[0].end..], FindLoops(content[blocks[0].end..], 0).value, 0, spec))
  {
    hide FindLoops, RenderItems, ListAt;
    var head := blocks[0];
    var after := content[head.end..];
    SiblingsAreTheRest(content, blocks);
    var siblings := FindLoops(after, 0).value;
    RenderTopShift(content, head.end, after, 0, siblings, spec);
    assert content[0..0] == "";
    var mains := RenderLoop(head, spec, "");
    assert mains.Ok? ==> "" + mains.value == mains.value;
  }

  /** The bodies of the items from `i` on, one text an item. */
  function MainTexts(body: string, nested: seq<Block>, list: seq<Value>, i: nat, path: string): seq<string>
    requires Fit(body, 0, nested) && i <= |list|
    decreases |list| - i
  {
    if i == |list| then []
    else
      match ResolveItem(list[i])
      case None => MainTexts(body, nested, list, i + 1, path)
      case Some(item) =>
        match RenderBody(body, nested, item, path, i + 1)
        case Err(_) => []
        case Ok(text) => [text] + MainTexts(body, nested, list, i + 1, path)
  }

  function Concat(texts: seq<string>): string {
    if texts == [] then "" else texts[0] + Concat(texts[1..])
  }

  lemma {:induction false} ItemsConcatenate(body: string, nested: seq<Block>, list: seq<Value>, i: nat, path: string)
    requires Fit(body, 0, nested) && i <= |list| && RenderItems(body, nested, list, i, path).Ok?
    ensures RenderItems(body, nested, list, i, path).value == Concat(MainTexts(body, nested, list, i, path))
    decreases |list| - i
  {
    hide RenderBody;
    if i < |list| {
      ItemsConcatenate(body, nested, list, i + 1, path);
    }
  }

  /** When a template renders inline, split mode generates a file for each non-null item, and the main
      parts of those files, in order, followed once by the part they share, are the inline text. */
  lemma SplitFilesMakeInlineText(content: string, blocks: seq<Block>, list: seq<Value>, nested: seq<Block>,
                                 spec: Fields)
    requires FindLoops(content, 0) == Ok(blocks) && blocks != [] && blocks[0].start == 0
    requires ListAt(spec, blocks[0].tag) == Some(list) && FindLoops(blocks[0].body, 0) == Ok(nested)
    requires RenderTop(content, blocks, 0, spec).Ok?
    ensures blocks[0].end <= |content| && FindLoops(content[blocks[0].end..], 0).Ok?
    ensures var after := content[blocks[0].end..];
            var siblings := FindLoops(after, 0).value;
            && RenderTop(after, siblings, 0, spec).Ok?
            && RenderTop(content, blocks, 0, spec).value ==
               Concat(MainTexts(blocks[0].body, nested, list, 0, blocks[0].tag))
               + RenderTop(after, siblings, 0, spec).value
            && forall i :: 0 <= i < |list| && ResolveItem(list[i]).Some? ==>
                 var item := ResolveItem(list[i]).value;
                 && RenderBody(blocks[0].body, nested, item, blocks[0].tag, i + 1).Ok?
                 && ItemFileText(blocks[0], nested, after, siblings, spec, item, i + 1) ==
                    Ok(RenderBody(blocks[0].body, nested, item, blocks[0].tag, i + 1).value
                       + RenderTop(after, siblings, 0, spec).value)
  {
    hide FindLoops, RenderItems, ListAt, RenderTop, RenderBody, MainTexts;
    SplitRefinesInline(content, blocks, list, nested, spec);
    ItemsConcatenate(blocks[0].body, nested, list, 0, blocks[0].tag);
    forall i | 0 <= i < |list| && ResolveItem(list[i]).Some?
      ensures RenderBody(blocks[0].body, nested, ResolveItem(list[i]).value, blocks[0].tag, i + 1).Ok?
    {
      EveryItemRenders(blocks[0].body, nested, list, 0, blocks[0].tag, i);
    }
  }

  lemma {:induction false} EveryItemRenders(body: string, nested: seq<Block>, list: seq<Value>, i: nat, path: string,
                                            j: nat)
    requires Fit(body, 0, nested) && i <= j < |list| && ResolveItem(list[j]).Some?
    requires RenderItems(body, nested, list, i, path).Ok?
    ensures RenderBody(body, nested, ResolveItem(list[j]).value, path, j + 1).Ok?
    decreases |list| - i
  {
    hide RenderBody;
    if i < j {
      EveryItemRenders(body, nested, list, i + 1, path, j);
    }
  }
}
