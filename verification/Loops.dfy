/** Finding the outermost `<FGT_FOR_STR><NAME>…<FGT_FOR_END>` blocks of a text by counting depth. */
module Loops {
  import opened GoStrings
  import opened Results

  const START_TAG := "<FGT_FOR_STR>"
  const END_TAG := "<FGT_FOR_END>"
  const MARKER_LENGTH := 13

  /** A block: its upper-cased name, the text between its header and its end marker, and the offsets
      of its first character and of the character after its end marker. */
  datatype Block = Block(tag: string, body: string, start: nat, end: nat)

  // ---- The parser as a function ----------------------------------------------------------------

  /** The offset after the end marker that closes `depth` open blocks, scanning from `scan`; -1 when
      there is none. */
  function MatchEnd(s: string, scan: nat, depth: nat): (e: int)
    requires scan <= |s|
    ensures e == -1 || scan + (if depth == 0 then 0 else MARKER_LENGTH) <= e <= |s|
    decreases |s| - scan
  {
    if depth == 0 then scan
    else
      var nextStart := IndexFrom(s, START_TAG, scan);
      var nextEnd := IndexFrom(s, END_TAG, scan);
      if nextEnd == -1 then -1
      else if nextStart != -1 && nextStart < nextEnd then MatchEnd(s, nextStart + MARKER_LENGTH, depth + 1)
      else MatchEnd(s, nextEnd + MARKER_LENGTH, depth - 1)
  }

  lemma {:induction false} EndsWithMarker(s: string, scan: nat, depth: nat, e: nat)
    requires scan <= |s| && depth > 0 && MatchEnd(s, scan, depth) == e + MARKER_LENGTH
    ensures OccursAt(s, END_TAG, e)
    decreases |s| - scan
  {
    hide IndexFrom, OccursAt;
    var nextStart := IndexFrom(s, START_TAG, scan);
    var nextEnd := IndexFrom(s, END_TAG, scan);
    if nextStart != -1 && nextStart < nextEnd {
      EndsWithMarker(s, nextStart + MARKER_LENGTH, depth + 1, e);
    } else if depth > 1 {
      EndsWithMarker(s, nextEnd + MARKER_LENGTH, depth - 1, e);
    } else {
      IndexFromIsFirst(s, END_TAG, scan);
      assert e == nextEnd;
    }
  }

  /** The block that opens at offset `start` of `s`. */
  function BlockAt(s: string, start: nat): (r: Result<Block>)
    requires start + MARKER_LENGTH <= |s|
    ensures r.Ok? ==> r.value.start == start && start + |r.value.body| < r.value.end <= |s|
    ensures r.Err? ==> IsTemplateError(r.error)
  {
    var after := start + MARKER_LENGTH;
    if after >= |s| || s[after] != '<' then Err(NameMissing(start))
    else
      var close := IndexChar(s, '>', after);
      if close == -1 then Err(NameUnclosed(start))
      else
        var tag := ToUpper(s[after + 1..close]);
        var end := MatchEnd(s, close + 1, 1);
        if end == -1 then Err(EndMissing(tag))
        else Ok(Block(tag, s[close + 1..end - MARKER_LENGTH], start, end))
  }

  /** The offsets of the blocks are in range and increase, and every body is shorter than the text. */
  predicate Fit(s: string, pos: nat, blocks: seq<Block>)
    decreases |blocks|
  {
    if blocks == [] then pos <= |s|
    else
      var b := blocks[0];
      pos <= b.start < b.end <= |s| && |b.body| < |s| && Fit(s, b.end, blocks[1..])
  }

  /** The outermost blocks of `s` from offset `pos` on. */
  function FindLoops(s: string, pos: nat): (r: Result<seq<Block>>)
    requires pos <= |s|
    ensures r.Ok? ==> Fit(s, pos, r.value)
    ensures r.Err? ==> IsTemplateError(r.error)
    decreases |s| - pos
  {
    var start := IndexFrom(s, START_TAG, pos);
    if start == -1 then Ok([])
    else
      var b :- BlockAt(s, start);
      var rest :- FindLoops(s, b.end);
      Ok([b] + rest)
  }

  // ---- The parser as the engine runs it --------------------------------------------------------

  method FindTopLevelLoops(content: string) returns (r: Result<seq<Block>>)
    ensures r == FindLoops(content, 0)
  {
    var blocks: seq<Block> := [];
    var pos := 0;
    PrependNothing(FindLoops(content, 0));
    while true
      invariant pos <= |content|
      invariant FindLoops(content, 0) == Prepend(blocks, FindLoops(content, pos))
      decreases |content| - pos
    {
      var start := IndexFrom(content, START_TAG, pos);
      if start == -1 {
        assert blocks + [] == blocks;
        return Ok(blocks);
      }
      var block := ReadBlock(content, start);
      if block.Err? {
        return Err(block.error);
      }
      PrependAppend(blocks, block.value, FindLoops(content, block.value.end));
      blocks := blocks + [block.value];
      pos := block.value.end;
    }
  }

  /** The header checks and the depth-counting loop for the block that opens at `start`. */
  method ReadBlock(content: string, start: nat) returns (r: Result<Block>)
    requires start + MARKER_LENGTH <= |content|
    ensures r == BlockAt(content, start)
  {
    var afterStart := start + MARKER_LENGTH;
    if afterStart >= |content| || content[afterStart] != '<' {
      return Err(NameMissing(start));
    }
    var nameEnd := IndexChar(content, '>', afterStart);
    if nameEnd == -1 {
      return Err(NameUnclosed(start));
    }
    var tag := ToUpper(content[afterStart + 1..nameEnd]);
    var bodyStart := nameEnd + 1;
    var end := ScanToMatchingEnd(content, bodyStart);
    if end == -1 {
      return Err(EndMissing(tag));
    }
    r := Ok(Block(tag, content[bodyStart..end - MARKER_LENGTH], start, end));
  }

  method ScanToMatchingEnd(content: string, bodyStart: nat) returns (end: int)
    requires bodyStart <= |content|
    ensures end == MatchEnd(content, bodyStart, 1)
  {
    hide IndexFrom, OccursAt;
    ghost var target := MatchEnd(content, bodyStart, 1);
    var depth := 1;
    var scan := bodyStart;
    while depth > 0
      invariant bodyStart <= scan <= |content| && depth >= 0
      invariant target == MatchEnd(content, scan, depth)
      decreases |content| - scan, depth
    {
      var nextStart := IndexFrom(content, START_TAG, scan);
      var nextEnd := IndexFrom(content, END_TAG, scan);
      if nextEnd == -1 {
        return -1;
      }
      if nextStart != -1 && nextStart < nextEnd {
        depth := depth + 1;
        scan := nextStart + MARKER_LENGTH;
        continue;
      }
      depth := depth - 1;
      scan := nextEnd + MARKER_LENGTH;
    }
    end := scan;
  }

  ghost function Prepend(blocks: seq<Block>, r: Result<seq<Block>>): Result<seq<Block>> {
    if r.Ok? then Ok(blocks + r.value) else r
  }

  lemma PrependNothing(r: Result<seq<Block>>)
    ensures Prepend([], r) == r
  {
    assert r.Ok? ==> [] + r.value == r.value;
  }

  lemma PrependAppend(blocks: seq<Block>, block: Block, r: Result<seq<Block>>)
    ensures Prepend(blocks + [block], r) == Prepend(blocks, Prepend([block], r))
  {
    if r.Ok? {
      assert blocks + [block] + r.value == blocks + ([block] + r.value);
    }
  }

  // ---- Where the blocks lie --------------------------------------------------------------------

  /** The name of `b` as the text writes it, before it is put in upper case. */
  function WrittenName(s: string, b: Block): string
    requires b.start + |b.tag| + MARKER_LENGTH + 1 <= |s|
  {
    s[b.start + MARKER_LENGTH + 1..b.start + MARKER_LENGTH + 1 + |b.tag|]
  }

  /** `b` is laid out in `s`: start marker, bracketed name, body, end marker. */
  ghost predicate LaidOut(s: string, b: Block) {
    && b.start + |b.tag| + |b.body| + 2 * MARKER_LENGTH + 2 == b.end <= |s|
    && s[b.start..b.end] == START_TAG + "<" + WrittenName(s, b) + ">" + b.body + END_TAG
    && '>' !in WrittenName(s, b)
    && ToUpper(WrittenName(s, b)) == b.tag
  }

  /** The blocks lie in `s` from `pos` on, in order and disjoint, with no start marker in the gaps. */
  ghost predicate InOrder(s: string, pos: nat, blocks: seq<Block>)
    decreases |blocks|
  {
    if blocks == [] then forall i: nat :: pos <= i <= |s| ==> !OccursAt(s, START_TAG, i)
    else
      var b := blocks[0];
      && LaidOut(s, b)
      && pos <= b.start
      && (forall i: nat :: pos <= i < b.start ==> !OccursAt(s, START_TAG, i))
      && InOrder(s, b.end, blocks[1..])
  }

  lemma CutMarkers(s: string, start: nat, close: nat, end: nat)
    requires OccursAt(s, START_TAG, start)
    requires start + MARKER_LENGTH < close && close + 1 + MARKER_LENGTH <= end <= |s|
    requires s[start + MARKER_LENGTH] == '<' && s[close] == '>'
    requires OccursAt(s, END_TAG, end - MARKER_LENGTH)
    ensures s[start..end] == START_TAG + "<" + s[start + MARKER_LENGTH + 1..close] + ">"
                             + s[close + 1..end - MARKER_LENGTH] + END_TAG
  {
    hide OccursAt;
    var after := start + MARKER_LENGTH;
    OccursAtIsSlice(s, START_TAG, start);
    OccursAtIsSlice(s, END_TAG, end - MARKER_LENGTH);
    assert s[after..after + 1] == "<" && s[close..close + 1] == ">";
    var x, y := s[after + 1..close], s[close + 1..end - MARKER_LENGTH];
    assert s[start..end] ==
           s[start..after] + s[after..after + 1] + x + s[close..close + 1] + y + s[end - MARKER_LENGTH..end];
  }

  lemma BlockIsLaidOut(s: string, start: nat)
    requires start + MARKER_LENGTH <= |s| && OccursAt(s, START_TAG, start)
    requires BlockAt(s, start).Ok?
    ensures LaidOut(s, BlockAt(s, start).value)
  {
    hide IndexChar, MatchEnd, OccursAt;
    var b := BlockAt(s, start).value;
    var after := start + MARKER_LENGTH;
    var close := IndexChar(s, '>', after);
    assert b.tag == ToUpper(s[after + 1..close]);
    assert b.body == s[close + 1..b.end - MARKER_LENGTH];
    EndsWithMarker(s, close + 1, 1, b.end - MARKER_LENGTH);
    CutMarkers(s, start, close, b.end);
    assert WrittenName(s, b) == s[after + 1..close];
    assert forall i :: after < i < close ==> s[i] == s[after + 1..close][i - after - 1];
  }

  lemma {:induction false} FoundInOrder(s: string, pos: nat)
    requires pos <= |s| && FindLoops(s, pos).Ok?
    ensures InOrder(s, pos, FindLoops(s, pos).value)
    decreases |s| - pos
  {
    var start := IndexFrom(s, START_TAG, pos);
    IndexFromIsFirst(s, START_TAG, pos);
    if start != -1 {
      var b := BlockAt(s, start).value;
      BlockIsLaidOut(s, start);
      FoundInOrder(s, b.end);
      assert FindLoops(s, pos).value[1..] == FindLoops(s, b.end).value;
    }
  }

  /** The text that the gaps, headers, bodies and end markers of the blocks spell. */
  ghost function Rebuilt(s: string, pos: nat, blocks: seq<Block>): string
    requires InOrder(s, pos, blocks) && pos <= |s|
    decreases |blocks|
  {
    if blocks == [] then s[pos..]
    else
      var b := blocks[0];
      s[pos..b.start] + (START_TAG + "<" + WrittenName(s, b) + ">" + b.body + END_TAG) + Rebuilt(s, b.end, blocks[1..])
  }

  lemma {:induction false} RebuiltIsText(s: string, pos: nat, blocks: seq<Block>)
    requires InOrder(s, pos, blocks) && pos <= |s|
    ensures Rebuilt(s, pos, blocks) == s[pos..]
    decreases |blocks|
  {
    hide OccursAt;
    if blocks != [] {
      var b := blocks[0];
      RebuiltIsText(s, b.end, blocks[1..]);
      assert s[pos..] == s[pos..b.start] + s[b.start..b.end] + s[b.end..];
    }
  }

  /** Nothing of a text that parses is lost: its blocks lie in order with no start marker in the gaps,
      and gaps, headers, bodies and end markers concatenate to the text again. */
  lemma BlocksRebuildText(s: string)
    requires FindLoops(s, 0).Ok?
    ensures InOrder(s, 0, FindLoops(s, 0).value)
    ensures Rebuilt(s, 0, FindLoops(s, 0).value) == s
  {
    hide FindLoops, InOrder;
    FoundInOrder(s, 0);
    RebuiltIsText(s, 0, FindLoops(s, 0).value);
    assert s[0..] == s;
  }

  // ---- Parsing the rest of a text --------------------------------------------------------------

  function Shift(blocks: seq<Block>, k: nat): (r: seq<Block>)
    ensures |r| == |blocks|
  {
    if blocks == [] then []
    else [blocks[0].(start := blocks[0].start + k, end := blocks[0].end + k)] + Shift(blocks[1..], k)
  }

  lemma OccursAtShift(s: string, k: nat, pat: string, i: nat)
    requires k <= |s|
    ensures OccursAt(s[k..], pat, i) <==> OccursAt(s, pat, k + i)
  {
    OccursAtIsSlice(s[k..], pat, i);
    OccursAtIsSlice(s, pat, k + i);
    if k + i + |pat| <= |s| {
      assert s[k..][i..i + |pat|] == s[k + i..k + i + |pat|];
    }
  }

  /** An offset into a text, or -1, as an offset into the longer text that text is the rest of. */
  function Moved(i: int, k: nat): int {
    if i == -1 then -1 else i + k
  }

  lemma {:induction false} IndexFromShift(s: string, k: nat, t: string, pat: string, from: nat)
    requires k + from <= |s| && t == s[k..]
    ensures IndexFrom(s, pat, k + from) == Moved(IndexFrom(t, pat, from), k)
    decreases |s| - from
  {
    OccursAtShift(s, k, pat, from);
    if from < |t| {
      IndexFromShift(s, k, t, pat, from + 1);
    }
  }

  lemma {:induction false} IndexCharShift(s: string, k: nat, t: string, c: char, from: nat)
    requires k + from <= |s| && t == s[k..]
    ensures IndexChar(s, c, k + from) == Moved(IndexChar(t, c, from), k)
    decreases |s| - from
  {
    if from < |t| {
      IndexCharShift(s, k, t, c, from + 1);
    }
  }

  lemma {:induction false} MatchEndShift(s: string, k: nat, t: string, scan: nat, depth: nat)
    requires k + scan <= |s| && t == s[k..]
    ensures MatchEnd(s, k + scan, depth) == Moved(MatchEnd(t, scan, depth), k)
    decreases |s| - scan
  {
    hide IndexFrom;
    if depth > 0 {
      IndexFromShift(s, k, t, START_TAG, scan);
      IndexFromShift(s, k, t, END_TAG, scan);
      var x, y := IndexFrom(t, START_TAG, scan), IndexFrom(t, END_TAG, scan);
      if y != -1 {
        if x != -1 && x < y {
          MatchEndShift(s, k, t, x + MARKER_LENGTH, depth + 1);
        } else {
          MatchEndShift(s, k, t, y + MARKER_LENGTH, depth - 1);
        }
      }
    }
  }

  /** The same block, `k` further on. */
  ghost predicate SameBlock(moved: Result<Block>, b: Result<Block>, k: nat) {
    if b.Err? then moved.Err?
    else moved == Ok(b.value.(start := b.value.start + k, end := b.value.end + k))
  }

  lemma BlockAtShift(s: string, k: nat, t: string, start: nat)
    requires k + start + MARKER_LENGTH <= |s| && t == s[k..]
    ensures SameBlock(BlockAt(s, k + start), BlockAt(t, start), k)
  {
    hide IndexChar, MatchEnd;
    var after := start + MARKER_LENGTH;
    if after < |t| && t[after] == '<' {
      IndexCharShift(s, k, t, '>', after);
      var close := IndexChar(t, '>', after);
      if close != -1 {
        MatchEndShift(s, k, t, close + 1, 1);
        var end := MatchEnd(t, close + 1, 1);
        assert t[after + 1..close] == s[k + after + 1..k + close];
        assert end != -1 ==> t[close + 1..end - MARKER_LENGTH] == s[k + close + 1..k + end - MARKER_LENGTH];
      }
    }
  }

  ghost predicate SameBlocks(moved: Result<seq<Block>>, r: Result<seq<Block>>, k: nat) {
    if r.Err? then moved.Err? else moved == Ok(Shift(r.value, k))
  }

  /** Parsing what is left of a text after offset `k` finds the remaining blocks, moved by `k`. */
  lemma {:induction false} FindLoopsShift(s: string, k: nat, t: string, pos: nat)
    requires k + pos <= |s| && t == s[k..]
    ensures SameBlocks(FindLoops(s, k + pos), FindLoops(t, pos), k)
    decreases |s| - pos
  {
    hide IndexFrom, BlockAt, OccursAt;
    IndexFromShift(s, k, t, START_TAG, pos);
    var start := IndexFrom(t, START_TAG, pos);
    if start != -1 {
      BlockAtShift(s, k, t, start);
      var b := BlockAt(t, start);
      if b.Ok? {
        FindLoopsShift(s, k, t, b.value.end);
        FindLoopsStep(t, pos, start, b.value);
        FindLoopsStep(s, k + pos, k + start, BlockAt(s, k + start).value);
        ShiftStep(b.value, FindLoops(t, b.value.end), k);
      }
    }
  }

  lemma FindLoopsStep(s: string, pos: nat, start: nat, b: Block)
    requires pos <= |s| && IndexFrom(s, START_TAG, pos) == start
    requires BlockAt(s, start) == Ok(b)
    ensures FindLoops(s, pos) == Prepend([b], FindLoops(s, b.end))
  {
  }

  lemma ShiftStep(b: Block, r: Result<seq<Block>>, k: nat)
    ensures r.Ok? ==> Shift([b] + r.value, k) == [b.(start := b.start + k, end := b.end + k)] + Shift(r.value, k)
  {
  }
}
