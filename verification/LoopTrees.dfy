/** Templates as trees of loops, and what parsing means for them at every depth. */
module LoopTrees {
  import opened GoStrings
  import opened Results
  import opened Tags
  import opened Loops
  import opened LoopDepth

  datatype Node = Text(text: string) | Loop(tag: string, body: seq<Node>)

  /** The tree of a text: `FindLoops` applied to the text and again to every body. */
  function ParseTree(s: string): Result<seq<Node>>
    decreases |s|, 1, 0
  {
    var blocks :- FindLoops(s, 0);
    TreeFrom(s, 0, blocks)
  }

  function TreeFrom(s: string, pos: nat, blocks: seq<Block>): Result<seq<Node>>
    requires Fit(s, pos, blocks)
    decreases |s|, 0, |blocks|
  {
    if blocks == [] then Ok([Text(s[pos..])])
    else
      var b := blocks[0];
      var body :- ParseTree(b.body);
      var rest :- TreeFrom(s, b.end, blocks[1..]);
      Ok([Text(s[pos..b.start]), Loop(b.tag, body)] + rest)
  }

  /** The text of a tree. */
  function Print(nodes: seq<Node>): string {
    if nodes == [] then ""
    else PrintNode(nodes[0]) + Print(nodes[1..])
  }

  function PrintNode(node: Node): string {
    match node
    case Text(text) => text
    case Loop(tag, body) => Wrap(tag, Print(body))
  }

  function Header(tag: string): string {
    START_TAG + "<" + tag + ">"
  }

  function Wrap(tag: string, body: string): string {
    Header(tag) + body + END_TAG
  }

  // ---- Well-formedness is hereditary -----------------------------------------------------------

  /** At `at` there is a bracketed name without `<` that is not one of the two marker words. */
  ghost predicate LegalHeader(s: string, at: nat) {
    && at < |s| && s[at] == '<'
    && var close := IndexChar(s, '>', at);
       close != -1 && '<' !in s[at + 1..close] && !IsMarkerWord(s[at + 1..close])
  }

  predicate IsMarkerWord(name: string) {
    name == "FGT_FOR_STR" || name == "FGT_FOR_END"
  }

  /** Every start marker is followed by a legal name. */
  ghost predicate LegalHeaders(s: string) {
    forall p: nat :: OccursAt(s, START_TAG, p) ==> LegalHeader(s, p + MARKER_LENGTH)
  }

  /** From `pos` to the end of `s` the depth never goes below zero and ends at zero. */
  ghost predicate BalancedFrom(s: string, pos: nat) {
    pos <= |s| && Depth(s, pos, |s|) == 0 && forall q :: pos <= q <= |s| ==> Depth(s, pos, q) >= 0
  }

  lemma MarkerWord(s: string, p: nat)
    requires Sign(s, p) != 0
    ensures p + MARKER_LENGTH <= |s| && IsMarkerWord(s[p + 1..p + MARKER_LENGTH - 1])
    ensures IndexChar(s, '>', p) == p + MARKER_LENGTH - 1
  {
    hide OccursAt;
    MarkerShape(s, p);
    SliceOfSlice(s, p, p + MARKER_LENGTH, 1, MARKER_LENGTH - 1);
    var marker := s[p..p + MARKER_LENGTH];
    if Sign(s, p) == 1 {
      assert marker[1..MARKER_LENGTH - 1] == "FGT_FOR_STR";
    } else {
      assert marker[1..MARKER_LENGTH - 1] == "FGT_FOR_END";
    }
  }

  /** Between a start marker and the end of its legal header no other marker begins. */
  lemma HeaderIsQuiet(s: string, p: nat, i: nat)
    requires Sign(s, p) == 1 && LegalHeader(s, p + MARKER_LENGTH)
    requires p < i <= IndexChar(s, '>', p + MARKER_LENGTH)
    ensures Sign(s, i) == 0
  {
    hide Sign;
    MarkerShape(s, p);
    var at := p + MARKER_LENGTH;
    var close := IndexChar(s, '>', at);
    if i == at {
      if Sign(s, at) != 0 {
        MarkerWord(s, at);
      }
    } else {
      assert at < i < close ==> s[i] == s[at + 1..close][i - at - 1];
      NoBracketNoMarker(s, i);
    }
  }

  lemma HeaderDepth(s: string, p: nat)
    requires Sign(s, p) == 1 && LegalHeader(s, p + MARKER_LENGTH)
    ensures var bodyStart := IndexChar(s, '>', p + MARKER_LENGTH) + 1;
            forall q :: p < q <= bodyStart ==> Depth(s, p, q) == 1
  {
    var bodyStart := IndexChar(s, '>', p + MARKER_LENGTH) + 1;
    forall q | p < q <= bodyStart
      ensures Depth(s, p, q) == 1
    {
      forall i: nat | p < i < q
        ensures Sign(s, i) == 0
      {
        HeaderIsQuiet(s, p, i);
      }
      Quiet(s, p + 1, q);
      DepthSplit(s, p, p + 1, q);
      assert Depth(s, p, p + 1) == Depth(s, p, p) + Sign(s, p);
    }
  }

  lemma {:induction false} NoStartsNoRise(s: string, a: nat, b: nat)
    requires a <= b
    requires forall i: nat :: a <= i < b ==> !OccursAt(s, START_TAG, i)
    ensures Depth(s, a, b) <= 0
    decreases b
  {
    if a < b {
      NoStartsNoRise(s, a, b - 1);
    }
  }

  /** In a balanced text the block that opens next is closed, and the text after it is balanced. */
  lemma NextBlockCloses(s: string, pos: nat)
    requires LegalHeaders(s) && BalancedFrom(s, pos)
    requires IndexFrom(s, START_TAG, pos) != -1
    ensures var b := BlockAt(s, IndexFrom(s, START_TAG, pos));
            b.Ok? && BalancedFrom(s, b.value.end)
  {
    hide IndexFrom, IndexChar, MatchEnd, OccursAt;
    IndexFromIsFirst(s, START_TAG, pos);
    var start: nat := IndexFrom(s, START_TAG, pos);
    NoStartsNoRise(s, pos, start);
    assert Depth(s, pos, start) == 0;
    assert LegalHeader(s, start + MARKER_LENGTH);
    HeaderDepth(s, start);
    var bodyStart := IndexChar(s, '>', start + MARKER_LENGTH) + 1;
    DepthSplit(s, start, bodyStart, |s|);
    DepthSplit(s, pos, start, |s|);
    MatchEndIsFirstReturn(s, bodyStart, 1);
    var e := MatchEnd(s, bodyStart, 1);
    assert e != -1;
    AfterReturn(s, pos, start, bodyStart, e);
  }

  lemma AfterReturn(s: string, pos: nat, start: nat, bodyStart: nat, e: nat)
    requires BalancedFrom(s, pos) && pos <= start <= bodyStart <= e - MARKER_LENGTH && e <= |s|
    requires Depth(s, pos, start) == 0 && Depth(s, start, bodyStart) == 1
    requires ReturnsAt(s, bodyStart, 1, e - MARKER_LENGTH)
    ensures BalancedFrom(s, e)
  {
    hide OccursAt;
    var p := e - MARKER_LENGTH;
    MarkersDiffer(s, p);
    forall i: nat | p < i < e
      ensures Sign(s, i) == 0
    {
      MarkerShape(s, p);
      NoBracketNoMarker(s, i);
    }
    Quiet(s, p + 1, e);
    DepthSplit(s, bodyStart, p + 1, e);
    DepthSplit(s, start, bodyStart, e);
    DepthSplit(s, pos, start, e);
    assert Depth(s, pos, e) == 0;
    forall q | e <= q <= |s|
      ensures Depth(s, e, q) == Depth(s, pos, q)
    {
      DepthSplit(s, pos, e, q);
    }
  }

  lemma {:induction false} BalancedParses(s: string, pos: nat)
    requires LegalHeaders(s) && BalancedFrom(s, pos)
    ensures FindLoops(s, pos).Ok?
    decreases |s| - pos
  {
    hide IndexFrom, BlockAt, OccursAt;
    if IndexFrom(s, START_TAG, pos) != -1 {
      NextBlockCloses(s, pos);
      BalancedParses(s, BlockAt(s, IndexFrom(s, START_TAG, pos)).value.end);
    }
  }

  // ---- Slices that end in front of a bracket ---------------------------------------------------

  lemma SignInSlice(s: string, a: nat, b: nat, i: nat)
    requires a <= b <= |s| && (b < |s| ==> s[b] == '<') && a + i < b
    ensures Sign(s[a..b], i) == Sign(s, a + i)
  {
    hide OccursAt;
    if Sign(s, a + i) != 0 {
      MarkerShape(s, a + i);
    }
    OccursInSlice(s, a, b, START_TAG, i);
    OccursInSlice(s, a, b, END_TAG, i);
  }

  lemma {:induction false} DepthInSlice(s: string, a: nat, b: nat, q: nat)
    requires a <= b <= |s| && (b < |s| ==> s[b] == '<') && a + q <= b
    ensures Depth(s[a..b], 0, q) == Depth(s, a, a + q)
    decreases q
  {
    hide Sign;
    if q > 0 {
      DepthInSlice(s, a, b, q - 1);
      SignInSlice(s, a, b, q - 1);
    }
  }

  /** The body of a block is balanced, and its headers are as legal as those around it. */
  lemma BodyIsBalanced(s: string, bodyStart: nat, e: nat)
    requires bodyStart + MARKER_LENGTH <= e <= |s|
    requires ReturnsAt(s, bodyStart, 1, e - MARKER_LENGTH)
    ensures BalancedFrom(s[bodyStart..e - MARKER_LENGTH], 0)
  {
    hide OccursAt;
    var p := e - MARKER_LENGTH;
    var body := s[bodyStart..p];
    MarkersDiffer(s, p);
    MarkerShape(s, p);
    forall q | 0 <= q <= |body|
      ensures Depth(body, 0, q) == Depth(s, bodyStart, bodyStart + q)
    {
      DepthInSlice(s, bodyStart, p, q);
    }
  }

  lemma HeadersInBody(s: string, bodyStart: nat, p: nat)
    requires LegalHeaders(s) && bodyStart <= p && Sign(s, p) == -1
    ensures LegalHeaders(s[bodyStart..p])
  {
    hide OccursAt, IndexChar, IsMarkerWord;
    MarkerShape(s, p);
    var body := s[bodyStart..p];
    forall i: nat | OccursAt(body, START_TAG, i)
      ensures LegalHeader(body, i + MARKER_LENGTH)
    {
      OccursAtIsSlice(body, START_TAG, i);
      SignInSlice(s, bodyStart, p, i);
      assert OccursAt(s, START_TAG, bodyStart + i);
      HeaderInBody(s, bodyStart, p, i + MARKER_LENGTH);
    }
  }

  lemma HeaderInBody(s: string, bodyStart: nat, p: nat, at: nat)
    requires bodyStart + at <= p && Sign(s, p) == -1 && p < |s| && s[p] == '<'
    requires LegalHeader(s, bodyStart + at)
    ensures LegalHeader(s[bodyStart..p], at)
  {
    hide OccursAt, Sign;
    var body := s[bodyStart..p];
    var from := bodyStart + at;
    var close := IndexChar(s, '>', from);
    if from == p {
      MarkerWord(s, p);
    } else {
      assert forall i :: from < i < close ==> s[i] == s[from + 1..close][i - from - 1];
      assert close < p;
      var c := close - bodyStart;
      assert body[c] == '>';
      assert forall i :: at <= i < c ==> body[i] == s[bodyStart + i];
      assert IndexChar(body, '>', at) == c;
      assert body[at + 1..c] == s[from + 1..close];
    }
  }

  lemma BodyParses(s: string, start: nat)
    requires LegalHeaders(s) && OccursAt(s, START_TAG, start) && start + MARKER_LENGTH <= |s|
    requires BlockAt(s, start).Ok?
    ensures var body := BlockAt(s, start).value.body;
            LegalHeaders(body) && BalancedFrom(body, 0) && FindLoops(body, 0).Ok?
  {
    hide IndexChar, MatchEnd, OccursAt, FindLoops;
    var bodyStart := IndexChar(s, '>', start + MARKER_LENGTH) + 1;
    var e := MatchEnd(s, bodyStart, 1);
    MatchEndIsFirstReturn(s, bodyStart, 1);
    BodyIsBalanced(s, bodyStart, e);
    MarkersDiffer(s, e - MARKER_LENGTH);
    HeadersInBody(s, bodyStart, e - MARKER_LENGTH);
    BalancedParses(s[bodyStart..e - MARKER_LENGTH], 0);
  }

  lemma {:induction false} TreeFromParses(s: string, pos: nat)
    requires LegalHeaders(s) && pos <= |s| && FindLoops(s, pos).Ok?
    ensures TreeFrom(s, pos, FindLoops(s, pos).value).Ok?
    decreases |s|, |s| - pos
  {
    hide IndexFrom, BlockAt, LegalHeaders, OccursAt;
    var start := IndexFrom(s, START_TAG, pos);
    if start != -1 {
      IndexFromIsFirst(s, START_TAG, pos);
      var b := BlockAt(s, start).value;
      BodyParses(s, start);
      WellFormedAtEveryDepth(b.body);
      TreeFromParses(s, b.end);
      assert FindLoops(s, pos).value[1..] == FindLoops(s, b.end).value;
    }
  }

  /** If every start marker is followed by a legal name and the text parses, then so does every body
      at every depth. */
  lemma {:induction false} WellFormedAtEveryDepth(s: string)
    requires LegalHeaders(s) && FindLoops(s, 0).Ok?
    ensures ParseTree(s).Ok?
    decreases |s|, |s| + 1
  {
    hide LegalHeaders, FindLoops;
    TreeFromParses(s, 0);
  }

  // ---- Printing and parsing --------------------------------------------------------------------

  ghost predicate MarkerFree(s: string) {
    forall p: nat :: p < |s| ==> Sign(s, p) == 0
  }

  /** A name that ends where its bracket closes and makes no marker with its brackets. It may be empty, and
      hold `<`. */
  ghost predicate LegalLoopName(name: string) {
    '>' !in name && MarkerFree("<" + name + ">")
  }

  /** Texts and loops take turns, starting and ending with a text; texts hold no marker; loop names are
      legal. */
  ghost predicate WellFormed(nodes: seq<Node>) {
    && nodes != [] && nodes[0].Text? && MarkerFree(nodes[0].text)
    && (|nodes| > 1 ==>
          && nodes[1].Loop? && LegalLoopName(nodes[1].tag) && WellFormed(nodes[1].body)
          && WellFormed(nodes[2..]))
  }

  function UpperNames(nodes: seq<Node>): seq<Node> {
    if nodes == [] then []
    else [UpperName(nodes[0])] + UpperNames(nodes[1..])
  }

  function UpperName(node: Node): Node {
    match node
    case Text(_) => node
    case Loop(tag, body) => Loop(ToUpper(tag), UpperNames(body))
  }

  /** No marker can lie across the place where `a` and `b` meet: a `>` only ends one, a `<` only starts one. */
  predicate Seam(a: string, b: string) {
    a == "" || b == "" || a[|a| - 1] == '>' || b[0] == '<'
  }

  lemma SignInPrefix(a: string, b: string, i: nat)
    requires Seam(a, b) && i < |a|
    ensures Sign(a + b, i) == Sign(a, i)
  {
    hide OccursAt;
    var s := a + b;
    if Sign(s, i) != 0 {
      MarkerShape(s, i);
      assert s[|a| - 1] == a[|a| - 1] && (b != "" ==> s[|a|] == b[0]);
    }
    assert s[0..|a|] == a;
    OccursInSlice(s, 0, |a|, START_TAG, i);
    OccursInSlice(s, 0, |a|, END_TAG, i);
  }

  lemma {:induction false} DepthInPrefix(a: string, b: string, q: nat)
    requires Seam(a, b) && q <= |a|
    ensures Depth(a + b, 0, q) == Depth(a, 0, q)
    decreases q
  {
    hide Sign, Seam;
    if q > 0 {
      DepthInPrefix(a, b, q - 1);
      SignInPrefix(a, b, q - 1);
    }
  }

  lemma DepthOfConcat(a: string, b: string, q: nat)
    requires Seam(a, b) && q <= |b|
    ensures Depth(a + b, 0, |a| + q) == Depth(a, 0, |a|) + Depth(b, 0, q)
  {
    hide Sign, Seam;
    var s := a + b;
    DepthInPrefix(a, b, |a|);
    DepthSplit(s, 0, |a|, |a| + q);
    DepthInSlice(s, |a|, |s|, q);
    assert s[|a|..|s|] == b;
  }

  /** Lays the profiles of two texts end to end. */
  lemma ProfileOfConcat(a: string, b: string)
    requires Seam(a, b)
    ensures forall q: nat :: q <= |a| ==> Depth(a + b, 0, q) == Depth(a, 0, q)
    ensures forall q: nat :: |a| <= q <= |a + b| ==> Depth(a + b, 0, q) == Depth(a, 0, |a|) + Depth(b, 0, q - |a|)
  {
    hide Sign, Seam;
    forall q: nat | q <= |a|
      ensures Depth(a + b, 0, q) == Depth(a, 0, q)
    {
      DepthInPrefix(a, b, q);
    }
    forall q: nat | |a| <= q <= |a + b|
      ensures Depth(a + b, 0, q) == Depth(a, 0, |a|) + Depth(b, 0, q - |a|)
    {
      DepthOfConcat(a, b, q - |a|);
    }
  }

  lemma BalancedConcat(a: string, b: string)
    requires Seam(a, b) && BalancedFrom(a, 0) && BalancedFrom(b, 0)
    ensures BalancedFrom(a + b, 0)
  {
    hide Depth, Seam;
    ProfileOfConcat(a, b);
  }

  lemma MarkerFreeBalanced(s: string)
    requires MarkerFree(s)
    ensures BalancedFrom(s, 0)
  {
    forall q | 0 <= q <= |s|
      ensures Depth(s, 0, q) == 0
    {
      Quiet(s, 0, q);
    }
  }

  lemma HeaderShape(name: string)
    requires LegalLoopName(name)
    ensures var h := Header(name);
            && |h| == MARKER_LENGTH + |name| + 2
            && h[..MARKER_LENGTH] == START_TAG && h[MARKER_LENGTH..] == "<" + name + ">" && h[|h| - 1] == '>'
            && h[MARKER_LENGTH + 1..|h| - 1] == name
            && IndexChar(h, '>', MARKER_LENGTH) == |h| - 1
  {
    hide MarkerFree;
    var h := Header(name);
    assert h == START_TAG + ("<" + name + ">");
    assert forall i :: 0 <= i < |name| ==> h[MARKER_LENGTH + 1 + i] == name[i];
    assert h[MARKER_LENGTH + 1..|h| - 1] == name;
    assert h[|h| - 1] == '>';
    assert forall i :: MARKER_LENGTH <= i < |h| - 1 ==> h[i] != '>';
  }

  lemma HeaderProfile(name: string)
    requires LegalLoopName(name)
    ensures forall q :: 0 < q <= |Header(name)| ==> Depth(Header(name), 0, q) == 1
  {
    hide OccursAt, IndexChar, Header;
    HeaderShape(name);
    var h := Header(name);
    assert h[0..0 + MARKER_LENGTH] == START_TAG;
    OccursAtIsSlice(h, START_TAG, 0);
    forall i: nat | MARKER_LENGTH <= i < |h|
      ensures Sign(h, i) == 0
    {
      SignInSlice(h, MARKER_LENGTH, |h|, i - MARKER_LENGTH);
      assert h[MARKER_LENGTH..|h|] == h[MARKER_LENGTH..];
    }
    forall q: nat | 0 < q <= |h|
      ensures Depth(h, 0, q) == 1
    {
      AcrossMarker(h, 0, 0, q);
      if MARKER_LENGTH <= q {
        Quiet(h, MARKER_LENGTH, q);
      }
    }
  }

  lemma EndProfile()
    ensures Sign(END_TAG, 0) == -1
    ensures forall q :: 0 < q <= MARKER_LENGTH ==> Depth(END_TAG, 0, q) == -1
  {
    hide OccursAt;
    var e := END_TAG;
    assert e[0..0 + MARKER_LENGTH] == e;
    OccursAtIsSlice(e, END_TAG, 0);
    MarkersDiffer(e, 0);
    forall q: nat | 0 < q <= MARKER_LENGTH
      ensures Depth(e, 0, q) == -1
    {
      AcrossMarker(e, 0, 0, q);
    }
  }

  lemma WrapIsBalanced(name: string, body: string)
    requires LegalLoopName(name) && BalancedFrom(body, 0)
    ensures BalancedFrom(Wrap(name, body), 0)
  {
    hide Depth, Sign, IndexChar, LegalLoopName;
    var h := Header(name);
    HeaderShape(name);
    HeaderProfile(name);
    EndProfile();
    ProfileOfConcat(h, body);
    ProfileOfConcat(h + body, END_TAG);
    DepthOfNothing(h, 0);
    DepthOfNothing(body, 0);
    DepthOfNothing(END_TAG, 0);
  }

  lemma WrapEdges(name: string, body: string)
    ensures var w := Wrap(name, body);
            w != "" && w[0] == '<' && w[|w| - 1] == '>'
  {
    var w := Wrap(name, body);
    assert w == (START_TAG + "<" + name + ">" + body) + END_TAG;
    assert w[0] == START_TAG[0] && w[|w| - 1] == END_TAG[MARKER_LENGTH - 1];
  }

  lemma DepthOfNothing(s: string, a: nat)
    ensures Depth(s, a, a) == 0
  {
  }

  /** The printed form of a well-formed tree is balanced. */
  lemma {:induction false} PrintIsBalanced(nodes: seq<Node>)
    requires WellFormed(nodes)
    ensures BalancedFrom(Print(nodes), 0)
  {
    hide BalancedFrom, MarkerFree, Wrap, LegalLoopName;
    var t := nodes[0].text;
    MarkerFreeBalanced(t);
    if |nodes| == 1 {
      assert Print(nodes) == t + "";
      assert t + "" == t;
    } else {
      PrintIsBalanced(nodes[1].body);
      PrintIsBalanced(nodes[2..]);
      PrintThree(nodes);
      var w := Wrap(nodes[1].tag, Print(nodes[1].body));
      WrapIsBalanced(nodes[1].tag, Print(nodes[1].body));
      WrapEdges(nodes[1].tag, Print(nodes[1].body));
      BalancedConcat(t, w);
      BalancedConcat(t + w, Print(nodes[2..]));
    }
  }

  lemma PrintThree(nodes: seq<Node>)
    requires |nodes| > 1 && nodes[0].Text? && nodes[1].Loop?
    ensures Print(nodes) == nodes[0].text + Wrap(nodes[1].tag, Print(nodes[1].body)) + Print(nodes[2..])
  {
    hide Wrap;
    assert nodes[1..][1..] == nodes[2..];
    var t, w, r := nodes[0].text, PrintNode(nodes[1]), Print(nodes[2..]);
    assert Print(nodes[1..]) == w + r;
    assert t + (w + r) == t + w + r;
  }

  lemma WrapIsLonger(name: string, body: string)
    ensures |Wrap(name, body)| > |body|
  {
  }

  lemma BodyEnds(body: string, rest: string)
    requires BalancedFrom(body, 0)
    ensures MatchEnd(body + (END_TAG + rest), 0, 1) == |body| + MARKER_LENGTH
  {
    hide Depth, OccursAt, MatchEnd;
    var v := body + (END_TAG + rest);
    ProfileOfConcat(body, END_TAG + rest);
    ProfileOfConcat(END_TAG, rest);
    EndProfile();
    OccursAtIsSlice(v, END_TAG, |body|);
    assert v[|body|..|body| + MARKER_LENGTH] == END_TAG;
    ReturnIsMatchEnd(v, 0, 1, |body|);
  }

  lemma WrappedBlock(name: string, body: string, rest: string)
    requires LegalLoopName(name) && BalancedFrom(body, 0)
    ensures OccursAt(Wrap(name, body) + rest, START_TAG, 0)
    ensures BlockAt(Wrap(name, body) + rest, 0) == Ok(Block(ToUpper(name), body, 0, |Wrap(name, body)|))
  {
    hide OccursAt, MatchEnd, IndexChar, BalancedFrom;
    var h := Header(name);
    var v := body + (END_TAG + rest);
    var u := Wrap(name, body) + rest;
    assert u == h + v;
    HeaderShape(name);
    assert u[0..0 + MARKER_LENGTH] == h[..MARKER_LENGTH];
    OccursAtIsSlice(u, START_TAG, 0);
    HeaderCloses(h, v);
    assert u[MARKER_LENGTH + 1..|h| - 1] == h[MARKER_LENGTH + 1..|h| - 1];
    BodyEnds(body, rest);
    assert u[|h|..] == v;
    MatchEndShift(u, |h|, v, 0, 1);
    assert u[|h|..|h| + |body|] == body;
  }

  lemma HeaderCloses(h: string, v: string)
    requires |h| > MARKER_LENGTH && IndexChar(h, '>', MARKER_LENGTH) == |h| - 1
    ensures IndexChar(h + v, '>', MARKER_LENGTH) == |h| - 1
  {
    assert forall i :: 0 <= i < |h| ==> (h + v)[i] == h[i];
  }

  /** The first block of a printed text is the first loop of the tree. */
  lemma FirstPrintedBlock(t: string, name: string, body: string, rest: string)
    requires MarkerFree(t)
    requires LegalLoopName(name) && BalancedFrom(body, 0)
    ensures var s := t + Wrap(name, body) + rest;
            && IndexFrom(s, START_TAG, 0) == |t|
            && |t| + MARKER_LENGTH <= |s|
            && BlockAt(s, |t|) == Ok(Block(ToUpper(name), body, |t|, |t| + |Wrap(name, body)|))
  {
    hide OccursAt, BlockAt, BalancedFrom, IndexFrom, MarkerFree;
    var w := Wrap(name, body);
    var u := w + rest;
    assert t + w + rest == t + u;
    WrappedBlock(name, body, rest);
    BlockAfterText(t, u, Block(ToUpper(name), body, 0, |w|));
  }

  lemma BlockAfterText(t: string, u: string, b: Block)
    requires MarkerFree(t)
    requires |u| >= MARKER_LENGTH && OccursAt(u, START_TAG, 0) && BlockAt(u, 0) == Ok(b)
    ensures IndexFrom(t + u, START_TAG, 0) == |t|
    ensures BlockAt(t + u, |t|) == Ok(b.(start := b.start + |t|, end := b.end + |t|))
  {
    hide OccursAt, BlockAt, IndexFrom;
    var s := t + u;
    assert s[|t|..] == u;
    OccursAtShift(s, |t|, START_TAG, 0);
    assert Seam(t, u) by {
      MarkerShape(u, 0);
    }
    forall i: nat | i < |t|
      ensures !OccursAt(s, START_TAG, i)
    {
      SignInPrefix(t, u, i);
    }
    hide Sign, Seam;
    IndexFromAt(s, START_TAG, 0, |t|);
    BlockAtShift(s, |t|, u, 0);
  }

  lemma {:induction false} TreeFromShift(s: string, k: nat, t: string, pos: nat, blocks: seq<Block>)
    requires k <= |s| && t == s[k..] && Fit(t, pos, blocks)
    requires Fit(s, k + pos, Shift(blocks, k))
    ensures TreeFrom(s, k + pos, Shift(blocks, k)) == TreeFrom(t, pos, blocks)
    decreases |blocks|
  {
    hide ParseTree;
    if blocks != [] {
      var b := blocks[0];
      var moved := Shift(blocks, k);
      assert moved[0] == b.(start := b.start + k, end := b.end + k) && moved[1..] == Shift(blocks[1..], k);
      assert t[pos..b.start] == s[k + pos..k + b.start];
      TreeFromShift(s, k, t, b.end, blocks[1..]);
    } else {
      assert t[pos..] == s[k + pos..];
    }
  }

  /** A text, a block and a rest parse to the text, the parsed block and the parsed rest. */
  lemma ParseTreeStep(t: string, name: string, body: string, rest: string)
    requires MarkerFree(t)
    requires LegalLoopName(name) && BalancedFrom(body, 0)
    requires ParseTree(body).Ok? && ParseTree(rest).Ok?
    ensures ParseTree(t + Wrap(name, body) + rest) ==
            Ok([Text(t), Loop(ToUpper(name), ParseTree(body).value)] + ParseTree(rest).value)
  {
    hide MarkerFree, BlockAt, BalancedFrom, Wrap, IndexFrom, LegalLoopName, ParseTree, FindLoops, ToUpper;
    var s := t + Wrap(name, body) + rest;
    var b := Block(ToUpper(name), body, |t|, |t| + |Wrap(name, body)|);
    WrapIsLonger(name, body);
    FirstPrintedBlock(t, name, body, rest);
    FindLoopsStep(s, 0, |t|, b);
    assert s[b.end..] == rest;
    FindLoopsShift(s, b.end, rest, 0);
    assert s[..|t|] == t;
    FollowingTree(s, b, rest);
  }

  lemma FollowingTree(s: string, b: Block, rest: string)
    requires b.start < b.end <= |s| && s[b.end..] == rest && |b.body| < |s|
    requires FindLoops(s, 0) == Prepend([b], FindLoops(s, b.end))
    requires SameBlocks(FindLoops(s, b.end), FindLoops(rest, 0), b.end)
    requires ParseTree(b.body).Ok? && ParseTree(rest).Ok?
    ensures ParseTree(s) == Ok([Text(s[..b.start]), Loop(b.tag, ParseTree(b.body).value)] + ParseTree(rest).value)
  {
    hide FindLoops;
    var blocks := FindLoops(rest, 0).value;
    var moved := Shift(blocks, b.end);
    assert ([b] + moved)[1..] == moved;
    TreeFromShift(s, b.end, rest, 0, blocks);
    assert ParseTree(rest) == TreeFrom(rest, 0, blocks);
    assert TreeFrom(s, b.end + 0, moved) == ParseTree(rest);
    assert ParseTree(s) == TreeFrom(s, 0, [b] + moved);
  }

  lemma ParsePlainText(t: string)
    requires MarkerFree(t)
    ensures ParseTree(t) == Ok([Text(t)])
  {
    hide OccursAt;
    IndexFromIsFirst(t, START_TAG, 0);
    var i := IndexFrom(t, START_TAG, 0);
    assert i != -1 ==> Sign(t, i) == 1;
    assert t[0..] == t;
  }

  lemma UpperThree(nodes: seq<Node>)
    requires |nodes| > 1
    ensures UpperNames(nodes) == [UpperName(nodes[0]), UpperName(nodes[1])] + UpperNames(nodes[2..])
  {
    hide UpperName;
    var tail := nodes[1..];
    assert tail[0] == nodes[1] && tail[1..] == nodes[2..];
    var a, b, rest := UpperName(nodes[0]), UpperName(nodes[1]), UpperNames(nodes[2..]);
    assert UpperNames(nodes) == [a] + UpperNames(tail);
    hide UpperNames;
    assert [a] + ([b] + rest) == [a, b] + rest;
  }

  /** Parsing a printed tree gives the tree back, with its loop names in upper case. */
  lemma {:induction false} ParseUndoesPrint(nodes: seq<Node>)
    requires WellFormed(nodes)
    ensures ParseTree(Print(nodes)) == Ok(UpperNames(nodes))
  {
    hide MarkerFree, BalancedFrom, Wrap, LegalLoopName, ParseTree;
    var t := nodes[0].text;
    if |nodes| == 1 {
      assert Print(nodes) == t + "" == t;
      ParsePlainText(t);
      assert UpperNames(nodes) == [Text(t)];
    } else {
      PrintThree(nodes);
      ParseUndoesPrint(nodes[1].body);
      ParseUndoesPrint(nodes[2..]);
      PrintIsBalanced(nodes[1].body);
      ParseTreeStep(t, nodes[1].tag, Print(nodes[1].body), Print(nodes[2..]));
      UpperThree(nodes);
      assert UpperName(nodes[1]) == Loop(ToUpper(nodes[1].tag), UpperNames(nodes[1].body));
    }
  }

  // ---- Parsing and printing --------------------------------------------------------------------

  lemma {:induction false} PrintOfConcat(a: seq<Node>, b: seq<Node>)
    ensures Print(a + b) == Print(a) + Print(b)
    decreases |a|
  {
    if a == [] {
      assert a + b == b;
    } else {
      PrintOfConcat(a[1..], b);
      assert (a + b)[1..] == a[1..] + b;
      var x, y, z := PrintNode(a[0]), Print(a[1..]), Print(b);
      assert x + (y + z) == (x + y) + z;
    }
  }

  lemma {:induction false} TreeFromPrints(s: string, pos: nat, blocks: seq<Block>) returns (nodes: seq<Node>)
    requires InOrder(s, pos, blocks) && pos <= |s| && Fit(s, pos, blocks) && TreeFrom(s, pos, blocks).Ok?
    ensures Print(nodes) == s[pos..] && TreeFrom(s, pos, blocks) == Ok(UpperNames(nodes))
    decreases |s|, 0, |blocks|
  {
    hide OccursAt, ToUpper, ParseTree, Print, Wrap, WrittenName;
    if blocks == [] {
      nodes := [Text(s[pos..])];
      PrintText(s[pos..]);
    } else {
      var b := blocks[0];
      var name, gap := WrittenName(s, b), s[pos..b.start];
      var body := PrintUndoesParse(b.body);
      var rest := TreeFromPrints(s, b.end, blocks[1..]);
      var pair := [Text(gap), Loop(name, body)];
      nodes := pair + rest;
      UpperThree(nodes);
      assert nodes[2..] == rest;
      PrintPair(gap, name, body);
      PrintOfConcat(pair, rest);
      BlockIsWrap(s, b);
      assert s[pos..] == gap + s[b.start..b.end] + s[b.end..];
    }
  }

  lemma BlockIsWrap(s: string, b: Block)
    requires LaidOut(s, b)
    ensures s[b.start..b.end] == Wrap(WrittenName(s, b), b.body)
  {
    hide ToUpper;
  }

  lemma PrintText(t: string)
    ensures Print([Text(t)]) == t && UpperNames([Text(t)]) == [Text(t)]
  {
    assert [Text(t)][1..] == [];
    assert t + "" == t;
  }

  lemma PrintPair(t: string, tag: string, body: seq<Node>)
    ensures Print([Text(t), Loop(tag, body)]) == t + Wrap(tag, Print(body))
  {
    hide Wrap;
    var pair := [Text(t), Loop(tag, body)];
    assert pair[1..] == [pair[1]] && pair[1..][1..] == [];
    assert Print(pair[1..]) == Wrap(tag, Print(body)) + "";
    assert Wrap(tag, Print(body)) + "" == Wrap(tag, Print(body));
  }

  /** Any text that parses at every depth is the printed form of the tree it parses to, but for the case of
      the loop names: upper-casing them is all the parser changes. */
  lemma {:induction false} PrintUndoesParse(s: string) returns (nodes: seq<Node>)
    requires ParseTree(s).Ok?
    ensures Print(nodes) == s && ParseTree(s) == Ok(UpperNames(nodes))
    decreases |s|, 1, 0
  {
    hide FindLoops, InOrder, UpperNames, Print;
    FoundInOrder(s, 0);
    nodes := TreeFromPrints(s, 0, FindLoops(s, 0).value);
    assert s[0..] == s;
  }

  // ---- Templates put together from loops -------------------------------------------------------

  /** A text that starts with a loop: that block, and then the blocks of the rest. */
  lemma LoopThenRest(name: string, body: string, rest: string)
    requires LegalLoopName(name) && BalancedFrom(body, 0) && FindLoops(rest, 0).Ok?
    ensures var w := Wrap(name, body);
            FindLoops(w + rest, 0) ==
            Ok([Block(ToUpper(name), body, 0, |w|)] + Shift(FindLoops(rest, 0).value, |w|))
  {
    hide BlockAt, BalancedFrom, Wrap, IndexFrom, LegalLoopName;
    var w := Wrap(name, body);
    var s, b := w + rest, Block(ToUpper(name), body, 0, |w|);
    assert "" + w + rest == s;
    NothingIsPlain();
    FirstPrintedBlock("", name, body, rest);
    FindLoopsStep(s, 0, 0, b);
    assert s[|w|..] == rest;
    FindLoopsShift(s, |w|, rest, 0);
  }

  lemma NothingIsPlain()
    ensures MarkerFree("")
  {
  }

  /** A text without markers has no blocks. */
  lemma NoLoopsIn(t: string)
    requires MarkerFree(t)
    ensures FindLoops(t, 0) == Ok([])
  {
    hide OccursAt;
    IndexFromIsFirst(t, START_TAG, 0);
    var i := IndexFrom(t, START_TAG, 0);
    assert i != -1 ==> Sign(t, i) == 1;
  }
}
