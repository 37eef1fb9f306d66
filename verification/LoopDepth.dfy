/** An independent reading of the parser: the nesting depth at each offset, counted marker by marker. */
module LoopDepth {
  import opened GoStrings
  import opened Loops

  /** +1 where a start marker begins, -1 where an end marker begins. */
  function Sign(s: string, p: nat): int {
    if OccursAt(s, START_TAG, p) then 1
    else if OccursAt(s, END_TAG, p) then -1
    else 0
  }

  /** Start markers minus end markers that begin in `s[a..b]`. */
  function Depth(s: string, a: nat, b: nat): int
    requires a <= b
    decreases b
  {
    if a == b then 0 else Depth(s, a, b - 1) + Sign(s, b - 1)
  }

  lemma {:induction false} DepthSplit(s: string, a: nat, b: nat, c: nat)
    requires a <= b <= c
    ensures Depth(s, a, c) == Depth(s, a, b) + Depth(s, b, c)
    decreases c
  {
    if b < c {
      DepthSplit(s, a, b, c - 1);
    }
  }

  lemma {:induction false} Quiet(s: string, a: nat, b: nat)
    requires a <= b
    requires forall i: nat :: a <= i < b ==> Sign(s, i) == 0
    ensures Depth(s, a, b) == 0
    decreases b
  {
    if a < b {
      Quiet(s, a, b - 1);
    }
  }

  /** A marker is one bracketed word: no bracket inside it. */
  lemma MarkerShape(s: string, p: nat)
    requires Sign(s, p) != 0
    ensures p + MARKER_LENGTH <= |s| && s[p] == '<' && s[p + MARKER_LENGTH - 1] == '>'
    ensures forall i :: p < i < p + MARKER_LENGTH - 1 ==> s[i] != '<' && s[i] != '>'
    ensures s[p..p + MARKER_LENGTH] == (if Sign(s, p) == 1 then START_TAG else END_TAG)
  {
    var tag := if Sign(s, p) == 1 then START_TAG else END_TAG;
    OccursAtIsSlice(s, tag, p);
    assert forall i :: p <= i < p + MARKER_LENGTH ==> s[i] == tag[i - p];
    assert forall k :: 0 < k < MARKER_LENGTH - 1 ==> tag[k] != '<' && tag[k] != '>';
  }

  lemma NoBracketNoMarker(s: string, p: nat)
    requires p < |s| && s[p] != '<'
    ensures Sign(s, p) == 0
  {
    if Sign(s, p) != 0 {
      MarkerShape(s, p);
    }
  }

  /** From `scan` over silence to the marker at `m` and past it. */
  lemma AcrossMarker(s: string, scan: nat, m: nat, q: nat)
    requires scan <= m && Sign(s, m) != 0
    requires forall i: nat :: scan <= i < m ==> Sign(s, i) == 0
    requires scan <= q
    ensures m + MARKER_LENGTH <= |s|
    ensures q <= m ==> Depth(s, scan, q) == 0
    ensures m < q <= m + MARKER_LENGTH ==> Depth(s, scan, q) == Sign(s, m)
    ensures m + MARKER_LENGTH <= q ==> Depth(s, scan, q) == Sign(s, m) + Depth(s, m + MARKER_LENGTH, q)
  {
    MarkerShape(s, m);
    forall i: nat | m < i < m + MARKER_LENGTH
      ensures Sign(s, i) == 0
    {
      NoBracketNoMarker(s, i);
    }
    if q <= m {
      Quiet(s, scan, q);
    } else {
      var r := if q < m + MARKER_LENGTH then q else m + MARKER_LENGTH;
      Quiet(s, scan, m);
      Quiet(s, m + 1, r);
      DepthSplit(s, scan, m + 1, r);
      DepthSplit(s, scan, r, q);
    }
  }

  /** The end marker of a block opened at depth `depth` is the one at `p`: the depth is positive up
      to it and zero after it. */
  ghost predicate ReturnsAt(s: string, from: nat, depth: nat, p: nat) {
    && from <= p && p + MARKER_LENGTH <= |s| && OccursAt(s, END_TAG, p)
    && depth + Depth(s, from, p + 1) == 0
    && forall q :: from <= q <= p ==> depth + Depth(s, from, q) > 0
  }

  ghost predicate NeverReturns(s: string, from: nat, depth: nat) {
    forall q :: from <= q <= |s| ==> depth + Depth(s, from, q) > 0
  }

  lemma MarkersDiffer(s: string, p: nat)
    ensures !(OccursAt(s, START_TAG, p) && OccursAt(s, END_TAG, p))
  {
    OccursAtIsSlice(s, START_TAG, p);
    OccursAtIsSlice(s, END_TAG, p);
    assert START_TAG[9] != END_TAG[9];
  }

  lemma {:induction false} NoEndsNoReturn(s: string, a: nat, b: nat)
    requires a <= b
    requires forall i: nat :: a <= i < b ==> Sign(s, i) >= 0
    ensures Depth(s, a, b) >= 0
    decreases b
  {
    if a < b {
      NoEndsNoReturn(s, a, b - 1);
    }
  }

  ghost predicate NextMarkerAt(s: string, scan: nat, m: nat) {
    scan <= m && m + MARKER_LENGTH <= |s| && Sign(s, m) != 0 && forall i: nat :: scan <= i < m ==> Sign(s, i) == 0
  }

  lemma NoEndMarker(s: string, scan: nat, depth: nat)
    requires scan <= |s| && depth > 0 && IndexFrom(s, END_TAG, scan) == -1
    ensures NeverReturns(s, scan, depth)
  {
    IndexFromIsFirst(s, END_TAG, scan);
    forall q | scan <= q <= |s|
      ensures depth + Depth(s, scan, q) > 0
    {
      NoEndsNoReturn(s, scan, q);
    }
  }

  /** One turn of the scan loop goes past the next marker, whichever of the two it is. */
  lemma OneTurn(s: string, scan: nat, depth: nat) returns (m: nat)
    requires scan <= |s| && depth > 0 && IndexFrom(s, END_TAG, scan) != -1
    ensures NextMarkerAt(s, scan, m)
    ensures MatchEnd(s, scan, depth) == MatchEnd(s, m + MARKER_LENGTH, depth + Sign(s, m))
  {
    hide OccursAt, IndexFrom;
    IndexFromIsFirst(s, START_TAG, scan);
    IndexFromIsFirst(s, END_TAG, scan);
    var x, y := IndexFrom(s, START_TAG, scan), IndexFrom(s, END_TAG, scan);
    MarkersDiffer(s, y);
    m := if x != -1 && x < y then x else y;
  }

  lemma PastNextMarker(s: string, scan: nat, m: nat)
    requires NextMarkerAt(s, scan, m)
    ensures PassesMarker(s, scan, m)
  {
    forall q | scan <= q
      ensures q <= m ==> Depth(s, scan, q) == 0
      ensures m < q <= m + MARKER_LENGTH ==> Depth(s, scan, q) == Sign(s, m)
      ensures m + MARKER_LENGTH <= q ==> Depth(s, scan, q) == Sign(s, m) + Depth(s, m + MARKER_LENGTH, q)
    {
      AcrossMarker(s, scan, m, q);
    }
  }

  ghost predicate PassesMarker(s: string, scan: nat, m: nat)
    requires scan <= m
  {
    forall q :: scan <= q ==>
      && (q <= m ==> Depth(s, scan, q) == 0)
      && (m < q <= m + MARKER_LENGTH ==> Depth(s, scan, q) == Sign(s, m))
      && (m + MARKER_LENGTH <= q ==> Depth(s, scan, q) == Sign(s, m) + Depth(s, m + MARKER_LENGTH, q))
  }

  /** `e` is -1 when the depth never returns to zero, else the offset after the marker it returns at. */
  ghost predicate IsFirstReturn(s: string, from: nat, depth: nat, e: int) {
    if e < MARKER_LENGTH then e == -1 && NeverReturns(s, from, depth) else ReturnsAt(s, from, depth, e - MARKER_LENGTH)
  }

  lemma ReturnCarriesOver(s: string, scan: nat, depth: nat, m: nat, e: int)
    requires NextMarkerAt(s, scan, m) && depth + Sign(s, m) > 0 && depth > 0
    requires IsFirstReturn(s, m + MARKER_LENGTH, depth + Sign(s, m), e)
    ensures IsFirstReturn(s, scan, depth, e)
  {
    PastNextMarker(s, scan, m);
  }

  lemma ReturnsAtMarker(s: string, scan: nat, m: nat)
    requires NextMarkerAt(s, scan, m) && Sign(s, m) == -1
    ensures IsFirstReturn(s, scan, 1, m + MARKER_LENGTH)
  {
    PastNextMarker(s, scan, m);
  }

  /** The scan loop stops at the first end marker after which the depth is zero, and gives up exactly
      when there is none. */
  lemma {:induction false} MatchEndIsFirstReturn(s: string, scan: nat, depth: nat)
    requires scan <= |s| && depth > 0
    ensures IsFirstReturn(s, scan, depth, MatchEnd(s, scan, depth))
    decreases |s| - scan
  {
    if IndexFrom(s, END_TAG, scan) == -1 {
      NoEndMarker(s, scan, depth);
    } else {
      var m := OneTurn(s, scan, depth);
      var depth' := depth + Sign(s, m);
      if depth' == 0 {
        ReturnsAtMarker(s, scan, m);
      } else {
        MatchEndIsFirstReturn(s, m + MARKER_LENGTH, depth');
        ReturnCarriesOver(s, scan, depth, m, MatchEnd(s, m + MARKER_LENGTH, depth'));
      }
    }
  }

  /** There is only one such end marker, so the scan finds it. */
  lemma ReturnIsMatchEnd(s: string, scan: nat, depth: nat, p: nat)
    requires scan <= |s| && depth > 0 && ReturnsAt(s, scan, depth, p)
    ensures MatchEnd(s, scan, depth) == p + MARKER_LENGTH
  {
    MatchEndIsFirstReturn(s, scan, depth);
    var e := MatchEnd(s, scan, depth);
    assert depth + Depth(s, scan, p + 1) == 0;
    assert e != -1 ==> depth + Depth(s, scan, e - MARKER_LENGTH + 1) == 0;
  }

  lemma BlockEndsAtFirstReturn(s: string, start: nat)
    requires start + MARKER_LENGTH <= |s| && BlockAt(s, start).Ok?
    ensures var b := BlockAt(s, start).value;
            && b.end >= MARKER_LENGTH + |b.body|
            && ReturnsAt(s, b.end - MARKER_LENGTH - |b.body|, 1, b.end - MARKER_LENGTH)
  {
    hide IndexChar, MatchEnd, ReturnsAt;
    MatchEndIsFirstReturn(s, IndexChar(s, '>', start + MARKER_LENGTH) + 1, 1);
  }

  /** Every block of a text that parses ends at the first point where the depth, counted from the end of
      its header, is back to zero. */
  lemma {:induction false} BlocksEndAtFirstReturn(s: string, pos: nat, k: nat)
    requires pos <= |s| && FindLoops(s, pos).Ok? && k < |FindLoops(s, pos).value|
    ensures var b := FindLoops(s, pos).value[k];
            && b.end >= MARKER_LENGTH + |b.body|
            && ReturnsAt(s, b.end - MARKER_LENGTH - |b.body|, 1, b.end - MARKER_LENGTH)
    decreases k
  {
    hide IndexFrom, BlockAt, ReturnsAt, Fit;
    var start := IndexFrom(s, START_TAG, pos);
    var b := BlockAt(s, start).value;
    if k == 0 {
      BlockEndsAtFirstReturn(s, start);
    } else {
      BlocksEndAtFirstReturn(s, b.end, k - 1);
      assert FindLoops(s, pos).value[k] == FindLoops(s, b.end).value[k - 1];
    }
  }
}
