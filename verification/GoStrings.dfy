/** The parts of Go's `strings` and `fmt` packages the operator relies on, over sequences of characters. */
module GoStrings {

  /** `s` holds the first `j - i` characters of `pat` at offset `i`. */
  predicate MatchesUpTo(s: string, pat: string, i: nat, j: nat)
    requires i <= j <= i + |pat| && j <= |s|
    decreases j
  {
    j == i || (s[j - 1] == pat[j - 1 - i] && MatchesUpTo(s, pat, i, j - 1))
  }

  predicate OccursAt(s: string, pat: string, i: nat) {
    i + |pat| <= |s| && MatchesUpTo(s, pat, i, i + |pat|)
  }

  lemma {:induction false} MatchIsSlice(s: string, pat: string, i: nat, j: nat)
    requires i <= j <= i + |pat| && j <= |s|
    ensures MatchesUpTo(s, pat, i, j) <==> s[i..j] == pat[..j - i]
    decreases j
  {
    if j > i {
      MatchIsSlice(s, pat, i, j - 1);
      assert s[i..j] == s[i..j - 1] + [s[j - 1]];
      assert pat[..j - i] == pat[..j - 1 - i] + [pat[j - 1 - i]];
    }
  }

  lemma OccursAtIsSlice(s: string, pat: string, i: nat)
    ensures OccursAt(s, pat, i) <==> i + |pat| <= |s| && s[i..i + |pat|] == pat
  {
    if i + |pat| <= |s| {
      MatchIsSlice(s, pat, i, i + |pat|);
      assert pat[..|pat|] == pat;
    }
  }

  lemma OccursInSlice(s: string, a: nat, b: nat, pat: string, i: nat)
    requires a <= b <= |s|
    requires OccursAt(s, pat, a + i) ==> a + i + |pat| <= b
    ensures OccursAt(s[a..b], pat, i) <==> OccursAt(s, pat, a + i)
  {
    hide OccursAt;
    OccursAtIsSlice(s[a..b], pat, i);
    OccursAtIsSlice(s, pat, a + i);
    if i + |pat| <= b - a {
      SliceOfSlice(s, a, b, i, i + |pat|);
    }
  }

  lemma IndexFromAt(s: string, pat: string, from: nat, p: nat)
    requires from <= p <= |s| && OccursAt(s, pat, p)
    requires forall i: nat :: from <= i < p ==> !OccursAt(s, pat, i)
    ensures IndexFrom(s, pat, from) == p
  {
    hide OccursAt;
    IndexFromIsFirst(s, pat, from);
  }

  /** `strings.Index(s[from:], pat)` reported as an offset into `s`; -1 when `pat` does not occur. */
  function IndexFrom(s: string, pat: string, from: nat): (r: int)
    requires from <= |s|
    ensures r == -1 || from <= r <= |s| - |pat|
    decreases |s| - from
  {
    if OccursAt(s, pat, from) then from
    else if from == |s| then -1
    else IndexFrom(s, pat, from + 1)
  }

  lemma {:induction false} IndexFromIsFirst(s: string, pat: string, from: nat)
    requires from <= |s|
    ensures var r := IndexFrom(s, pat, from);
            && (r == -1 || OccursAt(s, pat, r))
            && forall i: nat :: from <= i <= |s| && (r == -1 || i < r) ==> !OccursAt(s, pat, i)
    decreases |s| - from
  {
    if !OccursAt(s, pat, from) && from < |s| {
      IndexFromIsFirst(s, pat, from + 1);
    }
  }

  /** `strings.IndexByte(s[from:], c)` reported as an offset into `s`. */
  function IndexChar(s: string, c: char, from: nat): (r: int)
    requires from <= |s|
    ensures r == -1 || (from <= r < |s| && s[r] == c)
    ensures forall i: nat :: from <= i < |s| && (r == -1 || i < r) ==> s[i] != c
    decreases |s| - from
  {
    if from == |s| then -1
    else if s[from] == c then from
    else IndexChar(s, c, from + 1)
  }

  lemma SliceOfSlice(s: string, a: nat, b: nat, i: nat, j: nat)
    requires a <= b <= |s| && i <= j <= b - a
    ensures s[a..b][i..j] == s[a + i..a + j]
  {
    var x, y := s[a..b][i..j], s[a + i..a + j];
    assert |x| == |y|;
    assert forall k :: 0 <= k < |x| ==> x[k] == y[k];
  }

  predicate HasPrefix(s: string, p: string) { p <= s }

  predicate HasSuffix(s: string, p: string) {
    |p| <= |s| && s[|s| - |p|..] == p
  }

  function TrimPrefix(s: string, p: string): string {
    if HasPrefix(s, p) then s[|p|..] else s
  }

  function TrimSuffix(s: string, p: string): string {
    if HasSuffix(s, p) then s[..|s| - |p|] else s
  }

  /** The letters a to z in upper case, every other character as it is. */
  function UpperChar(c: char): char {
    if 'a' <= c <= 'z' then ((c as int) - 32) as char else c
  }

  function ToUpper(s: string): (r: string)
    ensures |r| == |s|
    ensures forall i :: 0 <= i < |s| ==> r[i] == UpperChar(s[i])
  {
    seq(|s|, i requires 0 <= i < |s| => UpperChar(s[i]))
  }

  lemma ToUpperConcat(a: string, b: string)
    ensures ToUpper(a + b) == ToUpper(a) + ToUpper(b)
  {
  }

  /** The characters `strings.TrimSpace` removes. */
  predicate IsSpace(c: char) {
    || c == ' ' || '\t' <= c <= '\r' || c == '\U{85}' || c == '\U{A0}'
    || c == '\U{1680}' || '\U{2000}' <= c <= '\U{200A}' || c == '\U{2028}' || c == '\U{2029}'
    || c == '\U{202F}' || c == '\U{205F}' || c == '\U{3000}'
  }

  function TrimLeftSpace(s: string): (r: string)
    ensures r != "" ==> !IsSpace(r[0])
  {
    if s != "" && IsSpace(s[0]) then TrimLeftSpace(s[1..]) else s
  }

  function TrimRightSpace(s: string): (r: string)
    ensures r != "" ==> !IsSpace(r[|r| - 1])
  {
    if s != "" && IsSpace(s[|s| - 1]) then TrimRightSpace(s[..|s| - 1]) else s
  }

  function TrimSpace(s: string): string {
    TrimRightSpace(TrimLeftSpace(s))
  }

  /** `fmt.Sprintf("%d", n)`. */
  function Itoa(n: nat): (r: string)
    ensures r != ""
    ensures forall c :: c in r ==> '0' <= c <= '9'
  {
    if n < 10 then [Digit(n)] else Itoa(n / 10) + [Digit(n % 10)]
  }

  function Digit(d: nat): (c: char)
    requires d < 10
    ensures '0' <= c <= '9' && c as int == '0' as int + d
  {
    ((d + '0' as int) as char)
  }

  lemma {:induction false} ItoaInjective(m: nat, n: nat)
    requires Itoa(m) == Itoa(n)
    ensures m == n
  {
    assert Itoa(m)[|Itoa(m)| - 1] == Digit(m % 10);
    assert Itoa(n)[|Itoa(n)| - 1] == Digit(n % 10);
    if m < 10 || n < 10 {
      assert m < 10 && n < 10;
    } else {
      assert Itoa(m)[..|Itoa(m)| - 1] == Itoa(m / 10);
      assert Itoa(n)[..|Itoa(n)| - 1] == Itoa(n / 10);
      ItoaInjective(m / 10, n / 10);
    }
  }

  /** `strings.Join(parts, sep)` for a one-character separator. */
  function Join(parts: seq<string>, sep: char): string {
    if parts == [] then ""
    else if |parts| == 1 then parts[0]
    else parts[0] + [sep] + Join(parts[1..], sep)
  }

  /** `strings.Split(s, sep)` for a one-character separator. */
  function Split(s: string, sep: char): (parts: seq<string>)
    ensures parts != []
    decreases |s|
  {
    var i := IndexChar(s, sep, 0);
    if i == -1 then [s] else [s[..i]] + Split(s[i + 1..], sep)
  }

  lemma {:induction false} SplitJoin(parts: seq<string>, sep: char)
    requires parts != []
    requires forall p :: p in parts ==> sep !in p
    ensures Split(Join(parts, sep), sep) == parts
  {
    var s := Join(parts, sep);
    var i := IndexChar(s, sep, 0);
    assert parts[0] in parts;
    if |parts| == 1 {
      assert s == parts[0];
      assert i == -1;
    } else {
      var rest := Join(parts[1..], sep);
      assert s == parts[0] + [sep] + rest;
      assert s[|parts[0]|] == sep;
      assert i == |parts[0]| by {
        assert forall k :: 0 <= k < |parts[0]| ==> s[k] == parts[0][k] && parts[0][k] in parts[0];
      }
      assert s[..i] == parts[0] && s[i + 1..] == rest;
      SplitJoin(parts[1..], sep);
    }
  }

  // ---- What these functions mean ---------------------------------------------------------------

  const LOWER := "abcdefghijklmnopqrstuvwxyz"
  const UPPER := "ABCDEFGHIJKLMNOPQRSTUVWXYZ"

  /** Letter by letter, and nothing but letters. */
  lemma UpperLetters(c: char)
    ensures |LOWER| == |UPPER| == 26
    ensures forall i :: 0 <= i < 26 ==> UpperChar(LOWER[i]) == UPPER[i]
    ensures c !in LOWER ==> UpperChar(c) == c
  {
    assert forall i :: 0 <= i < 26 ==> LOWER[i] as int == 'a' as int + i && UPPER[i] as int == 'A' as int + i;
    if 'a' <= c <= 'z' {
      assert LOWER[c as int - 'a' as int] == c;
    }
  }

  /** The number a string of decimal digits stands for, read from the left. */
  function ReadDigits(digits: string, sofar: nat): nat
    requires forall c :: c in digits ==> '0' <= c <= '9'
  {
    if digits == "" then sofar
    else
      var d := digits[0];
      assert d in digits && forall c :: c in digits[1..] ==> c in digits;
      ReadDigits(digits[1..], 10 * sofar + (d as int - '0' as int))
  }

  lemma {:induction false} ReadOneMore(digits: string, d: char, sofar: nat)
    requires (forall c :: c in digits ==> '0' <= c <= '9') && '0' <= d <= '9'
    ensures ReadDigits(digits + [d], sofar) == 10 * ReadDigits(digits, sofar) + (d as int - '0' as int)
    decreases |digits|
  {
    if digits == "" {
      assert digits + [d] == [d] && [d][1..] == "";
    } else {
      assert (digits + [d])[1..] == digits[1..] + [d] && (digits + [d])[0] == digits[0] && digits[0] in digits;
      assert forall c :: c in digits[1..] ==> c in digits;
      ReadOneMore(digits[1..], d, 10 * sofar + (digits[0] as int - '0' as int));
    }
  }

  /** The decimal digits of a number read back as that number, and there is no zero in front. */
  lemma {:induction false} ItoaReads(n: nat)
    ensures ReadDigits(Itoa(n), 0) == n
    ensures |Itoa(n)| > 1 ==> Itoa(n)[0] != '0'
  {
    if n >= 10 {
      ItoaReads(n / 10);
      ReadOneMore(Itoa(n / 10), Digit(n % 10), 0);
      assert Itoa(n)[0] == Itoa(n / 10)[0];
      FirstDigit(n / 10);
    } else {
      assert [Digit(n)][1..] == "";
    }
  }

  lemma {:induction false} FirstDigit(n: nat)
    requires n > 0
    ensures Itoa(n)[0] != '0'
  {
    if n >= 10 {
      FirstDigit(n / 10);
    }
  }

  predicate AllSpace(s: string) {
    forall c :: c in s ==> IsSpace(c)
  }

  lemma SpacesOf(c: char)
    ensures IsSpace(' ') && IsSpace('\n') && IsSpace('\t') && IsSpace('\r')
    ensures ' ' < c <= '~' ==> !IsSpace(c)
  {
  }

  lemma {:induction false} TrimLeftIs(pre: string, t: string)
    requires AllSpace(pre) && (t != "" ==> !IsSpace(t[0]))
    ensures TrimLeftSpace(pre + t) == t
  {
    if pre == "" {
      assert pre + t == t;
    } else {
      assert (pre + t)[1..] == pre[1..] + t && pre[0] in pre;
      TrimLeftIs(pre[1..], t);
    }
  }

  lemma {:induction false} TrimRightIs(t: string, post: string)
    requires AllSpace(post) && (t != "" ==> !IsSpace(t[|t| - 1]))
    ensures TrimRightSpace(t + post) == t
  {
    if post == "" {
      assert t + post == t;
    } else {
      var s, shorter := t + post, post[..|post| - 1];
      assert s[..|s| - 1] == t + shorter && s[|s| - 1] == post[|post| - 1] && post[|post| - 1] in post;
      TrimRightIs(t, shorter);
    }
  }

  /** Space around a text, and no other, is taken off. */
  lemma TrimSpaceIs(pre: string, t: string, post: string)
    requires AllSpace(pre) && AllSpace(post) && (t != "" ==> !IsSpace(t[0]) && !IsSpace(t[|t| - 1]))
    ensures TrimSpace(pre + t + post) == t
  {
    if t == "" {
      assert pre + t + post == pre + post;
      assert (pre + post) + "" == pre + post;
      TrimLeftIs(pre + post, "");
    } else {
      assert pre + t + post == pre + (t + post);
      TrimLeftIs(pre, t + post);
      TrimRightIs(t, post);
    }
  }

  /** The parts a separator cuts a text into, from left to right. */
  lemma SplitFirst(a: string, rest: string, sep: char)
    requires sep !in a
    ensures Split(a, sep) == [a]
    ensures Split(a + [sep] + rest, sep) == [a] + Split(rest, sep)
  {
    var s := a + [sep] + rest;
    assert s[|a|] == sep;
    assert forall k :: 0 <= k < |a| ==> s[k] == a[k] && a[k] in a;
    assert IndexChar(s, sep, 0) == |a|;
    assert s[..|a|] == a && s[|a| + 1..] == rest;
    assert IndexChar(a, sep, 0) == -1;
  }

  lemma TrimPrefixIs(s: string, p: string)
    ensures TrimPrefix(p + s, p) == s
    ensures TrimPrefix(s, p) == s || s == p + TrimPrefix(s, p)
    ensures (forall t :: s != p + t) ==> TrimPrefix(s, p) == s
  {
    if HasPrefix(s, p) {
      assert s == p + s[|p|..];
    }
  }
}
