/** Merging the rules of several ConfigMaps. */
module RuleSources {
  import opened Results
  import opened Rules

  const RULE_KEY := "rule.json"

  datatype RulesFile = RulesFile(common: map<string, string>, rules: map<string, RuleMapping>)

  datatype Source = Source(space: string, name: string, data: map<string, string>) {
    function Id(): string {
      space + "/" + name
    }
  }

  datatype MergeResult =
    | Merged(file: RulesFile, used: nat)
    | ParseFailed(id: string)
    | RuleTwice(rule: string, id: string)
    | CommonTwice(first: string, second: string)

  /** JSON decoding, done elsewhere. */
  type Parser = string -> Option<RulesFile>

  /** The rules a source brings; None for a source without the key, which is ignored. */
  function Part(src: Source, parse: Parser): Option<RulesFile> {
    if RULE_KEY in src.data then parse(src.data[RULE_KEY]) else None
  }

  predicate Parses(src: Source, parse: Parser) {
    RULE_KEY in src.data ==> Part(src, parse).Some?
  }

  /** What is counted over the sources. */
  datatype Mark = RuleNamed(name: string) | Common | Used

  predicate Has(src: Source, mark: Mark, parse: Parser) {
    match mark
    case Used => RULE_KEY in src.data
    case Common => Part(src, parse).Some? && Part(src, parse).value.common != map[]
    case RuleNamed(name) => Part(src, parse).Some? && name in Part(src, parse).value.rules
  }

  function Count(sources: seq<Source>, mark: Mark, parse: Parser): nat {
    if sources == [] then 0
    else (if Has(sources[0], mark, parse) then 1 else 0) + Count(sources[1..], mark, parse)
  }

  /** Every source parses, no rule is defined twice, and the common section at most once. */
  ghost predicate Mergeable(sources: seq<Source>, parse: Parser) {
    && (forall src :: src in sources ==> Parses(src, parse))
    && (forall name :: Count(sources, RuleNamed(name), parse) <= 1)
    && Count(sources, Common, parse) <= 1
  }

  /** `file` holds what the sources define and nothing else. */
  ghost predicate IsUnion(file: RulesFile, sources: seq<Source>, parse: Parser) {
    RulesUnion(file.rules, sources, parse) && CommonUnion(file.common, sources, parse)
  }

  ghost predicate RulesUnion(rules: map<string, RuleMapping>, sources: seq<Source>, parse: Parser) {
    && (forall name :: name in rules ==> exists src :: src in sources && Brings(src, name, rules[name], parse))
    && (forall src, name :: src in sources && Has(src, RuleNamed(name), parse) ==> name in rules)
  }

  ghost predicate CommonUnion(common: map<string, string>, sources: seq<Source>, parse: Parser) {
    && (common != map[] ==> exists src :: src in sources && BringsCommon(src, common, parse))
    && (forall src :: src in sources && Has(src, Common, parse) ==> common != map[])
  }

  predicate Brings(src: Source, name: string, rule: RuleMapping, parse: Parser) {
    Has(src, RuleNamed(name), parse) && Part(src, parse).value.rules[name] == rule
  }

  predicate BringsCommon(src: Source, common: map<string, string>, parse: Parser) {
    Has(src, Common, parse) && Part(src, parse).value.common == common
  }

  lemma {:induction false} CountAppend(sources: seq<Source>, src: Source, mark: Mark, parse: Parser)
    ensures Count(sources + [src], mark, parse) ==
            Count(sources, mark, parse) + (if Has(src, mark, parse) then 1 else 0)
    decreases |sources|
  {
    if sources == [] {
      assert sources + [src] == [src];
      assert [src][1..] == [];
    } else {
      assert (sources + [src])[1..] == sources[1..] + [src];
      CountAppend(sources[1..], src, mark, parse);
    }
  }

  lemma {:induction false} CountPrefix(sources: seq<Source>, i: nat, mark: Mark, parse: Parser)
    requires i <= |sources|
    ensures Count(sources[..i], mark, parse) <= Count(sources, mark, parse)
    decreases |sources| - i
  {
    if i < |sources| {
      assert sources[..i + 1] == sources[..i] + [sources[i]];
      CountAppend(sources[..i], sources[i], mark, parse);
      CountPrefix(sources, i + 1, mark, parse);
    } else {
      assert sources[..i] == sources;
    }
  }

  /** What holds after the sources before `i`. */
  ghost predicate MergedSoFar(file: RulesFile, commonDefinedIn: string, used: nat, sources: seq<Source>, parse: Parser)
  {
    && Mergeable(sources, parse) && IsUnion(file, sources, parse)
    && (forall name :: Count(sources, RuleNamed(name), parse) == if name in file.rules then 1 else 0)
    && Count(sources, Common, parse) == (if commonDefinedIn == "" then 0 else 1)
    && Count(sources, Used, parse) == used
    && (file.common == map[] <==> commonDefinedIn == "")
  }

  /** The loop over the rules of one part, in any order; it stops at a name that is already taken. */
  method AddRules(merged: map<string, RuleMapping>, part: map<string, RuleMapping>)
    returns (rules: map<string, RuleMapping>, twice: Option<string>)
    ensures twice.None? <==> part.Keys !! merged.Keys
    ensures twice.None? ==> rules == merged + part
    ensures twice.Some? ==> twice.value in merged && twice.value in part
  {
    rules := merged;
    var rest := part.Keys;
    while rest != {}
      invariant rest <= part.Keys
      invariant rules.Keys == merged.Keys + (part.Keys - rest)
      invariant forall name :: name in merged ==> rules[name] == merged[name]
      invariant forall name :: name in part && name !in rest ==> name !in merged && rules[name] == part[name]
    {
      var name :| name in rest;
      if name in rules {
        return rules, Some(name);
      }
      rules := rules[name := part[name]];
      rest := rest - {name};
    }
    twice := None;
    assert rules.Keys == merged.Keys + part.Keys;
    assert rules == merged + part;
  }

  method MergeConfigMapRuleSources(sources: seq<Source>, parse: Parser) returns (r: MergeResult)
    ensures r.Merged? <==> Mergeable(sources, parse)
    ensures r.Merged? ==> IsUnion(r.file, sources, parse) && r.used == Count(sources, Used, parse)
  {
    hide Mergeable, IsUnion, Count;
    var merged := RulesFile(map[], map[]);
    var commonDefinedIn := "";
    var used := 0;
    NothingMerged(parse);
    for i := 0 to |sources|
      invariant MergedSoFar(merged, commonDefinedIn, used, sources[..i], parse)
    {
      var src := sources[i];
      assert sources[..i + 1] == sources[..i] + [src];
      if RULE_KEY !in src.data {
        MergeStep(merged, commonDefinedIn, used, sources[..i], src, parse);
        continue;
      }
      used := used + 1;
      var part := parse(src.data[RULE_KEY]);
      if part.None? {
        NotMergeable(sources, i, parse);
        return ParseFailed(src.Id());
      }
      var rules, twice := AddRules(merged.rules, part.value.rules);
      if twice.Some? {
        RuleDefinedTwice(merged, commonDefinedIn, used - 1, sources, i, parse, twice.value);
        return RuleTwice(twice.value, src.Id());
      }
      MergeStep(merged, commonDefinedIn, used - 1, sources[..i], src, parse);
      if part.value.common != map[] {
        if commonDefinedIn != "" {
          CommonDefinedTwice(merged, commonDefinedIn, used - 1, sources, i, parse);
          return CommonTwice(commonDefinedIn, src.Id());
        }
        merged := RulesFile(part.value.common, rules);
        commonDefinedIn := src.Id();
      } else {
        merged := RulesFile(merged.common, rules);
      }
    }
    assert sources[..|sources|] == sources;
    r := Merged(merged, used);
  }

  lemma NothingMerged(parse: Parser)
    ensures MergedSoFar(RulesFile(map[], map[]), "", 0, [], parse)
  {
  }

  lemma MergeStep(file: RulesFile, commonDefinedIn: string, used: nat, done: seq<Source>, src: Source, parse: Parser)
    requires MergedSoFar(file, commonDefinedIn, used, done, parse) && Parses(src, parse)
    requires Part(src, parse).Some? ==> Part(src, parse).value.rules.Keys !! file.rules.Keys
    ensures Part(src, parse).None? ==> MergedSoFar(file, commonDefinedIn, used, done + [src], parse)
    ensures Part(src, parse).Some? ==>
              var part := Part(src, parse).value;
              && (part.common == map[] ==>
                    MergedSoFar(RulesFile(file.common, file.rules + part.rules), commonDefinedIn, used + 1,
                                done + [src], parse))
              && (part.common != map[] && commonDefinedIn == "" ==>
                    MergedSoFar(RulesFile(part.common, file.rules + part.rules), src.Id(), used + 1,
                                done + [src], parse))
  {
    hide Count, RulesUnion, CommonUnion;
    forall mark
      ensures Count(done + [src], mark, parse) == Count(done, mark, parse) + (if Has(src, mark, parse) then 1 else 0)
    {
      CountAppend(done, src, mark, parse);
    }
    assert forall s :: s in done + [src] <==> s in done || s == src;
    RulesStep(file.rules, done, src, parse);
    CommonStep(file.common, done, src, parse);
  }

  lemma RulesStep(rules: map<string, RuleMapping>, done: seq<Source>, src: Source, parse: Parser)
    requires RulesUnion(rules, done, parse)
    requires Part(src, parse).Some? ==> Part(src, parse).value.rules.Keys !! rules.Keys
    ensures Part(src, parse).None? ==> RulesUnion(rules, done + [src], parse)
    ensures Part(src, parse).Some? ==> RulesUnion(rules + Part(src, parse).value.rules, done + [src], parse)
  {
    assert forall s :: s in done + [src] <==> s in done || s == src;
    if Part(src, parse).Some? {
      var more := Part(src, parse).value.rules;
      assert forall name :: name in more ==> Brings(src, name, more[name], parse);
    }
  }

  lemma CommonStep(common: map<string, string>, done: seq<Source>, src: Source, parse: Parser)
    requires CommonUnion(common, done, parse)
    ensures !Has(src, Common, parse) ==> CommonUnion(common, done + [src], parse)
    ensures Has(src, Common, parse) && common == map[] ==>
              CommonUnion(Part(src, parse).value.common, done + [src], parse)
  {
    assert forall s :: s in done + [src] <==> s in done || s == src;
    assert Has(src, Common, parse) ==> BringsCommon(src, Part(src, parse).value.common, parse);
  }

  lemma NotMergeable(sources: seq<Source>, i: nat, parse: Parser)
    requires i < |sources| && !Parses(sources[i], parse)
    ensures !Mergeable(sources, parse)
  {
    hide Count;
  }

  lemma TwiceInPrefix(sources: seq<Source>, i: nat, mark: Mark, parse: Parser)
    requires i < |sources| && Has(sources[i], mark, parse) && Count(sources[..i], mark, parse) == 1
    ensures Count(sources, mark, parse) > 1
  {
    assert sources[..i + 1] == sources[..i] + [sources[i]];
    CountAppend(sources[..i], sources[i], mark, parse);
    CountPrefix(sources, i + 1, mark, parse);
  }

  lemma RuleDefinedTwice(file: RulesFile, commonDefinedIn: string, used: nat, sources: seq<Source>, i: nat,
                         parse: Parser, name: string)
    requires i < |sources| && MergedSoFar(file, commonDefinedIn, used, sources[..i], parse)
    requires name in file.rules && Has(sources[i], RuleNamed(name), parse)
    ensures !Mergeable(sources, parse)
  {
    hide Count;
    TwiceInPrefix(sources, i, RuleNamed(name), parse);
  }

  lemma CommonDefinedTwice(file: RulesFile, commonDefinedIn: string, used: nat, sources: seq<Source>, i: nat,
                           parse: Parser)
    requires i < |sources| && MergedSoFar(file, commonDefinedIn, used, sources[..i], parse)
    requires commonDefinedIn != "" && Has(sources[i], Common, parse)
    ensures !Mergeable(sources, parse)
  {
    hide Count;
    TwiceInPrefix(sources, i, Common, parse);
  }

  // ---- The order of the sources ----------------------------------------------------------------

  lemma {:induction false} CountWithout(sources: seq<Source>, i: nat, mark: Mark, parse: Parser)
    requires i < |sources|
    ensures Count(sources, mark, parse) ==
            Count(sources[..i] + sources[i + 1..], mark, parse) + (if Has(sources[i], mark, parse) then 1 else 0)
    decreases i
  {
    var others := sources[..i] + sources[i + 1..];
    if i == 0 {
      assert others == sources[1..];
    } else {
      CountWithout(sources[1..], i - 1, mark, parse);
      assert others[1..] == sources[1..][..i - 1] + sources[1..][i..];
      assert sources[1..][i..] == sources[i + 1..];
    }
  }

  lemma MultisetWithout<T>(s: seq<T>, i: nat)
    requires i < |s|
    ensures multiset(s[..i] + s[i + 1..]) == multiset(s) - multiset{s[i]}
  {
    assert s == s[..i] + ([s[i]] + s[i + 1..]);
  }

  lemma MultisetTail<T>(s: seq<T>)
    requires s != []
    ensures multiset(s[1..]) == multiset(s) - multiset{s[0]}
  {
    MultisetWithout(s, 0);
    assert s[..0] + s[1..] == s[1..];
  }

  lemma FindFirst<T>(a: seq<T>, b: seq<T>) returns (i: nat)
    requires a != [] && multiset(a) == multiset(b)
    ensures i < |b| && b[i] == a[0] && multiset(a[1..]) == multiset(b[..i] + b[i + 1..])
  {
    assert a[0] in multiset(a);
    assert a[0] in multiset(b);
    i :| 0 <= i < |b| && b[i] == a[0];
    MultisetWithout(b, i);
    MultisetTail(a);
  }

  lemma {:induction false} CountOfPermutation(a: seq<Source>, b: seq<Source>, mark: Mark, parse: Parser)
    requires multiset(a) == multiset(b)
    ensures Count(a, mark, parse) == Count(b, mark, parse)
    decreases |a|
  {
    hide Has;
    if a == [] {
      assert |b| == |multiset(b)|;
    } else {
      var i := FindFirst(a, b);
      CountWithout(b, i, mark, parse);
      CountOfPermutation(a[1..], b[..i] + b[i + 1..], mark, parse);
    }
  }

  lemma SameElements(a: seq<Source>, b: seq<Source>)
    requires multiset(a) == multiset(b)
    ensures forall src :: src in a <==> src in b
  {
    assert forall src :: src in a <==> src in multiset(a);
    assert forall src :: src in b <==> src in multiset(b);
  }

  lemma {:induction false} CountPair(sources: seq<Source>, a: Source, b: Source, mark: Mark, parse: Parser)
    requires a in sources && b in sources && a != b && Has(a, mark, parse) && Has(b, mark, parse)
    ensures Count(sources, mark, parse) >= 2
  {
    var i :| 0 <= i < |sources| && sources[i] == a;
    var others := sources[..i] + sources[i + 1..];
    CountWithout(sources, i, mark, parse);
    assert b in others by {
      var j :| 0 <= j < |sources| && sources[j] == b;
      assert others[if j < i then j else j - 1] == b;
    }
    var k :| 0 <= k < |others| && others[k] == b;
    CountWithout(others, k, mark, parse);
  }

  /** There is only one union. */
  lemma UnionIsUnique(x: RulesFile, y: RulesFile, sources: seq<Source>, parse: Parser)
    requires Mergeable(sources, parse) && IsUnion(x, sources, parse) && IsUnion(y, sources, parse)
    ensures x == y
  {
    hide Count, Has;
    forall name | name in x.rules && name in y.rules
      ensures x.rules[name] == y.rules[name]
    {
      var a :| a in sources && Brings(a, name, x.rules[name], parse);
      var b :| b in sources && Brings(b, name, y.rules[name], parse);
      if a != b {
        CountPair(sources, a, b, RuleNamed(name), parse);
      }
    }
    assert x.rules == y.rules;
    if x.common != map[] && y.common != map[] {
      var a :| a in sources && BringsCommon(a, x.common, parse);
      var b :| b in sources && BringsCommon(b, y.common, parse);
      if a != b {
        CountPair(sources, a, b, Common, parse);
      }
    }
  }

  /** In whatever order the sources come, they can all be merged or none of the orders can, and the
      merged rules are the same. */
  lemma OrderOfSourcesDoesNotMatter(a: seq<Source>, b: seq<Source>, x: RulesFile, y: RulesFile, parse: Parser)
    requires multiset(a) == multiset(b)
    ensures Mergeable(a, parse) <==> Mergeable(b, parse)
    ensures Count(a, Used, parse) == Count(b, Used, parse)
    ensures Mergeable(a, parse) && IsUnion(x, a, parse) && IsUnion(y, b, parse) ==> x == y
  {
    hide Count;
    SameElements(a, b);
    forall mark
      ensures Count(a, mark, parse) == Count(b, mark, parse)
    {
      CountOfPermutation(a, b, mark, parse);
    }
    if Mergeable(a, parse) && IsUnion(x, a, parse) && IsUnion(y, b, parse) {
      UnionIsUnique(x, y, a, parse);
    }
  }

  // ---- When sources can be merged --------------------------------------------------------------

  lemma {:induction false} CountZeroIff(sources: seq<Source>, mark: Mark, parse: Parser)
    ensures Count(sources, mark, parse) == 0 <==> forall src :: src in sources ==> !Has(src, mark, parse)
    decreases |sources|
  {
    hide Has;
    if sources != [] {
      CountZeroIff(sources[1..], mark, parse);
      assert forall src :: src in sources <==> src == sources[0] || src in sources[1..];
    }
  }

  lemma {:induction false} CountOnceIff(sources: seq<Source>, mark: Mark, parse: Parser)
    ensures Count(sources, mark, parse) <= 1 <==>
            forall i, j :: 0 <= i < j < |sources| ==> !(Has(sources[i], mark, parse) && Has(sources[j], mark, parse))
    decreases |sources|
  {
    hide Has;
    if sources != [] {
      var rest := sources[1..];
      CountZeroIff(rest, mark, parse);
      CountOnceIff(rest, mark, parse);
      assert forall j :: 0 < j < |sources| ==> sources[j] == rest[j - 1];
      assert forall j :: 0 <= j < |rest| ==> rest[j] == sources[j + 1];
      if Has(sources[0], mark, parse) && Count(sources, mark, parse) > 1 {
        var src :| src in rest && Has(src, mark, parse);
        var j :| 0 <= j < |rest| && rest[j] == src;
        assert Has(sources[0], mark, parse) && Has(sources[j + 1], mark, parse);
      }
    }
  }

  /** The rules in the entry `rule.json` of a source; None without that entry, or when it does not parse. */
  function RulesIn(src: Source, parse: Parser): Option<RulesFile> {
    if "rule.json" in src.data then parse(src.data["rule.json"]) else None
  }

  /** Sources merge exactly when every `rule.json` parses and any two that have one bring different rules and
      not both of them common mappings. Sources without that entry do not count. */
  lemma MergeableIff(sources: seq<Source>, parse: Parser)
    ensures Mergeable(sources, parse) <==>
            && (forall src :: src in sources && "rule.json" in src.data ==> RulesIn(src, parse).Some?)
            && (forall i, j :: 0 <= i < j < |sources|
                               && RulesIn(sources[i], parse).Some? && RulesIn(sources[j], parse).Some? ==>
                  var x, y := RulesIn(sources[i], parse).value, RulesIn(sources[j], parse).value;
                  x.rules.Keys !! y.rules.Keys && (x.common == map[] || y.common == map[]))
  {
    hide Count;
    forall mark
      ensures Count(sources, mark, parse) <= 1 <==>
              forall i, j :: 0 <= i < j < |sources| ==> !(Has(sources[i], mark, parse) && Has(sources[j], mark, parse))
    {
      CountOnceIff(sources, mark, parse);
    }
    forall src
      ensures Part(src, parse) == RulesIn(src, parse)
    {
    }
    if Mergeable(sources, parse) {
      forall i, j | 0 <= i < j < |sources| && RulesIn(sources[i], parse).Some? && RulesIn(sources[j], parse).Some?
        ensures RulesIn(sources[i], parse).value.rules.Keys !! RulesIn(sources[j], parse).value.rules.Keys
        ensures RulesIn(sources[i], parse).value.common == map[] || RulesIn(sources[j], parse).value.common == map[]
      {
        MergeablePair(sources, i, j, parse);
      }
    }
  }

  lemma MergeablePair(sources: seq<Source>, i: nat, j: nat, parse: Parser)
    requires Mergeable(sources, parse) && i < j < |sources|
    requires Part(sources[i], parse).Some? && Part(sources[j], parse).Some?
    ensures var x, y := Part(sources[i], parse).value, Part(sources[j], parse).value;
            x.rules.Keys !! y.rules.Keys && (x.common == map[] || y.common == map[])
  {
    hide Count;
    var x, y := Part(sources[i], parse).value, Part(sources[j], parse).value;
    CountOnceIff(sources, Common, parse);
    assert !(Has(sources[i], Common, parse) && Has(sources[j], Common, parse));
    forall name | name in x.rules
      ensures name !in y.rules
    {
      CountOnceIff(sources, RuleNamed(name), parse);
      assert !(Has(sources[i], RuleNamed(name), parse) && Has(sources[j], RuleNamed(name), parse));
    }
  }
}
