/** Loading rules into the registry the operator looks them up in. */
module RuleRegistry {
  import opened GoStrings
  import opened Results
  import opened Rules
  import opened RuleSources

  /** What one load ends with; a panic stops the program in the middle of it. */
  datatype Load = Loaded | Refused | Panicked

  /** A file or directory met on the way through a directory tree. `reached` is false when the walk
      itself failed there; `data` is None when the file cannot be read. */
  datatype Entry = Entry(path: string, name: string, isDir: bool, reached: bool, data: Option<string>)

  class Registry {
    var handlers: map<string, RuleMapping>
    var common: map<string, string>

    constructor ()
      ensures handlers == map[] && common == DefaultCommon()
    {
      handlers := map[];
      common := DefaultCommon();
    }

    /** An empty name and a name already taken are programming errors. */
    method RegisterOperatorRule(name: string, rule: RuleMapping) returns (panicked: bool)
      modifies this`handlers
      ensures panicked <==> name == "" || name in old(handlers)
      ensures handlers == if panicked then old(handlers) else old(handlers)[name := rule]
    {
      if name == "" || name in handlers {
        return true;
      }
      handlers := handlers[name := rule];
      return false;
    }

    method SetCommonConfig(mappings: map<string, string>)
      modifies this`common
      ensures common == ActiveCommon(mappings)
    {
      common := if mappings == map[] then DefaultCommon() else mappings;
    }

    method ApplyRulesFile(file: RulesFile) returns (r: Load)
      modifies this
      ensures r != Refused
      ensures r == Loaded <==> Registrable(old(handlers), file.rules)
      ensures r == Loaded ==> handlers == old(handlers) + file.rules
      ensures common == ActiveCommon(file.common)
      ensures OnlyAdded(old(handlers), handlers, file.rules)
    {
      SetCommonConfig(file.common);
      var rest := file.rules.Keys;
      while rest != {}
        invariant rest <= file.rules.Keys
        invariant common == ActiveCommon(file.common)
        invariant forall name :: name in handlers <==> name in old(handlers) || (name in file.rules && name !in rest)
        invariant forall name :: name in file.rules && name !in rest ==>
                    name != "" && name !in old(handlers) && handlers[name] == file.rules[name]
        invariant forall name :: name in old(handlers) ==> handlers[name] == old(handlers)[name]
      {
        var name :| name in rest;
        var panicked := RegisterOperatorRule(name, file.rules[name]);
        if panicked {
          return Panicked;
        }
        rest := rest - {name};
      }
      assert handlers == old(handlers) + file.rules;
      return Loaded;
    }

    /** The ConfigMaps have been listed by the caller. */
    method LoadFromConfigMaps(sources: seq<Source>, parse: Parser) returns (r: Load)
      modifies this
      ensures r == Refused <==> !Mergeable(sources, parse)
      ensures r == Loaded <==> Loadable(old(handlers), sources, parse)
      ensures r == Loaded ==> LoadedFrom(old(handlers), handlers, common, sources, parse)
      ensures r == Refused ==> handlers == old(handlers) && common == old(common)
    {
      hide Mergeable, IsUnion;
      var merged := MergeConfigMapRuleSources(sources, parse);
      if !merged.Merged? {
        return Refused;
      }
      RegistrableIffLoadable(handlers, merged.file, sources, parse);
      r := ApplyRulesFile(merged.file);
    }

    /** The walk visits the entries in order and stops at the first error. */
    method LoadFromDirectory(entries: seq<Entry>, parse: Parser) returns (r: Load)
      requires forall e :: e in entries && e.reached ==> e.path != ""
      modifies this
      ensures r == Refused <==> !(Readable(entries) && Mergeable(AsSources(entries), parse))
      ensures r == Loaded <==> Readable(entries) && Loadable(old(handlers), AsSources(entries), parse)
      ensures r == Loaded ==> LoadedFrom(old(handlers), handlers, common, AsSources(entries), parse)
      ensures r == Refused ==> handlers == old(handlers) && common == old(common)
    {
      hide Mergeable, IsUnion, MergedSoFar, Has, Parses, AsSources, FileSource, Part;
      var merged := RulesFile(map[], map[]);
      var commonDefinedIn := "";
      var filesRead := 0;
      ghost var all := AsSources(entries);
      NothingMerged(parse);
      assert AsSources(entries[..0]) == [] by {
        assert entries[..0] == [];
        NoEntries();
      }
      for i := 0 to |entries|
        invariant Readable(entries[..i])
        invariant MergedSoFar(merged, commonDefinedIn, filesRead, AsSources(entries[..i]), parse)
        invariant handlers == old(handlers) && common == old(common)
      {
        var e := entries[i];
        assert entries[..i + 1] == entries[..i] + [e];
        if !e.reached {
          return Refused;
        }
        if e.isDir || !HasSuffix(e.name, ".json") {
          SkippedEntry(entries, i);
          continue;
        }
        if e.data.None? {
          return Refused;
        }
        ghost var done, src := AsSources(entries[..i]), FileSource(e.path, e.data.value);
        var part := parse(e.data.value);
        ReadEntry(entries, i);
        FilePart(e.path, e.data.value, parse);
        if part.None? {
          NotMergeable(all, |done|, parse);
          return Refused;
        }
        filesRead := filesRead + 1;
        var rules, twice := AddRules(merged.rules, part.value.rules);
        if twice.Some? {
          HasRule(src, twice.value, parse);
          RuleDefinedTwice(merged, commonDefinedIn, filesRead - 1, all, |done|, parse, twice.value);
          return Refused;
        }
        MergeStep(merged, commonDefinedIn, filesRead - 1, done, src, parse);
        if part.value.common != map[] {
          if commonDefinedIn != "" {
            HasCommon(src, parse);
            CommonDefinedTwice(merged, commonDefinedIn, filesRead - 1, all, |done|, parse);
            return Refused;
          }
          merged := RulesFile(part.value.common, rules);
          AnyNameWillDo(merged, src.Id(), e.path, filesRead, done + [src], parse);
          commonDefinedIn := e.path;
        } else {
          merged := RulesFile(merged.common, rules);
        }
      }
      assert entries[..|entries|] == entries;
      MergedAll(merged, commonDefinedIn, filesRead, all, parse);
      RegistrableIffLoadable(handlers, merged, all, parse);
      r := ApplyRulesFile(merged);
    }
  }

  function DefaultCommon(): map<string, string> {
    map["FGT_IP_OR_NAME" := "fortiIP", "FGT_API_TOKEN" := "token", "FGT_S3STATE_KEY" := "tfStateKey",
        "FGT_S3STATE_BUCKET" := "s3Bucket", "FGT_S3STATE_REGION" := "s3Region", "FGT_S3STATE_ENDPOINT" := "s3Endpoint"]
  }

  /** What fills the provider and backend placeholders unless a rule source says otherwise. */
  lemma BuiltInMappings(mappings: map<string, string>)
    ensures ActiveCommon(map[]) == DefaultCommon() && (mappings != map[] ==> ActiveCommon(mappings) == mappings)
    ensures DefaultCommon().Keys == {"FGT_IP_OR_NAME", "FGT_API_TOKEN", "FGT_S3STATE_KEY", "FGT_S3STATE_BUCKET",
                                     "FGT_S3STATE_REGION", "FGT_S3STATE_ENDPOINT"}
    ensures DefaultCommon()["FGT_API_TOKEN"] == "token" && DefaultCommon()["FGT_IP_OR_NAME"] == "fortiIP"
    ensures DefaultCommon()["FGT_S3STATE_KEY"] == "tfStateKey" && DefaultCommon()["FGT_S3STATE_BUCKET"] == "s3Bucket"
    ensures DefaultCommon()["FGT_S3STATE_REGION"] == "s3Region"
    ensures DefaultCommon()["FGT_S3STATE_ENDPOINT"] == "s3Endpoint"
  {
  }

  /** No common mappings means the built-in ones. */
  function ActiveCommon(mappings: map<string, string>): map<string, string> {
    if mappings == map[] then DefaultCommon() else mappings
  }

  predicate Registrable(handlers: map<string, RuleMapping>, rules: map<string, RuleMapping>) {
    "" !in rules && rules.Keys !! handlers.Keys
  }

  /** Nothing registered before is lost or changed, even by a load that panics halfway. */
  ghost predicate OnlyAdded(before: map<string, RuleMapping>, now: map<string, RuleMapping>,
                            rules: map<string, RuleMapping>)
  {
    && (forall name :: name in before ==> name in now && now[name] == before[name])
    && (forall name :: name in now && name !in before ==> name in rules && now[name] == rules[name])
  }

  /** A rule of that name comes from one of the sources. */
  ghost predicate Defined(name: string, sources: seq<Source>, parse: Parser) {
    exists src :: src in sources && Has(src, RuleNamed(name), parse)
  }

  /** The sources can be merged, no rule in them is nameless and none is registered yet. */
  ghost predicate Loadable(handlers: map<string, RuleMapping>, sources: seq<Source>, parse: Parser) {
    && Mergeable(sources, parse) && !Defined("", sources, parse)
    && forall name :: name in handlers ==> !Defined(name, sources, parse)
  }

  ghost predicate LoadedFrom(before: map<string, RuleMapping>, now: map<string, RuleMapping>,
                             common: map<string, string>, sources: seq<Source>, parse: Parser)
  {
    exists file :: IsUnion(file, sources, parse) && now == before + file.rules && common == ActiveCommon(file.common)
  }

  lemma RegistrableIffLoadable(handlers: map<string, RuleMapping>, file: RulesFile, sources: seq<Source>, parse: Parser)
    requires Mergeable(sources, parse) && IsUnion(file, sources, parse)
    ensures Registrable(handlers, file.rules) <==> Loadable(handlers, sources, parse)
  {
    hide Mergeable, Has, CommonUnion;
    forall name
      ensures name in file.rules <==> Defined(name, sources, parse)
    {
      UnionDefines(file, sources, parse, name);
    }
  }

  lemma UnionDefines(file: RulesFile, sources: seq<Source>, parse: Parser, name: string)
    requires IsUnion(file, sources, parse)
    ensures name in file.rules <==> Defined(name, sources, parse)
  {
    hide Has, CommonUnion;
    if name in file.rules {
      var src :| src in sources && Brings(src, name, file.rules[name], parse);
    }
  }

  // ---- Loading again ---------------------------------------------------------------------------

  /** Once sources have been loaded, loading them again goes through exactly when they define no rule at
      all: the registry refuses to replace a rule, so rules cannot be reloaded while the program runs. */
  lemma ReloadWorksIffNoRules(before: map<string, RuleMapping>, now: map<string, RuleMapping>,
                              common: map<string, string>, sources: seq<Source>, parse: Parser)
    requires Loadable(before, sources, parse) && LoadedFrom(before, now, common, sources, parse)
    ensures Loadable(now, sources, parse) <==> !exists name :: Defined(name, sources, parse)
  {
    hide Mergeable, IsUnion, Has;
    var file :| IsUnion(file, sources, parse) && now == before + file.rules && common == ActiveCommon(file.common);
    forall name
      ensures name in file.rules <==> Defined(name, sources, parse)
    {
      UnionDefines(file, sources, parse, name);
    }
  }

  /** An input: one source with one rule loads once and not twice. */
  lemma OneRuleLoadsOnce(rule: RuleMapping)
    ensures var file := RulesFile(map[], map["vip" := rule]);
            var parse: Parser := (_: string) => Some(file);
            var sources := [Source("default", "vip", map[RULE_KEY := "{}"])];
            && Loadable(map[], sources, parse)
            && LoadedFrom(map[], map["vip" := rule], DefaultCommon(), sources, parse)
            && !Loadable(map["vip" := rule], sources, parse)
  {
    var file := RulesFile(map[], map["vip" := rule]);
    var parse: Parser := (_: string) => Some(file);
    var src := Source("default", "vip", map[RULE_KEY := "{}"]);
    var sources := [src];
    assert Part(src, parse) == Some(file);
    OneSource(src, parse);
    assert Has(src, RuleNamed("vip"), parse) && Brings(src, "vip", rule, parse);
    assert Defined("vip", sources, parse);
    assert IsUnion(file, sources, parse);
    assert map[] + file.rules == map["vip" := rule];
  }

  lemma OneSource(src: Source, parse: Parser)
    requires Parses(src, parse)
    ensures Mergeable([src], parse)
  {
    assert [src][1..] == [];
  }

  /** The order in which a walk or a listing delivers the sources does not matter: it decides neither
      whether they load nor what is registered. */
  lemma LoadsTheSameInAnyOrder(before: map<string, RuleMapping>, a: seq<Source>, b: seq<Source>,
                               x: map<string, RuleMapping>, y: map<string, RuleMapping>,
                               xCommon: map<string, string>, yCommon: map<string, string>, parse: Parser)
    requires multiset(a) == multiset(b)
    ensures Loadable(before, a, parse) <==> Loadable(before, b, parse)
    ensures Loadable(before, a, parse)
            && LoadedFrom(before, x, xCommon, a, parse) && LoadedFrom(before, y, yCommon, b, parse) ==>
              x == y && xCommon == yCommon
  {
    hide Mergeable, IsUnion, Has;
    SameElements(a, b);
    OrderOfSourcesDoesNotMatter(a, b, RulesFile(map[], map[]), RulesFile(map[], map[]), parse);
    if Loadable(before, a, parse)
      && LoadedFrom(before, x, xCommon, a, parse) && LoadedFrom(before, y, yCommon, b, parse)
    {
      var f :| IsUnion(f, a, parse) && x == before + f.rules && xCommon == ActiveCommon(f.common);
      var g :| IsUnion(g, b, parse) && y == before + g.rules && yCommon == ActiveCommon(g.common);
      OrderOfSourcesDoesNotMatter(a, b, f, g, parse);
    }
  }

  // ---- The files of a directory as sources -----------------------------------------------------

  predicate IsRuleFile(e: Entry) {
    !e.isDir && HasSuffix(e.name, ".json")
  }

  ghost predicate Readable(entries: seq<Entry>) {
    forall e :: e in entries ==> e.reached && (IsRuleFile(e) ==> e.data.Some?)
  }

  function FileSource(path: string, data: string): Source {
    Source("", path, map[RULE_KEY := data])
  }

  /** Only readable JSON files bring rules; they bring them like a ConfigMap would. */
  function AsSources(entries: seq<Entry>): seq<Source> {
    if entries == [] then []
    else (if IsRuleFile(entries[0]) && entries[0].data.Some? then [FileSource(entries[0].path, entries[0].data.value)]
          else [])
         + AsSources(entries[1..])
  }

  /** A file counts when its name ends in `.json`; its content is what a ConfigMap has under `rule.json`. */
  lemma WhatCounts(path: string, stem: string, name: string, text: string)
    requires !HasSuffix(name, ".json")
    ensures AsSources([Entry(path, stem + ".json", false, true, Some(text))]) ==
            [Source("", path, map["rule.json" := text])]
    ensures AsSources([Entry(path, stem + ".json", true, true, Some(text))]) == []
    ensures AsSources([Entry(path, name, false, true, Some(text))]) == []
    ensures !Readable([Entry(path, stem + ".json", false, true, None)])
    ensures Readable([Entry(path, name, false, true, None)]) && !Readable([Entry(path, name, false, false, None)])
  {
    hide AsSources;
    assert (stem + ".json")[|stem|..] == ".json";
    var missing, gone := Entry(path, stem + ".json", false, true, None), Entry(path, name, false, false, None);
    assert missing in [missing] && gone in [gone];
    SingleEntry(Entry(path, stem + ".json", false, true, Some(text)));
    SingleEntry(Entry(path, stem + ".json", true, true, Some(text)));
    SingleEntry(Entry(path, name, false, true, Some(text)));
  }

  lemma {:induction false} AsSourcesConcat(a: seq<Entry>, b: seq<Entry>)
    ensures AsSources(a + b) == AsSources(a) + AsSources(b)
  {
    if a == [] {
      assert a + b == b;
    } else {
      assert (a + b)[1..] == a[1..] + b && (a + b)[0] == a[0];
      AsSourcesConcat(a[1..], b);
    }
  }

  lemma NoEntries()
    ensures AsSources([]) == []
  {
  }

  lemma SingleEntry(e: Entry)
    ensures AsSources([e]) == if IsRuleFile(e) && e.data.Some? then [FileSource(e.path, e.data.value)] else []
  {
    assert [e][1..] == [];
  }

  lemma EntryAt(entries: seq<Entry>, i: nat)
    requires i < |entries|
    ensures AsSources(entries[..i + 1]) == AsSources(entries[..i]) + AsSources([entries[i]])
    ensures AsSources(entries) == AsSources(entries[..i + 1]) + AsSources(entries[i + 1..])
  {
    hide AsSources;
    var a, b, c := entries[..i], entries[..i + 1], entries[i + 1..];
    assert b == a + [entries[i]];
    AsSourcesConcat(a, [entries[i]]);
    TwoParts(entries, i + 1);
    AsSourcesConcat(b, c);
  }

  lemma TwoParts(entries: seq<Entry>, k: nat)
    requires k <= |entries|
    ensures entries[..k] + entries[k..] == entries
  {
  }

  lemma SkippedEntry(entries: seq<Entry>, i: nat)
    requires i < |entries| && !IsRuleFile(entries[i])
    ensures AsSources(entries[..i + 1]) == AsSources(entries[..i])
  {
    hide AsSources;
    EntryAt(entries, i);
    SingleEntry(entries[i]);
  }

  lemma ReadEntry(entries: seq<Entry>, i: nat)
    requires i < |entries| && IsRuleFile(entries[i]) && entries[i].data.Some?
    ensures var all, done := AsSources(entries), AsSources(entries[..i]);
            var src := FileSource(entries[i].path, entries[i].data.value);
            && AsSources(entries[..i + 1]) == done + [src]
            && |done| < |all| && all[|done|] == src && all[..|done|] == done
  {
    hide AsSources, IsRuleFile;
    EntryAt(entries, i);
    SingleEntry(entries[i]);
    var done, src := AsSources(entries[..i]), FileSource(entries[i].path, entries[i].data.value);
    var rest := AsSources(entries[i + 1..]);
    assert AsSources(entries) == (done + [src]) + rest;
  }

  lemma FilePart(path: string, data: string, parse: Parser)
    ensures Part(FileSource(path, data), parse) == parse(data)
    ensures Parses(FileSource(path, data), parse) <==> parse(data).Some?
  {
  }

  lemma HasRule(src: Source, name: string, parse: Parser)
    requires Part(src, parse).Some? && name in Part(src, parse).value.rules
    ensures Has(src, RuleNamed(name), parse)
  {
  }

  lemma HasCommon(src: Source, parse: Parser)
    requires Part(src, parse).Some? && Part(src, parse).value.common != map[]
    ensures Has(src, Common, parse)
  {
  }

  lemma AnyNameWillDo(file: RulesFile, id: string, other: string, used: nat, sources: seq<Source>, parse: Parser)
    requires MergedSoFar(file, id, used, sources, parse) && id != "" && other != ""
    ensures MergedSoFar(file, other, used, sources, parse)
  {
    hide Mergeable, IsUnion, Count;
  }

  lemma MergedAll(file: RulesFile, commonDefinedIn: string, used: nat, sources: seq<Source>, parse: Parser)
    requires MergedSoFar(file, commonDefinedIn, used, sources, parse)
    ensures Mergeable(sources, parse) && IsUnion(file, sources, parse)
  {
    hide Mergeable, IsUnion, Count;
  }
}
