/** The engine, then the rule: what the two passes together make of a template. */
module Operator {
  import opened GoStrings
  import opened Results
  import opened Specs
  import opened Tags
  import opened Loops
  import opened LoopDepth
  import opened LoopTrees
  import opened Rendering
  import opened FileNames
  import opened Disks
  import opened Splitting
  import opened Replacements
  import opened Rules
  import E = Engine
  import F = RenderingFacts

  /** The part of `selectOperatorRule` from the copied template to the rule's handler. */
  method ExpandAndApply(disk: Disk, fileName: string, rawSpec: Fields, crName: string, operatorRule: string,
                        rules: map<string, RuleMapping>, checks: Checks)
    returns (r: Result<()>, ghost spec: Fields, ghost expanded: map<string, string>)
    modifies disk
    ensures UpperCased(Obj(rawSpec), Obj(spec))
    ensures r.Ok? ==> E.Processed(old(disk.files), expanded, fileName, spec)
    ensures r.Ok? ==> operatorRule in rules && RuleValid(rules[operatorRule], crName, rawSpec, checks)
    ensures r.Ok? ==> RuleApplied(expanded, disk.files, FinalName(fileName), rules[operatorRule], crName, rawSpec)
    ensures r.Ok? && !HasSuffix(fileName, ".tmpl.tmpl") ==>
              AllItemsFinished(old(disk.files), disk.files, fileName, rules[operatorRule], crName, rawSpec, spec)
    ensures r.Ok? ==>
              SingleFileFinished(old(disk.files), disk.files, fileName, rules[operatorRule], crName, rawSpec, spec)
    ensures r.Err? ==>
              || E.ProcessingFails(r.error, old(disk.files), disk.files, fileName, spec)
              || (E.Processed(old(disk.files), expanded, fileName, spec)
                  && if operatorRule !in rules then disk.files == expanded && r.error == UnknownRule(operatorRule)
                     else if !RuleValid(rules[operatorRule], crName, rawSpec, checks) then disk.files == expanded
                     else
                       && TargetFails(r.error, FinalName(fileName), rules[operatorRule], rawSpec)
                       && OnlyTargetsChanged(expanded, disk.files, FinalName(fileName), rules[operatorRule], rawSpec))
    ensures r.Err? && disk.reliable && fileName in old(disk.files) && IsDiskError(r.error) ==>
              E.Processed(old(disk.files), expanded, fileName, spec) && operatorRule in rules
              && !TargetsThere(expanded, FinalName(fileName), rules[operatorRule], rawSpec)
  {
    hide TargetsThere, E.Processed, E.ProcessingFails, RuleApplied, UpperCased, RuleValid, AllItemsFinished,
      SingleFileFinished, TargetFails, OnlyTargetsChanged;
    expanded := map[];
    var processed;
    processed, spec := E.SmartNestedProcess(disk, fileName, rawSpec);
    if processed.Err? {
      r := Err(processed.error);
      return;
    }
    expanded := disk.files;
    var (finalBase, finalExt) := SplitTerraformExt(fileName);
    var finalName := finalBase + finalExt;
    if operatorRule !in rules {
      r := Err(UnknownRule(operatorRule));
      return;
    }
    r := ApplyConfigDrivenRule(disk, rules[operatorRule], crName, rawSpec, finalName, checks);
    if r.Ok? {
      SingleFileIsFinished(old(disk.files), expanded, disk.files, fileName, rules[operatorRule], crName, rawSpec, spec);
    }
    if r.Ok? && !HasSuffix(fileName, ".tmpl.tmpl") {
      EveryFileIsFinished(old(disk.files), expanded, disk.files, fileName, rules[operatorRule], crName, rawSpec, spec);
    }
  }

  // ---- One pass over the template --------------------------------------------------------------

  /** The two passes over a generated file, as one. The rule is one more pass around everything: the head
      loop's body is scanned with the item's fields and then the rule's values, the shared text as the
      template's own with the rule's values around it. No placeholder that has a value is left. */
  lemma TwoPassesAreOne(head: Block, nested: seq<Block>, after: string, siblings: seq<Block>, spec: Fields,
                        item: Fields, index: nat, text: string, now: string, values: map<string, string>)
    requires FindLoops(head.body, 0) == Ok(nested) && FindLoops(after, 0) == Ok(siblings)
    requires ParseTree(head.body).Ok? && ParseTree(after).Ok?
    requires TagComplete(head.body) && TagComplete(after) && Clean(Obj(spec)) && Clean(Obj(item))
    requires ItemFileText(head, nested, after, siblings, spec, item, index) == Ok(text)
    requires CleanValues(values) && Filled(text, now, values)
    ensures var rule := [Modifications(values)];
            Ok(now) == Both(EvalNodes(ParseTree(head.body).value, item, head.tag,
                                      [ItemFields(head.tag, item, Some(index))] + rule),
                            EvalTop(ParseTree(after).value, spec, rule))
    ensures forall n :: n in values ==> !Holds(now, n)
  {
    hide TagComplete, FindLoops, TreeFrom, Clean, RenderTop, RenderBody, EvalNodes, EvalTop, MapTags, CleanValues,
      Filled, Holds;
    var rule := [Modifications(values)];
    var nodes := ParseTree(head.body).value;
    BodyAgrees(head.body, nested, item, head.tag, index, rule, nodes);
    F.RenderingAgrees(after, spec, rule);
    var main := RenderBody(head.body, nested, item, head.tag, index).value;
    var rest := RenderTop(after, siblings, 0, spec).value;
    TagCompleteConcat(main, rest);
    MapTagsConcat(main, rest, rule);
    FilledInOnePass(text, now, values);
    forall n | n in values
      ensures !Holds(now, n)
    {
      FilledLeavesNone(text, now, values, n);
    }
  }

  /** The rule leaves the text that the files share as the engine rendered it exactly when that text holds no
      placeholder that has a value. It does hold one where another loop left `<T_i>` for its own item `i`
      and the rule maps T. */
  lemma SharedTextIsKeptIff(after: string, spec: Fields, values: map<string, string>)
    requires TagComplete(after) && FindLoops(after, 0).Ok? && ParseTree(after).Ok? && Clean(Obj(spec))
    requires CleanValues(values) && RenderTop(after, FindLoops(after, 0).value, 0, spec).Ok?
    ensures var shared := RenderTop(after, FindLoops(after, 0).value, 0, spec);
            EvalTop(ParseTree(after).value, spec, [Modifications(values)]) == shared <==>
            forall n :: n in values ==> !Holds(shared.value, n)
  {
    hide TagComplete, FindLoops, TreeFrom, Clean, RenderTop, EvalTop, MapTags, CleanValues, Holds;
    F.RenderingAgrees(after, spec, [Modifications(values)]);
    UnchangedIffNoneHeld(RenderTop(after, FindLoops(after, 0).value, 0, spec).value, values);
  }

  /** A placeholder of the head loop's own text that the engine leaves as `<tag_i>` and that the rule
      maps ends as the item's looked-up value. */
  lemma HeadTagIsFilled(tag: string, path: string, engineItem: Fields, rule: RuleMapping, crName: string,
                        items: seq<Value>, i: nat)
    requires i < |items| && items[i].Obj?
    requires !IsMarkerName(tag) && tag in rule.itemMappings
    requires !Matches(tag, ItemFields(path, engineItem, Some(i + 1)))
    ensures Resolve(tag, [ItemFields(path, engineItem, Some(i + 1))]) == Pending(tag + ItemSuffix(i))
    ensures Resolve(tag, [ItemFields(path, engineItem, Some(i + 1))]
                         + [Modifications(ItemValues(rule, crName, items, i))]) ==
            Done(TextAt(crName, items[i].fields, rule.itemMappings[tag]).GetOr(""))
  {
    hide FieldNamed, TextAt, Itoa;
    var own := ItemFields(path, engineItem, Some(i + 1));
    var mods := Modifications(ItemValues(rule, crName, items, i));
    SinglePass(tag, own);
    assert tag + "_" + Itoa(i + 1) == tag + ItemSuffix(i);
    ResolveConcat(tag, [own], [mods]);
    SinglePass(tag + ItemSuffix(i), mods);
    ModValueOf(rule.itemMappings, crName, items[i].fields, ItemSuffix(i), tag);
  }

  // ---- End to end ------------------------------------------------------------------------------

  lemma {:induction false} CleanText(v: Value, keys: seq<string>)
    requires Clean(v)
    ensures Walk(v, keys).Some? && Walk(v, keys).value.Scalar? ==> '<' !in Walk(v, keys).value.text
  {
    CleanWalk(v, keys);
  }

  lemma TextAtIsClean(crName: string, data: Fields, path: string)
    requires Clean(Obj(data)) && '<' !in crName
    ensures '<' !in TextAt(crName, data, path).GetOr("")
  {
    hide Walk, Clean;
    var rest := TrimPrefix(path, "spec.");
    CleanText(Obj(data), NonEmpty(Split(TrimPrefix(rest, "spec."), '.')));
  }

  lemma RuleValuesAreClean(paths: map<string, string>, crName: string, data: Fields, suffix: string)
    requires Clean(Obj(data)) && '<' !in crName && '<' !in suffix && '>' !in suffix
    requires forall tag :: tag in paths ==> LegalName(tag)
    ensures CleanValues(ModValues(paths, crName, data, suffix))
  {
    hide Clean, TextAt, ModValues;
    var values := ModValues(paths, crName, data, suffix);
    forall n | n in values
      ensures LegalName(n) && '<' !in values[n]
    {
      ModValueKeys(paths, crName, data, suffix, n);
      var tag :| tag in paths && n == tag + suffix;
      ModValueOf(paths, crName, data, suffix, tag);
      TextAtIsClean(crName, data, paths[tag]);
    }
  }

  /** What the template and the rule must have in common: the template starts with a loop over the list
      the rule's list field names. `keys` is the path of that list in the resource. */
  ghost predicate SameHeadList(content: string, rule: RuleMapping, spec: Fields, keys: seq<string>) {
    && keys != [] && (forall k :: k in keys ==> PlainKey(k)) && keys[0] != "spec"
    && CaseDistinct(Obj(spec)) && (forall k :: k in spec ==> '_' !in k)
    && rule.listField in [Join(keys, '.'), "spec." + Join(keys, '.')]
    && FindLoops(content, 0).Ok? && FindLoops(content, 0).value != []
    && FindLoops(content, 0).value[0].start == 0
    && FindLoops(content, 0).value[0].tag == ToUpper(Join(keys, '_'))
  }

  lemma CorrespondingItem(rule: RuleMapping, spec: Fields, up: Fields, keys: seq<string>, i: nat)
    requires keys != [] && (forall k :: k in keys ==> PlainKey(k)) && keys[0] != "spec"
    requires CaseDistinct(Obj(spec)) && (forall k :: k in spec ==> '_' !in k) && UpperCased(Obj(spec), Obj(up))
    requires rule.listField in [Join(keys, '.'), "spec." + Join(keys, '.')]
    requires RuleItems(rule, spec).Some? && i < |RuleItems(rule, spec).value|
    ensures ListAt(up, ToUpper(Join(keys, '_'))).Some?
    ensures |ListAt(up, ToUpper(Join(keys, '_'))).value| == |RuleItems(rule, spec).value|
    ensures UpperCased(RuleItems(rule, spec).value[i], ListAt(up, ToUpper(Join(keys, '_'))).value[i])
  {
    hide RawAt, ListAt, CaseDistinct;
    DottedPathWalks(spec, keys);
    PathsNameTheSameList(spec, up, keys);
  }

  /** The engine wrote the file of every item of the head loop's list that is not null. */
  lemma EngineWroteItemFile(before: map<string, string>, expanded: map<string, string>, fileName: string,
                            content: string, up: Fields, list: seq<Value>, i: nat)
    requires E.Processed(before, expanded, fileName, up) && content == TrimSpace(before[fileName])
    requires FindLoops(content, 0).value != [] && FindLoops(content, 0).value[0].start == 0
    requires ListAt(up, FindLoops(content, 0).value[0].tag) == Some(list)
    requires i < |list| && ResolveItem(list[i]).Some?
    ensures FindLoops(content, 0).value[0].end <= |content|
    ensures var head, file := FindLoops(content, 0).value[0], IndexedResourceFile(fileName, i);
            && FindLoops(head.body, 0).Ok? && FindLoops(content[head.end..], 0).Ok?
            && file in expanded
            && ItemFileText(head, FindLoops(head.body, 0).value, content[head.end..],
                            FindLoops(content[head.end..], 0).value, up, ResolveItem(list[i]).value, i + 1) ==
               Ok(expanded[file])
  {
    hide FindLoops, TrimSpace, ItemFileText, ListAt, IndexedResourceFile, RenderTop, ResolveItem;
    IndexedIsNotTemplate(fileName, i);
  }

  /** The rule, given the renamed template, opens exactly those files for the objects of the list. */
  lemma RuleFilledItemFile(expanded: map<string, string>, now: map<string, string>, fileName: string, rule: RuleMapping,
                           crName: string, spec: Fields, i: nat)
    requires RuleApplied(expanded, now, FinalName(fileName), rule, crName, spec)
    requires !HasSuffix(fileName, ".tmpl.tmpl") && rule.listField != ""
    requires RuleItems(rule, spec).Some? && i < |RuleItems(rule, spec).value| && RuleItems(rule, spec).value[i].Obj?
    ensures FileFilled(expanded, now, IndexedResourceFile(fileName, i),
                       ItemValues(rule, crName, RuleItems(rule, spec).value, i))
  {
    hide RawAt, FileFilled, ItemValues, IsItemFile;
    NamesAgreeIff(fileName);
  }

  /** Null items and items that are no objects are left alone by the rule; null items get no file. */
  lemma NullItemsAreSkipped(rule: RuleMapping, spec: Fields, up: Fields, keys: seq<string>, i: nat)
    requires keys != [] && (forall k :: k in keys ==> PlainKey(k)) && keys[0] != "spec"
    requires CaseDistinct(Obj(spec)) && (forall k :: k in spec ==> '_' !in k) && UpperCased(Obj(spec), Obj(up))
    requires rule.listField in [Join(keys, '.'), "spec." + Join(keys, '.')]
    requires RuleItems(rule, spec).Some? && i < |RuleItems(rule, spec).value|
    ensures ListAt(up, ToUpper(Join(keys, '_'))).Some? && i < |ListAt(up, ToUpper(Join(keys, '_'))).value|
    ensures var item := RuleItems(rule, spec).value[i];
            var engineItem := ListAt(up, ToUpper(Join(keys, '_'))).value[i];
            && (ResolveItem(engineItem).None? <==> item.Null?)
            && (item.Obj? ==> engineItem.Obj? && ResolveItem(engineItem) == Some(engineItem.fields))
  {
    hide RawAt, ListAt, CaseDistinct, PlainKey;
    CorrespondingItem(rule, spec, up, keys, i);
  }

  /** The resource, its upper-cased form and the texts involved are as the guarantees need them. */
  ghost predicate CleanInput(content: string, paths: map<string, string>, crName: string, spec: Fields, up: Fields) {
    && TagComplete(content) && LegalHeaders(content)
    && UpperCased(Obj(spec), Obj(up)) && Clean(Obj(spec)) && '<' !in crName
    && (forall tag :: tag in paths ==> LegalName(tag))
  }

  /** What a finished item file holds: the head loop's body evaluated in one pass, the item's fields
      first and the rule's looked-up values after them, and then the text the files share, evaluated with
      the rule's values around it. No placeholder the rule has a value for is left anywhere in the file,
      and no loop marker if the template had no stray ones. */
  ghost predicate IsFinished(text: string, content: string, up: Fields, item: Fields, index: nat,
                             values: map<string, string>)
  {
    && FindLoops(content, 0).Ok? && FindLoops(content, 0).value != []
    && var head := FindLoops(content, 0).value[0];
       && head.end <= |content| && ParseTree(head.body).Ok? && FindLoops(content[head.end..], 0).Ok?
       && var after := content[head.end..];
          && ParseTree(after).Ok?
          && Ok(text) == Both(EvalNodes(ParseTree(head.body).value, item, head.tag,
                                        [ItemFields(head.tag, item, Some(index)), Modifications(values)]),
                              EvalTop(ParseTree(after).value, up, [Modifications(values)]))
          && (BalancedFrom(content, 0) ==> MarkerFree(text))
          && forall n :: n in values ==> !Holds(text, n)
  }

  /** End to end, for every object of the list: the file the rule opens was written by the engine for
      that object, and ends finished. */
  lemma EveryItemIsFinished(before: map<string, string>, expanded: map<string, string>, now: map<string, string>,
                            fileName: string, content: string, rule: RuleMapping, crName: string, spec: Fields,
                            up: Fields, keys: seq<string>, i: nat)
    requires fileName in before && content == TrimSpace(before[fileName]) && !HasSuffix(fileName, ".tmpl.tmpl")
    requires SameHeadList(content, rule, spec, keys) && CleanInput(content, rule.itemMappings, crName, spec, up)
             && rule.listField != ""
    requires E.Processed(before, expanded, fileName, up)
    requires RuleApplied(expanded, now, FinalName(fileName), rule, crName, spec)
    requires RuleItems(rule, spec).Some? && i < |RuleItems(rule, spec).value| && RuleItems(rule, spec).value[i].Obj?
    ensures var items := RuleItems(rule, spec).value;
            var list := ListAt(up, ToUpper(Join(keys, '_')));
            var file := IndexedResourceFile(fileName, i);
            && list.Some? && |list.value| == |items| && UpperCased(items[i], list.value[i]) && list.value[i].Obj?
            && file in expanded && file in now
            && IsFinished(now[file], content, up, list.value[i].fields, i + 1, ItemValues(rule, crName, items, i))
            && forall tag :: tag in rule.itemMappings ==> !Holds(now[file], tag + ItemSuffix(i))
  {
    hide FindLoops, TrimSpace, Filled, CaseDistinct, RawAt, ListAt, PlainKey, Join, E.Processed, RuleApplied,
      ItemValues, IndexedResourceFile, CleanInput, IsFinished, FinalName, Clean, Holds, ItemSuffix;
    var items := RuleItems(rule, spec).value;
    CleanUpperCased(content, rule.itemMappings, crName, spec, up);
    CorrespondingItem(rule, spec, up, keys, i);
    var list := ListAt(up, ToUpper(Join(keys, '_'))).value;
    EngineWroteItemFile(before, expanded, fileName, content, up, list, i);
    RuleFilledItemFile(expanded, now, fileName, rule, crName, spec, i);
    var file := IndexedResourceFile(fileName, i);
    FinishedByBothPasses(content, rule, crName, spec, up, list, i, expanded[file], now[file]);
    forall tag | tag in rule.itemMappings
      ensures !Holds(now[file], tag + ItemSuffix(i))
    {
      MappedTagIsGone(now[file], content, rule, crName, up, list[i].fields, items, i, tag);
    }
  }

  lemma MappedTagIsGone(text: string, content: string, rule: RuleMapping, crName: string, up: Fields,
                        engineItem: Fields, items: seq<Value>, i: nat, tag: string)
    requires i < |items| && items[i].Obj? && tag in rule.itemMappings
    requires IsFinished(text, content, up, engineItem, i + 1, ItemValues(rule, crName, items, i))
    ensures !Holds(text, tag + ItemSuffix(i))
  {
    hide Holds, ModValues, TextAt, EvalNodes, EvalTop, FindLoops, BalancedFrom, MarkerFree;
    ModValueOf(rule.itemMappings, crName, items[i].fields, ItemSuffix(i), tag);
  }

  /** What the two passes leave behind when the head loop and the list field name the same list: the file
      of every object of that list, finished. */
  ghost predicate AllItemsFinished(before: map<string, string>, now: map<string, string>, fileName: string,
                                   rule: RuleMapping, crName: string, spec: Fields, up: Fields)
  {
    && fileName in before
    && var content := TrimSpace(before[fileName]);
       forall keys, i: nat | SameHeadList(content, rule, spec, keys) && ItemIsObject(rule, spec, i) ::
         CleanInput(content, rule.itemMappings, crName, spec, up) && rule.listField != "" ==>
           var list := ListAt(up, ToUpper(Join(keys, '_')));
           var file := IndexedResourceFile(fileName, i);
           && list.Some? && i < |list.value| && list.value[i].Obj? && file in now
           && IsFinished(now[file], content, up, list.value[i].fields, i + 1,
                         ItemValues(rule, crName, RuleItems(rule, spec).value, i))
           && forall tag :: tag in rule.itemMappings ==> !Holds(now[file], tag + ItemSuffix(i))
  }

  ghost predicate ItemIsObject(rule: RuleMapping, spec: Fields, i: nat) {
    RuleItems(rule, spec).Some? && i < |RuleItems(rule, spec).value| && RuleItems(rule, spec).value[i].Obj?
  }

  lemma EveryFileIsFinished(before: map<string, string>, expanded: map<string, string>, now: map<string, string>,
                            fileName: string, rule: RuleMapping, crName: string, spec: Fields, up: Fields)
    requires !HasSuffix(fileName, ".tmpl.tmpl") && E.Processed(before, expanded, fileName, up)
    requires RuleApplied(expanded, now, FinalName(fileName), rule, crName, spec)
    ensures AllItemsFinished(before, now, fileName, rule, crName, spec, up)
  {
    hide SameHeadList, CleanInput, IsFinished, Holds, FindLoops, TrimSpace, RuleApplied, RuleItems, ListAt, Join,
      ItemValues, IndexedResourceFile, E.SplitDone, RenderTop;
    var content := TrimSpace(before[fileName]);
    forall keys, i: nat | SameHeadList(content, rule, spec, keys) && ItemIsObject(rule, spec, i)
      && CleanInput(content, rule.itemMappings, crName, spec, up) && rule.listField != ""
      ensures var list := ListAt(up, ToUpper(Join(keys, '_')));
              && list.Some? && i < |list.value| && list.value[i].Obj? && IndexedResourceFile(fileName, i) in now
              && IsFinished(now[IndexedResourceFile(fileName, i)], content, up, list.value[i].fields, i + 1,
                            ItemValues(rule, crName, RuleItems(rule, spec).value, i))
              && forall tag :: tag in rule.itemMappings ==>
                   !Holds(now[IndexedResourceFile(fileName, i)], tag + ItemSuffix(i))
    {
      EveryItemIsFinished(before, expanded, now, fileName, content, rule, crName, spec, up, keys, i);
    }
  }

  /** What the two passes leave behind when the template does not start with a loop and the rule has no list
      field: one file, the template evaluated with the rule's values around it. */
  ghost predicate SingleFileFinished(before: map<string, string>, now: map<string, string>, fileName: string,
                                     rule: RuleMapping, crName: string, spec: Fields, up: Fields)
  {
    && fileName in before
    && var content, file := TrimSpace(before[fileName]), FinalName(fileName);
       var values := ModValues(rule.mappings, crName, spec, "");
       && FindLoops(content, 0).Ok?
       && var blocks := FindLoops(content, 0).value;
          rule.listField == "" && (blocks == [] || blocks[0].start != 0)
          && CleanInput(content, rule.mappings, crName, spec, up) ==>
            && file in now && ParseTree(content).Ok?
            && Ok(now[file]) == EvalTop(ParseTree(content).value, up, [Modifications(values)])
            && (BalancedFrom(content, 0) ==> MarkerFree(now[file]))
            && forall tag :: tag in rule.mappings ==> !Holds(now[file], tag)
  }

  lemma SingleFileIsFinished(before: map<string, string>, expanded: map<string, string>, now: map<string, string>,
                             fileName: string, rule: RuleMapping, crName: string, spec: Fields, up: Fields)
    requires E.Processed(before, expanded, fileName, up)
    requires RuleApplied(expanded, now, FinalName(fileName), rule, crName, spec)
    ensures SingleFileFinished(before, now, fileName, rule, crName, spec, up)
  {
    hide CleanInput, FindLoops, TrimSpace, ListAt, E.SplitDone, RenderTop, EvalTop, ModValues, Filled, FinalName, Holds,
      ParseTree, BalancedFrom, MarkerFree;
    var content := TrimSpace(before[fileName]);
    var blocks := FindLoops(content, 0).value;
    if rule.listField == "" && (blocks == [] || blocks[0].start != 0)
      && CleanInput(content, rule.mappings, crName, spec, up)
    {
      var file := FinalName(fileName);
      SingleTextIsFinished(content, rule, crName, spec, up, expanded[file], now[file]);
    }
  }

  lemma SingleTextIsFinished(content: string, rule: RuleMapping, crName: string, spec: Fields, up: Fields, text: string,
                             now: string)
    requires FindLoops(content, 0).Ok? && CleanInput(content, rule.mappings, crName, spec, up)
    requires RenderTop(content, FindLoops(content, 0).value, 0, up) == Ok(text)
    requires Filled(text, now, ModValues(rule.mappings, crName, spec, ""))
    ensures ParseTree(content).Ok?
    ensures Ok(now) ==
            EvalTop(ParseTree(content).value, up, [Modifications(ModValues(rule.mappings, crName, spec, ""))])
    ensures BalancedFrom(content, 0) ==> MarkerFree(now)
    ensures forall tag :: tag in rule.mappings ==> !Holds(now, tag)
  {
    hide FindLoops, RenderTop, EvalTop, ModValues, Filled, Holds, ParseTree, TagComplete, LegalHeaders, Clean,
      UpperCased, MapTags, TextAt, BalancedFrom, MarkerFree;
    var values := ModValues(rule.mappings, crName, spec, "");
    WellFormedAtEveryDepth(content);
    UpperCasedIsClean(Obj(spec), Obj(up));
    F.RenderingAgrees(content, up, [Modifications(values)]);
    RuleValuesAreClean(rule.mappings, crName, spec, "");
    FilledInOnePass(text, now, values);
    if BalancedFrom(content, 0) {
      F.NoMarkerSurvives(content, up);
      FillingMakesNoMarker(text, now, values);
    }
    forall tag | tag in rule.mappings
      ensures !Holds(now, tag)
    {
      ModValueOf(rule.mappings, crName, spec, "", tag);
      assert tag + "" == tag;
      FilledLeavesNone(text, now, values, tag);
    }
  }

  lemma CleanUpperCased(content: string, paths: map<string, string>, crName: string, spec: Fields, up: Fields)
    requires CleanInput(content, paths, crName, spec, up)
    ensures UpperCased(Obj(spec), Obj(up))
  {
  }

  lemma FinishedByBothPasses(content: string, rule: RuleMapping, crName: string, spec: Fields, up: Fields,
                             list: seq<Value>, i: nat, text: string, now: string)
    requires CleanInput(content, rule.itemMappings, crName, spec, up)
    requires FindLoops(content, 0).Ok? && FindLoops(content, 0).value != []
             && FindLoops(content, 0).value[0].end <= |content|
    requires RuleItems(rule, spec).Some? && i < |RuleItems(rule, spec).value| && RuleItems(rule, spec).value[i].Obj?
    requires ListAt(up, FindLoops(content, 0).value[0].tag) == Some(list) && i < |list| && list[i].Obj?
    requires var head := FindLoops(content, 0).value[0];
             && FindLoops(head.body, 0).Ok? && FindLoops(content[head.end..], 0).Ok?
             && ItemFileText(head, FindLoops(head.body, 0).value, content[head.end..],
                             FindLoops(content[head.end..], 0).value, up, list[i].fields, i + 1) == Ok(text)
    requires Filled(text, now, ItemValues(rule, crName, RuleItems(rule, spec).value, i))
    ensures IsFinished(now, content, up, list[i].fields, i + 1,
                       ItemValues(rule, crName, RuleItems(rule, spec).value, i))
  {
    hide FindLoops, Filled, RawAt, ListAt, TagComplete, Clean, LegalHeaders, RenderTop, EvalNodes, ParseTree, ModValues,
      UpperCased, ItemFileText, BalancedFrom, MarkerFree;
    var head := FindLoops(content, 0).value[0];
    var after := content[head.end..];
    var items := RuleItems(rule, spec).value;
    HeadPieces(content);
    UpperCasedIsClean(Obj(spec), Obj(up));
    CleanList(up, head.tag);
    CleanObject(list[i]);
    CleanRuleItem(rule, spec, i);
    CleanObject(items[i]);
    SuffixIsLegal(i);
    RuleValuesAreClean(rule.itemMappings, crName, items[i].fields, ItemSuffix(i));
    var values := ItemValues(rule, crName, items, i);
    TwoPassesAreOne(head, FindLoops(head.body, 0).value, after, FindLoops(after, 0).value, up, list[i].fields, i + 1,
                    text, now, values);
    assert [ItemFields(head.tag, list[i].fields, Some(i + 1))] + [Modifications(values)]
        == [ItemFields(head.tag, list[i].fields, Some(i + 1)), Modifications(values)];
    if BalancedFrom(content, 0) {
      GeneratedFileHasNoMarker(content, up, list[i].fields, i + 1, text);
      FillingMakesNoMarker(text, now, values);
    }
  }

  /** No loop marker is left in a file of a split: neither in the head loop's body nor in the shared text. */
  lemma GeneratedFileHasNoMarker(content: string, spec: Fields, item: Fields, index: nat, text: string)
    requires TagComplete(content) && LegalHeaders(content) && BalancedFrom(content, 0)
    requires FindLoops(content, 0).Ok? && FindLoops(content, 0).value != []
    requires FindLoops(content, 0).value[0].end <= |content|
    requires Clean(Obj(spec)) && Clean(Obj(item))
    requires var head := FindLoops(content, 0).value[0];
             && FindLoops(head.body, 0).Ok? && FindLoops(content[head.end..], 0).Ok?
             && ItemFileText(head, FindLoops(head.body, 0).value, content[head.end..],
                             FindLoops(content[head.end..], 0).value, spec, item, index) == Ok(text)
    ensures TagComplete(text) && MarkerFree(text)
  {
    hide FindLoops, TagComplete, LegalHeaders, BalancedFrom, Clean, MarkerFree, RenderTop, RenderBody, ParseTree,
      TreeFrom;
    var head := FindLoops(content, 0).value[0];
    var after, nested := content[head.end..], FindLoops(head.body, 0).value;
    HeadPieces(content);
    BalancedPieces(content);
    BodyHasNoMarker(head.body, nested, item, head.tag, index);
    F.NoMarkerSurvives(after, spec);
    F.RenderingAgrees(after, spec, []);
    var main := RenderBody(head.body, nested, item, head.tag, index).value;
    var rest := RenderTop(after, FindLoops(after, 0).value, 0, spec).value;
    TagCompleteConcat(main, rest);
    F.MarkerFreeConcat(main, rest);
  }

  lemma BalancedPieces(content: string)
    requires LegalHeaders(content) && BalancedFrom(content, 0)
    requires FindLoops(content, 0).Ok? && FindLoops(content, 0).value != []
    ensures var head := FindLoops(content, 0).value[0];
            && LegalHeaders(head.body) && BalancedFrom(head.body, 0)
            && head.end <= |content| && LegalHeaders(content[head.end..]) && BalancedFrom(content[head.end..], 0)
  {
    hide LegalHeaders, OccursAt, BlockAt, IndexFrom;
    var start: nat := IndexFrom(content, START_TAG, 0);
    IndexFromIsFirst(content, START_TAG, 0);
    var head := FindLoops(content, 0).value[0];
    assert BlockAt(content, start) == Ok(head);
    BodyParses(content, start);
    NextBlockCloses(content, 0);
    LegalHeadersOfRest(content, head.end);
    forall q: nat | q <= |content| - head.end
      ensures Depth(content[head.end..], 0, q) == Depth(content, head.end, head.end + q)
    {
      DepthInSlice(content, head.end, |content|, q);
      assert content[head.end..|content|] == content[head.end..];
    }
  }

  lemma BodyHasNoMarker(body: string, nested: seq<Block>, item: Fields, path: string, index: nat)
    requires LegalHeaders(body) && BalancedFrom(body, 0) && TagComplete(body) && Clean(Obj(item))
    requires FindLoops(body, 0) == Ok(nested) && RenderBody(body, nested, item, path, index).Ok?
    ensures TagComplete(RenderBody(body, nested, item, path, index).value)
    ensures MarkerFree(RenderBody(body, nested, item, path, index).value)
  {
    hide FindLoops, TagComplete, LegalHeaders, BalancedFrom, Clean, MarkerFree, RenderBody, TreeFrom, EvalNodes,
      MapTags, F.PlainTexts;
    F.BodyTextsArePlain(body);
    var own, nodes := [ItemFields(path, item, Some(index))], ParseTree(body).value;
    BodyAgrees(body, nested, item, path, index, [], nodes);
    assert own + [] == own;
    NoPasses(RenderBody(body, nested, item, path, index).value);
    OwnPassIsClean(path, item, index);
    F.NodesUnmarked(nodes, item, path, own);
  }

  lemma FillingMakesNoMarker(text: string, now: string, values: map<string, string>)
    requires TagComplete(text) && MarkerFree(text) && CleanValues(values) && Filled(text, now, values)
    ensures MarkerFree(now)
  {
    hide TagComplete, MarkerFree, MapTags, Filled;
    FilledInOnePass(text, now, values);
    F.MapTagsMarkerFree(text, [Modifications(values)]);
  }

  lemma {:induction false} UpperCasedIsClean(v: Value, u: Value)
    requires UpperCased(v, u) && Clean(v)
    ensures Clean(u)
    decreases v
  {
    match v
    case Null =>
    case Scalar(_) =>
    case List(items) =>
      forall i | 0 <= i < |items| {
        UpperCasedIsClean(items[i], u.items[i]);
      }
    case Obj(fields) =>
      forall n | n in u.fields
        ensures Clean(u.fields[n])
      {
        var k :| k in fields && ToUpper(k) == n && UpperCased(fields[k], u.fields[n]);
        UpperCasedIsClean(fields[k], u.fields[n]);
      }
  }

  lemma CleanObject(v: Value)
    requires Clean(v) && v.Obj?
    ensures Clean(Obj(v.fields))
  {
  }

  lemma SuffixIsLegal(i: nat)
    ensures '<' !in ItemSuffix(i) && '>' !in ItemSuffix(i)
  {
    var digits := Itoa(i + 1);
    assert '<' !in digits && '>' !in digits;
  }

  lemma CleanRuleItem(rule: RuleMapping, spec: Fields, i: nat)
    requires Clean(Obj(spec)) && RuleItems(rule, spec).Some? && i < |RuleItems(rule, spec).value|
    ensures Clean(RuleItems(rule, spec).value[i])
  {
    CleanWalk(Obj(spec), NonEmpty(Split(TrimPrefix(rule.listField, "spec."), '.')));
  }

  /** The pieces of a template that starts with a loop parse at every depth and are tag-complete. */
  lemma HeadPieces(content: string)
    requires TagComplete(content) && LegalHeaders(content) && FindLoops(content, 0).Ok?
    requires FindLoops(content, 0).value != []
    ensures var head := FindLoops(content, 0).value[0];
            && head.end <= |content| && TagComplete(head.body) && ParseTree(head.body).Ok?
            && FindLoops(content[head.end..], 0).Ok? && TagComplete(content[head.end..])
            && ParseTree(content[head.end..]).Ok?
  {
    hide TagComplete, LegalHeaders, LaidOut, BlockAt, IndexFrom;
    FoundInOrder(content, 0);
    var blocks := FindLoops(content, 0).value;
    var head := blocks[0];
    assert content[0..] == content;
    BlockPieces(content, 0, head);
    WellFormedAtEveryDepth(content);
    SiblingsAreTheRest(content, blocks);
    LegalHeadersOfRest(content, head.end);
    WellFormedAtEveryDepth(content[head.end..]);
  }

  lemma LegalHeadersOfRest(s: string, k: nat)
    requires LegalHeaders(s) && k <= |s|
    ensures LegalHeaders(s[k..])
  {
    hide OccursAt, IsMarkerWord, IndexChar;
    var t := s[k..];
    forall p: nat | OccursAt(t, START_TAG, p)
      ensures LegalHeader(t, p + MARKER_LENGTH)
    {
      OccursAtShift(s, k, START_TAG, p);
      var at := p + MARKER_LENGTH;
      assert LegalHeader(s, k + p + MARKER_LENGTH);
      IndexCharShift(s, k, t, '>', at);
      var close := IndexChar(t, '>', at);
      SliceOfSlice(s, k, |s|, at + 1, close);
      assert s[k..|s|] == t;
    }
  }

  // ---- A placeholder of another loop -----------------------------------------------------------

  lemma UnknownTagGetsIndex(path: string, v: string)
    requires path != "" && "T" != FieldPath(path, "N")
    ensures MapTags("<T>", [ItemFields(path, map["N" := Scalar(v)], Some(1))]) == "<T_1>"
  {
    hide FieldNamed;
    var own := ItemFields(path, map["N" := Scalar(v)], Some(1));
    assert "<" + "T" + ">" + "" == "<T>" && "<" + "T_1" + ">" == "<T_1>";
    SingleTag("T", "");
    SinglePassHead("<T>", own);
    assert ToUpper(TrimPrefix("T", "FGT_")) == "T";
    NoFieldNamed("T", path, map["N" := Scalar(v)]);
    assert "T" + "_" + Itoa(1) == "T_1";
    assert "<T_1>" + "" == "<T_1>";
  }

  lemma TagBody()
    ensures TagComplete("<T>") && MarkerFree("<T>") && BalancedFrom("<T>", 0) && FindLoops("<T>", 0) == Ok([])
    ensures LegalLoopName("A") && LegalLoopName("B")
  {
    hide TagComplete, MarkerFree, BalancedFrom, FindLoops;
    assert "<" + "T" + ">" == "<T>";
    SingleTagComplete("T");
    F.TagIsMarkerFree("T");
    F.TagIsMarkerFree("A");
    F.TagIsMarkerFree("B");
    MarkerFreeBalanced("<T>");
    NoLoopsIn("<T>");
  }

  lemma LoopOverOne(blk: Block, parent: Fields, v: string)
    requires blk.body == "<T>" && FindLoops(blk.body, 0) == Ok([]) && blk.tag != ""
    requires ListAt(parent, blk.tag) == Some([Obj(map["N" := Scalar(v)])])
    ensures RenderBody(blk.body, [], map["N" := Scalar(v)], blk.tag, 1) == Ok("<T_1>")
    ensures RenderLoop(blk, parent, "") == Ok("<T_1>")
  {
    hide FindLoops, MapTags, ListAt;
    var item: Fields := map["N" := Scalar(v)];
    assert FieldPath(blk.tag, "N")[|blk.tag|] == '_';
    UnknownTagGetsIndex(blk.tag, v);
    assert blk.body[0..] == blk.body;
    var list := [Obj(item)];
    assert RenderItems(blk.body, [], list, 1, blk.tag) == Ok("");
    assert "<T_1>" + "" == "<T_1>";
    assert RenderItems(blk.body, [], list, 0, blk.tag) == Ok("<T_1>");
  }

  /** An input at which another loop's placeholder gets the head item's value: a template of two loops whose
      bodies are `<T>`, and a rule that maps T to the field n. In the file of the head loop's item, with
      n = v, the engine leaves `<T_1>` twice, and the second one stands for the other loop's item, with
      n = w. The rule turns both into v. */
  lemma OtherLoopGetsHeadValue(v: string, w: string)
    requires '<' !in v
    ensures var content, after := Wrap("A", "<T>") + Wrap("B", "<T>"), Wrap("B", "<T>");
            var head, sibling := Block("A", "<T>", 0, |Wrap("A", "<T>")|), Block("B", "<T>", 0, |after|);
            var up: Fields := map["A" := List([Obj(map["N" := Scalar(v)])]), "B" := List([Obj(map["N" := Scalar(w)])])];
            var items := [Obj(map["n" := Scalar(v)])];
            var rule := RuleMapping("a", map[], map["T" := "n"], map[], map[]);
            && FindLoops(content, 0) == Ok([head] + Shift([sibling], head.end))
            && content[head.end..] == after && FindLoops(after, 0) == Ok([sibling]) && FindLoops("<T>", 0) == Ok([])
            && ItemFileText(head, [], after, [sibling], up, map["N" := Scalar(v)], 1) == Ok("<T_1><T_1>")
            && Filled("<T_1><T_1>", v + v, ItemValues(rule, "cr", items, 0))
  {
    hide FindLoops, Wrap, Filled, RenderLoop, RenderBody, ModValues;
    var content, after := Wrap("A", "<T>") + Wrap("B", "<T>"), Wrap("B", "<T>");
    var head, sibling := Block("A", "<T>", 0, |Wrap("A", "<T>")|), Block("B", "<T>", 0, |after|);
    var up: Fields := map["A" := List([Obj(map["N" := Scalar(v)])]), "B" := List([Obj(map["N" := Scalar(w)])])];
    var rule := RuleMapping("a", map[], map["T" := "n"], map[], map[]);
    TwoLoops(after, sibling, content, head);
    LoopOverOne(head, up, v);
    LoopOverOne(sibling, up, w);
    TopOverOne(after, sibling, up, "<T_1>");
    assert "<T_1>" + "<T_1>" == "<T_1><T_1>";
    FillsBoth(rule, v);
  }

  lemma TwoLoops(after: string, sibling: Block, content: string, head: Block)
    requires after == Wrap("B", "<T>") && sibling == Block("B", "<T>", 0, |after|)
    requires content == Wrap("A", "<T>") + after && head == Block("A", "<T>", 0, |Wrap("A", "<T>")|)
    ensures FindLoops(after, 0) == Ok([sibling]) && FindLoops("<T>", 0) == Ok([])
    ensures FindLoops(content, 0) == Ok([head] + Shift([sibling], head.end)) && content[head.end..] == after
  {
    hide FindLoops, Wrap, LegalLoopName, TagComplete, BalancedFrom, MarkerFree;
    TagBody();
    NothingIsPlain();
    NoLoopsIn("");
    LoopThenRest("B", "<T>", "");
    assert after + "" == after && ToUpper("B") == "B" && ToUpper("A") == "A";
    assert [sibling] + [] == [sibling];
    LoopThenRest("A", "<T>", after);
  }

  lemma TopOverOne(after: string, sibling: Block, up: Fields, text: string)
    requires sibling.start == 0 && sibling.end == |after| && Fit(after, 0, [sibling])
    requires RenderLoop(sibling, up, "") == Ok(text)
    ensures RenderTop(after, [sibling], 0, up) == Ok(text)
  {
    hide RenderLoop;
    var root := [RootPass(up)];
    assert after[0..0] == "" && after[|after|..] == "" && MapTags("", root) == "";
    assert RenderTop(after, [], |after|, up) == Ok("");
    assert [sibling][1..] == [];
    assert "" + text + "" == text;
  }

  lemma ValuesOfT(rule: RuleMapping, v: string)
    requires rule.itemMappings == map["T" := "n"]
    ensures ItemValues(rule, "cr", [Obj(map["n" := Scalar(v)])], 0) == map["T_1" := v]
  {
    hide ModValues, RawAt;
    var data: Fields := map["n" := Scalar(v)];
    var values := ModValues(rule.itemMappings, "cr", data, ItemSuffix(0));
    assert "T" + ItemSuffix(0) == "T_1";
    DottedKey(data, "n");
    assert TextAt("cr", data, "n") == Some(v);
    ModValueOf(rule.itemMappings, "cr", data, ItemSuffix(0), "T");
    forall n | n in values
      ensures n == "T_1"
    {
      ModValueKeys(rule.itemMappings, "cr", data, ItemSuffix(0), n);
    }
  }

  lemma FillsBoth(rule: RuleMapping, v: string)
    requires rule.itemMappings == map["T" := "n"] && '<' !in v
    ensures Filled("<T_1><T_1>", v + v, ItemValues(rule, "cr", [Obj(map["n" := Scalar(v)])], 0))
  {
    hide ItemValues, MapTags, ReplaceEach, ModsFor, TagComplete;
    ValuesOfT(rule, v);
    var values := map["T_1" := v];
    var one, two := "<T_1>", "<T_1><T_1>";
    assert "<" + "T_1" + ">" == one && "" + one + "" == one && one + one == two && two + "" == two;
    SingleTagComplete("T_1");
    TagCompleteConcat(one, one);
    NoBracketComplete("");
    PassAround(one, "T_1", "", values);
    PassAround("", "T_1", "", values);
    MapTagsPlain("", [Modifications(values)]);
    assert v + "" == v && "" + v == v && v + v + "" == v + v;
    CleanIsApart(values);
    OrderDoesNotMatter(two, ["T_1"], values);
  }
}
