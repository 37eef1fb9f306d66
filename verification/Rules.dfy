/** Rules that live in data: which field of the resource fills which placeholder, and what to check
    before any file is touched. */
module Rules {
  import opened GoStrings
  import opened Results
  import opened Specs
  import opened Tags
  import opened FileNames
  import opened Disks
  import opened Replacements

  datatype FieldValidation = FieldValidation(required: bool, kind: string, allowed: seq<string>, pattern: string)

  datatype RuleMapping = RuleMapping(
    listField: string,
    mappings: map<string, string>,
    itemMappings: map<string, string>,
    validate: map<string, FieldValidation>,
    validateLists: map<string, map<string, FieldValidation>>)

  /** The format checks that other packages do. `matches` is false for a pattern that does not compile. */
  datatype Checks = Checks(isInt: string -> bool, isBool: string -> bool, isCidr: string -> bool, isIp: string -> bool,
                           matches: (string, string) -> bool)

  // ---- Validation ------------------------------------------------------------------------------

  /** A kind that is not one of these is ignored. */
  predicate CheckType(val: string, rule: FieldValidation, checks: Checks) {
    && (rule.kind == "int" ==> checks.isInt(val))
    && (rule.kind == "bool" ==> checks.isBool(val))
    && (rule.kind == "cidr" ==> checks.isCidr(val))
    && (rule.kind == "ip" ==> checks.isIp(val))
    && (rule.kind == "enum" ==> val in rule.allowed)
    && (rule.pattern != "" ==> checks.matches(rule.pattern, val))
  }

  /** A field that is absent, null, a list or an object counts as empty. */
  predicate Acceptable(found: Option<string>, rule: FieldValidation, checks: Checks) {
    if found.None? || found.value == "" then !rule.required else CheckType(found.value, rule, checks)
  }

  /** The fields of `rules` that `paths` maps and whose value is not acceptable. */
  ghost predicate IsProblem(tag: string, rules: map<string, FieldValidation>, paths: map<string, string>,
                            crName: string, data: Fields, checks: Checks)
  {
    tag in rules && tag in paths && !Acceptable(TextAt(crName, data, paths[tag]), rules[tag], checks)
  }

  /** Reports every problem, not only the first. */
  method ValidateFields(rules: map<string, FieldValidation>, paths: map<string, string>, crName: string, data: Fields,
                        checks: Checks) returns (problems: seq<string>)
    ensures forall tag :: tag in problems <==> IsProblem(tag, rules, paths, crName, data, checks)
    ensures forall tag :: tag in problems ==> tag in rules && tag in paths
    ensures forall tag :: tag in rules && tag in paths ==>
              var rule, text := rules[tag], TextAt(crName, data, paths[tag]).GetOr("");
              && (text == "" ==> (tag in problems <==> rule.required))
              && (text != "" ==>
                    (tag in problems <==>
                     || (rule.kind == "int" && !checks.isInt(text))
                     || (rule.kind == "bool" && !checks.isBool(text))
                     || (rule.kind == "cidr" && !checks.isCidr(text))
                     || (rule.kind == "ip" && !checks.isIp(text))
                     || (rule.kind == "enum" && text !in rule.allowed)
                     || (rule.pattern != "" && !checks.matches(rule.pattern, text))))
  {
    hide TextAt;
    problems := [];
    var rest := rules.Keys;
    while rest != {}
      invariant rest <= rules.Keys
      invariant forall tag :: tag in problems <==> tag !in rest && IsProblem(tag, rules, paths, crName, data, checks)
    {
      var tag :| tag in rest;
      rest := rest - {tag};
      if tag !in paths {
        continue;
      }
      var val := LookupPath(crName, data, paths[tag]);
      if val.None? || val.value == "" {
        if rules[tag].required {
          problems := problems + [tag];
        }
        continue;
      }
      if !CheckType(val.value, rules[tag], checks) {
        problems := problems + [tag];
      }
    }
  }

  datatype ListProblem = NotAList(path: string) | BadField(path: string, index: nat, field: string)

  ghost predicate IsListProblem(p: ListProblem, lists: map<string, map<string, FieldValidation>>, crName: string,
                                spec: Fields, checks: Checks)
  {
    && p.path in lists
    && var found := RawAt(spec, p.path);
       match p
       case NotAList(_) => found.Some? && !found.value.List?
       case BadField(path, i, field) =>
         found.Some? && found.value.List? && IsItemProblem(field, i, found.value.items, lists[path], crName, checks)
  }

  ghost predicate IsItemProblem(field: string, i: nat, items: seq<Value>, rules: map<string, FieldValidation>,
                                crName: string, checks: Checks)
  {
    && i < |items| && items[i].Obj? && field in rules
    && !Acceptable(TextAt(crName, items[i].fields, field), rules[field], checks)
  }

  method ValidateItem(path: string, i: nat, items: seq<Value>, rules: map<string, FieldValidation>, crName: string,
                      checks: Checks) returns (problems: seq<ListProblem>)
    requires i < |items|
    ensures forall p :: p in problems <==>
              p.BadField? && p.path == path && p.index == i && IsItemProblem(p.field, i, items, rules, crName, checks)
    ensures !items[i].Obj? ==> problems == []
    ensures items[i].Obj? ==> forall field :: field in rules ==>
              var rule, text := rules[field], TextAt(crName, items[i].fields, field).GetOr("");
              var reported := BadField(path, i, field) in problems;
              && (text == "" ==> (reported <==> rule.required))
              && (text != "" ==>
                    (reported <==>
                     || (rule.kind == "int" && !checks.isInt(text))
                     || (rule.kind == "bool" && !checks.isBool(text))
                     || (rule.kind == "cidr" && !checks.isCidr(text))
                     || (rule.kind == "ip" && !checks.isIp(text))
                     || (rule.kind == "enum" && text !in rule.allowed)
                     || (rule.pattern != "" && !checks.matches(rule.pattern, text))))
  {
    hide TextAt;
    problems := [];
    if !items[i].Obj? {
      return;
    }
    var rest := rules.Keys;
    while rest != {}
      invariant rest <= rules.Keys
      invariant forall p :: p in problems <==>
                  p.BadField? && p.path == path && p.index == i && p.field !in rest
                  && IsItemProblem(p.field, i, items, rules, crName, checks)
    {
      var field :| field in rest;
      rest := rest - {field};
      var val := LookupPath(crName, items[i].fields, field);
      if val.None? || val.value == "" {
        if rules[field].required {
          problems := problems + [BadField(path, i, field)];
        }
        continue;
      }
      if !CheckType(val.value, rules[field], checks) {
        problems := problems + [BadField(path, i, field)];
      }
    }
  }

  /** The lists the engine expands itself; a list that the spec does not have is no problem here. */
  method ValidateEngineLists(lists: map<string, map<string, FieldValidation>>, crName: string, spec: Fields,
                             checks: Checks)
    returns (problems: seq<ListProblem>)
    ensures forall p :: p in problems <==> IsListProblem(p, lists, crName, spec, checks)
    ensures forall p :: p in problems ==> p.path in lists && RawAt(spec, p.path).Some?
    ensures forall path :: path in lists ==>
              (NotAList(path) in problems <==> RawAt(spec, path).Some? && !RawAt(spec, path).value.List?)
  {
    hide RawAt, TextAt, Acceptable;
    problems := [];
    var rest := lists.Keys;
    while rest != {}
      invariant rest <= lists.Keys
      invariant forall p :: p in problems <==> p.path !in rest && IsListProblem(p, lists, crName, spec, checks)
    {
      var path :| path in rest;
      var raw := LookupRawPath(spec, path);
      if raw.Some? && !raw.value.List? {
        problems := problems + [NotAList(path)];
      }
      if raw.Some? && raw.value.List? {
        var items := raw.value.items;
        ghost var before := problems;
        for i := 0 to |items|
          invariant forall p :: p in problems <==>
                      (p in before || (p.BadField? && p.path == path && p.index < i
                                       && IsItemProblem(p.field, p.index, items, lists[path], crName, checks)))
        {
          var more := ValidateItem(path, i, items, lists[path], crName, checks);
          problems := problems + more;
        }
      }
      rest := rest - {path};
    }
  }

  // ---- Modifications ---------------------------------------------------------------------------

  /** Placeholder name, with its suffix, to the text that replaces it; an unresolvable path gives "". */
  function ModValues(paths: map<string, string>, crName: string, data: Fields, suffix: string): map<string, string> {
    map n | n in (set tag | tag in paths :: tag + suffix) && Unsuffixed(n, suffix) in paths ::
      TextAt(crName, data, paths[Unsuffixed(n, suffix)]).GetOr("")
  }

  function Unsuffixed(n: string, suffix: string): string {
    TrimSuffix(n, suffix)
  }

  lemma ModValueOf(paths: map<string, string>, crName: string, data: Fields, suffix: string, tag: string)
    requires tag in paths
    ensures tag + suffix in ModValues(paths, crName, data, suffix)
    ensures ModValues(paths, crName, data, suffix)[tag + suffix] == TextAt(crName, data, paths[tag]).GetOr("")
  {
    hide TextAt;
    SuffixOfSum(tag, suffix);
  }

  lemma ModValueKeys(paths: map<string, string>, crName: string, data: Fields, suffix: string, n: string)
    requires n in ModValues(paths, crName, data, suffix)
    ensures exists tag :: tag in paths && n == tag + suffix
  {
    hide TextAt;
  }

  method BuildMods(paths: map<string, string>, crName: string, data: Fields, suffix: string)
    returns (mods: seq<Modification>, ghost names: seq<string>)
    ensures IsOrderOf(names, ModValues(paths, crName, data, suffix))
    ensures mods == ModsFor(names, ModValues(paths, crName, data, suffix))
    ensures |mods| == |paths|
    ensures forall tag :: tag in paths ==>
              Modification("<" + (tag + suffix) + ">", TextAt(crName, data, paths[tag]).GetOr("")) in mods
  {
    hide ModValues, TextAt, ModsFor, Distinct;
    ghost var values := ModValues(paths, crName, data, suffix);
    NoMods(values);
    mods, names := [], [];
    var rest := paths.Keys;
    while rest != {}
      invariant rest <= paths.Keys && Distinct(names)
      invariant forall tag :: tag in paths && tag !in rest ==> tag + suffix in names
      invariant forall n :: n in names ==>
                  n in values && exists tag :: tag in paths && tag !in rest && n == tag + suffix
      invariant mods == ModsFor(names, values) && |mods| + |rest| == |paths|
      invariant forall tag :: tag in paths && tag !in rest ==>
                  Modification("<" + (tag + suffix) + ">", TextAt(crName, data, paths[tag]).GetOr("")) in mods
    {
      var tag :| tag in rest;
      var val := LookupPath(crName, data, paths[tag]);
      var text := val.GetOr("");
      ModValueOf(paths, crName, data, suffix, tag);
      if tag + suffix in names {
        var other :| other in paths && other !in rest && tag + suffix == other + suffix;
        SameTag(tag, other, suffix);
      }
      ModsForAppend(names, tag + suffix, values);
      AppendDistinct(names, tag + suffix);
      mods := mods + [Modification("<" + (tag + suffix) + ">", text)];
      names := names + [tag + suffix];
      rest := rest - {tag};
    }
    forall n | n in values
      ensures n in names
    {
      ModValueKeys(paths, crName, data, suffix, n);
    }
  }

  lemma NoMods(values: map<string, string>)
    ensures Distinct([]) && ModsFor([], values) == []
  {
  }

  lemma SameTag(a: string, b: string, suffix: string)
    requires a + suffix == b + suffix
    ensures a == b
  {
    SuffixOfSum(a, suffix);
    SuffixOfSum(b, suffix);
  }

  lemma AppendDistinct(names: seq<string>, n: string)
    requires Distinct(names) && n !in names
    ensures Distinct(names + [n])
  {
  }

  lemma {:induction false} ModsForAppend(names: seq<string>, n: string, values: map<string, string>)
    requires (forall m :: m in names ==> m in values) && n in values
    ensures ModsFor(names + [n], values) == ModsFor(names, values) + [Modification("<" + n + ">", values[n])]
    decreases |names|
  {
    if names == [] {
      assert names + [n] == [n];
      assert [n][1..] == [];
    } else {
      ModsForAppend(names[1..], n, values);
      assert (names + [n])[1..] == names[1..] + [n];
    }
  }

  // ---- Applying a rule -------------------------------------------------------------------------

  ghost predicate FieldsValid(rules: map<string, FieldValidation>, paths: map<string, string>, crName: string,
                              data: Fields, checks: Checks)
  {
    forall tag :: !IsProblem(tag, rules, paths, crName, data, checks)
  }

  ghost predicate EngineListsValid(rule: RuleMapping, crName: string, spec: Fields, checks: Checks) {
    forall p :: !IsListProblem(p, rule.validateLists, crName, spec, checks)
  }

  /** The items a list rule works on; None when its list field names no list. */
  function RuleItems(rule: RuleMapping, spec: Fields): Option<seq<Value>> {
    AsList(RawAt(spec, rule.listField))
  }

  /** Every check of the rule holds for the resource, for every object in the list of a list rule. */
  ghost predicate RuleValid(rule: RuleMapping, crName: string, spec: Fields, checks: Checks) {
    && EngineListsValid(rule, crName, spec, checks)
    && if rule.listField == "" then FieldsValid(rule.validate, rule.mappings, crName, spec, checks)
       else
         && RuleItems(rule, spec).Some?
         && var items := RuleItems(rule, spec).value;
            forall i :: 0 <= i < |items| && items[i].Obj? ==>
              FieldsValid(rule.validate, rule.itemMappings, crName, items[i].fields, checks)
  }

  function ItemSuffix(i: nat): string {
    "_" + Itoa(i + 1)
  }

  function ItemValues(rule: RuleMapping, crName: string, items: seq<Value>, i: nat): map<string, string>
    requires i < |items| && items[i].Obj?
  {
    ModValues(rule.itemMappings, crName, items[i].fields, ItemSuffix(i))
  }

  /** `now` is `text` with the placeholders of `values` replaced one after the other in some order. */
  ghost predicate Filled(text: string, now: string, values: map<string, string>) {
    exists names :: IsOrderOf(names, values) && now == ReplaceEach(text, ModsFor(names, values))
  }

  ghost predicate FileFilled(before: map<string, string>, now: map<string, string>, file: string,
                             values: map<string, string>)
  {
    file in before && file in now && Filled(before[file], now[file], values)
  }

  ghost predicate IsItemFile(name: string, baseFile: string, items: seq<Value>, k: nat)
    requires k <= |items|
  {
    exists i :: 0 <= i < k && items[i].Obj? && name == IndexedResourceFile(baseFile, i)
  }

  /** The files of the first `k` items are filled, one for each object; no other file changed. */
  ghost predicate ItemsFilled(before: map<string, string>, now: map<string, string>, baseFile: string,
                              rule: RuleMapping, crName: string, items: seq<Value>, k: nat)
    requires k <= |items|
  {
    && (forall i :: 0 <= i < k && items[i].Obj? ==>
          FileFilled(before, now, IndexedResourceFile(baseFile, i), ItemValues(rule, crName, items, i)))
    && OnlyItemFilesChanged(before, now, baseFile, items, k)
  }

  ghost predicate OnlyItemFilesChanged(before: map<string, string>, now: map<string, string>, baseFile: string,
                                       items: seq<Value>, k: nat)
    requires k <= |items|
  {
    forall n :: !IsItemFile(n, baseFile, items, k) ==> (n in now <==> n in before) && (n in now ==> now[n] == before[n])
  }

  /** No file but those the rule works on changed. */
  ghost predicate OnlyTargetsChanged(before: map<string, string>, now: map<string, string>, baseFile: string,
                                     rule: RuleMapping, spec: Fields)
  {
    if rule.listField == "" then now - {baseFile} == before - {baseFile}
    else if RuleItems(rule, spec).None? then now == before
    else OnlyItemFilesChanged(before, now, baseFile, RuleItems(rule, spec).value, |RuleItems(rule, spec).value|)
  }

  ghost predicate RuleApplied(before: map<string, string>, now: map<string, string>, baseFile: string,
                              rule: RuleMapping, crName: string, spec: Fields)
  {
    if rule.listField == "" then
      && FileFilled(before, now, baseFile, ModValues(rule.mappings, crName, spec, ""))
      && now - {baseFile} == before - {baseFile}
    else
      && RuleItems(rule, spec).Some?
      && ItemsFilled(before, now, baseFile, rule, crName, RuleItems(rule, spec).value, |RuleItems(rule, spec).value|)
  }

  /** A file the rule works on cannot be read or written. */
  ghost predicate TargetFails(error: Error, baseFile: string, rule: RuleMapping, spec: Fields) {
    if rule.listField == "" then error == ReadFailed(baseFile) || error == WriteFailed(baseFile)
    else RuleItems(rule, spec).Some? && ItemTargetFails(error, baseFile, RuleItems(rule, spec).value)
  }

  ghost predicate ItemTargetFails(error: Error, baseFile: string, items: seq<Value>) {
    exists i :: 0 <= i < |items| && items[i].Obj? &&
      var file := IndexedResourceFile(baseFile, i);
      error == ReadFailed(file) || error == WriteFailed(file)
  }

  /** Every file the rule works on is there. */
  ghost predicate TargetsThere(files: map<string, string>, baseFile: string, rule: RuleMapping, spec: Fields) {
    if rule.listField == "" then baseFile in files
    else RuleItems(rule, spec).Some? ==> ItemFilesThere(files, baseFile, RuleItems(rule, spec).value)
  }

  ghost predicate ItemFilesThere(files: map<string, string>, baseFile: string, items: seq<Value>) {
    forall i :: 0 <= i < |items| && items[i].Obj? ==> IndexedResourceFile(baseFile, i) in files
  }

  method ApplyConfigDrivenRule(disk: Disk, rule: RuleMapping, crName: string, spec: Fields, baseFile: string,
                               checks: Checks)
    returns (r: Result<()>)
    modifies disk
    ensures !RuleValid(rule, crName, spec, checks) ==>
              r.Err? && !IsDiskError(r.error) && disk.files == old(disk.files)
    ensures r.Err? && RuleValid(rule, crName, spec, checks) ==> TargetFails(r.error, baseFile, rule, spec)
    ensures r.Ok? ==> RuleApplied(old(disk.files), disk.files, baseFile, rule, crName, spec)
    ensures OnlyTargetsChanged(old(disk.files), disk.files, baseFile, rule, spec)
    ensures RuleValid(rule, crName, spec, checks) ==>
              disk.reliable && TargetsThere(old(disk.files), baseFile, rule, spec) ==> r.Ok?
  {
    hide RawAt, FieldsValid, IsListProblem, ModValues, FileFilled, ItemsFilled, IsItemFile, ItemTargetFails,
      ItemFilesThere;
    var listProblems := ValidateEngineLists(rule.validateLists, crName, spec, checks);
    if listProblems != [] {
      assert IsListProblem(listProblems[0], rule.validateLists, crName, spec, checks);
      return Err(Invalid);
    }
    if rule.listField == "" {
      r := ApplyToFile(disk, rule, crName, spec, baseFile, checks);
      return;
    }
    var raw := LookupRawPath(spec, rule.listField);
    if raw.None? {
      return Err(ListFieldMissing(rule.listField));
    }
    if !raw.value.List? {
      return Err(ListFieldNotList(rule.listField));
    }
    var items := raw.value.items;
    var valid := ValidateRuleItems(rule, crName, items, checks);
    if !valid {
      return Err(Invalid);
    }
    r := ApplyToItems(disk, rule, crName, items, baseFile);
  }

  /** A rule without a list field: the resource's own checks, then the one file. */
  method ApplyToFile(disk: Disk, rule: RuleMapping, crName: string, spec: Fields, baseFile: string, checks: Checks)
    returns (r: Result<()>)
    modifies disk
    ensures !FieldsValid(rule.validate, rule.mappings, crName, spec, checks) ==>
              r.Err? && !IsDiskError(r.error) && disk.files == old(disk.files)
    ensures r.Err? && FieldsValid(rule.validate, rule.mappings, crName, spec, checks) ==>
              r.error == ReadFailed(baseFile) || r.error == WriteFailed(baseFile)
    ensures r.Ok? ==>
              FileFilled(old(disk.files), disk.files, baseFile, ModValues(rule.mappings, crName, spec, ""))
    ensures disk.files - {baseFile} == old(disk.files) - {baseFile}
    ensures FieldsValid(rule.validate, rule.mappings, crName, spec, checks) ==>
              disk.reliable && baseFile in old(disk.files) ==> r.Ok?
  {
    hide IsProblem, ModValues, IsOrderOf, ReplaceEach, ModsFor;
    var problems := ValidateFields(rule.validate, rule.mappings, crName, spec, checks);
    if problems != [] {
      assert IsProblem(problems[0], rule.validate, rule.mappings, crName, spec, checks);
      return Err(Invalid);
    }
    var mods, names := BuildMods(rule.mappings, crName, spec, "");
    r := ModifyFileValue(disk, baseFile, mods);
  }

  /** The first pass: the checks of every item, before any file is written. */
  method ValidateRuleItems(rule: RuleMapping, crName: string, items: seq<Value>, checks: Checks) returns (valid: bool)
    ensures valid <==> forall i :: 0 <= i < |items| && items[i].Obj? ==>
                         FieldsValid(rule.validate, rule.itemMappings, crName, items[i].fields, checks)
  {
    hide IsProblem;
    for i := 0 to |items|
      invariant forall j :: 0 <= j < i && items[j].Obj? ==>
                  FieldsValid(rule.validate, rule.itemMappings, crName, items[j].fields, checks)
    {
      if !items[i].Obj? {
        continue;
      }
      var problems := ValidateFields(rule.validate, rule.itemMappings, crName, items[i].fields, checks);
      if problems != [] {
        assert IsProblem(problems[0], rule.validate, rule.itemMappings, crName, items[i].fields, checks);
        return false;
      }
    }
    return true;
  }

  /** The second pass: every item has passed its checks. */
  method ApplyToItems(disk: Disk, rule: RuleMapping, crName: string, items: seq<Value>, baseFile: string)
    returns (r: Result<()>)
    modifies disk
    ensures r.Err? ==> ItemTargetFails(r.error, baseFile, items)
    ensures r.Ok? ==> ItemsFilled(old(disk.files), disk.files, baseFile, rule, crName, items, |items|)
    ensures OnlyItemFilesChanged(old(disk.files), disk.files, baseFile, items, |items|)
    ensures disk.reliable && ItemFilesThere(old(disk.files), baseFile, items) ==> r.Ok?
  {
    hide ModValues, IndexedResourceFile, IsOrderOf, ReplaceEach, ModsFor, Filled;
    for i := 0 to |items|
      invariant ItemsFilled(old(disk.files), disk.files, baseFile, rule, crName, items, i)
    {
      if !items[i].Obj? {
        continue;
      }
      var suffix := "_" + Itoa(i + 1);
      var mods, names := BuildMods(rule.itemMappings, crName, items[i].fields, suffix);
      var file := IndexedResourceFile(baseFile, i);
      ghost var before := disk.files;
      if file in old(disk.files) {
        TargetStillThere(old(disk.files), disk.files, baseFile, rule, crName, items, i);
      }
      var modified := ModifyFileValue(disk, file, mods);
      if modified.Err? {
        FailNext(old(disk.files), before, disk.files, baseFile, items, i);
        return Err(modified.error);
      }
      FillNext(old(disk.files), before, baseFile, rule, crName, items, i, names, disk.files[file]);
    }
    r := Ok(());
  }

  lemma TargetStillThere(start: map<string, string>, now: map<string, string>, baseFile: string, rule: RuleMapping,
                         crName: string, items: seq<Value>, k: nat)
    requires k < |items| && ItemsFilled(start, now, baseFile, rule, crName, items, k)
    requires IndexedResourceFile(baseFile, k) in start
    ensures IndexedResourceFile(baseFile, k) in now
  {
    hide IndexedResourceFile, FileFilled, ItemValues;
    var file := IndexedResourceFile(baseFile, k);
    forall i | 0 <= i < k
      ensures IndexedResourceFile(baseFile, i) != file
    {
      if IndexedResourceFile(baseFile, i) == file {
        IndexedNamesDistinct(baseFile, i, k);
      }
    }
    assert !IsItemFile(file, baseFile, items, k);
  }

  lemma FailNext(start: map<string, string>, before: map<string, string>, now: map<string, string>, baseFile: string,
                 items: seq<Value>, k: nat)
    requires k < |items| && items[k].Obj? && OnlyItemFilesChanged(start, before, baseFile, items, k)
    requires now - {IndexedResourceFile(baseFile, k)} == before - {IndexedResourceFile(baseFile, k)}
    ensures OnlyItemFilesChanged(start, now, baseFile, items, |items|)
  {
    hide IndexedResourceFile;
    var file := IndexedResourceFile(baseFile, k);
    forall n | !IsItemFile(n, baseFile, items, |items|)
      ensures (n in now <==> n in start) && (n in now ==> now[n] == start[n])
    {
      assert !IsItemFile(n, baseFile, items, k) && n != file;
      assert n in now <==> n in now - {file};
      assert n in before <==> n in before - {file};
    }
  }

  lemma FillNext(start: map<string, string>, before: map<string, string>, baseFile: string, rule: RuleMapping,
                 crName: string, items: seq<Value>, k: nat, names: seq<string>, text: string)
    requires k < |items| && items[k].Obj?
    requires ItemsFilled(start, before, baseFile, rule, crName, items, k)
    requires IndexedResourceFile(baseFile, k) in before
    requires IsOrderOf(names, ItemValues(rule, crName, items, k))
    requires text == ReplaceEach(before[IndexedResourceFile(baseFile, k)],
                                 ModsFor(names, ItemValues(rule, crName, items, k)))
    ensures ItemsFilled(start, before[IndexedResourceFile(baseFile, k) := text], baseFile, rule, crName, items, k + 1)
  {
    hide IndexedResourceFile, IsOrderOf, ReplaceEach, ModsFor, ModValues;
    var file := IndexedResourceFile(baseFile, k);
    var now := before[file := text];
    forall i | 0 <= i < k
      ensures IndexedResourceFile(baseFile, i) != file
    {
      if IndexedResourceFile(baseFile, i) == file {
        IndexedNamesDistinct(baseFile, i, k);
      }
    }
    assert !IsItemFile(file, baseFile, items, k);
    assert Filled(start[file], text, ItemValues(rule, crName, items, k));
    assert forall n :: !IsItemFile(n, baseFile, items, k + 1) ==> !IsItemFile(n, baseFile, items, k) && n != file;
  }

  /** A placeholder that is both mapped and validated stands for exactly the value that was checked. */
  lemma CheckedValueIsMapped(rules: map<string, FieldValidation>, paths: map<string, string>, crName: string,
                             data: Fields, checks: Checks, suffix: string, tag: string)
    requires FieldsValid(rules, paths, crName, data, checks) && tag in rules && tag in paths
    ensures tag + suffix in ModValues(paths, crName, data, suffix)
    ensures Acceptable(Some(ModValues(paths, crName, data, suffix)[tag + suffix]), rules[tag], checks)
  {
    hide TextAt, CheckType;
    ModValueOf(paths, crName, data, suffix, tag);
    assert !IsProblem(tag, rules, paths, crName, data, checks);
  }

  /** Where such a placeholder stood in the file, there is the checked value once the file is filled, and the
      placeholder is nowhere in it. */
  lemma CheckedValueIsWritten(rules: map<string, FieldValidation>, paths: map<string, string>, crName: string,
                              data: Fields, checks: Checks, suffix: string, tag: string, a: string, b: string,
                              now: string)
    requires FieldsValid(rules, paths, crName, data, checks) && tag in rules && tag in paths
    requires TagComplete(a) && TagComplete(b) && CleanValues(ModValues(paths, crName, data, suffix))
    requires Filled(a + ("<" + (tag + suffix) + ">") + b, now, ModValues(paths, crName, data, suffix))
    ensures var values := ModValues(paths, crName, data, suffix);
            && tag + suffix in values && values[tag + suffix] == TextAt(crName, data, paths[tag]).GetOr("")
            && now == MapTags(a, [Modifications(values)]) + values[tag + suffix] + MapTags(b, [Modifications(values)])
            && !Holds(now, tag + suffix)
    ensures var text, rule := TextAt(crName, data, paths[tag]).GetOr(""), rules[tag];
            && (text == "" ==> !rule.required)
            && (text != "" ==>
                  && (rule.kind == "int" ==> checks.isInt(text))
                  && (rule.kind == "bool" ==> checks.isBool(text))
                  && (rule.kind == "cidr" ==> checks.isCidr(text))
                  && (rule.kind == "ip" ==> checks.isIp(text))
                  && (rule.kind == "enum" ==> text in rule.allowed)
                  && (rule.pattern != "" ==> checks.matches(rule.pattern, text)))
  {
    hide FieldsValid, ModValues, TagComplete, CleanValues, MapTags, Holds, Filled, TextAt;
    CheckedValueIsMapped(rules, paths, crName, data, checks, suffix, tag);
    ModValueOf(paths, crName, data, suffix, tag);
    var values, n := ModValues(paths, crName, data, suffix), tag + suffix;
    var text := a + ("<" + n + ">") + b;
    CleanName(values, n);
    SingleTagComplete(n);
    TagCompleteConcat(a, "<" + n + ">");
    TagCompleteConcat(a + ("<" + n + ">"), b);
    FilledInOnePass(text, now, values);
    PassAround(a, n, b, values);
    FilledLeavesNone(text, now, values, n);
  }

  /** A filled text, whatever the order, is the text scanned once with all the values. */
  lemma FilledInOnePass(text: string, now: string, values: map<string, string>)
    requires TagComplete(text) && CleanValues(values) && Filled(text, now, values)
    ensures now == MapTags(text, [Modifications(values)])
  {
    hide TagComplete, CleanValues, ReplaceEach, MapTags, ApartValues;
    var names :| IsOrderOf(names, values) && now == ReplaceEach(text, ModsFor(names, values));
    CleanIsApart(values);
    OrderDoesNotMatter(text, names, values);
  }

  /** It holds no placeholder that has a value. */
  lemma FilledLeavesNone(text: string, now: string, values: map<string, string>, n: string)
    requires TagComplete(text) && CleanValues(values) && Filled(text, now, values) && n in values
    ensures !Holds(now, n)
  {
    hide TagComplete, CleanValues, MapTags, Holds, Filled;
    FilledInOnePass(text, now, values);
    CleanName(values, n);
    HoldsAfterPass(text, values, n);
  }

  /** A mapped placeholder that the engine left in the file of an item is still there exactly when the item is
      no object: the rule does not touch that file. */
  lemma ItemFileKeepsTagIff(before: map<string, string>, now: map<string, string>, baseFile: string,
                            rule: RuleMapping, crName: string, spec: Fields, i: nat, tag: string)
    requires RuleApplied(before, now, baseFile, rule, crName, spec) && rule.listField != ""
    requires RuleItems(rule, spec).Some? && i < |RuleItems(rule, spec).value| && tag in rule.itemMappings
    requires IndexedResourceFile(baseFile, i) in before && TagComplete(before[IndexedResourceFile(baseFile, i)])
    requires RuleItems(rule, spec).value[i].Obj? ==>
               CleanValues(ItemValues(rule, crName, RuleItems(rule, spec).value, i))
    ensures var item, file := RuleItems(rule, spec).value[i], IndexedResourceFile(baseFile, i);
            && file in now && (!item.Obj? ==> now[file] == before[file])
            && (Holds(now[file], tag + ItemSuffix(i)) <==>
                Holds(before[file], tag + ItemSuffix(i)) && !item.Obj?)
  {
    hide RawAt, ModValues, TagComplete, CleanValues, Holds, Filled, IndexedResourceFile, TextAt;
    var items, file := RuleItems(rule, spec).value, IndexedResourceFile(baseFile, i);
    if items[i].Obj? {
      var values := ItemValues(rule, crName, items, i);
      ModValueOf(rule.itemMappings, crName, items[i].fields, ItemSuffix(i), tag);
      FilledLeavesNone(before[file], now[file], values, tag + ItemSuffix(i));
    } else if IsItemFile(file, baseFile, items, |items|) {
      var j :| 0 <= j < |items| && items[j].Obj? && file == IndexedResourceFile(baseFile, j);
      IndexedNamesDistinct(baseFile, i, j);
      assert false;
    }
  }

  /** An input at which it stays: a list of one scalar. The rule succeeds and leaves `<T_1>` in the file. */
  lemma ScalarItemFileIsNotFilled(baseFile: string)
    ensures var rule := RuleMapping("list", map[], map["T" := "name"], map[], map[]);
            var spec: Fields := map["list" := List([Scalar("x")])];
            var files := map[IndexedResourceFile(baseFile, 0) := "<T_1>"];
            && RuleItems(rule, spec) == Some([Scalar("x")]) && RuleApplied(files, files, baseFile, rule, "cr", spec)
            && Holds(files[IndexedResourceFile(baseFile, 0)], "T" + ItemSuffix(0))
  {
    hide IndexedResourceFile, RawAt, Holds;
    var rule := RuleMapping("list", map[], map["T" := "name"], map[], map[]);
    var spec: Fields := map["list" := List([Scalar("x")])];
    var files := map[IndexedResourceFile(baseFile, 0) := "<T_1>"];
    DottedKey(spec, "list");
    assert RuleItems(rule, spec) == Some([Scalar("x")]);
    assert RuleApplied(files, files, baseFile, rule, "cr", spec);
    assert "T" + ItemSuffix(0) == "T_1";
    assert "<" + "T_1" + ">" == "<T_1>";
    PlaceholderHoldsItself("T_1", "T_1");
  }

  // ---- What a rule asks for --------------------------------------------------------------------

  /** A rule's checks hold when no field of an engine list and no field the rule writes is a problem, for the
      resource itself or for each object of the list the list field must name. */
  lemma RuleValidIff(rule: RuleMapping, crName: string, spec: Fields, checks: Checks)
    ensures RuleValid(rule, crName, spec, checks) <==>
            && (forall p :: !IsListProblem(p, rule.validateLists, crName, spec, checks))
            && (rule.listField == "" ==>
                  forall tag :: !IsProblem(tag, rule.validate, rule.mappings, crName, spec, checks))
            && (rule.listField != "" ==>
                  var found := RawAt(spec, rule.listField);
                  && found.Some? && found.value.List?
                  && forall i, tag :: 0 <= i < |found.value.items| && found.value.items[i].Obj? ==>
                       !IsProblem(tag, rule.validate, rule.itemMappings, crName, found.value.items[i].fields, checks))
  {
    hide IsProblem, IsListProblem, RawAt;
  }

  /** The number in an item's file name is the one in its placeholders. */
  lemma FileAndPlaceholderNumbers(base: string, ext: string, i: nat, n: string, path: string, item: Fields)
    requires IsExt(ext) && ext != ".tmpl"
    ensures IndexedResourceFile(base + ext, i) == base + ItemSuffix(i) + ext
    ensures IndexedResourceFile(base + ext + ".tmpl", i) == base + ItemSuffix(i) + ext
    ensures ItemSuffix(i)[0] == '_' && forall c :: c in ItemSuffix(i)[1..] ==> '0' <= c <= '9'
    ensures ReadDigits(ItemSuffix(i)[1..], 0) == i + 1
    ensures !IsMarkerName(n) && !Matches(n, ItemFields(path, item, Some(i + 1))) ==>
              Step(n, ItemFields(path, item, Some(i + 1))) == Pending(n + ItemSuffix(i))
  {
    hide SplitTerraformExt, Itoa, FieldNamed, IsMarkerName;
    SplitOfJoined(base, ext);
    SplitOfTemplate(base, ext);
    ItoaReads(i + 1);
    assert ItemSuffix(i)[1..] == Itoa(i + 1);
    assert base + "_" + Itoa(i + 1) + ext == base + ItemSuffix(i) + ext;
    assert n + "_" + Itoa(i + 1) == n + ItemSuffix(i);
  }
}
