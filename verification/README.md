# FortiGate operator: a verified model

The operator turns Terraform templates and a resource's JSON spec into files, fills what is left over by rules
kept as data, and upgrades firewalls under a backup protocol. This project models those three parts in Dafny
and proves what they promise.

**Templates.** `Loops` finds the outermost `<FGT_FOR_STR><NAME>…<FGT_FOR_END>` blocks by counting depth over
offsets, `Engine` expands them against the spec and writes the files, `Tags` replaces the placeholders. The
methods have the loops and the branches of the Go code and are proved equal to functions; the theorems are
about those functions. `LoopDepth` and `LoopTrees` give the parser two independent readings (a nesting depth
per offset, a tree with a printer), and `Rendering` holds a one-pass evaluator over the tree, which the
offset-based, repeatedly re-scanning renderer is proved to agree with (`RenderingFacts`). `Splitting` relates
one file per item to rendering in place, `FileNames` the names the engine writes to the names the rules look
up. `RenderingLaws` says piece by piece what a template becomes, and `WorkedTemplates` follows a few templates
from their text to the files that are left.

**Rules.** `Rules` validates a resource and applies a rule to the generated files by one replacement after the
other; `Replacements` shows that the order of the replacements does not matter, `Operator` that engine and
rule agree end to end. `RuleSources` merges rules from several sources, `RuleRegistry` loads them.

**Upgrades.** `UpgradeProtocol` is a machine whose steps are the single effects of the upgrade runs, with
crashes, lost replies, stale reads and runs interleaved at will; its theorems hold in every state it can
reach, and `UpgradeProgress` shows that from each of them a run that starts anew can end well. `UpgradeReconciler` has the
reconcile code call by call; every execution of it is, by construction, a run of that machine. `UpdatePaths`
and `UpdatePathReconciler` do the same for the rule that no two update paths for the same upgrade become
valid: a cache is a prefix of the watch history there.

Words used below. A text is *tag-complete* when every `<` in it opens a bracketed name that is not empty and
holds no `<`. A template has *legal headers* when every start marker is followed by a bracketed name without
`<` that is not itself a marker word. A text is *balanced* when the nesting depth of its markers never falls
below zero and ends at zero. Data is *clean* when no scalar in it holds `<`. A *pass* is a scan of a text with
the fields of one loop item, or with the values of one rule.

## What the code does, where its comments say otherwise or a reader may not expect it

Each has its exact condition as a theorem, and a concrete input or family of inputs.

- The comment on `writeAndEnsureDotTf` says the final name always ends in `.tf`. It does exactly when the
  name, without `.tmpl`, has the extension `.tf` or none (`FileNames.FinalNameEndsInTf`, `FileNames.JsonStaysJson`).
- The names that engine and rule compute agree exactly for file names that do not end in `.tmpl.tmpl`
  (`FileNames.NamesAgreeIff`).
- The engine looks lists up in upper case and the rule as the resource spells them. Both find a list or
  neither does, except for a list field whose case is not the resource's: there the engine splits the
  template and the rule then fails (`Specs.PathsAgreeIff`, `Specs.CaseOfListFieldMatters`).
- A list of scalars gets one generated file per item, but the rule only works on objects. A mapped placeholder
  is still in an item's file exactly when the engine left it there and the item is no object
  (`Rules.ItemFileKeepsTagIff`, `Rules.ScalarItemFileIsNotFilled`).
- The rule fills any placeholder of a file that has the name `<T_i>`, also one that another loop left for its
  own item i; it gets the head item's value. The text the files share is left alone exactly when it holds no
  placeholder the rule has a value for (`Operator.SharedTextIsKeptIff`, `Operator.OtherLoopGetsHeadValue`).
- The prefix `FGT_` of a placeholder is taken off only in upper case; `<fgt_hostname>` stays as it is
  (`Tags.SpellingsOfAField`, `Tags.LowerCasePrefixStays`).
- In a loop over a list of scalars `<PATH_VALUE>` is the item, exactly when that name does not itself begin with
  `FGT_`; it does for a list `fgt` and for a list `b` below a field `fgt` (`Tags.ScalarItemIsValue`).
- A null field is printed as `<nil>`. The passes of the enclosing loops then treat that as a placeholder
  and add their indices (`Tags.NullCollectsIndices`, `Tags.NullInInnerLoop`).
- The comment in `doReconcile` says the backup's name is kept in the status on errors too. The code returns
  before it writes the status: the name a failed run had is there exactly when that run, or another one that had
  the same name, got it written (`UpgradeProtocol.NameIsKeptOnErrorIff`). A run that fails right after storing the
  backup leaves no name, and the retry stores and names another (`UpgradeProtocol.NameIsLostOnError`,
  `UpgradeProtocol.RetryNamesAnotherBackup`).
- Rules replace placeholders in the random order of a Go map. Over two names the order never shows exactly when
  neither value holds the other's placeholder or ends in the beginning of it, or that other one is replaced by
  itself (`Replacements.OrderNeverShowsIff`, `Replacements.OrderMattersWithBrackets`).
- `GetStatusByParams` does not look at `PathStatusValid`. A run that ends well has sent nothing exactly when its
  path has at most one version, and an empty path gets there after the backup and the snapshot
  (`UpgradeProtocol.NothingSentIff`, `UpgradeProtocol.EmptyPathEndsWell`).
- The comment on `LoadOperatorRulesFromConfigMaps` suggests calling it again to pick up changes. Loading the same
  sources again works exactly when they define no rule; else it panics
  (`RuleRegistry.ReloadWorksIffNoRules`, `RuleRegistry.OneRuleLoadsOnce`), after it has replaced the common mappings.

## Model

| member | source | states |
|---|---|---|
| GoStrings.UpperLetters | internal/controller/smart_nested_process.go:25-25 | Upper-casing turns each of the letters a to z into its capital, one by one, and leaves every other character. |
| GoStrings.ItoaReads | internal/controller/smart_nested_process.go:76-76 | The decimal form of a number, read digit by digit from the left, is that number, and has no zero in front. |
| GoStrings.TrimSpaceIs | internal/controller/smart_nested_process.go:488-488 | Exactly the white space around a text is taken off. |
| GoStrings.SplitFirst | internal/controller/smart_nested_process.go:238-238 | Splitting cuts at every separator, from left to right. |
| Specs.NormalizeKeys | internal/controller/smart_nested_process.go:20-36 | The result is the value with every key of every object at every depth in upper case, whatever order the keys are visited in; of keys that differ only in case one survives. |
| SpecLaws.UpperCasedIsUpper | internal/controller/smart_nested_process.go:20-36 | In an upper-cased spec every key at every depth is in upper case, in objects inside lists too. |
| SpecLaws.UpperCasedKeeps | internal/controller/smart_nested_process.go:20-36 | Nothing but keys changes: scalars and nulls are at the upper-cased path unchanged, lists keep their length, objects stay objects. |
| Specs.ResolveListPath | internal/controller/smart_nested_process.go:231-258 | Finds the list of exactly the tag's name, else the list at the end of the path its underscores spell, else none. |
| Specs.LookupRawPath | internal/controller/rule_config_driven.go:351-369 | Walks the non-empty segments of the dotted path after an optional `spec.`; none as soon as a segment is missing or leads through a non-object. |
| Specs.LookupPath | internal/controller/rule_config_driven.go:323-346 | The resource's own name for `$cr.name`, else the text of the scalar at the path; none for null, lists, objects and paths that lead nowhere. |
| SpecLaws.MappedText | internal/controller/rule_config_driven.go:323-346 | A mapped path gives the name of the resource for `$cr.name`, the text of a scalar field with or without `spec.` in front, and nothing for null, lists, objects, missing fields and empty paths. |
| SpecLaws.MappedTextTwoKeysDeep | internal/controller/rule_config_driven.go:323-346 | The same for a path of two keys, as in the shipped rules. |
| SpecLaws.DottedPathStep | internal/controller/rule_config_driven.go:351-369 | A dotted path is followed key by key from the left: the first key names the object inside which the rest is looked up. |
| SpecLaws.DottedPathNoise | internal/controller/rule_config_driven.go:351-369 | A `spec.` in front and a dot too many make no difference. |
| SpecLaws.UnderscorePathStep | internal/controller/smart_nested_process.go:231-258 | An underscore path names a list field of exactly that name, else is followed key by key from the left. |
| SpecLaws.UnderscoreWalkStep | internal/controller/smart_nested_process.go:244-258 | The same below the first key. |
| Specs.DottedPathWalks | internal/controller/rule_config_driven.go:351-369 | A dotted path of plain keys denotes exactly the walk along those keys, with and without the `spec.` prefix. |
| Specs.UnderscorePathWalks | internal/controller/smart_nested_process.go:231-258 | An underscore path of plain keys denotes exactly the walk along the upper-cased keys of the upper-cased spec. |
| Specs.PathsNameTheSameList | internal/controller/rule_config_driven.go:351-369 | The engine's path on the upper-cased spec finds a list exactly when the spec has one at a path that is the keys up to case, and it is that list, of the same length and with the same value up to upper-cased keys at each index; the rule's path finds one exactly at the keys as written. |
| Specs.PathsAgreeIff | internal/controller/rule_config_driven.go:351-369 | Engine and rule find a list both or neither, if and only if no list of the spec is spelled like the path in another case only. |
| Specs.CaseOfListFieldMatters | internal/controller/rule_config_driven.go:351-369 | An input: for a field `list` and a list field `List` the engine finds the list and the rule none. |
| Tags.SubstituteTag | internal/controller/smart_nested_process.go:44-77 | One placeholder: markers stay, a scalar field under the cumulative path gives its text, null gives `<nil>`, any other name stays, with the item's index after it inside a loop. |
| Tags.ProcessVariables | internal/controller/smart_nested_process.go:42-78 | The text with each leftmost `<name>` replaced by what the item's fields make of it, an unresolved one with the index after it. |
| Tags.ProcessVariablesNoSuffix | internal/controller/smart_nested_process.go:89-125 | The same without any suffix on unresolved names. |
| Tags.FirstPlaceholder | internal/controller/smart_nested_process.go:43-46 | In any text, the first `<` opens a placeholder that reaches to the next `>`; it is replaced, the text in front of it stays, and the scan goes on behind it. |
| Tags.NothingToScan | internal/controller/smart_nested_process.go:43-46 | Without a `>` nothing is replaced, and `<>` is no placeholder. |
| Tags.MarkersStay | internal/controller/smart_nested_process.go:47-49 | The end marker and every name that begins like a start marker are left alone. |
| Tags.FieldPathIsUnique | internal/controller/smart_nested_process.go:53-73 | At most one key of an item can match a placeholder, so the random order of the key loop cannot show. |
| Tags.FieldIsFound | internal/controller/smart_nested_process.go:51-73 | A name is replaced if and only if, in upper case and without an upper-case `FGT_` in front, it is the cumulative path of a scalar field, and then by the text of that field. |
| Tags.SpellingsOfAField | internal/controller/smart_nested_process.go:51-73 | A field's path in any case names the field if and only if it does not begin with `FGT_`; with that prefix added in front in any case, if and only if the prefix is in upper case. |
| Tags.LowerCasePrefixStays | internal/controller/smart_nested_process.go:51-51 | An input: `<fgt_hostname>` stays where `<FGT_hostname>` is replaced. |
| Tags.ScalarItemIsValue | internal/controller/smart_nested_process.go:201-209 | An item that is no object is reached as `<PATH_VALUE>`, if and only if that name does not begin with `FGT_`. |
| Tags.NullFieldIsScannedAgain | internal/controller/smart_nested_process.go:68-72 | A null field leaves a placeholder named nil for the passes of the enclosing loops. |
| Tags.NullCollectsIndices | internal/controller/smart_nested_process.go:68-76 | Where no enclosing loop has a matching field, a null field ends as nil with the indices of all of them, so it stays `<nil>` if and only if there is none with an index. |
| Tags.NullInInnerLoop | internal/controller/smart_nested_process.go:68-76 | An input: a null field of an inner loop in the second item of the outer one ends as `<nil_2>`. |
| Tags.MapTagsTwice | internal/controller/smart_nested_process.go:42-78 | On tag-complete text and clean data, scanning the outcome of one series of passes with a second series is one scan with both, and the outcome is tag-complete again. |
| Tags.ResolvedAtFirstMatch | internal/controller/smart_nested_process.go:42-78 | A placeholder takes its value at the first level, innermost outward, that matches the name as the levels inside it have suffixed it. |
| Tags.UnresolvedCollectsIndices | internal/controller/smart_nested_process.go:42-78 | A placeholder that matches at no level ends with the indices of all of them, the innermost first. |
| Tags.SuffixIsNoMarker | internal/controller/smart_nested_process.go:47-49 | An index suffix never turns a name into a marker word. |
| Tags.TrimKeepsComplete | internal/controller/smart_nested_process.go:488-488 | Trimming the file first keeps a template tag-complete. |
| Loops.FindTopLevelLoops | internal/controller/smart_nested_process.go:144-192 | The scanning loop computes the sequence of outermost blocks, or the first header or end-marker error. |
| Loops.ReadBlock | internal/controller/smart_nested_process.go:155-187 | The block that opens at a start marker, or why there is none. |
| Loops.ScanToMatchingEnd | internal/controller/smart_nested_process.go:165-181 | The depth-counting loop finds the offset after the end marker of the block it is in, or that there is none. |
| Loops.FoundInOrder | internal/controller/smart_nested_process.go:144-192 | For every text that parses, blocks are in range, ordered and disjoint, each is laid out as marker, header, body and end marker, and no start marker lies in a gap. |
| Loops.BlocksRebuildText | internal/controller/smart_nested_process.go:144-192 | For every text that parses, gaps, headers, bodies and end markers concatenate to exactly that text. |
| Loops.FindLoopsShift | internal/controller/smart_nested_process.go:369-369 | Parsing the text after any offset finds the same blocks as parsing on from there, moved by the offset, and fails when that fails. |
| LoopDepth.MatchEndIsFirstReturn | internal/controller/smart_nested_process.go:165-181 | The scan stops at the first end marker after which the depth, counted marker by marker over all offsets, is zero, and gives up exactly when there is none. |
| LoopDepth.ReturnIsMatchEnd | internal/controller/smart_nested_process.go:165-181 | An end marker with that property is the one the scan finds. |
| LoopDepth.BlocksEndAtFirstReturn | internal/controller/smart_nested_process.go:144-192 | Every block of a text that parses ends at the first point where the depth after its header is back to zero. |
| LoopTrees.BalancedParses | internal/controller/smart_nested_process.go:144-192 | A text with legal headers whose depth never falls below zero and ends at zero parses. |
| LoopTrees.WellFormedAtEveryDepth | internal/controller/smart_nested_process.go:279-282 | If a text with legal headers parses, every body at every depth parses. |
| LoopTrees.ParseUndoesPrint | internal/controller/smart_nested_process.go:144-192 | Parsing the printed form of any tree of alternating texts and loops, recursively, gives the tree back with its loop names in upper case. Texts hold no marker and may hold any other `<`; a name holds no `>` and makes no marker with its brackets, and may be empty. |
| LoopTrees.PrintUndoesParse | internal/controller/smart_nested_process.go:144-192 | Any text that parses at every depth is exactly the printed form of a tree, and parses to that tree with its loop names in upper case. |
| Rendering.LoopAgrees | internal/controller/smart_nested_process.go:267-302 | A rendered block, scanned again by all the enclosing passes, is the one-pass evaluation of its tree with those passes outside its own. |
| Rendering.BodyAgrees | internal/controller/smart_nested_process.go:307-321 | The same for a body once: its nested loops first and the item's own pass over all of that text equal one scan of each piece with all passes. |
| RenderingFacts.RenderingIsEvaluation | internal/controller/smart_nested_process.go:267-344 | For tag-complete templates with legal headers and clean data, rendering by offsets and re-scanning computes what the one-pass evaluator computes on the template's tree, errors included. |
| RenderingFacts.RenderingAgrees | internal/controller/smart_nested_process.go:267-344 | The same with any further passes scanning the output: they are passes around the whole tree; and the output is tag-complete again. |
| RenderingFacts.RenderingFailsIffNoList | internal/controller/smart_nested_process.go:267-344 | A template with legal headers that parses fails to render exactly when a loop the evaluation reaches names no list, and then with that error. |
| RenderingFacts.NoMarkerSurvives | internal/controller/smart_nested_process.go:267-344 | A balanced tag-complete template with legal headers, rendered in place over clean data, leaves no loop marker in the output. |
| RenderingLaws.InlineConcat | internal/controller/smart_nested_process.go:330-344 | Two texts one after the other render to their renderings one after the other, loops and errors included. |
| RenderingLaws.PlaceholderOutsideLoops | internal/controller/smart_nested_process.go:330-344 | Outside every loop a placeholder that names a scalar field of the spec becomes its text, and one that names no field stays exactly as it is, without a suffix. |
| RenderingLaws.PlaceholderBetween | internal/controller/smart_nested_process.go:330-344 | That holds wherever the placeholder stands between texts that parse. |
| RenderingLaws.BodyConcat | internal/controller/smart_nested_process.go:307-321 | In the body of a loop two texts become what they become alone, one after the other. |
| RenderingLaws.PlaceholderInLoops | internal/controller/smart_nested_process.go:267-321 | Inside loops of any depth, for each choice of an item at every level, the output contains what the placeholder becomes when the items scan it from the innermost outward. |
| RenderingLaws.UnmatchedInLoops | internal/controller/smart_nested_process.go:267-321 | A placeholder no level matches ends as `<T_id_..._i1>`, the items counted from 1, innermost first. |
| RenderingLaws.OwnFieldInLoops | internal/controller/smart_nested_process.go:267-321 | A placeholder with the cumulative path of a scalar field of its own item becomes the text of that field. |
| Engine.RenderLoop | internal/controller/smart_nested_process.go:267-302 | Computes the rendering of a block for every list, item and nesting, and ends on all of them. |
| Engine.RenderBlockBody | internal/controller/smart_nested_process.go:307-321 | Computes the rendering of a body for one item: nested loops in place, then the item's pass. |
| Engine.RenderInPlace | internal/controller/smart_nested_process.go:330-344 | Computes the rendering of a text with all its blocks in place and the gaps against the root of the spec. |
| Engine.SplitIntoFiles | internal/controller/smart_nested_process.go:353-408 | On success the directory is the old one without the template and with one file for each non-null item holding that item's rendering. It fails exactly as the code does: the head names no list, the body does not parse, the first item that does not render or cannot be written, with the files of all items before it in place, or the final removal after all files are written; the template is then as it was and nothing but generated files changed. On a reliable disk only the first kinds are left. |
| Engine.WriteAndEnsureDotTf | internal/controller/smart_nested_process.go:462-476 | On success the template is replaced by its rendering under the final name; no third file ever changes; on an error the template is as it was, unless the failed write was to the template itself. |
| Engine.SmartNestedProcess | internal/controller/smart_nested_process.go:478-509 | On success the template has been split over its head loop, when it starts with one, or rendered in place. Every error is tied to its cause: the read, the parse error, the split's, the rendering error, or the write or removal, where no third file changes; the template's content is then as it was, unless writing it in place failed. |
| Splitting.SiblingsAreTheRest | internal/controller/smart_nested_process.go:369-373 | The blocks found in the text after the head block are the template's other blocks, moved. |
| Splitting.SplitRefinesInline | internal/controller/smart_nested_process.go:330-405 | The inline rendering of a template that starts with a loop is the head loop's bodies for all items followed by the text all generated files end with, errors included. |
| Splitting.SplitFilesMakeInlineText | internal/controller/smart_nested_process.go:384-405 | When a template renders inline, every non-null item's file renders too, and the main parts of the files in order, then the shared part once, are the inline text. |
| FileNames.NamesAgreeIff | internal/controller/controller.go:66-82 | Splitting the final name into base and extension gives what splitting the template's name gave, if and only if that name does not end in `.tmpl.tmpl`. |
| FileNames.SplitOfJoined | internal/controller/rule_helpers.go:21-34 | A base and an extension other than `.tmpl` are recovered from their concatenation. |
| FileNames.IndexedNamesDistinct | internal/controller/rule_helpers.go:48-51 | Different items get different files. |
| FileNames.ItemFileName | internal/controller/rule_helpers.go:48-51 | An item's file is the base name, an underscore, digits that read as the item's number counted from 1, and the extension, from the template's name and from the renamed one. |
| FileNames.FirstFileIsNumberOne | internal/controller/rule_helpers.go:48-51 | An input: the first file of `x.tf.tmpl` is `x_1.tf`. |
| FileNames.IndexedIsNotTemplate | internal/controller/smart_nested_process.go:400-407 | No generated file has the template's name, so removing the template removes none of them. |
| FileNames.FinalNameEndsInTf | internal/controller/rule_helpers.go:21-34 | The final name ends in `.tf` if and only if the name without `.tmpl` has the extension `.tf` or none. |
| FileNames.JsonStaysJson | internal/controller/rule_helpers.go:21-34 | An input: `x.json.tmpl` becomes `x.json`. |
| Disks.Disk.WriteFile | internal/controller/smart_nested_process.go:466-468 | A write gives the file its content, or fails and leaves any content or none under that one name. |
| Disks.Disk.Remove | internal/controller/smart_nested_process.go:470-474 | A removal takes away exactly that file, or fails and changes nothing; a missing file is an error of its own. |
| Replacements.ModifyFileValue | internal/controller/file_utils.go:149-182 | On success the file holds its old content with the replacements made one after the other; no other file changes, on a read error none. |
| Replacements.ReplaceIsPass | internal/controller/file_utils.go:159-162 | On tag-complete text, replacing all occurrences of a bracketed name is one scan for that placeholder. |
| Replacements.OrderDoesNotMatter | internal/controller/file_utils.go:159-162 | On tag-complete text, where no value holds the placeholder of another name or ends in the beginning of one, every order of the replacements gives the text that one simultaneous substitution gives. Clean values are of that kind. |
| Replacements.OrderNeverShowsIff | internal/controller/file_utils.go:159-162 | For two names, the two orders give the same on every tag-complete text if and only if for each of them its value neither holds the other's placeholder nor ends in the beginning of it, or the other is replaced by itself. |
| Replacements.CleanIsApart | internal/controller/file_utils.go:159-162 | Values without `<` bring no placeholder. |
| Replacements.OrderMattersWithBrackets | internal/controller/file_utils.go:159-162 | An input: with a value `<`, one order gives another file than the other. |
| Replacements.TwiceIsOnce | internal/controller/file_utils.go:159-162 | Making the replacements again, in any order, changes nothing. |
| Replacements.HoldsAfterPass | internal/controller/file_utils.go:159-162 | On tag-complete text and clean values, filling leaves exactly the placeholders that have no value. |
| Replacements.UnchangedIffNoneHeld | internal/controller/file_utils.go:159-162 | Filling changes a text if and only if it holds a placeholder that has a value. |
| Replacements.PassAround | internal/controller/file_utils.go:159-162 | Where a placeholder with a value stood, filling puts that value, between what the texts around it become. |
| Replacements.ReplaceEmpty | internal/controller/file_utils.go:159-162 | An input: an empty text is found in front of every character and at the end. |
| Rules.ValidateFields | internal/controller/rule_config_driven.go:432-461 | Reports exactly the fields that are validated and mapped and are missing though required, or whose text the check of their kind (int, bool, cidr, ip, enum) or the pattern refuses; another kind refuses nothing. |
| Rules.ValidateItem | internal/controller/rule_config_driven.go:404-423 | The same for the fields of one list item; an item that is no object has no problem. |
| Rules.ValidateEngineLists | internal/controller/rule_config_driven.go:387-430 | Reports exactly the validated paths that hold something other than a list and the unacceptable fields of list items; an absent list is no problem. |
| Rules.RuleValidIff | internal/controller/rule_config_driven.go:223-263 | A rule accepts a resource if and only if no engine list has a problem and no field it writes has one, for the resource or for each object of the list its list field must name. |
| Rules.BuildMods | internal/controller/rule_config_driven.go:305-315 | Gives, in some order and once each, the bracketed suffixed tags with their looked-up texts, "" for a path that leads nowhere. |
| Rules.FileAndPlaceholderNumbers | internal/controller/rule_config_driven.go:271-277 | The number in an item's file name is the one the engine and the rule put on its placeholders. |
| Rules.ModValueOf | internal/controller/rule_config_driven.go:305-315 | The suffixed tag stands for the text at its mapped path, and no two tags collide under a suffix. |
| Rules.ApplyConfigDrivenRule | internal/controller/rule_config_driven.go:223-280 | If any check fails for the resource or any object of its list, it returns an error and no file has changed; if all hold, it fails only when a file it works on cannot be read or written, and not at all on a reliable disk that has those files; on success every item's file, or the one file, is filled and all others are unchanged. |
| Rules.ApplyToFile | internal/controller/rule_config_driven.go:233-239 | Without a list field: refused without any change exactly when a check fails; else the one file is filled, or could not be read or written; no other file changes. |
| Rules.ValidateRuleItems | internal/controller/rule_config_driven.go:249-263 | The first pass accepts the list if and only if every object of it passes every check. |
| Rules.ApplyToItems | internal/controller/rule_config_driven.go:265-280 | The second pass fills the file of each object with that object's values, and touches no other file even when it stops early. |
| Rules.CheckedValueIsWritten | internal/controller/rule_config_driven.go:432-461 | Where a tag that is both validated and mapped stood in the file, the filled file has the text at its mapped path, between what the texts around it become; that text is one the check of its kind and its pattern accept, or is empty and not required; the placeholder is nowhere in the file. |
| Rules.CheckedValueIsMapped | internal/controller/rule_config_driven.go:432-461 | The value such a tag stands for is one that passed the check. |
| Rules.FilledInOnePass | internal/controller/file_utils.go:159-162 | A filled file, in whatever order it was filled, is its old text scanned once with all values. |
| Rules.ItemFileKeepsTagIff | internal/controller/rule_config_driven.go:265-280 | After the rule, an item's file holds a mapped placeholder if and only if it did before and the item is no object; the file of an item that is no object is unchanged. |
| Rules.ScalarItemFileIsNotFilled | internal/controller/rule_config_driven.go:265-280 | An input: a list of one scalar, where the rule succeeds and `<T_1>` stays in the file. |
| Operator.ExpandAndApply | internal/controller/controller.go:66-93 | On success the engine has processed the template, every check of the rule held and the rule was applied to the recomputed name. When head loop and list field name the same list, the file of every object of it is there and finished; for a rule without a list field, the one file is the template evaluated with the values around it. In both no mapped placeholder is left, and no loop marker if the template is balanced. Every error is tied to its cause, and when the rule fails on a file only the files it works on have changed. |
| Operator.EngineWroteItemFile | internal/controller/smart_nested_process.go:384-405 | After a split the file of every item that is not null is there and holds that item's text. |
| Operator.RuleFilledItemFile | internal/controller/rule_config_driven.go:265-280 | Given the renamed template, the rule fills exactly the files the engine named after the template, one for each object. |
| Operator.NullItemsAreSkipped | internal/controller/rule_config_driven.go:265-280 | Engine and rule see null at the same indices, and an object where the other sees one. |
| Operator.HeadTagIsFilled | internal/controller/rule_config_driven.go:305-315 | A mapped placeholder that the loop's own item does not resolve is left as `<T_i>` by the engine and ends as that item's looked-up value. |
| Operator.TwoPassesAreOne | internal/controller/rule_config_driven.go:265-280 | Engine and rule together are one evaluation of the head loop's body and of the shared text's tree with the rule's values as one more pass around everything; no placeholder that has a value is left in the file. |
| Operator.GeneratedFileHasNoMarker | internal/controller/smart_nested_process.go:384-405 | No loop marker is left in a file of a split, in the part of the head loop or in the shared one, for a balanced tag-complete template with legal headers and clean data. |
| Operator.SharedTextIsKeptIff | internal/controller/rule_config_driven.go:265-280 | The rule leaves the text the files share as the engine rendered it, if and only if that text holds no placeholder the rule has a value for. |
| Operator.OtherLoopGetsHeadValue | internal/controller/rule_config_driven.go:265-280 | An input: a template of two loops, where the rule puts the head item's value for a placeholder that the other loop left for its own item. |
| Operator.SingleTextIsFinished | internal/controller/controller.go:66-93 | For a rule without a list field, the file ends as the evaluation of the whole template with the rule's values around it, and holds no mapped placeholder. |
| Operator.EveryItemIsFinished | internal/controller/controller.go:66-93 | End to end: when the head loop and the list field name the same list, for every object of it the file the rule opens was written by the engine for that object, ends as that evaluation and holds no mapped placeholder. |
| WorkedTemplates.MappedOutsideLoops | internal/controller/controller.go:66-93 | For a rule without a list field: a mapped placeholder outside every loop that names no field of the spec is in the final file the text at its mapped path, between what the rule makes of the texts around it. |
| WorkedTemplates.SplitOverThreeItems | internal/controller/smart_nested_process.go:384-407 | An input: a template that starts, after an empty line, with a loop over an object, null and an object is replaced by exactly two files, numbers 1 and 3, with these texts. |
| WorkedTemplates.LoopBetweenTexts | internal/controller/smart_nested_process.go:330-344 | An input: the same loop between two texts gives one renamed file with the items in order. |
| WorkedTemplates.RuleOverThreeItems | internal/controller/rule_config_driven.go:265-280 | An input: a rule over that list fills each of the two files with its own item. |
| RuleSources.AddRules | internal/controller/rule_from_configmap.go:55-60 | The rules of a part are all added, or a name that is already taken is found, if and only if there is one. |
| RuleSources.MergeConfigMapRuleSources | internal/controller/rule_from_configmap.go:37-71 | Succeeds if and only if every source parses, no rule is defined twice and the common section at most once; then the result holds what the sources define and nothing else, and the number used is counted. |
| RuleSources.MergeableIff | internal/controller/rule_from_configmap.go:37-71 | Sources merge if and only if every entry `rule.json` parses and any two bring different rules and not both of them common mappings; sources without that entry do not count. |
| RuleSources.UnionIsUnique | internal/controller/rule_from_configmap.go:37-71 | There is only one such result. |
| RuleSources.OrderOfSourcesDoesNotMatter | internal/controller/rule_from_configmap.go:37-71 | Permuting the sources changes neither whether they merge nor the result nor the count. |
| RuleRegistry.Registry.RegisterOperatorRule | internal/controller/operator_rules.go:55-63 | Panics exactly for an empty or taken name, else adds that one rule. |
| RuleRegistry.Registry.SetCommonConfig | internal/controller/common_config.go:63-69 | The mappings become active; none at all bring the built-in ones back. |
| RuleRegistry.BuiltInMappings | internal/controller/common_config.go:41-69 | The built-in mappings are these six, and they are the active ones when a source brings none. |
| RuleRegistry.Registry.ApplyRulesFile | internal/controller/rule_config_driven.go:204-218 | Panics exactly when a rule is nameless or already registered; else all rules are added; a registered rule is never lost or changed, even by a load that panics halfway. |
| RuleRegistry.Registry.LoadFromConfigMaps | internal/controller/rule_from_configmap_client.go:51-73 | Refused exactly when the sources do not merge, and then nothing changes; loaded exactly when they merge and no rule in them is nameless or registered. |
| RuleRegistry.Registry.LoadFromDirectory | internal/controller/rule_config_driven.go:140-186 | The same for the JSON files of a directory tree, refused also when an entry cannot be reached or such a file cannot be read. |
| RuleRegistry.WhatCounts | internal/controller/rule_config_driven.go:145-157 | Files whose name ends in `.json` bring rules, directories and other files do not; such a file that cannot be read, or any entry the walk cannot reach, makes the load fail. |
| RuleRegistry.ReloadWorksIffNoRules | internal/controller/rule_from_configmap_client.go:29-33 | Once loaded, the same sources can be loaded again if and only if they define no rule. |
| RuleRegistry.OneRuleLoadsOnce | internal/controller/rule_from_configmap_client.go:29-33 | An input: one source with one rule loads once and not twice. |
| RuleRegistry.LoadsTheSameInAnyOrder | internal/controller/rule_config_driven.go:137-139 | The order in which sources are delivered decides neither whether they load nor what is registered. |
| UpgradeProtocol.BackupNameIsForever | internal/controller/send_api_request.go:225-262 | In every run of the machine, a backup name that has reached the status stays there and names a stored object whose content was fetched from the firewall. |
| UpgradeProtocol.EmptyContentIsNeverWritten | internal/controller/s3_utils.go:221-256 | In every reachable state, a run that saves the empty content again finds the object there, and what is about to be written was fetched from the firewall. |
| UpgradeProtocol.UpgradesAreSafeAndInOrder | internal/controller/fortigateupdate_controller.go:132-175 | In every reachable state, a run has sent an in-order prefix of the path after its first version, all of it when it ended well, and nothing before the backup was stored, its name persisted and a snapshot of that name taken. |
| UpgradeProgress.EveryRunCanEndWell | internal/controller/fortigateupdate_controller.go:105-180 | From every reachable state, a run that has just started from the newest version can end well with any path: all versions after the first are sent in order, its backup is stored and named in the status, its snapshot was taken. |
| UpgradeProtocol.NothingSentIff | internal/controller/fortigateupdate_controller.go:156-175 | A run that ended well has sent nothing if and only if its path has at most one version. |
| UpgradeProtocol.EmptyPathEndsWell | internal/controller/fortigateupdate_controller.go:125-175 | A reachable state: given a path without steps, a run backs up, takes the snapshot, sends nothing and ends well. |
| UpgradeProtocol.StatusNamesBackupIff | internal/controller/fortigateupdate_controller.go:132-147 | In every run of the machine, the status names a given backup if and only if a status write of a run that had that name went through. |
| UpgradeProtocol.NameIsKeptOnErrorIff | internal/controller/fortigateupdate_controller.go:132-147 | The name a failed run had in hand is in the status if and only if that run, or another one that had the same name, got it written. |
| UpgradeProtocol.NameIsLostOnError | internal/controller/fortigateupdate_controller.go:133-138 | A reachable state: a run failed after it stored its backup, and the status names none. |
| UpgradeProtocol.RetryNamesAnotherBackup | internal/controller/fortigateupdate_controller.go:133-138 | A reachable state: a run failed after it stored its backup, and the status names the backup of the retry instead. |
| UpgradeProtocol.StoreIsAppendOnly | internal/controller/s3_utils.go:221-256 | With one run at a time no stored backup is ever overwritten. |
| UpgradeReconciler.WriteS3Data | internal/controller/s3_utils.go:221-256 | Ends with the object in the store, holding content fetched from the firewall, even when the run has only the empty content to write; or failed, which it does not when nothing disturbs it. |
| UpgradeReconciler.GetFwBackup | internal/controller/send_api_request.go:216-262 | Keeps the name and fetches nothing when the status names a backup, fetches otherwise; ends with that backup in the store or failed. |
| UpgradeReconciler.UpdateStatus | internal/controller/fortigateupdate_controller.go:268-295 | When it goes through, the status holds the backup name of the run and the run the newest version; it does go through when the run held the newest version and nothing disturbs it; else failed. |
| UpgradeReconciler.TriggerSnapshot | internal/controller/upgrade_firewall_ssh.go:61-104 | A snapshot of that name that is found will do, else one is created; ends with it confirmed and really taken, or failed. |
| UpgradeReconciler.BackupForUpgradeFirewall | internal/controller/upgrade_firewall.go:20-56 | Ends with the backup stored, its name in the status and the snapshot taken, or failed. |
| UpgradeReconciler.UpgradeOnce | internal/controller/fortigateupdate_controller.go:156-173 | Sends the next version of the path, and no other, and leaves no snapshot of that name; or failed, which it does not when nothing disturbs it. |
| UpgradeReconciler.UpgradeAlong | internal/controller/fortigateupdate_controller.go:156-175 | The loop skips the first version and goes through the whole rest of the path, and does so when nothing disturbs it. |
| UpgradeReconciler.UpgradeByPath | internal/controller/fortigateupdate_controller.go:132-175 | Backup, snapshot and second status write come before the first version; ends with all versions after the first sent in order, and does so from the newest version when nothing disturbs it. |
| UpgradeReconciler.DoReconcile | internal/controller/fortigateupdate_controller.go:105-180 | Ends, before the last status write, with nothing sent when the firewall is up to date and else with all versions of the path after the first sent in order; or failed, which it does not from the newest version when nothing disturbs it. |
| UpgradeReconciler.Reconcile | internal/controller/fortigateupdate_controller.go:61-103 | From a read that may be stale to the last status write: on success all versions after the first were sent in order, the backup is stored and named, the snapshot was taken; on any outcome a prefix, and nothing without persisted backup and confirmed snapshot. It succeeds when it reads the newest version and nothing disturbs it. |
| UpdatePaths.ViewAtVersion | internal/controller/fortigateupdatepath_controller.go:58-61 | A resource in any cached view is what the event that last concerned it made of it. |
| UpdatePaths.LiveSinceCreated | internal/controller/fortigateupdatepath_controller.go:69-73 | A live resource is in every view since its creation, with the same spec. |
| UpdatePaths.LaterSeesEarlier | internal/controller/fortigateupdatepath_controller.go:69-102 | A run that passed the duplicate check and may still write is not the run of a resource created after a live one for the same upgrade. |
| UpdatePaths.NoTwoAreValid | internal/controller/fortigateupdatepath_controller.go:54-149 | In every interleaving of creations, deletions and reconcile runs over stale caches, no two live resources for the same model, start and target are both valid. |
| UpdatePaths.AloneBecomesValid | internal/controller/fortigateupdatepath_controller.go:54-149 | From every reachable state, a live resource that is not valid and not being deleted, with no other live one of the same model, start and target, can become valid with any steps, and nothing else changes. |
| UpdatePaths.FirstResourceBecomesValid | internal/controller/fortigateupdatepath_controller.go:54-149 | An input: the only resource of a cluster, once created, becomes valid. |
| UpdatePaths.ValidIsForever | internal/controller/fortigateupdatepath_controller.go:118-152 | A valid resource keeps its steps for as long as it lives. |
| UpdatePaths.DeletingIsLeftAlone | internal/controller/fortigateupdatepath_controller.go:63-66 | A resource that is being deleted is not made valid any more, whatever the runs have read before. |
| UpdatePathReconciler.FindDuplicate | internal/controller/fortigateupdatepath_controller.go:75-102 | Finds a duplicate in the listed resources if and only if one of another name has the same model, start and target. |
| UpdatePathReconciler.BuildSteps | internal/controller/fortigateupdatepath_controller.go:130-142 | One step per version of the path, in order, field by field. |
| UpdatePathReconciler.UpdateStatus | internal/controller/fortigateupdatepath_controller.go:166-192 | Writes only over the resource as the run read it, and then the resource is valid with those steps; it does write when nobody else acts and the run read the newest version. |
| UpdatePathReconciler.Reconcile | internal/controller/fortigateupdatepath_controller.go:54-155 | When it writes, the resource is valid with exactly the steps, in order and field by field, of the path the upgrade tool gives for its spec; it does write when it reads the newest version, nobody else acts and no other resource is for the same upgrade; every execution is a run of the machine. |

## Left out

- Specs.NormalizeKeys: gives a new value; that the Go code rewrites slices of the decoded spec in place, which nobody else holds, is not captured.
- Operator.EveryItemIsFinished: assumes mapped tags without brackets and a resource name without `<`, besides the next line and the conditions on the list's path above.
- Rendering.LoopAgrees: assumes tag-complete text, legal headers and clean data, as do all theorems about re-scanning; with a `<` in a value a later replacement can take it together with the text after it (`Replacements.OrderMattersWithBrackets` is an input).
- Specs.PathsNameTheSameList: says nothing about other keys: it assumes keys on the path that are not empty and hold no `.` or `_`, top-level keys without `_`, keys distinct after upper-casing and a first key other than `spec`.
- UpgradeProtocol.BackupNameIsForever: assumes that only backups write to the backup folder of the bucket.
- UpgradeProtocol.UpgradesAreSafeAndInOrder: claims neither that the firmware version never goes down across retries, since each run starts again at the second version of the path, nor that the snapshot is still there, since it is deleted after the first version.
- UpdatePaths.NoTwoAreValid: assumes that specs are not edited.
- UpdatePathReconciler.Reconcile: the search for the path in the vendor's upgrade tool is an answer from outside.
- Characters: texts are sequences of characters, not UTF-8 bytes; upper-casing covers the letters a to z.
- JSON encoding and decoding, and the text `%v` prints for numbers and booleans, which scalars carry ready-made.
- Number, boolean, CIDR and address parsing and user-supplied patterns, which are parameters of the rules.
- The regular-expression engine: the one fixed expression for placeholders is an explicit scanner.
- The texts of error messages and log lines, file permissions, and the order in which problems are reported.
- Kubernetes, S3, HTTP, SSH and Terraform calls, which succeed, fail or lose their reply at will.
- Copying the templates, the common provider and backend replacements and running Terraform after a rule.
- `GetStatusByParams` and its version comparison, which is a linear search, and the resource it creates when it finds none.
- The second status field of a firmware upgrade, conditions and events, requeue timing.
- Deleting the upgrade resource and creating it again, which starts a new history.
- Virtual machines, services, volumes, backup schedules and their webhooks, which are straight-line construction.
