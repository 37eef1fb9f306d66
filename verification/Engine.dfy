/** The template engine as it runs: loops over blocks and items, and the files it writes. */
module Engine {
  import opened GoStrings
  import opened Results
  import opened Specs
  import opened Tags
  import opened Loops
  import R = Rendering
  import opened FileNames
  import opened Disks
  import opened Splitting

  // ---- Rendering -------------------------------------------------------------------------------

  /** A rendering whose beginning `b` is already written. */
  ghost function After(b: string, r: Result<string>): Result<string> {
    if r.Ok? then Ok(b + r.value) else r
  }

  lemma AfterMore(b: string, first: string, rest: Result<string>)
    ensures After(b + first, rest) == After(b, After(first, rest))
  {
    if rest.Ok? {
      assert (b + first) + rest.value == b + (first + rest.value);
    }
  }

  lemma AfterNothing(r: Result<string>)
    ensures After("", r) == r
  {
    assert r.Ok? ==> "" + r.value == r.value;
  }

  method RenderLoop(blk: Block, parentMap: Fields, basePath: string) returns (r: Result<string>)
    ensures r == R.RenderLoop(blk, parentMap, basePath)
    decreases |blk.body|, 1
  {
    hide ListAt, FindLoops, R.RenderBody;
    var listData := ResolveListPath(parentMap, blk.tag);
    if listData.None? {
      return Err(NoList(blk.tag));
    }
    var list := listData.value;
    var subPath := if basePath == "" then blk.tag else basePath + "_" + blk.tag;
    var found := FindTopLevelLoops(blk.body);
    if found.Err? {
      return Err(found.error);
    }
    var nested := found.value;
    var b := "";
    AfterNothing(R.RenderItems(blk.body, nested, list, 0, subPath));
    for i := 0 to |list|
      invariant Fit(blk.body, 0, nested)
      invariant R.RenderItems(blk.body, nested, list, 0, subPath) ==
                After(b, R.RenderItems(blk.body, nested, list, i, subPath))
    {
      var item := ResolveItem(list[i]);
      if item.None? {
        continue;
      }
      var rendered := RenderBlockBody(blk.body, nested, item.value, subPath, i + 1);
      if rendered.Err? {
        return Err(rendered.error);
      }
      AfterMore(b, rendered.value, R.RenderItems(blk.body, nested, list, i + 1, subPath));
      b := b + rendered.value;
    }
    assert b + "" == b;
    r := Ok(b);
  }

  method RenderBlockBody(body: string, nested: seq<Block>, itemMap: Fields, path: string, index: nat)
    returns (r: Result<string>)
    requires Fit(body, 0, nested)
    ensures r == R.RenderBody(body, nested, itemMap, path, index)
    decreases |body|, 0
  {
    hide R.RenderLoop, MapTags;
    var b := "";
    var pos: nat := 0;
    assert nested[0..] == nested;
    AfterNothing(R.RenderNested(body, nested, 0, itemMap, path));
    for k := 0 to |nested|
      invariant Fit(body, pos, nested[k..])
      invariant R.RenderNested(body, nested, 0, itemMap, path) ==
                After(b, R.RenderNested(body, nested[k..], pos, itemMap, path))
    {
      var nb := nested[k];
      assert nested[k..][0] == nb && nested[k..][1..] == nested[k + 1..];
      var rendered := RenderLoop(nb, itemMap, path);
      if rendered.Err? {
        return Err(rendered.error);
      }
      AfterMore(b, body[pos..nb.start] + rendered.value, R.RenderNested(body, nested[k + 1..], nb.end, itemMap, path));
      b := b + (body[pos..nb.start] + rendered.value);
      pos := nb.end;
    }
    b := b + body[pos..];
    var text := ProcessVariables(b, index, itemMap, path);
    r := Ok(text);
  }

  method RenderInPlace(content: string, blocks: seq<Block>, specMap: Fields) returns (r: Result<string>)
    requires Fit(content, 0, blocks)
    ensures r == R.RenderTop(content, blocks, 0, specMap)
  {
    hide R.RenderLoop, MapTags;
    var b := "";
    var pos: nat := 0;
    assert blocks[0..] == blocks;
    AfterNothing(R.RenderTop(content, blocks, 0, specMap));
    for k := 0 to |blocks|
      invariant Fit(content, pos, blocks[k..])
      invariant R.RenderTop(content, blocks, 0, specMap) == After(b, R.RenderTop(content, blocks[k..], pos, specMap))
    {
      var blk := blocks[k];
      assert blocks[k..][0] == blk && blocks[k..][1..] == blocks[k + 1..];
      var gap := ProcessVariablesNoSuffix(content[pos..blk.start], specMap, "");
      var rendered := RenderLoop(blk, specMap, "");
      if rendered.Err? {
        return Err(rendered.error);
      }
      AfterMore(b, gap + rendered.value, R.RenderTop(content, blocks[k + 1..], blk.end, specMap));
      b := b + (gap + rendered.value);
      pos := blk.end;
    }
    var tail := ProcessVariablesNoSuffix(content[pos..], specMap, "");
    r := Ok(b + tail);
  }

  // ---- Split mode ------------------------------------------------------------------------------

  /** No file other than those generated for `list` changed. */
  ghost predicate OnlyGeneratedChanged(before: map<string, string>, now: map<string, string>, filename: string,
                                       list: seq<Value>)
  {
    forall n :: !IsGenerated(n, filename, list) ==> (n in now <==> n in before) && (n in now ==> now[n] == before[n])
  }

  /** The files of the items before `k` hold what they should; no file but those of `list` changed. */
  ghost predicate Written(before: map<string, string>, now: map<string, string>, filename: string, list: seq<Value>,
                          k: nat, head: Block, nested: seq<Block>, after: string, siblings: seq<Block>, spec: Fields)
    requires Fit(head.body, 0, nested) && Fit(after, 0, siblings) && k <= |list|
  {
    && OnlyGeneratedChanged(before, now, filename, list)
    && (forall i :: 0 <= i < k && ResolveItem(list[i]).Some? ==>
          && IndexedResourceFile(filename, i) in now
          && ItemFileText(head, nested, after, siblings, spec, ResolveItem(list[i]).value, i + 1) ==
             Ok(now[IndexedResourceFile(filename, i)]))
  }

  /** The directory is the old one with one file for each non-null item of the head loop's list, each
      holding that item's rendering, and without the template. */
  ghost predicate SplitDone(before: map<string, string>, now: map<string, string>, filename: string, content: string,
                            spec: Fields)
  {
    && FindLoops(content, 0).Ok? && FindLoops(content, 0).value != []
    && var head := FindLoops(content, 0).value[0];
       && ListAt(spec, head.tag).Some? && FindLoops(head.body, 0).Ok?
       && head.end <= |content| && FindLoops(content[head.end..], 0).Ok?
       && var list := ListAt(spec, head.tag).value;
          var after := content[head.end..];
          && filename in before && filename !in now
          && Written(before, now[filename := before[filename]], filename, list, |list|, head,
                     FindLoops(head.body, 0).value, after, FindLoops(after, 0).value, spec)
  }

  /** The items before `i` are written, and `error` says why the next one is not: it does not render, or its
      file cannot be written. */
  ghost predicate ItemFails(error: Error, before: map<string, string>, now: map<string, string>, filename: string,
                            list: seq<Value>, i: nat, head: Block, nested: seq<Block>, after: string,
                            siblings: seq<Block>, spec: Fields)
    requires Fit(head.body, 0, nested) && Fit(after, 0, siblings) && i < |list|
  {
    && ResolveItem(list[i]).Some? && Written(before, now, filename, list, i, head, nested, after, siblings, spec)
    && var text := ItemFileText(head, nested, after, siblings, spec, ResolveItem(list[i]).value, i + 1);
       text == Err(error) || (text.Ok? && error == WriteFailed(IndexedResourceFile(filename, i)))
  }

  /** What a split can fail with, and when. */
  ghost predicate SplitFails(error: Error, before: map<string, string>, now: map<string, string>, filename: string,
                             content: string, spec: Fields)
    requires FindLoops(content, 0).Ok? && FindLoops(content, 0).value != []
  {
    var head := FindLoops(content, 0).value[0];
    var found, nested := ListAt(spec, head.tag), FindLoops(head.body, 0);
    if found.None? then error == NoList(head.tag) && now == before
    else if nested.Err? then error == nested.error && now == before
    else
      && head.end <= |content| && FindLoops(content[head.end..], 0).Ok?
      && var list, after := found.value, content[head.end..];
         var siblings := FindLoops(after, 0).value;
         || (exists i :: 0 <= i < |list| &&
               ItemFails(error, before, now, filename, list, i, head, nested.value, after, siblings, spec))
         || (&& Written(before, now, filename, list, |list|, head, nested.value, after, siblings, spec)
             && (error == RemoveFailed(filename) || (error == NotFound(filename) && filename !in now)))
  }

  lemma WriteNext(before: map<string, string>, now: map<string, string>, filename: string, list: seq<Value>, k: nat,
                  head: Block, nested: seq<Block>, after: string, siblings: seq<Block>, spec: Fields, text: string)
    requires Fit(head.body, 0, nested) && Fit(after, 0, siblings) && k < |list|
    requires Written(before, now, filename, list, k, head, nested, after, siblings, spec)
    requires ResolveItem(list[k]).Some?
    requires ItemFileText(head, nested, after, siblings, spec, ResolveItem(list[k]).value, k + 1) == Ok(text)
    ensures Written(before, now[IndexedResourceFile(filename, k) := text], filename, list, k + 1, head, nested, after,
                    siblings, spec)
  {
    hide ItemFileText, IndexedResourceFile, ResolveItem;
    forall i | 0 <= i < k && IndexedResourceFile(filename, i) == IndexedResourceFile(filename, k)
      ensures false
    {
      IndexedNamesDistinct(filename, i, k);
    }
  }

  lemma TemplateIsNotGenerated(filename: string, list: seq<Value>)
    ensures !IsGenerated(filename, filename, list)
  {
    forall i: nat
      ensures IndexedResourceFile(filename, i) != filename
    {
      IndexedIsNotTemplate(filename, i);
    }
  }

  method SplitIntoFiles(disk: Disk, content: string, filename: string, blocks: seq<Block>, specMap: Fields)
    returns (r: Result<()>)
    requires FindLoops(content, 0) == Ok(blocks) && blocks != []
    modifies disk
    ensures r.Ok? ==> SplitDone(old(disk.files), disk.files, filename, content, specMap)
    ensures r.Err? ==> (filename in disk.files <==> filename in old(disk.files))
    ensures r.Err? && filename in disk.files ==> disk.files[filename] == old(disk.files)[filename]
    ensures r.Err? && ListAt(specMap, blocks[0].tag).Some? ==>
              OnlyGeneratedChanged(old(disk.files), disk.files, filename, ListAt(specMap, blocks[0].tag).value)
    ensures r.Err? && ListAt(specMap, blocks[0].tag).None? ==> disk.files == old(disk.files)
    ensures r.Err? ==> SplitFails(r.error, old(disk.files), disk.files, filename, content, specMap)
    ensures r.Err? && disk.reliable && filename in old(disk.files) ==> !IsDiskError(r.error)
  {
    hide ListAt, FindLoops, R.RenderBody, R.RenderTop, Fit, IndexedResourceFile, SplitTerraformExt, Written;
    SiblingsAreTheRest(content, blocks);
    var first := blocks[0];
    var listData := ResolveListPath(specMap, first.tag);
    if listData.None? {
      return Err(NoList(first.tag));
    }
    var list := listData.value;
    var afterFirst := content[first.end..];
    var siblingBlocks := FindTopLevelLoops(afterFirst);
    if siblingBlocks.Err? {
      assert false;
    }
    var nested := FindTopLevelLoops(first.body);
    if nested.Err? {
      return Err(nested.error);
    }
    NothingWritten(old(disk.files), filename, list, first, nested.value, afterFirst, siblingBlocks.value, specMap);
    for i := 0 to |list|
      invariant Written(old(disk.files), disk.files, filename, list, i, first, nested.value, afterFirst,
                        siblingBlocks.value, specMap)
    {
      WrittenFacts(old(disk.files), disk.files, filename, list, i, first, nested.value, afterFirst,
                   siblingBlocks.value, specMap);
      var item := ResolveItem(list[i]);
      if item.None? {
        continue;
      }
      var mainContent := RenderBlockBody(first.body, nested.value, item.value, first.tag, i + 1);
      if mainContent.Err? {
        assert ItemFails(mainContent.error, old(disk.files), disk.files, filename, list, i, first, nested.value,
                         afterFirst, siblingBlocks.value, specMap);
        return Err(mainContent.error);
      }
      var siblingContent := RenderInPlace(afterFirst, siblingBlocks.value, specMap);
      if siblingContent.Err? {
        assert ItemFails(siblingContent.error, old(disk.files), disk.files, filename, list, i, first, nested.value,
                         afterFirst, siblingBlocks.value, specMap);
        return Err(siblingContent.error);
      }
      var newFilename := IndexedFile(filename, i);
      var text := mainContent.value + siblingContent.value;
      WriteNext(old(disk.files), disk.files, filename, list, i, first, nested.value, afterFirst, siblingBlocks.value,
                specMap, text);
      ghost var before := disk.files;
      var written := disk.WriteFile(newFilename, text);
      if written.Err? {
        FailedWrite(old(disk.files), before, disk.files, filename, list, i, first, nested.value, afterFirst,
                    siblingBlocks.value, specMap);
        WrittenFacts(old(disk.files), disk.files, filename, list, i, first, nested.value, afterFirst,
                     siblingBlocks.value, specMap);
        assert ItemFails(written.error, old(disk.files), disk.files, filename, list, i, first, nested.value, afterFirst,
                         siblingBlocks.value, specMap);
        return Err(written.error);
      }
    }
    WrittenFacts(old(disk.files), disk.files, filename, list, |list|, first, nested.value, afterFirst,
                 siblingBlocks.value, specMap);
    ghost var done := disk.files;
    r := disk.Remove(filename);
    assert r.Ok? ==> disk.files[filename := done[filename]] == done;
  }

  lemma NothingWritten(files: map<string, string>, filename: string, list: seq<Value>, head: Block, nested: seq<Block>,
                       after: string, siblings: seq<Block>, spec: Fields)
    requires Fit(head.body, 0, nested) && Fit(after, 0, siblings)
    ensures Written(files, files, filename, list, 0, head, nested, after, siblings, spec)
  {
  }

  /** Meanwhile the template is as it was. */
  lemma WrittenFacts(before: map<string, string>, now: map<string, string>, filename: string, list: seq<Value>, k: nat,
                     head: Block, nested: seq<Block>, after: string, siblings: seq<Block>, spec: Fields)
    requires Fit(head.body, 0, nested) && Fit(after, 0, siblings) && k <= |list|
    requires Written(before, now, filename, list, k, head, nested, after, siblings, spec)
    ensures OnlyGeneratedChanged(before, now, filename, list)
    ensures (filename in now <==> filename in before) && (filename in now ==> now[filename] == before[filename])
    ensures k < |list| && ResolveItem(list[k]).None? ==>
              Written(before, now, filename, list, k + 1, head, nested, after, siblings, spec)
  {
    hide ItemFileText, IndexedResourceFile, ResolveItem;
    TemplateIsNotGenerated(filename, list);
  }

  /** A failed write leaves the files of the items before it as they are. */
  lemma FailedWrite(start: map<string, string>, before: map<string, string>, now: map<string, string>,
                    filename: string, list: seq<Value>, i: nat, head: Block, nested: seq<Block>, after: string,
                    siblings: seq<Block>, spec: Fields)
    requires Fit(head.body, 0, nested) && Fit(after, 0, siblings) && i < |list| && ResolveItem(list[i]).Some?
    requires Written(start, before, filename, list, i, head, nested, after, siblings, spec)
    requires now - {IndexedResourceFile(filename, i)} == before - {IndexedResourceFile(filename, i)}
    ensures Written(start, now, filename, list, i, head, nested, after, siblings, spec)
  {
    hide ItemFileText, IndexedResourceFile, ResolveItem;
    var name := IndexedResourceFile(filename, i);
    assert IsGenerated(name, filename, list);
    forall n | n != name
      ensures (n in now <==> n in before) && (n in now ==> now[n] == before[n])
    {
      assert n in now <==> n in now - {name};
      assert n in before <==> n in before - {name};
    }
    forall j | 0 <= j < i && IndexedResourceFile(filename, j) == name
      ensures false
    {
      IndexedNamesDistinct(filename, j, i);
    }
  }

  method IndexedFile(filename: string, i: nat) returns (name: string)
    ensures name == IndexedResourceFile(filename, i)
  {
    var (base, ext) := SplitTerraformExt(filename);
    name := base + "_" + Itoa(i + 1) + ext;
  }

  // ---- The entry point -------------------------------------------------------------------------

  method WriteAndEnsureDotTf(disk: Disk, templateFilename: string, rendered: string) returns (r: Result<()>)
    requires templateFilename in disk.files
    modifies disk
    ensures r.Ok? ==> disk.files == Renamed(old(disk.files), templateFilename, rendered)
    ensures r.Err? ==> r.error == WriteFailed(FinalName(templateFilename)) || r.error == RemoveFailed(templateFilename)
    ensures r.Err? && !(r.error.WriteFailed? && FinalName(templateFilename) == templateFilename) ==>
              templateFilename in disk.files && disk.files[templateFilename] == old(disk.files)[templateFilename]
    ensures disk.reliable ==> r.Ok?
    ensures disk.files - {templateFilename, FinalName(templateFilename)} ==
            old(disk.files) - {templateFilename, FinalName(templateFilename)}
  {
    hide SplitTerraformExt;
    var (base, ext) := SplitTerraformExt(templateFilename);
    var finalName := base + ext;
    assert finalName == FinalName(templateFilename);
    r := disk.WriteFile(finalName, rendered);
    if r.Err? {
      SameBut(old(disk.files), disk.files, finalName, templateFilename);
      assert finalName != templateFilename ==> templateFilename in disk.files - {finalName};
      return;
    }
    if finalName != templateFilename {
      var removed := disk.Remove(templateFilename);
      if removed.Err? && !removed.error.NotFound? {
        r := Err(removed.error);
      }
    }
  }

  lemma SameBut(before: map<string, string>, now: map<string, string>, a: string, b: string)
    requires now - {a} == before - {a}
    ensures now - {b, a} == before - {b, a}
  {
    assert now - {b, a} == (now - {a}) - {b};
    assert before - {b, a} == (before - {a}) - {b};
  }

  /** The template replaced by its rendering, under its final name. */
  ghost function Renamed(files: map<string, string>, filename: string, rendered: string): map<string, string> {
    var written := files[FinalName(filename) := rendered];
    if FinalName(filename) == filename then written else written - {filename}
  }

  /** The template has been processed: split over its head loop when it starts with one, rendered in
      place otherwise. */
  ghost predicate Processed(before: map<string, string>, now: map<string, string>, filename: string, spec: Fields) {
    && filename in before
    && var content := TrimSpace(before[filename]);
       && FindLoops(content, 0).Ok?
       && var blocks := FindLoops(content, 0).value;
          if blocks != [] && blocks[0].start == 0 then SplitDone(before, now, filename, content, spec)
          else
            && R.RenderTop(content, blocks, 0, spec).Ok?
            && now == Renamed(before, filename, R.RenderTop(content, blocks, 0, spec).value)
  }

  /** What processing a template can fail with, and when. */
  ghost predicate ProcessingFails(error: Error, before: map<string, string>, now: map<string, string>,
                                  filename: string, spec: Fields)
  {
    || (error == ReadFailed(filename) && now == before)
    || (&& filename in before
        && var content := TrimSpace(before[filename]);
           var blocks := FindLoops(content, 0);
           if blocks.Err? then error == blocks.error && now == before
           else if blocks.value != [] && blocks.value[0].start == 0 then
             SplitFails(error, before, now, filename, content, spec)
           else
             var text := R.RenderTop(content, blocks.value, 0, spec);
             if text.Err? then error == text.error && now == before
             else
               && (error == WriteFailed(FinalName(filename)) || error == RemoveFailed(filename))
               && now - {filename, FinalName(filename)} == before - {filename, FinalName(filename)})
  }

  method SmartNestedProcess(disk: Disk, templateFilename: string, rawSpec: Fields)
    returns (r: Result<()>, ghost spec: Fields)
    modifies disk
    ensures UpperCased(Obj(rawSpec), Obj(spec))
    ensures r.Ok? ==> Processed(old(disk.files), disk.files, templateFilename, spec)
    ensures r.Err? ==> ProcessingFails(r.error, old(disk.files), disk.files, templateFilename, spec)
    ensures r.Err? && disk.reliable && templateFilename in old(disk.files) ==> !IsDiskError(r.error)
    ensures r.Err? && templateFilename in old(disk.files)
            && !(r.error == WriteFailed(templateFilename) && FinalName(templateFilename) == templateFilename) ==>
              templateFilename in disk.files && disk.files[templateFilename] == old(disk.files)[templateFilename]
  {
    hide FindLoops, SplitDone, SplitFails, R.RenderTop, FinalName, SplitTerraformExt, TrimSpace, MapTags, UpperCased;
    var normalized := NormalizeSpec(rawSpec);
    var specMapFinal := normalized;
    spec := specMapFinal;
    var contentBytes := disk.ReadFile(templateFilename);
    if contentBytes.Err? {
      r := Err(contentBytes.error);
      return;
    }
    var content := TrimSpace(contentBytes.value);
    var blocks := FindTopLevelLoops(content);
    if blocks.Err? {
      r := Err(blocks.error);
      return;
    }
    if |blocks.value| == 0 {
      var rendered := ProcessVariablesNoSuffix(content, specMapFinal, "");
      NoLoops(content, specMapFinal);
      r := WriteAndEnsureDotTf(disk, templateFilename, rendered);
      return;
    }
    if blocks.value[0].start == 0 {
      r := SplitIntoFiles(disk, content, templateFilename, blocks.value, specMapFinal);
      return;
    }
    var rendered := RenderInPlace(content, blocks.value, specMapFinal);
    if rendered.Err? {
      r := Err(rendered.error);
      return;
    }
    r := WriteAndEnsureDotTf(disk, templateFilename, rendered.value);
  }

  lemma NoLoops(content: string, spec: Fields)
    ensures R.RenderTop(content, [], 0, spec) == Ok(MapTags(content, [R.RootPass(spec)]))
  {
    hide MapTags;
    assert content[0..] == content;
  }

  /** `buildSpecMap` after the JSON has been decoded. */
  method NormalizeSpec(rawSpec: Fields) returns (spec: Fields)
    ensures UpperCased(Obj(rawSpec), Obj(spec))
  {
    var normalized := NormalizeKeys(Obj(rawSpec));
    spec := normalized.fields;
  }
}
