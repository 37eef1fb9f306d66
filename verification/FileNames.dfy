/** The names of the files the engine generates and the rules look up. */
module FileNames {
  import opened GoStrings

  /** `filepath.Ext(path[..i])`: from the last dot of the last path element, "" without one. */
  function ExtBefore(path: string, i: nat): string
    requires i <= |path|
  {
    if i == 0 || path[i - 1] == '/' then ""
    else if path[i - 1] == '.' then path[i - 1..]
    else ExtBefore(path, i - 1)
  }

  function Ext(path: string): string {
    ExtBefore(path, |path|)
  }

  /** The base name and the Terraform extension of a file, with or without a trailing `.tmpl`. */
  function SplitTerraformExt(filename: string): (string, string) {
    var name := TrimSuffix(filename, ".tmpl");
    var ext := Ext(name);
    if ext == "" then (name, ".tf") else (TrimSuffix(name, ext), ext)
  }

  function FinalName(filename: string): string {
    var (base, ext) := SplitTerraformExt(filename);
    base + ext
  }

  /** The file of the item at `index`, which counts from 0; the name counts from 1. */
  function IndexedResourceFile(baseFile: string, index: nat): string {
    var (base, ext) := SplitTerraformExt(baseFile);
    base + "_" + Itoa(index + 1) + ext
  }

  /** A dot and then neither dots nor slashes. */
  ghost predicate IsExt(e: string) {
    e != "" && e[0] == '.' && forall k :: 0 < k < |e| ==> e[k] != '.' && e[k] != '/'
  }

  lemma {:induction false} ExtBeforeShape(path: string, i: nat)
    requires i <= |path| && forall k :: i <= k < |path| ==> path[k] != '.' && path[k] != '/'
    ensures var e := ExtBefore(path, i);
            e != "" ==> IsExt(e) && HasSuffix(path, e)
  {
    if i > 0 && path[i - 1] != '/' && path[i - 1] != '.' {
      ExtBeforeShape(path, i - 1);
    }
  }

  lemma {:induction false} ExtBeforeIs(path: string, e: string, i: nat)
    requires IsExt(e) && HasSuffix(path, e) && |path| - |e| < i <= |path|
    ensures ExtBefore(path, i) == e
  {
    var d := |path| - |e|;
    assert path[d..] == e;
    assert forall k :: d <= k < |path| ==> path[k] == e[k - d];
    if i - 1 > d {
      ExtBeforeIs(path, e, i - 1);
    }
  }

  /** The extension of a path is the suffix of that shape, if it has one. */
  lemma ExtOf(path: string, e: string)
    requires IsExt(e) && HasSuffix(path, e)
    ensures Ext(path) == e
  {
    ExtBeforeIs(path, e, |path|);
  }

  lemma SplitShape(f: string)
    ensures var (base, ext) := SplitTerraformExt(f);
            && IsExt(ext)
            && (Ext(TrimSuffix(f, ".tmpl")) == "" ==> base == TrimSuffix(f, ".tmpl") && ext == ".tf")
            && (Ext(TrimSuffix(f, ".tmpl")) != "" ==> base + ext == TrimSuffix(f, ".tmpl"))
  {
    hide Ext;
    var name := TrimSuffix(f, ".tmpl");
    ExtShape(name);
    if Ext(name) == "" {
      assert IsExt(".tf");
    } else {
      assert name[..|name| - |Ext(name)|] + Ext(name) == name;
    }
  }

  lemma ExtShape(path: string)
    ensures Ext(path) != "" ==> IsExt(Ext(path)) && HasSuffix(path, Ext(path))
  {
    ExtBeforeShape(path, |path|);
  }

  lemma SuffixOfSum(a: string, e: string)
    ensures HasSuffix(a + e, e) && TrimSuffix(a + e, e) == a
  {
    assert (a + e)[|a|..] == e;
    assert (a + e)[..|a|] == a;
  }

  /** A name that no longer ends in `.tmpl` splits into exactly the base and extension it was joined
      from. */
  lemma SplitOfJoined(base: string, ext: string)
    requires IsExt(ext) && ext != ".tmpl"
    ensures SplitTerraformExt(base + ext) == (base, ext)
  {
    var name := base + ext;
    SuffixOfSum(base, ext);
    ExtOf(name, ext);
    assert IsExt(".tmpl");
    if HasSuffix(name, ".tmpl") {
      ExtOf(name, ".tmpl");
    }
  }

  /** The rule recomputes the names from the renamed path: it gets the engine's names for every file
      name that does not end in `.tmpl.tmpl`, and for none that does. */
  lemma NamesAgreeIff(f: string)
    ensures SplitTerraformExt(FinalName(f)) == SplitTerraformExt(f) <==> !HasSuffix(f, ".tmpl.tmpl")
  {
    var (base, ext) := SplitTerraformExt(f);
    SplitShape(f);
    if HasSuffix(f, ".tmpl.tmpl") {
      DoubleTemplate(f);
    } else {
      if ext == ".tmpl" {
        SingleTemplate(f);
      }
      SplitOfJoined(base, ext);
    }
  }

  lemma SingleTemplate(f: string)
    requires SplitTerraformExt(f).1 == ".tmpl"
    ensures HasSuffix(f, ".tmpl.tmpl")
  {
    var name := TrimSuffix(f, ".tmpl");
    SplitShape(f);
    ExtBeforeShape(name, |name|);
    assert HasSuffix(name, ".tmpl");
    if HasSuffix(f, ".tmpl") {
      assert f == name + ".tmpl";
      var stem := name[..|name| - 5];
      assert name == stem + ".tmpl";
      assert f == stem + ".tmpl.tmpl";
      SuffixOfSum(stem, ".tmpl.tmpl");
    }
  }

  lemma DoubleTemplate(f: string)
    requires HasSuffix(f, ".tmpl.tmpl")
    ensures SplitTerraformExt(FinalName(f)) != SplitTerraformExt(f)
  {
    var stem := f[..|f| - 10];
    var name := stem + ".tmpl";
    assert f == stem + ".tmpl.tmpl" == name + ".tmpl";
    SuffixOfSum(name, ".tmpl");
    SuffixOfSum(stem, ".tmpl");
    assert IsExt(".tmpl");
    ExtOf(name, ".tmpl");
    assert SplitTerraformExt(f) == (stem, ".tmpl") && FinalName(f) == name;
    SplitShape(name);
    assert TrimSuffix(name, ".tmpl") == stem;
    var (base, ext) := SplitTerraformExt(name);
    assert Ext(stem) != "" ==> |base| < |stem|;
  }

  lemma SplitOfTemplate(base: string, ext: string)
    requires IsExt(ext)
    ensures SplitTerraformExt(base + ext + ".tmpl") == (base, ext)
  {
    var name := base + ext;
    SuffixOfSum(name, ".tmpl");
    SuffixOfSum(base, ext);
    ExtOf(name, ext);
  }

  /** The file of an item, from the template's name or from the renamed one: base name, underscore, the
      item's number in decimal digits, counted from 1, and the extension. */
  lemma ItemFileName(base: string, ext: string, i: nat) returns (digits: string)
    requires IsExt(ext) && ext != ".tmpl"
    ensures digits != "" && digits[0] != '0' && forall c :: c in digits ==> '0' <= c <= '9'
    ensures ReadDigits(digits, 0) == i + 1
    ensures IndexedResourceFile(base + ext, i) == base + "_" + digits + ext
    ensures IndexedResourceFile(base + ext + ".tmpl", i) == base + "_" + digits + ext
    ensures Ext(base) == "" ==> IndexedResourceFile(base, i) == base + "_" + digits + ".tf"
  {
    hide SplitTerraformExt, Itoa, Ext;
    digits := Itoa(i + 1);
    ItoaReads(i + 1);
    FirstDigit(i + 1);
    SplitOfJoined(base, ext);
    SplitOfTemplate(base, ext);
    if Ext(base) == "" {
      SplitWithoutExt(base);
    }
  }

  lemma SplitWithoutExt(base: string)
    requires Ext(base) == ""
    ensures SplitTerraformExt(base) == (base, ".tf")
  {
    hide Ext;
    if HasSuffix(base, ".tmpl") {
      assert IsExt(".tmpl");
      ExtOf(base, ".tmpl");
      assert false;
    }
  }

  /** An input: the first item's file of `x.tf.tmpl`. */
  lemma FirstFileIsNumberOne()
    ensures IndexedResourceFile("x.tf.tmpl", 0) == IndexedResourceFile("x.tf", 0) == "x_1.tf"
  {
    hide Ext;
    assert "x" + ".tf" + ".tmpl" == "x.tf.tmpl" && "x" + ".tf" == "x.tf";
    assert IsExt(".tf") && ".tf" != ".tmpl";
    SplitOfJoined("x", ".tf");
    SplitOfTemplate("x", ".tf");
    assert Itoa(0 + 1) == "1";
  }

  /** Different items get different files. */
  lemma IndexedNamesDistinct(f: string, i: nat, j: nat)
    requires IndexedResourceFile(f, i) == IndexedResourceFile(f, j)
    ensures i == j
  {
    var (base, ext) := SplitTerraformExt(f);
    var x, y := Itoa(i + 1), Itoa(j + 1);
    var a, b := base + "_" + x + ext, base + "_" + y + ext;
    assert |x| == |y|;
    assert a[|base| + 1..|base| + 1 + |x|] == x;
    assert b[|base| + 1..|base| + 1 + |y|] == y;
    ItoaInjective(i + 1, j + 1);
  }

  /** No generated file has the template's own name, so removing the template removes none of them. */
  lemma IndexedIsNotTemplate(f: string, i: nat)
    ensures IndexedResourceFile(f, i) != f
  {
    var (base, ext) := SplitTerraformExt(f);
    SplitShape(f);
    var name := TrimSuffix(f, ".tmpl");
    var g := IndexedResourceFile(f, i);
    assert g[|base|] == '_';
    assert |g| > |base + ext|;
    if HasSuffix(f, ".tmpl") {
      assert f == name + ".tmpl";
      assert f[|name|] == '.';
      if Ext(name) != "" {
        assert f[|base|] == ext[0];
      }
    }
  }

  /** The final name ends in `.tf` unless the name carries another extension, which is kept. */
  lemma FinalNameEndsInTf(f: string)
    ensures HasSuffix(FinalName(f), ".tf") <==> Ext(TrimSuffix(f, ".tmpl")) in ["", ".tf"]
  {
    var (base, ext) := SplitTerraformExt(f);
    SplitShape(f);
    assert IsExt(".tf");
    SuffixOfSum(base, ext);
    ExtOf(base + ext, ext);
    if HasSuffix(FinalName(f), ".tf") {
      ExtOf(FinalName(f), ".tf");
    }
  }

  /** An input: a template of JSON keeps that extension. */
  lemma JsonStaysJson()
    ensures FinalName("x.json.tmpl") == "x.json" && !HasSuffix(FinalName("x.json.tmpl"), ".tf")
  {
    hide Ext;
    assert "x.json" + ".tmpl" == "x.json.tmpl" && "x" + ".json" == "x.json";
    SuffixOfSum("x.json", ".tmpl");
    SuffixOfSum("x", ".json");
    assert IsExt(".json");
    ExtOf("x.json", ".json");
    assert "x.json"[3..] == "son" && ".tf"[0] == '.';
  }
}
