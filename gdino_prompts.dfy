/**
 * test/test_gdino_prompts.py: annotate every image of the input directory and
 * save it, under its own name, in `<parent of input_dir>/out/gdino/<slug>`.
 * One `try` encloses the whole loop, so the first image that raises ends the
 * run for all the images after it.
 */
module GdinoPrompts {
  import opened Common
  import opened Strings
  import opened Paths
  import opened Sanity

  const OutPrefix: string := "out/gdino/"

  /** `out_path_suffix`: the prefix followed by the prompt's slug. */
  function OutPathSuffix(prompt: string): string
  {
    OutPrefix + Slug(prompt)
  }

  /** `out_path = os.path.join(os.path.dirname(input_dir), out_path_suffix)`. */
  function OutPath(imageRoot: string, prompt: string): string
  {
    Join(DirName(imageRoot), OutPathSuffix(prompt))
  }

  /**
   * The output directory ends with `out/gdino/` and the slug of the prompt,
   * which is as long as the prompt and holds no space.
   */
  lemma OutPathNamesPrompt(imageRoot: string, prompt: string)
    ensures var out, suffix := OutPath(imageRoot, prompt), OutPathSuffix(prompt);
      && |suffix| == |OutPrefix| + |prompt|
      && suffix[..|OutPrefix|] == OutPrefix
      && suffix[|OutPrefix|..] == Slug(prompt)
      && ' ' !in suffix
      && |suffix| <= |out| && out[|out| - |suffix|..] == suffix
  {
    var suffix := OutPathSuffix(prompt);
    SlugLength(prompt);
    SlugHasNoSpace(prompt);
    assert suffix[|OutPrefix|..] == Slug(prompt);
    JoinEndsWith(DirName(imageRoot), suffix);
  }

  /**
   * When `input_dir` ends in '/', `os.path.dirname` only strips the slashes,
   * so the output directory `out/gdino/<slug>` is created inside `input_dir`
   * itself.
   */
  lemma OutPathInsideInput(imageRoot: string, prompt: string)
    requires imageRoot != [] && imageRoot[|imageRoot| - 1] == '/'
    ensures var out, suffix := OutPath(imageRoot, prompt), OutPathSuffix(prompt);
      && |suffix| <= |out| && out[|out| - |suffix|..] == suffix
      && StripTrailingSlashes(out[..|out| - |suffix|]) == StripTrailingSlashes(imageRoot)
  {
    var suffix := OutPathSuffix(prompt);
    assert suffix[0] == 'o';
    assert SplitPoint(imageRoot) == |imageRoot|;
    assert imageRoot[..|imageRoot|] == imageRoot;
    var d := DirName(imageRoot);
    if !AllSlashes(imageRoot) {
      StripTrailingSlashesShape(imageRoot);
      assert d == StripTrailingSlashes(imageRoot);
      var out := d + "/" + suffix;
      assert OutPath(imageRoot, prompt) == out;
      assert out[..|out| - |suffix|] == d + "/";
      assert (d + "/")[..|d|] == d;
      assert StripTrailingSlashes(d + "/") == StripTrailingSlashes(d);
    } else {
      assert d == imageRoot;
      var out := d + suffix;
      assert OutPath(imageRoot, prompt) == out;
      assert out[..|out| - |suffix|] == d;
    }
  }

  /**
   * When `input_dir` is named `out`, `os.path.dirname` gives its parent, so
   * `out_path` is `input_dir` followed by `gdino/<slug>`: what precedes
   * `gdino/<slug>` is `input_dir` itself, or `dirname(input_dir) + "/out"`
   * when `input_dir` repeats a slash before `out`.
   */
  lemma OutPathInsideOutDir(imageRoot: string, prompt: string)
    requires BaseName(imageRoot) == OutEntry
    ensures var out, tail := OutPath(imageRoot, prompt), "gdino/" + Slug(prompt);
      && |tail| <= |out| && out[|out| - |tail|..] == tail
      && var p := StripTrailingSlashes(out[..|out| - |tail|]);
         p == imageRoot || p == DirName(imageRoot) + "/" + OutEntry
  {
    var tail := "gdino/" + Slug(prompt);
    assert OutPathSuffix(prompt) == OutEntry + "/" + tail;
    JoinUnderLastComponent(imageRoot, tail);
  }

  /**
   * `os.path.dirname(input_dir)` names `input_dir` itself: its last component
   * is empty (a trailing '/') or '.'.
   */
  predicate OutInsideInput(imageRoot: string)
  {
    BaseName(imageRoot) == "" || BaseName(imageRoot) == "."
  }

  const OutEntry: string := "out"
  const GdinoEntry: string := "gdino"

  /**
   * `f` is a directory that `os.makedirs(out_path)` (line 80) creates directly
   * inside `input_dir`: `out` when `dirname(input_dir)` names `input_dir`
   * itself, `gdino` when `input_dir` is named `out`.
   */
  predicate CreatedInside(imageRoot: string, f: string)
  {
    || (f == OutEntry && OutInsideInput(imageRoot))
    || (f == GdinoEntry && BaseName(imageRoot) == OutEntry)
  }

  /** `os.listdir(input_dir)` at line 85: the entries `sanity_check` saw, plus any directory `os.makedirs` just created inside. */
  ghost predicate ListedAfterMakedirs(fs: FileSystem, imageRoot: string, listing: seq<string>)
  {
    forall f :: f in listing <==> f in ListDir(fs, imageRoot) || CreatedInside(imageRoot, f)
  }

  /** Prompts that differ only in case or in spaces versus '_' share one output directory. */
  lemma PromptsShareOutPath(imageRoot: string)
    ensures OutPath(imageRoot, "A B") == OutPath(imageRoot, "a b") == OutPath(imageRoot, "a_b")
  {
    SlugNotInjective();
  }

  /** The entries the loop gets through: those before the first one whose processing raises. */
  function Survivors(names: seq<string>, raises: string -> bool): seq<string>
  {
    if names == [] || raises(names[0]) then [] else [names[0]] + Survivors(names[1..], raises)
  }

  /** The file each surviving entry is saved to: `os.path.join(out_path, img_file)`. */
  function OutputFiles(outPath: string, names: seq<string>): seq<string>
  {
    seq(|names|, k requires 0 <= k < |names| => Join(outPath, names[k]))
  }

  /**
   * The entries saved are the longest prefix of the listing in which nothing
   * raises: if entry k raises, no entry from k on is saved.
   */
  lemma {:induction false} FirstFailureStopsTheRest(names: seq<string>, raises: string -> bool, k: nat)
    requires k < |names| && raises(names[k])
    ensures |Survivors(names, raises)| <= k
    ensures Survivors(names, raises) == names[..|Survivors(names, raises)|]
    decreases |names|
  {
    if k > 0 && !raises(names[0]) {
      FirstFailureStopsTheRest(names[1..], raises, k - 1);
      assert names == [names[0]] + names[1..];
    }
  }

  /** Without any raising entry, every entry is saved, in listing order. */
  lemma {:induction false} NoFailureSavesAll(names: seq<string>, raises: string -> bool)
    requires forall k :: 0 <= k < |names| ==> !raises(names[k])
    ensures Survivors(names, raises) == names
    decreases |names|
  {
    if names != [] {
      NoFailureSavesAll(names[1..], raises);
      assert names == [names[0]] + names[1..];
    }
  }

  /** Each annotated image keeps the file name of its input. */
  lemma SavedUnderOwnName(outPath: string, names: seq<string>, k: nat)
    requires k < |names| && IsComponent(names[k])
    ensures BaseName(OutputFiles(outPath, names)[k]) == names[k]
  {
    BaseNameOfJoin(outPath, names[k]);
  }

  /**
   * Lines 71-110. `setupRaises` stands for the detector's construction or
   * `os.makedirs` raising; `raises(f)` for any of opening, detecting,
   * annotating or saving image `f` raising (opening raises for a directory
   * entry such as `out`). Returns the files written and
   * whether the handler ran.
   */
  method AnnotateAll(imageRoot: string, prompt: string, listing: seq<string>,
                     setupRaises: bool, raises: string -> bool)
    returns (written: seq<string>, caught: bool)
    ensures setupRaises ==> written == [] && caught
    ensures !setupRaises ==> written == OutputFiles(OutPath(imageRoot, prompt), Survivors(listing, raises))
    ensures !setupRaises ==> (caught <==> exists k :: 0 <= k < |listing| && raises(listing[k]))
  {
    written := [];
    if setupRaises {
      return [], true;
    }
    var outPath := OutPath(imageRoot, prompt);
    var k := 0;
    while k < |listing|
      invariant 0 <= k <= |listing|
      invariant forall i :: 0 <= i < k ==> !raises(listing[i])
      invariant written == OutputFiles(outPath, listing[..k])
    {
      if raises(listing[k]) {
        // the exception leaves the loop; the handler prints it and `main` returns
        FirstFailureStopsTheRest(listing, raises, k);
        PrefixSurvives(listing, raises, k);
        return written, true;
      }
      written := written + [Join(outPath, listing[k])];
      k := k + 1;
    }
    NoFailureSavesAll(listing, raises);
    assert listing[..k] == listing;
    caught := false;
  }

  /** When the first k entries do not raise and entry k does, exactly those k survive. */
  lemma PrefixSurvives(names: seq<string>, raises: string -> bool, k: nat)
    requires k < |names| && raises(names[k])
    requires forall i :: 0 <= i < k ==> !raises(names[i])
    ensures Survivors(names, raises) == names[..k]
  {
    FirstFailureStopsTheRest(names, raises, k);
    SurvivorsCoverCleanPrefix(names, raises, k);
  }

  lemma {:induction false} SurvivorsCoverCleanPrefix(names: seq<string>, raises: string -> bool, k: nat)
    requires k <= |names|
    requires forall i :: 0 <= i < k ==> !raises(names[i])
    ensures |Survivors(names, raises)| >= k
    ensures Survivors(names, raises)[..k] == names[..k]
    decreases k
  {
    if k > 0 {
      SurvivorsCoverCleanPrefix(names[1..], raises, k - 1);
    }
  }

  /**
   * `main`: a failed check aborts before any model is loaded; otherwise the
   * single-`try` loop runs over `listing`, what `os.listdir(input_dir)`
   * returns after `os.makedirs(out_path)`, in the order it returns it.
   */
  method Run(fs: FileSystem, inputDir: string, prompt: string, setupRaises: bool,
             listing: seq<string>, raises: string -> bool)
    returns (r: Result<(seq<string>, bool), CheckError>)
    requires ListedAfterMakedirs(fs, inputDir, listing)
    ensures SanityCheck(fs, inputDir, prompt).Err? ==> r == Err(SanityCheck(fs, inputDir, prompt).error)
    ensures SanityCheck(fs, inputDir, prompt).Ok? && setupRaises ==> r == Ok(([], true))
    ensures SanityCheck(fs, inputDir, prompt).Ok? && !setupRaises ==>
      && r.Ok?
      && r.value.0 == OutputFiles(OutPath(inputDir, prompt), Survivors(listing, raises))
      && (r.value.1 <==> exists k :: 0 <= k < |listing| && raises(listing[k]))
  {
    var checked := SanityCheck(fs, inputDir, prompt);
    if checked.Err? {
      return Err(checked.error);
    }
    var written, caught := AnnotateAll(inputDir, prompt, listing, setupRaises, raises);
    r := Ok((written, caught));
  }

  /**
   * A directory `os.makedirs` created inside `input_dir` is listed; opening it
   * raises, so the run ends there: no entry from its position on is
   * annotated, and the handler runs.
   */
  lemma CreatedEntryEndsRun(fs: FileSystem, inputDir: string, listing: seq<string>, raises: string -> bool, f: string)
    requires ListedAfterMakedirs(fs, inputDir, listing)
    requires CreatedInside(inputDir, f) && raises(f)
    ensures f in listing
    ensures forall k :: 0 <= k < |listing| && listing[k] == f ==> |Survivors(listing, raises)| <= k
  {
    forall k | 0 <= k < |listing| && listing[k] == f
      ensures |Survivors(listing, raises)| <= k
    {
      FirstFailureStopsTheRest(listing, raises, k);
    }
  }
}
