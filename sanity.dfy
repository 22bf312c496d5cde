/**
 * `sanity_check`, identical in test/test_gdino_samv2.py and
 * test/test_gdino_prompts.py: the input checks each script runs before it
 * loads any model.
 */
module Sanity {
  import opened Common
  import opened Strings
  import opened Paths

  /** The part of the file system the checks look at. */
  datatype FileSystem = FileSystem(dirs: set<string>, files: set<string>, entries: map<string, seq<string>>)

  /** `os.path.isdir(p)`; the empty path is never a directory. */
  predicate IsDir(fs: FileSystem, p: string)
  {
    p != "" && p in fs.dirs
  }

  /** `os.path.isfile(p)`. */
  predicate IsFile(fs: FileSystem, p: string)
  {
    p in fs.files
  }

  /** `os.listdir(d)`. */
  function ListDir(fs: FileSystem, d: string): seq<string>
  {
    if d in fs.entries then fs.entries[d] else []
  }

  /** `f.lower().endswith(('.jpg', '.jpeg', '.png'))`. */
  predicate HasImageSuffix(f: string)
  {
    var l := Lower(f);
    HasSuffix(l, ".jpg") || HasSuffix(l, ".jpeg") || HasSuffix(l, ".png")
  }

  /** The comprehension's condition for one entry `f` of `dir`. */
  predicate IsImageFile(fs: FileSystem, dir: string, f: string)
  {
    IsFile(fs, Join(dir, f)) && HasImageSuffix(f)
  }

  /** `[f for f in names if isfile(join(dir, f)) and <image suffix>]`, order kept. */
  function ImageFiles(fs: FileSystem, dir: string, names: seq<string>): (r: seq<string>)
    ensures forall f :: f in r <==> f in names && IsImageFile(fs, dir, f)
    ensures |r| <= |names|
  {
    if names == [] then []
    else
      var rest := ImageFiles(fs, dir, names[1..]);
      assert forall f :: f in names <==> f == names[0] || f in names[1..];
      if IsImageFile(fs, dir, names[0]) then [names[0]] + rest else rest
  }

  /** The exception each check raises. */
  datatype CheckError = DirectoryMissing(dir: string) | NoImageFiles(dir: string) | PromptMissing

  /**
   * The three checks in their fixed order: a missing directory first, then a
   * directory without image files, then an empty prompt; when all pass the
   * inputs come back unchanged.
   */
  function SanityCheck(fs: FileSystem, inputDir: string, prompt: string): (r: Result<(string, string), CheckError>)
    ensures r == Err(DirectoryMissing(inputDir)) <==> !IsDir(fs, inputDir)
    ensures r == Err(NoImageFiles(inputDir)) <==>
      IsDir(fs, inputDir) && forall f :: f in ListDir(fs, inputDir) ==> !IsImageFile(fs, inputDir, f)
    ensures r == Err(PromptMissing) <==>
      IsDir(fs, inputDir) && (exists f :: f in ListDir(fs, inputDir) && IsImageFile(fs, inputDir, f)) && prompt == ""
    ensures r.Ok? <==>
      IsDir(fs, inputDir) && (exists f :: f in ListDir(fs, inputDir) && IsImageFile(fs, inputDir, f)) && prompt != ""
    ensures r.Ok? ==> r.value == (inputDir, prompt)
  {
    var images := ImageFiles(fs, inputDir, ListDir(fs, inputDir));
    assert images != [] ==> images[0] in images;
    if !IsDir(fs, inputDir) then Err(DirectoryMissing(inputDir))
    else if images == [] then Err(NoImageFiles(inputDir))
    else if prompt == "" then Err(PromptMissing)
    else Ok((inputDir, prompt))
  }

  /**
   * The suffix test ignores case: a name passes exactly when its lower-cased
   * form does.
   */
  lemma ImageSuffixIgnoresCase(f: string)
    ensures HasImageSuffix(f) <==> HasImageSuffix(Lower(f))
  {
    LowerIdempotent(f);
  }

  /**
   * After a passing check both inputs are non-empty, so the second guard in
   * each script's `main` never raises.
   */
  lemma MainGuardNeverRaises(fs: FileSystem, inputDir: string, prompt: string)
    requires SanityCheck(fs, inputDir, prompt).Ok?
    ensures inputDir != "" && prompt != ""
  {
  }
}
