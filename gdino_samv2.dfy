/**
 * test/test_gdino_samv2.py: for every entry of the input directory, in sorted
 * order, keep the segmenter's best-scoring mask, flatten it into a label image
 * and save it under ./gsam2_masks/ with the entry's name. An exception on one
 * entry is caught and the loop goes on with the next.
 */
module GdinoSamv2 {
  import opened Common
  import opened MaskFlatten
  import opened Listing
  import opened Sanity

  /**
   * What the external steps deliver for one directory entry: either one of
   * them (opening the image, detection, box scaling, segmentation) raised, or
   * the segmenter's masks and scores. `saveRaises` says whether
   * `to_save.save(...)` at line 138 raises for this entry, as it does when
   * `./gsam2_masks/` does not exist or PIL cannot write the entry's extension.
   */
  datatype FrameInput =
    | StepRaised
    | Segmented(masks: seq<Mask>, h: nat, w: nat, scores: seq<int>, saveRaises: bool)

  /** The segmenter returns an array of shape (N, h, w). */
  predicate WellFormed(f: FrameInput)
  {
    f.Segmented? ==> IsStack(f.masks, f.h, f.w)
  }

  /** The exceptions one iteration of the loop can raise. */
  datatype FrameError = Raised | NoScores | IndexOutOfRange | FlattenFailed(reason: FlattenError) | SaveFailed

  /** Where the label image for `name` is saved: `'./gsam2_masks/' + img_name`. */
  const OutputDir: string := "./gsam2_masks/"

  /** The image saved for one entry, or the exception its iteration raises. */
  function FrameResult(f: FrameInput): Result<seq<seq<int>>, FrameError>
    requires WellFormed(f)
  {
    match f
    case StepRaised => Err(Raised)
    case Segmented(masks, h, w, scores, saveRaises) =>
      if |scores| == 0 then Err(NoScores)
      else
        var k := FirstMax(scores);
        if k >= |masks| then Err(IndexOutOfRange)
        else
          match Flattened([masks[k]], h, w)
          case Ok(img) => if saveRaises then Err(SaveFailed) else Ok(img)
          case Err(e) => Err(FlattenFailed(e))
  }

  /** An all-zero 480x640 image. */
  function Blank(): seq<seq<int>>
  {
    seq(Height, i requires 0 <= i < Height => seq(Width, j requires 0 <= j < Width => 0))
  }

  /**
   * As written, only the best-scoring mask is flattened, and in a stack of one
   * that mask is the background: an iteration succeeds exactly when there is a
   * score, its `argmax` indexes a mask and the save does not raise, and then
   * the saved image is all zeros.
   */
  lemma SavedImageIsBlank(f: FrameInput)
    requires WellFormed(f)
    ensures FrameResult(f).Ok? <==>
      f.Segmented? && |f.scores| > 0 && FirstMax(f.scores) < |f.masks| && !f.saveRaises
    ensures FrameResult(f).Ok? ==> FrameResult(f).value == Blank()
  {
    if f.Segmented? && |f.scores| > 0 && FirstMax(f.scores) < |f.masks| {
      var stack := [f.masks[FirstMax(f.scores)]];
      BackgroundIsLargestHighest(stack);
      assert Background(stack) == 0;
      forall i, j | 0 <= i < Height && 0 <= j < Width
        ensures Label(stack, 0, i, j) == 0
      {
        LabelIsLowestClaim(stack, 0, i, j);
      }
      forall i | 0 <= i < Height
        ensures LabelImage(stack, 0)[i] == Blank()[i]
      {
      }
    }
  }

  /** One iteration of the loop body (lines 81-139), including the save. */
  method ProcessFrame(f: FrameInput) returns (r: Result<seq<seq<int>>, FrameError>)
    requires WellFormed(f)
    ensures r == FrameResult(f)
  {
    if f.StepRaised? {
      return Err(Raised);
    }
    if |f.scores| == 0 {
      return Err(NoScores);  // np.argmax of an empty sequence
    }
    var index := FirstMax(f.scores);
    if index >= |f.masks| {
      return Err(IndexOutOfRange);
    }
    var resultMasks := [f.masks[index]];
    var flat := Flatten(resultMasks, f.h, f.w);
    match flat
    case Ok(img) =>
      if f.saveRaises {
        return Err(SaveFailed);
      }
      r := Ok(Rows(img));
    case Err(e) =>
      r := Err(FlattenFailed(e));
  }

  /** What the loop saves for one entry: its path and image, or nothing when it raised. */
  function SavedFor(name: string, f: FrameInput): seq<(string, seq<seq<int>>)>
    requires WellFormed(f)
  {
    match FrameResult(f)
    case Ok(img) => [(OutputDir + name, img)]
    case Err(_) => []
  }

  /** Everything the loop saves when it visits `names` in order. */
  function SavedFrames(names: seq<string>, frames: string -> FrameInput): seq<(string, seq<seq<int>>)>
    requires forall n :: WellFormed(frames(n))
  {
    if names == [] then []
    else SavedFrames(names[..|names| - 1], frames) + SavedFor(names[|names| - 1], frames(names[|names| - 1]))
  }

  /** Lines 78-143: visit `sorted(os.listdir(video_dir))`, catching each entry's exception. */
  method ProcessDirectory(listing: seq<string>, frames: string -> FrameInput)
    returns (saved: seq<(string, seq<seq<int>>)>)
    requires forall n :: WellFormed(frames(n))
    ensures saved == SavedFrames(Sort(listing), frames)
  {
    var names := Sort(listing);
    saved := [];
    for k := 0 to |names|
      invariant saved == SavedFrames(names[..k], frames)
    {
      assert names[..k + 1][..k] == names[..k];
      var r := ProcessFrame(frames(names[k]));
      if r.Ok? {
        saved := saved + [(OutputDir + names[k], r.value)];
      }
      // on an exception the loop prints it and moves on to the next entry
    }
    assert names[..|names|] == names;
  }

  /** The loop's output over a concatenation is the two outputs concatenated. */
  lemma {:induction false} SavedFramesAppend(xs: seq<string>, ys: seq<string>, frames: string -> FrameInput)
    requires forall n :: WellFormed(frames(n))
    ensures SavedFrames(xs + ys, frames) == SavedFrames(xs, frames) + SavedFrames(ys, frames)
    decreases |ys|
  {
    if ys != [] {
      var ys' := ys[..|ys| - 1];
      assert (xs + ys)[..|xs + ys| - 1] == xs + ys';
      SavedFramesAppend(xs, ys', frames);
    } else {
      assert xs + ys == xs;
    }
  }

  /**
   * An exception on one entry is isolated: the entries before and after it
   * are saved exactly as if it were not in the listing.
   */
  lemma FailureIsIsolated(before: seq<string>, name: string, after: seq<string>, frames: string -> FrameInput)
    requires forall n :: WellFormed(frames(n))
    requires FrameResult(frames(name)).Err?
    ensures SavedFrames(before + [name] + after, frames) == SavedFrames(before, frames) + SavedFrames(after, frames)
  {
    var upTo := before + [name];
    SavedFramesAppend(before, [name], frames);
    FailedEntrySavesNothing(name, frames);
    assert SavedFrames(upTo, frames) == SavedFrames(before, frames);
    SavedFramesAppend(upTo, after, frames);
  }

  /** A listing of one entry whose iteration raises saves nothing. */
  lemma FailedEntrySavesNothing(name: string, frames: string -> FrameInput)
    requires forall n :: WellFormed(frames(n))
    requires FrameResult(frames(name)).Err?
    ensures SavedFrames([name], frames) == []
  {
    assert [name][..0] == [];
  }

  /** An entry's image is saved exactly when its iteration succeeds, under its own name. */
  lemma {:induction false} SavedExactlySucceeded(names: seq<string>, frames: string -> FrameInput, name: string, img: seq<seq<int>>)
    requires forall n :: WellFormed(frames(n))
    ensures (OutputDir + name, img) in SavedFrames(names, frames) <==>
      name in names && FrameResult(frames(name)) == Ok(img)
    decreases |names|
  {
    if names != [] {
      var init, last := names[..|names| - 1], names[|names| - 1];
      SavedExactlySucceeded(init, frames, name, img);
      assert names == init + [last];
      if OutputDir + name == OutputDir + last {
        assert name == (OutputDir + name)[|OutputDir|..] == last;
      }
    }
  }

  /** Entries are saved in ascending name order, so each at most once. */
  lemma {:induction false} SavedInNameOrder(names: seq<string>, frames: string -> FrameInput)
    requires forall n :: WellFormed(frames(n))
    requires StrictlyAscending(names)
    ensures var s := SavedFrames(names, frames);
      forall a, b :: 0 <= a < b < |s| ==> Below(s[a].0, s[b].0)
    decreases |names|
  {
    if names != [] {
      var init, last := names[..|names| - 1], names[|names| - 1];
      SavedInNameOrder(init, frames);
      var s := SavedFrames(names, frames);
      var t := SavedFrames(init, frames);
      forall a | 0 <= a < |t|
        ensures Below(t[a].0, OutputDir + last)
      {
        SavedPathShape(init, frames, a);
        SavedExactlySucceeded(init, frames, t[a].0[|OutputDir|..], t[a].1);
        var n := t[a].0[|OutputDir|..];
        var i :| 0 <= i < |init| && init[i] == n;
        BelowPrefix(OutputDir, n, last);
      }
    }
  }

  /** Every saved path is `OutputDir` followed by the entry's name. */
  lemma {:induction false} SavedPathShape(names: seq<string>, frames: string -> FrameInput, a: nat)
    requires forall n :: WellFormed(frames(n))
    requires a < |SavedFrames(names, frames)|
    ensures var p := SavedFrames(names, frames)[a].0;
      |OutputDir| <= |p| && p == OutputDir + p[|OutputDir|..]
    decreases |names|
  {
    var init := names[..|names| - 1];
    if a < |SavedFrames(init, frames)| {
      SavedPathShape(init, frames, a);
    }
  }

  /** Why `main` ends with an exception instead of going through the directory. */
  datatype RunError = CheckFailed(reason: CheckError) | SetupRaised

  /**
   * `main`: a failed check aborts the run before any model is loaded. The
   * predictors are built (lines 73 and 76) outside any `try`, so when that
   * raises (`setupRaises`) the run ends before the first entry. Otherwise
   * every entry of the directory is processed.
   */
  method Run(fs: FileSystem, inputDir: string, prompt: string, setupRaises: bool, frames: string -> FrameInput)
    returns (r: Result<seq<(string, seq<seq<int>>)>, RunError>)
    requires forall n :: WellFormed(frames(n))
    ensures SanityCheck(fs, inputDir, prompt).Err? ==> r == Err(CheckFailed(SanityCheck(fs, inputDir, prompt).error))
    ensures SanityCheck(fs, inputDir, prompt).Ok? && setupRaises ==> r == Err(SetupRaised)
    ensures SanityCheck(fs, inputDir, prompt).Ok? && !setupRaises ==>
      r == Ok(SavedFrames(Sort(ListDir(fs, inputDir)), frames))
  {
    var checked := SanityCheck(fs, inputDir, prompt);
    if checked.Err? {
      return Err(CheckFailed(checked.error));
    }
    MainGuardNeverRaises(fs, inputDir, prompt);
    if setupRaises {
      return Err(SetupRaised);
    }
    var saved := ProcessDirectory(ListDir(fs, inputDir), frames);
    r := Ok(saved);
  }
}
