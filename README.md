# robokit perception scripts: a verified model of the repo-owned logic

robokit glues pretrained detectors and segmenters (GroundingDINO, SAM2) to a
few driver scripts. The models themselves are external; what the repository
owns is the logic around them. This Dafny project models that logic and
proves what it guarantees:

- **Instance-mask flattening** (`test/test_gdino_samv2.py`). It counts the
  pixels equal to 1 in every mask of a stack, fills a `box_size` dict from
  index N-1 down to 0, and picks the background with
  `max(box_size, key=box_size.get)`. It then writes `p + 1` over a zero
  480x640 image wherever mask `p` is 1, from `p = N-1` down to 0, skipping
  the background (`flatten.dfy`). Around it sits the per-file loop: keep the
  `np.argmax` mask, flatten, save under `./gsam2_masks/`, catch each entry's
  exception and go on (`gdino_samv2.dfy`).
- **Input validation** `sanity_check`, shared verbatim by
  `test/test_gdino_samv2.py` and `test/test_gdino_prompts.py`
  (`sanity.dfy`).
- **Output directory of the prompt script**: `out/gdino/` + the prompt's
  slug (`prompt.lower().replace(' ', '_')`). It is followed by the image loop
  that sits inside one `try` (`gdino_prompts.dfy`, `strings.dfy`).
- **Frame-counter naming** in `test/save_data.py`. It covers the
  `rgb`/`depth`/`pose` layout and the `"{:06d}"` stems shared by the three
  files of each capture. It also covers how the stems sort when a consumer
  lists the directory (`save_data.dfy`, `listing.dfy`).

`paths.dfy` models `os.path.join`, `basename` and `dirname`. `listing.dfy`
models Python's string order and `sorted`. `common.dfy` holds `Option` and
`Result`.

Facts about the code that shape the model:

- The script keeps only the mask at `np.argmax(scores)`
  (test/test_gdino_samv2.py:104-109). In a stack of one mask, that mask is
  the background, so every saved image is all zeros
  (`GdinoSamv2.SavedImageIsBlank`). The general N-mask flattening of lines
  111-126 is still modelled and proved.
- When several masks share the largest pixel count, the highest index
  becomes the background. The dict is filled from N-1 down, and `max` keeps
  the first maximal key.
- Per-entry errors are isolated in `test_gdino_samv2.py`, where a `try` wraps
  each iteration. In `test_gdino_prompts.py` one `try` wraps the whole loop,
  so the first failing image ends the run.

## Model

| member | source | states |
|---|---|---|
| MaskFlatten.Flatten | test/test_gdino_samv2.py:111-126 | An empty stack raises (`max` of an empty dict). With two or more masks whose shape is not 480x640, `np.where` raises. Otherwise the result is a fresh 480x640 image whose pixel (i, j) is `Label` of the background chosen by `max`. The mask stack is a value and is not changed. |
| MaskFlatten.CountOnes | test/test_gdino_samv2.py:118 | Defines `np.sum(image_array[p] == 1)` as a row-by-row count of pixels equal to 1. Its meaning as a multiplicity is `CountOnesIsMultiplicity`. |
| MaskFlatten.MaxKey | test/test_gdino_samv2.py:120 | `max(d, key=d.get)`: the key is one of the dict's keys, and no key maps to a larger value. The tie rule is `BackgroundIsLargestHighest`. |
| MaskFlatten.Background | test/test_gdino_samv2.py:115-121 | The background is a valid mask index, and no mask has more pixels equal to 1. |
| MaskFlatten.LabelFrom | test/test_gdino_samv2.py:123-126 | Defines a pixel's value after the loop has processed indices N-1 down to p: the value of the lowest non-background mask at or above p covering it, or 0. `LabelFromIsLowestClaim` characterises it. |
| MaskFlatten.Label | test/test_gdino_samv2.py:123-126 | Defines a pixel's final value, `LabelFrom` at index 0. `LabelIsLowestClaim` and `BackgroundNeverLabelled` state what it means. |
| MaskFlatten.LabelImage | test/test_gdino_samv2.py:113-126 | Defines the 480x640 image whose pixel (i, j) is `Label(i, j)`, the image `Flatten` is proved to return. |
| MaskFlatten.Flattened | test/test_gdino_samv2.py:113-126 | Defines the outcome of lines 113-126: `EmptyStack` for no masks, `ShapeMismatch` for two or more masks not of shape 480x640, otherwise the 480x640 image of `Label`s. `Flatten` is proved against it. |
| MaskFlatten.BoxSizes | test/test_gdino_samv2.py:115-119 | The dict loop inserts keys N-1 down to 0 in that order and maps each index to its mask's foreground count. |
| MaskFlatten.CountOnesIsMultiplicity | test/test_gdino_samv2.py:118 | A mask's count is the number of its pixels equal to exactly 1. Pixels with any other value do not count. |
| MaskFlatten.CountRowIsMultiplicity | test/test_gdino_samv2.py:118 | Per row, the count is the multiplicity of the value 1. |
| MaskFlatten.FirstMax | test/test_gdino_samv2.py:120 | The scan used by `max(d, key=d.get)` and `np.argmax` returns a position holding the largest value, and every earlier position holds a strictly smaller one. |
| MaskFlatten.BackgroundIsLargestHighest | test/test_gdino_samv2.py:115-121 | The background has the largest count, and every higher index has a strictly smaller count, so ties go to the highest index. |
| MaskFlatten.LargestHighestUnique | test/test_gdino_samv2.py:115-121 | Only one index satisfies that description, so the background is determined by the counts alone. |
| MaskFlatten.LabelFromIsLowestClaim | test/test_gdino_samv2.py:123-126 | Restricted to indices p and above, a pixel's label is 0 exactly when no non-background mask covers it. Otherwise it is q+1 for the lowest such mask q. |
| MaskFlatten.LabelIsLowestClaim | test/test_gdino_samv2.py:123-126 | Both directions: a pixel holds p+1 exactly when p is the lowest non-background index whose mask is 1 there. It holds 0 exactly when there is no such p. |
| MaskFlatten.BackgroundNeverLabelled | test/test_gdino_samv2.py:123-126 | The label bg+1 never appears. Every label is 0 or p+1 for a non-background p whose mask covers the pixel. Pixels covered only by the background stay 0. |
| MaskFlatten.LowerIndexWins | test/test_gdino_samv2.py:123-126 | Where two non-background masks p < q overlap, the label is at most p+1, so it is never q+1. |
| GdinoSamv2.FrameResult | test/test_gdino_samv2.py:81-139 | Defines one iteration's outcome. It fails if an external step raised, if the scores are empty, if the argmax is out of range, if flattening raised, or if the save raised. Otherwise it is the flattened image of the argmax mask. |
| GdinoSamv2.SavedImageIsBlank | test/test_gdino_samv2.py:104-138 | As written, an iteration succeeds exactly when the scores are non-empty, their argmax indexes a mask and the save does not raise. The saved image is then all zeros. |
| GdinoSamv2.ProcessFrame | test/test_gdino_samv2.py:81-139 | One iteration returns exactly the specified image or the exception: an external step raised, no scores, argmax out of range, a flattening error, or a failing save. |
| GdinoSamv2.ProcessDirectory | test/test_gdino_samv2.py:78-143 | Entries are visited in `sorted` order. Each entry's image is saved unless its iteration raised, and the loop always goes on to the next entry. |
| GdinoSamv2.SavedFor | test/test_gdino_samv2.py:137-143 | Defines what one entry contributes: `(./gsam2_masks/ + name, image)` when its iteration succeeds, and nothing when it raised and the handler caught it. |
| GdinoSamv2.SavedFrames | test/test_gdino_samv2.py:78-143 | Defines the whole loop's output as each entry's contribution, in visiting order. `SavedExactlySucceeded`, `FailureIsIsolated` and `SavedFramesAppend` state its properties. |
| GdinoSamv2.SavedFramesAppend | test/test_gdino_samv2.py:78-143 | The output for a listing split in two is the two outputs concatenated. |
| GdinoSamv2.FailureIsIsolated | test/test_gdino_samv2.py:141-143 | An entry that raises leaves the output of every other entry, before and after it, unchanged. |
| GdinoSamv2.SavedExactlySucceeded | test/test_gdino_samv2.py:137-143 | Both directions: (`./gsam2_masks/`+name, image) is saved exactly when name is listed and its iteration yields that image. |
| GdinoSamv2.SavedInNameOrder | test/test_gdino_samv2.py:78-138 | Over a strictly ascending listing, saved paths come out strictly ascending, so no entry is saved twice. |
| GdinoSamv2.SavedPathShape | test/test_gdino_samv2.py:138 | Every saved path is `./gsam2_masks/` followed by the entry name. |
| GdinoSamv2.Run | test/test_gdino_samv2.py:61-78 | A failing check aborts with its error before any frame is processed. After a passing check, a raise while building the predictors (lines 73, 76) aborts the run before the first entry. Otherwise the result is the loop over the sorted listing. |
| Sanity.SanityCheck | test/test_gdino_samv2.py:148-168 | The checks fail in this fixed order: directory missing, then no listed entry is a file with a case-insensitive .jpg/.jpeg/.png suffix, then empty prompt. Otherwise the inputs come back unchanged. Each failure holds exactly under its condition. The copy at test/test_gdino_prompts.py:114-134 is identical. |
| Sanity.HasImageSuffix | test/test_gdino_samv2.py:159 | Defines `f.lower().endswith(('.jpg', '.jpeg', '.png'))`. `ImageSuffixIgnoresCase` states that case does not matter. |
| Sanity.ImageFiles | test/test_gdino_samv2.py:158-159 | The comprehension keeps exactly the listed names that are files and carry an image suffix. |
| Sanity.ImageSuffixIgnoresCase | test/test_gdino_samv2.py:159 | A name passes the suffix test exactly when its lower-cased form does. |
| Sanity.MainGuardNeverRaises | test/test_gdino_samv2.py:66-68 | After a passing check, both inputs are non-empty, so the second guard in `main` never raises. |
| GdinoPrompts.OutPath | test/test_gdino_prompts.py:76-78 | Defines `join(dirname(input_dir), "out/gdino/" + slug(prompt))`. `OutPathNamesPrompt` states its shape. |
| GdinoPrompts.Survivors | test/test_gdino_prompts.py:87-110 | Defines the entries the single-`try` loop finishes: it takes entries up to, and not including, the first one that raises. `FirstFailureStopsTheRest`, `PrefixSurvives` and `NoFailureSavesAll` state what that means. |
| GdinoPrompts.OutPathNamesPrompt | test/test_gdino_prompts.py:76-78 | The suffix is exactly `out/gdino/` followed by the slug. It is as long as the prefix plus the prompt, holds no space, and ends the joined output path. |
| GdinoPrompts.PromptsShareOutPath | test/test_gdino_prompts.py:77 | "A B", "a b" and "a_b" get the same output directory. |
| GdinoPrompts.AnnotateAll | test/test_gdino_prompts.py:71-110 | A setup failure writes nothing. Otherwise the files written are `join(out_path, f)` for the entries before the first one that raises, in listing order. The handler runs exactly when some entry raises. |
| GdinoPrompts.FirstFailureStopsTheRest | test/test_gdino_prompts.py:71-110 | If entry k raises, no entry from k on is saved, and what is saved is a prefix of the listing. |
| GdinoPrompts.NoFailureSavesAll | test/test_gdino_prompts.py:87-106 | With no raising entry, every entry is saved, in listing order. |
| GdinoPrompts.PrefixSurvives | test/test_gdino_prompts.py:87-108 | When entry k is the first to raise, exactly the first k entries are saved. |
| GdinoPrompts.SurvivorsCoverCleanPrefix | test/test_gdino_prompts.py:87-106 | A raising-free prefix of length k is saved in full: the first k saved entries are exactly the listing's first k entries, in order. |
| GdinoPrompts.SavedUnderOwnName | test/test_gdino_prompts.py:105-106 | Each annotated image keeps its input's file name (the basename of its output path). |
| GdinoPrompts.Run | test/test_gdino_prompts.py:64-110 | A failing check aborts with its error. After a passing check, a setup failure writes nothing and runs the handler. Otherwise the loop runs over `os.listdir(input_dir)` as it is after `os.makedirs(out_path)`: the entries the check saw, plus any directory `os.makedirs` created inside `input_dir` (`out` when `dirname(input_dir)` names `input_dir`, `gdino` when `input_dir` itself is named `out`). The files written are those of its clean prefix, and the handler runs exactly when some entry raises. |
| GdinoPrompts.OutInsideInput | test/test_gdino_prompts.py:76-80 | Defines when `os.makedirs(out_path)` adds `out` to `input_dir`: when `dirname(input_dir)` names `input_dir` itself, because its last component is empty (a trailing '/') or '.'. |
| GdinoPrompts.OutPathInsideInput | test/test_gdino_prompts.py:76-80 | For an `input_dir` ending in '/' (e.g. `data/frames/`), `out_path` is `input_dir`, up to trailing slashes, followed by `out/gdino/<slug>`. |
| GdinoPrompts.CreatedInside | test/test_gdino_prompts.py:76-80 | Defines the entries `os.makedirs(out_path)` adds to `input_dir`: `out` when `OutInsideInput` holds, and `gdino` when `input_dir` is named `out`, so that `out_path` is `input_dir/gdino/<slug>`. |
| GdinoPrompts.ListedAfterMakedirs | test/test_gdino_prompts.py:80-85 | Defines the names `os.listdir(input_dir)` returns after `os.makedirs(out_path)`: exactly the names listed before, plus the `CreatedInside` entries. |
| GdinoPrompts.OutPathInsideOutDir | test/test_gdino_prompts.py:76-80 | For an `input_dir` named `out` (e.g. `data/out`), `out_path` ends in `gdino/<slug>`, and what precedes that is, up to trailing slashes, `input_dir` or `dirname(input_dir) + "/out"`, the same directory. |
| GdinoPrompts.CreatedEntryEndsRun | test/test_gdino_prompts.py:80-91 | An entry that `os.makedirs` created inside `input_dir` (`out` or `gdino`) is listed, and when opening it raises, no entry from its position on is annotated. |
| Paths.JoinUnderLastComponent | test/test_gdino_prompts.py:76-78 | `join(dirname(p), basename(p) + "/" + tail)` ends in `tail`, and what precedes it is, up to trailing slashes, `p` itself or `dirname(p) + "/" + basename(p)`. |
| Paths.DirNameShape | test/test_gdino_prompts.py:76 | `dirname(p)` is either a non-empty path not ending in '/', or p's head up to its last '/', which `basename(p)` completes to p. |
| Paths.JoinUnderParent | test/test_gdino_prompts.py:76-78 | The case of `JoinUnderLastComponent` where `dirname(p)` is non-empty and does not end in '/'. |
| Paths.JoinUnderRoot | test/test_gdino_prompts.py:76-78 | The case of `JoinUnderLastComponent` where `dirname(p)` is empty or ends in '/': the joined path starts with `p` itself. |
| Paths.StripTrailingSlashesShape | test/test_gdino_prompts.py:76 | `rstrip('/')` keeps a prefix and removes only slashes. The result does not end in '/' and is empty only when the input is all slashes. |
| Paths.StripTrailingSlashes | test/test_gdino_prompts.py:76 | Defines `rstrip('/')`, which `dirname` applies to its head. `StripTrailingSlashesShape` states that the result is a prefix followed only by slashes, does not end in '/', and is empty only for all slashes. |
| Strings.Lower | test/test_gdino_prompts.py:77 | Defines `str.lower()` on ASCII letters, one character at a time. `LowerAt` states that it keeps the length and maps each character on its own. |
| Strings.Replace | test/test_gdino_prompts.py:77 | Defines `str.replace` of one character by another. `ReplaceAt` states that it keeps the length and changes exactly the matching characters. |
| Strings.Slug | test/test_gdino_prompts.py:77 | Defines `lower().replace(' ', '_')`, shared with test/save_data.py:38. Its properties are the `Slug*` lemmas. |
| Strings.SlugAt | test/test_gdino_prompts.py:77 | The slug keeps the prompt's length. Character i becomes '_' if it was a space and is lower-cased if it was an upper-case letter; every other character stays in place. |
| Strings.SlugLength | test/test_gdino_prompts.py:77 | The slug has the prompt's length. |
| Strings.SlugHasNoSpace | test/test_gdino_prompts.py:77 | The slug contains no space. |
| Strings.SlugIdempotent | test/test_gdino_prompts.py:77 | Slugging a slug returns it unchanged. |
| Strings.SlugNotInjective | test/test_gdino_prompts.py:77 | "A B", "a b" and "a_b" all slug to "a_b". |
| Strings.LowerAt | test/test_gdino_prompts.py:77 | `lower()` keeps the length and maps each character on its own. |
| Strings.ReplaceAt | test/test_gdino_prompts.py:77 | `replace(' ', '_')` keeps the length and changes exactly the spaces. |
| Strings.HasSuffix | test/test_gdino_samv2.py:159 | Defines `str.endswith` for one suffix: the string's last characters are exactly the suffix. `Sanity.HasImageSuffix` applies it to the three image suffixes. |
| Strings.LowerIdempotent | test/test_gdino_samv2.py:159 | Lower-casing twice is the same as lower-casing once. |
| Paths.Join | test/test_gdino_prompts.py:78 | Defines `posixpath.join` of two parts: an absolute second part replaces the first, and a '/' is inserted unless the first is empty or already ends in one. `JoinComponent`, `JoinEndsWith` and `BaseNameOfJoin` state its properties. |
| Paths.BaseName | test/test_gdino_prompts.py:105 | Defines `posixpath.basename`: the text after the last '/' (via `SplitPoint`). |
| Paths.DirName | test/test_gdino_prompts.py:76 | Defines `posixpath.dirname`: the text up to the last '/', with trailing slashes stripped unless it is all slashes. `JoinComponent` states that it undoes `Join`. |
| Paths.JoinComponent | test/test_gdino_prompts.py:105 | Joining a directory with no trailing '/' and a file name gives `dir/name`. Its basename is the name and its dirname is the directory. |
| Paths.BaseNameOfJoin | test/test_gdino_prompts.py:105 | For any directory, the basename of a joined file name is that name. |
| Paths.JoinEndsWith | test/test_gdino_prompts.py:78 | A relative second argument is kept whole at the end of the joined path. |
| Paths.SplitPoint | test/test_gdino_prompts.py:76 | The split point that `dirname` and `basename` use follows the last '/'. |
| Listing.Below | test/test_gdino_samv2.py:78 | Defines Python's `<` on strings, which `sorted` uses: lexicographic by code point, a proper prefix sorting first. `BelowTotal` and `BelowTransitive` state that it is a strict total order. |
| Listing.Sort | test/test_gdino_samv2.py:78 | `sorted` returns a permutation of the listing in non-descending string order. It is strictly ascending when the listing has no repeated names. |
| Listing.AscendingUnique | test/test_gdino_samv2.py:78 | Two strictly ascending sequences with the same elements are equal. |
| Listing.SortIsAscendingArrangement | test/test_gdino_samv2.py:78 | For a listing without repeats, `sorted` returns the unique strictly ascending arrangement of its names. |
| Listing.BelowTotal | test/test_gdino_samv2.py:78 | Python's string order is total: two different strings compare one way or the other. |
| Listing.BelowTransitive | test/test_gdino_samv2.py:78 | Python's string order is transitive. |
| SaveData.DataSaver.constructor | test/save_data.py:22-30 | The constructor stores the task name and interval, then sets up the directory layout. |
| SaveData.DataSaver.CreateDirectory | test/save_data.py:32-41 | The main directory is `join(cwd, timestamp)` without a task name, or `join(cwd, slug(task) + '-' + interval)` with one. rgb, depth and pose are joined under it. |
| SaveData.DataSaver.SaveData | test/save_data.py:49-63 | `data_count` starts at 0 and goes up by 1 per iteration. Capture k writes `pose/<stem k>.npz`, `rgb/<stem k>.jpg` and `depth/<stem k>.png`, in that order. |
| SaveData.Decimal | test/save_data.py:53 | Defines the decimal digits of n, with no leading zeros. `DecimalParses` and `DecimalLength` state its properties. |
| SaveData.Parse | test/save_data.py:53 | Defines the value of a digit string, the inverse `DecimalParses` and `StemShape` prove. |
| SaveData.Stem | test/save_data.py:53 | Defines `"{:06d}".format(n)`: the decimal digits, left-padded with '0' to six characters. `StemShape`, `StemInjective` and `StemOrder` state its properties. |
| SaveData.MainDirName | test/save_data.py:33-38 | Defines the main directory: `join(cwd, timestamp)` without a task name, else `join(cwd, slug(task) + '-' + interval)`. |
| SaveData.CaptureFiles | test/save_data.py:53-60 | Defines the pose `.npz`, rgb `.jpg` and depth `.png` paths of capture k, each `join(dir, stem(k))` plus the extension. |
| SaveData.DecimalParses | test/save_data.py:53 | `str(n)` is made of decimal digits and `int()` reads n back from it. |
| SaveData.DecimalLength | test/save_data.py:53 | `str(n)` has at most k digits exactly when n < 10^k. |
| SaveData.StemShape | test/save_data.py:53 | For n < 10^6 the stem is exactly six digits. From 10^6 on it is the plain decimal form. Either way it parses back to n. |
| SaveData.StemInjective | test/save_data.py:53 | Different counts give different stems. |
| SaveData.StemOrder | test/save_data.py:53 | For counts below 10^6, string order of the stems is numeric order of the counts, in both directions. |
| SaveData.FileNameOrder | test/save_data.py:59-60 | The same holds for stem+extension file names. |
| SaveData.BelowMeansSmaller | test/save_data.py:53 | For digit strings of one length, the string that sorts first has the smaller value. |
| SaveData.SortedListingIsCaptureOrder | test/save_data.py:50-63 | For up to 10^6 captures, `sorted(os.listdir(...))` of a capture directory lists the files in capture order. |
| SaveData.CaptureSharesStem | test/save_data.py:53-60 | The three files of one capture share the stem of its count: each is `<dir>/<stem><ext>`. |
| SaveData.CapturesDistinct | test/save_data.py:50-63 | Files of different captures never collide. |
| SaveData.SubdirectoriesUnderMain | test/save_data.py:39-41 | rgb, depth and pose are `main/rgb`, `main/depth` and `main/pose`, and each has `main` as its dirname. |
| SaveData.SubdirectoriesDistinct | test/save_data.py:39-41 | For any main directory, the three subdirectories are different paths. |
| SaveData.MainDirNamesTask | test/save_data.py:38 | For any task name, including one starting with '/', the main directory ends with slug + '-' + interval. The slug holds no space and is as long as the task name. |

## Left out

- Model inference is left out: GroundingDINO prediction, `bbox_to_scaled_xyxy`, SAM2 prediction and propagation, DH-YOLO and `annotate`/`overlay_masks`. Their outcome per directory entry is a parameter: `GdinoSamv2.FrameInput`, and the `raises` predicate in `GdinoPrompts.AnnotateAll`. Whether building the predictors raises is the `setupRaises` flag of each script's `Run`.
- File and image I/O is left out: PIL open, convert and save, `cv2.imwrite`, `np.savez`, `os.makedirs`, and printing and logging. A listing, the directory and file sets, the current directory and the timestamp are inputs. Saving is modelled as the returned list of paths and images.
- ROS is left out: `rospy` initialisation, `is_shutdown`, sleeps and the image listener. The run length of the save loop is the parameter `captures`.
- GdinoSamv2.ProcessFrame: a save that raises (line 138) is the `saveRaises` flag of the entry. The model does not derive it from whether `./gsam2_masks/` exists, which the script never creates, or from the extension PIL is asked to write.
- GdinoPrompts.Run: the order of `os.listdir` is an input. Only the set of names it returns is constrained: `ListedAfterMakedirs`, the entries the check saw plus the `out` or `gdino` directory `os.makedirs` created inside `input_dir`. Symbolic links, which could make `dirname(input_dir)` name `input_dir` in other ways, are not modelled.
- MaskFlatten.Flatten: requires at most 255 masks, so that labels fit in the uint8 image. NumPy's behaviour for a label of 256 is not modelled.
- MaskFlatten.Flatten: a stack of two or more masks whose shape is not 480x640 is treated as a raised error. NumPy would broadcast the shapes 1x640, 480x1 and 1x1, and that case is not modelled. Ragged stacks cannot occur, because the segmenter returns an array: `IsStack`.
- MaskFlatten.Flatten: masks are taken after the `uint8` conversion of line 111. How float or bool masks convert is not modelled.
- GdinoSamv2.ProcessFrame: scores are a one-dimensional sequence of integers, standing for a totally ordered score type. NaN scores and multi-dimensional score arrays (where `np.argmax` returns a flat index) are not modelled.
- Strings.Lower: `str.lower()` is modelled for ASCII letters only. Non-ASCII case mapping, which can change a string's length, is not modelled. This also applies to `Strings.Slug` and the lemmas about it.
- Sanity.SanityCheck: the file system is a fixed snapshot. The flags are strings, because absl marks both as required, so the `None` case is not modelled. `os.path.isdir` of the empty path is false.
- SaveData.DataSaver.CreateDirectory: the text of `str(time_interval)` is an input string, and the `datetime` formatting is an input as well. `os.makedirs` failing on an existing directory is not modelled.
- The commented-out area-ratio heuristic (test/test_gdino_samv2.py:128-135) is dead code.
- The other driver scripts (point-prompt, single-box, DH-YOLO and image variants) are left out. They call models and repeat the same `sanity_check`. The copy in test/test_samv2_point_prompts.py has no empty-prompt check, and it is not modelled.
- `setup.py` (dependency and checkpoint installation) and the matplotlib point-collection UI are not part of this model.
