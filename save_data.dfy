/**
 * test/save_data.py: record frames from a robot into
 * `<main>/{rgb,depth,pose}/`, naming the files of the k-th capture after the
 * zero-padded counter `"{:06d}".format(k)`.
 */
module SaveData {
  import opened Common
  import opened Strings
  import opened Paths
  import opened Listing

  // ---------------------------------------------------------------------
  // Decimal text of the frame counter

  function Pow10(k: nat): nat
  {
    if k == 0 then 1 else 10 * Pow10(k - 1)
  }

  /** The number of stems the zero-padded form covers: 10^6. */
  const StemLimit: nat := 1000000

  predicate IsDigit(c: char)
  {
    '0' <= c <= '9'
  }

  predicate AllDigits(s: string)
  {
    forall i :: 0 <= i < |s| ==> IsDigit(s[i])
  }

  function DigitChar(d: nat): char
    requires d < 10
  {
    ('0' as int + d) as char
  }

  function DigitValue(c: char): nat
    requires IsDigit(c)
  {
    c as int - '0' as int
  }

  /** `str(n)` for a non-negative integer. */
  function Decimal(n: nat): string
  {
    if n < 10 then [DigitChar(n)] else Decimal(n / 10) + [DigitChar(n % 10)]
  }

  /** `"{:06d}".format(n)`: the decimal form, left-padded with '0' to six characters. */
  function Stem(n: nat): string
  {
    var d := Decimal(n);
    if |d| >= 6 then d else seq(6 - |d|, _ => '0') + d
  }

  /** `int(s)` for a string of decimal digits. */
  function Parse(s: string): nat
    requires AllDigits(s)
  {
    if s == [] then 0 else Parse(s[..|s| - 1]) * 10 + DigitValue(s[|s| - 1])
  }

  lemma {:induction false} DecimalParses(n: nat)
    ensures AllDigits(Decimal(n)) && Parse(Decimal(n)) == n
  {
    if n >= 10 {
      DecimalParses(n / 10);
      var d := Decimal(n);
      assert d[..|d| - 1] == Decimal(n / 10);
    }
  }

  lemma {:induction false} Pow10AtLeastTen(k: nat)
    requires k >= 1
    ensures Pow10(k) >= 10
  {
    if k > 1 {
      Pow10AtLeastTen(k - 1);
    }
  }

  /** `str(n)` has at most k digits exactly when n < 10^k. */
  lemma {:induction false} DecimalLength(n: nat, k: nat)
    requires k >= 1
    ensures |Decimal(n)| <= k <==> n < Pow10(k)
  {
    Pow10AtLeastTen(k);
    if n >= 10 && k >= 2 {
      DecimalLength(n / 10, k - 1);
    }
  }

  /** Reading a concatenation of digit strings. */
  lemma {:induction false} ParseAppend(x: string, s: string)
    requires AllDigits(x) && AllDigits(s)
    ensures AllDigits(x + s)
    ensures Parse(x + s) == Parse(x) * Pow10(|s|) + Parse(s)
    decreases |s|
  {
    if s == [] {
      assert x + s == x;
    } else {
      var s' := s[..|s| - 1];
      ParseAppend(x, s');
      assert (x + s)[..|x + s| - 1] == x + s';
      var p, q, d, t := Parse(x), Parse(s'), DigitValue(s[|s| - 1]), Pow10(|s'|);
      assert Parse(x + s) == (p * t + q) * 10 + d;
      assert Parse(s) == q * 10 + d;
      ShiftDigit(p, t, q, d);
    }
  }

  /** The arithmetic step of `ParseAppend`: appending one digit on the right. */
  lemma ShiftDigit(p: int, t: int, q: int, d: int)
    ensures (p * t + q) * 10 + d == p * (t * 10) + (q * 10 + d)
  {
  }

  lemma {:induction false} ParseZeros(z: nat)
    ensures AllDigits(seq(z, _ => '0')) && Parse(seq(z, _ => '0')) == 0
  {
    if z > 0 {
      ParseZeros(z - 1);
      assert seq(z, _ => '0')[..z - 1] == seq(z - 1, _ => '0');
    }
  }

  lemma {:induction false} ParseBound(s: string)
    requires AllDigits(s)
    ensures Parse(s) < Pow10(|s|)
  {
    if s != [] {
      ParseBound(s[..|s| - 1]);
    }
  }

  /**
   * For 0 <= n < 10^6 the stem is exactly six decimal digits; from 10^6 on it
   * is the plain decimal form; either way `int()` reads n back from it.
   */
  lemma StemShape(n: nat)
    ensures AllDigits(Stem(n)) && Parse(Stem(n)) == n
    ensures n < StemLimit ==> |Stem(n)| == 6
    ensures n >= StemLimit ==> Stem(n) == Decimal(n)
  {
    DecimalParses(n);
    DecimalLength(n, 6);
    assert Pow10(6) == StemLimit;
    var d := Decimal(n);
    if |d| < 6 {
      ParseZeros(6 - |d|);
      ParseAppend(seq(6 - |d|, _ => '0'), d);
    }
  }

  /** Different counts give different stems. */
  lemma StemInjective(a: nat, b: nat)
    requires Stem(a) == Stem(b)
    ensures a == b
  {
    StemShape(a);
    StemShape(b);
  }

  /** Reading a digit string from its first digit. */
  lemma ParseFront(s: string)
    requires AllDigits(s) && s != []
    ensures Parse(s) == DigitValue(s[0]) * Pow10(|s| - 1) + Parse(s[1..])
    ensures Parse(s[1..]) < Pow10(|s| - 1)
  {
    ParseAppend([s[0]], s[1..]);
    assert [s[0]] + s[1..] == s;
    assert [s[0]][..0] == [];
    ParseBound(s[1..]);
  }

  /** A smaller leading digit outweighs any lower-order remainder. */
  lemma LeadingDigitDominates(ds: nat, dt: nat, p: nat, rs: nat, rt: nat)
    requires ds < dt && rs < p
    ensures ds * p + rs < dt * p + rt
  {
    calc {
      ds * p + rs;
    <  ds * p + p;
    == (ds + 1) * p;
    <= { assert ds + 1 <= dt; } dt * p;
    <= dt * p + rt;
    }
  }

  /** Between digit strings of one length, string order is numeric order. */
  lemma {:induction false} BelowMeansSmaller(s: string, t: string)
    ensures AllDigits(s) && AllDigits(t) && |s| == |t| && Below(s, t) ==> Parse(s) < Parse(t)
    decreases |s|
  {
    if AllDigits(s) && AllDigits(t) && |s| == |t| && Below(s, t) {
      ParseFront(s);
      ParseFront(t);
      if s[0] < t[0] {
        LeadingDigitDominates(DigitValue(s[0]), DigitValue(t[0]), Pow10(|s| - 1), Parse(s[1..]), Parse(t[1..]));
      } else {
        BelowMeansSmaller(s[1..], t[1..]);
      }
    }
  }

  /** For counts below 10^6, comparing stems as strings compares the counts. */
  lemma StemOrder(a: nat, b: nat)
    requires a < StemLimit && b < StemLimit
    ensures Below(Stem(a), Stem(b)) <==> a < b
  {
    StemShape(a);
    StemShape(b);
    BelowTotal(Stem(a), Stem(b));
    BelowMeansSmaller(Stem(a), Stem(b));
    BelowMeansSmaller(Stem(b), Stem(a));
  }

  /** The same holds for file names made of a stem and a shared extension. */
  lemma FileNameOrder(a: nat, b: nat, ext: string)
    requires a < StemLimit && b < StemLimit
    ensures Below(Stem(a) + ext, Stem(b) + ext) <==> a < b
  {
    StemOrder(a, b);
    StemOrder(b, a);
    StemShape(a);
    StemShape(b);
    BelowIrreflexive(Stem(a) + ext);
    if a < b {
      BelowExtend(Stem(a), Stem(b), ext, ext);
    } else if b < a {
      BelowExtend(Stem(b), Stem(a), ext, ext);
      BelowAsymmetric(Stem(b) + ext, Stem(a) + ext);
    }
  }

  /** The names of the first n captures in one directory, in capture order. */
  function CaptureNames(n: nat, ext: string): seq<string>
  {
    seq(n, k requires 0 <= k < n => Stem(k) + ext)
  }

  /**
   * A consumer's `sorted(os.listdir(d))` of a directory holding the first n
   * captures (n <= 10^6) lists them in capture order.
   */
  lemma SortedListingIsCaptureOrder(n: nat, ext: string, listing: seq<string>)
    requires n <= StemLimit
    requires NoDuplicates(listing)
    requires forall x :: x in listing <==> x in CaptureNames(n, ext)
    ensures Sort(listing) == CaptureNames(n, ext)
  {
    var names := CaptureNames(n, ext);
    forall i, j | 0 <= i < j < n
      ensures Below(names[i], names[j])
    {
      FileNameOrder(i, j, ext);
    }
    SortIsAscendingArrangement(listing, names);
  }

  // ---------------------------------------------------------------------
  // The recorder

  /** The three files written in one iteration of the save loop. */
  datatype Capture = Capture(pose: string, rgb: string, depth: string)

  /** The name of the main directory: the timestamp when no task is given, else `<slug>-<interval>`. */
  function MainDirName(cwd: string, taskName: Option<string>, timeDelay: string, now: string): string
  {
    match taskName
    case None => Join(cwd, now)
    case Some(task) => Join(cwd, Slug(task) + "-" + timeDelay)
  }

  /** The files of capture k, given the three subdirectories. */
  function CaptureFiles(poseDir: string, colorDir: string, depthDir: string, k: nat): Capture
  {
    Capture(Join(poseDir, Stem(k)) + ".npz", Join(colorDir, Stem(k)) + ".jpg", Join(depthDir, Stem(k)) + ".png")
  }

  /**
   * `SaveData`. The ROS node, the image listener and the start-up sleep are
   * left out; `timeDelay` is the text `str(time_interval)` puts in the
   * directory name, `cwd` stands for `os.getcwd()` and `now` for the
   * formatted current time.
   */
  class DataSaver {
    var taskName: Option<string>
    var timeDelay: string
    var mainDirName: string
    var colorDirName: string
    var depthDirName: string
    var poseDirName: string

    /** The directory layout `create_directory` sets up. */
    predicate Layout(cwd: string, now: string)
      reads this
    {
      && mainDirName == MainDirName(cwd, taskName, timeDelay, now)
      && colorDirName == Join(mainDirName, "rgb")
      && depthDirName == Join(mainDirName, "depth")
      && poseDirName == Join(mainDirName, "pose")
    }

    constructor (taskName: Option<string>, timeDelay: string, cwd: string, now: string)
      ensures this.taskName == taskName && this.timeDelay == timeDelay
      ensures Layout(cwd, now)
    {
      this.taskName := taskName;
      this.timeDelay := timeDelay;
      mainDirName, colorDirName, depthDirName, poseDirName := "", "", "", "";
      new;
      CreateDirectory(cwd, now);
    }

    /** Lines 32-47; the `os.makedirs` calls are left out. */
    method CreateDirectory(cwd: string, now: string)
      modifies this
      ensures taskName == old(taskName) && timeDelay == old(timeDelay)
      ensures Layout(cwd, now)
    {
      if taskName.None? {
        mainDirName := Join(cwd, now);
      } else {
        mainDirName := Join(cwd, Slug(taskName.value) + "-" + timeDelay);
      }
      colorDirName := Join(mainDirName, "rgb");
      depthDirName := Join(mainDirName, "depth");
      poseDirName := Join(mainDirName, "pose");
    }

    /**
     * Lines 49-63, for a run in which `rospy.is_shutdown()` first holds after
     * `captures` iterations: the files written, capture by capture.
     */
    method SaveData(captures: nat) returns (written: seq<Capture>)
      ensures |written| == captures
      ensures forall k :: 0 <= k < captures ==> written[k] == CaptureFiles(poseDirName, colorDirName, depthDirName, k)
    {
      written := [];
      var dataCount := 0;
      while dataCount < captures
        invariant 0 <= dataCount <= captures
        invariant |written| == dataCount
        invariant forall k :: 0 <= k < dataCount ==> written[k] == CaptureFiles(poseDirName, colorDirName, depthDirName, k)
      {
        var stem := Stem(dataCount);
        var pose := Join(poseDirName, stem) + ".npz";
        var rgb := Join(colorDirName, stem) + ".jpg";
        var depth := Join(depthDirName, stem) + ".png";
        written := written + [Capture(pose, rgb, depth)];
        dataCount := dataCount + 1;
      }
    }
  }

  /** A stem is a non-empty relative name. */
  lemma StemIsRelative(k: nat)
    ensures Stem(k) != [] && Stem(k)[0] != '/'
  {
    StemShape(k);
  }

  /**
   * The three files of one capture share the stem of its count: each is
   * `<directory>/<stem><extension>`.
   */
  lemma CaptureSharesStem(poseDir: string, colorDir: string, depthDir: string, k: nat)
    ensures var c := CaptureFiles(poseDir, colorDir, depthDir, k);
      && c.pose == Join(poseDir, Stem(k) + ".npz")
      && c.rgb == Join(colorDir, Stem(k) + ".jpg")
      && c.depth == Join(depthDir, Stem(k) + ".png")
      && BaseName(c.pose) == Stem(k) + ".npz"
      && BaseName(c.rgb) == Stem(k) + ".jpg"
      && BaseName(c.depth) == Stem(k) + ".png"
  {
    StemShape(k);
    StemIsRelative(k);
    JoinAppend(poseDir, Stem(k), ".npz");
    JoinAppend(colorDir, Stem(k), ".jpg");
    JoinAppend(depthDir, Stem(k), ".png");
    BaseNameOfJoin(poseDir, Stem(k) + ".npz");
    BaseNameOfJoin(colorDir, Stem(k) + ".jpg");
    BaseNameOfJoin(depthDir, Stem(k) + ".png");
  }

  /** Files of different captures never collide, so no capture overwrites another. */
  lemma CapturesDistinct(poseDir: string, colorDir: string, depthDir: string, k: nat, l: nat)
    requires k != l
    ensures var a, b := CaptureFiles(poseDir, colorDir, depthDir, k), CaptureFiles(poseDir, colorDir, depthDir, l);
      a.pose != b.pose && a.rgb != b.rgb && a.depth != b.depth
  {
    StemIsRelative(k);
    StemIsRelative(l);
    CaptureSharesStem(poseDir, colorDir, depthDir, k);
    CaptureSharesStem(poseDir, colorDir, depthDir, l);
    var x, y := Stem(k), Stem(l);
    if Join(poseDir, x + ".npz") == Join(poseDir, y + ".npz") {
      JoinCancel(poseDir, x + ".npz", y + ".npz");
      StemSuffixCancel(x, y, ".npz");
      StemInjective(k, l);
    }
    if Join(colorDir, x + ".jpg") == Join(colorDir, y + ".jpg") {
      JoinCancel(colorDir, x + ".jpg", y + ".jpg");
      StemSuffixCancel(x, y, ".jpg");
      StemInjective(k, l);
    }
    if Join(depthDir, x + ".png") == Join(depthDir, y + ".png") {
      JoinCancel(depthDir, x + ".png", y + ".png");
      StemSuffixCancel(x, y, ".png");
      StemInjective(k, l);
    }
  }

  lemma StemSuffixCancel(x: string, y: string, ext: string)
    requires x + ext == y + ext
    ensures x == y
  {
    assert x == (x + ext)[..|x|];
    assert y == (y + ext)[..|y|];
  }

  /** The rgb, depth and pose directories sit directly under the main directory. */
  lemma SubdirectoriesUnderMain(main: string)
    requires main != [] && main[|main| - 1] != '/'
    ensures Join(main, "rgb") == main + "/rgb" && DirName(Join(main, "rgb")) == main
    ensures Join(main, "depth") == main + "/depth" && DirName(Join(main, "depth")) == main
    ensures Join(main, "pose") == main + "/pose" && DirName(Join(main, "pose")) == main
  {
    JoinComponent(main, "rgb");
    JoinComponent(main, "depth");
    JoinComponent(main, "pose");
  }

  /** Whatever the main directory, the three subdirectories are different paths. */
  lemma SubdirectoriesDistinct(main: string)
    ensures Join(main, "rgb") != Join(main, "depth")
    ensures Join(main, "depth") != Join(main, "pose")
    ensures Join(main, "pose") != Join(main, "rgb")
  {
    JoinRelative(main, "rgb");
    JoinRelative(main, "depth");
    JoinRelative(main, "pose");
  }

  /**
   * With a task name, the main directory name ends with the task's slug, a
   * '-' and the interval text, and the slug part holds no space.
   */
  lemma MainDirNamesTask(cwd: string, task: string, timeDelay: string, now: string)
    ensures var m, leaf := MainDirName(cwd, Some(task), timeDelay, now), Slug(task) + "-" + timeDelay;
      |leaf| <= |m| && m[|m| - |leaf|..] == leaf && ' ' !in Slug(task) && |Slug(task)| == |task|
  {
    SlugLength(task);
    SlugHasNoSpace(task);
    var leaf := Slug(task) + "-" + timeDelay;
    if task != [] {
      SlugAt(task, 0);
      assert leaf[0] == Slug(task)[0];
    }
    if leaf[0] != '/' {
      JoinEndsWith(cwd, leaf);
    }
  }
}
