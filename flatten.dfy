/**
 * Instance-mask flattening from test/test_gdino_samv2.py: a stack of N binary
 * masks becomes one labelled 480x640 image in which pixel (i, j) holds p + 1
 * for the lowest-indexed mask p that covers it, except that the largest mask
 * is taken to be background and never written.
 */
module MaskFlatten {
  import opened Common

  /** The size of the zero image the labels are written into. */
  const Height: nat := 480
  const Width: nat := 640

  /** One mask after conversion to uint8, row by row. */
  type Mask = seq<seq<int>>

  predicate IsMask(m: Mask, h: nat, w: nat)
  {
    |m| == h && forall i :: 0 <= i < h ==> |m[i]| == w
  }

  /** An array of shape (N, h, w): every mask has h rows of w pixels. */
  predicate IsStack(masks: seq<Mask>, h: nat, w: nat)
  {
    forall p :: 0 <= p < |masks| ==> IsMask(masks[p], h, w)
  }

  /** Why flattening raises: `max` of an empty dict, or masks `np.where` cannot combine with the image. */
  datatype FlattenError = EmptyStack | ShapeMismatch

  // ---------------------------------------------------------------------
  // Foreground counts: `np.sum(image_array[p] == 1)`

  function CountRow(row: seq<int>): nat
  {
    if row == [] then 0
    else CountRow(row[..|row| - 1]) + (if row[|row| - 1] == 1 then 1 else 0)
  }

  function CountOnes(m: Mask): nat
  {
    if m == [] then 0 else CountOnes(m[..|m| - 1]) + CountRow(m[|m| - 1])
  }

  /** The pixels of a mask in row-major order. */
  function Pixels(m: Mask): seq<int>
  {
    if m == [] then [] else Pixels(m[..|m| - 1]) + m[|m| - 1]
  }

  lemma {:induction false} CountRowIsMultiplicity(row: seq<int>)
    ensures CountRow(row) == multiset(row)[1]
  {
    if row != [] {
      CountRowIsMultiplicity(row[..|row| - 1]);
      assert row == row[..|row| - 1] + [row[|row| - 1]];
    }
  }

  /**
   * A mask's foreground count is the number of its pixels equal to exactly 1;
   * pixels holding any other value do not count.
   */
  lemma {:induction false} CountOnesIsMultiplicity(m: Mask)
    ensures CountOnes(m) == multiset(Pixels(m))[1]
  {
    if m != [] {
      CountOnesIsMultiplicity(m[..|m| - 1]);
      CountRowIsMultiplicity(m[|m| - 1]);
    }
  }

  // ---------------------------------------------------------------------
  // The `box_size` dict and the choice of the background mask

  /** The keys of `box_size` in insertion order: N-1, N-2, ..., 0. */
  function Descending(n: nat): seq<nat>
  {
    seq(n, k requires 0 <= k < n => n - 1 - k)
  }

  /** The contents of `box_size`: every index maps to its mask's foreground count. */
  function BoxSizeMap(masks: seq<Mask>): map<nat, nat>
  {
    map p | 0 <= p < |masks| :: CountOnes(masks[p])
  }

  /** The loop that fills `box_size` from the highest index down to 0. */
  method BoxSizes(masks: seq<Mask>) returns (order: seq<nat>, boxSize: map<nat, nat>)
    ensures order == Descending(|masks|)
    ensures boxSize == BoxSizeMap(masks)
  {
    order, boxSize := [], map[];
    var p := |masks|;
    while p > 0
      invariant 0 <= p <= |masks|
      invariant |order| == |masks| - p
      invariant forall k :: 0 <= k < |order| ==> order[k] == |masks| - 1 - k
      invariant forall q :: q in boxSize <==> p <= q < |masks|
      invariant forall q :: p <= q < |masks| ==> boxSize[q] == CountOnes(masks[q])
    {
      p := p - 1;
      boxSize := boxSize[p := CountOnes(masks[p])];
      order := order + [p];
    }
  }

  /**
   * The first position holding the largest value: where a left-to-right scan
   * that replaces its candidate only on a strictly larger value stops. Both
   * `np.argmax` and Python's `max` scan this way.
   */
  function FirstMax(values: seq<int>): (j: nat)
    requires |values| > 0
    ensures j < |values|
    ensures forall k :: 0 <= k < |values| ==> values[k] <= values[j]
    ensures forall k :: 0 <= k < j ==> values[k] < values[j]
  {
    if |values| == 1 then 0
    else
      var j := FirstMax(values[..|values| - 1]);
      if values[|values| - 1] > values[j] then |values| - 1 else j
  }

  /** `max(d, key=d.get)` for a dict whose keys were inserted in the order `order`. */
  function MaxKey(order: seq<nat>, size: map<nat, nat>): (key: nat)
    requires |order| > 0
    requires forall k :: 0 <= k < |order| ==> order[k] in size
    ensures key in order && key in size
    ensures forall k :: 0 <= k < |order| ==> size[order[k]] <= size[key]
  {
    var values := seq(|order|, k requires 0 <= k < |order| => size[order[k]]);
    var j := FirstMax(values);
    assert forall k :: 0 <= k < |order| ==> values[k] == size[order[k]];
    order[j]
  }

  /** The index the script takes to be background. */
  function Background(masks: seq<Mask>): (bg: nat)
    requires |masks| > 0
    ensures bg < |masks|
    ensures forall q :: 0 <= q < |masks| ==> CountOnes(masks[q]) <= CountOnes(masks[bg])
  {
    var order, size := Descending(|masks|), BoxSizeMap(masks);
    var bg := MaxKey(order, size);
    forall q | 0 <= q < |masks|
      ensures CountOnes(masks[q]) <= CountOnes(masks[bg])
    {
      assert order[|masks| - 1 - q] == q;
    }
    bg
  }

  /** `b` has the largest foreground count, and every higher index has a strictly smaller one. */
  predicate IsLargestHighest(masks: seq<Mask>, b: nat)
  {
    && b < |masks|
    && (forall q :: 0 <= q < |masks| ==> CountOnes(masks[q]) <= CountOnes(masks[b]))
    && (forall q :: b < q < |masks| ==> CountOnes(masks[q]) < CountOnes(masks[b]))
  }

  /**
   * The background is the mask with the most pixels equal to 1; because the
   * dict is filled from N-1 down, ties go to the highest index.
   */
  lemma BackgroundIsLargestHighest(masks: seq<Mask>)
    requires |masks| > 0
    ensures IsLargestHighest(masks, Background(masks))
  {
    var n := |masks|;
    var order, size := Descending(n), BoxSizeMap(masks);
    var values := seq(n, k requires 0 <= k < n => size[order[k]]);
    var j := FirstMax(values);
    var b := order[j];
    forall q | 0 <= q < n
      ensures CountOnes(masks[q]) <= CountOnes(masks[b])
    {
      assert values[n - 1 - q] == CountOnes(masks[q]);
    }
    forall q | b < q < n
      ensures CountOnes(masks[q]) < CountOnes(masks[b])
    {
      assert values[n - 1 - q] == CountOnes(masks[q]);
    }
  }

  /** Exactly one index is the largest-and-highest one, so the choice is unambiguous. */
  lemma LargestHighestUnique(masks: seq<Mask>, b: nat)
    requires |masks| > 0
    requires IsLargestHighest(masks, b)
    ensures b == Background(masks)
  {
    BackgroundIsLargestHighest(masks);
    var c := Background(masks);
    assert CountOnes(masks[b]) == CountOnes(masks[c]);
  }

  // ---------------------------------------------------------------------
  // The label a pixel ends up with

  /** `image_array[p] == 1` at pixel (i, j). */
  predicate Claims(m: Mask, i: int, j: int)
  {
    0 <= i < |m| && 0 <= j < |m[i]| && m[i][j] == 1
  }

  /** The label given by the lowest non-background mask at index p or above covering (i, j); 0 if none. */
  function LabelFrom(masks: seq<Mask>, bg: nat, i: int, j: int, p: nat): nat
    decreases |masks| - p
  {
    if p >= |masks| then 0
    else if p != bg && Claims(masks[p], i, j) then p + 1
    else LabelFrom(masks, bg, i, j, p + 1)
  }

  function Label(masks: seq<Mask>, bg: nat, i: int, j: int): nat
  {
    LabelFrom(masks, bg, i, j, 0)
  }

  /** The expected output image: every pixel holds its label. */
  function LabelImage(masks: seq<Mask>, bg: nat): seq<seq<int>>
  {
    seq(Height, i requires 0 <= i < Height => seq(Width, j requires 0 <= j < Width => Label(masks, bg, i, j)))
  }

  lemma {:induction false} LabelFromIsLowestClaim(masks: seq<Mask>, bg: nat, i: int, j: int, p: nat)
    ensures var l := LabelFrom(masks, bg, i, j, p);
      && (l == 0 <==> forall q :: p <= q < |masks| && q != bg ==> !Claims(masks[q], i, j))
      && (l != 0 ==> p < l <= |masks| && l - 1 != bg && Claims(masks[l - 1], i, j))
      && (l != 0 ==> forall q :: p <= q < l - 1 && q != bg ==> !Claims(masks[q], i, j))
    decreases |masks| - p
  {
    if p < |masks| && !(p != bg && Claims(masks[p], i, j)) {
      LabelFromIsLowestClaim(masks, bg, i, j, p + 1);
    }
  }

  /**
   * A pixel is labelled p + 1 exactly when p is the lowest non-background
   * index whose mask is 1 there, and 0 when no non-background mask covers it.
   */
  lemma LabelIsLowestClaim(masks: seq<Mask>, bg: nat, i: int, j: int)
    ensures Label(masks, bg, i, j) == 0 <==> forall q :: 0 <= q < |masks| && q != bg ==> !Claims(masks[q], i, j)
    ensures forall p :: 0 <= p < |masks| ==>
      (Label(masks, bg, i, j) == p + 1 <==>
        p != bg && Claims(masks[p], i, j) && forall q :: 0 <= q < p && q != bg ==> !Claims(masks[q], i, j))
  {
    LabelFromIsLowestClaim(masks, bg, i, j, 0);
  }

  /**
   * The background label never appears: every label is 0 or p + 1 for a
   * non-background p (so at most 255 with N <= 255), and a pixel covered by
   * the background mask alone stays 0.
   */
  lemma BackgroundNeverLabelled(masks: seq<Mask>, i: int, j: int)
    requires |masks| > 0
    ensures var bg, l := Background(masks), Label(masks, Background(masks), i, j);
      && l != bg + 1
      && (l == 0 || (1 <= l <= |masks| && l - 1 != bg && Claims(masks[l - 1], i, j)))
      && ((forall q :: 0 <= q < |masks| && q != bg ==> !Claims(masks[q], i, j)) ==> l == 0)
  {
    LabelFromIsLowestClaim(masks, Background(masks), i, j, 0);
  }

  /** Where two non-background masks overlap, the lower index wins. */
  lemma LowerIndexWins(masks: seq<Mask>, bg: nat, i: int, j: int, p: nat, q: nat)
    requires p < q < |masks| && p != bg && q != bg
    requires Claims(masks[p], i, j) && Claims(masks[q], i, j)
    ensures 1 <= Label(masks, bg, i, j) <= p + 1
  {
    LabelFromIsLowestClaim(masks, bg, i, j, 0);
  }

  /** What flattening yields, or the error it raises. */
  function Flattened(masks: seq<Mask>, h: nat, w: nat): Result<seq<seq<int>>, FlattenError>
  {
    if |masks| == 0 then Err(EmptyStack)
    else if |masks| >= 2 && (h != Height || w != Width) then Err(ShapeMismatch)
    else Ok(LabelImage(masks, Background(masks)))
  }

  /** The rows of a 2-D array, as `PIL.Image.fromarray` reads them. */
  function Rows(img: array2<int>): seq<seq<int>>
    reads img
  {
    seq(img.Length0, i requires 0 <= i < img.Length0 reads img =>
      seq(img.Length1, j requires 0 <= j < img.Length1 reads img => img[i, j]))
  }

  /**
   * Lines 113-126: count each mask, pick the background with `max`, then write
   * p + 1 over a zero image wherever mask p is 1, from p = N-1 down to 0,
   * skipping the background.
   */
  method Flatten(masks: seq<Mask>, h: nat, w: nat) returns (r: Result<array2<int>, FlattenError>)
    requires IsStack(masks, h, w)
    requires |masks| <= 255
    ensures r.Err? ==> Flattened(masks, h, w) == Err(r.error)
    ensures r.Ok? ==> fresh(r.value) && Flattened(masks, h, w) == Ok(Rows(r.value))
  {
    var img := new int[Height, Width]((i, j) => 0);
    var order, boxSize := BoxSizes(masks);
    if |order| == 0 {
      return Err(EmptyStack);
    }
    var bg := MaxKey(order, boxSize);
    assert bg == Background(masks);
    var p := |masks|;
    while p > 0
      invariant 0 <= p <= |masks|
      invariant forall i, j :: 0 <= i < Height && 0 <= j < Width ==> img[i, j] == LabelFrom(masks, bg, i, j, p)
      invariant h != Height || w != Width ==> p == |masks| || p == |masks| - 1 == bg
    {
      p := p - 1;
      if p != bg {
        if h != Height || w != Width {
          // `np.where` cannot broadcast a mask of another shape against the image
          return Err(ShapeMismatch);
        }
        forall i, j | 0 <= i < Height && 0 <= j < Width && Claims(masks[p], i, j) {
          img[i, j] := p + 1;
        }
      }
    }
    forall i | 0 <= i < Height
      ensures Rows(img)[i] == LabelImage(masks, bg)[i]
    {
      assert forall j :: 0 <= j < Width ==> Rows(img)[i][j] == LabelImage(masks, bg)[i][j];
    }
    assert Rows(img) == LabelImage(masks, bg);
    assert |masks| >= 2 ==> h == Height && w == Width;
    r := Ok(img);
  }
}
