/**
 * The colour of a detected vehicle from the HSV pixels of its bounding box:
 * the median hue of the saturated, bright pixels, sorted into six hue bands,
 * or "unknown" when there is nothing to measure.
 */
module ColorClassifier {
  import opened Sorting

  /** A pixel in OpenCV's 8-bit HSV: hue 0..179, saturation and value 0..255. */
  datatype Hsv = Hsv(h: nat, s: nat, v: nat)

  datatype Color = Red | Orange | Yellow | Green | Blue | Purple | Unknown

  /** Only saturated, bright pixels take part. */
  predicate Masked(p: Hsv)
  {
    p.s > 50 && p.v > 50
  }

  /** The hues of the masked pixels, in pixel order. */
  function MaskedHues(ps: seq<Hsv>): (hs: seq<real>)
    ensures |hs| <= |ps|
  {
    if ps == [] then []
    else MaskedHues(ps[..|ps| - 1]) + (if Masked(ps[|ps| - 1]) then [ps[|ps| - 1].h as real] else [])
  }

  /** Values sort by themselves. */
  function Itself(x: real): real { x }

  /** `np.median`: the middle of the sorted values, or the mean of the two middle ones. */
  function Median(xs: seq<real>): real
    requires |xs| > 0
  {
    var ys := SortBy(xs, Itself);
    var n := |ys|;
    if n % 2 == 1 then ys[n / 2] else (ys[n / 2 - 1] + ys[n / 2]) / 2.0
  }

  /** The hue bands, red wrapping around both ends of the hue circle. */
  function Band(hue: real): Color
  {
    if hue < 10.0 || hue > 160.0 then Red
    else if hue < 25.0 then Orange
    else if hue < 35.0 then Yellow
    else if hue < 85.0 then Green
    else if hue < 135.0 then Blue
    else Purple
  }

  /** `classify_color` from the region's pixels on. */
  function ClassifyColor(roi: seq<Hsv>): Color
  {
    if roi == [] then Unknown
    else
      var hues := MaskedHues(roi);
      if hues == [] then Unknown else Band(Median(hues))
  }

  /** The bands partition the hues: each label is returned on exactly its interval. */
  lemma BandMeaning(hue: real)
    ensures Band(hue) != Unknown
    ensures Band(hue) == Red <==> hue < 10.0 || hue > 160.0
    ensures Band(hue) == Orange <==> 10.0 <= hue < 25.0
    ensures Band(hue) == Yellow <==> 25.0 <= hue < 35.0
    ensures Band(hue) == Green <==> 35.0 <= hue < 85.0
    ensures Band(hue) == Blue <==> 85.0 <= hue < 135.0
    ensures Band(hue) == Purple <==> 135.0 <= hue <= 160.0
  {
  }

  /** The result is "unknown" exactly when no pixel passes the mask, an empty region included. */
  lemma {:induction false} UnknownIffNoMaskedPixel(roi: seq<Hsv>)
    ensures ClassifyColor(roi) == Unknown <==> forall i :: 0 <= i < |roi| ==> !Masked(roi[i])
  {
    MaskedHuesEmpty(roi);
    if MaskedHues(roi) != [] {
      BandMeaning(Median(MaskedHues(roi)));
    }
  }

  lemma {:induction false} MaskedHuesEmpty(ps: seq<Hsv>)
    ensures MaskedHues(ps) == [] <==> forall i :: 0 <= i < |ps| ==> !Masked(ps[i])
  {
    if ps != [] {
      MaskedHuesEmpty(ps[..|ps| - 1]);
      assert forall i :: 0 <= i < |ps| - 1 ==> ps[..|ps| - 1][i] == ps[i];
    }
  }

  /** Unmasked pixels have no influence: regions with the same masked hues get the same label. */
  lemma {:induction false} OnlyMaskedPixelsMatter(roi1: seq<Hsv>, roi2: seq<Hsv>)
    requires MaskedHues(roi1) == MaskedHues(roi2)
    ensures ClassifyColor(roi1) == ClassifyColor(roi2)
  {
    if roi1 == [] {
      assert MaskedHues(roi2) == [];
    }
    if roi2 == [] {
      assert MaskedHues(roi1) == [];
    }
  }

  /** The median lies between the least and the greatest value. */
  lemma {:induction false} MedianWithin(xs: seq<real>, lo: real, hi: real)
    requires |xs| > 0 && forall i :: 0 <= i < |xs| ==> lo <= xs[i] <= hi
    ensures lo <= Median(xs) <= hi
  {
    var ys := SortBy(xs, Itself);
    SortKeepsMembers(xs, Itself);
    assert forall i :: 0 <= i < |ys| ==> ys[i] in xs;
  }

  /**
   * When every masked hue lies in one of the five contiguous bands, the
   * region gets that band's label; red, which wraps around, has no such
   * guarantee.
   */
  lemma {:induction false} UniformBand(roi: seq<Hsv>, lo: real, hi: real)
    requires 10.0 <= lo <= hi <= 160.0 && Band(lo) == Band(hi)
    requires exists i :: 0 <= i < |roi| && Masked(roi[i])
    requires forall i :: 0 <= i < |MaskedHues(roi)| ==> lo <= MaskedHues(roi)[i] <= hi
    ensures ClassifyColor(roi) == Band(lo)
  {
    var hues := MaskedHues(roi);
    MaskedHuesEmpty(roi);
    assert roi != [] && hues != [];
    MedianWithin(hues, lo, hi);
    BandBetween(lo, Median(hues), hi);
  }

  /** Within one contiguous band, a hue between two hues of that band is in it too. */
  lemma BandBetween(lo: real, m: real, hi: real)
    requires 10.0 <= lo <= m <= hi <= 160.0 && Band(lo) == Band(hi)
    ensures Band(m) == Band(lo)
  {
  }

  /** Two red hues at opposite ends of the circle average into the blue band. */
  lemma WrappedRedReadsBlue()
    ensures ClassifyColor([Hsv(5, 100, 100), Hsv(170, 100, 100)]) == Blue
  {
    var roi := [Hsv(5, 100, 100), Hsv(170, 100, 100)];
    assert roi[..1] == [Hsv(5, 100, 100)];
    assert MaskedHues(roi) == [5.0, 170.0];
    var ys := SortBy([5.0, 170.0], Itself);
    SortKeepsMembers([5.0, 170.0], Itself);
    assert ys[0] <= ys[1];
    assert ys[0] in [5.0, 170.0] && ys[1] in [5.0, 170.0];
    assert multiset(ys) == multiset{5.0, 170.0};
    assert ys == [5.0, 170.0];
    assert Median([5.0, 170.0]) == 87.5;
  }
}
