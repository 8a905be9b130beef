/**
 * Inference over a frame-feature sequence: the features are fitted to the
 * model's input width, cut into stride-1 windows, each window is labelled
 * position by position by the regressor, the overlapping labels are
 * averaged back to one row per frame, and the averages are clipped to
 * [0, 1] and rounded to 0 or 1.
 */
module Inference {
  import opened Wrappers
  import Linalg

  type Row = seq<real>
  type Matrix = seq<Row>

  datatype InferError = SequenceTooShort(length: nat, window: nat)

  /** The stride-1 windows `sequence[k : k + w]`. */
  function Slide<T>(s: seq<T>, w: nat): (ws: seq<seq<T>>)
    requires |s| >= w
    ensures |ws| == |s| - w + 1
  {
    seq(|s| - w + 1, k requires 0 <= k <= |s| - w => s[k..k + w])
  }

  /** `build_windows`: an error for a sequence shorter than the window. */
  function Windows<T>(s: seq<T>, w: nat): Result<seq<seq<T>>, InferError>
  {
    if |s| < w then Err(SequenceTooShort(|s|, w)) else Ok(Slide(s, w))
  }

  /** Some window of width w holds element p of s at its place. */
  ghost predicate InSomeWindow<T>(s: seq<T>, ws: seq<seq<T>>, w: nat, p: nat)
    requires p < |s|
  {
    exists k :: 0 <= k < |ws| && k <= p < k + w && |ws[k]| == w && ws[k][p - k] == s[p]
  }

  /**
   * The windows fail exactly for a sequence shorter than the window;
   * otherwise there are |s| - w + 1 of them, window k holds s[k + t] at t,
   * and, for w >= 1, every element lies in some window.
   */
  lemma WindowsMeaning<T>(s: seq<T>, w: nat)
    ensures Windows(s, w).Err? <==> |s| < w
    ensures Windows(s, w).Ok? ==>
      var ws := Windows(s, w).value;
      && |ws| == |s| - w + 1
      && (forall k, t :: 0 <= k < |ws| && 0 <= t < w ==> |ws[k]| == w && ws[k][t] == s[k + t])
      && (w >= 1 ==> forall p :: 0 <= p < |s| ==> InSomeWindow(s, ws, w, p))
  {
    if |s| >= w && w >= 1 {
      var ws := Slide(s, w);
      forall p | 0 <= p < |s|
        ensures InSomeWindow(s, ws, w, p)
      {
        var k := if p < |ws| then p else |ws| - 1;
        assert 0 <= k < |ws| && k <= p < k + w && ws[k][p - k] == s[p];
      }
      assert Windows(s, w).value == ws;
    }
  }

  /** The windowing loop, appending one slice per start position. */
  method BuildWindows<T>(s: seq<T>, w: nat) returns (r: Result<seq<seq<T>>, InferError>)
    ensures r == Windows(s, w)
  {
    if |s| < w {
      return Err(SequenceTooShort(|s|, w));
    }
    var windows: seq<seq<T>> := [];
    for start := 0 to |s| - w + 1
      invariant windows == Slide(s, w)[..start]
    {
      windows := windows + [s[start..start + w]];
    }
    assert Slide(s, w)[..|s| - w + 1] == Slide(s, w);
    return Ok(windows);
  }

  function Zeros(d: nat): (r: Row)
    ensures |r| == d && forall i :: 0 <= i < d ==> r[i] == 0.0
  {
    seq(d, _ => 0.0)
  }

  function Divide(a: Row, c: nat): (r: Row)
    requires c > 0
    ensures |r| == |a| && forall i :: 0 <= i < |a| ==> r[i] == a[i] / c as real
  {
    seq(|a|, i requires 0 <= i < |a| => a[i] / c as real)
  }

  /** Each window holds w rows of d predictions. */
  predicate Shaped(preds: seq<Matrix>, w: nat, d: nat)
  {
    forall k :: 0 <= k < |preds| ==> |preds[k]| == w && forall t :: 0 <= t < w ==> |preds[k][t]| == d
  }

  /** Window k covers position p when k <= p < k + w. */
  predicate Covers(k: int, p: int, w: nat)
  {
    k <= p < k + w
  }

  /** The number of the first m windows that cover position p. */
  function CoverCount(m: nat, p: nat, w: nat): nat
  {
    if m == 0 then 0 else CoverCount(m - 1, p, w) + (if Covers(m - 1, p, w) then 1 else 0)
  }

  /** The sum of the first m windows' predictions for position p. */
  function CoverSum(preds: seq<Matrix>, m: nat, p: nat, w: nat, d: nat): (r: Row)
    requires m <= |preds| && Shaped(preds, w, d)
    ensures |r| == d
  {
    if m == 0 then Zeros(d)
    else
      var s := CoverSum(preds, m - 1, p, w, d);
      if Covers(m - 1, p, w) then Linalg.VecAdd(s, preds[m - 1][p - (m - 1)]) else s
  }

  function Min(a: int, b: int): int
  {
    if a <= b then a else b
  }

  function Max(a: int, b: int): int
  {
    if a >= b then a else b
  }

  /** The windows covering p are those from max(0, p - w + 1) to min(p, m - 1). */
  lemma {:induction false} CoverCountClosedForm(m: nat, p: nat, w: nat)
    ensures CoverCount(m, p, w) == Max(0, Min(p, m - 1) - Max(0, p - w + 1) + 1)
  {
    if m > 0 {
      CoverCountClosedForm(m - 1, p, w);
    }
  }

  /** With all seqLen - w + 1 windows, every position is covered at least once and at most w times. */
  lemma CoverCountBounds(seqLen: nat, w: nat, p: nat)
    requires 1 <= w <= seqLen && p < seqLen
    ensures 1 <= CoverCount(seqLen - w + 1, p, w) <= w
  {
    CoverCountClosedForm(seqLen - w + 1, p, w);
  }

  /** `overlap_average`: at each position, the covering windows' predictions for it, summed and divided by their number. */
  function Averaged(preds: seq<Matrix>, seqLen: nat, w: nat, d: nat): (r: Matrix)
    requires 1 <= w <= seqLen && |preds| == seqLen - w + 1 && Shaped(preds, w, d)
    ensures |r| == seqLen && forall p :: 0 <= p < seqLen ==> |r[p]| == d
  {
    seq(seqLen, p requires 0 <= p < seqLen =>
      CoverCountBounds(seqLen, w, p);
      Divide(CoverSum(preds, |preds|, p, w, d), CoverCount(|preds|, p, w)))
  }

  predicate InUnit(x: real)
  {
    0.0 <= x <= 1.0
  }

  /** The sums of predictions in [0, 1] lie between 0 and the number of windows summed. */
  lemma {:induction false} CoverSumBounds(preds: seq<Matrix>, m: nat, p: nat, w: nat, d: nat)
    requires m <= |preds| && Shaped(preds, w, d)
    requires forall k, t, j :: 0 <= k < |preds| && 0 <= t < w && 0 <= j < d ==> InUnit(preds[k][t][j])
    ensures forall j :: 0 <= j < d ==> 0.0 <= CoverSum(preds, m, p, w, d)[j] <= CoverCount(m, p, w) as real
  {
    if m > 0 {
      CoverSumBounds(preds, m - 1, p, w, d);
      if Covers(m - 1, p, w) {
        var row := preds[m - 1][p - (m - 1)];
        assert forall j :: 0 <= j < d ==> InUnit(row[j]);
      }
    }
  }

  /** Averages of predictions in [0, 1] stay in [0, 1]. */
  lemma AveragedInUnit(preds: seq<Matrix>, seqLen: nat, w: nat, d: nat)
    requires 1 <= w <= seqLen && |preds| == seqLen - w + 1 && Shaped(preds, w, d)
    requires forall k, t, j :: 0 <= k < |preds| && 0 <= t < w && 0 <= j < d ==> InUnit(preds[k][t][j])
    ensures forall p, j :: 0 <= p < seqLen && 0 <= j < d ==> InUnit(Averaged(preds, seqLen, w, d)[p][j])
  {
    forall p, j | 0 <= p < seqLen && 0 <= j < d
      ensures InUnit(Averaged(preds, seqLen, w, d)[p][j])
    {
      CoverCountBounds(seqLen, w, p);
      CoverSumBounds(preds, |preds|, p, w, d);
      var c := CoverCount(|preds|, p, w) as real;
      var s := CoverSum(preds, |preds|, p, w, d)[j];
      assert Averaged(preds, seqLen, w, d)[p][j] == s / c;
      DivideInUnit(s, c);
    }
  }

  lemma DivideInUnit(s: real, c: real)
    requires c >= 1.0 && 0.0 <= s <= c
    ensures InUnit(s / c)
  {
    assert s / c * c == s;
  }

  /** Adds window idx's predictions into the rows it covers, counting each cover. */
  method AddWindow(preds: seq<Matrix>, idx: nat, w: nat, d: nat, sums: array<Row>, counts: array<nat>)
    requires idx < |preds| && Shaped(preds, w, d) && idx + w <= sums.Length == counts.Length
    requires forall p :: 0 <= p < sums.Length ==> |sums[p]| == d
    modifies sums, counts
    ensures forall p :: 0 <= p < sums.Length ==>
      && sums[p] == (if Covers(idx, p, w) then Linalg.VecAdd(old(sums[p]), preds[idx][p - idx]) else old(sums[p]))
      && counts[p] == (if Covers(idx, p, w) then old(counts[p]) + 1 else old(counts[p]))
  {
    for t := 0 to w
      invariant forall p :: 0 <= p < sums.Length ==>
        && sums[p] == (if idx <= p < idx + t then Linalg.VecAdd(old(sums[p]), preds[idx][p - idx]) else old(sums[p]))
        && counts[p] == (if idx <= p < idx + t then old(counts[p]) + 1 else old(counts[p]))
    {
      sums[idx + t] := Linalg.VecAdd(sums[idx + t], preds[idx][t]);
      counts[idx + t] := counts[idx + t] + 1;
    }
  }

  /** The accumulation into `sums` and `counts`, then the division. */
  method OverlapAverage(preds: seq<Matrix>, seqLen: nat, w: nat, d: nat) returns (averaged: Matrix)
    requires 1 <= w <= seqLen && |preds| == seqLen - w + 1 && Shaped(preds, w, d)
    ensures averaged == Averaged(preds, seqLen, w, d)
  {
    var sums := new Row[seqLen](_ => Zeros(d));
    var counts := new nat[seqLen](_ => 0);
    for idx := 0 to |preds|
      invariant forall p :: 0 <= p < seqLen ==>
        sums[p] == CoverSum(preds, idx, p, w, d) && counts[p] == CoverCount(idx, p, w)
    {
      AddWindow(preds, idx, w, d, sums, counts);
    }
    forall p | 0 <= p < seqLen
      ensures counts[p] > 0
    {
      CoverCountBounds(seqLen, w, p);
    }
    averaged := seq(seqLen, p requires 0 <= p < seqLen && counts[p] > 0 reads sums, counts => Divide(sums[p], counts[p]));
  }

  /** A frame-feature array: one-dimensional, or one row per frame. */
  datatype FeatureArray = Flat(values: seq<real>) | Table(rows: Matrix)

  /** A one-dimensional array becomes a single column. */
  function AsTable(f: FeatureArray): Matrix
  {
    match f
    case Flat(v) => seq(|v|, i requires 0 <= i < |v| => [v[i]])
    case Table(rows) => rows
  }

  /** Truncates a wider row to `width` or pads a narrower one with zeros on the right. */
  function FitRow(row: Row, width: nat): (r: Row)
    ensures |r| == width
    ensures forall i :: 0 <= i < width ==> r[i] == if i < |row| then row[i] else 0.0
  {
    if |row| > width then row[..width]
    else if |row| < width then row + Zeros(width - |row|)
    else row
  }

  /** The width fitting of `run_inference`, applied to every row. */
  function Fit(f: FeatureArray, width: nat): (m: Matrix)
    ensures |m| == |AsTable(f)|
    ensures forall k :: 0 <= k < |m| ==> m[k] == FitRow(AsTable(f)[k], width)
  {
    var t := AsTable(f);
    seq(|t|, k requires 0 <= k < |t| => FitRow(t[k], width))
  }

  /** The reassignment of `features`: make it a table, then truncate or pad every row. */
  method FitFeatures(f: FeatureArray, width: nat) returns (features: Matrix)
    ensures features == Fit(f, width)
  {
    features := AsTable(f);
    var k := 0;
    ghost var original := features;
    while k < |features|
      invariant 0 <= k <= |features| == |original|
      invariant forall j :: 0 <= j < k ==> features[j] == FitRow(original[j], width)
      invariant forall j :: k <= j < |features| ==> features[j] == original[j]
    {
      var row := features[k];
      if |row| > width {
        row := row[..width];
      } else if |row| < width {
        row := row + Zeros(width - |row|);
      }
      features := features[k := row];
      k := k + 1;
    }
  }

  /** `np.clip(x, 0.0, 1.0)`. */
  function Clip(x: real): (r: real)
    ensures InUnit(r)
    ensures InUnit(x) ==> r == x
  {
    if x < 0.0 then 0.0 else if x > 1.0 then 1.0 else x
  }

  /** `np.rint`: the nearest integer, ties to the even one. */
  function RoundHalfEven(x: real): (r: int)
    ensures r as real - 0.5 <= x <= r as real + 0.5
    ensures x == r as real - 0.5 || x == r as real + 0.5 ==> r % 2 == 0
  {
    var f := x.Floor;
    var frac := x - f as real;
    if frac < 0.5 then f
    else if frac > 0.5 then f + 1
    else if f % 2 == 0 then f else f + 1
  }

  /** A clipped value rounds to 0 or 1, and to 1 exactly when the value exceeds one half. */
  lemma ClippedRoundsToBit(x: real)
    ensures RoundHalfEven(Clip(x)) == 0 || RoundHalfEven(Clip(x)) == 1
    ensures RoundHalfEven(Clip(x)) == 1 <==> x > 0.5
  {
  }

  /** The labels of `run_inference`: clipped and rounded averages. */
  function Labels(averaged: Matrix): (r: seq<seq<int>>)
    ensures |r| == |averaged|
  {
    seq(|averaged|, p requires 0 <= p < |averaged| =>
      seq(|averaged[p]|, j requires 0 <= j < |averaged[p]| => RoundHalfEven(Clip(averaged[p][j]))))
  }

  /** The regressor labels each window with one row of `d` values per position. */
  ghost predicate Regressor(predict: Matrix -> Matrix, d: nat)
  {
    forall x: Matrix :: |predict(x)| == |x| && forall t :: 0 <= t < |x| ==> |predict(x)[t]| == d
  }

  /** The whole inference of one feature array, given the regressor. */
  function Infer(f: FeatureArray, inputDim: nat, w: nat, d: nat, predict: Matrix -> Matrix): Result<seq<seq<int>>, InferError>
    requires w >= 1 && Regressor(predict, d)
  {
    var features := Fit(f, inputDim);
    var windows :- Windows(features, w);
    var preds := seq(|windows|, k requires 0 <= k < |windows| => predict(windows[k]));
    Ok(Labels(Averaged(preds, |features|, w, d)))
  }

  /**
   * Inference fails exactly when there are fewer frames than the window;
   * otherwise every frame gets d labels, each 0 or 1, and a label is 1
   * exactly when the average of the covering windows' predictions for it
   * exceeds one half.
   */
  lemma InferOutcome(f: FeatureArray, inputDim: nat, w: nat, d: nat, predict: Matrix -> Matrix)
    requires w >= 1 && Regressor(predict, d)
    ensures Infer(f, inputDim, w, d, predict).Err? <==> |AsTable(f)| < w
    ensures Infer(f, inputDim, w, d, predict).Ok? ==>
      var features := Fit(f, inputDim);
      var windows := Slide(features, w);
      var preds := seq(|windows|, k requires 0 <= k < |windows| => predict(windows[k]));
      var averaged := Averaged(preds, |features|, w, d);
      var labels := Infer(f, inputDim, w, d, predict).value;
      && |labels| == |features|
      && forall p, j :: 0 <= p < |labels| && 0 <= j < d ==>
        |labels[p]| == d && (labels[p][j] == 0 || labels[p][j] == 1) && (labels[p][j] == 1 <==> averaged[p][j] > 0.5)
  {
    var features := Fit(f, inputDim);
    if |features| >= w {
      var windows := Slide(features, w);
      var preds := seq(|windows|, k requires 0 <= k < |windows| => predict(windows[k]));
      var averaged := Averaged(preds, |features|, w, d);
      forall p, j | 0 <= p < |features| && 0 <= j < d
        ensures RoundHalfEven(Clip(averaged[p][j])) == 0 || RoundHalfEven(Clip(averaged[p][j])) == 1
        ensures RoundHalfEven(Clip(averaged[p][j])) == 1 <==> averaged[p][j] > 0.5
      {
        ClippedRoundsToBit(averaged[p][j]);
      }
    }
  }

  /** `run_inference` between loading and saving: fit, window, predict, average, clip and round. */
  method RunInference(f: FeatureArray, inputDim: nat, w: nat, d: nat, predict: Matrix -> Matrix)
    returns (r: Result<seq<seq<int>>, InferError>)
    requires w >= 1 && Regressor(predict, d)
    ensures r == Infer(f, inputDim, w, d, predict)
  {
    var features := FitFeatures(f, inputDim);
    var windows := BuildWindows(features, w);
    if windows.Err? {
      return Err(windows.error);
    }
    var ws := windows.value;
    var preds := seq(|ws|, k requires 0 <= k < |ws| => predict(ws[k]));
    var averaged := OverlapAverage(preds, |features|, w, d);
    return Ok(Labels(averaged));
  }
}
