/**
 * Threshold-based car detection from the collected Data frames: packet
 * counts and byte totals over half-open time windows, a baseline taken from
 * the first windows of the capture, and detection intervals made of maximal
 * runs of windows whose activity exceeds the baseline thresholds.
 */
module AnalyticInfer {
  import opened Wrappers
  import opened Numeric
  import opened Capture

  const WindowSeconds: real := 1.0
  const BaselineSeconds: real := 5.0
  const CountMultiplier: real := 1.5
  const SizeMultiplier: real := 1.5
  const MinDetectionSeconds: real := 0.5

  function Min(a: real, b: real): real
  {
    if a <= b then a else b
  }

  /** The window [lo, hi) contains the frame's relative time. */
  predicate InWindow(f: Frame, lo: real, hi: real)
  {
    lo <= f.rel < hi
  }

  /** The number of frames in [lo, hi). */
  function CountIn(fs: seq<Frame>, lo: real, hi: real): nat
  {
    if fs == [] then 0
    else CountIn(fs[..|fs| - 1], lo, hi) + (if InWindow(fs[|fs| - 1], lo, hi) then 1 else 0)
  }

  /** The total size of the frames in [lo, hi). */
  function SizeIn(fs: seq<Frame>, lo: real, hi: real): nat
  {
    if fs == [] then 0
    else SizeIn(fs[..|fs| - 1], lo, hi) + (if InWindow(fs[|fs| - 1], lo, hi) then fs[|fs| - 1].size else 0)
  }

  datatype Metrics = Metrics(count: nat, total: nat, avg: real)

  /** The average packet size, 0 for an empty window. */
  function Average(total: nat, count: nat): (avg: real)
    ensures count > 0 ==> avg * count as real == total as real
    ensures count == 0 ==> avg == 0.0
  {
    if count > 0 then total as real / count as real else 0.0
  }

  /** The accumulator loop over all frames. */
  method ComputeWindowMetrics(fs: seq<Frame>, lo: real, hi: real) returns (m: Metrics)
    ensures m == Metrics(CountIn(fs, lo, hi), SizeIn(fs, lo, hi), Average(SizeIn(fs, lo, hi), CountIn(fs, lo, hi)))
  {
    var count: nat := 0;
    var total: nat := 0;
    var i := 0;
    while i < |fs|
      invariant 0 <= i <= |fs|
      invariant count == CountIn(fs[..i], lo, hi) && total == SizeIn(fs[..i], lo, hi)
    {
      assert fs[..i + 1][..i] == fs[..i];
      if lo <= fs[i].rel < hi {
        count := count + 1;
        total := total + fs[i].size;
      }
      i := i + 1;
    }
    assert fs[..|fs|] == fs;
    m := Metrics(count, total, Average(total, count));
  }

  /** An empty count means no frame lies in the window, and the count never exceeds the number of frames. */
  lemma {:induction false} CountMeansMembers(fs: seq<Frame>, lo: real, hi: real)
    ensures CountIn(fs, lo, hi) == 0 <==> forall k :: 0 <= k < |fs| ==> !InWindow(fs[k], lo, hi)
    ensures CountIn(fs, lo, hi) <= |fs|
    ensures CountIn(fs, lo, hi) == 0 ==> SizeIn(fs, lo, hi) == 0
  {
    if fs != [] {
      var init := fs[..|fs| - 1];
      CountMeansMembers(init, lo, hi);
      assert forall k :: 0 <= k < |init| ==> init[k] == fs[k];
    }
  }

  /** Adjacent windows split the count and the size of their union. */
  lemma {:induction false} WindowsAdd(fs: seq<Frame>, a: real, b: real, c: real)
    requires a <= b <= c
    ensures CountIn(fs, a, c) == CountIn(fs, a, b) + CountIn(fs, b, c)
    ensures SizeIn(fs, a, c) == SizeIn(fs, a, b) + SizeIn(fs, b, c)
  {
    if fs != [] {
      WindowsAdd(fs[..|fs| - 1], a, b, c);
    }
  }

  /** The start of window i, `i * w`, written as repeated addition so that proofs about windows stay linear. */
  function Offset(i: nat, w: real): (r: real)
    ensures w >= 0.0 ==> r >= 0.0
  {
    if i == 0 then 0.0 else Offset(i - 1, w) + w
  }

  lemma {:induction false} OffsetIsProduct(i: nat, w: real)
    ensures Offset(i, w) == i as real * w
  {
    if i > 0 {
      OffsetIsProduct(i - 1, w);
      assert (i - 1) as real * w + w == i as real * w;
    }
  }

  /** Counts of the n consecutive windows of width w starting at 0. */
  function CountsOver(fs: seq<Frame>, n: nat, w: real): (s: seq<int>)
    ensures |s| == n
  {
    if n == 0 then []
    else
      var lo := Offset(n - 1, w);
      CountsOver(fs, n - 1, w) + [CountIn(fs, lo, lo + w)]
  }

  /** Sizes of the n consecutive windows of width w starting at 0. */
  function SizesOver(fs: seq<Frame>, n: nat, w: real): (s: seq<int>)
    ensures |s| == n
  {
    if n == 0 then []
    else
      var lo := Offset(n - 1, w);
      SizesOver(fs, n - 1, w) + [SizeIn(fs, lo, lo + w)]
  }

  function Sum(s: seq<int>): int
  {
    if s == [] then 0 else Sum(s[..|s| - 1]) + s[|s| - 1]
  }

  lemma SumAppend(s: seq<int>, x: int)
    ensures Sum(s + [x]) == Sum(s) + x
  {
    assert (s + [x])[..|s|] == s;
  }

  /** `np.mean` of a non-empty list of integers. */
  function Mean(s: seq<int>): real
    requires |s| > 0
  {
    Sum(s) as real / |s| as real
  }

  datatype DetectError = NoBaselineWindows | Load(cause: CaptureError)

  /** The number of baseline windows: `int(duration / window)`. */
  function BaselineWindowCount(duration: real, w: real): int
    requires w > 0.0
  {
    Trunc(duration / w)
  }

  /** The baseline means of packet count and total size, or an error when no whole window fits. */
  function Baseline(fs: seq<Frame>, duration: real, w: real): Result<(real, real), DetectError>
    requires w > 0.0
  {
    var n := BaselineWindowCount(duration, w);
    if n <= 0 then Err(NoBaselineWindows)
    else Ok((Mean(CountsOver(fs, n, w)), Mean(SizesOver(fs, n, w))))
  }

  /** The baseline fails exactly when the duration is shorter than one window. */
  lemma BaselineFailsIffShort(fs: seq<Frame>, duration: real, w: real)
    requires w > 0.0
    ensures Baseline(fs, duration, w).Err? <==> duration < w
  {
    if duration >= w {
      assert duration / w >= 1.0;
    } else {
      assert duration / w < 1.0;
    }
  }

  /** Consecutive windows: their counts and sizes sum to those of [0, n*w). */
  lemma SumsOverSpan(fs: seq<Frame>, n: nat, w: real)
    requires w > 0.0
    ensures Sum(CountsOver(fs, n, w)) == CountIn(fs, 0.0, Offset(n, w))
    ensures Sum(SizesOver(fs, n, w)) == SizeIn(fs, 0.0, Offset(n, w))
  {
    CountsSumOverSpan(fs, n, w);
    SizesSumOverSpan(fs, n, w);
  }

  /** An empty window holds no frame. */
  lemma {:induction false} EmptyWindow(fs: seq<Frame>, t: real)
    ensures CountIn(fs, t, t) == 0 && SizeIn(fs, t, t) == 0
  {
    if fs != [] {
      EmptyWindow(fs[..|fs| - 1], t);
    }
  }

  lemma {:induction false} CountsSumOverSpan(fs: seq<Frame>, n: nat, w: real)
    requires w > 0.0
    ensures Sum(CountsOver(fs, n, w)) == CountIn(fs, 0.0, Offset(n, w))
  {
    if n == 0 {
      EmptyWindow(fs, 0.0);
      assert CountsOver(fs, 0, w) == [];
    } else {
      CountsSumOverSpan(fs, n - 1, w);
      var lo := Offset(n - 1, w);
      var prev, last := CountsOver(fs, n - 1, w), CountIn(fs, lo, lo + w);
      assert CountsOver(fs, n, w) == prev + [last];
      SumAppend(prev, last);
      assert Offset(n, w) == lo + w;
      WindowsAdd(fs, 0.0, lo, lo + w);
    }
  }

  lemma {:induction false} SizesSumOverSpan(fs: seq<Frame>, n: nat, w: real)
    requires w > 0.0
    ensures Sum(SizesOver(fs, n, w)) == SizeIn(fs, 0.0, Offset(n, w))
  {
    if n == 0 {
      EmptyWindow(fs, 0.0);
      assert SizesOver(fs, 0, w) == [];
    } else {
      SizesSumOverSpan(fs, n - 1, w);
      var lo := Offset(n - 1, w);
      var prev, last := SizesOver(fs, n - 1, w), SizeIn(fs, lo, lo + w);
      assert SizesOver(fs, n, w) == prev + [last];
      SumAppend(prev, last);
      assert Offset(n, w) == lo + w;
      WindowsAdd(fs, 0.0, lo, lo + w);
    }
  }

  /**
   * The baseline means are the packet rate and byte rate over the whole
   * baseline span [0, n*w), per window.
   */
  lemma {:induction false} BaselineIsSpanRate(fs: seq<Frame>, duration: real, w: real)
    requires w > 0.0 && Baseline(fs, duration, w).Ok?
    ensures var n := BaselineWindowCount(duration, w);
      && n > 0
      && Baseline(fs, duration, w).value.0 == CountIn(fs, 0.0, Offset(n, w)) as real / n as real
      && Baseline(fs, duration, w).value.1 == SizeIn(fs, 0.0, Offset(n, w)) as real / n as real
  {
    var n := BaselineWindowCount(duration, w);
    SumsOverSpan(fs, n, w);
  }

  /** The baseline loop, appending one window's metrics per step. */
  method EstablishBaseline(fs: seq<Frame>, duration: real, w: real) returns (r: Result<(real, real), DetectError>)
    requires w > 0.0
    ensures r == Baseline(fs, duration, w)
  {
    var n := Trunc(duration / w);
    var counts: seq<int> := [];
    var sizes: seq<int> := [];
    var i := 0;
    while i < n
      invariant 0 <= i <= if n < 0 then 0 else n
      invariant counts == CountsOver(fs, i, w) && sizes == SizesOver(fs, i, w)
    {
      OffsetIsProduct(i, w);
      var lo := i as real * w;
      var m := ComputeWindowMetrics(fs, lo, lo + w);
      counts := counts + [m.count];
      sizes := sizes + [m.total];
      i := i + 1;
    }
    if |counts| == 0 {
      return Err(NoBaselineWindows);
    }
    return Ok((Mean(counts), Mean(sizes)));
  }

  /** One sliding window with its metrics and threshold tests. */
  datatype Window = Window(start: real, end: real, metrics: Metrics, overCount: bool, overSize: bool)

  /** A window is active when either threshold is exceeded (strictly). */
  predicate Active(win: Window)
  {
    win.overCount || win.overSize
  }

  /** `int(np.ceil(total / w))` windows, none for a non-positive result. */
  function NumWindows(total: real, w: real): nat
    requires w > 0.0
  {
    var n := Ceil(total / w);
    if n < 0 then 0 else n
  }

  /** Window i: [i*w, min(i*w + w, total)) with its metrics and tests. */
  function WindowAt(fs: seq<Frame>, i: nat, total: real, w: real, countLimit: real, sizeLimit: real): Window
  {
    var lo := Offset(i, w);
    var hi := Min(lo + w, total);
    var m := Metrics(CountIn(fs, lo, hi), SizeIn(fs, lo, hi), Average(SizeIn(fs, lo, hi), CountIn(fs, lo, hi)));
    Window(lo, hi, m, m.count as real > countLimit, m.total as real > sizeLimit)
  }

  function Windows(fs: seq<Frame>, total: real, w: real, countLimit: real, sizeLimit: real): (ws: seq<Window>)
    requires w > 0.0
    ensures |ws| == NumWindows(total, w)
  {
    seq(NumWindows(total, w), i requires 0 <= i => WindowAt(fs, i, total, w, countLimit, sizeLimit))
  }

  /** Window i of the ceil(total / w) windows starts at i*w, is non-empty, and ends by `total` and by the start of window i + 1. */
  lemma WindowShape(fs: seq<Frame>, i: nat, total: real, w: real, countLimit: real, sizeLimit: real)
    requires w > 0.0 && i < NumWindows(total, w)
    ensures var win := WindowAt(fs, i, total, w, countLimit, sizeLimit);
      && win.start == Offset(i, w)
      && win.start < win.end <= total
      && win.end <= Offset(i + 1, w)
      && win.metrics.count == CountIn(fs, win.start, win.end)
      && win.metrics.total == SizeIn(fs, win.start, win.end)
      && (Active(win) <==> win.metrics.count as real > countLimit || win.metrics.total as real > sizeLimit)
  {
    CeilSteps(total, w, i);
    OffsetIsProduct(i, w);
  }

  /**
   * The windows tile [0, total): each is non-empty and ends by `total`, the
   * first starts at 0 and each ends where the next starts, or earlier.
   */
  lemma WindowsTile(fs: seq<Frame>, total: real, w: real, countLimit: real, sizeLimit: real)
    requires w > 0.0
    ensures Tiled(Windows(fs, total, w, countLimit, sizeLimit))
    ensures var ws := Windows(fs, total, w, countLimit, sizeLimit);
      && (|ws| > 0 ==> ws[0].start == 0.0)
      && (forall i :: 0 <= i < |ws| ==> ws[i].end <= total)
  {
    var ws := Windows(fs, total, w, countLimit, sizeLimit);
    forall i | 0 <= i < |ws|
      ensures ws[i].start < ws[i].end <= total
    {
      WindowShape(fs, i, total, w, countLimit, sizeLimit);
    }
    forall i | 0 <= i < |ws| - 1
      ensures ws[i].end <= ws[i + 1].start
    {
      WindowShape(fs, i, total, w, countLimit, sizeLimit);
      WindowShape(fs, i + 1, total, w, countLimit, sizeLimit);
    }
    if |ws| > 0 {
      WindowShape(fs, 0, total, w, countLimit, sizeLimit);
    }
  }

  /** A frame at or after `total`, such as the last collected frame, is counted in no window. */
  lemma LateFrameUncounted(fs: seq<Frame>, total: real, w: real, countLimit: real, sizeLimit: real, f: Frame)
    requires w > 0.0 && f.rel >= total
    ensures forall i :: 0 <= i < NumWindows(total, w) ==>
      !InWindow(f, Windows(fs, total, w, countLimit, sizeLimit)[i].start, Windows(fs, total, w, countLimit, sizeLimit)[i].end)
  {
  }

  /** The sliding-window loop. */
  method ComputeWindows(fs: seq<Frame>, total: real, w: real, countLimit: real, sizeLimit: real) returns (ws: seq<Window>)
    requires w > 0.0
    ensures ws == Windows(fs, total, w, countLimit, sizeLimit)
  {
    var n := Ceil(total / w);
    ws := [];
    var i := 0;
    while i < n
      invariant 0 <= i <= NumWindows(total, w)
      invariant ws == seq(i, j requires 0 <= j => WindowAt(fs, j, total, w, countLimit, sizeLimit))
    {
      OffsetIsProduct(i, w);
      var lo := i as real * w;
      var hi := Min(lo + w, total);
      var m := ComputeWindowMetrics(fs, lo, hi);
      ghost var prev := ws;
      ws := ws + [Window(lo, hi, m, m.count as real > countLimit, m.total as real > sizeLimit)];
      assert forall j :: 0 <= j < i ==> ws[j] == prev[j];
      i := i + 1;
    }
  }

  /**
   * The detection runs from window i on, as index pairs (first, last) of
   * the windows; `open` is the first window of the run in progress.
   * A run closes at the first inactive window or at the end, and is kept
   * when its span lasts at least `minDur`.
   */
  function Runs(ws: seq<Window>, i: nat, open: Option<nat>, minDur: real): (runs: seq<(nat, nat)>)
    requires i <= |ws| && (open.Some? ==> open.value < i)
    ensures forall k :: 0 <= k < |runs| ==> runs[k].0 <= runs[k].1 < |ws|
    decreases |ws| - i
  {
    if i == |ws| then
      match open
      case None => []
      case Some(s) => if ws[|ws| - 1].end - ws[s].start >= minDur then [(s, |ws| - 1)] else []
    else if Active(ws[i]) then
      Runs(ws, i + 1, if open.None? then Some(i) else open, minDur)
    else
      match open
      case None => Runs(ws, i + 1, None, minDur)
      case Some(s) =>
        (if ws[i - 1].end - ws[s].start >= minDur then [(s, i - 1)] else []) + Runs(ws, i + 1, None, minDur)
  }

  /** The time spans of the runs. */
  function Spans(ws: seq<Window>, runs: seq<(nat, nat)>): (spans: seq<(real, real)>)
    requires forall k :: 0 <= k < |runs| ==> runs[k].0 <= runs[k].1 < |ws|
    ensures |spans| == |runs|
  {
    seq(|runs|, k requires 0 <= k < |runs| => (ws[runs[k].0].start, ws[runs[k].1].end))
  }

  /** A maximal run of active windows: windows a to b are active and neither neighbour is. */
  predicate MaximalRun(ws: seq<Window>, a: nat, b: nat)
  {
    && a <= b < |ws|
    && (forall j :: a <= j <= b ==> Active(ws[j]))
    && (a == 0 || !Active(ws[a - 1]))
    && (b == |ws| - 1 || !Active(ws[b + 1]))
  }

  /** What the scan knows at window i: the open run's windows so far are active and it began after an inactive window. */
  predicate ScanState(ws: seq<Window>, i: nat, open: Option<nat>)
    requires i <= |ws|
  {
    match open
    case None => i == 0 || !Active(ws[i - 1])
    case Some(s) => s < i && (s == 0 || !Active(ws[s - 1])) && forall j :: s <= j < i ==> Active(ws[j])
  }

  /** A kept run: maximal and lasting at least `minDur`. */
  predicate KeptRun(ws: seq<Window>, run: (nat, nat), minDur: real)
  {
    && MaximalRun(ws, run.0, run.1)
    && ws[run.1].end - ws[run.0].start >= minDur
  }

  /** The first window a run found from this state can start at. */
  function Earliest(i: nat, open: Option<nat>): nat
  {
    if open.Some? then open.value else i
  }

  /** Every run kept is a maximal run of active windows lasting at least `minDur`, and none starts before the scan position. */
  lemma {:induction false} RunsAreMaximal(ws: seq<Window>, i: nat, open: Option<nat>, minDur: real)
    requires i <= |ws| && (open.Some? ==> open.value < i) && ScanState(ws, i, open)
    ensures forall k :: 0 <= k < |Runs(ws, i, open, minDur)| ==> KeptRun(ws, Runs(ws, i, open, minDur)[k], minDur)
    decreases |ws| - i
  {
    var runs := Runs(ws, i, open, minDur);
    if i == |ws| {
      if open.Some? && runs != [] {
        assert runs == [(open.value, |ws| - 1)];
      }
    } else if Active(ws[i]) {
      RunsAreMaximal(ws, i + 1, if open.None? then Some(i) else open, minDur);
    } else {
      RunsAreMaximal(ws, i + 1, None, minDur);
      var rest := Runs(ws, i + 1, None, minDur);
      if open.Some? {
        var s := open.value;
        var head: seq<(nat, nat)> := if ws[i - 1].end - ws[s].start >= minDur then [(s, i - 1)] else [];
        assert runs == head + rest;
        forall k | 0 <= k < |runs|
          ensures KeptRun(ws, runs[k], minDur)
        {
          if k < |head| {
            assert runs[k] == (s, i - 1);
          } else {
            assert runs[k] == rest[k - |head|];
          }
        }
      }
    }
  }

  /** No run found from window i starts before the scan position. */
  lemma {:induction false} RunsStartFrom(ws: seq<Window>, i: nat, open: Option<nat>, minDur: real)
    requires i <= |ws| && (open.Some? ==> open.value < i)
    ensures forall k :: 0 <= k < |Runs(ws, i, open, minDur)| ==> Runs(ws, i, open, minDur)[k].0 >= Earliest(i, open)
    decreases |ws| - i
  {
    if i < |ws| {
      if Active(ws[i]) {
        RunsStartFrom(ws, i + 1, if open.None? then Some(i) else open, minDur);
      } else {
        RunsStartFrom(ws, i + 1, None, minDur);
      }
    }
  }

  /** Runs in order, each ending at least two windows before the next begins. */
  predicate Separated(runs: seq<(nat, nat)>)
  {
    forall k, l :: 0 <= k < l < |runs| ==> runs[k].1 + 1 < runs[l].0
  }

  /** Kept runs come in order, each separated from the next by an inactive window. */
  lemma {:induction false} RunsSeparated(ws: seq<Window>, i: nat, open: Option<nat>, minDur: real)
    requires i <= |ws| && (open.Some? ==> open.value < i) && ScanState(ws, i, open)
    ensures Separated(Runs(ws, i, open, minDur))
    decreases |ws| - i
  {
    var runs := Runs(ws, i, open, minDur);
    if i == |ws| {
    } else if Active(ws[i]) {
      RunsSeparated(ws, i + 1, if open.None? then Some(i) else open, minDur);
    } else {
      RunsSeparated(ws, i + 1, None, minDur);
      RunsStartFrom(ws, i + 1, None, minDur);
      var rest := Runs(ws, i + 1, None, minDur);
      if open.Some? && ws[i - 1].end - ws[open.value].start >= minDur {
        assert runs == [(open.value, i - 1)] + rest;
        SeparatedCons((open.value, i - 1), rest);
      }
    }
  }

  /** A run ending two windows before every later run begins can be put in front of them. */
  lemma SeparatedCons(run: (nat, nat), rest: seq<(nat, nat)>)
    requires Separated(rest) && forall k :: 0 <= k < |rest| ==> run.1 + 1 < rest[k].0
    ensures Separated([run] + rest)
  {
    var runs := [run] + rest;
    forall k, l | 0 <= k < l < |runs|
      ensures runs[k].1 + 1 < runs[l].0
    {
      assert runs[l] == rest[l - 1];
      if k > 0 {
        assert runs[k] == rest[k - 1];
      }
    }
  }

  /** Every maximal run lasting at least `minDur` that the scan has not passed is kept. */
  lemma {:induction false} RunsComplete(ws: seq<Window>, i: nat, open: Option<nat>, minDur: real, a: nat, b: nat)
    requires i <= |ws| && (open.Some? ==> open.value < i) && ScanState(ws, i, open)
    requires MaximalRun(ws, a, b) && ws[b].end - ws[a].start >= minDur
    requires (open.Some? && a == open.value) || a >= i
    ensures (a, b) in Runs(ws, i, open, minDur)
    decreases |ws| - i
  {
    var runs := Runs(ws, i, open, minDur);
    if i == |ws| {
      if open.None? {
        assert false;
      }
      if b < |ws| - 1 {
        assert false;
      }
      assert runs == [(a, b)];
    } else if Active(ws[i]) {
      if open.Some? && a == i {
        assert false;
      }
      RunsComplete(ws, i + 1, if open.None? then Some(i) else open, minDur, a, b);
    } else if open.Some? && a == open.value {
      if b < i - 1 {
        assert false;
      }
      if b >= i {
        assert false;
      }
      assert runs == [(a, b)] + Runs(ws, i + 1, None, minDur);
    } else {
      if a == i {
        assert false;
      }
      var rest := Runs(ws, i + 1, None, minDur);
      RunsComplete(ws, i + 1, None, minDur, a, b);
      assert runs[|runs| - |rest|..] == rest;
    }
  }

  /** The segmentation loop; `open` holds the first window of the run in progress. */
  method Segment(ws: seq<Window>, minDur: real) returns (detections: seq<(real, real)>)
    ensures detections == Spans(ws, Runs(ws, 0, None, minDur))
  {
    ghost var all := Spans(ws, Runs(ws, 0, None, minDur));
    detections := [];
    var open: Option<nat> := None;
    var i := 0;
    while i < |ws|
      invariant 0 <= i <= |ws| && (open.Some? ==> open.value < i)
      invariant detections + Spans(ws, Runs(ws, i, open, minDur)) == all
    {
      detections, open := SegmentStep(ws, minDur, i, open, detections);
      i := i + 1;
    }
    SpansAtEnd(ws, open, minDur);
    if open.Some? {
      var s := open.value;
      var startTime := ws[s].start;
      var endTime := ws[|ws| - 1].end;
      if endTime - startTime >= minDur {
        detections := detections + [(startTime, endTime)];
      }
    }
  }

  /** One window of the segmentation loop: it opens, extends or closes a run; the spans still to come account for the rest. */
  method SegmentStep(ws: seq<Window>, minDur: real, i: nat, open: Option<nat>, detections: seq<(real, real)>)
    returns (detections': seq<(real, real)>, open': Option<nat>)
    requires i < |ws| && (open.Some? ==> open.value < i)
    ensures open'.Some? ==> open'.value < i + 1
    ensures detections' + Spans(ws, Runs(ws, i + 1, open', minDur)) == detections + Spans(ws, Runs(ws, i, open, minDur))
  {
    detections', open' := detections, open;
    if ws[i].overCount || ws[i].overSize {
      assert Runs(ws, i, open, minDur) == Runs(ws, i + 1, if open.None? then Some(i) else open, minDur);
      if open.None? {
        open' := Some(i);
      }
    } else if open.Some? {
      var s := open.value;
      var startTime := ws[s].start;
      var endTime := ws[i - 1].end;
      SpansAtClose(ws, i, s, minDur);
      if endTime - startTime >= minDur {
        assert detections + ([(startTime, endTime)] + Spans(ws, Runs(ws, i + 1, None, minDur)))
          == (detections + [(startTime, endTime)]) + Spans(ws, Runs(ws, i + 1, None, minDur));
        detections' := detections + [(startTime, endTime)];
      }
      open' := None;
    } else {
      assert Runs(ws, i, open, minDur) == Runs(ws, i + 1, None, minDur);
    }
  }

  /** At an inactive window the open run closes, and its span leads when it lasts long enough. */
  lemma SpansAtClose(ws: seq<Window>, i: nat, s: nat, minDur: real)
    requires s < i < |ws| && !Active(ws[i])
    ensures Spans(ws, Runs(ws, i, Some(s), minDur))
      == (if ws[i - 1].end - ws[s].start >= minDur then [(ws[s].start, ws[i - 1].end)] else [])
         + Spans(ws, Runs(ws, i + 1, None, minDur))
  {
    var rest := Runs(ws, i + 1, None, minDur);
    if ws[i - 1].end - ws[s].start >= minDur {
      assert Runs(ws, i, Some(s), minDur) == [(s, i - 1)] + rest;
      SpansCons(ws, (s, i - 1), rest);
    } else {
      assert Runs(ws, i, Some(s), minDur) == rest;
    }
  }

  /** Putting a run in front puts its span in front. */
  lemma SpansCons(ws: seq<Window>, run: (nat, nat), rest: seq<(nat, nat)>)
    requires run.0 <= run.1 < |ws|
    requires forall k :: 0 <= k < |rest| ==> rest[k].0 <= rest[k].1 < |ws|
    ensures Spans(ws, [run] + rest) == [(ws[run.0].start, ws[run.1].end)] + Spans(ws, rest)
  {
    var runs := [run] + rest;
    assert forall k :: 0 <= k < |rest| ==> runs[k + 1] == rest[k];
  }

  /** At the end only the open run is left, kept when it lasts long enough. */
  lemma SpansAtEnd(ws: seq<Window>, open: Option<nat>, minDur: real)
    requires open.Some? ==> open.value < |ws|
    ensures Spans(ws, Runs(ws, |ws|, open, minDur))
      == (if open.Some? && ws[|ws| - 1].end - ws[open.value].start >= minDur
          then [(ws[open.value].start, ws[|ws| - 1].end)] else [])
  {
  }

  /** The windows of a capture whose last frame is at `total`, with both thresholds derived from the baseline. */
  function DetectWindows(fs: seq<Frame>, w: real, baselineDuration: real, countMul: real, sizeMul: real)
    : Result<seq<Window>, DetectError>
    requires fs != [] && w > 0.0
  {
    var total := fs[|fs| - 1].rel;
    match Baseline(fs, Min(baselineDuration, total * 0.2), w)
    case Err(e) => Err(e)
    case Ok(means) => Ok(Windows(fs, total, w, means.0 * countMul, means.1 * sizeMul))
  }

  /**
   * The thresholds are the baseline means times the multipliers: a window is
   * active exactly when its count or its size strictly exceeds them.
   */
  lemma ThresholdsFromBaseline(fs: seq<Frame>, w: real, baselineDuration: real, countMul: real, sizeMul: real)
    requires fs != [] && w > 0.0
    ensures DetectWindows(fs, w, baselineDuration, countMul, sizeMul).Ok? ==>
      var total := fs[|fs| - 1].rel;
      var means := Baseline(fs, Min(baselineDuration, total * 0.2), w).value;
      var ws := DetectWindows(fs, w, baselineDuration, countMul, sizeMul).value;
      forall i :: 0 <= i < |ws| ==>
        (Active(ws[i]) <==> CountIn(fs, ws[i].start, ws[i].end) as real > means.0 * countMul
                            || SizeIn(fs, ws[i].start, ws[i].end) as real > means.1 * sizeMul)
  {
  }

  /** The detections: the spans of the kept runs of those windows. */
  function Detect(fs: seq<Frame>, w: real, baselineDuration: real, countMul: real, sizeMul: real, minDur: real)
    : Result<seq<(real, real)>, DetectError>
    requires fs != [] && w > 0.0
  {
    match DetectWindows(fs, w, baselineDuration, countMul, sizeMul)
    case Err(e) => Err(e)
    case Ok(ws) => Ok(Spans(ws, Runs(ws, 0, None, minDur)))
  }

  /** A failed baseline fails the detection with the same error. */
  lemma DetectFails(fs: seq<Frame>, w: real, baselineDuration: real, countMul: real, sizeMul: real, minDur: real, e: DetectError)
    requires fs != [] && w > 0.0
    requires Baseline(fs, Min(baselineDuration, fs[|fs| - 1].rel * 0.2), w) == Err(e)
    ensures Detect(fs, w, baselineDuration, countMul, sizeMul, minDur) == Err(e)
  {
  }

  /** With baseline means `means`, the detections are the spans of the kept runs of the windows `ws` under the scaled thresholds. */
  lemma DetectSucceeds(fs: seq<Frame>, w: real, baselineDuration: real, countMul: real, sizeMul: real, minDur: real,
                       means: (real, real), ws: seq<Window>)
    requires fs != [] && w > 0.0
    requires Baseline(fs, Min(baselineDuration, fs[|fs| - 1].rel * 0.2), w) == Ok(means)
    requires ws == Windows(fs, fs[|fs| - 1].rel, w, means.0 * countMul, means.1 * sizeMul)
    ensures Detect(fs, w, baselineDuration, countMul, sizeMul, minDur).Ok?
    ensures Detect(fs, w, baselineDuration, countMul, sizeMul, minDur).value == Spans(ws, Runs(ws, 0, None, minDur))
  {
    WindowsFromBaseline(fs, w, baselineDuration, countMul, sizeMul, means);
  }

  /** With baseline means `means`, the windows are those of the whole capture under the scaled thresholds. */
  lemma WindowsFromBaseline(fs: seq<Frame>, w: real, baselineDuration: real, countMul: real, sizeMul: real, means: (real, real))
    requires fs != [] && w > 0.0
    requires Baseline(fs, Min(baselineDuration, fs[|fs| - 1].rel * 0.2), w) == Ok(means)
    ensures DetectWindows(fs, w, baselineDuration, countMul, sizeMul).Ok?
    ensures DetectWindows(fs, w, baselineDuration, countMul, sizeMul).value
      == Windows(fs, fs[|fs| - 1].rel, w, means.0 * countMul, means.1 * sizeMul)
  {
    var total := fs[|fs| - 1].rel;
    assert Baseline(fs, Min(baselineDuration, total * 0.2), w) == Ok(means);
  }

  /** Windows that tile time: each non-empty, each ending by the start of the next. */
  predicate Tiled(ws: seq<Window>)
  {
    && (forall i :: 0 <= i < |ws| ==> ws[i].start < ws[i].end)
    && (forall i :: 0 <= i < |ws| - 1 ==> ws[i].end <= ws[i + 1].start)
  }

  /** A detection is the span of a kept maximal run. */
  ghost predicate SpanOfKeptRun(ws: seq<Window>, d: (real, real), minDur: real)
  {
    exists a: nat, b: nat :: KeptRun(ws, (a, b), minDur) && d == (ws[a].start, ws[b].end)
  }

  /**
   * Every detection spans exactly a maximal run of active windows lasting
   * at least `minDur`, and every such run is detected.
   */
  lemma SpansAreRuns(ws: seq<Window>, minDur: real)
    ensures var ds := Spans(ws, Runs(ws, 0, None, minDur));
      && (forall k :: 0 <= k < |ds| ==> SpanOfKeptRun(ws, ds[k], minDur))
      && (forall a: nat, b: nat :: KeptRun(ws, (a, b), minDur) ==> (ws[a].start, ws[b].end) in ds)
  {
    var runs := Runs(ws, 0, None, minDur);
    var ds := Spans(ws, runs);
    RunsAreMaximal(ws, 0, None, minDur);
    forall k | 0 <= k < |ds|
      ensures SpanOfKeptRun(ws, ds[k], minDur)
    {
      var (a, b) := runs[k];
      assert KeptRun(ws, (a, b), minDur) && ds[k] == (ws[a].start, ws[b].end);
    }
    forall a: nat, b: nat | KeptRun(ws, (a, b), minDur)
      ensures (ws[a].start, ws[b].end) in ds
    {
      RunsComplete(ws, 0, None, minDur, a, b);
      var k :| 0 <= k < |runs| && runs[k] == (a, b);
      assert ds[k] == (ws[a].start, ws[b].end);
    }
  }

  /** Over tiled windows, the detections are non-empty intervals in increasing time order, without overlap. */
  lemma SpansInOrder(ws: seq<Window>, minDur: real)
    requires Tiled(ws)
    ensures var ds := Spans(ws, Runs(ws, 0, None, minDur));
      && (forall k :: 0 <= k < |ds| ==> ds[k].0 < ds[k].1)
      && (forall k, l :: 0 <= k < l < |ds| ==> ds[k].1 <= ds[l].0)
  {
    var runs := Runs(ws, 0, None, minDur);
    var ds := Spans(ws, runs);
    RunsSeparated(ws, 0, None, minDur);
    forall k | 0 <= k < |ds|
      ensures ds[k].0 < ds[k].1
    {
      WindowsOrdered(ws, runs[k].0, runs[k].1);
    }
    forall k, l | 0 <= k < l < |ds|
      ensures ds[k].1 <= ds[l].0
    {
      WindowsOrdered(ws, runs[k].1, runs[l].0);
    }
  }

  /**
   * A run fails exactly when its baseline does; the windows of a successful
   * run tile [0, total), and its detections are the spans of their kept runs.
   */
  lemma DetectionsAreRuns(fs: seq<Frame>, w: real, baselineDuration: real, countMul: real, sizeMul: real, minDur: real)
    requires fs != [] && w > 0.0
    ensures var total := fs[|fs| - 1].rel;
      Detect(fs, w, baselineDuration, countMul, sizeMul, minDur).Err? <==> Min(baselineDuration, total * 0.2) < w
    ensures Detect(fs, w, baselineDuration, countMul, sizeMul, minDur).Ok? ==>
      var ws := DetectWindows(fs, w, baselineDuration, countMul, sizeMul).value;
      && Tiled(ws)
      && (forall i :: 0 <= i < |ws| ==> ws[i].end <= fs[|fs| - 1].rel)
      && Detect(fs, w, baselineDuration, countMul, sizeMul, minDur).value == Spans(ws, Runs(ws, 0, None, minDur))
  {
    var total := fs[|fs| - 1].rel;
    var duration := Min(baselineDuration, total * 0.2);
    BaselineFailsIffShort(fs, duration, w);
    var b := Baseline(fs, duration, w);
    var d := DetectWindows(fs, w, baselineDuration, countMul, sizeMul);
    assert d.Err? <==> b.Err?;
    if b.Ok? {
      var countLimit, sizeLimit := b.value.0 * countMul, b.value.1 * sizeMul;
      assert d.value == Windows(fs, total, w, countLimit, sizeLimit);
      WindowsTile(fs, total, w, countLimit, sizeLimit);
    }
  }

  /** In tiled windows, a window ends no later than any later window starts, and starts before it ends. */
  lemma {:induction false} WindowsOrdered(ws: seq<Window>, j: nat, l: nat)
    requires j <= l < |ws| && Tiled(ws)
    ensures ws[j].start < ws[l].end
    ensures j < l ==> ws[j].end <= ws[l].start
    decreases l - j
  {
    if j < l {
      WindowsOrdered(ws, j + 1, l);
    }
  }

  /** The detection pipeline after loading: baseline, thresholds, windows, segmentation. */
  method DetectCars(fs: seq<Frame>, w: real, baselineDuration: real, countMul: real, sizeMul: real, minDur: real)
    returns (r: Result<seq<(real, real)>, DetectError>)
    requires fs != [] && w > 0.0
    ensures r == Detect(fs, w, baselineDuration, countMul, sizeMul, minDur)
  {
    var total := fs[|fs| - 1].rel;
    var duration := Min(baselineDuration, total * 0.2);
    var baseline := EstablishBaseline(fs, duration, w);
    match baseline
    case Err(e) =>
      DetectFails(fs, w, baselineDuration, countMul, sizeMul, minDur, e);
      r := Err(e);
    case Ok(means) =>
      var ws := ComputeWindows(fs, total, w, means.0 * countMul, means.1 * sizeMul);
      DetectSucceeds(fs, w, baselineDuration, countMul, sizeMul, minDur, means, ws);
      var detections := Segment(ws, minDur);
      r := Ok(detections);
  }

  /** Loading with the first 1000 packets skipped, then detection with the script's constants. */
  method Analyze(ps: seq<Packet>) returns (r: Result<seq<(real, real)>, DetectError>)
    ensures match SelectFrames(ps, SkipInitialPackets)
      case Err(e) => r == Err(Load(e))
      case Ok((fs, _)) => r == Detect(fs, WindowSeconds, BaselineSeconds, CountMultiplier, SizeMultiplier, MinDetectionSeconds)
  {
    var loaded := LoadFrames(ps, SkipInitialPackets);
    if loaded.Err? {
      return Err(Load(loaded.error));
    }
    var (fs, _) := loaded.value;
    r := DetectCars(fs, WindowSeconds, BaselineSeconds, CountMultiplier, SizeMultiplier, MinDetectionSeconds);
  }
}
