/**
 * Dataset preparation for the sequence regressor: pairing the feature and
 * label arrays of each camera, cutting both into aligned stride-1 windows,
 * and sizing the train/test split.
 */
module Training {
  import opened Wrappers
  import opened Numeric
  import opened Inference

  /** Frames per window. */
  const WindowSize: nat := 16

  /** The fraction of windows held out for testing. */
  const TestSplit: real := 0.2

  /** One camera's files: its features, and its labels when the label file exists. */
  datatype Camera = Camera(x: Matrix, y: Option<FeatureArray>)

  datatype Pair = Pair(x: Matrix, y: Matrix)

  datatype LoadError = NoUsablePairs

  /** The pair a camera contributes: both arrays cut to the shorter length, if that is at least one window. */
  function PairOf(c: Camera): (r: Option<Pair>)
    ensures r.Some? ==> |r.value.x| == |r.value.y| >= WindowSize
  {
    match c.y
    case None => None
    case Some(f) =>
      var y := AsTable(f);
      var n := Min(|c.x|, |y|);
      if n < WindowSize then None else Some(Pair(c.x[..n], y[..n]))
  }

  /** The pairs of the cameras, in their order. */
  function PairsOf(cs: seq<Camera>): (ps: seq<Pair>)
    ensures forall k :: 0 <= k < |ps| ==> |ps[k].x| == |ps[k].y| >= WindowSize
  {
    if cs == [] then []
    else
      var init := PairsOf(cs[..|cs| - 1]);
      match PairOf(cs[|cs| - 1])
      case None => init
      case Some(p) => init + [p]
  }

  /** `load_feature_pairs`: an error when no camera is usable. */
  function LoadPairs(cs: seq<Camera>): Result<seq<Pair>, LoadError>
  {
    var ps := PairsOf(cs);
    if ps == [] then Err(NoUsablePairs) else Ok(ps)
  }

  /**
   * A pair is loaded exactly when some camera has a label file and at least
   * a window's worth of frames in both arrays; it is then the common prefix
   * of that camera's features and labels.
   */
  lemma {:induction false} PairsExactly(cs: seq<Camera>, p: Pair)
    ensures p in PairsOf(cs) <==> exists i :: 0 <= i < |cs| && PairOf(cs[i]) == Some(p)
  {
    if cs != [] {
      var init := cs[..|cs| - 1];
      PairsExactly(init, p);
      if exists i :: 0 <= i < |cs| && PairOf(cs[i]) == Some(p) {
        var i :| 0 <= i < |cs| && PairOf(cs[i]) == Some(p);
        if i < |cs| - 1 {
          assert init[i] == cs[i];
        }
      }
    }
  }

  /** The usable cameras' pairs have matching lengths of at least one window and are prefixes of the files. */
  lemma PairOfMeaning(c: Camera)
    ensures PairOf(c).Some? <==> c.y.Some? && |c.x| >= WindowSize && |AsTable(c.y.value)| >= WindowSize
    ensures PairOf(c).Some? ==>
      var p := PairOf(c).value;
      && |p.x| == Min(|c.x|, |AsTable(c.y.value)|)
      && p.x == c.x[..|p.x|] && p.y == AsTable(c.y.value)[..|p.y|]
  {
  }

  /** The loading loop. */
  method LoadFeaturePairs(cs: seq<Camera>) returns (r: Result<seq<Pair>, LoadError>)
    ensures r == LoadPairs(cs)
  {
    var pairs: seq<Pair> := [];
    for i := 0 to |cs|
      invariant pairs == PairsOf(cs[..i])
    {
      assert cs[..i + 1][..i] == cs[..i];
      var c := cs[i];
      if c.y.None? {
        continue;
      }
      var y := AsTable(c.y.value);
      var n := if |c.x| <= |y| then |c.x| else |y|;
      if n < WindowSize {
        continue;
      }
      pairs := pairs + [Pair(c.x[..n], y[..n])];
    }
    assert cs[..|cs|] == cs;
    if pairs == [] {
      return Err(NoUsablePairs);
    }
    return Ok(pairs);
  }

  /** Slicing `s[a:b]` as numpy does, clamped to the sequence. */
  function Slice<T>(s: seq<T>, a: nat, b: nat): seq<T>
  {
    var lo := if a <= |s| then a else |s|;
    var hi := if b <= |s| then (if b >= lo then b else lo) else |s|;
    s[lo..hi]
  }

  /** The windows of one pair: none for a pair shorter than the window. */
  function PairWindows(p: Pair, w: nat): (r: seq<(Matrix, Matrix)>)
    ensures |p.x| >= w ==> |r| == |p.x| - w + 1
    ensures |p.x| < w ==> r == []
  {
    if |p.x| < w then []
    else seq(|p.x| - w + 1, start requires 0 <= start <= |p.x| - w => (p.x[start..start + w], Slice(p.y, start, start + w)))
  }

  /** `build_windows`: the windows of every pair, pair by pair. */
  function AllWindows(ps: seq<Pair>, w: nat): seq<(Matrix, Matrix)>
  {
    if ps == [] then [] else AllWindows(ps[..|ps| - 1], w) + PairWindows(ps[|ps| - 1], w)
  }

  /** Where each window comes from: the pair's index and the start frame. */
  function Origins(ps: seq<Pair>, w: nat): (os: seq<(nat, nat)>)
    ensures forall j :: 0 <= j < |os| ==> os[j].0 < |ps| && os[j].1 + w <= |ps[os[j].0].x|
  {
    if ps == [] then []
    else
      var n := |ps| - 1;
      var init := Origins(ps[..n], w);
      var p := ps[n];
      init + (if |p.x| < w then [] else seq(|p.x| - w + 1, start requires 0 <= start <= |p.x| - w => (n, start)))
  }

  /** The number of windows: |x| - w + 1 for each pair at least w long. */
  function WindowCount(ps: seq<Pair>, w: nat): nat
  {
    if ps == [] then 0
    else WindowCount(ps[..|ps| - 1], w) + (if |ps[|ps| - 1].x| < w then 0 else |ps[|ps| - 1].x| - w + 1)
  }

  /**
   * The x-window and the y-window at each output index come from the same
   * pair and cover the same frames of it, and there are as many windows as
   * the pairs' lengths allow.
   */
  lemma {:induction false} WindowsAligned(ps: seq<Pair>, w: nat)
    ensures |AllWindows(ps, w)| == |Origins(ps, w)| == WindowCount(ps, w)
    ensures forall j :: 0 <= j < |Origins(ps, w)| ==>
      var (i, start) := Origins(ps, w)[j];
      AllWindows(ps, w)[j] == (ps[i].x[start..start + w], Slice(ps[i].y, start, start + w))
  {
    if ps != [] {
      var n := |ps| - 1;
      var init := ps[..n];
      WindowsAligned(init, w);
      var ws, os := AllWindows(ps, w), Origins(ps, w);
      var wi, oi := AllWindows(init, w), Origins(init, w);
      forall j | 0 <= j < |os|
        ensures var (i, start) := os[j];
          ws[j] == (ps[i].x[start..start + w], Slice(ps[i].y, start, start + w))
      {
        if j < |oi| {
          assert os[j] == oi[j] && ws[j] == wi[j];
          assert ps[os[j].0] == init[os[j].0];
        } else {
          assert os[j] == (n, j - |oi|);
        }
      }
    }
  }

  /** For loaded pairs, whose arrays have equal lengths, every y-window has w frames, like its x-window. */
  lemma LoadedWindowsFull(cs: seq<Camera>, w: nat)
    requires LoadPairs(cs).Ok?
    ensures var ps := LoadPairs(cs).value;
      forall j :: 0 <= j < |AllWindows(ps, w)| ==> |AllWindows(ps, w)[j].0| == |AllWindows(ps, w)[j].1| == w
  {
    var ps := LoadPairs(cs).value;
    WindowsAligned(ps, w);
  }

  /** The windowing loops: pairs in order, start positions in order within each. */
  method BuildWindows(ps: seq<Pair>, w: nat) returns (windowsX: seq<Matrix>, windowsY: seq<Matrix>)
    ensures |windowsX| == |windowsY| == |AllWindows(ps, w)|
    ensures forall j :: 0 <= j < |windowsX| ==> (windowsX[j], windowsY[j]) == AllWindows(ps, w)[j]
  {
    windowsX, windowsY := [], [];
    for i := 0 to |ps|
      invariant |windowsX| == |windowsY| == |AllWindows(ps[..i], w)|
      invariant forall j :: 0 <= j < |windowsX| ==> (windowsX[j], windowsY[j]) == AllWindows(ps[..i], w)[j]
    {
      assert ps[..i + 1][..i] == ps[..i];
      var p := ps[i];
      if |p.x| < w {
        continue;
      }
      ghost var before := AllWindows(ps[..i], w);
      for start := 0 to |p.x| - w + 1
        invariant |windowsX| == |windowsY| == |before| + start
        invariant forall j :: 0 <= j < |before| ==> (windowsX[j], windowsY[j]) == before[j]
        invariant forall j :: 0 <= j < start ==> (windowsX[|before| + j], windowsY[|before| + j]) == PairWindows(p, w)[j]
      {
        windowsX := windowsX + [p.x[start..start + w]];
        windowsY := windowsY + [Slice(p.y, start, start + w)];
      }
    }
    assert ps[..|ps|] == ps;
  }

  /** `split_dataset`: the test part has ceil(n * split) items and the training part the rest. */
  function SplitLengths(n: nat, split: real): (lengths: (int, int))
  {
    var test := Ceil(n as real * split);
    (n - test, test)
  }

  /**
   * With the 0.2 split, the test part is the smallest part of at least a
   * fifth of the items, both parts are non-negative, and they add up to n.
   */
  lemma SplitMeaning(n: nat)
    ensures var (train, test) := SplitLengths(n, TestSplit);
      && test == (n + 4) / 5
      && 0 <= test <= n && 0 <= train
      && train + test == n
      && 5 * test >= n > 5 * (test - 1)
  {
    var test := Ceil(n as real * TestSplit);
    var q := (n + 4) / 5;
    assert q as real >= n as real * 0.2;
    assert (q - 1) as real < n as real * 0.2;
  }
}
