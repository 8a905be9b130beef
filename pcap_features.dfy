/**
 * Frame-slot features of an 802.11 capture: the Data frames collected from
 * the first video frame on are grouped into slots of one camera frame
 * (1/20 s), and each slot yields six features: packet count, byte total,
 * mean and variance of the packet sizes, and mean and variance of the
 * inter-arrival gaps.
 */
module PcapFeatures {
  import opened Wrappers
  import opened Numeric
  import opened Sorting
  import opened Capture

  /** Seconds per frame slot: one frame at the camera's 20 frames per second. */
  const FrameDuration: real := 1.0 / 20.0

  /** The number of slots: `int(np.ceil(last / frame_duration)) + 1`. */
  function NumSlots(last: real): (n: nat)
    requires last >= 0.0
    ensures n >= 1 && last < n as real * FrameDuration
  {
    Ceil(last / FrameDuration) + 1
  }

  /** The slot of a frame: `int(rel / frame_duration)`, clamped to the last slot. */
  function SlotOf(rel: real, n: nat): (k: nat)
    requires rel >= 0.0 && n >= 1
    ensures k < n
  {
    var k := Trunc(rel / FrameDuration);
    if k >= n then n - 1 else k
  }

  /** For a frame no later than the last one the clamp never applies: its slot is the one its time falls in. */
  lemma {:induction false} SlotIsUnclamped(rel: real, last: real)
    requires 0.0 <= rel <= last
    ensures Trunc(rel / FrameDuration) < NumSlots(last)
    ensures var k := SlotOf(rel, NumSlots(last));
      k as real * FrameDuration <= rel < (k + 1) as real * FrameDuration
  {
  }

  /** A packet stored in a slot. */
  datatype Entry = Entry(size: nat, timestamp: real)

  predicate NonNegativeTimes(fs: seq<Frame>)
  {
    forall k :: 0 <= k < |fs| ==> fs[k].rel >= 0.0
  }

  function EntryOf(f: Frame): Entry
  {
    Entry(f.size, f.timestamp)
  }

  /** The slot lists after appending each frame, in order, to the list of its slot. */
  function Bucketed(fs: seq<Frame>, n: nat): (bs: seq<seq<Entry>>)
    requires n >= 1 && NonNegativeTimes(fs)
    ensures |bs| == n
  {
    if fs == [] then seq(n, _ => [])
    else
      var f := fs[|fs| - 1];
      var bs := Bucketed(fs[..|fs| - 1], n);
      var k := SlotOf(f.rel, n);
      bs[k := bs[k] + [EntryOf(f)]]
  }

  /** The frames whose slot is k, in capture order. */
  function InSlot(fs: seq<Frame>, n: nat, k: nat): seq<Entry>
    requires n >= 1 && NonNegativeTimes(fs)
  {
    if fs == [] then []
    else
      var f := fs[|fs| - 1];
      InSlot(fs[..|fs| - 1], n, k) + (if SlotOf(f.rel, n) == k then [EntryOf(f)] else [])
  }

  /** Slot k holds exactly the frames whose slot is k, in capture order. */
  lemma {:induction false} BucketsAreSlots(fs: seq<Frame>, n: nat)
    requires n >= 1 && NonNegativeTimes(fs)
    ensures forall k :: 0 <= k < n ==> Bucketed(fs, n)[k] == InSlot(fs, n, k)
  {
    if fs != [] {
      BucketsAreSlots(fs[..|fs| - 1], n);
    }
  }

  /** The number of entries over all slots. */
  function TotalLength(bs: seq<seq<Entry>>): nat
  {
    if bs == [] then 0 else TotalLength(bs[..|bs| - 1]) + |bs[|bs| - 1]|
  }

  lemma {:induction false} TotalLengthOfEmpty(n: nat)
    ensures TotalLength(seq(n, _ => [])) == 0
  {
    if n > 0 {
      var bs: seq<seq<Entry>> := seq(n, _ => []);
      assert bs[..n - 1] == seq(n - 1, _ => []);
      TotalLengthOfEmpty(n - 1);
    }
  }

  lemma {:induction false} TotalLengthAppend(bs: seq<seq<Entry>>, k: nat, e: Entry)
    requires k < |bs|
    ensures TotalLength(bs[k := bs[k] + [e]]) == TotalLength(bs) + 1
  {
    var bs' := bs[k := bs[k] + [e]];
    if k < |bs| - 1 {
      assert bs'[..|bs| - 1] == bs[..|bs| - 1][k := bs[k] + [e]];
      TotalLengthAppend(bs[..|bs| - 1], k, e);
    } else {
      assert bs'[..|bs| - 1] == bs[..|bs| - 1];
    }
  }

  /** Every frame lands in exactly one slot: the slot lists hold |fs| entries in all. */
  lemma {:induction false} BucketsPartition(fs: seq<Frame>, n: nat)
    requires n >= 1 && NonNegativeTimes(fs)
    ensures TotalLength(Bucketed(fs, n)) == |fs|
  {
    if fs == [] {
      TotalLengthOfEmpty(n);
    } else {
      var init := fs[..|fs| - 1];
      BucketsPartition(init, n);
      TotalLengthAppend(Bucketed(init, n), SlotOf(fs[|fs| - 1].rel, n), EntryOf(fs[|fs| - 1]));
    }
  }

  /** The grouping loop. */
  method BucketFrames(fs: seq<Frame>, n: nat) returns (buckets: seq<seq<Entry>>)
    requires n >= 1 && NonNegativeTimes(fs)
    ensures buckets == Bucketed(fs, n)
  {
    buckets := seq(n, _ => []);
    var i := 0;
    while i < |fs|
      invariant 0 <= i <= |fs|
      invariant buckets == Bucketed(fs[..i], n)
    {
      assert fs[..i + 1][..i] == fs[..i];
      var k := Trunc(fs[i].rel / FrameDuration);
      if k >= n {
        k := n - 1;
      }
      buckets := buckets[k := buckets[k] + [Entry(fs[i].size, fs[i].timestamp)]];
      i := i + 1;
    }
    assert fs[..|fs|] == fs;
  }

  function RealSum(xs: seq<real>): real
  {
    if xs == [] then 0.0 else RealSum(xs[..|xs| - 1]) + xs[|xs| - 1]
  }

  /** `np.mean`. */
  function RealMean(xs: seq<real>): real
    requires |xs| > 0
  {
    RealSum(xs) / |xs| as real
  }

  function SquaredDeviations(xs: seq<real>, m: real): (ds: seq<real>)
    ensures |ds| == |xs| && forall i :: 0 <= i < |xs| ==> ds[i] == (xs[i] - m) * (xs[i] - m)
  {
    seq(|xs|, i requires 0 <= i < |xs| => (xs[i] - m) * (xs[i] - m))
  }

  /** The population variance, the square of `np.std`. */
  function Variance(xs: seq<real>): real
    requires |xs| > 0
  {
    RealMean(SquaredDeviations(xs, RealMean(xs)))
  }

  /** Differences of consecutive values, `np.diff`. */
  function Gaps(ts: seq<real>): (gs: seq<real>)
    requires |ts| > 0
    ensures |gs| == |ts| - 1
  {
    seq(|ts| - 1, i requires 0 <= i < |ts| - 1 => ts[i + 1] - ts[i])
  }

  function Sizes(b: seq<Entry>): (xs: seq<real>)
    ensures |xs| == |b|
  {
    seq(|b|, i requires 0 <= i < |b| => b[i].size as real)
  }

  function Times(b: seq<Entry>): (ts: seq<real>)
    ensures |ts| == |b|
  {
    seq(|b|, i requires 0 <= i < |b| => b[i].timestamp)
  }

  function SizeTotal(b: seq<Entry>): nat
  {
    if b == [] then 0 else SizeTotal(b[..|b| - 1]) + b[|b| - 1].size
  }

  /** The six features of one slot. */
  datatype Row = Row(count: nat, sum: nat, sizeMean: real, sizeVar: real, gapMean: real, gapVar: real)

  const EmptyRow := Row(0, 0, 0.0, 0.0, 0.0, 0.0)

  /** The features of a slot: zeros when empty; spreads are 0 for a single packet. */
  function SlotFeatures(b: seq<Entry>): Row
  {
    if b == [] then EmptyRow
    else
      var sizes := Sizes(b);
      var ts := SortBy(Times(b), t => t);
      Row(|b|, SizeTotal(b), RealMean(sizes),
        if |sizes| > 1 then Variance(sizes) else 0.0,
        if |ts| > 1 then RealMean(Gaps(ts)) else 0.0,
        if |ts| > 1 then Variance(Gaps(ts)) else 0.0)
  }

  lemma {:induction false} SumOfNonNegative(xs: seq<real>)
    requires forall i :: 0 <= i < |xs| ==> xs[i] >= 0.0
    ensures RealSum(xs) >= 0.0
  {
    if xs != [] {
      SumOfNonNegative(xs[..|xs| - 1]);
    }
  }

  lemma {:induction false} SumOfZeros(xs: seq<real>)
    requires forall i :: 0 <= i < |xs| ==> xs[i] == 0.0
    ensures RealSum(xs) == 0.0
  {
    if xs != [] {
      SumOfZeros(xs[..|xs| - 1]);
    }
  }

  /** A variance is never negative. */
  lemma {:induction false} VarianceNonNegative(xs: seq<real>)
    requires |xs| > 0
    ensures Variance(xs) >= 0.0
  {
    var ds := SquaredDeviations(xs, RealMean(xs));
    forall i | 0 <= i < |ds|
      ensures ds[i] >= 0.0
    {
      var d := xs[i] - RealMean(xs);
      assert ds[i] == d * d;
    }
    SumOfNonNegative(ds);
  }

  /** The variance of equal values is 0; in particular `np.std` of one packet is 0, which is what the guard returns. */
  lemma {:induction false} ConstantHasNoVariance(xs: seq<real>)
    requires |xs| > 0 && forall i :: 0 <= i < |xs| ==> xs[i] == xs[0]
    ensures RealMean(xs) == xs[0]
    ensures Variance(xs) == 0.0
  {
    var n := |xs| as real;
    ConstantSum(xs);
    Cancel(RealSum(xs), n, xs[0]);
    var ds := SquaredDeviations(xs, xs[0]);
    forall i | 0 <= i < |ds|
      ensures ds[i] == 0.0
    {
      assert xs[i] == xs[0];
      assert ds[i] == (xs[0] - xs[0]) * (xs[0] - xs[0]);
    }
    SumOfZeros(ds);
    Cancel(RealSum(ds), n, 0.0);
  }

  lemma Cancel(s: real, n: real, x: real)
    requires n > 0.0 && s == n * x
    ensures s / n == x
  {
  }

  lemma {:induction false} ConstantSum(xs: seq<real>)
    requires |xs| > 0 && forall i :: 0 <= i < |xs| ==> xs[i] == xs[0]
    ensures RealSum(xs) == |xs| as real * xs[0]
  {
    if |xs| > 1 {
      ConstantSum(xs[..|xs| - 1]);
    } else {
      assert xs[..0] == [];
    }
  }

  /** The gaps of a sorted sequence are non-negative. */
  lemma {:induction false} GapsOfSortedNonNegative(ts: seq<real>)
    requires |ts| > 0 && SortedBy(ts, t => t)
    ensures forall i :: 0 <= i < |Gaps(ts)| ==> Gaps(ts)[i] >= 0.0
  {
    forall i | 0 <= i < |Gaps(ts)|
      ensures Gaps(ts)[i] >= 0.0
    {
      assert (t => t)(ts[i]) <= (t => t)(ts[i + 1]);
    }
  }

  /** The gaps telescope: their sum is the last value minus the first. */
  lemma {:induction false} GapsTelescope(ts: seq<real>)
    requires |ts| > 0
    ensures RealSum(Gaps(ts)) == ts[|ts| - 1] - ts[0]
  {
    if |ts| > 1 {
      var init := ts[..|ts| - 1];
      GapsTelescope(init);
      assert Gaps(ts)[..|ts| - 2] == Gaps(init);
    }
  }

  /**
   * The counting features of a slot: count and total are those of its
   * packets, the row is all zeros exactly for an empty slot, and the mean
   * size is the total over the count.
   */
  lemma {:induction false} SlotTotals(b: seq<Entry>)
    ensures var row := SlotFeatures(b);
      && row.count == |b|
      && row.sum == SizeTotal(b)
      && (row == EmptyRow <==> b == [])
      && (b != [] ==> row.sizeMean == row.sum as real / |b| as real)
  {
    if b != [] {
      SizesSum(b);
    }
  }

  /** No spread and no mean gap of a slot is negative. */
  lemma {:induction false} SlotSpreads(b: seq<Entry>)
    ensures var row := SlotFeatures(b);
      row.sizeVar >= 0.0 && row.gapMean >= 0.0 && row.gapVar >= 0.0
  {
    if |b| > 1 {
      VarianceNonNegative(Sizes(b));
      var ts := SortBy(Times(b), t => t);
      var gs := Gaps(ts);
      GapsOfSortedNonNegative(ts);
      SumOfNonNegative(gs);
      NonNegativeMean(gs);
      VarianceNonNegative(gs);
    }
  }

  lemma {:induction false} NonNegativeMean(xs: seq<real>)
    requires |xs| > 0 && RealSum(xs) >= 0.0
    ensures RealMean(xs) >= 0.0
  {
  }

  /** A slot with a single packet: its size is the mean, with no spread and no gap. */
  lemma {:induction false} SlotOfOne(b: seq<Entry>)
    requires |b| == 1
    ensures var row := SlotFeatures(b);
      row.sizeMean == b[0].size as real && row.sizeVar == 0.0 && row.gapMean == 0.0 && row.gapVar == 0.0
  {
    ConstantHasNoVariance(Sizes(b));
  }

  lemma {:induction false} SizesSum(b: seq<Entry>)
    ensures RealSum(Sizes(b)) == SizeTotal(b) as real
  {
    if b != [] {
      SizesSum(b[..|b| - 1]);
      assert Sizes(b)[..|b| - 1] == Sizes(b[..|b| - 1]);
    }
  }

  /** The mean gap of a slot with several packets spans its earliest to its latest packet. */
  lemma {:induction false} GapMeanSpansSlot(b: seq<Entry>)
    requires |b| > 1
    ensures var ts := SortBy(Times(b), t => t);
      SlotFeatures(b).gapMean == (ts[|ts| - 1] - ts[0]) / (|b| - 1) as real
  {
    GapsTelescope(SortBy(Times(b), t => t));
  }

  /** The features of every slot, written row by row into `rows`. */
  method FillFeatures(buckets: seq<seq<Entry>>, rows: array<Row>)
    requires rows.Length == |buckets|
    modifies rows
    ensures rows[..] == seq(|buckets|, k requires 0 <= k < |buckets| => SlotFeatures(buckets[k]))
  {
    var k := 0;
    while k < rows.Length
      invariant 0 <= k <= rows.Length
      invariant forall j :: 0 <= j < k ==> rows[j] == SlotFeatures(buckets[j])
    {
      rows[k] := SlotFeatures(buckets[k]);
      k := k + 1;
    }
  }

  /** The sum of the count column. */
  function CountColumn(rows: seq<Row>): nat
  {
    if rows == [] then 0 else CountColumn(rows[..|rows| - 1]) + rows[|rows| - 1].count
  }

  lemma {:induction false} CountColumnIsTotal(bs: seq<seq<Entry>>)
    ensures CountColumn(seq(|bs|, k requires 0 <= k < |bs| => SlotFeatures(bs[k]))) == TotalLength(bs)
  {
    if bs != [] {
      var init := bs[..|bs| - 1];
      CountColumnIsTotal(init);
      var rows := seq(|bs|, k requires 0 <= k < |bs| => SlotFeatures(bs[k]));
      assert rows[..|bs| - 1] == seq(|init|, k requires 0 <= k < |init| => SlotFeatures(init[k]));
      SlotTotals(bs[|bs| - 1]);
    }
  }

  /** The feature matrix of a capture: every frame from the first video frame on, without skipping any packet. */
  function Features(ps: seq<Packet>): (r: Result<seq<Row>, CaptureError>)
  {
    SelectionOutcome(ps, 0);
    match SelectFrames(ps, 0)
    case Err(e) => Err(e)
    case Ok((fs, _)) =>
      var n := NumSlots(fs[|fs| - 1].rel);
      var bs := Bucketed(fs, n);
      Ok(seq(n, k requires 0 <= k < n => SlotFeatures(bs[k])))
  }

  /**
   * The outcome: it fails exactly for a capture without packets or without
   * a video packet; otherwise there are ceil(last / frame) + 1 rows, row k
   * counts the frames whose slot is k, and the count column sums to the
   * number of collected frames.
   */
  lemma {:induction false} FeaturesOutcome(ps: seq<Packet>)
    ensures Features(ps).Err? <==> |ps| == 0 || forall i :: 0 <= i < |ps| ==> !IsVideo(ps[i])
    ensures Features(ps).Err? ==> Features(ps).error in {NoPackets, NoVideoPacket}
    ensures Features(ps).Ok? ==>
      var fs := SelectFrames(ps, 0).value.0;
      var n := NumSlots(fs[|fs| - 1].rel);
      var rows := Features(ps).value;
      && |rows| == n
      && (forall k :: 0 <= k < n ==> rows[k].count == |InSlot(fs, n, k)|)
      && CountColumn(rows) == |fs|
  {
    SelectionOutcome(ps, 0);
    VideoFrameIsCollected(ps, 0);
    if Features(ps).Ok? {
      var fs := SelectFrames(ps, 0).value.0;
      var n := NumSlots(fs[|fs| - 1].rel);
      var bs := Bucketed(fs, n);
      BucketsAreSlots(fs, n);
      BucketsPartition(fs, n);
      CountColumnIsTotal(bs);
      forall k | 0 <= k < n
        ensures Features(ps).value[k].count == |InSlot(fs, n, k)|
      {
        SlotTotals(bs[k]);
      }
    }
  }

  /** The extraction: load, size the matrix, group, then fill it row by row. */
  method ExtractFrameFeatures(ps: seq<Packet>) returns (r: Result<seq<Row>, CaptureError>)
    ensures r == Features(ps)
  {
    var loaded := LoadFrames(ps, 0);
    if loaded.Err? {
      return Err(loaded.error);
    }
    SelectionOutcome(ps, 0);
    var (fs, _) := loaded.value;
    var n := Ceil(fs[|fs| - 1].rel / FrameDuration) + 1;
    var rows := new Row[n](_ => EmptyRow);
    var buckets := BucketFrames(fs, n);
    FillFeatures(buckets, rows);
    return Ok(rows[..]);
  }
}
