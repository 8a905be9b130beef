/**
 * Selection of 802.11 Data frames from a capture, shared by the analytic
 * detector and the frame-feature extractor: find the first "video" frame
 * (a Data frame, type 2 in section 9.2.4.1.3 of IEEE 802.11-2016, of at
 * least 1000 bytes) and collect every Data frame whose timestamp is not
 * before it, with its time relative to that first video frame.
 */
module Capture {
  import opened Wrappers

  /** A captured packet: whether it carries an 802.11 Data frame, its length in bytes and its capture time. */
  datatype Packet = Packet(isData: bool, size: nat, time: real)

  const MinVideoPacketSize: nat := 1000

  /** The analytic detector ignores the first 1000 packets of a capture. */
  const SkipInitialPackets: nat := 1000

  predicate IsVideo(p: Packet)
  {
    p.isData && p.size >= MinVideoPacketSize
  }

  /** A collected Data frame; `index` is its position in the whole capture. */
  datatype Frame = Frame(timestamp: real, size: nat, rel: real, index: nat)

  datatype CaptureError = NoPackets | TooFewToSkip | NoVideoPacket | NoDataFrames

  /** The position of the first video packet, if any. */
  function FirstVideo(ps: seq<Packet>): (r: Option<nat>)
    ensures r.None? <==> forall i :: 0 <= i < |ps| ==> !IsVideo(ps[i])
    ensures r.Some? ==> r.value < |ps| && IsVideo(ps[r.value]) && forall i :: 0 <= i < r.value ==> !IsVideo(ps[i])
  {
    if ps == [] then None
    else if IsVideo(ps[0]) then Some(0)
    else match FirstVideo(ps[1..])
      case None => None
      case Some(v) => Some(v + 1)
  }

  /** The search loop, stopping at the first match. */
  method FindFirstVideo(ps: seq<Packet>) returns (r: Option<nat>)
    ensures r == FirstVideo(ps)
  {
    var i := 0;
    while i < |ps|
      invariant 0 <= i <= |ps|
      invariant forall j :: 0 <= j < i ==> !IsVideo(ps[j])
    {
      if IsVideo(ps[i]) {
        return Some(i);
      }
      i := i + 1;
    }
    return None;
  }

  /** Whether packet `p` is collected when the first video frame was seen at `t0`. */
  predicate Collects(p: Packet, t0: real)
  {
    p.isData && p.time >= t0
  }

  /** The Data frames of `ps` not earlier than `t0`, in capture order; `base` is the position of `ps[0]` in the capture. */
  function Collect(ps: seq<Packet>, t0: real, base: nat): (fs: seq<Frame>)
    ensures |fs| <= |ps|
    ensures forall k :: 0 <= k < |fs| ==> fs[k].rel >= 0.0 && fs[k].rel == fs[k].timestamp - t0
  {
    if ps == [] then []
    else
      var p := ps[|ps| - 1];
      var init := Collect(ps[..|ps| - 1], t0, base);
      if Collects(p, t0) then init + [Frame(p.time, p.size, p.time - t0, base + |ps| - 1)] else init
  }

  /** A frame is collected exactly when it comes from a Data packet not earlier than `t0`. */
  lemma {:induction false} CollectExactly(ps: seq<Packet>, t0: real, base: nat, f: Frame)
    ensures f in Collect(ps, t0, base) <==>
      exists i :: 0 <= i < |ps| && Collects(ps[i], t0) && f == Frame(ps[i].time, ps[i].size, ps[i].time - t0, base + i)
  {
    if ps != [] {
      var init := ps[..|ps| - 1];
      CollectExactly(init, t0, base, f);
      if f in Collect(ps, t0, base) && f !in Collect(init, t0, base) {
        var i := |ps| - 1;
        assert Collects(ps[i], t0) && f == Frame(ps[i].time, ps[i].size, ps[i].time - t0, base + i);
      }
      if exists i :: 0 <= i < |ps| && Collects(ps[i], t0) && f == Frame(ps[i].time, ps[i].size, ps[i].time - t0, base + i) {
        var i :| 0 <= i < |ps| && Collects(ps[i], t0) && f == Frame(ps[i].time, ps[i].size, ps[i].time - t0, base + i);
        if i < |ps| - 1 {
          assert init[i] == ps[i];
        }
      }
    }
  }

  /** The collecting loop. */
  method CollectFrames(ps: seq<Packet>, t0: real, base: nat) returns (fs: seq<Frame>)
    ensures fs == Collect(ps, t0, base)
  {
    fs := [];
    var i := 0;
    while i < |ps|
      invariant 0 <= i <= |ps|
      invariant fs == Collect(ps[..i], t0, base)
    {
      assert ps[..i + 1][..i] == ps[..i];
      if Collects(ps[i], t0) {
        fs := fs + [Frame(ps[i].time, ps[i].size, ps[i].time - t0, base + i)];
      }
      i := i + 1;
    }
    assert ps[..|ps|] == ps;
  }

  /**
   * The whole selection, after skipping `skip` packets: errors for an empty
   * capture, for nothing left after the skip, for no video packet and for
   * no Data frame collected; otherwise the frames and the first video time.
   */
  function SelectFrames(ps: seq<Packet>, skip: nat): Result<(seq<Frame>, real), CaptureError>
  {
    if |ps| == 0 then Err(NoPackets)
    else if skip >= |ps| then Err(TooFewToSkip)
    else
      var rest := ps[skip..];
      match FirstVideo(rest)
      case None => Err(NoVideoPacket)
      case Some(v) =>
        var frames := Collect(rest, rest[v].time, skip);
        if frames == [] then Err(NoDataFrames) else Ok((frames, rest[v].time))
  }

  /** The first video packet is itself a collected Data frame, so the last error never occurs. */
  lemma VideoFrameIsCollected(ps: seq<Packet>, skip: nat)
    ensures SelectFrames(ps, skip) != Err(NoDataFrames)
  {
    if |ps| > 0 && skip < |ps| {
      var rest := ps[skip..];
      var fv := FirstVideo(rest);
      if fv.Some? {
        var v := fv.value;
        var t0 := rest[v].time;
        CollectExactly(rest, t0, skip, Frame(rest[v].time, rest[v].size, 0.0, skip + v));
      }
    }
  }

  /**
   * The outcome of the selection: it fails exactly when the capture holds no
   * more than `skip` packets or no video packet after them; otherwise the
   * frames are non-empty, start at the first video time or later, and their
   * relative times are non-negative.
   */
  lemma SelectionOutcome(ps: seq<Packet>, skip: nat)
    ensures SelectFrames(ps, skip).Err? <==>
      |ps| <= skip || |ps| == 0 || forall i :: skip <= i < |ps| ==> !IsVideo(ps[i])
    ensures SelectFrames(ps, skip).Ok? ==>
      var (frames, t0) := SelectFrames(ps, skip).value;
      && frames != []
      && (forall k :: 0 <= k < |frames| ==> frames[k].timestamp >= t0 && frames[k].rel >= 0.0)
      && (exists i :: skip <= i < |ps| && IsVideo(ps[i]) && ps[i].time == t0)
  {
    VideoFrameIsCollected(ps, skip);
    if |ps| > 0 && skip < |ps| {
      var rest := ps[skip..];
      forall i | skip <= i < |ps|
        ensures ps[i] == rest[i - skip]
      {
      }
      if FirstVideo(rest).Some? {
        var v := FirstVideo(rest).value;
        assert ps[skip + v] == rest[v];
      }
    }
  }

  /** The loading sequence of both scripts: checks, the search, then the collection. */
  method LoadFrames(ps: seq<Packet>, skip: nat) returns (r: Result<(seq<Frame>, real), CaptureError>)
    ensures r == SelectFrames(ps, skip)
  {
    if |ps| == 0 {
      return Err(NoPackets);
    }
    if skip >= |ps| {
      return Err(TooFewToSkip);
    }
    var rest := ps[skip..];
    var first := FindFirstVideo(rest);
    if first.None? {
      return Err(NoVideoPacket);
    }
    var t0 := rest[first.value].time;
    var frames := CollectFrames(rest, t0, skip);
    if |frames| == 0 {
      return Err(NoDataFrames);
    }
    return Ok((frames, t0));
  }
}
