/**
 * The HEVC byte-stream scanner of the camera script: Annex B start codes
 * (ITU-T H.265, section B.2), the nal_unit_type field of the NAL unit header
 * (section 7.3.1.2) and a coarse classification after Table 7-1, with a
 * parser object that keeps the unprocessed tail of the stream between calls.
 */
module Hevc {
  type byte = bv8

  /** The 4-byte start code 00 00 00 01 begins at p. */
  predicate Code4At(buf: seq<byte>, p: nat)
    requires p + 4 <= |buf|
  {
    buf[p] == 0 && buf[p + 1] == 0 && buf[p + 2] == 0 && buf[p + 3] == 1
  }

  /** The 3-byte start code 00 00 01 begins at p. */
  predicate Code3At(buf: seq<byte>, p: nat)
    requires p + 3 <= |buf|
  {
    buf[p] == 0 && buf[p + 1] == 0 && buf[p + 2] == 1
  }

  /** nal_unit_type: bits 1 to 6 of the first header byte. */
  function NalType(b: byte): (n: nat)
    ensures n < 64
  {
    ((b & 0x7E) >> 1) as nat
  }

  /** The type does not depend on the forbidden_zero bit (bit 7) nor on the low bit (bit 0). */
  lemma NalTypeIgnoresOuterBits(b: byte)
    ensures NalType(b ^ 0x80) == NalType(b) && NalType(b ^ 0x01) == NalType(b)
  {
  }

  /** The header byte is the type shifted left by one, with bits 7 and 0 of the byte filled back in. */
  lemma NalTypeReassembles(b: byte)
    ensures ((NalType(b) as bv8) << 1) | (b & 0x81) == b
  {
    var field := (b & 0x7E) >> 1;
    assert NalType(b) as bv8 == field;
    assert (field << 1) | (b & 0x81) == b;
  }

  /** The class label: IDR for 19 and 20, CRA for 21, PARAM for 32 to 34 (VPS, SPS, PPS), otherwise TYPE_n. */
  datatype NalClass = IDR | CRA | PARAM | Other(n: nat)

  function Classify(n: nat): (c: NalClass)
    ensures c == IDR <==> n == 19 || n == 20
    ensures c == CRA <==> n == 21
    ensures c == PARAM <==> 32 <= n <= 34
    ensures c.Other? ==> c.n == n
  {
    if n == 19 || n == 20 then IDR
    else if n == 21 then CRA
    else if n in {32, 33, 34} then PARAM
    else Other(n)
  }

  /** The frame-count test: an IDR or CRA label, or a type up to 31 whose label is not TYPE_n. */
  predicate CountsAsFrame(n: nat)
  {
    var c := Classify(n);
    c == IDR || c == CRA || (n <= 31 && !c.Other?)
  }

  /** The second disjunct adds nothing: a NAL is counted exactly when its type is 19, 20 or 21. */
  lemma CountsExactlyKeyFrames(n: nat)
    ensures CountsAsFrame(n) <==> n == 19 || n == 20 || n == 21
  {
  }

  /** A start code found at `offset`, `codeLen` (3 or 4) bytes long. */
  datatype Start = Start(offset: nat, codeLen: nat)

  /**
   * The start codes the scan finds from position `i`: only positions p with
   * p < |buf| - 3 are examined; a 4-byte code is preferred to a 3-byte one,
   * and the scan resumes just after each code it finds.
   */
  function Scan(buf: seq<byte>, i: nat): seq<Start>
    decreases |buf| - i
  {
    if i + 3 >= |buf| then []
    else if Code4At(buf, i) then [Start(i, 4)] + Scan(buf, i + 4)
    else if Code3At(buf, i) then [Start(i, 3)] + Scan(buf, i + 3)
    else Scan(buf, i + 1)
  }

  /** A code the scan may report at `s`: inside the examined range, and a 3-byte code only where no 4-byte one begins. */
  predicate CodeAt(buf: seq<byte>, s: Start)
  {
    && s.offset + 3 < |buf|
    && (if s.codeLen == 4 then Code4At(buf, s.offset)
        else s.codeLen == 3 && Code3At(buf, s.offset) && !Code4At(buf, s.offset))
  }

  /** Every reported code is a real start code at or after `i`. */
  lemma {:induction false} ScanPlaced(buf: seq<byte>, i: nat)
    ensures forall k :: 0 <= k < |Scan(buf, i)| ==> i <= Scan(buf, i)[k].offset && CodeAt(buf, Scan(buf, i)[k])
    decreases |buf| - i
  {
    if i + 3 >= |buf| {
    } else if Code4At(buf, i) || Code3At(buf, i) {
      var len := if Code4At(buf, i) then 4 else 3;
      var rest := Scan(buf, i + len);
      var starts := Scan(buf, i);
      assert starts == [Start(i, len)] + rest;
      ScanPlaced(buf, i + len);
      forall k | 0 <= k < |starts|
        ensures i <= starts[k].offset && CodeAt(buf, starts[k])
      {
        if k > 0 {
          assert starts[k] == rest[k - 1];
        }
      }
    } else {
      ScanPlaced(buf, i + 1);
    }
  }

  /** The codes are reported in order, without overlapping. */
  lemma {:induction false} ScanOrdered(buf: seq<byte>, i: nat)
    ensures forall k, l :: 0 <= k < l < |Scan(buf, i)| ==>
      Scan(buf, i)[k].offset + Scan(buf, i)[k].codeLen <= Scan(buf, i)[l].offset
    decreases |buf| - i
  {
    if i + 3 >= |buf| {
    } else if Code4At(buf, i) || Code3At(buf, i) {
      var len := if Code4At(buf, i) then 4 else 3;
      var rest := Scan(buf, i + len);
      var starts := Scan(buf, i);
      assert starts == [Start(i, len)] + rest;
      ScanOrdered(buf, i + len);
      ScanPlaced(buf, i + len);
      forall k, l | 0 <= k < l < |starts|
        ensures starts[k].offset + starts[k].codeLen <= starts[l].offset
      {
        assert starts[l] == rest[l - 1];
        if k > 0 {
          assert starts[k] == rest[k - 1];
        }
      }
    } else {
      ScanOrdered(buf, i + 1);
    }
  }

  /** Whether position p lies inside one of the codes found. */
  predicate Covered(starts: seq<Start>, p: nat)
  {
    exists k :: 0 <= k < |starts| && starts[k].offset <= p < starts[k].offset + starts[k].codeLen
  }

  /**
   * Nothing is missed: every examined position at or after `i` that begins
   * a start code lies inside one of the codes the scan reports (a 3-byte
   * code inside a 4-byte one is covered by the longer code).
   */
  lemma {:induction false} ScanCoversEveryCode(buf: seq<byte>, i: nat, p: nat)
    requires i <= p && p + 3 < |buf|
    requires Code3At(buf, p) || Code4At(buf, p)
    ensures Covered(Scan(buf, i), p)
    decreases |buf| - i
  {
    if Code4At(buf, i) || Code3At(buf, i) {
      var len := if Code4At(buf, i) then 4 else 3;
      var rest := Scan(buf, i + len);
      assert Scan(buf, i) == [Start(i, len)] + rest;
      if p < i + len {
        assert Scan(buf, i)[0] == Start(i, len);
      } else {
        ScanCoversEveryCode(buf, i + len, p);
        CoveredCons(Start(i, len), rest, p);
      }
    } else {
      assert i != p;
      ScanCoversEveryCode(buf, i + 1, p);
    }
  }

  lemma CoveredCons(head: Start, rest: seq<Start>, p: nat)
    requires Covered(rest, p)
    ensures Covered([head] + rest, p)
  {
    var k :| 0 <= k < |rest| && rest[k].offset <= p < rest[k].offset + rest[k].codeLen;
    assert ([head] + rest)[k + 1] == rest[k];
  }

  /** Where the NAL of start k ends: at the next start, or at the end of the buffer. */
  function EndOf(starts: seq<Start>, k: nat, len: nat): nat
    requires k < |starts|
  {
    if k + 1 < |starts| then starts[k + 1].offset else len
  }

  /** What is reported for one NAL: its size with the start code, its type, its class and the running frame guess. */
  datatype Report = Report(size: nat, ntype: nat, cls: NalClass, frameGuess: nat)

  /** A NAL too short to hold a header byte after its start code is skipped. */
  predicate Examined(buf: seq<byte>, starts: seq<Start>, k: nat)
    requires k < |starts|
  {
    EndOf(starts, k, |buf|) >= starts[k].offset + starts[k].codeLen + 1
  }

  /** The header byte of NAL k, which follows its start code. */
  function HeaderType(buf: seq<byte>, starts: seq<Start>, k: nat): nat
    requires starts == Scan(buf, 0) && k < |starts| && Examined(buf, starts, k)
  {
    EndAfterStart(buf, starts, k);
    NalType(buf[starts[k].offset + starts[k].codeLen])
  }

  /** 1 when NAL k is examined and counted as a frame, otherwise 0. */
  function Counted(buf: seq<byte>, starts: seq<Start>, k: nat): nat
    requires starts == Scan(buf, 0) && k < |starts|
  {
    if Examined(buf, starts, k) && CountsAsFrame(HeaderType(buf, starts, k)) then 1 else 0
  }

  /** The report for NAL k, if it is examined, with the counter at `counter` before it. */
  function NalReport(buf: seq<byte>, starts: seq<Start>, k: nat, counter: nat): seq<Report>
    requires starts == Scan(buf, 0) && k < |starts|
  {
    if !Examined(buf, starts, k) then []
    else
      var t := HeaderType(buf, starts, k);
      [Report(EndOf(starts, k, |buf|) - starts[k].offset, t, Classify(t), counter + Counted(buf, starts, k))]
  }

  /** The reports of the NALs from start k on, with the frame counter at `counter` before them. */
  function ReportsFrom(buf: seq<byte>, starts: seq<Start>, k: nat, counter: nat): seq<Report>
    requires starts == Scan(buf, 0) && k <= |starts|
    decreases |starts| - k
  {
    if k == |starts| then []
    else NalReport(buf, starts, k, counter) + ReportsFrom(buf, starts, k + 1, counter + Counted(buf, starts, k))
  }

  /** How many of the NALs from start k on are counted as frames. */
  function FramesFrom(buf: seq<byte>, starts: seq<Start>, k: nat): nat
    requires starts == Scan(buf, 0) && k <= |starts|
    decreases |starts| - k
  {
    if k == |starts| then 0
    else Counted(buf, starts, k) + FramesFrom(buf, starts, k + 1)
  }

  lemma AppendAssoc<T>(a: seq<T>, b: seq<T>, c: seq<T>)
    ensures a + b + c == a + (b + c)
  {
  }

  /** How many reports carry a key-frame class (IDR or CRA). */
  function KeyReports(rs: seq<Report>): nat
  {
    if rs == [] then 0
    else (if rs[0].cls == IDR || rs[0].cls == CRA then 1 else 0) + KeyReports(rs[1..])
  }

  lemma KeyReportsAppend(a: seq<Report>, b: seq<Report>)
    ensures KeyReports(a + b) == KeyReports(a) + KeyReports(b)
  {
    if a != [] {
      assert (a + b)[1..] == a[1..] + b;
      KeyReportsAppend(a[1..], b);
    } else {
      assert a + b == b;
    }
  }

  /** The frame counter advances exactly once per reported IDR or CRA NAL. */
  lemma {:induction false} KeyReportsMatchFrames(buf: seq<byte>, starts: seq<Start>, k: nat, counter: nat)
    requires starts == Scan(buf, 0) && k <= |starts|
    ensures KeyReports(ReportsFrom(buf, starts, k, counter)) == FramesFrom(buf, starts, k)
    decreases |starts| - k
  {
    if k < |starts| {
      var next := counter + Counted(buf, starts, k);
      var head, rest := NalReport(buf, starts, k, counter), ReportsFrom(buf, starts, k + 1, next);
      assert ReportsFrom(buf, starts, k, counter) == head + rest;
      assert FramesFrom(buf, starts, k) == Counted(buf, starts, k) + FramesFrom(buf, starts, k + 1);
      KeyReportsMatchFrames(buf, starts, k + 1, next);
      KeyReportsAppend(head, rest);
      NalReportKeyed(buf, starts, k, counter);
    }
  }

  /** A single NAL's report is a key-frame report exactly when the NAL is counted. */
  lemma NalReportKeyed(buf: seq<byte>, starts: seq<Start>, k: nat, counter: nat)
    requires starts == Scan(buf, 0) && k < |starts|
    ensures KeyReports(NalReport(buf, starts, k, counter)) == Counted(buf, starts, k)
  {
    if Examined(buf, starts, k) {
      var t := HeaderType(buf, starts, k);
      CountsExactlyKeyFrames(t);
      var rs := NalReport(buf, starts, k, counter);
      assert |rs| == 1 && rs[0].cls == Classify(t) && rs[1..] == [];
    }
  }

  /** Every frame guess of `rs` lies between `lo` and `hi`. */
  predicate GuessesWithin(rs: seq<Report>, lo: nat, hi: nat)
  {
    forall j :: 0 <= j < |rs| ==> lo <= rs[j].frameGuess <= hi
  }

  /** The frame guesses of `rs` never go down. */
  predicate GuessesAscend(rs: seq<Report>)
  {
    forall j, j' :: 0 <= j < j' < |rs| ==> rs[j].frameGuess <= rs[j'].frameGuess
  }

  /**
   * The frame guesses printed never go down, start above the counter value
   * before the call and never pass the counter value after it.
   */
  lemma {:induction false} FrameGuessesTrackCounter(buf: seq<byte>, starts: seq<Start>, k: nat, counter: nat)
    requires starts == Scan(buf, 0) && k <= |starts|
    ensures GuessesWithin(ReportsFrom(buf, starts, k, counter), counter, counter + FramesFrom(buf, starts, k))
    ensures GuessesAscend(ReportsFrom(buf, starts, k, counter))
    decreases |starts| - k
  {
    if k < |starts| {
      var next := counter + Counted(buf, starts, k);
      FrameGuessesTrackCounter(buf, starts, k + 1, next);
      var head := NalReport(buf, starts, k, counter);
      var rest := ReportsFrom(buf, starts, k + 1, next);
      var rs := ReportsFrom(buf, starts, k, counter);
      assert rs == head + rest;
      assert GuessesWithin(head, next, next) && |head| <= 1;
      assert FramesFrom(buf, starts, k) == Counted(buf, starts, k) + FramesFrom(buf, starts, k + 1);
      forall j | 0 <= j < |rs|
        ensures counter <= rs[j].frameGuess <= counter + FramesFrom(buf, starts, k)
      {
        if j >= |head| {
          assert rs[j] == rest[j - |head|];
        } else {
          assert rs[j] == head[j];
        }
      }
      forall j, j' | 0 <= j < j' < |rs|
        ensures rs[j].frameGuess <= rs[j'].frameGuess
      {
        assert rs[j'] == rest[j' - |head|];
        if j >= |head| {
          assert rs[j] == rest[j - |head|];
        } else {
          assert rs[j] == head[j];
        }
      }
    }
  }

  /** The next start code offset lies beyond the code at start k, so a NAL's end is after its start. */
  lemma EndAfterStart(buf: seq<byte>, starts: seq<Start>, k: nat)
    requires starts == Scan(buf, 0) && k < |starts|
    ensures starts[k].offset + starts[k].codeLen <= EndOf(starts, k, |buf|) <= |buf|
  {
    ScanPlaced(buf, 0);
    ScanOrdered(buf, 0);
  }

  /**
   * The parser state shared between calls: the bytes not yet consumed and
   * the running frame guess.
   */
  class HevcParser {
    var buf: seq<byte>
    var frameCounter: nat

    constructor ()
      ensures buf == [] && frameCounter == 0
    {
      buf := [];
      frameCounter := 0;
    }

    /**
     * Appends `data`, finds the start codes, reports every NAL long enough
     * to hold a header byte, and keeps the bytes from the last start code on.
     */
    method Feed(data: seq<byte>) returns (reports: seq<Report>)
      modifies this
      ensures var whole := old(buf) + data;
        var starts := Scan(whole, 0);
        && buf == Kept(whole)
        && (starts == [] ==> frameCounter == old(frameCounter) && reports == [])
        && (starts != [] ==>
              && frameCounter == old(frameCounter) + FramesFrom(whole, starts, 0)
              && reports == ReportsFrom(whole, starts, 0, old(frameCounter)))
    {
      buf := buf + data;
      var whole := buf;
      var starts := FindStarts(whole);
      if starts == [] {
        return [];
      }
      reports := ExamineNals(whole, starts);
      EndAfterStart(whole, starts, |starts| - 1);
      buf := whole[starts[|starts| - 1].offset..];
    }

    /** Reports the NALs delimited by `starts`, advancing the frame counter at each key frame. */
    method ExamineNals(whole: seq<byte>, starts: seq<Start>) returns (reports: seq<Report>)
      requires starts == Scan(whole, 0)
      modifies this`frameCounter
      ensures frameCounter == old(frameCounter) + FramesFrom(whole, starts, 0)
      ensures reports == ReportsFrom(whole, starts, 0, old(frameCounter))
    {
      reports := [];
      var k := 0;
      while k < |starts|
        invariant 0 <= k <= |starts|
        invariant frameCounter + FramesFrom(whole, starts, k) == old(frameCounter) + FramesFrom(whole, starts, 0)
        invariant reports + ReportsFrom(whole, starts, k, frameCounter) == ReportsFrom(whole, starts, 0, old(frameCounter))
      {
        var report := ExamineNal(whole, starts, k);
        AppendAssoc(reports, report, ReportsFrom(whole, starts, k + 1, frameCounter));
        reports := reports + report;
        k := k + 1;
      }
    }

    /** One NAL: skipped when too short, otherwise classified, counted and reported. */
    method ExamineNal(whole: seq<byte>, starts: seq<Start>, k: nat) returns (report: seq<Report>)
      requires starts == Scan(whole, 0) && k < |starts|
      modifies this`frameCounter
      ensures frameCounter == old(frameCounter) + Counted(whole, starts, k)
      ensures report == NalReport(whole, starts, k, old(frameCounter))
      ensures frameCounter + FramesFrom(whole, starts, k + 1) == old(frameCounter) + FramesFrom(whole, starts, k)
      ensures report + ReportsFrom(whole, starts, k + 1, frameCounter) == ReportsFrom(whole, starts, k, old(frameCounter))
    {
      ghost var before := frameCounter;
      assert ReportsFrom(whole, starts, k, before)
        == NalReport(whole, starts, k, before) + ReportsFrom(whole, starts, k + 1, before + Counted(whole, starts, k));
      assert FramesFrom(whole, starts, k) == Counted(whole, starts, k) + FramesFrom(whole, starts, k + 1);
      var s := starts[k];
      var e := if k + 1 < |starts| then starts[k + 1].offset else |whole|;
      EndAfterStart(whole, starts, k);
      var nal := whole[s.offset..e];
      report := [];
      if |nal| >= s.codeLen + 1 {
        var ntype := NalType(nal[s.codeLen]);
        assert ntype == HeaderType(whole, starts, k);
        var cls := Classify(ntype);
        if cls == IDR || cls == CRA || (ntype <= 31 && !cls.Other?) {
          frameCounter := frameCounter + 1;
        }
        report := [Report(|nal|, ntype, cls, frameCounter)];
      }
    }
  }

  /** The scan loop: positions below |whole| - 3, the 4-byte code tried first. */
  method FindStarts(whole: seq<byte>) returns (starts: seq<Start>)
    ensures starts == Scan(whole, 0)
  {
    starts := [];
    var i := 0;
    while i < |whole| - 3
      invariant 0 <= i <= |whole|
      invariant starts + Scan(whole, i) == Scan(whole, 0)
      decreases |whole| - i
    {
      if Code4At(whole, i) {
        assert Scan(whole, i) == [Start(i, 4)] + Scan(whole, i + 4);
        assert (starts + [Start(i, 4)]) + Scan(whole, i + 4) == starts + Scan(whole, i);
        starts := starts + [Start(i, 4)];
        i := i + 4;
      } else if Code3At(whole, i) {
        assert Scan(whole, i) == [Start(i, 3)] + Scan(whole, i + 3);
        assert (starts + [Start(i, 3)]) + Scan(whole, i + 3) == starts + Scan(whole, i);
        starts := starts + [Start(i, 3)];
        i := i + 3;
      } else {
        i := i + 1;
      }
    }
  }

  /** What the parser keeps for the next call: everything when no start code is found, otherwise the bytes from the last start code on. */
  function Kept(whole: seq<byte>): seq<byte>
  {
    var starts := Scan(whole, 0);
    if starts == [] then whole
    else
      EndAfterStart(whole, starts, |starts| - 1);
      whole[starts[|starts| - 1].offset..]
  }

  /**
   * The kept bytes are a suffix of the buffer, and when a start code was
   * found they begin with one: the last NAL is reported now and seen again
   * with the next data.
   */
  lemma KeptIsCodeSuffix(whole: seq<byte>)
    ensures var tail := Kept(whole);
      && |tail| <= |whole| && tail == whole[|whole| - |tail|..]
      && (Scan(whole, 0) != [] ==> |tail| >= 4 && (Code4At(tail, 0) || Code3At(tail, 0)))
  {
    ScanPlaced(whole, 0);
  }

  /** The last NAL runs to the end of the buffer and holds at least four bytes, so with a 3-byte code it is always reported. */
  lemma LastNalExamined(whole: seq<byte>)
    requires Scan(whole, 0) != []
    ensures var starts := Scan(whole, 0);
      var k := |starts| - 1;
      && EndOf(starts, k, |whole|) - starts[k].offset >= 4
      && (starts[k].codeLen == 3 ==> Examined(whole, starts, k))
  {
    ScanPlaced(whole, 0);
  }

  /** Back-to-back codes: 00 00 01 00 00 01 26 01 — the first NAL is too short and skipped; the second is reported. */
  lemma BackToBackExample()
    ensures var buf: seq<byte> := [0, 0, 1, 0, 0, 1, 0x26, 0x01];
      && Scan(buf, 0) == [Start(0, 3), Start(3, 3)]
      && ReportsFrom(buf, Scan(buf, 0), 0, 0) == [Report(5, 19, IDR, 1)]
  {
    var buf: seq<byte> := [0, 0, 1, 0, 0, 1, 0x26, 0x01];
    assert !Code4At(buf, 0) && Code3At(buf, 0);
    assert !Code4At(buf, 3) && Code3At(buf, 3);
    assert Scan(buf, 6) == [];
    assert Scan(buf, 3) == [Start(3, 3)];
    var starts := Scan(buf, 0);
    assert starts == [Start(0, 3), Start(3, 3)];
    assert !Examined(buf, starts, 0) && Examined(buf, starts, 1);
    assert HeaderType(buf, starts, 1) == NalType(0x26) == 19;
    assert ReportsFrom(buf, starts, 2, 1) == [];
    assert ReportsFrom(buf, starts, 1, 0) == [Report(5, 19, IDR, 1)];
  }
}
