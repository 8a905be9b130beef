/**
 * The association engine: one Kalman filter per visible car, encrypted-camera
 * events grouped into time windows, and per window a cost matrix, an
 * assignment and a distance gate that decides which filters are corrected.
 */
module Tracking {
  import opened Linalg
  import opened Wrappers
  import opened Sorting
  import opened Kalman

  datatype Point3 = Point3(x: real, y: real, z: real)

  /** One row of the visible ground-truth table. */
  datatype Sighting = Sighting(carId: int, time: real, pos: Point3)

  /** One encrypted-camera event: when, which camera, and where that camera stands. */
  datatype Event = Event(time: real, cameraId: int, pos: Point3)

  /** One accepted assignment. The distance error is kept squared. */
  datatype Record = Record(timestamp: real, cameraId: int, carId: int, distanceSq: real)

  /** Where a car's filter starts: its earliest position and time, and its mean velocity. */
  datatype Seed = Seed(pos: Point3, time: real, vel: Point3)

  /** Raised when a non-empty batch meets an empty bank of cars (the column maximum of an empty matrix). */
  datatype TrackingError = NoCarsToScore

  type Pair = (nat, nat)

  /** Width of an assignment window. */
  const Window: real := 0.5

  /** The distance gate, 150.0, compared squared. */
  const GateSq: real := 150.0 * 150.0

  function ToVector(p: Point3): (v: Vector)
    ensures |v| == 3 && v[0] == p.x && v[1] == p.y && v[2] == p.z
  {
    [p.x, p.y, p.z]
  }

  function EventTime(e: Event): real { e.time }

  function SightingTime(s: Sighting): real { s.time }

  function IdKey(id: int): real { id as real }

  // ---------------------------------------------------------------- seeding

  /** The seed of a car from its sightings ordered by time: first position, and (last − first) / elapsed. */
  function SeedFrom(group: seq<Sighting>): (s: Seed)
    requires |group| > 0
  {
    var first := group[0];
    var last := group[|group| - 1];
    var elapsed := last.time - first.time;
    var vel :=
      if elapsed > 0.0 then
        Point3((last.pos.x - first.pos.x) / elapsed, (last.pos.y - first.pos.y) / elapsed,
               (last.pos.z - first.pos.z) / elapsed)
      else Point3(0.0, 0.0, 0.0);
    Seed(first.pos, first.time, vel)
  }

  /** The initial filter state a seed gives. */
  function SeedState(s: Seed): (f: FilterState)
    ensures WellFormed(f)
  {
    FilterState(ToVector(s.pos) + ToVector(s.vel), InitialCovariance(), s.time)
  }

  /**
   * When the sightings span positive time, predicting the seeded filter to the
   * time of the last sighting lands exactly on the last sighting's position.
   */
  lemma SeedReachesLastSighting(group: seq<Sighting>)
    requires |group| > 0 && group[|group| - 1].time > group[0].time
    ensures
      var f := SeedState(SeedFrom(group));
      PredictedState(f.x, group[|group| - 1].time - f.lastTime)[..3] == ToVector(group[|group| - 1].pos)
  {
    var first, last := group[0], group[|group| - 1];
    var f := SeedState(SeedFrom(group));
    var dt := last.time - first.time;
    PredictionMovesPosition(f.x, dt);
    var p := PredictedState(f.x, dt);
    assert f.x[3] == (last.pos.x - first.pos.x) / dt && f.x[4] == (last.pos.y - first.pos.y) / dt;
    assert f.x[5] == (last.pos.z - first.pos.z) / dt;
    assert p[0] == first.pos.x + dt * f.x[3] == last.pos.x;
    assert p[1] == first.pos.y + dt * f.x[4] == last.pos.y;
    assert p[2] == first.pos.z + dt * f.x[5] == last.pos.z;
  }

  /** When the sightings span no time, the seeded filter has zero velocity and stays where it started. */
  lemma SeedWithoutElapsedTimeStaysPut(group: seq<Sighting>, t: real)
    requires |group| > 0 && group[|group| - 1].time <= group[0].time
    ensures
      var f := SeedState(SeedFrom(group));
      PredictedState(f.x, t - f.lastTime)[..3] == ToVector(group[0].pos)
  {
    var f := SeedState(SeedFrom(group));
    ZeroVelocityStaysPut(f.x, t - f.lastTime);
  }

  /** The sightings of one car, in table order. */
  function GroupOf(visible: seq<Sighting>, id: int): (g: seq<Sighting>)
    ensures forall k :: 0 <= k < |g| ==> g[k] in visible && g[k].carId == id
    ensures forall s :: s in visible && s.carId == id ==> s in g
    decreases |visible|
  {
    if visible == [] then []
    else
      var init := visible[..|visible| - 1];
      var last := visible[|visible| - 1];
      assert visible == init + [last];
      GroupOf(init, id) + (if last.carId == id then [last] else [])
  }

  /** The seed of car `id`: its sightings sorted by time, first and last (`group.sort_values('timestamp')`). */
  function SeedOf(visible: seq<Sighting>, id: int): Seed
    requires exists s :: s in visible && s.carId == id
  {
    var s :| s in visible && s.carId == id;
    assert s in GroupOf(visible, id);
    SeedFrom(SortBy(GroupOf(visible, id), SightingTime))
  }

  /** A car's filter starts at the time and position of one of its sightings, and no sighting of it is earlier. */
  lemma SeedIsEarliest(visible: seq<Sighting>, id: int)
    requires exists s :: s in visible && s.carId == id
    ensures forall s :: s in visible && s.carId == id ==> SeedOf(visible, id).time <= s.time
    ensures exists s :: s in visible && s.carId == id && SeedOf(visible, id).time == s.time
              && SeedOf(visible, id).pos == s.pos
  {
    var g := GroupOf(visible, id);
    var w :| w in visible && w.carId == id;
    assert w in g;
    var sorted := SortBy(g, SightingTime);
    assert sorted[0] in multiset(sorted);
    assert sorted[0] in multiset(g);
    forall s | s in visible && s.carId == id
      ensures sorted[0].time <= s.time
    {
      assert s in multiset(g);
      assert s in multiset(sorted);
      var k :| 0 <= k < |sorted| && sorted[k] == s;
      SortedBounds(sorted, SightingTime, k);
    }
  }

  /** Removes adjacent repeats. */
  function Dedup(s: seq<int>): (r: seq<int>)
    requires SortedBy(s, IdKey)
    ensures forall i, j :: 0 <= i < j < |r| ==> r[i] < r[j]
    ensures forall x :: x in r <==> x in s
    ensures |s| > 0 ==> |r| > 0 && r[|r| - 1] == s[|s| - 1]
    decreases |s|
  {
    if |s| <= 1 then s
    else
      var init := s[..|s| - 1];
      assert s == init + [s[|s| - 1]];
      var r := Dedup(init);
      if r[|r| - 1] == s[|s| - 1] then r else r + [s[|s| - 1]]
  }

  /** The car id column, in table order. */
  function IdColumn(visible: seq<Sighting>): (ids: seq<int>)
    ensures forall id :: id in ids <==> exists s :: s in visible && s.carId == id
    decreases |visible|
  {
    if visible == [] then []
    else
      var init := visible[..|visible| - 1];
      var last := visible[|visible| - 1];
      assert visible == init + [last];
      IdColumn(init) + [last.carId]
  }

  /** The car ids of the visible table, ascending and without repeats, as `groupby('car_id')` yields them. */
  function CarIds(visible: seq<Sighting>): (ids: seq<int>)
    ensures forall i, j :: 0 <= i < j < |ids| ==> ids[i] < ids[j]
    ensures forall id :: id in ids <==> exists s :: s in visible && s.carId == id
  {
    SortKeepsMembers(IdColumn(visible), IdKey);
    Dedup(SortBy(IdColumn(visible), IdKey))
  }

  // -------------------------------------------------------------- windowing

  /**
   * The batches handed to `match_and_update`, in order, when the events are
   * fed one by one from window start `start` with `batch` accumulated: an
   * event later than `start + Window` flushes the batch and starts a new
   * window at its own time; the last batch is flushed if it is non-empty.
   */
  function Flushes(events: seq<Event>, start: real, batch: seq<Event>): seq<seq<Event>>
    decreases |events|
  {
    if events == [] then (if batch == [] then [] else [batch])
    else if events[0].time > start + Window then [batch] + Flushes(events[1..], events[0].time, [events[0]])
    else Flushes(events[1..], start, batch + [events[0]])
  }

  function Flatten(bs: seq<seq<Event>>): seq<Event>
  {
    if bs == [] then [] else bs[0] + Flatten(bs[1..])
  }

  lemma {:induction false} FlattenAppend(a: seq<seq<Event>>, b: seq<seq<Event>>)
    ensures Flatten(a + b) == Flatten(a) + Flatten(b)
  {
    if a != [] {
      assert (a + b)[0] == a[0];
      assert (a + b)[1..] == a[1..] + b;
      FlattenAppend(a[1..], b);
    } else {
      assert a + b == b;
    }
  }

  /** Every event lands in exactly one batch, and the batches keep the event order. */
  lemma {:induction false} FlushesCoverEvents(events: seq<Event>, start: real, batch: seq<Event>)
    ensures Flatten(Flushes(events, start, batch)) == batch + events
    decreases |events|
  {
    if events == [] {
    } else if events[0].time > start + Window {
      FlushesCoverEvents(events[1..], events[0].time, [events[0]]);
      assert [events[0]] + events[1..] == events;
    } else {
      FlushesCoverEvents(events[1..], start, batch + [events[0]]);
      assert (batch + [events[0]]) + events[1..] == batch + events;
    }
  }

  /** Only the first flush can be empty (when the first event already lies beyond the first window). */
  lemma {:induction false} FlushesAfterFirstNonEmpty(events: seq<Event>, start: real, batch: seq<Event>)
    ensures forall k :: 1 <= k < |Flushes(events, start, batch)| ==> Flushes(events, start, batch)[k] != []
    ensures batch != [] ==> forall k :: 0 <= k < |Flushes(events, start, batch)| ==> Flushes(events, start, batch)[k] != []
    decreases |events|
  {
    if events == [] {
    } else if events[0].time > start + Window {
      FlushesAfterFirstNonEmpty(events[1..], events[0].time, [events[0]]);
    } else {
      FlushesAfterFirstNonEmpty(events[1..], start, batch + [events[0]]);
    }
  }

  /**
   * The first batch holds only events at most `Window` after `start`; every
   * later batch is non-empty, holds only events at most `Window` after its
   * own first event, and opens more than `Window` after the window before it.
   */
  lemma {:induction false} FlushWindows(events: seq<Event>, start: real, batch: seq<Event>)
    requires forall j :: 0 <= j < |batch| ==> batch[j].time <= start + Window
    ensures var fs := Flushes(events, start, batch);
      && (|fs| >= 1 ==> forall j :: 0 <= j < |fs[0]| ==> fs[0][j].time <= start + Window)
      && (forall k :: 1 <= k < |fs| ==> fs[k] != [] && forall j :: 0 <= j < |fs[k]| ==> fs[k][j].time <= fs[k][0].time + Window)
      && (|fs| >= 2 ==> fs[1][0].time > start + Window)
      && (forall k :: 2 <= k < |fs| ==> fs[k][0].time > fs[k - 1][0].time + Window)
    decreases |events|
  {
    if events == [] {
    } else if events[0].time > start + Window {
      var e := events[0];
      var rest := Flushes(events[1..], e.time, [e]);
      FlushWindows(events[1..], e.time, [e]);
      FlushesHead(events[1..], e.time, [e]);
      assert Flushes(events, start, batch) == [batch] + rest;
      assert rest[0][0] == e;
    } else {
      FlushWindows(events[1..], start, batch + [events[0]]);
    }
  }

  /** The first flush begins with the accumulated batch. */
  lemma {:induction false} FlushesHead(events: seq<Event>, start: real, batch: seq<Event>)
    requires batch != []
    ensures |Flushes(events, start, batch)| >= 1
    ensures |Flushes(events, start, batch)[0]| >= |batch| && Flushes(events, start, batch)[0][..|batch|] == batch
    decreases |events|
  {
    if events == [] {
    } else if events[0].time > start + Window {
    } else {
      FlushesHead(events[1..], start, batch + [events[0]]);
    }
  }

  function EventAt(t: real): Event { Event(t, 0, Point3(0.0, 0.0, 0.0)) }

  /** The windowing example: times 0.1, 0.3, 0.6, 0.9, 1.5 split as [0.1, 0.3], [0.6, 0.9], [1.5]. */
  lemma WindowingExample()
    ensures
      var es := [EventAt(0.1), EventAt(0.3), EventAt(0.6), EventAt(0.9), EventAt(1.5)];
      Flushes(es, 0.0, []) == [[EventAt(0.1), EventAt(0.3)], [EventAt(0.6), EventAt(0.9)], [EventAt(1.5)]]
  {
    var es := [EventAt(0.1), EventAt(0.3), EventAt(0.6), EventAt(0.9), EventAt(1.5)];
    assert es[1..][1..] == es[2..] && es[2..][1..] == es[3..] && es[3..][1..] == es[4..] && es[4..][1..] == es[5..];
    assert Flushes(es[5..], 1.5, [EventAt(1.5)]) == [[EventAt(1.5)]];
    assert Flushes(es[4..], 0.6, [EventAt(0.6), EventAt(0.9)]) == [[EventAt(0.6), EventAt(0.9)], [EventAt(1.5)]];
    assert es[3..] != [] && es[3..][0] == EventAt(0.9) && !(EventAt(0.9).time > 0.6 + Window);
    assert [EventAt(0.6)] + [EventAt(0.9)] == [EventAt(0.6), EventAt(0.9)];
    assert Flushes(es[3..], 0.6, [EventAt(0.6)]) == Flushes(es[4..], 0.6, [EventAt(0.6), EventAt(0.9)]);
    assert Flushes(es[2..], 0.0, [EventAt(0.1), EventAt(0.3)])
        == [[EventAt(0.1), EventAt(0.3)]] + Flushes(es[3..], 0.6, [EventAt(0.6)]);
    assert es[1..] != [] && es[1..][0] == EventAt(0.3) && !(EventAt(0.3).time > 0.0 + Window);
    assert [EventAt(0.1)] + [EventAt(0.3)] == [EventAt(0.1), EventAt(0.3)];
    assert Flushes(es[1..], 0.0, [EventAt(0.1)]) == Flushes(es[2..], 0.0, [EventAt(0.1), EventAt(0.3)]);
    assert es[0] == EventAt(0.1) && !(EventAt(0.1).time > 0.0 + Window);
    assert [] + [EventAt(0.1)] == [EventAt(0.1)];
    assert Flushes(es, 0.0, []) == Flushes(es[1..], 0.0, [EventAt(0.1)]);
  }

  // ---------------------------------------------------- cost and assignment

  /** The position a filter state predicts for time `t`. */
  function PredictedPosition(s: FilterState, t: real): (p: Vector)
    requires WellFormed(s)
    ensures |p| == 3
  {
    PredictedState(s.x, t - s.lastTime)[..3]
  }

  /** Squared horizontal distance: height is ignored. */
  function HorizontalDistSq(a: Vector, p: Point3): (d: real)
    requires |a| >= 2
    ensures d >= 0.0
  {
    (a[0] - p.x) * (a[0] - p.x) + (a[1] - p.y) * (a[1] - p.y)
  }

  function CostRow(s: FilterState, batch: seq<Event>): (row: seq<real>)
    requires WellFormed(s)
    ensures |row| == |batch|
  {
    seq(|batch|, c requires 0 <= c < |batch| => HorizontalDistSq(PredictedPosition(s, batch[c].time), batch[c].pos))
  }

  /** One row per car, one column per event: the squared horizontal distance from the car's prediction at the event's time to the camera. */
  function CostMatrix(states: seq<FilterState>, batch: seq<Event>): (m: Matrix)
    requires forall r :: 0 <= r < |states| ==> WellFormed(states[r])
    ensures IsMatrix(m, |states|, |batch|)
    ensures forall r, c :: 0 <= r < |states| && 0 <= c < |batch| ==> m[r][c] >= 0.0
  {
    seq(|states|, r requires 0 <= r < |states| => CostRow(states[r], batch))
  }

  /** A one-to-one pairing of rows with columns of size min(rows, cols), as `linear_sum_assignment` returns. */
  predicate IsAssignment(pairs: seq<Pair>, rows: nat, cols: nat)
  {
    && |pairs| == (if rows < cols then rows else cols)
    && (forall k :: 0 <= k < |pairs| ==> pairs[k].0 < rows && pairs[k].1 < cols)
    && (forall k, l :: 0 <= k < l < |pairs| ==> pairs[k].0 != pairs[l].0 && pairs[k].1 != pairs[l].1)
  }

  /** The assignment solver returns a one-to-one pairing for every matrix. */
  ghost predicate SolverSound(solve: Matrix -> seq<Pair>)
  {
    forall m: Matrix, cols: nat :: IsMatrix(m, |m|, cols) ==> IsAssignment(solve(m), |m|, cols)
  }

  predicate InRange(pairs: seq<Pair>, rows: nat, cols: nat)
  {
    forall k :: 0 <= k < |pairs| ==> pairs[k].0 < rows && pairs[k].1 < cols
  }

  /** The records the gate lets through, pair by pair. */
  function GatedRecords(m: Matrix, pairs: seq<Pair>, batch: seq<Event>, cars: seq<int>): seq<Record>
    requires IsMatrix(m, |cars|, |batch|) && InRange(pairs, |cars|, |batch|)
    decreases |pairs|
  {
    if pairs == [] then []
    else
      var (r, c) := pairs[|pairs| - 1];
      GatedRecords(m, pairs[..|pairs| - 1], batch, cars)
        + (if m[r][c] < GateSq then [Record(batch[c].time, batch[c].cameraId, cars[r], m[r][c])] else [])
  }

  /** The batch index of the event behind each gated record, pair by pair. */
  function GatedCols(m: Matrix, pairs: seq<Pair>, batch: seq<Event>, cars: seq<int>): (cols: seq<nat>)
    requires IsMatrix(m, |cars|, |batch|) && InRange(pairs, |cars|, |batch|)
    ensures |cols| == |GatedRecords(m, pairs, batch, cars)|
    ensures forall k :: 0 <= k < |cols| ==>
      && cols[k] < |batch|
      && GatedRecords(m, pairs, batch, cars)[k].timestamp == batch[cols[k]].time
      && GatedRecords(m, pairs, batch, cars)[k].cameraId == batch[cols[k]].cameraId
    ensures forall k :: 0 <= k < |cols| ==> exists j :: 0 <= j < |pairs| && pairs[j].1 == cols[k]
    decreases |pairs|
  {
    if pairs == [] then []
    else
      var (r, c) := pairs[|pairs| - 1];
      var init := pairs[..|pairs| - 1];
      var cols := GatedCols(m, init, batch, cars);
      assert forall k :: 0 <= k < |cols| ==> exists j :: 0 <= j < |pairs| && pairs[j].1 == cols[k] by {
        forall k | 0 <= k < |cols| ensures exists j :: 0 <= j < |pairs| && pairs[j].1 == cols[k] {
          var j :| 0 <= j < |init| && init[j].1 == cols[k];
          assert pairs[j] == init[j];
        }
      }
      cols + (if m[r][c] < GateSq then [c] else [])
  }

  /** Each record comes from its own event of the batch: `cols` names the events, and no two records share one. */
  predicate FromDistinctEvents(recs: seq<Record>, batch: seq<Event>, cols: seq<nat>)
  {
    && |cols| == |recs|
    && (forall k :: 0 <= k < |cols| ==>
          cols[k] < |batch| && recs[k].timestamp == batch[cols[k]].time && recs[k].cameraId == batch[cols[k]].cameraId)
    && (forall k, l :: 0 <= k < l < |cols| ==> cols[k] != cols[l])
  }

  /** The filter states after the matched pairs are applied in order; a pair corrects its car only inside the gate. */
  function AfterPairs(states: seq<FilterState>, m: Matrix, pairs: seq<Pair>, batch: seq<Event>,
                      invert: Matrix -> Option<Matrix>): (r: seq<FilterState>)
    requires forall i :: 0 <= i < |states| ==> WellFormed(states[i])
    requires IsMatrix(m, |states|, |batch|) && InRange(pairs, |states|, |batch|)
    ensures |r| == |states| && forall i :: 0 <= i < |r| ==> WellFormed(r[i])
    decreases |pairs|
  {
    if pairs == [] then states
    else
      var (row, c) := pairs[|pairs| - 1];
      var before := AfterPairs(states, m, pairs[..|pairs| - 1], batch, invert);
      if m[row][c] < GateSq then before[row := Correct(before[row], batch[c].time, ToVector(batch[c].pos), invert)]
      else before
  }

  /** The event whose pair with row `r` passes the gate, if any. */
  function AcceptedEvent(m: Matrix, pairs: seq<Pair>, rows: nat, cols: nat, r: nat): (o: Option<nat>)
    requires IsMatrix(m, rows, cols) && InRange(pairs, rows, cols)
    ensures o.Some? ==> o.value < cols && (r, o.value) in pairs && m[r][o.value] < GateSq
    ensures o.None? ==> forall k :: 0 <= k < |pairs| && pairs[k].0 == r ==> m[r][pairs[k].1] >= GateSq
    decreases |pairs|
  {
    if pairs == [] then None
    else
      var (row, c) := pairs[|pairs| - 1];
      if row == r && m[row][c] < GateSq then Some(c)
      else AcceptedEvent(m, pairs[..|pairs| - 1], rows, cols, r)
  }

  /** Every record lies inside the gate, and there are no more records than pairs. */
  lemma {:induction false} RecordsInsideGate(m: Matrix, pairs: seq<Pair>, batch: seq<Event>, cars: seq<int>)
    requires IsMatrix(m, |cars|, |batch|) && InRange(pairs, |cars|, |batch|)
    ensures |GatedRecords(m, pairs, batch, cars)| <= |pairs|
    ensures forall rec :: rec in GatedRecords(m, pairs, batch, cars) ==> rec.distanceSq < GateSq
    decreases |pairs|
  {
    if pairs != [] {
      RecordsInsideGate(m, pairs[..|pairs| - 1], batch, cars);
    }
  }

  /** Under a pairing that uses each event at most once, each event gives at most one record. */
  lemma {:induction false} OneRecordPerEvent(m: Matrix, pairs: seq<Pair>, batch: seq<Event>, cars: seq<int>)
    requires IsMatrix(m, |cars|, |batch|) && InRange(pairs, |cars|, |batch|)
    requires forall k, l :: 0 <= k < l < |pairs| ==> pairs[k].1 != pairs[l].1
    ensures FromDistinctEvents(GatedRecords(m, pairs, batch, cars), batch, GatedCols(m, pairs, batch, cars))
    decreases |pairs|
  {
    if pairs != [] {
      var init := pairs[..|pairs| - 1];
      OneRecordPerEvent(m, init, batch, cars);
      var cols0 := GatedCols(m, init, batch, cars);
      var cols := GatedCols(m, pairs, batch, cars);
      var c := pairs[|pairs| - 1].1;
      forall k | 0 <= k < |cols0|
        ensures cols0[k] != c
      {
        var j :| 0 <= j < |init| && init[j].1 == cols0[k];
        assert pairs[j] == init[j];
      }
      forall k, l | 0 <= k < l < |cols|
        ensures cols[k] != cols[l]
      {
        if l < |cols0| {
          assert cols[k] == cols0[k] && cols[l] == cols0[l];
        } else {
          assert cols[k] == cols0[k] && cols[l] == c;
        }
      }
    }
  }

  /**
   * Under a one-to-one pairing each car receives at most one record, and the
   * record names a car of a pair; so a flush emits at most min(cars, events) records.
   */
  lemma {:induction false} OneRecordPerCar(m: Matrix, pairs: seq<Pair>, batch: seq<Event>, cars: seq<int>)
    requires IsMatrix(m, |cars|, |batch|) && InRange(pairs, |cars|, |batch|)
    requires forall k, l :: 0 <= k < l < |pairs| ==> pairs[k].0 != pairs[l].0
    requires forall i, j :: 0 <= i < j < |cars| ==> cars[i] != cars[j]
    ensures forall k :: 0 <= k < |GatedRecords(m, pairs, batch, cars)| ==>
      exists j :: 0 <= j < |pairs| && GatedRecords(m, pairs, batch, cars)[k].carId == cars[pairs[j].0]
    ensures forall k, l :: 0 <= k < l < |GatedRecords(m, pairs, batch, cars)| ==>
      GatedRecords(m, pairs, batch, cars)[k].carId != GatedRecords(m, pairs, batch, cars)[l].carId
    decreases |pairs|
  {
    if pairs != [] {
      var init := pairs[..|pairs| - 1];
      OneRecordPerCar(m, init, batch, cars);
      var recs0 := GatedRecords(m, init, batch, cars);
      var recs := GatedRecords(m, pairs, batch, cars);
      var (r, c) := pairs[|pairs| - 1];
      assert recs[..|recs0|] == recs0;
      forall k | 0 <= k < |recs0|
        ensures recs0[k].carId != cars[r]
        ensures exists j :: 0 <= j < |pairs| && recs0[k].carId == cars[pairs[j].0]
      {
        var j :| 0 <= j < |init| && recs0[k].carId == cars[init[j].0];
        assert pairs[j] == init[j];
        assert init[j].0 != r;
      }
      forall k | 0 <= k < |recs|
        ensures exists j :: 0 <= j < |pairs| && recs[k].carId == cars[pairs[j].0]
      {
        if k < |recs0| {
          assert recs[k] == recs0[k];
          var j :| 0 <= j < |init| && recs0[k].carId == cars[init[j].0];
          assert pairs[j] == init[j];
        } else {
          var j := |pairs| - 1;
          assert recs[k].carId == cars[pairs[j].0];
        }
      }
    } else {
      assert GatedRecords(m, pairs, batch, cars) == [];
    }
  }

  /**
   * Under a one-to-one pairing each car is corrected at most once per flush,
   * from its state before the flush, by the event its pair names, and only
   * when that pair is inside the gate; every other car keeps its state.
   */
  lemma {:induction false} OneCorrectionPerCar(states: seq<FilterState>, m: Matrix, pairs: seq<Pair>,
                                                batch: seq<Event>, invert: Matrix -> Option<Matrix>, r: nat)
    requires forall i :: 0 <= i < |states| ==> WellFormed(states[i])
    requires IsMatrix(m, |states|, |batch|) && InRange(pairs, |states|, |batch|)
    requires forall k, l :: 0 <= k < l < |pairs| ==> pairs[k].0 != pairs[l].0
    requires r < |states|
    ensures AfterPairs(states, m, pairs, batch, invert)[r] ==
      match AcceptedEvent(m, pairs, |states|, |batch|, r)
      case None => states[r]
      case Some(c) => Correct(states[r], batch[c].time, ToVector(batch[c].pos), invert)
    decreases |pairs|
  {
    if pairs != [] {
      var init := pairs[..|pairs| - 1];
      OneCorrectionPerCar(states, m, init, batch, invert, r);
      var (row, c) := pairs[|pairs| - 1];
      if row == r && m[row][c] < GateSq {
        assert AcceptedEvent(m, init, |states|, |batch|, r).None? by {
          forall k | 0 <= k < |init|
            ensures init[k].0 != r
          {
            assert pairs[k] == init[k];
          }
        }
      }
    }
  }

  /** A car seeded at rest stays where it was seen: its cost to any event is the squared horizontal distance from there. */
  lemma RestingCost(pos: Point3, time: real, e: Event)
    ensures
      var row := CostRow(SeedState(Seed(pos, time, Point3(0.0, 0.0, 0.0))), [e]);
      && |row| == 1
      && row[0] == (pos.x - e.pos.x) * (pos.x - e.pos.x) + (pos.y - e.pos.y) * (pos.y - e.pos.y)
  {
    var s := SeedState(Seed(pos, time, Point3(0.0, 0.0, 0.0)));
    ZeroVelocityStaysPut(s.x, e.time - s.lastTime);
    assert PredictedPosition(s, e.time) == s.x[..3];
  }

  /** The costs of the rejected example: the event from a camera at (500,0,0) is 500 from the first car and 400 from the second. */
  lemma RejectionCosts()
    ensures
      var states := [SeedState(Seed(Point3(0.0, 0.0, 0.0), 0.0, Point3(0.0, 0.0, 0.0))),
                     SeedState(Seed(Point3(100.0, 0.0, 0.0), 0.0, Point3(0.0, 0.0, 0.0)))];
      CostMatrix(states, [Event(1.0, 7, Point3(500.0, 0.0, 0.0))]) == [[250000.0], [160000.0]]
  {
    var e := Event(1.0, 7, Point3(500.0, 0.0, 0.0));
    RestingCost(Point3(0.0, 0.0, 0.0), 0.0, e);
    RestingCost(Point3(100.0, 0.0, 0.0), 0.0, e);
    var m := CostMatrix([SeedState(Seed(Point3(0.0, 0.0, 0.0), 0.0, Point3(0.0, 0.0, 0.0))),
                         SeedState(Seed(Point3(100.0, 0.0, 0.0), 0.0, Point3(0.0, 0.0, 0.0)))], [e]);
    assert m[0] == [250000.0] && m[1] == [160000.0];
  }

  /** The gate rejection example: cars at (0,0,0) and (100,0,0) at rest, an event at t = 1.0 from a camera at (500,0,0); no record, whatever the pairing. */
  lemma GateRejectionExample(pairs: seq<Pair>)
    requires IsAssignment(pairs, 2, 1)
    ensures
      var states := [SeedState(Seed(Point3(0.0, 0.0, 0.0), 0.0, Point3(0.0, 0.0, 0.0))),
                     SeedState(Seed(Point3(100.0, 0.0, 0.0), 0.0, Point3(0.0, 0.0, 0.0)))];
      var batch := [Event(1.0, 7, Point3(500.0, 0.0, 0.0))];
      && CostMatrix(states, batch) == [[250000.0], [160000.0]]
      && GatedRecords([[250000.0], [160000.0]], pairs, batch, [1, 2]) == []
  {
    RejectionCosts();
    assert |pairs| == 1;
    assert pairs[..0] == [];
  }

  /** The costs of the accepted example: the event from a camera at (1,0,0) is 1 from the first car and 99 from the second. */
  lemma AcceptanceCosts()
    ensures
      var states := [SeedState(Seed(Point3(0.0, 0.0, 0.0), 0.0, Point3(0.0, 0.0, 0.0))),
                     SeedState(Seed(Point3(100.0, 0.0, 0.0), 0.0, Point3(0.0, 0.0, 0.0)))];
      CostMatrix(states, [Event(1.0, 7, Point3(1.0, 0.0, 0.0))]) == [[1.0], [9801.0]]
  {
    var e := Event(1.0, 7, Point3(1.0, 0.0, 0.0));
    RestingCost(Point3(0.0, 0.0, 0.0), 0.0, e);
    RestingCost(Point3(100.0, 0.0, 0.0), 0.0, e);
    var m := CostMatrix([SeedState(Seed(Point3(0.0, 0.0, 0.0), 0.0, Point3(0.0, 0.0, 0.0))),
                         SeedState(Seed(Point3(100.0, 0.0, 0.0), 0.0, Point3(0.0, 0.0, 0.0)))], [e]);
    assert m[0] == [1.0] && m[1] == [9801.0];
  }

  /** The accepted example: the same cars and an event from a camera at (1,0,0); any pairing yields exactly one record, and pairing it with the first car costs 1.0. */
  lemma GateAcceptanceExample(pairs: seq<Pair>)
    requires IsAssignment(pairs, 2, 1)
    ensures
      var states := [SeedState(Seed(Point3(0.0, 0.0, 0.0), 0.0, Point3(0.0, 0.0, 0.0))),
                     SeedState(Seed(Point3(100.0, 0.0, 0.0), 0.0, Point3(0.0, 0.0, 0.0)))];
      var batch := [Event(1.0, 7, Point3(1.0, 0.0, 0.0))];
      var m := CostMatrix(states, batch);
      && m == [[1.0], [9801.0]]
      && |GatedRecords(m, pairs, batch, [1, 2])| == 1
      && (pairs == [(0, 0)] ==> GatedRecords(m, pairs, batch, [1, 2]) == [Record(1.0, 7, 1, 1.0)])
  {
    AcceptanceCosts();
    assert |pairs| == 1;
    assert pairs[..0] == [];
  }

  // ------------------------------------------------------- the filter bank

  /** Every car has its own valid filter in `trackers`, and no two cars share an id or a filter. */
  ghost predicate BankValid(trackers: map<int, KalmanFilter>, cars: seq<int>)
    reads set i | 0 <= i < |cars| && cars[i] in trackers :: trackers[cars[i]]
  {
    && (forall i :: 0 <= i < |cars| ==> cars[i] in trackers && trackers[cars[i]].Valid())
    && (forall i, j :: 0 <= i < j < |cars| ==> cars[i] != cars[j] && trackers[cars[i]] != trackers[cars[j]])
  }

  /** The states of the cars' filters, in car order. */
  function States(trackers: map<int, KalmanFilter>, cars: seq<int>): (ss: seq<FilterState>)
    requires forall i :: 0 <= i < |cars| ==> cars[i] in trackers
    reads set i | 0 <= i < |cars| :: trackers[cars[i]]`x
    reads set i | 0 <= i < |cars| :: trackers[cars[i]]`P
    reads set i | 0 <= i < |cars| :: trackers[cars[i]]`lastTime
    ensures |ss| == |cars| && forall i :: 0 <= i < |cars| ==> ss[i] == trackers[cars[i]].State()
    decreases |cars|
  {
    if cars == [] then []
    else
      var init := cars[..|cars| - 1];
      assert forall i :: 0 <= i < |init| ==> init[i] == cars[i];
      States(trackers, init) + [trackers[cars[|cars| - 1]].State()]
  }

  lemma BankStatesWellFormed(trackers: map<int, KalmanFilter>, cars: seq<int>)
    requires BankValid(trackers, cars)
    ensures forall i :: 0 <= i < |cars| ==> WellFormed(States(trackers, cars)[i])
  {
  }

  /** The solver's pairing of a cost matrix of a non-empty bank is in range and has at most one pair per event. */
  lemma SolverInRange(solve: Matrix -> seq<Pair>, m: Matrix, rows: nat, cols: nat)
    requires SolverSound(solve) && IsMatrix(m, rows, cols)
    ensures IsAssignment(solve(m), rows, cols) && InRange(solve(m), rows, cols)
  {
    assert IsMatrix(m, |m|, cols);
  }

  /**
   * One flush (`match_and_update`), on values: an empty batch changes nothing;
   * a non-empty batch with no cars fails; otherwise the gated records of the
   * solver's pairing, and the filter states after the gated corrections.
   */
  function Step(states: seq<FilterState>, cars: seq<int>, batch: seq<Event>,
                solve: Matrix -> seq<Pair>, invert: Matrix -> Option<Matrix>): (r: Result<(seq<FilterState>, seq<Record>), TrackingError>)
    requires |states| == |cars| && forall i :: 0 <= i < |states| ==> WellFormed(states[i])
    requires SolverSound(solve)
    ensures r.Ok? ==> |r.value.0| == |states| && forall i :: 0 <= i < |states| ==> WellFormed(r.value.0[i])
  {
    if batch == [] then Ok((states, []))
    else if cars == [] then Err(NoCarsToScore)
    else
      var m := CostMatrix(states, batch);
      SolverInRange(solve, m, |states|, |batch|);
      var pairs := solve(m);
      Ok((AfterPairs(states, m, pairs, batch, invert), GatedRecords(m, pairs, batch, cars)))
  }

  /** The records of a whole run over the given flushes, or the error of the first flush that fails. */
  function Track(states: seq<FilterState>, cars: seq<int>, flushes: seq<seq<Event>>,
                 solve: Matrix -> seq<Pair>, invert: Matrix -> Option<Matrix>): Result<seq<Record>, TrackingError>
    requires |states| == |cars| && forall i :: 0 <= i < |states| ==> WellFormed(states[i])
    requires SolverSound(solve)
    decreases |flushes|
  {
    if flushes == [] then Ok([])
    else
      match Step(states, cars, flushes[0], solve, invert)
      case Err(e) => Err(e)
      case Ok((next, recs)) => Prepend(recs, Track(next, cars, flushes[1..], solve, invert))
  }

  /** The records of one flush ahead of those of the rest of the run; a failure stays a failure. */
  function Prepend(recs: seq<Record>, rest: Result<seq<Record>, TrackingError>): (r: Result<seq<Record>, TrackingError>)
    ensures r.Err? <==> rest.Err?
    ensures r.Ok? ==> |r.value| == |recs| + |rest.value| && r.value[..|recs|] == recs && r.value[|recs|..] == rest.value
  {
    match rest
    case Ok(more) => Ok(recs + more)
    case Err(e) => Err(e)
  }

  /**
   * What one flush guarantees: no more records than events, each inside the
   * gate and naming a car, at most one per car and one per event; and it fails exactly when a
   * non-empty batch meets an empty bank.
   */
  lemma StepGuarantees(states: seq<FilterState>, cars: seq<int>, batch: seq<Event>,
                       solve: Matrix -> seq<Pair>, invert: Matrix -> Option<Matrix>)
    requires |states| == |cars| && forall i :: 0 <= i < |states| ==> WellFormed(states[i])
    requires forall i, j :: 0 <= i < j < |cars| ==> cars[i] != cars[j]
    requires SolverSound(solve)
    ensures Step(states, cars, batch, solve, invert).Err? <==> batch != [] && cars == []
    ensures Step(states, cars, batch, solve, invert).Ok? ==>
      var recs := Step(states, cars, batch, solve, invert).value.1;
      && |recs| <= |batch|
      && (forall rec :: rec in recs ==> rec.distanceSq < GateSq && rec.carId in cars)
      && (forall k, l :: 0 <= k < l < |recs| ==> recs[k].carId != recs[l].carId)
      && (exists cols :: FromDistinctEvents(recs, batch, cols))
  {
    if batch != [] && cars != [] {
      var m := CostMatrix(states, batch);
      SolverInRange(solve, m, |states|, |batch|);
      var pairs := solve(m);
      RecordsInsideGate(m, pairs, batch, cars);
      OneRecordPerCar(m, pairs, batch, cars);
      OneRecordPerEvent(m, pairs, batch, cars);
      var recs := GatedRecords(m, pairs, batch, cars);
      assert FromDistinctEvents(recs, batch, GatedCols(m, pairs, batch, cars));
      forall rec | rec in recs
        ensures rec.carId in cars
      {
        var k :| 0 <= k < |recs| && recs[k] == rec;
        var j :| 0 <= j < |pairs| && recs[k].carId == cars[pairs[j].0];
      }
    } else if batch == [] {
      assert FromDistinctEvents([], batch, []);
    }
  }

  /**
   * What a whole run guarantees: no more records than events, each inside the
   * gate and naming a car; and it fails exactly when there are events but no cars.
   */
  lemma {:induction false} TrackGuarantees(states: seq<FilterState>, cars: seq<int>, flushes: seq<seq<Event>>,
                                            solve: Matrix -> seq<Pair>, invert: Matrix -> Option<Matrix>)
    requires |states| == |cars| && forall i :: 0 <= i < |states| ==> WellFormed(states[i])
    requires forall i, j :: 0 <= i < j < |cars| ==> cars[i] != cars[j]
    requires SolverSound(solve)
    ensures Track(states, cars, flushes, solve, invert).Err? <==> cars == [] && Flatten(flushes) != []
    ensures Track(states, cars, flushes, solve, invert).Ok? ==>
      var recs := Track(states, cars, flushes, solve, invert).value;
      && |recs| <= |Flatten(flushes)|
      && forall rec :: rec in recs ==> rec.distanceSq < GateSq && rec.carId in cars
    decreases |flushes|
  {
    if flushes != [] {
      StepGuarantees(states, cars, flushes[0], solve, invert);
      var step := Step(states, cars, flushes[0], solve, invert);
      if step.Ok? {
        var (next, recs) := step.value;
        TrackGuarantees(next, cars, flushes[1..], solve, invert);
      }
    }
  }

  /** The seeds of the given cars, from the visible table. */
  function Seeds(visible: seq<Sighting>, cars: seq<int>): (seeds: seq<Seed>)
    requires forall id :: id in cars ==> exists s :: s in visible && s.carId == id
    ensures |seeds| == |cars|
  {
    seq(|cars|, i requires 0 <= i < |cars| => assert cars[i] in cars; SeedOf(visible, cars[i]))
  }

  /** The initial filter states the seeds give. */
  function SeedStates(seeds: seq<Seed>): (ss: seq<FilterState>)
    ensures |ss| == |seeds| && forall i :: 0 <= i < |ss| ==> WellFormed(ss[i])
  {
    seq(|seeds|, i requires 0 <= i < |seeds| => SeedState(seeds[i]))
  }


  /** One row of the cost matrix: predicts `kf` at each event's time and measures to the event's camera. */
  method ScoreRow(kf: KalmanFilter, batch: seq<Event>) returns (row: seq<real>)
    requires kf.Valid()
    modifies kf`F, kf`xPred, kf`PPred
    ensures kf.Valid()
    ensures row == CostRow(kf.State(), batch)
  {
    row := [];
    var c := 0;
    while c < |batch|
      invariant 0 <= c <= |batch| && kf.Valid()
      invariant row == CostRow(kf.State(), batch)[..c]
    {
      var pred := kf.Predict(batch[c].time);
      row := row + [HorizontalDistSq(pred, batch[c].pos)];
      c := c + 1;
    }
  }

  /** The cost matrix of the batch against the bank, which keeps its states. */
  method Score(batch: seq<Event>, trackers: map<int, KalmanFilter>, cars: seq<int>) returns (m: Matrix)
    requires BankValid(trackers, cars)
    modifies set i | 0 <= i < |cars| :: trackers[cars[i]]
    ensures BankValid(trackers, cars) && States(trackers, cars) == old(States(trackers, cars))
    ensures (forall i :: 0 <= i < |cars| ==> WellFormed(States(trackers, cars)[i]))
      && m == CostMatrix(States(trackers, cars), batch)
  {
    BankStatesWellFormed(trackers, cars);
    ghost var states := States(trackers, cars);
    m := [];
    var r := 0;
    while r < |cars|
      invariant 0 <= r <= |cars|
      invariant BankValid(trackers, cars) && States(trackers, cars) == states
      invariant |m| == r && forall i :: 0 <= i < r ==> m[i] == CostRow(states[i], batch)
    {
      var row := ScoreCar(trackers, cars, r, trackers[cars[r]], batch);
      m := m + [row];
      r := r + 1;
    }
    assert m == CostMatrix(states, batch);
  }

  /** Car r's row of the cost matrix; only that car's prediction fields change. */
  method ScoreCar(trackers: map<int, KalmanFilter>, cars: seq<int>, r: nat, kf: KalmanFilter, batch: seq<Event>)
    returns (row: seq<real>)
    requires BankValid(trackers, cars) && r < |cars| && kf == trackers[cars[r]]
    modifies kf`F, kf`xPred, kf`PPred
    ensures BankValid(trackers, cars) && States(trackers, cars) == old(States(trackers, cars))
    ensures row == CostRow(States(trackers, cars)[r], batch)
  {
    ghost var before := States(trackers, cars);
    row := ScoreRow(kf, batch);
    ghost var now := States(trackers, cars);
    forall i | 0 <= i < |cars|
      ensures now[i] == before[i] && trackers[cars[i]].Valid()
    {
      if i != r {
        assert trackers[cars[i]] != kf;
      }
    }
    assert now == before;
  }

  /** A fresh prediction at the event's time, then the update with the camera's position. */
  method PredictThenUpdate(kf: KalmanFilter, e: Event, invert: Matrix -> Option<Matrix>)
    requires kf.Valid()
    modifies kf
    ensures kf.Valid()
    ensures kf.State() == Correct(old(kf.State()), e.time, ToVector(e.pos), invert)
  {
    ghost var s := kf.State();
    var _ := kf.Predict(e.time);
    ghost var xPred, pPred := kf.xPred, kf.PPred;
    CorrectFromPrediction(s, e.time, ToVector(e.pos), invert, xPred, pPred);
    kf.Update(e.time, ToVector(e.pos), invert);
  }

  /** The corrections of one accepted pair: a fresh prediction at the event's time, then the update. */
  method CorrectCar(trackers: map<int, KalmanFilter>, cars: seq<int>, r: nat, e: Event,
                    invert: Matrix -> Option<Matrix>)
    requires BankValid(trackers, cars) && r < |cars|
    modifies trackers[cars[r]]
    ensures BankValid(trackers, cars)
    ensures
      var before := old(States(trackers, cars));
      && (forall i :: 0 <= i < |before| ==> WellFormed(before[i]))
      && States(trackers, cars) == before[r := Correct(before[r], e.time, ToVector(e.pos), invert)]
  {
    BankStatesWellFormed(trackers, cars);
    ghost var before := States(trackers, cars);
    ghost var corrected := Correct(before[r], e.time, ToVector(e.pos), invert);
    var kf := trackers[cars[r]];
    PredictThenUpdate(kf, e, invert);
    ghost var now := States(trackers, cars);
    forall i | 0 <= i < |cars|
      ensures now[i] == before[r := corrected][i] && trackers[cars[i]].Valid()
    {
      if i != r {
        assert trackers[cars[i]] != kf;
      }
    }
    assert now == before[r := corrected];
  }

  /** Applying one more pair: a record and a correction exactly when the pair is inside the gate. */
  lemma PairsStep(states: seq<FilterState>, m: Matrix, pairs: seq<Pair>, batch: seq<Event>, cars: seq<int>,
                  invert: Matrix -> Option<Matrix>, k: nat)
    requires |states| == |cars| && forall i :: 0 <= i < |states| ==> WellFormed(states[i])
    requires IsMatrix(m, |cars|, |batch|) && InRange(pairs, |cars|, |batch|) && k < |pairs|
    ensures
      var (r, c) := pairs[k];
      var recs := GatedRecords(m, pairs[..k], batch, cars);
      var before := AfterPairs(states, m, pairs[..k], batch, invert);
      && GatedRecords(m, pairs[..k + 1], batch, cars)
         == (if m[r][c] < GateSq then recs + [Record(batch[c].time, batch[c].cameraId, cars[r], m[r][c])] else recs)
      && AfterPairs(states, m, pairs[..k + 1], batch, invert)
         == (if m[r][c] < GateSq then before[r := Correct(before[r], batch[c].time, ToVector(batch[c].pos), invert)] else before)
  {
    var done := pairs[..k + 1];
    assert done[..k] == pairs[..k] && done[k] == pairs[k];
  }

  /** The pairs in order: each pair inside the gate is recorded and corrects its car. */
  method Commit(m: Matrix, pairs: seq<Pair>, batch: seq<Event>, trackers: map<int, KalmanFilter>, cars: seq<int>,
                invert: Matrix -> Option<Matrix>) returns (recs: seq<Record>)
    requires BankValid(trackers, cars)
    requires IsMatrix(m, |cars|, |batch|) && InRange(pairs, |cars|, |batch|)
    modifies set i | 0 <= i < |cars| :: trackers[cars[i]]
    ensures BankValid(trackers, cars)
    ensures recs == GatedRecords(m, pairs, batch, cars)
    ensures
      var before := old(States(trackers, cars));
      && (forall i :: 0 <= i < |before| ==> WellFormed(before[i]))
      && States(trackers, cars) == AfterPairs(before, m, pairs, batch, invert)
  {
    BankStatesWellFormed(trackers, cars);
    ghost var before := States(trackers, cars);
    recs := [];
    var k := 0;
    while k < |pairs|
      invariant 0 <= k <= |pairs|
      invariant BankValid(trackers, cars)
      invariant recs == GatedRecords(m, pairs[..k], batch, cars)
      invariant States(trackers, cars) == AfterPairs(before, m, pairs[..k], batch, invert)
    {
      recs := CommitPair(m, pairs, batch, trackers, cars, invert, before, k, recs);
      k := k + 1;
    }
    assert pairs[..|pairs|] == pairs;
  }

  /** One pair of `commit`: inside the gate, the match is recorded and corrects that car's filter. */
  method CommitPair(m: Matrix, pairs: seq<Pair>, batch: seq<Event>, trackers: map<int, KalmanFilter>, cars: seq<int>,
                    invert: Matrix -> Option<Matrix>, ghost before: seq<FilterState>, k: nat, recs: seq<Record>)
    returns (next: seq<Record>)
    requires BankValid(trackers, cars)
    requires IsMatrix(m, |cars|, |batch|) && InRange(pairs, |cars|, |batch|) && k < |pairs|
    requires |before| == |cars| && forall i :: 0 <= i < |before| ==> WellFormed(before[i])
    requires recs == GatedRecords(m, pairs[..k], batch, cars)
    requires States(trackers, cars) == AfterPairs(before, m, pairs[..k], batch, invert)
    modifies set i | 0 <= i < |cars| :: trackers[cars[i]]
    ensures BankValid(trackers, cars)
    ensures next == GatedRecords(m, pairs[..k + 1], batch, cars)
    ensures States(trackers, cars) == AfterPairs(before, m, pairs[..k + 1], batch, invert)
  {
    PairsStep(before, m, pairs, batch, cars, invert, k);
    var (r, c) := pairs[k];
    next := recs;
    if m[r][c] < GateSq {
      var e := batch[c];
      next := recs + [Record(e.time, e.cameraId, cars[r], m[r][c])];
      CorrectCar(trackers, cars, r, e, invert);
    }
  }

  /**
   * `match_and_update`: scores every car against every event of the batch
   * with fresh predictions, pairs them with `solve`, and for each pair inside
   * the gate records the match and corrects that car's filter.
   */
  method MatchAndUpdate(batch: seq<Event>, trackers: map<int, KalmanFilter>, cars: seq<int>,
                        solve: Matrix -> seq<Pair>, invert: Matrix -> Option<Matrix>)
    returns (out: Result<seq<Record>, TrackingError>)
    requires BankValid(trackers, cars) && SolverSound(solve)
    modifies set i | 0 <= i < |cars| :: trackers[cars[i]]
    ensures BankValid(trackers, cars)
    ensures
      var before := old(States(trackers, cars));
      && (forall i :: 0 <= i < |before| ==> WellFormed(before[i]))
      && match Step(before, cars, batch, solve, invert)
      case Err(e) => out == Err(e)
      case Ok((next, recs)) => out == Ok(recs) && States(trackers, cars) == next
  {
    BankStatesWellFormed(trackers, cars);
    ghost var before := States(trackers, cars);
    if batch == [] {
      return Ok([]);
    }
    if cars == [] {
      return Err(NoCarsToScore);
    }
    var m := Score(batch, trackers, cars);
    SolverInRange(solve, m, |cars|, |batch|);
    var pairs := solve(m);
    var recs := Commit(m, pairs, batch, trackers, cars, invert);
    assert Step(before, cars, batch, solve, invert)
        == Ok((AfterPairs(before, m, pairs, batch, invert), GatedRecords(m, pairs, batch, cars)));
    return Ok(recs);
  }

  /** A fresh filter for car `id` starting from `seed`. */
  method NewTracker(id: int, seed: Seed) returns (kf: KalmanFilter)
    ensures fresh(kf) && kf.Valid() && kf.State() == SeedState(seed)
  {
    kf := new KalmanFilter(id, ToVector(seed.pos), seed.time, ToVector(seed.vel));
  }

  /** One fresh filter per car of `cars` (distinct ids), started from its seed and keyed by its id. */
  method SeedTrackers(cars: seq<int>, seeds: seq<Seed>) returns (trackers: map<int, KalmanFilter>)
    requires forall i, j :: 0 <= i < j < |cars| ==> cars[i] != cars[j]
    requires |seeds| == |cars|
    ensures BankValid(trackers, cars)
    ensures forall j :: 0 <= j < |cars| ==> fresh(trackers[cars[j]]) && trackers[cars[j]].State() == SeedState(seeds[j])
  {
    trackers := map[];
    var i := 0;
    while i < |cars|
      invariant 0 <= i <= |cars|
      invariant forall j :: 0 <= j < i ==> cars[j] in trackers
      invariant forall j :: 0 <= j < i ==> fresh(trackers[cars[j]])
      invariant forall j :: 0 <= j < i ==> trackers[cars[j]].Valid()
      invariant forall j :: 0 <= j < i ==> trackers[cars[j]].State() == SeedState(seeds[j])
      invariant forall j, k :: 0 <= j < k < i ==> trackers[cars[j]] != trackers[cars[k]]
    {
      var kf := NewTracker(cars[i], seeds[i]);
      trackers := trackers[cars[i] := kf];
      i := i + 1;
    }
    BankFromParts(trackers, cars);
  }

  /** Distinct ids with distinct valid filters make a valid bank. */
  lemma BankFromParts(trackers: map<int, KalmanFilter>, cars: seq<int>)
    requires forall j, k :: 0 <= j < k < |cars| ==> cars[j] != cars[k]
    requires forall j :: 0 <= j < |cars| ==> cars[j] in trackers
    requires forall j :: 0 <= j < |cars| ==> trackers[cars[j]].Valid()
    requires forall j, k :: 0 <= j < k < |cars| ==> trackers[cars[j]] != trackers[cars[k]]
    ensures BankValid(trackers, cars)
  {
  }

  /** Filters that each hold their car's seed state make up the seeded bank. */
  lemma StatesAreSeeds(trackers: map<int, KalmanFilter>, cars: seq<int>, seeds: seq<Seed>)
    requires |seeds| == |cars|
    requires forall j :: 0 <= j < |cars| ==> cars[j] in trackers
    requires forall j :: 0 <= j < |cars| ==> trackers[cars[j]].State() == SeedState(seeds[j])
    ensures States(trackers, cars) == SeedStates(seeds)
  {
    var now, want := States(trackers, cars), SeedStates(seeds);
    forall j | 0 <= j < |cars|
      ensures now[j] == want[j]
    {
    }
  }

  lemma PrependTwice(a: seq<Record>, b: seq<Record>, rest: Result<seq<Record>, TrackingError>)
    ensures Prepend(a, Prepend(b, rest)) == Prepend(a + b, rest)
  {
    if rest.Ok? {
      assert a + (b + rest.value) == (a + b) + rest.value;
    }
  }

  /**
   * One flush inside the run: what it records, followed by what the rest of
   * the run records from the corrected states, is what the run records from here.
   */
  method Flush(batch: seq<Event>, ghost rest: seq<seq<Event>>, trackers: map<int, KalmanFilter>, cars: seq<int>,
               solve: Matrix -> seq<Pair>, invert: Matrix -> Option<Matrix>)
    returns (out: Result<seq<Record>, TrackingError>)
    requires BankValid(trackers, cars) && SolverSound(solve)
    modifies set i | 0 <= i < |cars| :: trackers[cars[i]]
    ensures BankValid(trackers, cars)
    ensures
      var before := old(States(trackers, cars));
      && (forall i :: 0 <= i < |before| ==> WellFormed(before[i]))
      && (forall i :: 0 <= i < |cars| ==> WellFormed(States(trackers, cars)[i]))
      && (out.Err? ==> Track(before, cars, [batch] + rest, solve, invert) == Err(out.error))
      && (out.Ok? ==> Track(before, cars, [batch] + rest, solve, invert)
                      == Prepend(out.value, Track(States(trackers, cars), cars, rest, solve, invert)))
  {
    BankStatesWellFormed(trackers, cars);
    ghost var before := States(trackers, cars);
    out := MatchAndUpdate(batch, trackers, cars, solve, invert);
    BankStatesWellFormed(trackers, cars);
    assert ([batch] + rest)[0] == batch && ([batch] + rest)[1..] == rest;
  }

  /**
   * The windowing loop of `run_tracking` over events already sorted by time:
   * an event later than the window start plus `Window` flushes the batch and
   * opens a new window at its own time; a non-empty last batch is flushed too.
   */
  method FeedEvents(events: seq<Event>, trackers: map<int, KalmanFilter>, cars: seq<int>,
                    solve: Matrix -> seq<Pair>, invert: Matrix -> Option<Matrix>)
    returns (out: Result<seq<Record>, TrackingError>)
    requires BankValid(trackers, cars) && SolverSound(solve)
    modifies set i | 0 <= i < |cars| :: trackers[cars[i]]
    ensures
      var seeded := old(States(trackers, cars));
      && (forall i :: 0 <= i < |seeded| ==> WellFormed(seeded[i]))
      && out == Track(seeded, cars, Flushes(events, 0.0, []), solve, invert)
  {
    BankStatesWellFormed(trackers, cars);
    ghost var seeded := States(trackers, cars);
    var start := 0.0;
    var batch: seq<Event> := [];
    var results: seq<Record> := [];
    var n := 0;
    while n < |events|
      invariant 0 <= n <= |events|
      invariant BankValid(trackers, cars)
      invariant forall j :: 0 <= j < |cars| ==> WellFormed(States(trackers, cars)[j])
      invariant Track(seeded, cars, Flushes(events, 0.0, []), solve, invert)
             == Prepend(results, Track(States(trackers, cars), cars, Flushes(events[n..], start, batch), solve, invert))
    {
      var e := events[n];
      assert events[n..][0] == e && events[n..][1..] == events[n + 1..];
      if e.time > start + Window {
        ghost var rest := Flushes(events[n + 1..], e.time, [e]);
        assert Flushes(events[n..], start, batch) == [batch] + rest;
        var flushed := Flush(batch, rest, trackers, cars, solve, invert);
        if flushed.Err? {
          return Err(flushed.error);
        }
        PrependTwice(results, flushed.value, Track(States(trackers, cars), cars, rest, solve, invert));
        results := results + flushed.value;
        batch := [];
        start := e.time;
        assert batch + [e] == [e];
      } else {
        assert Flushes(events[n..], start, batch) == Flushes(events[n + 1..], start, batch + [e]);
      }
      batch := batch + [e];
      n := n + 1;
      assert Track(seeded, cars, Flushes(events, 0.0, []), solve, invert)
          == Prepend(results, Track(States(trackers, cars), cars, Flushes(events[n..], start, batch), solve, invert));
    }
    assert events[n..] == [];
    out := FlushLast(results, batch, start, trackers, cars, solve, invert);
  }

  /** The end of the run: a non-empty last batch is flushed; an empty one is not. */
  method FlushLast(results: seq<Record>, batch: seq<Event>, ghost start: real,
                   trackers: map<int, KalmanFilter>, cars: seq<int>,
                   solve: Matrix -> seq<Pair>, invert: Matrix -> Option<Matrix>)
    returns (out: Result<seq<Record>, TrackingError>)
    requires BankValid(trackers, cars) && SolverSound(solve)
    modifies set i | 0 <= i < |cars| :: trackers[cars[i]]
    ensures
      var before := old(States(trackers, cars));
      && (forall i :: 0 <= i < |before| ==> WellFormed(before[i]))
      && out == Prepend(results, Track(before, cars, Flushes([], start, batch), solve, invert))
  {
    BankStatesWellFormed(trackers, cars);
    if batch == [] {
      assert results + [] == results;
      return Ok(results);
    }
    assert Flushes([], start, batch) == [batch] + [];
    var flushed := Flush(batch, [], trackers, cars, solve, invert);
    if flushed.Err? {
      return Err(flushed.error);
    }
    PrependTwice(results, flushed.value, Ok([]));
    assert flushed.value + [] == flushed.value;
    return Ok(results + flushed.value);
  }

  /**
   * `run_tracking`: seeds one filter per visible car, sorts the encrypted
   * events by time and feeds them through the windowing loop. A failing
   * flush aborts the run.
   */
  method RunTracking(visible: seq<Sighting>, encrypted: seq<Event>,
                     solve: Matrix -> seq<Pair>, invert: Matrix -> Option<Matrix>)
    returns (out: Result<seq<Record>, TrackingError>)
    requires SolverSound(solve)
    ensures out == Track(SeedStates(Seeds(visible, CarIds(visible))), CarIds(visible),
                         Flushes(SortBy(encrypted, EventTime), 0.0, []), solve, invert)
  {
    var cars := CarIds(visible);
    var seeds := Seeds(visible, cars);
    var trackers := SeedTrackers(cars, seeds);
    StatesAreSeeds(trackers, cars, seeds);
    var events := SortBy(encrypted, EventTime);
    out := FeedEvents(events, trackers, cars, solve, invert);
  }
}
