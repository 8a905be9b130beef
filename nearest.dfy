/**
 * The simulator vehicle nearest to a ground position, by distance in the
 * x-y plane. Distances are compared squared, which orders them the same way
 * as the Euclidean norm.
 */
module Nearest {

  /** A vehicle's location; only x and y take part. */
  datatype Location = Location(x: real, y: real, z: real)

  datatype Point = Point(x: real, y: real)

  /** A distance, or the infinite distance the search starts from. */
  datatype Dist = Finite(d: real) | Infinity

  predicate Less(a: Dist, b: Dist)
  {
    match (a, b)
    case (Finite(x), Finite(y)) => x < y
    case (Finite(_), Infinity) => true
    case (Infinity, _) => false
  }

  function SquaredDistance(p: Point, q: Point): (r: real)
    ensures r >= 0.0
  {
    (p.x - q.x) * (p.x - q.x) + (p.y - q.y) * (p.y - q.y)
  }

  function Ground(v: Location): Point
  {
    Point(v.x, v.y)
  }

  /** The closest position and its distance after scanning `vs`, replacing the best only on a strictly smaller distance. */
  function Closest(pos: Point, vs: seq<Location>): (Point, Dist)
  {
    if vs == [] then (Point(0.0, 0.0), Infinity)
    else
      var (best, minDist) := Closest(pos, vs[..|vs| - 1]);
      var p := Ground(vs[|vs| - 1]);
      var d := Finite(SquaredDistance(p, pos));
      if Less(d, minDist) then (p, d) else (best, minDist)
  }

  /** The earliest vehicle at the least distance is the one chosen. */
  predicate EarliestNearest(pos: Point, vs: seq<Location>, k: nat)
  {
    && k < |vs|
    && (forall j :: 0 <= j < |vs| ==> SquaredDistance(Ground(vs[k]), pos) <= SquaredDistance(Ground(vs[j]), pos))
    && (forall j :: 0 <= j < k ==> SquaredDistance(Ground(vs[k]), pos) < SquaredDistance(Ground(vs[j]), pos))
  }

  /** The position of the vehicle the scan keeps: the last one strictly nearer than every vehicle before it. */
  function NearestIndex(pos: Point, vs: seq<Location>): (k: nat)
    requires vs != []
    ensures k < |vs|
  {
    if |vs| == 1 then 0
    else
      var k := NearestIndex(pos, vs[..|vs| - 1]);
      if SquaredDistance(Ground(vs[|vs| - 1]), pos) < SquaredDistance(Ground(vs[k]), pos) then |vs| - 1 else k
  }

  /** The kept vehicle is the earliest among the nearest ones. */
  lemma {:induction false} NearestIndexIsEarliest(pos: Point, vs: seq<Location>)
    requires vs != []
    ensures EarliestNearest(pos, vs, NearestIndex(pos, vs))
  {
    if |vs| > 1 {
      var init := vs[..|vs| - 1];
      NearestIndexIsEarliest(pos, init);
      assert forall j :: 0 <= j < |init| ==> vs[j] == init[j];
    }
  }

  /**
   * Without vehicles the result is the origin at infinite distance;
   * otherwise it is the ground position and distance of the earliest
   * vehicle among the nearest ones.
   */
  lemma {:induction false} ClosestMeaning(pos: Point, vs: seq<Location>)
    ensures vs == [] ==> Closest(pos, vs) == (Point(0.0, 0.0), Infinity)
    ensures vs != [] ==>
      var k := NearestIndex(pos, vs);
      && EarliestNearest(pos, vs, k)
      && Closest(pos, vs) == (Ground(vs[k]), Finite(SquaredDistance(Ground(vs[k]), pos)))
  {
    if vs != [] {
      NearestIndexIsEarliest(pos, vs);
      ClosestKeepsNearest(pos, vs);
    }
  }

  lemma {:induction false} ClosestKeepsNearest(pos: Point, vs: seq<Location>)
    requires vs != []
    ensures Closest(pos, vs) == (Ground(vs[NearestIndex(pos, vs)]), Finite(SquaredDistance(Ground(vs[NearestIndex(pos, vs)]), pos)))
  {
    if |vs| > 1 {
      var init := vs[..|vs| - 1];
      ClosestKeepsNearest(pos, init);
      assert vs[NearestIndex(pos, init)] == init[NearestIndex(pos, init)];
    } else {
      assert vs[..0] == [];
    }
  }

  /** The scanning loop over the vehicles. */
  method GetClosestVehicle(pos: Point, vehicles: seq<Location>) returns (closest: Point, minDist: Dist)
    ensures (closest, minDist) == Closest(pos, vehicles)
  {
    closest := Point(0.0, 0.0);
    minDist := Infinity;
    for i := 0 to |vehicles|
      invariant (closest, minDist) == Closest(pos, vehicles[..i])
    {
      assert vehicles[..i + 1][..i] == vehicles[..i];
      var actPos := Ground(vehicles[i]);
      var dist := Finite(SquaredDistance(actPos, pos));
      if Less(dist, minDist) {
        minDist := dist;
        closest := actPos;
      }
    }
    assert vehicles[..|vehicles|] == vehicles;
  }
}
