/**
 * Route optimisation for one vehicle: the stops are the vehicle's current
 * location followed by the locations of its pending deliveries, in
 * assignment order; consecutive stops are joined by shortest paths, and
 * the paths are stitched end to start, each after the first losing its
 * first node (the stop the previous one ended on).
 */
module Routing {
  import opened Wrappers
  import opened Roads
  import opened Deliveries
  import opened Vehicles

  /** `[delivery.location for delivery in ...]`. */
  function Locations(ds: seq<Delivery>): (r: seq<Location>)
    ensures |r| == |ds| && forall k :: 0 <= k < |ds| ==> r[k] == ds[k].location
  {
    if ds == [] then [] else Locations(ds[..|ds| - 1]) + [ds[|ds| - 1].location]
  }

  /** The locations a vehicle must visit, in order. */
  function Stops(v: Vehicle): seq<Location> {
    [v.location] + Locations(v.pending)
  }

  /** Stop k and the stop after it. */
  function Hop(stops: seq<Location>, k: nat): Edge
    requires k + 1 < |stops|
  {
    (stops[k], stops[k + 1])
  }

  /** The shortest-path query from stop k to stop k + 1. */
  function Query(n: Network, sp: PathOracle, stops: seq<Location>, k: nat): Option<seq<Location>>
    requires k + 1 < |stops|
  {
    sp(n, stops[k], stops[k + 1])
  }

  /** segs answers the shortest-path query for every consecutive pair of stops. */
  predicate Answers(n: Network, sp: PathOracle, stops: seq<Location>, segs: seq<seq<Location>>) {
    |stops| == |segs| + 1 && forall k :: 0 <= k < |segs| ==> Query(n, sp, stops, k) == Some(segs[k])
  }

  /**
   * One shortest-path query per consecutive pair of stops, in order; the
   * first query that fails ends the computation with that pair.
   */
  function Segments(n: Network, sp: PathOracle, stops: seq<Location>): (r: Result<seq<seq<Location>>, Edge>)
    ensures r.Ok? && |stops| >= 1 ==> Answers(n, sp, stops, r.value)
    ensures r.Ok? <==> forall k :: 0 <= k < |stops| - 1 ==> Query(n, sp, stops, k).Some?
    ensures r.Err? ==> exists k :: 0 <= k < |stops| - 1 && r.error == Hop(stops, k)
                         && Query(n, sp, stops, k).None?
                         && forall j :: 0 <= j < k ==> Query(n, sp, stops, j).Some?
    decreases |stops|
  {
    if |stops| <= 1 then Ok([])
    else
      var k := |stops| - 1;
      assert forall j :: 0 <= j < k - 1 ==> Query(n, sp, stops[..k], j) == Query(n, sp, stops, j) && Hop(stops[..k], j) == Hop(stops, j);
      match Segments(n, sp, stops[..k])
      case Err(e) => Err(e)
      case Ok(segs) =>
        match sp(n, stops[k - 1], stops[k])
        case None =>
          assert Query(n, sp, stops, k - 1).None?;
          Err(Hop(stops, k - 1))
        case Some(p) => Ok(segs + [p])
  }

  /** Python's `p[1:]`. */
  function Drop1(p: seq<Location>): seq<Location> {
    if p == [] then [] else p[1..]
  }

  /** The first segment whole, every later one without its first node. */
  function Join(segs: seq<seq<Location>>): seq<Location>
    decreases |segs|
  {
    if segs == [] then []
    else if |segs| == 1 then segs[0]
    else Join(segs[..|segs| - 1]) + Drop1(segs[|segs| - 1])
  }

  /** The optimised route over stops, or the first pair of stops with no path between them. */
  function Stitch(n: Network, sp: PathOracle, stops: seq<Location>): Result<seq<Location>, Edge> {
    match Segments(n, sp, stops)
    case Err(e) => Err(e)
    case Ok(segs) => Ok(Join(segs))
  }

  /** Each segment is a path from one stop to the next. */
  predicate Legs(n: Network, segs: seq<seq<Location>>, stops: seq<Location>) {
    |stops| == |segs| + 1 && forall k :: 0 <= k < |segs| ==> IsPath(n, segs[k], stops[k], stops[k + 1])
  }

  /** Position in the joined route at which the segments before segs' end finish. */
  function Offset(segs: seq<seq<Location>>): int
    decreases |segs|
  {
    if segs == [] then 0 else Offset(segs[..|segs| - 1]) + |segs[|segs| - 1]| - 1
  }

  /** Total weight of the segments. */
  function LegsCost(n: Network, segs: seq<seq<Location>>): nat
    decreases |segs|
  {
    if segs == [] then 0 else LegsCost(n, segs[..|segs| - 1]) + PathCost(n, segs[|segs| - 1])
  }

  lemma {:induction false} PathCostSeam(n: Network, p: seq<Location>, q: seq<Location>)
    requires |p| > 0 && |q| > 0 && p[|p| - 1] == q[0]
    ensures PathCost(n, p + q[1..]) == PathCost(n, p) + PathCost(n, q)
    decreases |p|
  {
    if |p| == 1 {
      assert p + q[1..] == q;
    } else {
      assert (p + q[1..])[1..] == p[1..] + q[1..];
      PathCostSeam(n, p[1..], q);
    }
  }

  /** Two paths that meet at b make one path from a to c, of the summed weight. */
  lemma PathSeam(n: Network, p: seq<Location>, q: seq<Location>, a: Location, b: Location, c: Location)
    requires IsPath(n, p, a, b) && IsPath(n, q, b, c)
    ensures IsPath(n, p + Drop1(q), a, c)
    ensures |p + Drop1(q)| == |p| + |q| - 1
    ensures PathCost(n, p + Drop1(q)) == PathCost(n, p) + PathCost(n, q)
  {
    var r := p + Drop1(q);
    assert Drop1(q) == q[1..];
    forall i | 0 <= i < |r| - 1
      ensures Adjacent(n, r[i], r[i + 1])
    {
      if i >= |p| - 1 {
        assert r[i] == q[i - |p| + 1] && r[i + 1] == q[i - |p| + 2];
      }
    }
    PathCostSeam(n, p, q);
  }

  /** Stop k of stops sits at position Offset(segs[..k]) of r, for every stop. */
  predicate VisitsInOrder(segs: seq<seq<Location>>, stops: seq<Location>, r: seq<Location>)
    requires |segs| < |stops|
  {
    forall k :: 0 <= k <= |segs| ==> 0 <= Offset(segs[..k]) < |r| && r[Offset(segs[..k])] == stops[k]
  }

  /**
   * What a joined route is: a path from the first stop to the last that
   * passes through every stop in order, has one node fewer per seam than
   * the segments together, and weighs what the segments weigh together.
   */
  predicate IsRoute(n: Network, segs: seq<seq<Location>>, stops: seq<Location>, r: seq<Location>)
    requires |segs| < |stops|
  {
    && IsPath(n, r, stops[0], stops[|segs|])
    && |r| == Offset(segs) + 1
    && VisitsInOrder(segs, stops, r)
    && PathCost(n, r) == LegsCost(n, segs)
  }

  lemma JoinOne(n: Network, segs: seq<seq<Location>>, stops: seq<Location>)
    requires Legs(n, segs, stops) && |segs| == 1
    ensures IsRoute(n, segs, stops, Join(segs))
  {
    assert segs[..0] == [] && segs[..1] == segs;
    assert IsPath(n, segs[0], stops[0], stops[1]);
  }

  lemma VisitsStep(segs: seq<seq<Location>>, stops: seq<Location>, r: seq<Location>, last: seq<Location>)
    requires 2 <= |segs| < |stops| && last == segs[|segs| - 1]
    requires |last| > 0 && last[0] == stops[|segs| - 1] && last[|last| - 1] == stops[|segs|]
    requires VisitsInOrder(segs[..|segs| - 1], stops[..|segs|], r) && |r| == Offset(segs[..|segs| - 1]) + 1
    ensures VisitsInOrder(segs, stops, r + Drop1(last))
  {
    var m := |segs|;
    var front, j := segs[..m - 1], r + Drop1(last);
    assert segs[..m] == segs;
    forall k | 0 <= k <= m
      ensures 0 <= Offset(segs[..k]) < |j| && j[Offset(segs[..k])] == stops[k]
    {
      if k < m {
        assert segs[..k] == front[..k];
        assert stops[..m][k] == stops[k];
      } else {
        assert front[..m - 1] == front && stops[..m][m - 1] == stops[m - 1];
        assert r[|r| - 1] == stops[m - 1];
        if |last| > 1 {
          assert j[|j| - 1] == last[|last| - 1];
        }
      }
    }
  }

  lemma JoinStep(n: Network, segs: seq<seq<Location>>, stops: seq<Location>)
    requires Legs(n, segs, stops) && |segs| >= 2
    requires IsRoute(n, segs[..|segs| - 1], stops[..|segs|], Join(segs[..|segs| - 1]))
    ensures IsRoute(n, segs, stops, Join(segs))
  {
    var m := |segs|;
    var front, last := segs[..m - 1], segs[m - 1];
    var j := Join(front);
    assert Join(segs) == j + Drop1(last);
    assert IsPath(n, last, stops[m - 1], stops[m]);
    assert IsPath(n, j, stops[0], stops[m - 1]) by {
      assert stops[..m][0] == stops[0] && stops[..m][m - 1] == stops[m - 1];
    }
    PathSeam(n, j, last, stops[0], stops[m - 1], stops[m]);
    assert Offset(segs) == Offset(front) + |last| - 1;
    assert LegsCost(n, segs) == LegsCost(n, front) + PathCost(n, last);
    VisitsStep(segs, stops, j, last);
  }

  /** The segments of a shortest-path stitch, joined, make a route through the stops. */
  lemma {:induction false} JoinIsRoute(n: Network, segs: seq<seq<Location>>, stops: seq<Location>)
    requires Legs(n, segs, stops) && |segs| >= 1
    ensures IsRoute(n, segs, stops, Join(segs))
    decreases |segs|
  {
    var m := |segs|;
    if m == 1 {
      JoinOne(n, segs, stops);
    } else {
      assert Legs(n, segs[..m - 1], stops[..m]);
      JoinIsRoute(n, segs[..m - 1], stops[..m]);
      JoinStep(n, segs, stops);
    }
  }

  /** Lengthening the prefix never moves its stop earlier: the stops are visited in order. */
  lemma OffsetsIncrease(n: Network, segs: seq<seq<Location>>, stops: seq<Location>, k: nat)
    requires Legs(n, segs, stops) && k < |segs|
    ensures Offset(segs[..k]) <= Offset(segs[..k + 1])
  {
    assert segs[..k + 1][..k] == segs[..k] && segs[..k + 1][k] == segs[k];
    assert IsPath(n, segs[k], stops[k], stops[k + 1]);
  }

  /** Shortest segments make the cheapest route through the stops in this order. */
  lemma {:induction false} ShortestLegsAreCheapest(n: Network, segs: seq<seq<Location>>, qs: seq<seq<Location>>, stops: seq<Location>)
    requires |segs| == |qs| && Legs(n, qs, stops)
    requires forall k :: 0 <= k < |segs| ==> ShortestAnswer(n, stops[k], stops[k + 1], Some(segs[k]))
    ensures LegsCost(n, segs) <= LegsCost(n, qs)
    decreases |segs|
  {
    if segs != [] {
      var m := |segs| - 1;
      assert Legs(n, qs[..m], stops[..m + 1]);
      assert ShortestAnswer(n, stops[m], stops[m + 1], Some(segs[m]));
      ShortestLegsAreCheapest(n, segs[..m], qs[..m], stops[..m + 1]);
    }
  }

  /** Oracle answers for every pair are legs, and each is as cheap as any path for its pair. */
  lemma AnswersAreShortestLegs(n: Network, sp: PathOracle, stops: seq<Location>, segs: seq<seq<Location>>)
    requires ShortestPathOracle(sp) && Answers(n, sp, stops, segs)
    ensures Legs(n, segs, stops)
    ensures forall k :: 0 <= k < |segs| ==> ShortestAnswer(n, stops[k], stops[k + 1], Some(segs[k]))
  {
    forall k | 0 <= k < |segs|
      ensures ShortestAnswer(n, stops[k], stops[k + 1], Some(segs[k]))
    {
      assert ShortestAnswer(n, stops[k], stops[k + 1], sp(n, stops[k], stops[k + 1]));
    }
  }

  /**
   * A stitched route starts at the first stop, ends at the last, passes
   * every stop in order, weighs the sum of the shortest legs, and no route
   * that visits the stops in this order by legs weighs less.
   */
  lemma StitchedRoute(n: Network, sp: PathOracle, stops: seq<Location>)
    requires ShortestPathOracle(sp) && |stops| >= 2 && Stitch(n, sp, stops).Ok?
    ensures var r, segs := Stitch(n, sp, stops).value, Segments(n, sp, stops).value;
            && IsRoute(n, segs, stops, r)
            && forall qs :: Legs(n, qs, stops) ==> PathCost(n, r) <= LegsCost(n, qs)
  {
    var segs := Segments(n, sp, stops).value;
    AnswersAreShortestLegs(n, sp, stops, segs);
    JoinIsRoute(n, segs, stops);
    forall qs | Legs(n, qs, stops)
      ensures LegsCost(n, segs) <= LegsCost(n, qs)
    {
      ShortestLegsAreCheapest(n, segs, qs, stops);
    }
  }

  /** Stitching fails exactly when some pair of consecutive stops is not connected. */
  lemma StitchFailsIffDisconnected(n: Network, sp: PathOracle, stops: seq<Location>)
    requires ShortestPathOracle(sp)
    ensures Stitch(n, sp, stops).Err? <==>
            exists k :: 0 <= k < |stops| - 1 && !Connected(n, stops[k], stops[k + 1])
  {
    forall k | 0 <= k < |stops| - 1
      ensures Query(n, sp, stops, k).None? <==> !Connected(n, stops[k], stops[k + 1])
    {
      OracleAnswer(sp, n, stops[k], stops[k + 1]);
    }
  }

  /** Once a prefix of the stops fails, the whole list fails the same way. */
  lemma {:induction false} SegmentsErrPersists(n: Network, sp: PathOracle, stops: seq<Location>, j: nat)
    requires 1 <= j <= |stops| && Segments(n, sp, stops[..j]).Err?
    ensures Segments(n, sp, stops) == Segments(n, sp, stops[..j])
    decreases |stops| - j
  {
    if j == |stops| {
      assert stops[..j] == stops;
    } else {
      var k := |stops| - 1;
      assert stops[..k][..j] == stops[..j];
      SegmentsErrPersists(n, sp, stops[..k], j);
      SegmentsErrExtends(n, sp, stops);
    }
  }

  lemma SegmentsErrExtends(n: Network, sp: PathOracle, stops: seq<Location>)
    requires |stops| >= 2 && Segments(n, sp, stops[..|stops| - 1]).Err?
    ensures Segments(n, sp, stops) == Segments(n, sp, stops[..|stops| - 1])
  {
  }

  /** One more pair of stops: the answer a either extends the segments or names the failing pair. */
  lemma SegmentsStep(n: Network, sp: PathOracle, stops: seq<Location>, i: nat, a: Option<seq<Location>>)
    requires i + 1 < |stops| && Segments(n, sp, stops[..i + 1]).Ok? && a == sp(n, stops[i], stops[i + 1])
    ensures a.None? ==> Segments(n, sp, stops[..i + 2]) == Err((stops[i], stops[i + 1]))
    ensures a.Some? ==> Segments(n, sp, stops[..i + 2]) == Ok(Segments(n, sp, stops[..i + 1]).value + [a.value])
  {
    assert stops[..i + 2][..i + 1] == stops[..i + 1];
  }

  lemma JoinAppend(segs: seq<seq<Location>>, p: seq<Location>)
    ensures Join(segs + [p]) == Join(segs) + if segs == [] then p else Drop1(p)
  {
    assert (segs + [p])[..|segs|] == segs;
  }

  /** One turn of the loop in StitchRoute: the answer a for stops i and i + 1 ends it or extends the route. */
  lemma StitchTurn(n: Network, sp: PathOracle, stops: seq<Location>, i: nat, segs: seq<seq<Location>>, a: Option<seq<Location>>)
    requires i + 1 < |stops| && Segments(n, sp, stops[..i + 1]) == Ok(segs) && |segs| == i
    requires a == sp(n, stops[i], stops[i + 1])
    ensures a.None? ==> Stitch(n, sp, stops) == Err((stops[i], stops[i + 1]))
    ensures a.Some? ==> Segments(n, sp, stops[..i + 2]) == Ok(segs + [a.value])
                        && Join(segs + [a.value]) == Join(segs) + if i == 0 then a.value else Drop1(a.value)
  {
    SegmentsStep(n, sp, stops, i, a);
    if a.None? {
      SegmentsErrPersists(n, sp, stops, i + 2);
    } else {
      JoinAppend(segs, a.value);
    }
  }

  lemma StitchDone(n: Network, sp: PathOracle, stops: seq<Location>, i: nat, segs: seq<seq<Location>>)
    requires i + 1 == |stops| && Segments(n, sp, stops[..i + 1]) == Ok(segs)
    ensures Stitch(n, sp, stops) == Ok(Join(segs))
  {
    assert stops[..i + 1] == stops;
  }

  /** The loop of `optimize_routes` that builds one vehicle's route. */
  method StitchRoute(n: Network, sp: PathOracle, stops: seq<Location>) returns (r: Result<seq<Location>, Edge>)
    ensures r == Stitch(n, sp, stops)
  {
    if |stops| == 0 {
      return Ok([]);
    }
    var route: seq<Location> := [];
    ghost var segs: seq<seq<Location>> := [];
    var i := 0;
    while i + 1 < |stops|
      invariant i < |stops|
      invariant Segments(n, sp, stops[..i + 1]) == Ok(segs) && route == Join(segs) && |segs| == i
    {
      var a := sp(n, stops[i], stops[i + 1]);
      StitchTurn(n, sp, stops, i, segs, a);
      if a.None? {
        return Err((stops[i], stops[i + 1]));
      }
      route := route + if i == 0 then a.value else Drop1(a.value);
      segs := segs + [a.value];
      i := i + 1;
    }
    StitchDone(n, sp, stops, i, segs);
    r := Ok(route);
  }

  /** One vehicle in `optimize_routes`: a vehicle with pending deliveries gets the stitched route over its stops. */
  function Reroute(n: Network, sp: PathOracle, v: Vehicle): Result<Vehicle, Edge> {
    if v.pending == [] then Ok(v)
    else
      match Stitch(n, sp, Stops(v))
      case Err(e) => Err(e)
      case Ok(r) => Ok(v.(path := r))
  }

  /** Every pair of consecutive stops of v is connected in n. */
  ghost predicate Servable(n: Network, v: Vehicle) {
    forall k :: 0 <= k < |v.pending| ==> Connected(n, Stops(v)[k], Stops(v)[k + 1])
  }

  /**
   * Rerouting changes nothing but the path; it fails exactly when the
   * vehicle's stops are not all connected; on success the new path is a
   * route from the vehicle's location through its deliveries' locations
   * in assignment order, and no route through them in that order weighs less.
   */
  lemma RerouteOutcome(n: Network, sp: PathOracle, v: Vehicle)
    requires ShortestPathOracle(sp)
    ensures Reroute(n, sp, v).Ok? <==> Servable(n, v)
    ensures Reroute(n, sp, v).Ok? ==> Reroute(n, sp, v).value == v.(path := Reroute(n, sp, v).value.path)
    ensures Reroute(n, sp, v).Ok? && v.pending != [] ==>
              var stops, r := Stops(v), Reroute(n, sp, v).value.path;
              && IsRoute(n, Segments(n, sp, stops).value, stops, r)
              && r[0] == v.location && r[|r| - 1] == v.pending[|v.pending| - 1].location
              && forall qs :: Legs(n, qs, stops) ==> PathCost(n, r) <= LegsCost(n, qs)
  {
    var stops := Stops(v);
    StitchFailsIffDisconnected(n, sp, stops);
    if v.pending != [] && Stitch(n, sp, stops).Ok? {
      StitchedRoute(n, sp, stops);
    }
  }

  /** Rerouting reads the location and the pending list, never the old path, so doing it twice is doing it once. */
  lemma RerouteIdempotent(n: Network, sp: PathOracle, v: Vehicle)
    requires Reroute(n, sp, v).Ok?
    ensures Reroute(n, sp, Reroute(n, sp, v).value) == Reroute(n, sp, v)
  {
  }

  /** The fleet after `optimize_routes`, and the pair of stops whose query raised, if one did. */
  datatype Pass = Pass(fleet: seq<Vehicle>, failure: Option<Edge>)

  /**
   * `optimize_routes`: vehicles in registration order; a failing query
   * ends the pass, leaving the failing vehicle and every later one as it was.
   */
  function Optimized(n: Network, sp: PathOracle, vs: seq<Vehicle>): (p: Pass)
    ensures |p.fleet| == |vs|
    decreases |vs|
  {
    if vs == [] then Pass([], None)
    else
      var k := |vs| - 1;
      var before := Optimized(n, sp, vs[..k]);
      if before.failure.Some? then Pass(before.fleet + [vs[k]], before.failure)
      else
        match Reroute(n, sp, vs[k])
        case Err(e) => Pass(before.fleet + [vs[k]], Some(e))
        case Ok(w) => Pass(before.fleet + [w], None)
  }

  /** The per-vehicle results of rerouting every vehicle of vs. */
  function Reroutes(n: Network, sp: PathOracle, vs: seq<Vehicle>): (rs: seq<Result<Vehicle, Edge>>)
    ensures |rs| == |vs| && forall i :: 0 <= i < |vs| ==> rs[i] == Reroute(n, sp, vs[i])
  {
    seq(|vs|, i requires 0 <= i < |vs| => Reroute(n, sp, vs[i]))
  }

  /** A pass written over given per-vehicle results rs: the shape of `Optimized` without the graph. */
  function Sweep(vs: seq<Vehicle>, rs: seq<Result<Vehicle, Edge>>): (p: Pass)
    requires |rs| == |vs|
    ensures |p.fleet| == |vs|
    decreases |vs|
  {
    if vs == [] then Pass([], None)
    else
      var k := |vs| - 1;
      var before := Sweep(vs[..k], rs[..k]);
      if before.failure.Some? then Pass(before.fleet + [vs[k]], before.failure)
      else
        match rs[k]
        case Err(e) => Pass(before.fleet + [vs[k]], Some(e))
        case Ok(w) => Pass(before.fleet + [w], None)
  }

  lemma {:induction false} OptimizedIsSweep(n: Network, sp: PathOracle, vs: seq<Vehicle>)
    ensures Optimized(n, sp, vs) == Sweep(vs, Reroutes(n, sp, vs))
    decreases |vs|
  {
    if vs != [] {
      var k := |vs| - 1;
      OptimizedIsSweep(n, sp, vs[..k]);
      assert Reroutes(n, sp, vs)[..k] == Reroutes(n, sp, vs[..k]);
    }
  }

  /** The first j results were successes, and the fleet holds their vehicles. */
  predicate ReroutedUpTo(rs: seq<Result<Vehicle, Edge>>, fleet: seq<Vehicle>, j: nat)
    requires j <= |rs| && j <= |fleet|
  {
    forall i :: 0 <= i < j ==> rs[i] == Ok(fleet[i])
  }

  /** The vehicles from j on are as they were. */
  predicate UntouchedFrom(vs: seq<Vehicle>, fleet: seq<Vehicle>, j: nat)
    requires |vs| == |fleet|
  {
    forall i :: j <= i < |vs| ==> fleet[i] == vs[i]
  }

  /**
   * What a pass does: with no failure every vehicle takes its result;
   * when vehicle j is the first to fail, the vehicles before j take their
   * results, and j and everything after it are untouched.
   */
  ghost predicate PassOutcome(vs: seq<Vehicle>, rs: seq<Result<Vehicle, Edge>>, p: Pass)
    requires |rs| == |vs|
  {
    && |p.fleet| == |vs|
    && (p.failure.None? ==> ReroutedUpTo(rs, p.fleet, |vs|))
    && (p.failure.Some? ==>
          exists j :: 0 <= j < |vs| && rs[j] == Err(p.failure.value)
            && ReroutedUpTo(rs, p.fleet, j) && UntouchedFrom(vs, p.fleet, j))
  }

  lemma OutcomeAfterFailure(vs: seq<Vehicle>, rs: seq<Result<Vehicle, Edge>>, q: Pass)
    requires |rs| == |vs| && vs != []
    requires q == Sweep(vs[..|vs| - 1], rs[..|vs| - 1]) && q.failure.Some?
    requires PassOutcome(vs[..|vs| - 1], rs[..|vs| - 1], q)
    ensures PassOutcome(vs, rs, Sweep(vs, rs))
  {
    var k := |vs| - 1;
    var p := Sweep(vs, rs);
    assert p.fleet == q.fleet + [vs[k]];
    var j :| 0 <= j < k && rs[..k][j] == Err(q.failure.value)
             && ReroutedUpTo(rs[..k], q.fleet, j) && UntouchedFrom(vs[..k], q.fleet, j);
    forall i | 0 <= i < j
      ensures rs[i] == Ok(p.fleet[i])
    {
      assert rs[..k][i] == rs[i] && p.fleet[i] == q.fleet[i];
    }
    forall i | j <= i < k
      ensures p.fleet[i] == vs[i]
    {
      assert q.fleet[i] == vs[..k][i];
      assert vs[..k][i] == vs[i] && p.fleet[i] == q.fleet[i];
    }
    assert rs[..k][j] == rs[j];
    assert UntouchedFrom(vs, p.fleet, j);
  }

  lemma OutcomeAtFailure(vs: seq<Vehicle>, rs: seq<Result<Vehicle, Edge>>, q: Pass)
    requires |rs| == |vs| && vs != []
    requires q == Sweep(vs[..|vs| - 1], rs[..|vs| - 1]) && q.failure.None? && rs[|vs| - 1].Err?
    requires PassOutcome(vs[..|vs| - 1], rs[..|vs| - 1], q)
    ensures PassOutcome(vs, rs, Sweep(vs, rs))
  {
    var k := |vs| - 1;
    var p := Sweep(vs, rs);
    assert p.fleet == q.fleet + [vs[k]];
    assert forall i :: 0 <= i < k ==> rs[..k][i] == rs[i] && p.fleet[i] == q.fleet[i];
    assert ReroutedUpTo(rs, p.fleet, k);
  }

  lemma OutcomeWithoutFailure(vs: seq<Vehicle>, rs: seq<Result<Vehicle, Edge>>, q: Pass)
    requires |rs| == |vs| && vs != []
    requires q == Sweep(vs[..|vs| - 1], rs[..|vs| - 1]) && q.failure.None? && rs[|vs| - 1].Ok?
    requires PassOutcome(vs[..|vs| - 1], rs[..|vs| - 1], q)
    ensures PassOutcome(vs, rs, Sweep(vs, rs))
  {
    var k := |vs| - 1;
    var p := Sweep(vs, rs);
    assert p.fleet == q.fleet + [rs[k].value];
    assert forall i :: 0 <= i < k ==> rs[..k][i] == rs[i] && p.fleet[i] == q.fleet[i];
  }

  lemma {:induction false} SweepOutcome(vs: seq<Vehicle>, rs: seq<Result<Vehicle, Edge>>)
    requires |rs| == |vs|
    ensures PassOutcome(vs, rs, Sweep(vs, rs))
    decreases |vs|
  {
    if vs != [] {
      var k := |vs| - 1;
      var q := Sweep(vs[..k], rs[..k]);
      SweepOutcome(vs[..k], rs[..k]);
      if q.failure.Some? {
        OutcomeAfterFailure(vs, rs, q);
      } else if rs[k].Err? {
        OutcomeAtFailure(vs, rs, q);
      } else {
        OutcomeWithoutFailure(vs, rs, q);
      }
    }
  }

  /**
   * `optimize_routes` over the fleet: with no failure every vehicle is
   * rerouted; when vehicle j is the first whose query fails, the vehicles
   * before j have been rerouted, and j and everything after it are as
   * they were.
   */
  lemma OptimizedOutcome(n: Network, sp: PathOracle, vs: seq<Vehicle>)
    ensures PassOutcome(vs, Reroutes(n, sp, vs), Optimized(n, sp, vs))
  {
    OptimizedIsSweep(n, sp, vs);
    SweepOutcome(vs, Reroutes(n, sp, vs));
  }

  /** A whole pass raises nothing exactly when every vehicle's stops are connected. */
  lemma OptimizedSucceedsIff(n: Network, sp: PathOracle, vs: seq<Vehicle>)
    requires ShortestPathOracle(sp)
    ensures Optimized(n, sp, vs).failure.None? <==> forall i :: 0 <= i < |vs| ==> Servable(n, vs[i])
  {
    OptimizedOutcome(n, sp, vs);
    forall i | 0 <= i < |vs|
      ensures Reroute(n, sp, vs[i]).Ok? <==> Servable(n, vs[i])
    {
      RerouteOutcome(n, sp, vs[i]);
    }
  }

  /** Running `optimize_routes` again on its own result changes nothing, a failure included. */
  lemma {:induction false} OptimizedIdempotent(n: Network, sp: PathOracle, vs: seq<Vehicle>)
    ensures Optimized(n, sp, Optimized(n, sp, vs).fleet) == Optimized(n, sp, vs)
    decreases |vs|
  {
    if vs != [] {
      var k := |vs| - 1;
      var p, q := Optimized(n, sp, vs), Optimized(n, sp, vs[..k]);
      assert p.fleet[..k] == q.fleet;
      OptimizedIdempotent(n, sp, vs[..k]);
      if q.failure.None? && Reroute(n, sp, vs[k]).Ok? {
        RerouteIdempotent(n, sp, vs[k]);
      }
    }
  }

  /** Reweighting keeps every pair that was connected connected, and no other. */
  lemma ReweightedKeepsConnected(n: Network, traffic: Traffic, a: Location, b: Location)
    ensures Connected(Network(n.nodes, Reweighted(n.weight, traffic)), a, b) <==> Connected(n, a, b)
  {
    var m := Network(n.nodes, Reweighted(n.weight, traffic));
    if Connected(n, a, b) {
      var p :| IsPath(n, p, a, b);
      ReweightedKeepsPaths(n, traffic, p, a, b);
    }
    if Connected(m, a, b) {
      var p :| IsPath(m, p, a, b);
      ReweightedKeepsPaths(n, traffic, p, a, b);
    }
  }

  /**
   * `update_routes_with_traffic` after a successful `optimize_routes`:
   * once pending deliveries and the computed path are kept apart, the
   * reweighted graph has the same connections, so the second pass
   * succeeds as well.
   */
  lemma ReoptimizeAfterTraffic(n: Network, traffic: Traffic, sp: PathOracle, vs: seq<Vehicle>)
    requires ShortestPathOracle(sp) && Optimized(n, sp, vs).failure.None?
    ensures Optimized(Network(n.nodes, Reweighted(n.weight, traffic)), sp, Optimized(n, sp, vs).fleet).failure.None?
  {
    var m := Network(n.nodes, Reweighted(n.weight, traffic));
    var fleet := Optimized(n, sp, vs).fleet;
    OptimizedOutcome(n, sp, vs);
    OptimizedSucceedsIff(n, sp, vs);
    OptimizedSucceedsIff(m, sp, fleet);
    forall i | 0 <= i < |fleet|
      ensures Servable(m, fleet[i])
    {
      RerouteOutcome(n, sp, vs[i]);
      assert Stops(fleet[i]) == Stops(vs[i]);
      forall k | 0 <= k < |fleet[i].pending|
        ensures Connected(m, Stops(fleet[i])[k], Stops(fleet[i])[k + 1])
      {
        ReweightedKeepsConnected(n, traffic, Stops(vs[i])[k], Stops(vs[i])[k + 1]);
      }
    }
  }
}
