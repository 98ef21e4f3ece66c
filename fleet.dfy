/**
 * The fleet manager: the registered vehicles and deliveries, assignment,
 * route optimisation and the traffic-driven re-optimisation.
 */
module Fleet {
  import opened Wrappers
  import opened Roads
  import opened Deliveries
  import opened Vehicles
  import opened Assignment
  import opened Routing

  lemma {:induction false} SweepFailureEnds(vs: seq<Vehicle>, rs: seq<Result<Vehicle, Edge>>, j: nat)
    requires |rs| == |vs| && j <= |vs| && Sweep(vs[..j], rs[..j]).failure.Some?
    ensures Sweep(vs, rs) == Pass(Sweep(vs[..j], rs[..j]).fleet + vs[j..], Sweep(vs[..j], rs[..j]).failure)
    decreases |vs| - j
  {
    if j == |vs| {
      assert vs[..j] == vs && rs[..j] == rs && vs[j..] == [];
      assert Sweep(vs, rs).fleet + [] == Sweep(vs, rs).fleet;
    } else {
      var k := |vs| - 1;
      assert vs[..k][..j] == vs[..j] && rs[..k][..j] == rs[..j];
      SweepFailureEnds(vs[..k], rs[..k], j);
      assert vs[..k][j..] + [vs[k]] == vs[j..];
    }
  }

  /** Once a prefix of the fleet fails, the rest of the pass leaves every later vehicle as it was. */
  lemma FailureEndsPass(n: Network, sp: PathOracle, vs: seq<Vehicle>, j: nat)
    requires j <= |vs| && Optimized(n, sp, vs[..j]).failure.Some?
    ensures Optimized(n, sp, vs) == Pass(Optimized(n, sp, vs[..j]).fleet + vs[j..], Optimized(n, sp, vs[..j]).failure)
  {
    OptimizedIsSweep(n, sp, vs);
    OptimizedIsSweep(n, sp, vs[..j]);
    assert Reroutes(n, sp, vs)[..j] == Reroutes(n, sp, vs[..j]);
    SweepFailureEnds(vs, Reroutes(n, sp, vs), j);
  }

  /** The search of the inner loop finds what FirstFit names. */
  lemma FirstFitAt(vs: seq<Vehicle>, d: Delivery, j: nat)
    requires j < |vs| && Fits(vs[j], d.weight)
    requires forall i :: 0 <= i < j ==> !Fits(vs[i], d.weight)
    ensures Place(vs, d) == vs[j := Take(vs[j], d)]
  {
    var r := FirstFit(vs, d.weight);
    assert r.Some?;
    assert !(r.value < j) && !(j < r.value);
  }

  lemma NoFit(vs: seq<Vehicle>, d: Delivery)
    requires forall i :: 0 <= i < |vs| ==> !Fits(vs[i], d.weight)
    ensures Place(vs, d) == vs
  {
  }

  /** The two loops of `assign_deliveries`, over the sorted deliveries and then the vehicles. */
  method AssignInOrder(registered: seq<Vehicle>, sorted: seq<Delivery>) returns (fleet: seq<Vehicle>)
    ensures fleet == PlaceAll(registered, sorted)
  {
    fleet := registered;
    var k := 0;
    while k < |sorted|
      invariant k <= |sorted|
      invariant fleet == PlaceAll(registered, sorted[..k])
    {
      var d := sorted[k];
      ghost var start := fleet;
      ghost var placed := false;
      var j := 0;
      while j < |fleet|
        invariant j <= |fleet| && fleet == start && !placed
        invariant forall i :: 0 <= i < j ==> !Fits(fleet[i], d.weight)
      {
        if fleet[j].load + d.weight <= fleet[j].capacity {
          FirstFitAt(start, d, j);
          fleet := fleet[j := Take(fleet[j], d)];
          placed := true;
          break;
        }
        j := j + 1;
      }
      if !placed {
        NoFit(start, d);
      }
      PlaceAllStep(registered, sorted, k);
      k := k + 1;
    }
    assert sorted[..k] == sorted;
  }

  /** One more vehicle after a prefix that did not fail. */
  lemma OptimizedStep(n: Network, sp: PathOracle, vs: seq<Vehicle>, i: nat)
    requires i < |vs| && Optimized(n, sp, vs[..i]).failure.None?
    ensures Optimized(n, sp, vs[..i + 1]) ==
            match Reroute(n, sp, vs[i])
            case Err(e) => Pass(Optimized(n, sp, vs[..i]).fleet + [vs[i]], Some(e))
            case Ok(w) => Pass(Optimized(n, sp, vs[..i]).fleet + [w], None)
  {
    assert vs[..i + 1][..i] == vs[..i];
  }

  lemma SplitAt<T>(s: seq<T>, t: seq<T>, i: nat)
    requires i < |s| == |t| && s[i..] == t[i..]
    ensures s[i] == t[i] && s == s[..i] + [t[i]] + t[i + 1..]
  {
    assert s[i] == s[i..][0];
    assert s[i + 1..] == s[i..][1..];
    assert s == s[..i] + [s[i]] + s[i + 1..];
  }

  lemma UpdateAt<T>(s: seq<T>, t: seq<T>, i: nat, x: T)
    requires i < |s| == |t| && s[i..] == t[i..]
    ensures s[i := x][..i + 1] == s[..i] + [x] && s[i := x][i + 1..] == t[i + 1..]
  {
    assert s[i + 1..] == s[i..][1..];
  }

  /** The loop of `optimize_routes` over the vehicles. */
  method OptimizeInOrder(n: Network, sp: PathOracle, vs: seq<Vehicle>) returns (fleet: seq<Vehicle>, failure: Option<Edge>)
    ensures Pass(fleet, failure) == Optimized(n, sp, vs)
  {
    fleet := vs;
    var i := 0;
    while i < |fleet|
      invariant |fleet| == |vs| && i <= |vs|
      invariant Optimized(n, sp, vs[..i]) == Pass(fleet[..i], None)
      invariant fleet[i..] == vs[i..]
    {
      SplitAt(fleet, vs, i);
      OptimizedStep(n, sp, vs, i);
      var v := fleet[i];
      if v.pending != [] {
        var r := StitchRoute(n, sp, Stops(v));
        match r
        case Err(e) =>
          FailureEndsPass(n, sp, vs, i + 1);
          return fleet, Some(e);
        case Ok(route) =>
          UpdateAt(fleet, vs, i, v.(path := route));
          fleet := fleet[i := v.(path := route)];
      } else {
        UpdateAt(fleet, vs, i, v);
      }
      i := i + 1;
    }
    assert vs[..i] == vs && fleet[..i] == fleet;
    failure := None;
  }

  class FleetManager {
    /** Vehicles in registration order. */
    var vehicles: seq<Vehicle>
    /** Deliveries in registration order. */
    var deliveries: seq<Delivery>

    constructor ()
      ensures vehicles == [] && deliveries == []
    {
      vehicles := [];
      deliveries := [];
    }

    /** `add_vehicle`. */
    method AddVehicle(v: Vehicle)
      modifies this
      ensures vehicles == old(vehicles) + [v] && deliveries == old(deliveries)
    {
      vehicles := vehicles + [v];
    }

    /** `add_delivery`. */
    method AddDelivery(d: Delivery)
      modifies this
      ensures deliveries == old(deliveries) + [d] && vehicles == old(vehicles)
    {
      deliveries := deliveries + [d];
    }

    /**
     * `assign_deliveries`: every registered delivery, in sorted order,
     * goes to the first vehicle with room for it. Vehicles keep what they
     * already had, so a second call assigns every delivery again.
     */
    method AssignDeliveries()
      modifies this
      ensures deliveries == old(deliveries)
      ensures vehicles == PlaceAll(old(vehicles), SortedDeliveries(deliveries))
    {
      vehicles := AssignInOrder(vehicles, SortedDeliveries(deliveries));
    }

    /**
     * `optimize_routes`: each vehicle with pending deliveries, in
     * registration order, gets the stitched route over its stops; the
     * first failed query ends the pass and is returned.
     */
    method OptimizeRoutes(g: Graph, sp: PathOracle) returns (failure: Option<Edge>)
      modifies this
      ensures deliveries == old(deliveries)
      ensures Pass(vehicles, failure) == Optimized(g.View(), sp, old(vehicles))
    {
      vehicles, failure := OptimizeInOrder(g.View(), sp, vehicles);
    }

    /**
     * `update_routes_with_traffic`, given the feed `fetch_real_time_traffic`
     * returned: rewrite every edge weight, then optimise again on the new weights.
     */
    method UpdateRoutesWithTraffic(g: Graph, traffic: Traffic, sp: PathOracle) returns (failure: Option<Edge>)
      requires g.Valid()
      modifies this, g
      ensures g.Valid() && g.nodes == old(g.nodes) && g.weight == Reweighted(old(g.weight), traffic)
      ensures deliveries == old(deliveries)
      ensures Pass(vehicles, failure) == Optimized(g.View(), sp, old(vehicles))
    {
      g.UpdateWeightsWithTraffic(traffic);
      failure := OptimizeRoutes(g, sp);
    }
  }
}
