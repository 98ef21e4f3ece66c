/**
 * The vehicle's `route` field as app.py actually uses it: one list that
 * `assign_deliveries` fills with delivery objects and `optimize_routes`
 * replaces with location names. Whatever the list holds, `optimize_routes`
 * reads `.location` off every entry, so a list of names raises.
 */
module OverloadedRoute {
  import opened Wrappers
  import opened Roads
  import opened Deliveries
  import opened Vehicles
  import opened Routing

  /** An entry of the shared `route` list. */
  datatype Entry = Pending(delivery: Delivery) | Visit(location: Location)

  /** How the as-written `optimize_routes` can raise for one vehicle. */
  datatype Crash =
    | AttributeError          // `.location` read off a location name
    | NoPath(pair: Edge)      // `nx.dijkstra_path` found no path for this pair of stops

  /** `[delivery.location for delivery in vehicle.route]`; None where an entry has no `.location`. */
  function EntryLocations(route: seq<Entry>): (r: Option<seq<Location>>)
    ensures r.Some? <==> forall k :: 0 <= k < |route| ==> route[k].Pending?
    ensures r.Some? ==> |r.value| == |route| && forall k :: 0 <= k < |route| ==> r.value[k] == route[k].delivery.location
  {
    if route == [] then Some([])
    else
      var n := |route| - 1;
      assert forall k :: 0 <= k < n ==> route[..n][k] == route[k];
      match EntryLocations(route[..n])
      case None => None
      case Some(locs) => if route[n].Pending? then Some(locs + [route[n].delivery.location]) else None
  }

  /** The route list as assignment leaves it. */
  function PendingEntries(ds: seq<Delivery>): seq<Entry> {
    seq(|ds|, k requires 0 <= k < |ds| => Pending(ds[k]))
  }

  /** The route list as optimisation leaves it. */
  function Visits(r: seq<Location>): seq<Entry> {
    seq(|r|, k requires 0 <= k < |r| => Visit(r[k]))
  }

  /** One vehicle in the as-written `optimize_routes`: locations first, then one query per pair of stops. */
  function OptimizeAsWritten(n: Network, sp: PathOracle, location: Location, route: seq<Entry>): Result<seq<Entry>, Crash> {
    if route == [] then Ok(route)
    else
      match EntryLocations(route)
      case None => Err(AttributeError)
      case Some(locs) =>
        match Stitch(n, sp, [location] + locs)
        case Err(e) => Err(NoPath(e))
        case Ok(r) => Ok(Visits(r))
  }

  /** On a freshly assigned vehicle the as-written pass computes what the corrected pass computes. */
  lemma FirstPassAgrees(n: Network, sp: PathOracle, v: Vehicle)
    requires v.pending != []
    ensures OptimizeAsWritten(n, sp, v.location, PendingEntries(v.pending)) ==
            match Reroute(n, sp, v)
            case Ok(w) => Ok(Visits(w.path))
            case Err(e) => Err(NoPath(e))
  {
    var route := PendingEntries(v.pending);
    assert forall k :: 0 <= k < |route| ==> route[k] == Pending(v.pending[k]);
    var locs := EntryLocations(route).value;
    assert locs == Locations(v.pending);
    assert [v.location] + locs == Stops(v);
  }

  /**
   * The defect: after one successful pass the route holds location names,
   * so the next pass over any graph, such as the one
   * `update_routes_with_traffic` runs after reweighting, raises
   * AttributeError before it makes a single query.
   */
  lemma SecondPassFails(n: Network, m: Network, sp: PathOracle, location: Location, route: seq<Entry>)
    requires ShortestPathOracle(sp) && route != []
    requires OptimizeAsWritten(n, sp, location, route).Ok?
    ensures OptimizeAsWritten(m, sp, location, OptimizeAsWritten(n, sp, location, route).value) == Err(AttributeError)
  {
    var locs := EntryLocations(route).value;
    var stops := [location] + locs;
    StitchedRoute(n, sp, stops);
    var r := Stitch(n, sp, stops).value;
    assert Visits(r)[0] == Visit(r[0]);
  }
}
