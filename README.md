# Delivery routing and assignment

This project models the routing-and-assignment engine of a small
delivery-fleet service, written in Dafny, and proves properties of the model.
The engine covers five pieces:

- a road graph of named locations, with weighted undirected edges;
- vehicles of three kinds (motorcycle, van and lorry), which differ only in capacity;
- deliveries, each with a location, an hour-of-day time window, a priority and a weight;
- a fleet manager that assigns deliveries to vehicles by greedy first fit in (priority, time window) order;
- a route optimiser that stitches shortest paths through each vehicle's stops.

A traffic feed rewrites every edge weight. After that the routes are optimised again.

## Modules

- `Roads` (`roads.dfy`): the road network.
  - It holds the `Graph` class with its node list and edge-weight map.
  - `AddNode` and `AddEdge` add to the graph.
  - `UpdateWeightsWithTraffic` applies the traffic overwrite.
  - The shortest-path query is a parameter, `PathOracle`. `ShortestPathOracle` is its contract: either a cheapest path over existing edges, or no answer exactly when the endpoints are not connected.
- `Clock` (`clock.dfy`): 12-hour labels (`%I%p`), read as hours of the day.
- `Deliveries` (`deliveries.dfy`): the delivery record and its constructor. It also defines the stable sort by `(priority, window)`.
- `Vehicles` (`vehicles.dfy`): the vehicle record, the table of presets, and the load invariant.
- `Assignment` (`assignment.dfy`): first-fit placement, written as functions on values.
- `Routing` (`routing.dfy`): the stop list, the segment queries, stitching, and the fleet-wide optimisation pass.
- `Fleet` (`fleet.dfy`): the `FleetManager` class and the loops of its methods. `AddVehicle` and `AddDelivery` append to a field. `AssignDeliveries`, `OptimizeRoutes` and `UpdateRoutesWithTraffic` hand the fields to the module-level methods `AssignInOrder` and `OptimizeInOrder`, whose loops (with `Routing.StitchRoute` for the inner `extend` loop) carry the invariants and are proved equal to the functions of `Assignment` and `Routing`.
- `OverloadedRoute` (`overloaded_route.dfy`): the single `route` field as app.py uses it, and the crash that follows from it (see Findings).
- `Scenarios` (`examples.dfy`): the example fleet and some concrete edge cases.

## How the model departs from the source

- **Two fields instead of one.** A vehicle keeps two fields:
  - `pending`, the delivery list that assignment appends to;
  - `path`, the location sequence that optimisation writes.

  In app.py both live in the one `route` field (see Findings).
- **A failed path query ends the whole pass.** When a path query fails, the model does what the code does. The exception ends the optimisation pass. Vehicles earlier in registration order keep their new paths. The failing vehicle and every later one are unchanged. The pass reports the pair of stops that failed. No per-vehicle recovery is modelled, because app.py has none.
- **Edge orientation.** Each undirected edge is stored once, under the orientation the graph lists it in. That orientation puts the endpoint that became a node first, first. The traffic lookup uses only that key.

## Model

| member | source | states |
|---|---|---|
| Roads.Graph.constructor | app.py:13-14 | a new graph has no nodes and no edges, and satisfies the graph invariant |
| Roads.Graph.AddNode | app.py:16-17 | a new location is appended to the node list; an existing location is not added twice; no edge weight changes; the graph invariant is kept |
| Roads.Oriented | app.py:19-29 | the key of the undirected edge {u, v} is one of (u, v) and (v, u), and it is the one whose first endpoint became a node no later, the orientation the graph lists the edge in |
| Roads.Graph.AddEdge | app.py:19-20 | both endpoints become nodes, u before v; the single key of the unordered pair {u, v} gets weight w and every other key is untouched; u and v are then adjacent with weight w |
| Roads.Graph.UpdateWeightsWithTraffic | app.py:28-34 | the nodes stay the same; the new weight map is the traffic overwrite of the old one |
| Roads.TrafficWeight | app.py:30-34 | one edge's new weight: the feed's value under the edge's own key when present, 10 otherwise; `RewriteWeights` and `ReweightedIgnoresReversedKey` state it per edge |
| Roads.Reweighted | app.py:28-34 | the weights after the traffic overwrite: every existing edge, and no other key, takes its feed value under its reported key or 10; its properties are stated by `RewriteWeights`, `ReweightedKeepsTopology`, `ReweightedForgetsOldWeights`, `ReweightedIdempotent`, `ReweightedIgnoresReversedKey` and `ReweightedKeepsPaths` |
| Roads.RewriteWeights | app.py:29-34 | the loop over the edges keeps the edge set; each edge takes the feed's value under its reported key, or 10 when the feed lacks that key |
| Roads.ReweightedKeepsTopology | app.py:28-34 | the overwrite adds and removes no edge: the same pairs are adjacent before and after |
| Roads.ReweightedForgetsOldWeights | app.py:30-34 | the result does not depend on the old weights, only on the edge set and the feed |
| Roads.ReweightedIdempotent | app.py:28-34 | applying the same feed twice gives the weights of applying it once |
| Roads.ReweightedIgnoresReversedKey | app.py:30 | a feed entry keyed in the other orientation is not consulted: the edge falls back to 10 |
| Roads.ReweightedKeepsPaths | app.py:28-34 | every walk over the graph is still a walk after the overwrite, and no new walk appears |
| Roads.ShortestAnswer | app.py:97 | what `nx.dijkstra_path(a, b)` may return: a walk from a to b over existing nodes and edges that weighs no more than any other such walk, or no answer exactly when no walk exists; `OracleAnswer` and `StitchedRoute` use it |
| Roads.ShortestPathOracle | app.py:97 | the path query answers every graph state and every pair of locations as `ShortestAnswer` allows; it is the assumption of `OracleAnswer`, `StitchedRoute`, `RerouteOutcome` and `OptimizedSucceedsIff` |
| Roads.OracleAnswer | app.py:97 | an answer to the shortest-path query is a path between the two locations; there is no answer exactly when they are not connected |
| Vehicles.NewVehicle | app.py:38-45 | the given id, capacity and range; location "Presint 3"; status "available"; nothing pending; load 0; the load invariant holds exactly when the capacity is not negative |
| Vehicles.PresetOf | app.py:47-57 | the preset table: motorcycle 20, van 100, lorry 300, each with range 5000; `NewVehicleOfKind` and `Scenarios.ExampleFleet` state the resulting vehicles |
| Vehicles.NewVehicleOfKind | app.py:47-57 | a motorcycle, van or lorry is the plain vehicle with capacity 20, 100 or 300 and range 5000, and it satisfies the load invariant |
| Vehicles.Fits | app.py:85 | the capacity test `current_load + weight <= capacity`; `FirstFit` states which vehicle passes it first |
| Clock.ParseClock | app.py:64 | `%I` accepts only clock hours 1 to 12 |
| Clock.ParseMeridiem | app.py:64 | `%p`: "am" or "pm" in any letter case, and nothing else; `MeridiemLower` and `MeridiemFromLower` state both directions |
| Clock.To24 | app.py:64 | a 12-hour reading as an hour of day, 12am being 0 and 12pm 12; `To24Reading` and `To24OfHour` state that the clock digit and the half of the day are recovered from it and determine it |
| Clock.ParseHourLabel | app.py:64 | `strptime(label, "%I%p")` keeping the hour, None where it raises; its properties are stated by `ParsedLabelIsCanonical`, `CanonicalLabelParses`, `LabelRoundTrip` and `Scenarios.HourLabels` |
| Clock.LabelRoundTrip | app.py:64 | every hour of the day has a label that parses back to that hour |
| Clock.ParsedLabelIsCanonical | app.py:64 | parsing a label loses only letter case and a leading zero: printing the parsed hour gives back the lower-cased label without the zero |
| Clock.CanonicalLabelParses | app.py:64 | the converse: every label that differs from an hour's label only in letter case or a leading zero parses to that hour, so together they say exactly which labels are accepted |
| Deliveries.NewDelivery | app.py:61-66 | the record is built exactly when both labels parse, with the window as the two parsed hours; otherwise the error names the first label that fails |
| Deliveries.KeyLess | app.py:82 | the sort key `(priority, time_window)` compared as Python compares tuples: priority, then start hour, then end hour; `BeforeIsStrictTotalOrder` states that, with registration order breaking ties, it orders positions strictly and totally |
| Deliveries.ProcessingOrder | app.py:82 | the indices of all the deliveries, stably sorted by key; `StableOrderIsUnique` states that it is the only such arrangement |
| Deliveries.SortedDeliveries | app.py:82 | the processing order is a permutation of the registered deliveries; no later delivery has a smaller (priority, start, end) key than an earlier one |
| Deliveries.StableOrderIsUnique | app.py:82 | any ordering of all the deliveries that is sorted by key, with ties in registration order, is the processing order: the sort is stable and the order is determined |
| Deliveries.BeforeIsStrictTotalOrder | app.py:82 | the stable-sort comparison is irreflexive, transitive and total on distinct positions |
| Assignment.FirstFit | app.py:84-85 | the vehicle found has room for the weight and no earlier vehicle does; nothing is found exactly when no vehicle has room |
| Assignment.Take | app.py:86-87 | the delivery is appended to the vehicle's pending list and its weight added to the load; `PlaceAt` and `PlaceAllOutcome` state the effect on each vehicle |
| Assignment.Place | app.py:84-88 | one delivery given to the first vehicle with room, or to none; the fleet keeps its size; `Fleet.FirstFitAt` and `Fleet.NoFit` state which vehicle changes, and `PlaceAt` states how |
| Assignment.PlaceAll | app.py:83-88 | the deliveries placed one after the other; the fleet keeps its size; its meaning is stated by `PlaceAllOutcome`, `PlaceAllKeepsConsistent` and `EachDeliveryPlacedOnce` |
| Assignment.PlaceAllOutcome | app.py:83-88 | after assignment each vehicle's pending list is its old list followed by exactly the deliveries routed to it, in processing order; its load grows by their total weight; nothing else about it changes |
| Assignment.PlaceAllWithinCapacity | app.py:85-87 | a vehicle that starts within capacity ends within capacity |
| Assignment.PlaceAllKeepsConsistent | app.py:85-87 | if every vehicle's load equals its pending weight and fits its capacity, that still holds after assignment |
| Assignment.DropChangesNothing | app.py:84-88 | a delivery that fits no vehicle changes no vehicle |
| Assignment.EachDeliveryPlacedOnce | app.py:83-88 | the deliveries routed to the vehicles, together with the dropped ones, are exactly the input deliveries: none is lost or duplicated |
| Fleet.AssignInOrder | app.py:83-88 | the nested loops with the early `break` compute first-fit placement of the sorted deliveries |
| Fleet.FleetManager.constructor | app.py:70-72 | a new manager has no vehicles and no deliveries |
| Fleet.FleetManager.AddVehicle | app.py:74-75 | the vehicle is appended to the registration order; the deliveries are unchanged |
| Fleet.FleetManager.AddDelivery | app.py:77-78 | the delivery is appended; the vehicles are unchanged |
| Fleet.FleetManager.AssignDeliveries | app.py:80-88 | the deliveries are unchanged; the vehicles become the first-fit placement, in processing order, onto the vehicles as they were |
| Routing.Locations | app.py:93 | one location per pending delivery, in the same order |
| Routing.Stops | app.py:93 | the vehicle's current location followed by its deliveries' locations in assignment order; `RerouteOutcome` states the route through them |
| Routing.Segments | app.py:96-97 | one query per pair of consecutive stops, in order; it succeeds exactly when every query has an answer; otherwise it reports the first pair whose query fails |
| Routing.Drop1 | app.py:98 | `dijkstra_path[1:]`: the segment without its first node, empty for an empty segment; `JoinIsRoute` states what the seams give |
| Routing.Join | app.py:98 | the first segment whole and every later one without its first node; see `JoinIsRoute` |
| Routing.Stitch | app.py:95-98 | the joined segments, or the first pair of stops without a path; see `StitchedRoute` and `StitchFailsIffDisconnected` |
| Routing.StitchedRoute | app.py:93-98 | the stitched route starts at the first stop and ends at the last; consecutive nodes are adjacent; each stop appears at its seam position, in order; its length is the sum of the segment lengths minus one per seam; it weighs the sum of the segments; no route through the stops by legs weighs less |
| Routing.JoinIsRoute | app.py:95-98 | joining segments that lead from stop to stop, where each later segment loses its first node, gives a walk that visits every stop in order, with no stop duplicated at a seam |
| Routing.OffsetsIncrease | app.py:98 | the seam positions never decrease, so the stops are met in assignment order |
| Routing.StitchFailsIffDisconnected | app.py:96-97 | stitching fails exactly when some pair of consecutive stops is not connected |
| Routing.StitchRoute | app.py:95-98 | the `extend` loop computes the stitched route, or stops at the failing pair |
| Routing.Reroute | app.py:92-99 | one vehicle of the pass: with deliveries pending it takes the stitched route over its stops as its path, otherwise it is left alone; see `RerouteOutcome` and `RerouteIdempotent` |
| Routing.RerouteOutcome | app.py:92-99 | rerouting one vehicle changes only its path; it fails exactly when its stops are not all connected; on success the path runs from the vehicle's location to the last pending delivery's location through every stop in order, and it is the cheapest such route |
| Routing.RerouteIdempotent | app.py:92-99 | rerouting reads the location and the pending list, never the old path, so doing it twice does it once |
| Routing.Optimized | app.py:90-99 | the whole pass in registration order, ending at the first failure; the fleet keeps its size; see `OptimizedOutcome`, `OptimizedSucceedsIff` and `OptimizedIdempotent` |
| Routing.OptimizedOutcome | app.py:90-99 | with no failure every vehicle is rerouted, and vehicles with nothing pending are left as they were; when vehicle j is the first to fail, the vehicles before it are rerouted and j and everything after it are unchanged |
| Routing.OptimizedSucceedsIff | app.py:90-99 | the pass raises nothing exactly when every vehicle's stops are connected |
| Routing.OptimizedIdempotent | app.py:90-99 | running the pass again on its own result changes nothing, a failure included |
| Routing.ReweightedKeepsConnected | app.py:28-34 | after the traffic overwrite, exactly the same pairs of locations are connected |
| Routing.ReoptimizeAfterTraffic | app.py:101-107 | with pending deliveries and path kept apart, a pass that succeeded still succeeds after a traffic update |
| Fleet.SweepFailureEnds | app.py:91-99 | once the pass has failed, the vehicles after that point are carried over unchanged |
| Fleet.FailureEndsPass | app.py:91-99 | once a prefix of the fleet fails, the rest of the pass leaves every later vehicle as it was |
| Fleet.OptimizeInOrder | app.py:91-99 | the loop over the vehicles computes the optimisation pass, including where it stops on a failure |
| Fleet.FleetManager.OptimizeRoutes | app.py:90-99 | the deliveries are unchanged; the vehicles and the reported failure are the optimisation pass over the vehicles as they were |
| Fleet.FleetManager.UpdateRoutesWithTraffic | app.py:101-107 | the graph keeps its nodes and takes the overwritten weights; the vehicles are then the optimisation pass on the new weights |
| OverloadedRoute.EntryLocations | app.py:93 | reading `.location` off each entry succeeds exactly when every entry is a delivery, and gives their locations in order |
| OverloadedRoute.OptimizeAsWritten | app.py:90-99 | one vehicle of `optimize_routes` as written on the single `route` list: AttributeError when an entry has no `.location`, the failing pair when a query fails, otherwise the path as location names; see `FirstPassAgrees` and `SecondPassFails` |
| OverloadedRoute.PendingEntries | app.py:86 | the `route` list as assignment leaves it: one delivery entry per pending delivery, in order; `FirstPassAgrees` starts from it |
| OverloadedRoute.Visits | app.py:99 | the `route` list as optimisation leaves it: one location-name entry per node of the path, in order; `SecondPassFails` starts from it |
| OverloadedRoute.FirstPassAgrees | app.py:86-99 | on a route freshly filled by assignment, the as-written optimisation computes the same path as the model |
| OverloadedRoute.SecondPassFails | app.py:93-107 | after one successful as-written pass, the next pass over any graph raises AttributeError |
| Scenarios.HourLabels | app.py:64 | "12am" is 0 and "12pm" is 12; "9am" is 9 and "03PM" is 15; "13pm", "9 am" and "0am" are rejected |
| Scenarios.ExampleDeliveries | app.py:171-173 | the three example deliveries get the windows 9-12, 12-15 and 15-17 |
| Scenarios.ExampleFleet | app.py:166-168 | the example motorcycle, van and lorry start empty at "Presint 3" with capacities 20, 100 and 300 |
| Scenarios.ExampleOrder | app.py:82 | the example priorities 1, 2, 3 keep registration order |
| Scenarios.ExamplePlacement | app.py:83-88 | the example placement: delivery 1 on the motorcycle, deliveries 2 and 3 on the van, nothing on the lorry |
| Scenarios.ExampleAssignment | app.py:165-177 | on the example fleet, the motorcycle carries delivery 1 (load 10), the van carries deliveries 2 and 3 (load 70), and the lorry is untouched |
| Scenarios.SortedInput | app.py:82 | a list already in stable-sort order is its own processing order |
| Scenarios.CapacityOverflow | app.py:85-88 | a vehicle of capacity 20 takes 15, then has no room for 10; the second delivery is dropped |
| Scenarios.TrafficOverwrite | app.py:28-34 | a feed for A-B alone sets A-B and resets B-C to 10; a feed keyed (B, A) is not read |

## Left out

- `Graph.dijkstra` and `Graph.minimum_spanning_tree` (app.py:22-26). No modelled operation calls them. They would only wrap networkx.
- `nx.dijkstra_path` itself: only its contract is modelled, as the `PathOracle` parameter under `ShortestPathOracle`.
  - Which of several equally cheap paths it returns is left open.
  - Dijkstra's algorithm is not implemented.
  - The `NodeNotFound` and `NetworkXNoPath` exceptions both become "no answer". The pass then reports the failing pair instead of raising.
- `fetch_real_time_traffic` (app.py:110-118). This is a network request. Its result, including the `{}` it returns on failure, is the `traffic` parameter of `UpdateRoutesWithTraffic`. JSON object keys are strings, so a real response could never hold a tuple key, and in practice every edge would fall back to 10. The model takes the feed as a map from edge pairs.
- `periodic_traffic_update` (app.py:121-124): an infinite loop with `sleep` on a thread. Concurrency is not modelled.
- The Flask routes `get_routes` and `index`, and `app.run` (app.py:126-138, 189): HTTP plumbing.
- The `print` calls and the 18-location example topology in `__main__` (app.py:141-181). Only the example fleet and deliveries appear, in `Scenarios`.
- Floating-point weights and capacities: they are integers, and edge weights are natural numbers. Negative edge weights are not modelled; on them networkx's Dijkstra may raise `ValueError` or return a path that is not the shortest.
- `strptime` beyond `<1-12>(am|pm)` labels. Minutes, seconds, whitespace and locale are not modelled. From the parsed `time`, only the hour is kept.
- Python object identity. Vehicles and deliveries are values, so two list entries that alias one Python object are modelled as two equal values.
- `Roads.RewriteWeights`: it visits the edges in an arbitrary order, not networkx's order. The outcome does not depend on the order.
- `max_distance` and `status`: kept as fields that nothing consults, as in the source.

## Findings

| source | as written | input that shows it | evidently intended | confidence | as-written member | corrected member |
|---|---|---|---|---|---|---|
| app.py:86,93,99 | `vehicle.route` holds delivery objects after `assign_deliveries`. `optimize_routes` then replaces it with location names, and on its next run reads `delivery.location` off those names. | Register one vehicle and one delivery to a connected location. Call `assign_deliveries`, then `optimize_routes`, then `update_routes_with_traffic` (or `optimize_routes` again). The second pass raises AttributeError, because `str` has no `location`. | Keep the pending deliveries apart from the computed path, so every re-optimisation reads the deliveries and writes the path. | not executed | OverloadedRoute.SecondPassFails | Routing.ReoptimizeAfterTraffic |
