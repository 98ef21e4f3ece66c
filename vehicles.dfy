/**
 * Vehicles: one record type, with the motorcycle, van and lorry kinds as
 * a table of constants rather than subclasses.
 */
module Vehicles {
  import opened Roads
  import opened Deliveries

  /** Every vehicle starts here. */
  const Depot: Location := "Presint 3"

  datatype Kind = Motorcycle | Van | Lorry

  datatype Preset = Preset(capacity: int, maxDistance: int)

  /** The constants each kind passes to the vehicle constructor. */
  function PresetOf(kind: Kind): Preset {
    match kind
    case Motorcycle => Preset(20, 5000)
    case Van => Preset(100, 5000)
    case Lorry => Preset(300, 5000)
  }

  /**
   * A vehicle. `pending` is the pending delivery list that assignment
   * appends to and `path` the location sequence that route optimisation
   * writes; the source keeps both in one `route` field. `maxDistance` and
   * `status` are stored and never consulted.
   */
  datatype Vehicle = Vehicle(
    id: string,
    capacity: int,
    maxDistance: int,
    location: Location,
    status: string,
    pending: seq<Delivery>,
    path: seq<Location>,
    load: int)

  /** Sum of the weights of ds. */
  function TotalWeight(ds: seq<Delivery>): int {
    if ds == [] then 0 else TotalWeight(ds[..|ds| - 1]) + ds[|ds| - 1].weight
  }

  lemma {:induction false} TotalWeightAppend(a: seq<Delivery>, b: seq<Delivery>)
    ensures TotalWeight(a + b) == TotalWeight(a) + TotalWeight(b)
  {
    if b != [] {
      assert (a + b)[..|a + b| - 1] == a + b[..|b| - 1];
      TotalWeightAppend(a, b[..|b| - 1]);
    } else {
      assert a + b == a;
    }
  }

  /** The assignment test: the delivery's weight still fits under the capacity. */
  predicate Fits(v: Vehicle, w: int) {
    v.load + w <= v.capacity
  }

  /** The load is the weight of the pending deliveries, and it is within capacity. */
  predicate Consistent(v: Vehicle) {
    v.load == TotalWeight(v.pending) && v.load <= v.capacity
  }

  /** The `Vehicle` constructor. */
  function NewVehicle(id: string, capacity: int, maxDistance: int): (v: Vehicle)
    ensures v.id == id && v.capacity == capacity && v.maxDistance == maxDistance
    ensures v.location == Depot && v.status == "available"
    ensures v.pending == [] && v.path == [] && v.load == 0
    ensures Consistent(v) <==> capacity >= 0
  {
    Vehicle(id, capacity, maxDistance, Depot, "available", [], [], 0)
  }

  /** `Motorcycle(id)`, `Van(id)`, `Lorry(id)`. */
  function NewVehicleOfKind(id: string, kind: Kind): (v: Vehicle)
    ensures v == NewVehicle(id, PresetOf(kind).capacity, PresetOf(kind).maxDistance)
    ensures Consistent(v) && v.maxDistance == 5000
  {
    NewVehicle(id, PresetOf(kind).capacity, PresetOf(kind).maxDistance)
  }
}
