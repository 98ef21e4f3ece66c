/**
 * Concrete scenarios: the example fleet of app.py, a capacity overflow,
 * a traffic overwrite and the hour labels at noon and midnight.
 */
module Scenarios {
  import opened Wrappers
  import opened Roads
  import opened Clock
  import opened Deliveries
  import opened Vehicles
  import opened Assignment

  /** 12am is midnight and 12pm is noon; hours past 12 and spaced labels are rejected. */
  lemma HourLabels()
    ensures ParseHourLabel("12am") == Some(0) && ParseHourLabel("12pm") == Some(12)
    ensures ParseHourLabel("9am") == Some(9) && ParseHourLabel("03PM") == Some(15)
    ensures ParseHourLabel("13pm") == None && ParseHourLabel("9 am") == None && ParseHourLabel("0am") == None
  {
    assert "12am"[..2] == "12" && "12am"[2..] == "am";
    assert "12pm"[..2] == "12" && "12pm"[2..] == "pm";
    assert "9am"[..1] == "9" && "9am"[1..] == "am";
    assert "03PM"[..2] == "03" && "03PM"[2..] == "PM";
    assert "13pm"[..2] == "13";
    assert "9 am"[..2] == "9 ";
    assert "0am"[..1] == "0";
  }

  /** The three deliveries of the example, as `Delivery` builds them. */
  lemma ExampleDeliveries()
    ensures NewDelivery("Delivery_1", "Presint 1", ("9am", "12pm"), 1, 10) == Ok(Delivery("Delivery_1", "Presint 1", Window(9, 12), 1, 10))
    ensures NewDelivery("Delivery_2", "Presint 2", ("12pm", "3pm"), 2, 50) == Ok(Delivery("Delivery_2", "Presint 2", Window(12, 15), 2, 50))
    ensures NewDelivery("Delivery_3", "Presint 4", ("3pm", "5pm"), 3, 20) == Ok(Delivery("Delivery_3", "Presint 4", Window(15, 17), 3, 20))
  {
    assert "9am"[..1] == "9" && "9am"[1..] == "am";
    assert "12pm"[..2] == "12" && "12pm"[2..] == "pm";
    assert "3pm"[..1] == "3" && "3pm"[1..] == "pm";
    assert "5pm"[..1] == "5" && "5pm"[1..] == "pm";
  }

  /** An already sorted list is its own processing order. */
  lemma SortedInput(ds: seq<Delivery>)
    requires forall k, l :: 0 <= k < l < |ds| ==> Before(ds, k, l)
    ensures SortedDeliveries(ds) == ds
  {
    var o := Iota(|ds|);
    assert StablySorted(ds, o);
    StableOrderIsUnique(ds, o);
  }

  /** Priorities 1, 2, 3 in registration order: the sort keeps the order. */
  lemma ExampleOrder(d1: Delivery, d2: Delivery, d3: Delivery)
    requires d1.priority == 1 && d2.priority == 2 && d3.priority == 3
    ensures SortedDeliveries([d1, d2, d3]) == [d1, d2, d3]
  {
    var ds := [d1, d2, d3];
    assert Before(ds, 0, 1) && Before(ds, 0, 2) && Before(ds, 1, 2);
    SortedInput(ds);
  }

  lemma ExamplePlacement(d1: Delivery, d2: Delivery, d3: Delivery, m: Vehicle, v: Vehicle, l: Vehicle)
    requires d1.weight == 10 && d2.weight == 50 && d3.weight == 20
    requires m.load == 0 && m.capacity == 20 && v.load == 0 && v.capacity == 100 && l.load == 0 && l.capacity == 300
    ensures PlaceAll([m, v, l], [d1, d2, d3]) == [Take(m, d1), Take(Take(v, d2), d3), l]
  {
    var ds, fleet := [d1, d2, d3], [m, v, l];
    assert ds[..0] == [] && ds[..3] == ds;
    PlaceAllStep(fleet, ds, 0);
    PlaceAllStep(fleet, ds, 1);
    PlaceAllStep(fleet, ds, 2);
    var f1 := [Take(m, d1), v, l];
    assert FirstFit(fleet, 10) == Some(0);
    assert Place(fleet, d1) == f1;
    var f2 := [Take(m, d1), Take(v, d2), l];
    assert !Fits(f1[0], 50);
    assert FirstFit(f1, 50) == Some(1);
    assert Place(f1, d2) == f2;
    assert !Fits(f2[0], 20);
    assert FirstFit(f2, 20) == Some(1);
  }

  /** The three presets of the example fleet, empty at the depot. */
  lemma ExampleFleet()
    ensures var m := NewVehicleOfKind("Motorcycle_1", Motorcycle);
            m.capacity == 20 && m.load == 0 && m.pending == [] && m.location == Depot
    ensures var v := NewVehicleOfKind("Van_1", Van);
            v.capacity == 100 && v.load == 0 && v.pending == [] && v.location == Depot
    ensures var l := NewVehicleOfKind("Lorry_1", Lorry);
            l.capacity == 300 && l.load == 0 && l.pending == [] && l.location == Depot
  {
  }

  /**
   * The example fleet: Delivery_1 (priority 1, weight 10) rides the
   * motorcycle (capacity 20), Delivery_2 (priority 2, weight 50) no longer
   * fits it and goes to the van (capacity 100), and so does Delivery_3
   * (priority 3, weight 20); the lorry gets nothing.
   */
  lemma ExampleAssignment(d1: Delivery, d2: Delivery, d3: Delivery, m: Vehicle, v: Vehicle, l: Vehicle)
    requires d1.priority == 1 && d1.weight == 10
    requires d2.priority == 2 && d2.weight == 50
    requires d3.priority == 3 && d3.weight == 20
    requires m.capacity == 20 && m.load == 0 && m.pending == []
    requires v.capacity == 100 && v.load == 0 && v.pending == []
    requires l.capacity == 300 && l.load == 0 && l.pending == []
    ensures var after := PlaceAll([m, v, l], SortedDeliveries([d1, d2, d3]));
            && after[0].pending == [d1] && after[0].load == 10
            && after[1].pending == [d2, d3] && after[1].load == 70
            && after[2] == l
  {
    ExampleOrder(d1, d2, d3);
    ExampleLoads(d1, d2, d3, m, v, l);
  }

  lemma ExampleLoads(d1: Delivery, d2: Delivery, d3: Delivery, m: Vehicle, v: Vehicle, l: Vehicle)
    requires d1.weight == 10 && d2.weight == 50 && d3.weight == 20
    requires m.capacity == 20 && m.load == 0 && m.pending == []
    requires v.capacity == 100 && v.load == 0 && v.pending == []
    requires l.capacity == 300 && l.load == 0
    ensures var after := PlaceAll([m, v, l], [d1, d2, d3]);
            && after[0].pending == [d1] && after[0].load == 10
            && after[1].pending == [d2, d3] && after[1].load == 70
            && after[2] == l
  {
    ExamplePlacement(d1, d2, d3, m, v, l);
    assert Take(Take(v, d2), d3).pending == [d2, d3];
  }

  /** A vehicle of capacity 20 takes a delivery of 15 and then has no room for one of 10: the second is dropped. */
  lemma CapacityOverflow(d1: Delivery, d2: Delivery, v: Vehicle)
    requires d1.weight == 15 && d2.weight == 10
    requires v == NewVehicle("V1", 20, 5000)
    ensures PlaceAll([v], [d1, d2]) == [Take(v, d1)]
    ensures Dropped([v], [d1, d2]) == [d2]
  {
    var vs, ds := [v], [d1, d2];
    assert ds[..0] == [] && ds[..1] == [d1] && ds[..2] == ds;
    PlaceAllStep(vs, ds, 0);
    PlaceAllStep(vs, ds, 1);
    assert FirstFit(vs, 15) == Some(0);
    assert Place(vs, d1) == [Take(v, d1)];
    assert FirstFit([Take(v, d1)], 10) == None;
    assert Targets(vs, ds[..1]) == [Some(0)];
    assert Targets(vs, ds) == [Some(0), None];
    assert [Some(0), None][..1] == [Some(0)];
    assert Picked([Some(0)], [d1], None) == [] by {
      assert [Some(0)][..0] == [] && [d1][..0] == [];
    }
  }

  /**
   * A feed for A-B only: A-B takes the fed weight, B-C falls back to 10,
   * and the walk A, B, C then weighs 15. A feed keyed (B, A) is not read.
   */
  lemma TrafficOverwrite()
    ensures var n := Network(["A", "B", "C"], map[("A", "B") := 1, ("B", "C") := 1]);
            var w := Reweighted(n.weight, map[("A", "B") := 5]);
            && w == map[("A", "B") := 5, ("B", "C") := 10]
            && PathCost(Network(n.nodes, w), ["A", "B", "C"]) == 15
            && Reweighted(n.weight, map[("B", "A") := 5])[("A", "B")] == 10
  {
    var n := Network(["A", "B", "C"], map[("A", "B") := 1, ("B", "C") := 1]);
    var w := Reweighted(n.weight, map[("A", "B") := 5]);
    assert ("A", "B") != ("B", "C") by {
      assert "A" != "B";
    }
    assert w == map[("A", "B") := 5, ("B", "C") := 10];
    assert ["A", "B", "C"][1..] == ["B", "C"] && ["B", "C"][1..] == ["C"];
    assert ("B", "A") != ("A", "B");
  }
}
