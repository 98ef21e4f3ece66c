/**
 * Greedy first-fit assignment, as values: each delivery, in processing
 * order, goes to the first vehicle in registration order that still has
 * room for it, or to none.
 */
module Assignment {
  import opened Wrappers
  import opened Deliveries
  import opened Vehicles

  /** The first vehicle that has room for weight w. */
  function FirstFit(vs: seq<Vehicle>, w: int): (r: Option<nat>)
    ensures r.Some? ==> r.value < |vs| && Fits(vs[r.value], w)
    ensures r.Some? ==> forall i :: 0 <= i < r.value ==> !Fits(vs[i], w)
    ensures r.None? <==> forall i :: 0 <= i < |vs| ==> !Fits(vs[i], w)
  {
    if vs == [] then None
    else if Fits(vs[0], w) then Some(0)
    else
      match FirstFit(vs[1..], w)
      case None => None
      case Some(j) => Some(j + 1)
  }

  /** Append d to v's pending list and add its weight to v's load. */
  function Take(v: Vehicle, d: Delivery): Vehicle {
    v.(pending := v.pending + [d], load := v.load + d.weight)
  }

  /** One delivery: given to the first vehicle it fits, or dropped. */
  function Place(vs: seq<Vehicle>, d: Delivery): (r: seq<Vehicle>)
    ensures |r| == |vs|
  {
    match FirstFit(vs, d.weight)
    case None => vs
    case Some(j) => vs[j := Take(vs[j], d)]
  }

  /** The fleet after placing ds one after the other. */
  function PlaceAll(vs: seq<Vehicle>, ds: seq<Delivery>): (r: seq<Vehicle>)
    ensures |r| == |vs|
    decreases |ds|
  {
    if ds == [] then vs else Place(PlaceAll(vs, ds[..|ds| - 1]), ds[|ds| - 1])
  }

  /** Placing the first k + 1 deliveries is placing the first k, then delivery k. */
  lemma PlaceAllStep(vs: seq<Vehicle>, ds: seq<Delivery>, k: nat)
    requires k < |ds|
    ensures PlaceAll(vs, ds[..k + 1]) == Place(PlaceAll(vs, ds[..k]), ds[k])
  {
    assert ds[..k + 1][..k] == ds[..k];
  }

  /** The vehicle that delivery k of ds goes to, judged on the fleet as the deliveries before it left it. */
  function Target(vs: seq<Vehicle>, ds: seq<Delivery>, k: nat): Option<nat>
    requires k < |ds|
  {
    FirstFit(PlaceAll(vs, ds[..k]), ds[k].weight)
  }

  /** The targets of all deliveries of ds, in processing order. */
  function Targets(vs: seq<Vehicle>, ds: seq<Delivery>): (ts: seq<Option<nat>>)
    ensures |ts| == |ds|
    decreases |ds|
  {
    if ds == [] then [] else Targets(vs, ds[..|ds| - 1]) + [Target(vs, ds, |ds| - 1)]
  }

  /** The deliveries of ds whose target in ts is o, in order. */
  function Picked(ts: seq<Option<nat>>, ds: seq<Delivery>, o: Option<nat>): seq<Delivery>
    requires |ts| == |ds|
    decreases |ds|
  {
    if ds == [] then []
    else
      var n := |ds| - 1;
      Picked(ts[..n], ds[..n], o) + if ts[n] == o then [ds[n]] else []
  }

  /** Everything picked for targets 0 .. m-1, as one multiset. */
  function PickedBelow(ts: seq<Option<nat>>, ds: seq<Delivery>, m: nat): multiset<Delivery>
    requires |ts| == |ds|
  {
    if m == 0 then multiset{} else PickedBelow(ts, ds, m - 1) + multiset(Picked(ts, ds, Some(m - 1)))
  }

  /** The deliveries of ds that go to vehicle i, in processing order. */
  function Routed(vs: seq<Vehicle>, ds: seq<Delivery>, i: nat): seq<Delivery> {
    Picked(Targets(vs, ds), ds, Some(i))
  }

  /** The deliveries of ds that fit no vehicle, in processing order. */
  function Dropped(vs: seq<Vehicle>, ds: seq<Delivery>): seq<Delivery> {
    Picked(Targets(vs, ds), ds, None)
  }

  /** Everything routed to vehicles 0 .. m-1. */
  function RoutedBelow(vs: seq<Vehicle>, ds: seq<Delivery>, m: nat): multiset<Delivery> {
    PickedBelow(Targets(vs, ds), ds, m)
  }

  lemma RoutedUnfold(vs: seq<Vehicle>, ds: seq<Delivery>, o: Option<nat>)
    requires ds != []
    ensures var n := |ds| - 1;
            Picked(Targets(vs, ds), ds, o) ==
            Picked(Targets(vs, ds[..n]), ds[..n], o) + if Target(vs, ds, n) == o then [ds[n]] else []
  {
    var n := |ds| - 1;
    assert Targets(vs, ds)[..n] == Targets(vs, ds[..n]);
  }

  /**
   * What assignment does to each vehicle: its pending list gains exactly
   * the deliveries routed to it, in order, its load grows by their weight,
   * and nothing else about it changes.
   */
  lemma {:induction false} PlaceAllOutcome(vs: seq<Vehicle>, ds: seq<Delivery>)
    ensures |PlaceAll(vs, ds)| == |vs|
    ensures forall i :: 0 <= i < |vs| ==>
      PlaceAll(vs, ds)[i] == vs[i].(pending := vs[i].pending + Routed(vs, ds, i),
                                    load := vs[i].load + TotalWeight(Routed(vs, ds, i)))
    decreases |ds|
  {
    if ds == [] {
      forall i | 0 <= i < |vs|
        ensures vs[i].pending + [] == vs[i].pending
      {
      }
    } else {
      var n := |ds| - 1;
      var d := ds[n];
      PlaceAllOutcome(vs, ds[..n]);
      var pre := PlaceAll(vs, ds[..n]);
      forall i | 0 <= i < |vs|
        ensures PlaceAll(vs, ds)[i] == vs[i].(pending := vs[i].pending + Routed(vs, ds, i),
                                              load := vs[i].load + TotalWeight(Routed(vs, ds, i)))
      {
        RoutedUnfold(vs, ds, Some(i));
        PlaceAt(vs[i], pre, d, i, Routed(vs, ds[..n], i));
      }
    }
  }

  /** Placing one delivery adds it to vehicle i exactly when FirstFit names i. */
  lemma PlaceAt(v: Vehicle, pre: seq<Vehicle>, d: Delivery, i: nat, got: seq<Delivery>)
    requires i < |pre| && pre[i] == v.(pending := v.pending + got, load := v.load + TotalWeight(got))
    ensures var now := got + if FirstFit(pre, d.weight) == Some(i) then [d] else [];
            Place(pre, d)[i] == v.(pending := v.pending + now, load := v.load + TotalWeight(now))
  {
    if FirstFit(pre, d.weight) == Some(i) {
      TotalWeightAppend(got, [d]);
      assert TotalWeight([d]) == d.weight by {
        assert [d][..0] == [];
      }
      assert v.pending + got + [d] == v.pending + (got + [d]);
    } else {
      assert got + [] == got;
    }
  }


  /** A vehicle that starts within capacity ends within capacity. */
  lemma {:induction false} PlaceAllWithinCapacity(vs: seq<Vehicle>, ds: seq<Delivery>, i: nat)
    requires i < |vs| && vs[i].load <= vs[i].capacity
    ensures |PlaceAll(vs, ds)| == |vs|
    ensures PlaceAll(vs, ds)[i].load <= PlaceAll(vs, ds)[i].capacity
    decreases |ds|
  {
    PlaceAllOutcome(vs, ds);
    if ds != [] {
      var n := |ds| - 1;
      PlaceAllWithinCapacity(vs, ds[..n], i);
      PlaceAllOutcome(vs, ds[..n]);
    }
  }

  /** Assignment keeps every vehicle consistent: load equals pending weight and stays within capacity. */
  lemma PlaceAllKeepsConsistent(vs: seq<Vehicle>, ds: seq<Delivery>)
    requires forall i :: 0 <= i < |vs| ==> Consistent(vs[i])
    ensures |PlaceAll(vs, ds)| == |vs|
    ensures forall i :: 0 <= i < |vs| ==> Consistent(PlaceAll(vs, ds)[i])
  {
    PlaceAllOutcome(vs, ds);
    forall i | 0 <= i < |vs|
      ensures Consistent(PlaceAll(vs, ds)[i])
    {
      PlaceAllWithinCapacity(vs, ds, i);
      TotalWeightAppend(vs[i].pending, Routed(vs, ds, i));
    }
  }

  /** A delivery that fits no vehicle leaves every vehicle as it was. */
  lemma DropChangesNothing(vs: seq<Vehicle>, ds: seq<Delivery>, k: nat)
    requires k < |ds| && Target(vs, ds, k).None?
    ensures forall i :: 0 <= i < |PlaceAll(vs, ds[..k])| ==> !Fits(PlaceAll(vs, ds[..k])[i], ds[k].weight)
    ensures PlaceAll(vs, ds[..k + 1]) == PlaceAll(vs, ds[..k])
  {
    assert ds[..k + 1][..k] == ds[..k];
  }

  /** The last delivery's share of PickedBelow: itself when its target is below m. */
  function BelowShare(t: Option<nat>, d: Delivery, m: nat): (r: multiset<Delivery>)
    ensures m == 0 ==> r == multiset{}
  {
    if t.Some? && t.value < m then multiset{d} else multiset{}
  }

  /** The last delivery's share of what is picked for o. */
  function Share(t: Option<nat>, d: Delivery, o: Option<nat>): multiset<Delivery> {
    if t == o then multiset{d} else multiset{}
  }

  lemma BelowShareStep(t: Option<nat>, d: Delivery, m: nat)
    requires m > 0
    ensures BelowShare(t, d, m) == BelowShare(t, d, m - 1) + Share(t, d, Some(m - 1))
  {
  }

  lemma PickedBelowStep(ts: seq<Option<nat>>, ds: seq<Delivery>, m: nat)
    requires |ts| == |ds| && ds != []
    ensures PickedBelow(ts, ds, m) == PickedBelow(ts[..|ds| - 1], ds[..|ds| - 1], m) + BelowShare(ts[|ds| - 1], ds[|ds| - 1], m)
  {
    var n := |ds| - 1;
    var e: multiset<Delivery> := multiset{};
    assert e == e + BelowShare(ts[n], ds[n], 0);
    var k := 0;
    while k < m
      invariant k <= m
      invariant PickedBelow(ts, ds, k) == PickedBelow(ts[..n], ds[..n], k) + BelowShare(ts[n], ds[n], k)
    {
      PickedBelowGrows(ts, ds, k + 1);
      k := k + 1;
    }
  }

  /** The inductive step of PickedBelowStep: from targets below m - 1 to targets below m. */
  lemma PickedBelowGrows(ts: seq<Option<nat>>, ds: seq<Delivery>, m: nat)
    requires |ts| == |ds| && ds != [] && m > 0
    requires PickedBelow(ts, ds, m - 1) == PickedBelow(ts[..|ds| - 1], ds[..|ds| - 1], m - 1) + BelowShare(ts[|ds| - 1], ds[|ds| - 1], m - 1)
    ensures PickedBelow(ts, ds, m) == PickedBelow(ts[..|ds| - 1], ds[..|ds| - 1], m) + BelowShare(ts[|ds| - 1], ds[|ds| - 1], m)
  {
    var n := |ds| - 1;
    var o: Option<nat> := Some(m - 1);
    PickedStep(ts, ds, o);
    BelowShareStep(ts[n], ds[n], m);
    AddsUp(PickedBelow(ts[..n], ds[..n], m - 1), PickedBelow(ts, ds, m - 1),
           multiset(Picked(ts[..n], ds[..n], o)), multiset(Picked(ts, ds, o)),
           BelowShare(ts[n], ds[n], m - 1), Share(ts[n], ds[n], o), BelowShare(ts[n], ds[n], m));
  }

  lemma AddsUp(x0: multiset<Delivery>, x1: multiset<Delivery>, y0: multiset<Delivery>, y1: multiset<Delivery>,
               a: multiset<Delivery>, b: multiset<Delivery>, c: multiset<Delivery>)
    requires x1 == x0 + a && y1 == y0 + b && c == a + b
    ensures x1 + y1 == x0 + y0 + c
  {
  }

  /** The base case of PickedOnce: before any delivery, nothing is picked for any vehicle below m. */
  lemma {:induction false} NothingPickedFromNothing(ts: seq<Option<nat>>, m: nat)
    requires ts == []
    ensures PickedBelow(ts, [], m) == multiset{}
  {
    if m > 0 {
      NothingPickedFromNothing(ts, m - 1);
    }
  }

  /** One step of the count: the new delivery joins exactly one of the two sides. */
  lemma JoinsOneSide(below0: multiset<Delivery>, below1: multiset<Delivery>, none0: multiset<Delivery>,
                     none1: multiset<Delivery>, d: Delivery, routed: bool)
    requires routed ==> below1 == below0 + multiset{d} && none1 == none0
    requires !routed ==> below1 == below0 && none1 == none0 + multiset{d}
    ensures below1 + none1 == below0 + none0 + multiset{d}
  {
  }

  /** Every delivery is picked for exactly one target: one of 0 .. m-1, or none. */
  lemma PickedOnce(ts: seq<Option<nat>>, ds: seq<Delivery>, m: nat)
    requires |ts| == |ds|
    requires forall k :: 0 <= k < |ts| && ts[k].Some? ==> ts[k].value < m
    ensures PickedBelow(ts, ds, m) + multiset(Picked(ts, ds, None)) == multiset(ds)
  {
    var k := 0;
    assert PickedBelow(ts[..k], ds[..k], m) + multiset(Picked(ts[..k], ds[..k], None)) == multiset(ds[..k]) by {
      assert ds[..0] == [];
      NothingPickedFromNothing(ts[..0], m);
    }
    while k < |ds|
      invariant k <= |ds|
      invariant PickedBelow(ts[..k], ds[..k], m) + multiset(Picked(ts[..k], ds[..k], None)) == multiset(ds[..k])
    {
      assert PickedBelow(ts[..k + 1], ds[..k + 1], m) + multiset(Picked(ts[..k + 1], ds[..k + 1], None)) == multiset(ds[..k + 1]) by {
        assert ts[..k + 1][..k] == ts[..k] && ds[..k + 1][..k] == ds[..k];
        assert ts[..k + 1][k] == ts[k];
        PickedOnceGrows(ts[..k + 1], ds[..k + 1], m);
      }
      k := k + 1;
    }
    assert ts[..k] == ts && ds[..k] == ds;
  }

  /** The step of PickedOnce: the last delivery lands on exactly one side. */
  lemma PickedOnceGrows(ts: seq<Option<nat>>, ds: seq<Delivery>, m: nat)
    requires |ts| == |ds| && ds != []
    requires ts[|ds| - 1].Some? ==> ts[|ds| - 1].value < m
    requires PickedBelow(ts[..|ds| - 1], ds[..|ds| - 1], m) + multiset(Picked(ts[..|ds| - 1], ds[..|ds| - 1], None)) == multiset(ds[..|ds| - 1])
    ensures PickedBelow(ts, ds, m) + multiset(Picked(ts, ds, None)) == multiset(ds)
  {
    var n := |ds| - 1;
    PickedBelowStep(ts, ds, m);
    PickedStep(ts, ds, None);
    JoinsOneSide(PickedBelow(ts[..n], ds[..n], m), PickedBelow(ts, ds, m),
                 multiset(Picked(ts[..n], ds[..n], None)), multiset(Picked(ts, ds, None)), ds[n], ts[n].Some?);
    LastSplit(ds);
  }


  /** The last delivery joins the multiset picked for o exactly when its target is o. */
  lemma PickedStep(ts: seq<Option<nat>>, ds: seq<Delivery>, o: Option<nat>)
    requires |ts| == |ds| && ds != []
    ensures multiset(Picked(ts, ds, o)) == multiset(Picked(ts[..|ds| - 1], ds[..|ds| - 1], o)) + Share(ts[|ds| - 1], ds[|ds| - 1], o)
  {
  }

  lemma LastSplit(ds: seq<Delivery>)
    requires ds != []
    ensures multiset(ds) == multiset(ds[..|ds| - 1]) + multiset{ds[|ds| - 1]}
  {
    assert ds == ds[..|ds| - 1] + [ds[|ds| - 1]];
  }


  lemma {:induction false} TargetsInRange(vs: seq<Vehicle>, ds: seq<Delivery>)
    ensures forall k :: 0 <= k < |ds| && Targets(vs, ds)[k].Some? ==> Targets(vs, ds)[k].value < |vs|
    decreases |ds|
  {
    if ds != [] {
      var n := |ds| - 1;
      TargetsInRange(vs, ds[..n]);
      PlaceAllOutcome(vs, ds[..n]);
      var ts, pre := Targets(vs, ds), Targets(vs, ds[..n]);
      assert ts == pre + [Target(vs, ds, n)];
      forall k | 0 <= k < |ds| && ts[k].Some?
        ensures ts[k].value < |vs|
      {
        if k < n {
          assert ts[k] == pre[k];
        } else {
          assert ts[k] == FirstFit(PlaceAll(vs, ds[..n]), ds[n].weight);
        }
      }
    }
  }

  /**
   * No delivery is lost or duplicated: every delivery is routed to exactly
   * one vehicle or dropped.
   */
  lemma EachDeliveryPlacedOnce(vs: seq<Vehicle>, ds: seq<Delivery>)
    ensures RoutedBelow(vs, ds, |vs|) + multiset(Dropped(vs, ds)) == multiset(ds)
  {
    TargetsInRange(vs, ds);
    PickedOnce(Targets(vs, ds), ds, |vs|);
  }
}
