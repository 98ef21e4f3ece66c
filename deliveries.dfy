/**
 * The delivery record and the order in which assignment considers
 * deliveries: a stable sort on (priority, time window).
 */
module Deliveries {
  import opened Wrappers
  import opened Roads
  import opened Clock

  /** The time window as two hours of day, in label order (no start <= end check is made). */
  datatype Window = Window(start: Hour, end: Hour)

  datatype Delivery = Delivery(id: string, location: Location, window: Window, priority: int, weight: int)

  /** `strptime` rejected this label. */
  datatype LabelError = BadLabel(text: string)

  /** The `Delivery` constructor: both labels are parsed, the start label first. */
  function NewDelivery(id: string, location: Location, labels: (string, string), priority: int, weight: int): (r: Result<Delivery, LabelError>)
    ensures r.Ok? <==> ParseHourLabel(labels.0).Some? && ParseHourLabel(labels.1).Some?
    ensures r.Ok? ==> r.value == Delivery(id, location, Window(ParseHourLabel(labels.0).value, ParseHourLabel(labels.1).value), priority, weight)
    ensures r.Err? ==> r.error == BadLabel(if ParseHourLabel(labels.0).None? then labels.0 else labels.1)
  {
    match ParseHourLabel(labels.0)
    case None => Err(BadLabel(labels.0))
    case Some(start) =>
      match ParseHourLabel(labels.1)
      case None => Err(BadLabel(labels.1))
      case Some(end) => Ok(Delivery(id, location, Window(start, end), priority, weight))
  }

  /** The sort key `(priority, time_window)` of a is smaller than b's, compared as Python compares tuples. */
  predicate KeyLess(a: Delivery, b: Delivery) {
    || a.priority < b.priority
    || (a.priority == b.priority && a.window.start < b.window.start)
    || (a.priority == b.priority && a.window.start == b.window.start && a.window.end < b.window.end)
  }

  predicate SameKey(a: Delivery, b: Delivery) {
    a.priority == b.priority && a.window == b.window
  }

  /** Delivery i comes before delivery j in a stable sort of ds: a smaller key, or an equal key and registered earlier. */
  predicate Before(ds: seq<Delivery>, i: nat, j: nat)
    requires i < |ds| && j < |ds|
  {
    KeyLess(ds[i], ds[j]) || (SameKey(ds[i], ds[j]) && i < j)
  }

  predicate InRange(ds: seq<Delivery>, o: seq<nat>) {
    forall k :: 0 <= k < |o| ==> o[k] < |ds|
  }

  /** o lists indices of ds strictly in stable-sort order. */
  predicate StablySorted(ds: seq<Delivery>, o: seq<nat>) {
    InRange(ds, o) && forall k, l :: 0 <= k < l < |o| ==> Before(ds, o[k], o[l])
  }

  lemma BeforeIsStrictTotalOrder(ds: seq<Delivery>, i: nat, j: nat, k: nat)
    requires i < |ds| && j < |ds| && k < |ds|
    ensures !Before(ds, i, i)
    ensures i != j ==> (Before(ds, i, j) <==> !Before(ds, j, i))
    ensures Before(ds, i, j) && Before(ds, j, k) ==> Before(ds, i, k)
  {
  }

  /** Insert index x into a stably sorted o. */
  function Insert(ds: seq<Delivery>, o: seq<nat>, x: nat): (r: seq<nat>)
    requires x < |ds| && InRange(ds, o)
    ensures |r| == |o| + 1 && InRange(ds, r)
    ensures multiset(r) == multiset(o) + multiset{x}
  {
    if o == [] || Before(ds, x, o[0]) then [x] + o
    else
      assert o == [o[0]] + o[1..];
      [o[0]] + Insert(ds, o[1..], x)
  }

  lemma {:induction false} InsertSorted(ds: seq<Delivery>, o: seq<nat>, x: nat)
    requires x < |ds| && StablySorted(ds, o) && x !in o
    ensures StablySorted(ds, Insert(ds, o, x))
  {
    if o != [] && !Before(ds, x, o[0]) {
      assert o == [o[0]] + o[1..];
      InsertSorted(ds, o[1..], x);
      var t := Insert(ds, o[1..], x);
      forall m | 0 <= m < |t|
        ensures Before(ds, o[0], t[m])
      {
        assert t[m] in multiset(t);
        if t[m] == x {
          BeforeIsStrictTotalOrder(ds, x, o[0], x);
        } else {
          assert t[m] in o[1..];
        }
      }
    } else if o != [] {
      forall m | 0 <= m < |o|
        ensures Before(ds, x, o[m])
      {
        BeforeIsStrictTotalOrder(ds, x, o[0], o[m]);
      }
    }
  }

  /** Indices 0 .. m-1 of ds, stably sorted by insertion. */
  function Order(ds: seq<Delivery>, m: nat): (r: seq<nat>)
    requires m <= |ds|
    ensures |r| == m && StablySorted(ds, r)
    ensures forall k :: 0 <= k < |r| ==> r[k] < m
  {
    if m == 0 then []
    else
      var o := Order(ds, m - 1);
      var x: nat := m - 1;
      InsertSorted(ds, o, x);
      var r := Insert(ds, o, x);
      assert forall k :: 0 <= k < |r| ==> r[k] in multiset(o) + multiset{x};
      r
  }

  /** The order `sorted(deliveries, key=...)` puts the registered deliveries in, as indices. */
  function ProcessingOrder(ds: seq<Delivery>): (r: seq<nat>)
    ensures |r| == |ds| && StablySorted(ds, r)
  {
    Order(ds, |ds|)
  }

  function Gather(ds: seq<Delivery>, o: seq<nat>): (r: seq<Delivery>)
    requires InRange(ds, o)
    ensures |r| == |o| && forall k :: 0 <= k < |o| ==> r[k] == ds[o[k]]
  {
    if o == [] then [] else [ds[o[0]]] + Gather(ds, o[1..])
  }

  lemma {:induction false} GatherInsert(ds: seq<Delivery>, o: seq<nat>, x: nat)
    requires x < |ds| && InRange(ds, o)
    ensures multiset(Gather(ds, Insert(ds, o, x))) == multiset(Gather(ds, o)) + multiset{ds[x]}
  {
    if o != [] && !Before(ds, x, o[0]) {
      GatherInsert(ds, o[1..], x);
      assert Insert(ds, o, x)[1..] == Insert(ds, o[1..], x);
    }
  }

  lemma {:induction false} OrderIsPermutation(ds: seq<Delivery>, m: nat)
    requires m <= |ds|
    ensures multiset(Gather(ds, Order(ds, m))) == multiset(ds[..m])
  {
    if m > 0 {
      var x: nat := m - 1;
      OrderIsPermutation(ds, x);
      InsertExtendsPermutation(ds, Order(ds, x), x);
    }
  }

  lemma InsertExtendsPermutation(ds: seq<Delivery>, o: seq<nat>, x: nat)
    requires x < |ds| && InRange(ds, o)
    requires multiset(Gather(ds, o)) == multiset(ds[..x])
    ensures multiset(Gather(ds, Insert(ds, o, x))) == multiset(ds[..x + 1])
  {
    GatherInsert(ds, o, x);
    PrefixGrows(ds, x);
  }

  lemma PrefixGrows(ds: seq<Delivery>, x: nat)
    requires x < |ds|
    ensures multiset(ds[..x + 1]) == multiset(ds[..x]) + multiset{ds[x]}
  {
    assert ds[..x + 1] == ds[..x] + [ds[x]];
  }

  /** The deliveries in the order assignment considers them. */
  function SortedDeliveries(ds: seq<Delivery>): (r: seq<Delivery>)
    ensures |r| == |ds| && multiset(r) == multiset(ds)
    ensures forall k, l :: 0 <= k < l < |r| ==> !KeyLess(r[l], r[k])
  {
    OrderIsPermutation(ds, |ds|);
    assert ds[..|ds|] == ds;
    Gather(ds, ProcessingOrder(ds))
  }

  function Elems(o: seq<nat>): set<nat> {
    set x | x in o
  }

  function Iota(n: nat): (r: seq<nat>)
    ensures |r| == n && forall k :: 0 <= k < n ==> r[k] == k
  {
    if n == 0 then [] else Iota(n - 1) + [n - 1]
  }

  lemma IotaElems(n: nat)
    ensures forall i: nat :: i in Elems(Iota(n)) <==> i < n
  {
    var o := Iota(n);
    forall i: nat | i < n
      ensures i in Elems(o)
    {
      assert o[i] == i;
    }
    forall i: nat | i in Elems(o)
      ensures i < n
    {
      var k :| 0 <= k < |o| && o[k] == i;
    }
  }

  function Indices(n: nat): (r: set<nat>)
    ensures forall i: nat :: i in r <==> i < n
  {
    IotaElems(n);
    Elems(Iota(n))
  }

  lemma {:induction false} DistinctCardinality(o: seq<nat>)
    requires forall k, l :: 0 <= k < l < |o| ==> o[k] != o[l]
    ensures |Elems(o)| == |o|
  {
    if o != [] {
      DistinctCardinality(o[1..]);
      assert Elems(o) == Elems(o[1..]) + {o[0]};
      assert o[0] !in Elems(o[1..]);
    }
  }

  lemma IndicesCardinality(n: nat)
    ensures |Indices(n)| == n
  {
    DistinctCardinality(Iota(n));
  }

  /** A stably sorted list of |ds| indices holds every index of ds. */
  lemma SortedListsEveryIndex(ds: seq<Delivery>, o: seq<nat>)
    requires |o| == |ds| && StablySorted(ds, o)
    ensures Elems(o) == Indices(|ds|)
  {
    forall k, l | 0 <= k < l < |o|
      ensures o[k] != o[l]
    {
      BeforeIsStrictTotalOrder(ds, o[k], o[l], o[k]);
    }
    DistinctCardinality(o);
    IndicesCardinality(|ds|);
    var s, all := Elems(o), Indices(|ds|);
    assert s <= all;
    assert all == s + (all - s) && s * (all - s) == {};
    assert |all - s| == 0;
  }

  lemma HeadInElems(q: seq<nat>)
    requires q != []
    ensures q[0] in Elems(q)
  {
  }

  lemma {:induction false} SortedListsAgree(ds: seq<Delivery>, p: seq<nat>, q: seq<nat>)
    requires StablySorted(ds, p) && StablySorted(ds, q)
    requires Elems(p) == Elems(q)
    ensures p == q
  {
    if p == [] && q != [] {
      HeadInElems(q);
      assert false;
    }
    if p != [] {
      assert p[0] in Elems(p);
      assert q != [] && q[0] in Elems(q);
      if p[0] != q[0] {
        var k :| 0 <= k < |p| && p[k] == q[0];
        var l :| 0 <= l < |q| && q[l] == p[0];
        BeforeIsStrictTotalOrder(ds, p[0], q[0], p[0]);
        assert false;
      }
      forall k | 0 < k < |p|
        ensures p[k] != p[0]
      {
        BeforeIsStrictTotalOrder(ds, p[0], p[k], p[0]);
      }
      forall k | 0 < k < |q|
        ensures q[k] != q[0]
      {
        BeforeIsStrictTotalOrder(ds, q[0], q[k], q[0]);
      }
      assert Elems(p) == Elems(p[1..]) + {p[0]} && p[0] !in Elems(p[1..]);
      assert Elems(q) == Elems(q[1..]) + {q[0]} && q[0] !in Elems(q[1..]);
      SortedListsAgree(ds, p[1..], q[1..]);
      assert p == [p[0]] + p[1..] && q == [q[0]] + q[1..];
    }
  }

  /**
   * Stability fixes the order: every arrangement of all the registered
   * deliveries that is sorted by key, with ties in registration order,
   * is the processing order.
   */
  lemma StableOrderIsUnique(ds: seq<Delivery>, o: seq<nat>)
    requires |o| == |ds| && StablySorted(ds, o)
    ensures o == ProcessingOrder(ds)
  {
    SortedListsEveryIndex(ds, o);
    SortedListsEveryIndex(ds, ProcessingOrder(ds));
    SortedListsAgree(ds, o, ProcessingOrder(ds));
  }
}
