// A graph on which the order of definitions is wrong: a typedef of a function type that takes, by
// value, a struct with a pointer back to the typedef.

module DumpSample {
  import opened BtfTypes
  import opened TypeGraph
  import opened RefSteps
  import opened DumpSteps
  import opened DumpCases
  import opened DumpOrder
  import opened DumpBudget
  import opened DumpRuns
  import opened DumpQueue

  // enum E; typedef E F(struct S); struct S { F *p; F f; };
  function Sample(): (g: seq<BtfType>)
    ensures |g| == 6
  {
    [VOID,
     BtfType(1, Info(Enum, 1, false), 4, Enumerators([Enumerator(2, 0)])),
     BtfType(0, Info(FuncProto, 1, false), 1, Params([Param(0, 5)])),
     BtfType(3, Info(Typedef, 0, false), 2, Plain),
     BtfType(0, Info(Ptr, 0, false), 3, Plain),
     BtfType(4, Info(Struct, 2, false), 8, Members([Member(5, 4, 0), Member(6, 3, 64)]))]
  }

  // The result of a prototype is not marked as referenced.
  const SampleMarks: seq<bool> := [false, false, true, true, true, true]

  lemma SampleMarked()
    ensures GraphOk(Sample()) && Referenced(Sample()) == SampleMarks
  {
    SampleOk();
    var g := Sample();
    assert RefersTo(g[4], 3) && RefersTo(g[3], 2);
    assert g[2].rest.params[0].typ == 5 && RefersTo(g[2], 5);
    assert g[5].rest.members[0].typ == 4 && RefersTo(g[5], 4);
    assert Referenced(g) == SampleMarks;
  }

  // enum { A }; and a prototype with that result.
  function Result(): (g: seq<BtfType>)
    ensures |g| == 3
  {
    [VOID,
     BtfType(0, Info(Enum, 1, false), 4, Enumerators([Enumerator(1, 0)])),
     BtfType(0, Info(FuncProto, 0, false), 1, Params([]))]
  }

  // Although the prototype refers to it, the anonymous enum is declared by itself.
  lemma ResultNotCounted()
    ensures GraphOk(Result()) && 1 in Refs(Result()[2])
    ensures !Referenced(Result())[1] && Declares(Result(), 1)
  {
    var g := Result();
    assert Refs(g[0]) == [] && Refs(g[1]) == [] && Refs(g[2]) == [1];
    assert GraphOk(g);
  }

  lemma SampleRefs()
    ensures Refs(Sample()[0]) == [] && Refs(Sample()[1]) == [] && Refs(Sample()[2]) == [1, 5]
    ensures Refs(Sample()[3]) == [2] && Refs(Sample()[4]) == [3] && Refs(Sample()[5]) == [4, 3]
  {
  }

  lemma SampleOk()
    ensures GraphOk(Sample())
    ensures Refs(Sample()[2]) == [1, 5] && Refs(Sample()[3]) == [2] && Refs(Sample()[4]) == [3]
    ensures Refs(Sample()[5]) == [4, 3]
  {
    hide Refs;
    SampleRefs();
  }

  lemma SampleFollows()
    ensures GraphOk(Sample())
    ensures forall b :: Followed(Sample()[1], b) == [] && Followed(Sample()[2], b) == [(1, b), (5, b)]
    ensures forall b :: Followed(Sample()[3], b) == [(2, b)] && Followed(Sample()[4], b) == [(3, true)]
    ensures Followed(Sample()[5], false) == [(4, false), (3, false)]
  {
    SampleOk();
  }

  // There are chains of references, but no cycles.
  lemma SampleIsAcyclic()
    ensures GraphOk(Sample()) && !HasRefCycle(Sample()) && !HasUnknown(Sample())
  {
    SampleOk();
    var g, fin := Sample(), [2, 3, 4];
    hide Refs, GraphOk;
    forall k, b: nat | 0 <= k < |fin| && RefEdge(g, fin[k], b) ensures b in fin[..k] {
      SampleEdges(fin[k], b);
      assert fin[k - 1] == b && fin[..k][k - 1] == b;
    }
    hide Sample;
    OrderedIsAcyclic(g, fin);
  }

  lemma SampleEdges(a: nat, b: nat)
    requires RefEdge(Sample(), a, b) && 2 <= a <= 4
    ensures b == a - 1 >= 2
  {
    SampleOk();
  }

  // The struct needs itself: it contains what the typedef names, a function that takes it by value.
  lemma SampleHasStrongCycle()
    ensures StrongCycleFrom(Sample(), (5, false)) && !ProtosBehindPointers(Sample(), (5, false))
  {
    SampleFollows();
    var g := Sample();
    var r: seq<Visit> := [(5, false), (3, false), (2, false), (5, false)];
    assert Leads(g, r[0], r[1]) && Leads(g, r[1], r[2]) && Leads(g, r[2], r[3]);
    assert IsStrongCycle(g, (5, false), r, 0);
    assert IsRouteFrom(g, (5, false), r) && g[r[2].0].info.kind.FuncProto?;
  }

  predicate At(s: Progress, states: seq<OrderState>, queue: seq<nat>) {
    s.states == states && s.queue == queue
  }

  // The visits up to the pointer start with the enum ordered or not.
  predicate EnumAt(e: OrderState, queue: seq<nat>) {
    (e.NotOrdered? && queue == []) || (e.Ordered? && queue == [1])
  }

  lemma VisitEnum(s: Progress, x: OrderState, e: OrderState, q: seq<nat>, b: bool, budget: nat)
    requires At(s, [Ordered, e, NotOrdered, NotOrdered, NotOrdered, x], q) && EnumAt(e, q) && budget >= 1
    ensures GraphOk(Sample())
    ensures var (s', r) := Order(Sample(), SampleMarks, s, (1, b), budget);
            At(s', [Ordered, Ordered, NotOrdered, NotOrdered, NotOrdered, x], [1]) && r == 1
  {
    SampleFollows();
    if e.NotOrdered? {
      LeafOrder(Sample(), SampleMarks, s, (1, b), budget);
    }
  }

  // The enum makes the prototype strong; the struct can be declared ahead.
  lemma VisitProto(s: Progress, e: OrderState, q: seq<nat>, budget: nat)
    requires At(s, [Ordered, e, NotOrdered, NotOrdered, NotOrdered, Ordering], q) && EnumAt(e, q) && budget >= 2
    ensures GraphOk(Sample())
    ensures var (s', r) := Order(Sample(), SampleMarks, s, (2, true), budget);
            At(s', [Ordered, Ordered, NotOrdered, NotOrdered, NotOrdered, Ordering], [1]) && r == 1
  {
    SampleFollows();
    hide Followed, GraphOk;
    var g := Sample();
    LinkOrder(g, SampleMarks, s, (2, true), budget);
    VisitEnum(s, Ordering, e, q, true, budget - 1);
    var (s1, r1) := Order(g, SampleMarks, s, (1, true), budget - 1);
    var (s2, r2) := Order(g, SampleMarks, s1, (5, true), budget - 1);
    assert s2 == Seen(s1, 5, false) && r2 == 0;
    hide Order;
    OrderAllTwo(s, (1, true), (5, true), budget - 1);
  }

  lemma OrderAllTwo(s: Progress, v: Visit, w: Visit, budget: nat)
    requires |s.states| == 6 && v.0 < 6 && w.0 < 6 && GraphOk(Sample())
    requires Order(Sample(), SampleMarks, s, v, budget).1 == 1
    ensures var s1 := Order(Sample(), SampleMarks, s, v, budget).0;
            var (s2, r2) := Order(Sample(), SampleMarks, s1, w, budget);
            r2 >= 0 ==> OrderAll(Sample(), SampleMarks, s, [v, w], false, budget) == (s2, 1)
  {
    var s1 := Order(Sample(), SampleMarks, s, v, budget).0;
    var (s2, r2) := Order(Sample(), SampleMarks, s1, w, budget);
    OrderAllSplits(Sample(), SampleMarks, s, [v, w], false, budget);
    assert [v, w][1..] == [w];
    OrderAllSplits(Sample(), SampleMarks, s1, [w], true, budget);
    OrderAllNone(Sample(), SampleMarks, s2, true, budget);
  }

  // So the pointer leaves the typedef ordered.
  lemma VisitPointer(s: Progress, e: OrderState, q: seq<nat>, budget: nat)
    requires At(s, [Ordered, e, NotOrdered, NotOrdered, NotOrdered, Ordering], q) && EnumAt(e, q) && budget >= 4
    ensures GraphOk(Sample())
    ensures var (s', r) := Order(Sample(), SampleMarks, s, (4, false), budget);
            At(s', [Ordered, Ordered, NotOrdered, Ordered, Ordered, Ordering], [1, 3]) && r == 1
  {
    SampleFollows();
    hide Followed, GraphOk, Order;
    var g := Sample();
    VisitProto(s, e, q, budget - 2);
    SingleOrder(g, SampleMarks, s, (3, true), (2, true), budget - 1);
    SingleOrder(g, SampleMarks, s, (4, false), (3, true), budget);
  }

  lemma VisitStruct(s: Progress, e: OrderState, q: seq<nat>, budget: nat)
    requires At(s, [Ordered, e, NotOrdered, NotOrdered, NotOrdered, NotOrdered], q) && EnumAt(e, q) && budget >= 5
    ensures GraphOk(Sample())
    ensures var (s', r) := Order(Sample(), SampleMarks, s, (5, false), budget);
            At(s', [Ordered, Ordered, NotOrdered, Ordered, Ordered, Ordered], [1, 3, 5]) && r == 1
  {
    SampleFollows();
    hide Followed, GraphOk;
    var g := Sample();
    var entered := s.(states := s.states[5 := Ordering]);
    VisitPointer(entered, e, q, budget - 1);
    CompositeOrder(g, SampleMarks, s, (5, false), budget);
    assert MemberVisits(g, 5) == [(4, false), (3, false)];
    var (s1, r1) := Order(g, SampleMarks, entered, (4, false), budget - 1);
    assert Order(g, SampleMarks, s1, (3, false), budget - 1) == (s1, 1);
    hide Order;
    OrderAllTwo(entered, (4, false), (3, false), budget - 1);
  }

  // Although the struct needs itself, it is ordered without an error: the prototype can be visited
  // other than through a pointer.
  lemma StrongCycleMissed()
    ensures var g := Sample();
            GraphOk(g) && SampleMarks == Referenced(g) && !HasRefCycle(g) && !HasUnknown(g) &&
            StrongCycleFrom(g, (5, false)) &&
            !ProtosBehindPointers(g, (5, false)) &&
            var (s, r) := Order(g, SampleMarks, Initial(g), (5, false), Bound(g)); r == 1 && s.queue == [1, 3, 5]
  {
    SampleIsAcyclic();
    SampleMarked();
    hide Referenced;
    SampleHasStrongCycle();
    VisitStruct(Initial(Sample()), NotOrdered, [], Bound(Sample()));
  }

  lemma SampleReturns()
    ensures ReturnsThroughProto(Sample(), 3)
  {
    SampleFollows();
    hide Followed, GraphOk;
    var g := Sample();
    var r: seq<Visit> := [(3, false), (2, false), (5, false), (3, false)];
    assert Leads(g, r[0], r[1]) && Leads(g, r[1], r[2]) && Leads(g, r[2], r[3]);
    assert IsReturn(g, 3, r, 1, 2);
  }

  lemma VisitTypedef(s: Progress, budget: nat)
    requires At(s, [Ordered, NotOrdered, NotOrdered, NotOrdered, NotOrdered, NotOrdered], []) && budget >= 7
    ensures GraphOk(Sample())
    ensures var (s', r) := Order(Sample(), SampleMarks, s, (3, false), budget); r == 1 && s'.queue == [1, 3, 5, 3]
  {
    SampleFollows();
    hide Followed, GraphOk, Order;
    var g := Sample();
    VisitEnum(s, NotOrdered, NotOrdered, [], false, budget - 2);
    var s1 := Order(g, SampleMarks, s, (1, false), budget - 2).0;
    VisitStruct(s1, Ordered, [1], budget - 2);
    OrderAllTwo(s, (1, false), (5, false), budget - 2);
    LinkOrder(g, SampleMarks, s, (2, false), budget - 1);
    SingleOrder(g, SampleMarks, s, (3, false), (2, false), budget);
  }

  // Ordering the typedef first queues it twice: it leads to itself through a prototype and a struct.
  lemma TypedefQueuedTwice()
    ensures var g := Sample();
            GraphOk(g) && SampleMarks == Referenced(g) && !HasRefCycle(g) && !HasUnknown(g) &&
            ReturnsThroughProto(g, 3) &&
            var (s, r) := Order(g, SampleMarks, Initial(g), (3, false), Bound(g)); r == 1 && s.queue == [1, 3, 5, 3]
  {
    SampleIsAcyclic();
    SampleMarked();
    hide Referenced, GraphOk, Order, HasRefCycle, HasUnknown;
    SampleReturns();
    VisitTypedef(Initial(Sample()), Bound(Sample()));
  }
}
