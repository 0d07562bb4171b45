// Whole traversals: what they keep and report, for every graph and every state they start from.

module DumpRuns {
  import opened BtfTypes
  import opened TypeGraph
  import opened RefSteps
  import opened DumpSteps
  import opened DumpOrder
  import opened DumpBudget

  // How a visit of v ends.
  ghost predicate Ends(g: seq<BtfType>, referenced: seq<bool>, s: Progress, route: seq<Visit>, v: Visit, s': Progress,
                       r: int) {
    Outcome(g, referenced, s, s', r, route) && (r >= 0 ==> Arrived(s', v, r)) &&
    (r == -ELOOP && OnRoute(g, s, route) ==> StrongCycleFrom(g, (route + [v])[0])) &&
    (r == -EINVAL ==> HasUnknown(g))
  }

  // How the visits vs, to which the last visit of the route leads, end.
  ghost predicate AllEnd(g: seq<BtfType>, referenced: seq<bool>, s: Progress, route: seq<Visit>, vs: seq<Visit>,
                         s': Progress, r: int) {
    |route| >= 1 && Outcome(g, referenced, s, s', r, route) && (r >= 0 ==> AllArrived(s', vs)) &&
    (r == -ELOOP && OnRoute(g, s, route) ==> StrongCycleFrom(g, route[0])) && (r == -EINVAL ==> HasUnknown(g))
  }

  ghost predicate AllFollow(g: seq<BtfType>, route: seq<Visit>, vs: seq<Visit>) {
    forall w :: w in vs ==> w.0 < |g| && IsRoute(g, route + [w])
  }

  // A visit that changes no state keeps everything.
  lemma Unchanged(g: seq<BtfType>, referenced: seq<bool>, s: Progress, r: int, route: seq<Visit>)
    requires Inv(g, referenced, s) && r in {1, 0, -ELOOP, -EINVAL, OUT_OF_BUDGET}
    ensures Outcome(g, referenced, s, s, r, route)
  {
  }

  // A visit of a type that is ordered or being ordered.
  lemma MarkedEnds(g: seq<BtfType>, referenced: seq<bool>, s: Progress, route: seq<Visit>, v: Visit, budget: nat)
    requires Explored(g, referenced, s, route) && v.0 < |g| == |referenced| == |s.states| && IsRoute(g, route + [v])
    requires budget > 0 && (!s.states[v.0].NotOrdered? || Declarable(g[v.0], v.1))
    ensures var (s', r) := Order(g, referenced, s, v, budget); Ends(g, referenced, s, route, v, s', r)
  {
    MarkedStates(g, referenced, s, v);
    hide Inv, IsRoute, HasRefCycle, GraphOk, Followed, ReturnsThroughProto, StrongCycleFrom;
    var t := g[v.0];
    if s.states[v.0].Ordered? {
      Unchanged(g, referenced, s, 1, route);
    } else if Declarable(t, v.1) {
      assert Finished(s, v.0, false, false, false, false) == Seen(s, v.0, false);
      DeclaredEnds(g, referenced, s, route, v);
    } else {
      Unchanged(g, referenced, s, -ELOOP, route);
      if OnRoute(g, s, route) {
        LoopIsStrong(g, s, route, v);
      }
    }
  }

  lemma MarkedStates(g: seq<BtfType>, referenced: seq<bool>, s: Progress, v: Visit)
    requires Inv(g, referenced, s) && v.0 < |g|
    ensures s.states[v.0].Ordered? ==> Visited((v.0, true)) in s.log && Visited((v.0, false)) in s.log
    ensures s.states[v.0].Ordering? ==> g[v.0].IsComposite()
  {
  }

  // A struct or union that can be declared ahead needs nothing.
  lemma DeclaredInv(g: seq<BtfType>, referenced: seq<bool>, s: Progress, v: Visit)
    requires Inv(g, referenced, s) && v.0 < |g| == |referenced| == |s.states| && Declarable(g[v.0], v.1)
    ensures Inv(g, referenced, Finished(s, v.0, false, false, false, false))
  {
    assert Followed(g[v.0], true) == [];
    FinishInv(g, referenced, s, v.0, false, false, false, false);
  }

  lemma DeclaredEnds(g: seq<BtfType>, referenced: seq<bool>, s: Progress, route: seq<Visit>, v: Visit)
    requires Inv(g, referenced, s) && v.0 < |g| == |referenced| == |s.states| && Declarable(g[v.0], v.1)
    ensures Ends(g, referenced, s, route, v, Finished(s, v.0, false, false, false, false), 0)
  {
    hide LogOk, StatesOk, RepeatsExplained, DefinedOf;
    DeclaredInv(g, referenced, s, v);
    hide Inv, OnRoute, StrongCycleFrom, HasUnknown;
  }

  // Entering a struct or union.
  lemma EnteredExplored(g: seq<BtfType>, referenced: seq<bool>, s: Progress, route: seq<Visit>, v: Visit)
    requires Explored(g, referenced, s, route) && v.0 < |g| == |s.states| && s.states[v.0].NotOrdered? &&
             g[v.0].IsComposite()
    ensures Explored(g, referenced, s.(states := s.states[v.0 := Ordering]), route + [v])
  {
    EnteredInv(g, referenced, s, v.0);
    var s' := s.(states := s.states[v.0 := Ordering]);
    assert OnWay(g, s', v.0);
    forall i | 0 <= i < |route + [v]| ensures OnWay(g, s', (route + [v])[i].0) {
      assert i < |route| ==> OnWay(g, s, route[i].0);
    }
  }

  lemma EnteredInv(g: seq<BtfType>, referenced: seq<bool>, s: Progress, x: nat)
    requires Inv(g, referenced, s) && x < |g| && s.states[x].NotOrdered? && g[x].IsComposite()
    ensures Inv(g, referenced, s.(states := s.states[x := Ordering])) && x !in s.stale
  {
  }

  lemma FollowedExtend(g: seq<BtfType>, route: seq<Visit>, v: Visit)
    requires GraphOk(g) && v.0 < |g| && IsRoute(g, route + [v])
    ensures AllFollow(g, route + [v], Followed(g[v.0], v.1))
  {
    FollowedInRange(g, v);
    forall w | w in Followed(g[v.0], v.1) ensures IsRoute(g, route + [v] + [w]) {
      RouteExtends(g, route, v, w);
    }
  }

  // What holds when the members of a struct or union have been visited.
  ghost predicate MembersEnd(g: seq<BtfType>, referenced: seq<bool>, s: Progress, route: seq<Visit>, v: Visit,
                             s1: Progress, r: int) {
    Explored(g, referenced, s, route) && v.0 < |g| == |referenced| == |s.states| && IsRoute(g, route + [v]) &&
    s.states[v.0].NotOrdered? && Enters(g[v.0], v.1) &&
    AllEnd(g, referenced, s.(states := s.states[v.0 := Ordering]), route + [v], Followed(g[v.0], v.1), s1, r)
  }

  // A member could not be ordered.
  lemma CompositeFails(g: seq<BtfType>, referenced: seq<bool>, s: Progress, route: seq<Visit>, v: Visit, s1: Progress,
                       r: int)
    requires MembersEnd(g, referenced, s, route, v, s1, r) && r < 0
    ensures Ends(g, referenced, s, route, v, s1, r)
  {
    if OnRoute(g, s, route) {
      OnRouteFurther(g, s, route, v);
    }
  }

  // The members have been visited, and the struct or union is finished.
  lemma CompositeEnds(g: seq<BtfType>, referenced: seq<bool>, s: Progress, route: seq<Visit>, v: Visit, s1: Progress,
                      r: int)
    requires MembersEnd(g, referenced, s, route, v, s1, r) && r >= 0
    ensures |s1.states| == |g| &&
            Ends(g, referenced, s, route, v, Seen(Queued(Marked(s1, v.0), g[v.0], referenced[v.0], v.0), v.0, true), 1)
  {
    var entered := s.(states := s.states[v.0 := Ordering]);
    var queued := IsDefinition(g[v.0], referenced[v.0]);
    CompositeFinishes(g, referenced, entered, route + [v], v, s1, r);
    FinishedComposite(g, referenced, s, route, v, s1, queued);
    FinishedIs(s1, g[v.0], referenced[v.0], v.0);
  }

  lemma CompositeDone(g: seq<BtfType>, referenced: seq<bool>, s: Progress, route: seq<Visit>, v: Visit, s1: Progress,
                      r: int)
    requires Explored(g, referenced, s, route) && v.0 < |g| == |referenced| == |s.states| && IsRoute(g, route + [v])
    requires s.states[v.0].NotOrdered? && Enters(g[v.0], v.1)
    requires AllEnd(g, referenced, s.(states := s.states[v.0 := Ordering]), route + [v], Followed(g[v.0], v.1), s1, r)
    ensures |s1.states| == |g|
    ensures if r < 0 then Ends(g, referenced, s, route, v, s1, r)
            else
              var done := Seen(Queued(Marked(s1, v.0), g[v.0], referenced[v.0], v.0), v.0, true);
              Ends(g, referenced, s, route, v, done, 1)
  {
    if r < 0 {
      CompositeFails(g, referenced, s, route, v, s1, r);
    } else {
      CompositeEnds(g, referenced, s, route, v, s1, r);
    }
  }

  lemma FinishedIs(s: Progress, t: BtfType, referenced: bool, x: nat)
    requires x < |s.states|
    ensures Seen(Queued(Marked(s, x), t, referenced, x), x, true) ==
            Finished(s, x, false, true, IsDefinition(t, referenced), true)
  {
  }

  lemma FinishedComposite(g: seq<BtfType>, referenced: seq<bool>, s: Progress, route: seq<Visit>, v: Visit,
                          s1: Progress, queued: bool)
    requires |s.states| == |g| == |referenced| && v.0 < |g| && g[v.0].IsComposite() && s.states[v.0].NotOrdered?
    requires var entered := s.(states := s.states[v.0 := Ordering]);
             Steady(g, entered, s1) && Returned(g, entered, s1, route + [v]) && s.log <= s1.log
    requires Inv(g, referenced, Finished(s1, v.0, false, true, queued, true))
    ensures Ends(g, referenced, s, route, v, Finished(s1, v.0, false, true, queued, true), 1)
  {
    hide Inv, ReturnsThroughProto;
    var entered := s.(states := s.states[v.0 := Ordering]);
    var s' := Finished(s1, v.0, false, true, queued, true);
    forall i | 0 <= i < |route| && Emerged(g, s, s', route[i].0) ensures ReturnsThroughProto(g, route[i].0) {
      assert (route + [v])[i] == route[i];
    }
  }

  lemma CompositeFinishes(g: seq<BtfType>, referenced: seq<bool>, entered: Progress, route: seq<Visit>, v: Visit,
                          s1: Progress, r: int)
    requires v.0 < |g| == |referenced| == |entered.states| && entered.states[v.0].Ordering? && Enters(g[v.0], v.1)
    requires AllEnd(g, referenced, entered, route, Followed(g[v.0], v.1), s1, r) && r >= 0
    ensures Inv(g, referenced, Finished(s1, v.0, false, true, IsDefinition(g[v.0], referenced[v.0]), true))
  {
    hide Inv, Finished, MayFinish;
    CompositeMayFinish(g, referenced, entered, route, v, s1, r);
    hide AllEnd, Enters;
    FinishInv(g, referenced, s1, v.0, false, true, IsDefinition(g[v.0], referenced[v.0]), true);
  }

  lemma CompositeMayFinish(g: seq<BtfType>, referenced: seq<bool>, entered: Progress, route: seq<Visit>, v: Visit,
                           s1: Progress, r: int)
    requires v.0 < |g| == |referenced| == |entered.states| && entered.states[v.0].Ordering? && Enters(g[v.0], v.1)
    requires AllEnd(g, referenced, entered, route, Followed(g[v.0], v.1), s1, r) && r >= 0
    ensures MayFinish(g, referenced, s1, v.0, false, true, IsDefinition(g[v.0], referenced[v.0]), true)
  {
    hide Inv, ReturnsThroughProto, Returned, OnRoute, StrongCycleFrom, HasUnknown;
    var x := v.0;
    if x in s1.queue {
      QueuedIsOrdered(g, referenced, s1, x);
    }
    assert AllVisited(s1.log, Followed(g[x], false)) by {
      EntersAlike(g[x], false, v.1);
      MembersVisited(s1, g[x]);
    }
    assert AllVisited(s1.log, Followed(g[x], true));
  }

  lemma MembersVisited(s: Progress, t: BtfType)
    requires t.IsComposite() && AllArrived(s, Followed(t, false))
    ensures AllVisited(s.log, Followed(t, false))
  {
    forall w | w in Followed(t, false) ensures Visited(w) in s.log {
      assert Arrived(s, w, 0) && w == (w.0, false);
    }
  }

  lemma OnRouteFurther(g: seq<BtfType>, s: Progress, route: seq<Visit>, v: Visit)
    requires OnRoute(g, s, route) && |s.states| == |g| && v.0 < |g|
    ensures OnRoute(g, s, route + [v]) && OnRoute(g, s.(states := s.states[v.0 := Ordering]), route + [v])
  {
    var s' := s.(states := s.states[v.0 := Ordering]);
    var all := route + [v];
    forall x | 0 <= x < |g| && s'.states[x].Ordering? ensures exists i :: 0 <= i < |all| && all[i].0 == x {
      if x == v.0 {
        assert all[|route|] == v;
      } else {
        var i :| 0 <= i < |route| && route[i].0 == x;
        assert all[i] == route[i];
      }
    }
    forall x | 0 <= x < |g| && s.states[x].Ordering? ensures exists i :: 0 <= i < |all| && all[i].0 == x {
      var i :| 0 <= i < |route| && route[i].0 == x;
      assert all[i] == route[i];
    }
  }

  // What a type of another kind refers to has been visited.
  lemma ReferenceEnds(g: seq<BtfType>, referenced: seq<bool>, s: Progress, route: seq<Visit>, v: Visit, s1: Progress,
                      r: int)
    requires Explored(g, referenced, s, route) && v.0 < |g| == |referenced| == |s.states| && IsRoute(g, route + [v])
    requires s.states[v.0].NotOrdered? && !g[v.0].IsComposite()
    requires AllEnd(g, referenced, s, route + [v], Followed(g[v.0], v.1), s1, r)
    requires r >= 0 && |Followed(g[v.0], v.1)| == 1 ==> Arrived(s1, Followed(g[v.0], v.1)[0], r)
    requires Followed(g[v.0], v.1) == [] ==> s1 == s && r == 0
    ensures var (s', r') := Conclude(s1, g[v.0], referenced[v.0], v, r); Ends(g, referenced, s, route, v, s', r')
  {
    ConcludeDone(g, referenced, s, s1, r, route, v);
    if OnRoute(g, s, route) {
      OnRouteFurther(g, s, route, v);
    }
  }

  // Every visit ends like this.
  lemma {:induction false} OrderEnds(g: seq<BtfType>, referenced: seq<bool>, s: Progress, route: seq<Visit>, v: Visit,
                                     budget: nat)
    requires Explored(g, referenced, s, route) && v.0 < |g| == |referenced| == |s.states| && IsRoute(g, route + [v])
    ensures var (s', r) := Order(g, referenced, s, v, budget); Ends(g, referenced, s, route, v, s', r)
    decreases budget, 0
  {
    hide IsRoute, HasRefCycle, Inv, Conclude, Ends, AllEnd;
    if budget == 0 {
      SpentEnds(g, referenced, s, route, v);
    } else if !s.states[v.0].NotOrdered? || Declarable(g[v.0], v.1) {
      MarkedEnds(g, referenced, s, route, v, budget);
    } else {
      FollowedExtend(g, route, v);
      FollowedInRange(g, v);
      var vs := Followed(g[v.0], v.1);
      hide Followed;
      if g[v.0].IsComposite() {
        var entered := s.(states := s.states[v.0 := Ordering]);
        EnteredExplored(g, referenced, s, route, v);
        OrderAllEnds(g, referenced, entered, route + [v], vs, false, budget - 1);
        var (s1, r) := OrderAll(g, referenced, entered, vs, false, budget - 1);
        CompositeDone(g, referenced, s, route, v, s1, r);
      } else {
        ReferenceExplored(g, referenced, s, route, v);
        OrderAllEnds(g, referenced, s, route + [v], vs, false, budget - 1);
        var (s1, r) := OrderAll(g, referenced, s, vs, false, budget - 1);
        ReferenceEnds(g, referenced, s, route, v, s1, r);
      }
    }
  }

  lemma SpentEnds(g: seq<BtfType>, referenced: seq<bool>, s: Progress, route: seq<Visit>, v: Visit)
    requires Inv(g, referenced, s)
    ensures Ends(g, referenced, s, route, v, s, OUT_OF_BUDGET)
  {
    Unchanged(g, referenced, s, OUT_OF_BUDGET, route);
  }

  lemma ReferenceExplored(g: seq<BtfType>, referenced: seq<bool>, s: Progress, route: seq<Visit>, v: Visit)
    requires Explored(g, referenced, s, route) && v.0 < |g| == |s.states| && s.states[v.0].NotOrdered? &&
             !g[v.0].IsComposite()
    ensures Explored(g, referenced, s, route + [v])
  {
    NotStale(g, referenced, s, v.0);
    forall i | 0 <= i < |route + [v]| ensures OnWay(g, s, (route + [v])[i].0) {
      assert i < |route| ==> OnWay(g, s, route[i].0);
    }
  }

  lemma NotStale(g: seq<BtfType>, referenced: seq<bool>, s: Progress, x: nat)
    requires Inv(g, referenced, s) && x < |g| && s.states[x].NotOrdered?
    ensures x !in s.stale
  {
  }

  lemma {:induction false} OrderAllEnds(g: seq<BtfType>, referenced: seq<bool>, s: Progress, route: seq<Visit>,
                                        vs: seq<Visit>, strong: bool, budget: nat)
    requires Explored(g, referenced, s, route) && |g| == |referenced| == |s.states| && |route| >= 1 &&
             AllFollow(g, route, vs)
    ensures var (s', r) := OrderAll(g, referenced, s, vs, strong, budget);
            AllEnd(g, referenced, s, route, vs, s', r) &&
            (r >= 0 && |vs| == 1 && !strong ==> Arrived(s', vs[0], r)) &&
            (vs == [] ==> s' == s && r == if strong then 1 else 0)
    decreases budget, |vs| + 1
  {
    hide IsRoute, HasRefCycle, Inv, Ends;
    if vs == [] {
      NoneEnd(g, referenced, s, route, if strong then 1 else 0);
    } else {
      OrderEnds(g, referenced, s, route, vs[0], budget);
      var (s1, r) := Order(g, referenced, s, vs[0], budget);
      if r < 0 {
        FailedEnd(g, referenced, s, route, vs, s1, r);
      } else {
        FirstEnds(g, referenced, s, route, vs, s1, r);
        OrderAllEnds(g, referenced, s1, route, vs[1..], strong || r > 0, budget);
        var (s2, r2) := OrderAll(g, referenced, s1, vs[1..], strong || r > 0, budget);
        NextEnd(g, referenced, s, route, vs, s1, r, s2, r2);
      }
    }
  }

  lemma NoneEnd(g: seq<BtfType>, referenced: seq<bool>, s: Progress, route: seq<Visit>, r: int)
    requires Inv(g, referenced, s) && |route| >= 1 && 0 <= r <= 1
    ensures AllEnd(g, referenced, s, route, [], s, r)
  {
    Unchanged(g, referenced, s, r, route);
  }

  lemma FailedEnd(g: seq<BtfType>, referenced: seq<bool>, s: Progress, route: seq<Visit>, vs: seq<Visit>,
                  s1: Progress, r: int)
    requires |route| >= 1 && |vs| >= 1 && Ends(g, referenced, s, route, vs[0], s1, r) && r < 0
    ensures AllEnd(g, referenced, s, route, vs, s1, r)
  {
    assert (route + [vs[0]])[0] == route[0];
  }

  lemma FirstEnds(g: seq<BtfType>, referenced: seq<bool>, s: Progress, route: seq<Visit>, vs: seq<Visit>,
                  s1: Progress, r: int)
    requires Explored(g, referenced, s, route) && |vs| >= 1 && Ends(g, referenced, s, route, vs[0], s1, r) && r >= 0
    requires AllFollow(g, route, vs)
    ensures Explored(g, referenced, s1, route) && AllFollow(g, route, vs[1..])
  {
    ExploredStays(g, referenced, s, s1, route);
  }

  lemma NextEnd(g: seq<BtfType>, referenced: seq<bool>, s: Progress, route: seq<Visit>, vs: seq<Visit>, s1: Progress,
                r: int, s2: Progress, r2: int)
    requires |route| >= 1 && |vs| >= 1 && Ends(g, referenced, s, route, vs[0], s1, r) && r >= 0
    requires AllEnd(g, referenced, s1, route, vs[1..], s2, r2)
    ensures AllEnd(g, referenced, s, route, vs, s2, r2)
    ensures r2 >= 0 && |vs| == 1 ==> Arrived(s2, vs[0], r)
  {
    hide Inv, StrongCycleFrom, HasUnknown, ReturnsThroughProto;
    if OnRoute(g, s, route) {
      assert OnRoute(g, s1, route);
    }
    if r2 >= 0 {
      forall w | w in vs ensures Arrived(s2, w, 0) {
        assert w == vs[0] || w in vs[1..];
      }
      forall i | 0 <= i < |route| && Emerged(g, s, s2, route[i].0) ensures ReturnsThroughProto(g, route[i].0) {
        assert Emerged(g, s, s1, route[i].0) || Emerged(g, s1, s2, route[i].0);
      }
    }
  }

  // A state in which no call is under way and none has failed.
  ghost predicate Quiet(g: seq<BtfType>, s: Progress) {
    s.stale == {} && forall x :: 0 <= x < |s.states| ==> !s.states[x].Ordering?
  }

  // A call from outside: what it keeps, and what a loop error or a success says about strong cycles.
  lemma CallEnds(g: seq<BtfType>, referenced: seq<bool>, s: Progress, id: nat)
    requires GraphOk(g) && !HasRefCycle(g) && Inv(g, referenced, s) && id < |g|
    ensures var (s', r) := Order(g, referenced, s, (id, false), Bound(g));
            Inv(g, referenced, s') && s.log <= s'.log && r in {1, 0, -ELOOP, -EINVAL} &&
            (r >= 0 ==> Steady(g, s, s') && Visited((id, false)) in s'.log) && (r == -EINVAL ==> HasUnknown(g)) &&
            (r == -ELOOP && Quiet(g, s) ==> StrongCycleFrom(g, (id, false))) &&
            (r >= 0 ==> forall p, i :: IsStrongCycle(g, (id, false), p, i) ==> !Avoids(g, s.stale, p))
  {
    BoundSuffices(g, referenced, s, (id, false));
    OrderEnds(g, referenced, s, [], (id, false), Bound(g));
    assert [] + [(id, false)] == [(id, false)];
    var (s', r) := Order(g, referenced, s, (id, false), Bound(g));
    if r >= 0 {
      forall p, i | IsStrongCycle(g, (id, false), p, i) ensures !Avoids(g, s.stale, p) {
        if Avoids(g, s.stale, p) {
          LoggedHasNoCycle(g, referenced, s', (id, false), p, i);
        }
      }
    }
  }

  lemma LoggedHasNoCycle(g: seq<BtfType>, referenced: seq<bool>, s: Progress, v: Visit, p: seq<Visit>, i: nat)
    requires Inv(g, referenced, s) && Visited(v) in s.log && IsStrongCycle(g, v, p, i)
    ensures !Avoids(g, s.stale, p)
  {
    if Avoids(g, s.stale, p) {
      var k :| 0 <= k < |s.log| && s.log[k] == Visited(v);
      VisitedHasNoCycle(g, referenced, s.stale, s.log, p, i, k);
    }
  }

  // A type leads, by value alone, to a struct or union that contains itself.
  ghost predicate ByValueCycleFrom(g: seq<BtfType>, id: nat) {
    exists p: seq<Visit>, i :: IsStrongCycle(g, (id, false), p, i) && ByValue(g, p)
  }

  // A cycle by value is an error, in every state and whatever else the graph holds.
  lemma ByValueCycleFails(g: seq<BtfType>, referenced: seq<bool>, s: Progress, id: nat)
    requires GraphOk(g) && !HasRefCycle(g) && !HasUnknown(g) && Inv(g, referenced, s) && id < |g|
    requires ByValueCycleFrom(g, id)
    ensures Order(g, referenced, s, (id, false), Bound(g)).1 == -ELOOP
  {
    CallEnds(g, referenced, s, id);
    var p: seq<Visit>, i :| IsStrongCycle(g, (id, false), p, i) && ByValue(g, p);
    ByValueAvoids(g, s.stale, p);
  }

  // No prototype can be visited from v other than through a pointer.
  ghost predicate ProtosBehindPointers(g: seq<BtfType>, v: Visit) {
    forall p: seq<Visit>, i ::
      (IsRouteFrom(g, v, p) && 0 <= i < |p| && p[i].0 < |g| && g[p[i].0].info.kind.FuncProto? ==> p[i].1)
  }

  ghost predicate IsRouteFrom(g: seq<BtfType>, v: Visit, p: seq<Visit>) {
    |p| >= 1 && p[0] == v && IsRoute(g, p)
  }

  // Exactly the strong cycles are errors, unless a prototype can be visited other than through a pointer.
  lemma LoopsExactly(g: seq<BtfType>, referenced: seq<bool>, s: Progress, id: nat)
    requires GraphOk(g) && !HasRefCycle(g) && !HasUnknown(g) && Inv(g, referenced, s) && id < |g| && Quiet(g, s)
    requires ProtosBehindPointers(g, (id, false))
    ensures Order(g, referenced, s, (id, false), Bound(g)).1 == -ELOOP <==> StrongCycleFrom(g, (id, false))
    ensures Order(g, referenced, s, (id, false), Bound(g)).1 >= 0 <==> !StrongCycleFrom(g, (id, false))
  {
    CallEnds(g, referenced, s, id);
    hide Inv, GraphOk, HasRefCycle, Bound, HasUnknown;
    if p: seq<Visit>, i :| IsStrongCycle(g, (id, false), p, i) {
      assert IsRouteFrom(g, (id, false), p);
      assert Avoids(g, s.stale, p);
    }
  }

  // What is known of the outcome before the call.
  lemma CallDecided(g: seq<BtfType>, referenced: seq<bool>, s: Progress, id: nat)
    requires GraphOk(g) && !HasRefCycle(g) && !HasUnknown(g) && Inv(g, referenced, s) && id < |g|
    ensures var r := Order(g, referenced, s, (id, false), Bound(g)).1;
            r != OUT_OF_BUDGET && r != -EINVAL && (ByValueCycleFrom(g, id) ==> r == -ELOOP) &&
            (Quiet(g, s) && ProtosBehindPointers(g, (id, false)) ==>
               (r == -ELOOP <==> StrongCycleFrom(g, (id, false))))
  {
    hide Order, ProtosBehindPointers, Bound, StrongCycleFrom, IsStrongCycle, ByValueCycleFrom, Inv, GraphOk;
    CallEnds(g, referenced, s, id);
    if Quiet(g, s) && ProtosBehindPointers(g, (id, false)) {
      LoopsExactly(g, referenced, s, id);
    }
    if ByValueCycleFrom(g, id) {
      ByValueCycleFails(g, referenced, s, id);
    }
  }

  lemma ReturnNeedsProto(g: seq<BtfType>, x: nat)
    requires ReturnsThroughProto(g, x)
    ensures x < |g| && g[x].info.kind.Typedef?
    ensures exists b :: !ProtosBehindPointers(g, (x, b))
  {
    var r: seq<Visit>, i, j :| IsReturn(g, x, r, i, j);
    var b := r[0].1;
    assert r[0] == (x, b);
    assert IsRouteFrom(g, (x, b), r);
    assert !ProtosBehindPointers(g, (x, b));
  }

  // Nothing is queued twice, in one call or in several, unless a typedef can lead to a prototype
  // other than through a pointer.
  lemma QueuedOnce(g: seq<BtfType>, referenced: seq<bool>, s: Progress)
    requires Inv(g, referenced, s)
    requires forall x: nat, b :: x < |g| && g[x].info.kind.Typedef? ==> ProtosBehindPointers(g, (x, b))
    ensures forall i, j :: 0 <= i < j < |s.queue| ==> s.queue[i] != s.queue[j]
  {
    forall i, j | 0 <= i < j < |s.queue| ensures s.queue[i] != s.queue[j] {
      if s.queue[i] == s.queue[j] {
        ReturnNeedsProto(g, s.queue[i]);
      }
    }
  }
}
