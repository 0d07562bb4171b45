// What a whole traversal keeps, queues and reports.

module DumpOrder {
  import opened BtfTypes
  import opened TypeGraph
  import opened RefSteps
  import opened DumpSteps

  // The visits of `route` are under way: their structs and unions are being ordered.
  ghost predicate UnderWay(g: seq<BtfType>, s: Progress, route: seq<Visit>) {
    |s.states| == |g| && forall i :: 0 <= i < |route| ==> OnWay(g, s, route[i].0)
  }

  ghost predicate OnWay(g: seq<BtfType>, s: Progress, x: nat) {
    x < |g| == |s.states| && x !in s.stale && (g[x].IsComposite() ==> s.states[x].Ordering?)
  }

  // Types being ordered are on the route.
  ghost predicate OnRoute(g: seq<BtfType>, s: Progress, route: seq<Visit>) {
    forall x :: 0 <= x < |g| && x < |s.states| && s.states[x].Ordering? ==>
      exists i :: 0 <= i < |route| && route[i].0 == x
  }

  // What a visit that succeeds leaves as it was.
  ghost predicate Steady(g: seq<BtfType>, s: Progress, s': Progress) {
    |s.states| == |s'.states| == |g| && s'.stale == s.stale &&
    forall x :: 0 <= x < |g| ==> (s'.states[x].Ordering? <==> s.states[x].Ordering?)
  }

  // The typedefs on the route that have become ordered are explained.
  ghost predicate Returned(g: seq<BtfType>, s: Progress, s': Progress, route: seq<Visit>) {
    forall i :: 0 <= i < |route| && Emerged(g, s, s', route[i].0) ==> ReturnsThroughProto(g, route[i].0)
  }

  ghost predicate Emerged(g: seq<BtfType>, s: Progress, s': Progress, x: nat) {
    x < |g| == |s.states| == |s'.states| && g[x].info.kind.Typedef? && !s.states[x].Ordered? && s'.states[x].Ordered?
  }

  ghost predicate HasUnknown(g: seq<BtfType>) {
    exists x :: 1 <= x < |g| && g[x].info.kind.Unkn?
  }

  // What every visit from s keeps, whatever its result.
  ghost predicate Outcome(g: seq<BtfType>, referenced: seq<bool>, s: Progress, s': Progress, r: int,
                          route: seq<Visit>) {
    Inv(g, referenced, s') && |s'.states| == |g| && s.log <= s'.log && r in {1, 0, -ELOOP, -EINVAL, OUT_OF_BUDGET} &&
    (r >= 0 ==> Steady(g, s, s') && Returned(g, s, s', route))
  }

  // A successful visit is in the log.
  ghost predicate Arrived(s: Progress, v: Visit, r: int) {
    Visited((v.0, true)) in s.log && (r == 1 || !v.1 ==> Visited((v.0, false)) in s.log)
  }

  ghost predicate AllArrived(s: Progress, vs: seq<Visit>) {
    forall w :: w in vs ==> Arrived(s, w, 0)
  }

  lemma LogGrows(g: seq<BtfType>, referenced: seq<bool>, stale: set<nat>, log: seq<Mark>, m: Mark)
    requires |g| == |referenced| && LogOk(g, referenced, stale, log) && MarkOk(g, referenced, stale, log, m)
    ensures LogOk(g, referenced, stale, log + [m])
  {
    var log' := log + [m];
    forall k | 0 <= k < |log'| ensures MarkOk(g, referenced, stale, log'[..k], log'[k]) {
      assert log'[..k] == log[..k];
    }
  }

  lemma LogStales(g: seq<BtfType>, referenced: seq<bool>, stale: set<nat>, log: seq<Mark>, stale': set<nat>)
    requires |g| == |referenced| && LogOk(g, referenced, stale, log) && stale <= stale'
    ensures LogOk(g, referenced, stale', log)
  {
    forall k | 0 <= k < |log| ensures MarkOk(g, referenced, stale', log[..k], log[k]) {
      assert MarkOk(g, referenced, stale, log[..k], log[k]);
    }
  }

  // The marks that the end of a visit adds to the log.
  function Marks(x: nat, queued: bool, strongly: bool): seq<Mark> {
    (if queued then [Defined(x)] else []) + [Visited((x, true))] + (if strongly then [Visited((x, false))] else [])
  }

  function Finished(s: Progress, x: nat, failed: bool, marked: bool, queued: bool, strongly: bool): Progress
    requires x < |s.states|
  {
    Progress(if marked then s.states[x := Ordered] else s.states, if queued then s.queue + [x] else s.queue,
             s.log + Marks(x, queued, strongly), if failed then s.stale + {x} else s.stale)
  }

  ghost predicate VisitReady(g: seq<BtfType>, referenced: seq<bool>, s: Progress, v: Visit, failed: bool, queued: bool)
    requires |g| == |referenced| && v.0 < |g|
  {
    (failed || Exempt(g, s.stale, v) || AllVisited(s.log, Followed(g[v.0], v.1))) &&
    (NeedsDefinition(g[v.0], referenced[v.0], v.1) ==> queued)
  }

  ghost predicate DefinitionReady(g: seq<BtfType>, referenced: seq<bool>, s: Progress, x: nat)
    requires |g| == |referenced| && x < |g|
  {
    IsDefinition(g[x], referenced[x]) && AllVisited(s.log, Followed(g[x], false)) &&
    (x in s.queue ==> ReturnsThroughProto(g, x))
  }

  ghost predicate MayFinish(g: seq<BtfType>, referenced: seq<bool>, s: Progress, x: nat,
                            failed: bool, marked: bool, queued: bool, strongly: bool) {
    |g| == |referenced| == |s.states| && x < |g| && VisitReady(g, referenced, s, (x, true), failed, queued) &&
    (strongly ==> VisitReady(g, referenced, s, (x, false), failed, queued)) &&
    (queued ==> marked && DefinitionReady(g, referenced, s, x)) && (failed ==> marked && g[x].info.kind.Ptr?) &&
    (marked ==> strongly) &&
    (Enters(g[x], true) || (strongly && Enters(g[x], false)) ==> marked)
  }

  lemma FinishLog(g: seq<BtfType>, referenced: seq<bool>, s: Progress, x: nat,
                  failed: bool, marked: bool, queued: bool, strongly: bool)
    requires MayFinish(g, referenced, s, x, failed, marked, queued, strongly)
    requires LogOk(g, referenced, s.stale, s.log)
    ensures var s' := Finished(s, x, failed, marked, queued, strongly); LogOk(g, referenced, s'.stale, s'.log)
  {
    hide Followed, LogOk, Enters, NeedsDefinition, IsDefinition, VisitReady;
    var s' := Finished(s, x, failed, marked, queued, strongly);
    LogStales(g, referenced, s.stale, s.log, s'.stale);
    var log1 := if queued then s.log + [Defined(x)] else s.log;
    if queued {
      assert MarkOk(g, referenced, s'.stale, s.log, Defined(x));
      LogGrows(g, referenced, s'.stale, s.log, Defined(x));
    }
    VisitGrows(g, referenced, s, log1, s'.stale, (x, true), failed, queued);
    var log2 := log1 + [Visited((x, true))];
    if strongly {
      VisitGrows(g, referenced, s, log2, s'.stale, (x, false), failed, queued);
      assert s'.log == log2 + [Visited((x, false))];
    } else {
      assert s'.log == log2;
    }
  }

  lemma MarksDefine(log: seq<Mark>, x: nat, queued: bool, strongly: bool)
    ensures DefinedOf(log + Marks(x, queued, strongly)) == DefinedOf(log) + if queued then [x] else []
  {
    var log1 := if queued then log + [Defined(x)] else log;
    if queued {
      assert log1[..|log1| - 1] == log;
    }
    var log2 := log1 + [Visited((x, true))];
    assert log2[..|log2| - 1] == log1;
    if strongly {
      var log3 := log2 + [Visited((x, false))];
      assert log3[..|log3| - 1] == log2;
      assert log + Marks(x, queued, strongly) == log3;
    } else {
      assert log + Marks(x, queued, strongly) == log2;
    }
  }

  lemma VisitGrows(g: seq<BtfType>, referenced: seq<bool>, s: Progress, log: seq<Mark>, stale: set<nat>, v: Visit,
                   failed: bool, queued: bool)
    requires |g| == |referenced| && v.0 < |g| && VisitReady(g, referenced, s, v, failed, queued)
    requires s.log <= log && (queued ==> Defined(v.0) in log) && s.stale <= stale
    requires failed ==> v.0 in stale && g[v.0].info.kind.Ptr?
    requires LogOk(g, referenced, stale, log)
    ensures LogOk(g, referenced, stale, log + [Visited(v)])
  {
    assert MarkOk(g, referenced, stale, log, Visited(v));
    LogGrows(g, referenced, stale, log, Visited(v));
  }

  lemma FinishStates(g: seq<BtfType>, referenced: seq<bool>, s: Progress, x: nat,
                     failed: bool, marked: bool, queued: bool, strongly: bool)
    requires MayFinish(g, referenced, s, x, failed, marked, queued, strongly) && StatesOk(g, s)
    ensures StatesOk(g, Finished(s, x, failed, marked, queued, strongly))
  {
    hide VisitReady, DefinitionReady, Enters;
    var s' := Finished(s, x, failed, marked, queued, strongly);
    forall v: Visit | v.0 < |g| && Visited(v) in s'.log && Enters(g[v.0], v.1) ensures s'.states[v.0].Ordered? {
      assert Visited(v) in s.log || v == (x, true) || (strongly && v == (x, false));
    }
    forall y: nat | y < |g| && Defined(y) in s'.log ensures s'.states[y].Ordered? {
      assert Defined(y) in s.log || (queued && y == x);
    }
  }

  lemma FinishInv(g: seq<BtfType>, referenced: seq<bool>, s: Progress, x: nat,
                  failed: bool, marked: bool, queued: bool, strongly: bool)
    requires Inv(g, referenced, s) && MayFinish(g, referenced, s, x, failed, marked, queued, strongly)
    ensures Inv(g, referenced, Finished(s, x, failed, marked, queued, strongly))
  {
    FinishLog(g, referenced, s, x, failed, marked, queued, strongly);
    FinishStates(g, referenced, s, x, failed, marked, queued, strongly);
    MarksDefine(s.log, x, queued, strongly);
    hide Marks, LogOk, StatesOk, ReturnsThroughProto, VisitReady, DefinedOf, Enters;
  }

  // The route goes on.
  lemma RouteExtends(g: seq<BtfType>, route: seq<Visit>, a: Visit, b: Visit)
    requires IsRoute(g, route + [a]) && Leads(g, a, b)
    ensures IsRoute(g, route + [a] + [b])
  {
    var all := route + [a] + [b];
    forall i | 0 <= i < |all| - 1 ensures Leads(g, all[i], all[i + 1]) {
      if i < |route| {
        assert Leads(g, (route + [a])[i], (route + [a])[i + 1]);
      }
    }
  }

  // Coming to a struct or union that is being ordered and cannot be declared ahead closes a cycle.
  lemma LoopIsStrong(g: seq<BtfType>, s: Progress, route: seq<Visit>, v: Visit)
    requires OnRoute(g, s, route) && IsRoute(g, route + [v]) && |s.states| == |g|
    requires v.0 < |g| && s.states[v.0].Ordering? && Enters(g[v.0], v.1)
    ensures StrongCycleFrom(g, (route + [v])[0])
  {
    var i :| 0 <= i < |route| && route[i].0 == v.0;
    assert IsStrongCycle(g, (route + [v])[0], route + [v], i);
  }

  // The first struct or union of a route.
  lemma {:induction false} FirstComposite(g: seq<BtfType>, p: seq<Visit>, n: nat) returns (j: nat)
    requires n <= |p| && forall i :: 0 <= i < |p| ==> p[i].0 < |g|
    ensures j <= n && (j < n ==> g[p[j].0].IsComposite()) && forall i :: 0 <= i < j ==> !g[p[i].0].IsComposite()
    decreases n
  {
    if n == 0 {
      return 0;
    }
    j := FirstComposite(g, p, n - 1);
    if j == n - 1 && !g[p[j].0].IsComposite() {
      j := n;
    }
  }

  // A route that comes back without passing through a struct or union is a cycle of reference types.
  lemma LoopIsRefCycle(g: seq<BtfType>, p: seq<Visit>)
    requires GraphOk(g) && IsRoute(g, p) && |p| >= 2 && p[0].0 == p[|p| - 1].0
    requires forall i :: 0 <= i < |p| ==> p[i].0 < |g| && !g[p[i].0].IsComposite()
    ensures HasRefCycle(g)
  {
    var ids := seq(|p|, i requires 0 <= i < |p| => p[i].0);
    forall i | 0 <= i < |ids| - 1 ensures RefEdge(g, ids[i], ids[i + 1]) {
      LeadsOnRef(g, p[i], p[i + 1]);
      if i + 2 < |p| {
        LeadsOnRef(g, p[i + 1], p[i + 1 + 1]);
      } else {
        LeadsOnRef(g, p[0], p[1]);
      }
    }
    assert IsRefCycle(g, ids);
  }

  lemma LeadsOnRef(g: seq<BtfType>, a: Visit, b: Visit)
    requires GraphOk(g) && Leads(g, a, b)
    ensures b.0 < |g| && b.0 in Refs(g[a.0]) && (g[a.0].IsComposite() || g[a.0].IsReference())
  {
    FollowedInRange(g, a);
  }

  lemma RouteFrom(g: seq<BtfType>, route: seq<Visit>, v: Visit, i: nat)
    requires IsRoute(g, route + [v]) && i <= |route|
    ensures IsRoute(g, (route + [v])[i..])
  {
    var all := route + [v];
    var p := all[i..];
    forall x | 0 <= x < |p| - 1 ensures Leads(g, p[x], p[x + 1]) {
      assert Leads(g, all[i + x], all[i + x + 1]);
    }
  }

  // A typedef finished while it is on the route is reached again through a prototype: otherwise the
  // first struct or union after it would have been visited, and finished, without ending its own visit.
  lemma TypedefReturns(g: seq<BtfType>, referenced: seq<bool>, s: Progress, route: seq<Visit>, i: nat, v: Visit, c: nat)
    requires Explored(g, referenced, s, route) && i < |route| && IsRoute(g, route + [v])
    requires route[i].0 == v.0 < |g| && TypedefOf(g, v.0, c) && Visited((c, true)) in s.log &&
             Visited((c, false)) in s.log
    ensures ReturnsThroughProto(g, v.0)
  {
    hide Inv, GraphOk, HasRefCycle, Followed, IsRoute;
    var p := (route + [v])[i..];
    RouteFrom(g, route, v, i);
    forall x | 0 <= x < |p| ensures p[x].0 < |g| && (x < |p| - 1 ==> OnWay(g, s, p[x].0)) {
      assert x < |p| - 1 ==> p[x] == route[i + x];
    }
    var j := FirstComposite(g, p, |p|);
    if j >= |p| - 1 {
      LoopIsRefCycle(g, p);
    }
    if k :| 0 < k < j && g[p[k].0].info.kind.FuncProto? && !p[k].1 {
      assert IsReturn(g, v.0, p, k, j);
    } else {
      StartsAt(g, p, c);
      FirstIsOrdered(g, referenced, s, p[1..], j - 1);
    }
  }

  ghost predicate Explored(g: seq<BtfType>, referenced: seq<bool>, s: Progress, route: seq<Visit>) {
    GraphOk(g) && !HasRefCycle(g) && Inv(g, referenced, s) && UnderWay(g, s, route)
  }

  ghost predicate TypedefOf(g: seq<BtfType>, x: nat, c: nat) {
    x < |g| && g[x].info.kind.Typedef? && forall b :: Followed(g[x], b) == [(c, b)]
  }

  lemma TypedefFollows(g: seq<BtfType>, x: nat) returns (c: nat)
    requires GraphOk(g) && x < |g| && g[x].info.kind.Typedef?
    ensures TypedefOf(g, x, c)
  {
    assert RestOk(g[x]);
    c := Refs(g[x])[0];
  }

  lemma TypedefIn(g: seq<BtfType>, referenced: seq<bool>, s: Progress, route: seq<Visit>, x: nat) returns (c: nat)
    requires Explored(g, referenced, s, route) && x < |g| && g[x].info.kind.Typedef?
    ensures TypedefOf(g, x, c)
  {
    c := TypedefFollows(g, x);
  }

  // A route from a typedef goes on at what the typedef names.
  lemma StartsAt(g: seq<BtfType>, p: seq<Visit>, c: nat)
    requires IsRoute(g, p) && |p| >= 2 && TypedefOf(g, p[0].0, c)
    ensures (p[1] == (c, true) || p[1] == (c, false)) && IsRoute(g, p[1..])
  {
    assert Leads(g, p[0], p[1]);
    forall x | 0 <= x < |p[1..]| - 1 ensures Leads(g, p[1..][x], p[1..][x + 1]) {
      assert Leads(g, p[x + 1], p[x + 1 + 1]);
    }
  }

  // The first struct or union of a route whose start has been visited has been ordered.
  lemma FirstIsOrdered(g: seq<BtfType>, referenced: seq<bool>, s: Progress, p: seq<Visit>, j: nat)
    requires Inv(g, referenced, s) && j + 1 < |p| && IsRoute(g, p) && Visited(p[0]) in s.log
    requires forall x :: 0 <= x <= j ==> OnWay(g, s, p[x].0)
    requires p[j].0 < |g| && g[p[j].0].IsComposite()
    requires forall x :: 0 <= x < j ==> p[x].0 < |g| && (g[p[x].0].info.kind.FuncProto? ==> p[x].1)
    ensures s.states[p[j].0].Ordered?
  {
    assert Enters(g[p[j].0], p[j].1) by {
      assert Leads(g, p[j], p[j + 1]);
    }
    var q := p[..j + 1];
    forall x | 0 <= x < |q| - 1 ensures Leads(g, q[x], q[x + 1]) && !Exempt(g, s.stale, q[x]) {
      assert Leads(g, p[x], p[x + 1]) && OnWay(g, s, p[x].0);
    }
    ReachedIsOrdered(g, referenced, s, q);
  }

  // The struct or union at the end of a route of visits that are not exempt has been ordered.
  lemma ReachedIsOrdered(g: seq<BtfType>, referenced: seq<bool>, s: Progress, q: seq<Visit>)
    requires Inv(g, referenced, s) && |q| >= 1 && IsRoute(g, q) && Visited(q[0]) in s.log
    requires forall x :: 0 <= x < |q| - 1 ==> !Exempt(g, s.stale, q[x])
    requires q[|q| - 1].0 < |g| && Enters(g[q[|q| - 1].0], q[|q| - 1].1)
    ensures s.states[q[|q| - 1].0].Ordered?
  {
    var k :| 0 <= k < |s.log| && s.log[k] == Visited(q[0]);
    var init := q[..|q| - 1];
    assert Avoids(g, s.stale, init) by {
      forall x | 0 <= x < |init| ensures !Exempt(g, s.stale, init[x]) {
        assert init[x] == q[x];
      }
    }
    var j := RouteDescends(g, referenced, s.stale, s.log, q, k);
  }

  // The end of a successful visit, or of a failed one.
  lemma FinishOutcome(g: seq<BtfType>, referenced: seq<bool>, s: Progress, s1: Progress, x: nat, r: int,
                      route: seq<Visit>, v: Visit, failed: bool, marked: bool, queued: bool, strongly: bool, r': int)
    requires Outcome(g, referenced, s, s1, r, route + [v]) && |s.states| == |g|
    requires MayFinish(g, referenced, s1, x, failed, marked, queued, strongly) && !s.states[x].Ordering?
    requires r' in {1, 0, -ELOOP, -EINVAL, OUT_OF_BUDGET} && (r' >= 0 ==> r >= 0 && !failed)
    requires r' >= 0 && marked && g[x].info.kind.Typedef? && x in Ids(route) ==> ReturnsThroughProto(g, x)
    ensures Outcome(g, referenced, s, Finished(s1, x, failed, marked, queued, strongly), r', route)
  {
    hide LogOk, StatesOk, RepeatsExplained, VisitReady, DefinitionReady, Enters, DefinedOf, ReturnsThroughProto;
    FinishInv(g, referenced, s1, x, failed, marked, queued, strongly);
    hide Inv;
    var s' := Finished(s1, x, failed, marked, queued, strongly);
    if r' >= 0 {
      forall i | 0 <= i < |route| && Emerged(g, s, s', route[i].0) ensures ReturnsThroughProto(g, route[i].0) {
        assert (route + [v])[i] == route[i];
      }
    }
  }

  ghost function Ids(route: seq<Visit>): set<nat> {
    set i | 0 <= i < |route| :: route[i].0
  }

  ghost predicate Concludes(g: seq<BtfType>, referenced: seq<bool>, s: Progress, s1: Progress, r: int,
                            route: seq<Visit>, v: Visit) {
    Explored(g, referenced, s, route) && v.0 < |g| == |referenced| == |s.states| == |s1.states| &&
    IsRoute(g, route + [v]) && s.states[v.0].NotOrdered? && !g[v.0].IsComposite() &&
    Outcome(g, referenced, s, s1, r, route + [v]) &&
    (r >= 0 ==> AllArrived(s1, Followed(g[v.0], v.1))) &&
    (r >= 0 && |Followed(g[v.0], v.1)| == 1 ==> Arrived(s1, Followed(g[v.0], v.1)[0], r)) &&
    (Followed(g[v.0], v.1) == [] ==> s1 == s && r == 0)
  }

  // What is queued has been ordered.
  lemma QueuedIsOrdered(g: seq<BtfType>, referenced: seq<bool>, s: Progress, x: nat)
    requires Inv(g, referenced, s) && x < |g| && x in s.queue
    ensures s.states[x].Ordered?
  {
    DefinedMembers(s.log, x);
  }

  lemma UnderWayStays(g: seq<BtfType>, s: Progress, s': Progress, route: seq<Visit>)
    requires UnderWay(g, s, route) && Steady(g, s, s')
    ensures UnderWay(g, s', route)
  {
    forall i | 0 <= i < |route| ensures OnWay(g, s', route[i].0) {
      assert OnWay(g, s, route[i].0);
    }
  }

  // A typedef ends: when it is queued, it has been queued before only if it returns through a prototype.
  lemma TypedefDone(g: seq<BtfType>, referenced: seq<bool>, s: Progress, s1: Progress, r: int, route: seq<Visit>,
                    v: Visit, c: nat)
    requires Concludes(g, referenced, s, s1, r, route, v) && TypedefOf(g, v.0, c) && (r == 1 || (r == 0 && !v.1))
    ensures DefinitionReady(g, referenced, s1, v.0)
    ensures v.0 in Ids(route) ==> ReturnsThroughProto(g, v.0)
    ensures Visited((c, true)) in s1.log && Visited((c, false)) in s1.log
  {
    hide Explored, Inv, Followed, IsRoute, ReturnsThroughProto, Enters;
    var x := v.0;
    assert Arrived(s1, (c, v.1), r);
    if x in s1.queue {
      QueuedIsOrdered(g, referenced, s1, x);
      assert (route + [v])[|route|] == v;
    }
    if x in Ids(route) {
      var i :| 0 <= i < |route| && route[i].0 == x;
      ExploredStays(g, referenced, s, s1, route);
      TypedefReturns(g, referenced, s1, route, i, v, c);
    }
  }

  lemma ExploredStays(g: seq<BtfType>, referenced: seq<bool>, s: Progress, s': Progress, route: seq<Visit>)
    requires Explored(g, referenced, s, route) && Steady(g, s, s') && Inv(g, referenced, s')
    ensures Explored(g, referenced, s', route)
  {
    UnderWayStays(g, s, s', route);
  }

  // What a visit through a pointer follows is followed by any visit, if not through a pointer then otherwise.
  lemma FollowedAlike(t: BtfType, throughPtr: bool, w: Visit)
    requires !t.IsComposite() && w in Followed(t, true)
    ensures w in Followed(t, throughPtr) || (w.1 && (w.0, throughPtr) in Followed(t, throughPtr))
  {
    if IsModifier(t) || t.info.kind.Typedef? || t.info.kind.FuncProto? {
      var i :| 0 <= i < |Refs(t)| && Visits(Refs(t), true)[i] == w;
      assert Visits(Refs(t), throughPtr)[i] == (w.0, throughPtr);
    }
  }

  lemma ThroughVisited(s: Progress, t: BtfType, throughPtr: bool)
    requires !t.IsComposite() && AllArrived(s, Followed(t, throughPtr))
    ensures AllVisited(s.log, Followed(t, true))
  {
    forall w | w in Followed(t, true) ensures Visited(w) in s.log {
      FollowedAlike(t, throughPtr, w);
      if w in Followed(t, throughPtr) {
        assert Arrived(s, w, 0);
        var (x, b) := w;
        assert if b then w == (x, true) else w == (x, false);
      } else {
        assert Arrived(s, (w.0, throughPtr), 0) && w == (w.0, true);
      }
    }
  }

  // Any kind that cannot be queued, or has nothing to wait for, may end.
  lemma OtherReady(g: seq<BtfType>, referenced: seq<bool>, s: Progress, s1: Progress, r: int, route: seq<Visit>,
                   v: Visit, marked: bool, strongly: bool)
    requires Concludes(g, referenced, s, s1, r, route, v) && !g[v.0].info.kind.Typedef? && r >= 0
    requires strongly && !g[v.0].info.kind.FuncProto? ==> AllVisited(s1.log, Followed(g[v.0], false))
    requires marked ==> strongly
    requires IsDefinition(g[v.0], referenced[v.0]) ==> marked && Followed(g[v.0], v.1) == []
    ensures MayFinish(g, referenced, s1, v.0, false, marked, IsDefinition(g[v.0], referenced[v.0]), strongly)
  {
    hide Explored, Inv, IsRoute, ReturnsThroughProto;
    var x := v.0;
    ThroughVisited(s1, g[x], v.1);
    if x in s1.queue {
      QueuedIsOrdered(g, referenced, s1, x);
    }
  }

  // A visit of a kind that is neither struct nor union ends.
  lemma ConcludeDone(g: seq<BtfType>, referenced: seq<bool>, s: Progress, s1: Progress, r: int, route: seq<Visit>,
                     v: Visit)
    requires Concludes(g, referenced, s, s1, r, route, v)
    ensures var (s', r') := Conclude(s1, g[v.0], referenced[v.0], v, r);
            Outcome(g, referenced, s, s', r', route) && (r' >= 0 ==> Arrived(s', v, r')) &&
            (r' < 0 ==> r' == r || (r' == -EINVAL && g[v.0].info.kind.Unkn? && v.0 != 0))
  {
    var kind := g[v.0].info.kind;
    if kind.Typedef? {
      TypedefConcludes(g, referenced, s, s1, r, route, v);
    } else if kind.Ptr? {
      PtrConcludes(g, referenced, s, s1, r, route, v);
    } else if r < 0 || kind.Unkn? {
      Shortened(g, referenced, s, s1, r, route, v);
    } else {
      OtherConcludes(g, referenced, s, s1, r, route, v);
    }
  }

  lemma TypedefConcludes(g: seq<BtfType>, referenced: seq<bool>, s: Progress, s1: Progress, r: int, route: seq<Visit>,
                         v: Visit)
    requires Concludes(g, referenced, s, s1, r, route, v) && g[v.0].info.kind.Typedef?
    ensures var (s', r') := Conclude(s1, g[v.0], referenced[v.0], v, r);
            Outcome(g, referenced, s, s', r', route) && (r' >= 0 ==> Arrived(s', v, r')) && (r' < 0 ==> r' == r)
  {
    hide Explored, Inv, IsRoute, ReturnsThroughProto;
    var (s', r') := Conclude(s1, g[v.0], referenced[v.0], v, r);
    if r < 0 {
      OutcomeFailed(g, referenced, s, s1, r, route, v);
      return;
    }
    var c := TypedefIn(g, referenced, s, route, v.0);
    hide Followed;
    if v.1 && r == 0 {
      assert s' == Finished(s1, v.0, false, false, false, false);
      FinishOutcome(g, referenced, s, s1, v.0, r, route, v, false, false, false, false, 0);
    } else {
      TypedefDone(g, referenced, s, s1, r, route, v, c);
      assert s' == Finished(s1, v.0, false, true, true, true);
      FinishOutcome(g, referenced, s, s1, v.0, r, route, v, false, true, true, true, 1);
    }
  }

  lemma OutcomeFailed(g: seq<BtfType>, referenced: seq<bool>, s: Progress, s1: Progress, r: int, route: seq<Visit>,
                      v: Visit)
    requires Outcome(g, referenced, s, s1, r, route + [v]) && r < 0
    ensures Outcome(g, referenced, s, s1, r, route)
  {
  }

  lemma PtrConcludes(g: seq<BtfType>, referenced: seq<bool>, s: Progress, s1: Progress, r: int, route: seq<Visit>,
                     v: Visit)
    requires Concludes(g, referenced, s, s1, r, route, v) && g[v.0].info.kind.Ptr?
    ensures var (s', r') := Conclude(s1, g[v.0], referenced[v.0], v, r);
            Outcome(g, referenced, s, s', r', route) && (r' >= 0 ==> Arrived(s', v, r')) && r' == r
  {
    hide Explored, Inv, IsRoute, ReturnsThroughProto;
    if r >= 0 {
      ThroughVisited(s1, g[v.0], v.1);
      OtherReady(g, referenced, s, s1, r, route, v, true, true);
    }
    FinishOutcome(g, referenced, s, s1, v.0, r, route, v, r < 0, true, false, true, r);
    var (s', r') := Conclude(s1, g[v.0], referenced[v.0], v, r);
    assert s' == Finished(s1, v.0, r < 0, true, false, true);
  }

  // Visits that end without a mark: of an unknown kind, or with an error.
  lemma Shortened(g: seq<BtfType>, referenced: seq<bool>, s: Progress, s1: Progress, r: int, route: seq<Visit>,
                  v: Visit)
    requires Concludes(g, referenced, s, s1, r, route, v) && (r < 0 || g[v.0].info.kind.Unkn?)
    requires !g[v.0].info.kind.Typedef? && !g[v.0].info.kind.Ptr?
    ensures var (s', r') := Conclude(s1, g[v.0], referenced[v.0], v, r);
            Outcome(g, referenced, s, s', r', route) && r' < 0 &&
            (r' == r || (r' == -EINVAL && g[v.0].info.kind.Unkn? && v.0 != 0))
  {
    hide Explored, Inv, IsRoute, IsDefinition, Arrived, AllArrived, Steady, Returned, Seen, Queued, Marked;
    VoidIsOrdered(g, referenced, s, route);
    if r < 0 {
      OutcomeFailed(g, referenced, s, s1, r, route, v);
    } else {
      OutcomeFails(g, referenced, s, s1, r, route, v);
    }
  }

  lemma OutcomeFails(g: seq<BtfType>, referenced: seq<bool>, s: Progress, s1: Progress, r: int, route: seq<Visit>,
                     v: Visit)
    requires Outcome(g, referenced, s, s1, r, route + [v])
    ensures Outcome(g, referenced, s, s1, -EINVAL, route)
  {
  }

  lemma VoidIsOrdered(g: seq<BtfType>, referenced: seq<bool>, s: Progress, route: seq<Visit>)
    requires Explored(g, referenced, s, route)
    ensures |s.states| >= 1 && s.states[0].Ordered?
  {
  }

  lemma OtherConcludes(g: seq<BtfType>, referenced: seq<bool>, s: Progress, s1: Progress, r: int, route: seq<Visit>,
                       v: Visit)
    requires Concludes(g, referenced, s, s1, r, route, v) && r >= 0
    requires var kind := g[v.0].info.kind; !kind.Typedef? && !kind.Ptr? && !kind.Unkn?
    ensures var (s', r') := Conclude(s1, g[v.0], referenced[v.0], v, r);
            Outcome(g, referenced, s, s', r', route) && r' >= 0 && Arrived(s', v, r')
  {
    hide Explored, Inv, IsRoute, ReturnsThroughProto;
    var t := g[v.0];
    var marked := !t.info.kind.Array? && !IsModifier(t) && !t.info.kind.FuncProto?;
    var strongly := marked || t.info.kind.Array? || r > 0 || !v.1;
    var queued := IsDefinition(t, referenced[v.0]);
    assert marked ==> Followed(t, v.1) == [] && Followed(t, false) == [];
    if strongly && !t.info.kind.FuncProto? {
      StrongVisited(g, referenced, s, s1, r, route, v);
    }
    hide Followed;
    OtherReady(g, referenced, s, s1, r, route, v, marked, strongly);
    hide MayFinish;
    OtherResult(s1, t, referenced[v.0], v, r, marked, queued, strongly);
    var (s', r') := Conclude(s1, t, referenced[v.0], v, r);
    hide IsDefinition, Conclude;
    FinishOutcome(g, referenced, s, s1, v.0, r, route, v, false, marked, queued, strongly, r');
  }

  lemma OtherResult(s: Progress, t: BtfType, referenced: bool, v: Visit, r: int, marked: bool, queued: bool,
                    strongly: bool)
    requires v.0 < |s.states| && r in {0, 1} && queued == IsDefinition(t, referenced) && !t.IsComposite()
    requires !t.info.kind.Typedef? && !t.info.kind.Ptr? && !t.info.kind.Unkn?
    requires marked <==> !t.info.kind.Array? && !IsModifier(t) && !t.info.kind.FuncProto?
    requires strongly <==> marked || t.info.kind.Array? || r > 0 || !v.1
    ensures var (s', r') := Conclude(s, t, referenced, v, r);
            s' == Finished(s, v.0, false, marked, queued, strongly) && r' in {0, 1} && (r' == 1 || !v.1 ==> strongly)
  {
  }

  // After a visit whose result is 1, or that is not through a pointer, what another visit that is
  // not through a pointer would follow has been visited.
  lemma StrongVisited(g: seq<BtfType>, referenced: seq<bool>, s: Progress, s1: Progress, r: int, route: seq<Visit>,
                      v: Visit)
    requires Concludes(g, referenced, s, s1, r, route, v) && r >= 0
    requires var kind := g[v.0].info.kind; !kind.Typedef? && !kind.Ptr? && !kind.FuncProto?
    requires g[v.0].info.kind.Array? || r == 1 || !v.1 || Followed(g[v.0], v.1) == []
    ensures AllVisited(s1.log, Followed(g[v.0], false))
  {
    assert RestOk(g[v.0]);
    hide Inv, IsRoute;
  }
}
