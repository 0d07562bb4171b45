// The traversal that orders C definitions, read as a function: which types need which others to
// be defined first, what a visit does, and what it leaves in the log.

module DumpSteps {
  import opened BtfTypes
  import opened TypeGraph
  import opened RefSteps

  const EINVAL: int := 22
  const ELOOP: int := 40
  // Returned by the function alone, when its budget is used up.
  const OUT_OF_BUDGET: int := -1000

  datatype OrderState = NotOrdered | Ordering | Ordered

  // A type, looked at through a pointer or not.
  type Visit = (nat, bool)

  datatype Mark = Visited(v: Visit) | Defined(x: nat)

  // Per-type states, everything queued so far in this and earlier calls, what has happened so far,
  // and the pointers that were marked although what they point to could not be ordered.
  datatype Progress = Progress(states: seq<OrderState>, queue: seq<nat>, log: seq<Mark>, stale: set<nat>)

  predicate Named(t: BtfType) {
    t.name != 0
  }

  predicate IsModifier(t: BtfType) {
    t.info.kind.Const? || t.info.kind.Volatile? || t.info.kind.Restrict?
  }

  // Types that get a definition of their own.
  predicate IsDefinition(t: BtfType, referenced: bool) {
    (t.IsComposite() && Named(t)) || t.info.kind.Typedef? ||
    ((t.info.kind.Enum? || t.IsFwd()) && (Named(t) || !referenced))
  }

  // A named struct or union behind a pointer can be declared ahead.
  predicate Declarable(t: BtfType, throughPtr: bool) {
    t.IsComposite() && throughPtr && Named(t)
  }

  function Visits(ids: seq<nat>, throughPtr: bool): (vs: seq<Visit>)
    ensures |vs| == |ids| && forall i :: 0 <= i < |ids| ==> vs[i] == (ids[i], throughPtr)
  {
    seq(|ids|, i requires 0 <= i < |ids| => (ids[i], throughPtr))
  }

  // What a visit of a type goes on to visit, in order.
  function Followed(t: BtfType, throughPtr: bool): seq<Visit> {
    if t.info.kind.Ptr? then Visits(Refs(t), true)
    else if t.info.kind.Array? then (if |Refs(t)| == 0 then [] else Visits(Refs(t)[..1], false))
    else if t.IsComposite() then (if Declarable(t, throughPtr) then [] else Visits(Refs(t), false))
    else if t.info.kind.Typedef? || IsModifier(t) || t.info.kind.FuncProto? then Visits(Refs(t), throughPtr)
    else []
  }

  ghost predicate Leads(g: seq<BtfType>, a: Visit, b: Visit) {
    a.0 < |g| && b in Followed(g[a.0], a.1)
  }

  function Marked(s: Progress, x: nat): Progress
    requires x < |s.states|
  {
    s.(states := s.states[x := Ordered])
  }

  // Queues x if it gets a definition.
  function Queued(s: Progress, t: BtfType, referenced: bool, x: nat): Progress {
    if IsDefinition(t, referenced) then s.(queue := s.queue + [x], log := s.log + [Defined(x)]) else s
  }

  // x has been visited through a pointer and, if `strongly`, otherwise as well.
  function Seen(s: Progress, x: nat, strongly: bool): Progress {
    s.(log := s.log + [Visited((x, true))] + if strongly then [Visited((x, false))] else [])
  }

  // How a visit ends for a type that is neither struct nor union, after the visits it leads to
  // have ended with r.
  function Conclude(s: Progress, t: BtfType, referenced: bool, v: Visit, r: int): (Progress, int)
    requires v.0 < |s.states|
  {
    var (x, throughPtr) := v;
    match t.info.kind
    case Ptr =>
      if r < 0 then (Seen(Marked(s, x), x, true).(stale := s.stale + {x}), r) else (Seen(Marked(s, x), x, true), r)
    case Array => if r < 0 then (s, r) else (Seen(s, x, true), r)
    case Typedef =>
      if r < 0 then (s, r)
      else if throughPtr && r == 0 then (Seen(s, x, false), 0)
      else (Seen(Queued(Marked(s, x), t, referenced, x), x, true), 1)
    case Const => if r < 0 then (s, r) else (Seen(s, x, r > 0 || !throughPtr), r)
    case Volatile => if r < 0 then (s, r) else (Seen(s, x, r > 0 || !throughPtr), r)
    case Restrict => if r < 0 then (s, r) else (Seen(s, x, r > 0 || !throughPtr), r)
    case FuncProto => if r < 0 then (s, r) else (Seen(s, x, r > 0 || !throughPtr), r)
    case Enum => (Seen(Queued(Marked(s, x), t, referenced, x), x, true), 1)
    case Fwd => (Seen(Queued(Marked(s, x), t, referenced, x), x, true), 1)
    case Unkn => (s, -EINVAL)
    case _ => (Seen(Marked(s, x), x, true), 0)
  }

  // One visit: 1 if the type must be defined first, 0 if it need not be, negative on error.
  function Order(g: seq<BtfType>, referenced: seq<bool>, s: Progress, v: Visit, budget: nat): (r: (Progress, int))
    requires GraphOk(g) && |s.states| == |g| == |referenced| && v.0 < |g|
    ensures |r.0.states| == |g| && r.1 <= 1
    decreases budget, 0
  {
    var x := v.0;
    var t := g[x];
    if budget == 0 then (s, OUT_OF_BUDGET)
    else if s.states[x].Ordered? then (s, 1)
    else if s.states[x].Ordering? then (if Declarable(t, v.1) then (Seen(s, x, false), 0) else (s, -ELOOP))
    else if t.IsComposite() then
      if Declarable(t, v.1) then (Seen(s, x, false), 0)
      else
        FollowedInRange(g, v);
        var entered := s.(states := s.states[x := Ordering]);
        var (s1, r) := OrderAll(g, referenced, entered, Followed(t, v.1), false, budget - 1);
        if r < 0 then (s1, r) else (Seen(Queued(Marked(s1, x), t, referenced[x], x), x, true), 1)
    else
      FollowedInRange(g, v);
      var (s1, r) := OrderAll(g, referenced, s, Followed(t, v.1), false, budget - 1);
      Conclude(s1, t, referenced[x], v, r)
  }

  // Visits in order, up to the first error: 1 if some type must be defined first.
  function OrderAll(g: seq<BtfType>, referenced: seq<bool>, s: Progress, vs: seq<Visit>, strong: bool, budget: nat)
      : (r: (Progress, int))
    requires GraphOk(g) && |s.states| == |g| == |referenced| && forall w :: w in vs ==> w.0 < |g|
    ensures |r.0.states| == |g| && r.1 <= 1
    decreases budget, |vs| + 1
  {
    if vs == [] then (s, if strong then 1 else 0)
    else
      var (s1, r) := Order(g, referenced, s, vs[0], budget);
      if r < 0 then (s1, r) else OrderAll(g, referenced, s1, vs[1..], strong || r > 0, budget)
  }

  lemma FollowedInRange(g: seq<BtfType>, v: Visit)
    requires GraphOk(g) && v.0 < |g|
    ensures forall w :: w in Followed(g[v.0], v.1) ==> w.0 < |g| && w.0 in Refs(g[v.0])
  {
    assert RefsBelow(g[v.0], |g|);
  }

  // The state before the first call: only void is ordered.
  function Initial(g: seq<BtfType>): Progress {
    Progress(seq(|g|, i => if i == 0 then Ordered else NotOrdered), [], [Visited((0, true)), Visited((0, false))], {})
  }

  lemma InitialInv(g: seq<BtfType>, referenced: seq<bool>)
    requires GraphOk(g) && |referenced| == |g|
    ensures Inv(g, referenced, Initial(g))
  {
    var log := Initial(g).log;
    assert Followed(VOID, true) == [] && Followed(VOID, false) == [];
    assert log[..1] == [Visited((0, true))] && log[..1][..0] == [] && log == log[..1] + [Visited((0, false))];
    assert DefinedOf(log[..1]) == [];
    assert log[..|log| - 1] == log[..1];
  }

  // What has been queued, in order.
  function DefinedOf(log: seq<Mark>): seq<nat> {
    if log == [] then []
    else
      var m := log[|log| - 1];
      DefinedOf(log[..|log| - 1]) + if m.Defined? then [m.x] else []
  }

  // Visits that may end without everything they lead to having been visited: a prototype that was
  // reached through a pointer counts as visited otherwise, too, and a stale pointer counts as visited.
  ghost predicate Exempt(g: seq<BtfType>, stale: set<nat>, v: Visit) {
    v.0 < |g| && ((g[v.0].info.kind.FuncProto? && !v.1) || (g[v.0].info.kind.Ptr? && v.0 in stale))
  }

  // A visit that needs the definition of its type, if there is one.
  predicate NeedsDefinition(t: BtfType, referenced: bool, throughPtr: bool) {
    IsDefinition(t, referenced) && (!throughPtr || t.info.kind.Enum? || t.IsFwd())
  }

  ghost predicate AllVisited(before: seq<Mark>, vs: seq<Visit>) {
    forall w :: w in vs ==> Visited(w) in before
  }

  // One entry of the log: what a visit or a definition needs has happened before.
  ghost predicate MarkOk(g: seq<BtfType>, referenced: seq<bool>, stale: set<nat>, before: seq<Mark>, m: Mark)
    requires |g| == |referenced|
  {
    match m
    case Visited(v) =>
      v.0 < |g| &&
      (!Exempt(g, stale, v) ==> AllVisited(before, Followed(g[v.0], v.1))) &&
      (NeedsDefinition(g[v.0], referenced[v.0], v.1) ==> Defined(v.0) in before)
    case Defined(x) =>
      x < |g| && IsDefinition(g[x], referenced[x]) && AllVisited(before, Followed(g[x], false))
  }

  ghost predicate LogOk(g: seq<BtfType>, referenced: seq<bool>, stale: set<nat>, log: seq<Mark>)
    requires |g| == |referenced|
  {
    forall k :: 0 <= k < |log| ==> MarkOk(g, referenced, stale, log[..k], log[k])
  }

  // A visit that enters a struct or union.
  predicate Enters(t: BtfType, throughPtr: bool) {
    t.IsComposite() && !Declarable(t, throughPtr)
  }

  ghost predicate Inv(g: seq<BtfType>, referenced: seq<bool>, s: Progress) {
    |s.states| == |g| == |referenced| && |g| >= 1 && s.states[0].Ordered? &&
    LogOk(g, referenced, s.stale, s.log) && s.queue == DefinedOf(s.log) && StatesOk(g, s) &&
    RepeatsExplained(g, s.queue)
  }

  ghost predicate StatesOk(g: seq<BtfType>, s: Progress)
    requires |s.states| == |g|
  {
    (forall x :: 0 <= x < |g| && s.states[x].Ordered? ==>
       Visited((x, true)) in s.log && Visited((x, false)) in s.log) &&
    (forall x :: 0 <= x < |g| && s.states[x].Ordering? ==> g[x].IsComposite()) &&
    (forall v: Visit :: v.0 < |g| && Visited(v) in s.log && Enters(g[v.0], v.1) ==> s.states[v.0].Ordered?) &&
    (forall x: nat :: x < |g| && Defined(x) in s.log ==> s.states[x].Ordered?) &&
    (forall x :: x in s.stale ==> x < |g| && s.states[x].Ordered?)
  }

  ghost predicate IsRoute(g: seq<BtfType>, r: seq<Visit>) {
    forall i :: 0 <= i < |r| - 1 ==> Leads(g, r[i], r[i + 1])
  }

  // A typedef leads back to itself, first through a function prototype, not reached through a pointer,
  // and then through a struct or union.
  ghost predicate ReturnsThroughProto(g: seq<BtfType>, x: nat) {
    exists r: seq<Visit>, i, j :: IsReturn(g, x, r, i, j)
  }

  ghost predicate IsReturn(g: seq<BtfType>, x: nat, r: seq<Visit>, i: int, j: int) {
    0 < i < j < |r| - 1 && r[0].0 == x == r[|r| - 1].0 && x < |g| && g[x].info.kind.Typedef? && IsRoute(g, r) &&
    r[i].0 < |g| && g[r[i].0].info.kind.FuncProto? && !r[i].1 && r[j].0 < |g| && g[r[j].0].IsComposite()
  }

  // A type that is queued twice is a typedef of that kind.
  ghost predicate RepeatsExplained(g: seq<BtfType>, queue: seq<nat>) {
    forall i, j :: 0 <= i < j < |queue| && queue[i] == queue[j] ==> ReturnsThroughProto(g, queue[i])
  }

  // A route from v on which a struct or union is entered twice: it would have to be defined before itself.
  ghost predicate StrongCycleFrom(g: seq<BtfType>, v: Visit) {
    exists r, i :: IsStrongCycle(g, v, r, i)
  }

  ghost predicate IsStrongCycle(g: seq<BtfType>, v: Visit, r: seq<Visit>, i: int) {
    0 <= i < |r| - 1 && r[0] == v && IsRoute(g, r) && r[i].0 == r[|r| - 1].0 < |g| &&
    Enters(g[r[i].0], r[|r| - 1].1)
  }

  // No visit on the route is exempt.
  ghost predicate Avoids(g: seq<BtfType>, stale: set<nat>, r: seq<Visit>) {
    forall i :: 0 <= i < |r| ==> !Exempt(g, stale, r[i])
  }

  lemma {:induction false} DefinedMembers(log: seq<Mark>, x: nat)
    ensures x in DefinedOf(log) <==> Defined(x) in log
    decreases |log|
  {
    if log != [] {
      var init := log[..|log| - 1];
      DefinedMembers(init, x);
      assert log == init + [log[|log| - 1]];
    }
  }

  // The j-th queued type was queued at some point of the log, after those before it.
  lemma {:induction false} DefinedPlace(log: seq<Mark>, j: nat) returns (k: nat)
    requires j < |DefinedOf(log)|
    ensures k < |log| && log[k] == Defined(DefinedOf(log)[j]) && DefinedOf(log[..k]) == DefinedOf(log)[..j]
    decreases |log|
  {
    var init := log[..|log| - 1];
    if j < |DefinedOf(init)| {
      k := DefinedPlace(init, j);
      assert init[..k] == log[..k];
    } else {
      k := |log| - 1;
    }
  }

  lemma RouteTail(g: seq<BtfType>, stale: set<nat>, r: seq<Visit>)
    requires IsRoute(g, r) && |r| >= 2 && Avoids(g, stale, r[1..|r| - 1])
    ensures IsRoute(g, r[1..]) && Avoids(g, stale, r[1..][..|r[1..]| - 1])
  {
    forall x | 0 <= x < |r[1..]| - 1 ensures Leads(g, r[1..][x], r[1..][x + 1]) {
      assert Leads(g, r[x + 1], r[x + 1 + 1]);
    }
    assert r[1..][..|r[1..]| - 1] == r[1..|r| - 1];
  }

  lemma AvoidsPart(g: seq<BtfType>, stale: set<nat>, r: seq<Visit>, i: nat, j: nat)
    requires Avoids(g, stale, r) && i <= j <= |r|
    ensures Avoids(g, stale, r[i..j])
  {
    forall x | 0 <= x < |r[i..j]| ensures !Exempt(g, stale, r[i..j][x]) {
      assert r[i..j][x] == r[i + x];
    }
  }

  // What a visit in the log leads to was visited before, unless the visit is exempt.
  lemma VisitedBefore(g: seq<BtfType>, referenced: seq<bool>, stale: set<nat>, log: seq<Mark>, v: Visit, w: Visit,
                      k: nat)
    returns (i: nat)
    requires |g| == |referenced| && LogOk(g, referenced, stale, log) && Leads(g, v, w)
    requires k < |log| && ((log[k] == Visited(v) && !Exempt(g, stale, v)) || (log[k] == Defined(v.0) && !v.1))
    ensures i < k && log[i] == Visited(w)
  {
    assert MarkOk(g, referenced, stale, log[..k], log[k]);
    i :| 0 <= i < k && log[i] == Visited(w);
  }

  // Along a route that avoids exempt visits, what is visited later on the route was visited earlier in time.
  lemma {:induction false} RouteDescends(g: seq<BtfType>, referenced: seq<bool>, stale: set<nat>, log: seq<Mark>,
                                         r: seq<Visit>, k: nat) returns (j: nat)
    requires |g| == |referenced| && LogOk(g, referenced, stale, log) && IsRoute(g, r) && |r| >= 1
    requires Avoids(g, stale, r[..|r| - 1]) && k < |log| && log[k] == Visited(r[0])
    ensures j <= k && log[j] == Visited(r[|r| - 1]) && (|r| >= 2 ==> j < k)
    decreases |r|
  {
    if |r| == 1 {
      return k;
    }
    var init := r[..|r| - 1];
    assert Leads(g, r[0], r[1]) && !Exempt(g, stale, init[0]);
    var i := VisitedBefore(g, referenced, stale, log, r[0], r[1], k);
    AvoidsPart(g, stale, init, 1, |init|);
    assert init[1..] == r[1..|r| - 1];
    RouteTail(g, stale, r);
    j := RouteDescends(g, referenced, stale, log, r[1..], i);
  }

  // What a visit in the log needs has been queued before it.
  lemma NeededDefined(g: seq<BtfType>, referenced: seq<bool>, stale: set<nat>, log: seq<Mark>, v: Visit, k: nat)
    requires |g| == |referenced| && LogOk(g, referenced, stale, log) && k < |log| && log[k] == Visited(v)
    requires v.0 < |g| && NeedsDefinition(g[v.0], referenced[v.0], v.1)
    ensures Defined(v.0) in log[..k]
  {
    assert MarkOk(g, referenced, stale, log[..k], log[k]);
  }

  // Every definition that a queued type needs first was queued before it: those it contains by value,
  // and those contained in an anonymous struct or union behind a pointer.
  lemma QueuedInOrder(g: seq<BtfType>, referenced: seq<bool>, s: Progress, j: nat, r: seq<Visit>)
    requires Inv(g, referenced, s) && j < |s.queue| && |r| >= 2 && r[0] == (s.queue[j], false) && IsRoute(g, r)
    requires Avoids(g, s.stale, r[1..|r| - 1])
    requires var y := r[|r| - 1]; y.0 < |g| && NeedsDefinition(g[y.0], referenced[y.0], y.1)
    ensures r[|r| - 1].0 in s.queue[..j]
  {
    hide StatesOk, RepeatsExplained, LogOk, NeedsDefinition, Leads, Exempt;
    var k := DefinedPlace(s.log, j);
    assert Leads(g, r[0], r[1]);
    var i := VisitedBefore(g, referenced, s.stale, s.log, r[0], r[1], k);
    RouteTail(g, s.stale, r);
    var l := RouteDescends(g, referenced, s.stale, s.log, r[1..], i);
    var y := r[|r| - 1];
    NeededDefined(g, referenced, s.stale, s.log, y, l);
    assert s.log[..l] <= s.log[..k];
    DefinedMembers(s.log[..k], y.0);
  }

  // Every definition that a visited type needs first has been queued.
  lemma NeedsQueued(g: seq<BtfType>, referenced: seq<bool>, s: Progress, r: seq<Visit>)
    requires Inv(g, referenced, s) && |r| >= 1 && Visited(r[0]) in s.log && IsRoute(g, r)
    requires Avoids(g, s.stale, r[..|r| - 1])
    requires var y := r[|r| - 1]; y.0 < |g| && NeedsDefinition(g[y.0], referenced[y.0], y.1)
    ensures r[|r| - 1].0 in s.queue
  {
    var k :| 0 <= k < |s.log| && s.log[k] == Visited(r[0]);
    var j := RouteDescends(g, referenced, s.stale, s.log, r, k);
    NeededDefined(g, referenced, s.stale, s.log, r[|r| - 1], j);
    DefinedMembers(s.log, r[|r| - 1].0);
  }

  // Entering a struct or union leads to the same visits, through a pointer or not.
  lemma EntersAlike(t: BtfType, a: bool, b: bool)
    requires Enters(t, a) && Enters(t, b)
    ensures Followed(t, a) == Followed(t, b)
  {
  }

  // No visited type leads to a strong cycle, unless through an exempt visit.
  lemma {:induction false} VisitedHasNoCycle(g: seq<BtfType>, referenced: seq<bool>, stale: set<nat>, log: seq<Mark>,
                                             r: seq<Visit>, i: nat, k: nat)
    requires |g| == |referenced| && LogOk(g, referenced, stale, log) && |r| >= 1 && Avoids(g, stale, r)
    requires IsStrongCycle(g, r[0], r, i) && k < |log| && log[k] == Visited(r[0])
    ensures false
    decreases k
  {
    hide Followed, Exempt, Enters;
    var n := |r| - 1;
    assert Avoids(g, stale, r[..n]);
    var j := RouteDescends(g, referenced, stale, log, r, k);
    // From the end of the route it goes on as from position i.
    var again := [r[n]] + r[i + 1..];
    assert Enters(g[r[i].0], r[i].1) by {
      assert Leads(g, r[i], r[i + 1]);
      LeadsOnEnters(g[r[i].0], r[i].1, r[n].1);
    }
    EntersAlike(g[r[i].0], r[i].1, r[n].1);
    assert IsRoute(g, again) by {
      forall x | 0 <= x < |again| - 1 ensures Leads(g, again[x], again[x + 1]) {
        assert Leads(g, r[i + x], r[i + x + 1]);
      }
    }
    assert Avoids(g, stale, again) by {
      forall x | 0 <= x < |again| ensures !Exempt(g, stale, again[x]) {
        assert again[x] == if x == 0 then r[n] else r[i + x];
      }
    }
    assert IsStrongCycle(g, again[0], again, 0);
    VisitedHasNoCycle(g, referenced, stale, log, again, 0, j);
  }

  lemma LeadsOnEnters(t: BtfType, a: bool, b: bool)
    requires Enters(t, b) && Followed(t, a) != []
    ensures Enters(t, a)
  {
  }

  // A route through neither pointers nor prototypes.
  ghost predicate ByValue(g: seq<BtfType>, r: seq<Visit>) {
    forall i :: 0 <= i < |r| ==> r[i].0 < |g| && !g[r[i].0].info.kind.Ptr? && !g[r[i].0].info.kind.FuncProto?
  }

  lemma ByValueAvoids(g: seq<BtfType>, stale: set<nat>, r: seq<Visit>)
    requires ByValue(g, r)
    ensures Avoids(g, stale, r)
  {
  }
}
