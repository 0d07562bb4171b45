// What ends up in the queue, said by kind, name and reference count, and what embeds what by value.

module DumpQueue {
  import opened BtfTypes
  import opened TypeGraph
  import opened RefSteps
  import opened DumpSteps
  import opened DumpCases
  import opened DumpOrder
  import opened DumpBudget
  import opened DumpRuns

  // The ids that the type t counts as referring to. The result of a prototype is not among them.
  ghost predicate RefersTo(t: BtfType, x: nat)
    requires RestOk(t)
  {
    match t.info.kind
    case Struct => exists j :: 0 <= j < |t.rest.members| && t.rest.members[j].typ == x
    case Union => exists j :: 0 <= j < |t.rest.members| && t.rest.members[j].typ == x
    case FuncProto => exists j :: 0 <= j < |t.rest.params| && t.rest.params[j].typ == x
    case Datasec => exists j :: 0 <= j < |t.rest.infos| && t.rest.infos[j].typ == x
    case Array => t.rest.elem == x || t.rest.index == x
    case Int => false
    case Enum => false
    case Fwd => false
    case Float => false
    case Unkn => false
    case _ => t.sizeOrType == x
  }

  ghost predicate IsReferredTo(g: seq<BtfType>, n: nat, x: nat)
    requires GraphOk(g) && n <= |g|
  {
    exists y :: 1 <= y < n && RefersTo(g[y], x)
  }

  // Which types some type refers to.
  ghost function Referenced(g: seq<BtfType>): (r: seq<bool>)
    requires GraphOk(g)
    ensures |r| == |g| && forall x :: 0 <= x < |g| ==> (r[x] <==> IsReferredTo(g, |g|, x))
  {
    seq(|g|, x requires 0 <= x < |g| => IsReferredTo(g, |g|, x))
  }

  // Every id of a record counts, except the result of a prototype.
  lemma RefersToExactly(t: BtfType, x: nat)
    requires RestOk(t) && !t.IsFwd()
    ensures RefersTo(t, x) <==> x in if t.info.kind.FuncProto? then Refs(t)[1..] else Refs(t)
  {
    assert |RestRefs(t.rest)| > 0 ==> Refs(t)[|Refs(t)| - |RestRefs(t.rest)|..] == RestRefs(t.rest);
    match t.rest {
      case Members(ms) =>
        assert forall j :: 0 <= j < |ms| ==> RestRefs(t.rest)[j] == ms[j].typ;
      case Params(ps) =>
        assert Refs(t)[1..] == RestRefs(t.rest);
        assert forall j :: 0 <= j < |ps| ==> RestRefs(t.rest)[j] == ps[j].typ;
      case SecInfos(ss) =>
        assert forall j :: 0 <= j < |ss| ==> RestRefs(t.rest)[j] == ss[j].typ;
      case ArrayOf(e, i, _) =>
        assert RestRefs(t.rest) == [e, i];
      case _ =>
    }
  }

  // Types that are declared by themselves: typedefs, named structs and unions, and enums and forward
  // declarations that are named or that no type refers to.
  ghost predicate Declares(g: seq<BtfType>, x: nat)
    requires GraphOk(g)
  {
    x < |g| &&
    match g[x].info.kind
    case Typedef => true
    case Struct => g[x].name != 0
    case Union => g[x].name != 0
    case Enum => g[x].name != 0 || forall y :: 1 <= y < |g| ==> !RefersTo(g[y], x)
    case Fwd => g[x].name != 0 || forall y :: 1 <= y < |g| ==> !RefersTo(g[y], x)
    case _ => false
  }

  lemma DeclaresExactly(g: seq<BtfType>, x: nat)
    requires GraphOk(g) && x < |g|
    ensures Declares(g, x) <==> IsDefinition(g[x], Referenced(g)[x])
  {
  }

  // Exactly the types that are declared by themselves and have been visited other than weakly, through
  // a pointer, are queued.
  lemma QueueExactly(g: seq<BtfType>, s: Progress, x: nat)
    requires GraphOk(g) && Inv(g, Referenced(g), s)
    ensures x in s.queue <==> x < |g| && Visited((x, false)) in s.log && Declares(g, x)
  {
    DefinedMembers(s.log, x);
    if Defined(x) in s.log {
      var k :| 0 <= k < |s.log| && s.log[k] == Defined(x);
      assert MarkOk(g, Referenced(g), s.stale, s.log[..k], s.log[k]);
      DeclaresExactly(g, x);
    }
    if x < |g| && Visited((x, false)) in s.log && Declares(g, x) {
      var k :| 0 <= k < |s.log| && s.log[k] == Visited((x, false));
      DeclaredNeeded(g, x);
      NeededDefined(g, Referenced(g), s.stale, s.log, (x, false), k);
    }
  }

  // Visiting leads from v to type x.
  ghost predicate Reaches(g: seq<BtfType>, v: Visit, x: nat) {
    exists r: seq<Visit> :: IsRouteTo(g, v, r, x)
  }

  ghost predicate IsRouteTo(g: seq<BtfType>, v: Visit, r: seq<Visit>, x: nat) {
    IsRouteFrom(g, v, r) && r[|r| - 1].0 == x
  }

  lemma ReachesItself(g: seq<BtfType>, v: Visit)
    ensures Reaches(g, v, v.0)
  {
    assert IsRouteTo(g, v, [v], v.0);
  }

  lemma ReachesOn(g: seq<BtfType>, v: Visit, w: Visit, x: nat)
    requires Leads(g, v, w) && Reaches(g, w, x)
    ensures Reaches(g, v, x)
  {
    var r: seq<Visit> :| IsRouteTo(g, w, r, x);
    var all := [v] + r;
    forall i | 0 <= i < |all| - 1 ensures Leads(g, all[i], all[i + 1]) {
      if i > 0 {
        assert Leads(g, r[i - 1], r[i - 1 + 1]);
      }
    }
    assert IsRouteTo(g, v, all, x);
  }

  // Visits from s to s' have queued only what they lead to.
  ghost predicate QueuesOnly(g: seq<BtfType>, s: Progress, s': Progress, vs: seq<Visit>) {
    s.queue <= s'.queue &&
    forall i :: |s.queue| <= i < |s'.queue| ==> SomeReaches(g, vs, s'.queue[i])
  }

  ghost predicate SomeReaches(g: seq<BtfType>, vs: seq<Visit>, x: nat) {
    exists w :: w in vs && Reaches(g, w, x)
  }

  lemma QueuesNothing(g: seq<BtfType>, s: Progress, s': Progress, vs: seq<Visit>)
    requires s'.queue == s.queue
    ensures QueuesOnly(g, s, s', vs)
  {
  }

  // What v leads to, and then v itself at most.
  lemma QueuesFurther(g: seq<BtfType>, s: Progress, s1: Progress, s': Progress, v: Visit)
    requires v.0 < |g| && QueuesOnly(g, s, s1, Followed(g[v.0], v.1))
    requires s'.queue == s1.queue || s'.queue == s1.queue + [v.0]
    ensures QueuesOnly(g, s, s', [v])
  {
    forall i | |s.queue| <= i < |s'.queue| ensures SomeReaches(g, [v], s'.queue[i]) {
      assert v in [v];
      if i < |s1.queue| {
        assert SomeReaches(g, Followed(g[v.0], v.1), s1.queue[i]);
        var w :| w in Followed(g[v.0], v.1) && Reaches(g, w, s1.queue[i]);
        ReachesOn(g, v, w, s1.queue[i]);
      } else {
        ReachesItself(g, v);
      }
    }
  }

  lemma QueuesBoth(g: seq<BtfType>, s: Progress, s1: Progress, s2: Progress, vs: seq<Visit>)
    requires vs != [] && QueuesOnly(g, s, s1, [vs[0]]) && QueuesOnly(g, s1, s2, vs[1..])
    ensures QueuesOnly(g, s, s2, vs)
  {
    forall i | |s.queue| <= i < |s2.queue| ensures SomeReaches(g, vs, s2.queue[i]) {
      if i < |s1.queue| {
        assert SomeReaches(g, [vs[0]], s1.queue[i]);
      } else {
        assert SomeReaches(g, vs[1..], s2.queue[i]);
      }
    }
  }

  lemma QueuesFirst(g: seq<BtfType>, s: Progress, s1: Progress, vs: seq<Visit>)
    requires vs != [] && QueuesOnly(g, s, s1, [vs[0]])
    ensures QueuesOnly(g, s, s1, vs)
  {
    forall i | |s.queue| <= i < |s1.queue| ensures SomeReaches(g, vs, s1.queue[i]) {
      assert SomeReaches(g, [vs[0]], s1.queue[i]);
    }
  }

  lemma ConcludeQueue(s: Progress, t: BtfType, referenced: bool, v: Visit, r: int)
    requires v.0 < |s.states|
    ensures Conclude(s, t, referenced, v, r).0.queue in {s.queue, s.queue + [v.0]}
  {
  }

  // A visit queues nothing but what it leads to.
  lemma {:induction false} OrderQueues(g: seq<BtfType>, referenced: seq<bool>, s: Progress, v: Visit, budget: nat)
    requires GraphOk(g) && |s.states| == |g| == |referenced| && v.0 < |g|
    ensures QueuesOnly(g, s, Order(g, referenced, s, v, budget).0, [v])
    decreases budget, 0
  {
    hide Refs, GraphOk, QueuesOnly, Reaches;
    var s' := Order(g, referenced, s, v, budget).0;
    if budget > 0 && s.states[v.0].NotOrdered? && !Declarable(g[v.0], v.1) {
      FollowedInRange(g, v);
      hide Followed;
      var entered := if g[v.0].IsComposite() then s.(states := s.states[v.0 := Ordering]) else s;
      var vs := Followed(g[v.0], v.1);
      OrderAllQueues(g, referenced, entered, vs, false, budget - 1);
      var (s1, r) := OrderAll(g, referenced, entered, vs, false, budget - 1);
      ConcludeQueue(s1, g[v.0], referenced[v.0], v, r);
      hide OrderAll, Conclude;
      assert s'.queue in {s1.queue, s1.queue + [v.0]};
      SameQueue(g, entered, s, s1, vs);
      QueuesFurther(g, s, s1, s', v);
    } else {
      QueuesNothing(g, s, s', [v]);
    }
  }

  lemma SameQueue(g: seq<BtfType>, entered: Progress, s: Progress, s1: Progress, vs: seq<Visit>)
    requires entered.queue == s.queue && QueuesOnly(g, entered, s1, vs)
    ensures QueuesOnly(g, s, s1, vs)
  {
  }

  lemma {:induction false} OrderAllQueues(g: seq<BtfType>, referenced: seq<bool>, s: Progress, vs: seq<Visit>,
                                          strong: bool, budget: nat)
    requires GraphOk(g) && |s.states| == |g| == |referenced| && forall w :: w in vs ==> w.0 < |g|
    ensures QueuesOnly(g, s, OrderAll(g, referenced, s, vs, strong, budget).0, vs)
    decreases budget, |vs| + 1
  {
    hide QueuesOnly, Reaches;
    if vs == [] {
      QueuesNothing(g, s, s, vs);
    } else {
      OrderQueues(g, referenced, s, vs[0], budget);
      var (s1, r) := Order(g, referenced, s, vs[0], budget);
      if r >= 0 {
        OrderAllQueues(g, referenced, s1, vs[1..], strong || r > 0, budget);
        QueuesBoth(g, s, s1, OrderAll(g, referenced, s1, vs[1..], strong || r > 0, budget).0, vs);
      } else {
        QueuesFirst(g, s, s1, vs);
      }
    }
  }

  // Type t holds a value of type y: a member, an element, or what it is another name for.
  ghost predicate HasByValue(t: BtfType, y: nat)
    requires RestOk(t)
  {
    match t.info.kind
    case Struct => exists j :: 0 <= j < |t.rest.members| && t.rest.members[j].typ == y
    case Union => exists j :: 0 <= j < |t.rest.members| && t.rest.members[j].typ == y
    case Array => t.rest.elem == y
    case Typedef => t.sizeOrType == y
    case Const => t.sizeOrType == y
    case Volatile => t.sizeOrType == y
    case Restrict => t.sizeOrType == y
    case _ => false
  }

  // Each type on the path holds a value of the next.
  ghost predicate IsEmbedding(g: seq<BtfType>, p: seq<nat>)
    requires GraphOk(g)
  {
    |p| >= 1 && (forall i :: 0 <= i < |p| ==> p[i] < |g|) &&
    forall i :: 0 <= i < |p| - 1 ==> HasByValue(g[p[i]], p[i + 1])
  }

  ghost predicate Embeds(g: seq<BtfType>, x: nat, y: nat)
    requires GraphOk(g)
  {
    exists p :: |p| >= 2 && p[0] == x && p[|p| - 1] == y && IsEmbedding(g, p)
  }

  // Visits follow values.
  lemma ValueFollowed(t: BtfType, y: nat)
    requires RestOk(t) && HasByValue(t, y)
    ensures (y, false) in Followed(t, false) && !t.info.kind.Ptr? && !t.info.kind.FuncProto?
  {
    var n := |Refs(t)| - |RestRefs(t.rest)|;
    if t.IsComposite() {
      var j :| 0 <= j < |t.rest.members| && t.rest.members[j].typ == y;
      assert Refs(t)[j] == y;
      assert Followed(t, false)[j] == (y, false);
    } else {
      assert Refs(t)[0] == y;
      assert Followed(t, false)[0] == (y, false);
    }
  }

  lemma EmbeddingIsRoute(g: seq<BtfType>, p: seq<nat>)
    requires GraphOk(g) && IsEmbedding(g, p)
    ensures IsRoute(g, Visits(p, false))
    ensures forall stale, i :: 0 <= i < |p| - 1 ==> !Exempt(g, stale, Visits(p, false)[i])
  {
    forall i | 0 <= i < |p| - 1
      ensures Leads(g, Visits(p, false)[i], Visits(p, false)[i + 1])
      ensures !g[p[i]].info.kind.Ptr? && !g[p[i]].info.kind.FuncProto?
    {
      ValueFollowed(g[p[i]], p[i + 1]);
    }
  }

  lemma DeclaredNeeded(g: seq<BtfType>, y: nat)
    requires GraphOk(g) && Declares(g, y)
    ensures NeedsDefinition(g[y], Referenced(g)[y], false)
  {
    DeclaresExactly(g, y);
  }

  // Whatever a visited type embeds is queued, if it is declared by itself.
  lemma EmbeddedQueued(g: seq<BtfType>, s: Progress, x: nat, y: nat)
    requires GraphOk(g) && Inv(g, Referenced(g), s) && Visited((x, false)) in s.log
    requires Embeds(g, x, y) && Declares(g, y)
    ensures y in s.queue
  {
    var p :| |p| >= 2 && p[0] == x && p[|p| - 1] == y && IsEmbedding(g, p);
    EmbeddingIsRoute(g, p);
    DeclaredNeeded(g, y);
    hide Inv, IsEmbedding, NeedsDefinition;
    NeedsQueued(g, Referenced(g), s, Visits(p, false));
  }

  // What a queued type embeds was queued before it.
  lemma EmbeddedBefore(g: seq<BtfType>, s: Progress, j: nat, y: nat)
    requires GraphOk(g) && Inv(g, Referenced(g), s) && j < |s.queue|
    requires Embeds(g, s.queue[j], y) && Declares(g, y)
    ensures y in s.queue[..j]
  {
    var p :| |p| >= 2 && p[0] == s.queue[j] && p[|p| - 1] == y && IsEmbedding(g, p);
    EmbeddingIsRoute(g, p);
    DeclaredNeeded(g, y);
    hide Inv, IsEmbedding, NeedsDefinition;
    QueuedInOrder(g, Referenced(g), s, j, Visits(p, false));
  }

  // A struct or union that embeds itself cannot be ordered, nor can a type that embeds it.
  lemma SelfEmbeddingFails(g: seq<BtfType>, s: Progress, id: nat, x: nat)
    requires GraphOk(g) && !HasRefCycle(g) && !HasUnknown(g) && Inv(g, Referenced(g), s) && id < |g|
    requires x < |g| && g[x].IsComposite() && Embeds(g, x, x) && (id == x || Embeds(g, id, x))
    ensures ByValueCycleFrom(g, id)
  {
    hide Inv, HasRefCycle, HasUnknown;
    var p :| |p| >= 2 && p[0] == x && p[|p| - 1] == x && IsEmbedding(g, p);
    if id == x {
      CycleByValue(g, p, 0);
    } else {
      var q :| |q| >= 2 && q[0] == id && q[|q| - 1] == x && IsEmbedding(g, q);
      var n := |q| - 1;
      var all := q + p[1..];
      forall i | 0 <= i < |all| - 1 ensures HasByValue(g[all[i]], all[i + 1]) {
        if i < n {
          assert HasByValue(g[q[i]], q[i + 1]);
        } else {
          assert HasByValue(g[p[i - n]], p[i - n + 1]);
        }
      }
      CycleByValue(g, all, n);
    }
  }

  lemma CycleByValue(g: seq<BtfType>, p: seq<nat>, i: nat)
    requires GraphOk(g) && IsEmbedding(g, p) && i < |p| - 1 && p[i] == p[|p| - 1] && g[p[i]].IsComposite()
    ensures ByValueCycleFrom(g, p[0])
  {
    EmbeddingIsRoute(g, p);
    var r := Visits(p, false);
    assert IsStrongCycle(g, (p[0], false), r, i);
    forall j | 0 <= j < |r| ensures r[j].0 < |g| && !g[r[j].0].info.kind.Ptr? && !g[r[j].0].info.kind.FuncProto? {
      if j < |p| - 1 {
        ValueFollowed(g[p[j]], p[j + 1]);
      }
    }
    assert ByValue(g, r);
  }

  // The ids that a record holds are among those it refers to.
  lemma RefsAre(t: BtfType)
    requires RestOk(t)
    ensures HoldsType(t.info.kind) ==> t.sizeOrType in Refs(t)
    ensures forall x :: x in RestRefs(t.rest) ==> x in Refs(t)
    ensures t.rest.ArrayOf? ==> t.rest.elem in RestRefs(t.rest) && t.rest.index in RestRefs(t.rest)
    ensures t.rest.Members? ==> forall j :: 0 <= j < |t.rest.members| ==> t.rest.members[j].typ in RestRefs(t.rest)
    ensures t.rest.Params? ==> forall j :: 0 <= j < |t.rest.params| ==> t.rest.params[j].typ in RestRefs(t.rest)
    ensures t.rest.SecInfos? ==> forall j :: 0 <= j < |t.rest.infos| ==> t.rest.infos[j].typ in RestRefs(t.rest)
  {
    assert HoldsType(t.info.kind) ==> Refs(t)[0] == t.sizeOrType;
    RestRefsAre(t.rest);
  }

  lemma RestRefsAre(r: Rest)
    ensures r.ArrayOf? ==> r.elem in RestRefs(r) && r.index in RestRefs(r)
    ensures r.Members? ==> forall j :: 0 <= j < |r.members| ==> r.members[j].typ in RestRefs(r)
    ensures r.Params? ==> forall j :: 0 <= j < |r.params| ==> r.params[j].typ in RestRefs(r)
    ensures r.SecInfos? ==> forall j :: 0 <= j < |r.infos| ==> r.infos[j].typ in RestRefs(r)
  {
    var rs := RestRefs(r);
    match r {
      case Members(ms) =>
        assert forall j :: 0 <= j < |ms| ==> rs[j] == ms[j].typ;
      case Params(ps) =>
        assert forall j :: 0 <= j < |ps| ==> rs[j] == ps[j].typ;
      case SecInfos(ss) =>
        assert forall j :: 0 <= j < |ss| ==> rs[j] == ss[j].typ;
      case ArrayOf(e, i, _) =>
        assert rs == [e, i];
      case _ =>
    }
  }

  // What a call for type id queues: types that are declared by themselves and that id leads to; and,
  // if it succeeds, id and whatever id embeds have been queued, now or earlier.
  lemma CallQueues(g: seq<BtfType>, s: Progress, id: nat)
    requires GraphOk(g) && !HasRefCycle(g) && Inv(g, Referenced(g), s) && id < |g|
    ensures var (s', r) := Order(g, Referenced(g), s, (id, false), Bound(g));
            s.queue <= s'.queue &&
            (forall x :: x in s'.queue[|s.queue|..] ==> Declares(g, x) && Reaches(g, (id, false), x)) &&
            (r >= 0 && Declares(g, id) ==> id in s'.queue) &&
            (r >= 0 ==> forall y :: Embeds(g, id, y) && Declares(g, y) ==> y in s'.queue)
  {
    CallEnds(g, Referenced(g), s, id);
    OrderQueues(g, Referenced(g), s, (id, false), Bound(g));
    hide Order, Inv, HasRefCycle, Embeds, Declares, Reaches;
    var (s', r) := Order(g, Referenced(g), s, (id, false), Bound(g));
    forall x | x in s'.queue[|s.queue|..] ensures Declares(g, x) && Reaches(g, (id, false), x) {
      QueueExactly(g, s', x);
      var i :| |s.queue| <= i < |s'.queue| && s'.queue[i] == x;
      assert SomeReaches(g, [(id, false)], s'.queue[i]);
    }
    QueueExactly(g, s', id);
    if r >= 0 {
      forall y | Embeds(g, id, y) && Declares(g, y) ensures y in s'.queue {
        EmbeddedQueued(g, s', id, y);
      }
    }
  }
}
