// One visit, case by case.

module DumpCases {
  import opened BtfTypes
  import opened TypeGraph
  import opened DumpSteps

  // The remaining visits of a list, as a list.
  lemma OrderAllSplits(g: seq<BtfType>, referenced: seq<bool>, s: Progress, vs: seq<Visit>, strong: bool, budget: nat)
    requires GraphOk(g) && |s.states| == |g| == |referenced| && vs != [] && forall w :: w in vs ==> w.0 < |g|
    ensures var (s1, r) := Order(g, referenced, s, vs[0], budget);
            OrderAll(g, referenced, s, vs, strong, budget) ==
            if r < 0 then (s1, r) else OrderAll(g, referenced, s1, vs[1..], strong || r > 0, budget)
  {
  }

  lemma OrderAllOne(g: seq<BtfType>, referenced: seq<bool>, s: Progress, w: Visit, budget: nat)
    requires GraphOk(g) && |s.states| == |g| == |referenced| && w.0 < |g|
    ensures OrderAll(g, referenced, s, [w], false, budget) == Order(g, referenced, s, w, budget)
  {
    OrderAllSplits(g, referenced, s, [w], false, budget);
  }

  // What a visit of a type that has not been ordered follows, as the cases of the switch see it.
  lemma FollowedCases(g: seq<BtfType>, v: Visit)
    requires GraphOk(g) && v.0 < |g|
    ensures var (t, vs) := (g[v.0], Followed(g[v.0], v.1));
            (forall w :: w in vs ==> w.0 < |g|) &&
            (t.info.kind.Ptr? ==> vs == [(t.sizeOrType, true)]) &&
            (t.info.kind.Array? ==> vs == [(t.rest.elem, false)]) &&
            (t.info.kind.Typedef? || IsModifier(t) ==> vs == [(t.sizeOrType, v.1)]) &&
            (t.IsComposite() && !Declarable(t, v.1) ==> vs == Visits(RestRefs(t.rest), false)) &&
            (t.info.kind.FuncProto? ==> vs == Visits([t.sizeOrType] + RestRefs(t.rest), v.1))
  {
    assert RestOk(g[v.0]);
    FollowedInRange(g, v);
  }

  predicate IsLeaf(k: Kind) {
    k.Int? || k.Float? || k.Func? || k.Var? || k.Datasec? || k.Enum? || k.Fwd?
  }

  predicate IsLink(t: BtfType) {
    t.info.kind.Ptr? || t.info.kind.Array? || t.info.kind.Typedef? || IsModifier(t) || t.info.kind.FuncProto?
  }

  function MemberVisits(g: seq<BtfType>, x: nat): (vs: seq<Visit>)
    requires GraphOk(g) && x < |g| && g[x].IsComposite()
    ensures |vs| == |g[x].rest.members|
    ensures forall j :: 0 <= j < |vs| ==> vs[j] == (g[x].rest.members[j].typ, false) && vs[j].0 < |g|
  {
    assert RestOk(g[x]) && RefsBelow(g[x], |g|);
    assert forall j :: 0 <= j < |RestRefs(g[x].rest)| ==> Refs(g[x])[j] == RestRefs(g[x].rest)[j];
    Visits(RestRefs(g[x].rest), false)
  }

  // The three ways of a visit of a type that has not been ordered.
  lemma LeafOrder(g: seq<BtfType>, referenced: seq<bool>, s: Progress, v: Visit, budget: nat)
    requires GraphOk(g) && |s.states| == |g| == |referenced| && v.0 < |g| && budget > 0
    requires s.states[v.0].NotOrdered? && IsLeaf(g[v.0].info.kind)
    ensures var strong := g[v.0].info.kind.Enum? || g[v.0].IsFwd();
            Order(g, referenced, s, v, budget) ==
            (Seen(Marked(if strong then Queued(s, g[v.0], referenced[v.0], v.0) else s, v.0), v.0, true),
             if strong then 1 else 0)
  {
    assert Followed(g[v.0], v.1) == [];
  }

  lemma CompositeOrder(g: seq<BtfType>, referenced: seq<bool>, s: Progress, v: Visit, budget: nat)
    requires GraphOk(g) && |s.states| == |g| == |referenced| && v.0 < |g| && budget > 0
    requires s.states[v.0].NotOrdered? && g[v.0].IsComposite()
    ensures Order(g, referenced, s, v, budget) ==
            if Declarable(g[v.0], v.1) then (Seen(s, v.0, false), 0)
            else
              var entered := s.(states := s.states[v.0 := Ordering]);
              var (s1, r) := OrderAll(g, referenced, entered, MemberVisits(g, v.0), false, budget - 1);
              if r < 0 then (s1, r) else (Seen(Queued(Marked(s1, v.0), g[v.0], referenced[v.0], v.0), v.0, true), 1)
  {
    FollowedCases(g, v);
  }

  lemma LinkOrder(g: seq<BtfType>, referenced: seq<bool>, s: Progress, v: Visit, budget: nat)
    requires GraphOk(g) && |s.states| == |g| == |referenced| && v.0 < |g| && budget > 0
    requires s.states[v.0].NotOrdered? && IsLink(g[v.0])
    ensures forall w :: w in Followed(g[v.0], v.1) ==> w.0 < |g|
    ensures var (s1, r) := OrderAll(g, referenced, s, Followed(g[v.0], v.1), false, budget - 1);
            Order(g, referenced, s, v, budget) == Conclude(s1, g[v.0], referenced[v.0], v, r)
  {
    FollowedInRange(g, v);
  }

  lemma SingleOrder(g: seq<BtfType>, referenced: seq<bool>, s: Progress, v: Visit, w: Visit, budget: nat)
    requires GraphOk(g) && |s.states| == |g| == |referenced| && v.0 < |g| && budget > 0
    requires s.states[v.0].NotOrdered? && IsLink(g[v.0]) && Followed(g[v.0], v.1) == [w]
    ensures w.0 < |g|
    ensures var (s1, r) := Order(g, referenced, s, w, budget - 1);
            Order(g, referenced, s, v, budget) == Conclude(s1, g[v.0], referenced[v.0], v, r)
  {
    LinkOrder(g, referenced, s, v, budget);
    hide GraphOk, Conclude, Order;
    assert w in Followed(g[v.0], v.1);
    OrderAllOne(g, referenced, s, w, budget - 1);
  }

  lemma OrderAllNone(g: seq<BtfType>, referenced: seq<bool>, s: Progress, strong: bool, budget: nat)
    requires GraphOk(g) && |s.states| == |g| == |referenced|
    ensures OrderAll(g, referenced, s, [], strong, budget) == (s, if strong then 1 else 0)
  {
  }
}
