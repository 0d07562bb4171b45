// How long a traversal can take: a budget that every graph without reference cycles stays within.

module DumpBudget {
  import opened BtfTypes
  import opened TypeGraph
  import opened RefSteps
  import opened DumpSteps
  import opened DumpCases

  // Structs and unions that have not been entered.
  ghost function Unentered(g: seq<BtfType>, states: seq<OrderState>): set<nat>
    requires |states| == |g|
  {
    set x | 0 <= x < |g| && g[x].IsComposite() && states[x].NotOrdered?
  }

  // Reference types entered since the last struct or union: no type twice, so there are at most |g|.
  ghost predicate Chain(g: seq<BtfType>, chain: seq<nat>) {
    IsRefPath(g, chain) && (forall i :: 0 <= i < |chain| ==> chain[i] < |g| && g[chain[i]].IsReference()) &&
    forall i, j :: 0 <= i < j < |chain| ==> chain[i] != chain[j]
  }

  lemma {:induction false} DistinctBelow(chain: seq<nat>, n: nat)
    requires forall i :: 0 <= i < |chain| ==> chain[i] < n
    requires forall i, j :: 0 <= i < j < |chain| ==> chain[i] != chain[j]
    ensures |chain| <= n
  {
    var s := set i | 0 <= i < |chain| :: chain[i];
    SizeOfDistinct(chain);
    SizeBelow(s, n);
  }

  lemma {:induction false} SizeOfDistinct(chain: seq<nat>)
    requires forall i, j :: 0 <= i < j < |chain| ==> chain[i] != chain[j]
    ensures |set i | 0 <= i < |chain| :: chain[i]| == |chain|
    decreases |chain|
  {
    var s := set i | 0 <= i < |chain| :: chain[i];
    if chain != [] {
      var n := |chain| - 1;
      var init := chain[..n];
      SizeOfDistinct(init);
      var t := set i | 0 <= i < |init| :: init[i];
      assert s == t + {chain[n]} by {
        forall x | x in s ensures x in t + {chain[n]} {
          var i :| 0 <= i < |chain| && chain[i] == x;
          assert i < n ==> init[i] == x;
        }
        forall x | x in t ensures x in s {
          var i :| 0 <= i < |init| && init[i] == x;
          assert chain[i] == x;
        }
      }
    }
  }

  lemma {:induction false} SizeBelow(s: set<nat>, n: nat)
    requires forall x :: x in s ==> x < n
    ensures |s| <= n
    decreases n
  {
    if n > 0 {
      SizeBelow(s - {n - 1}, n - 1);
    } else {
      assert s == {};
    }
  }

  // The chain can grow by a reference type that its last one refers to, since there are no cycles.
  lemma ChainExtends(g: seq<BtfType>, chain: seq<nat>, id: nat)
    requires Chain(g, chain) && !HasRefCycle(g) && id < |g| && g[id].IsReference()
    requires chain != [] ==> id in Refs(g[chain[|chain| - 1]])
    ensures Chain(g, chain + [id]) && |chain| < |g|
  {
    RefPathExtends(g, chain, id);
    if id in chain {
      CycleFound(g, chain, id);
    }
    DistinctBelow(chain + [id], |g|);
  }

  // More visits than can ever be nested.
  function Bound(g: seq<BtfType>): nat {
    (|g| + 1) * (|g| + 2)
  }

  ghost predicate Enough(g: seq<BtfType>, s: Progress, chain: seq<nat>, budget: nat)
    requires |s.states| == |g|
  {
    Chain(g, chain) && budget > |Unentered(g, s.states)| * (|g| + 1) + |g| - |chain|
  }

  lemma MarkShrinks(g: seq<BtfType>, states: seq<OrderState>, x: nat, o: OrderState)
    requires |states| == |g| && x < |g| && !o.NotOrdered?
    ensures Unentered(g, states[x := o]) <= Unentered(g, states)
  {
  }

  lemma ConcludeStates(s: Progress, t: BtfType, referenced: bool, v: Visit, r: int)
    requires v.0 < |s.states|
    ensures Conclude(s, t, referenced, v, r).0.states in {s.states, s.states[v.0 := Ordered]}
  {
  }

  lemma {:induction false} OrderShrinks(g: seq<BtfType>, referenced: seq<bool>, s: Progress, v: Visit, budget: nat)
    requires GraphOk(g) && |s.states| == |g| == |referenced| && v.0 < |g|
    ensures Unentered(g, Order(g, referenced, s, v, budget).0.states) <= Unentered(g, s.states)
    decreases budget, 0
  {
    hide Refs, GraphOk, Unentered;
    if budget > 0 && s.states[v.0].NotOrdered? && !Declarable(g[v.0], v.1) {
      FollowedInRange(g, v);
      hide Followed;
      var entered := if g[v.0].IsComposite() then s.(states := s.states[v.0 := Ordering]) else s;
      MarkShrinks(g, s.states, v.0, Ordering);
      var vs := Followed(g[v.0], v.1);
      OrderAllShrinks(g, referenced, entered, vs, false, budget - 1);
      var (s1, r) := OrderAll(g, referenced, entered, vs, false, budget - 1);
      ConcludeStates(s1, g[v.0], referenced[v.0], v, r);
      MarkShrinks(g, s1.states, v.0, Ordered);
      hide OrderAll, Conclude;
      assert Order(g, referenced, s, v, budget).0.states in {s1.states, s1.states[v.0 := Ordered]};
    }
  }

  lemma {:induction false} OrderAllShrinks(g: seq<BtfType>, referenced: seq<bool>, s: Progress, vs: seq<Visit>,
                                           strong: bool, budget: nat)
    requires GraphOk(g) && |s.states| == |g| == |referenced| && forall w :: w in vs ==> w.0 < |g|
    ensures Unentered(g, OrderAll(g, referenced, s, vs, strong, budget).0.states) <= Unentered(g, s.states)
    decreases budget, |vs| + 1
  {
    if vs != [] {
      OrderShrinks(g, referenced, s, vs[0], budget);
      var (s1, r) := Order(g, referenced, s, vs[0], budget);
      if r >= 0 {
        OrderAllShrinks(g, referenced, s1, vs[1..], strong || r > 0, budget);
      }
    }
  }

  lemma {:induction false} OrderEnough(g: seq<BtfType>, referenced: seq<bool>, s: Progress, v: Visit, chain: seq<nat>,
                                       budget: nat)
    requires GraphOk(g) && !HasRefCycle(g) && |s.states| == |g| == |referenced| && v.0 < |g| &&
             Enough(g, s, chain, budget)
    requires chain != [] ==> chain[|chain| - 1] < |g| && v.0 in Refs(g[chain[|chain| - 1]])
    ensures Order(g, referenced, s, v, budget).1 != OUT_OF_BUDGET
    decreases budget, 0
  {
    hide Refs, HasRefCycle, Enough, Chain, GraphOk, Conclude, Order, OrderAll, Followed, MemberVisits, Unentered;
    ChainLength(g, s, chain, budget);
    var t := g[v.0];
    if !s.states[v.0].NotOrdered? || Declarable(t, v.1) || t.info.kind.Unkn? {
      ShortResult(g, referenced, s, v, budget);
    } else if t.IsComposite() {
      EnteredEnough(g, s, v.0, chain, budget);
      var entered := s.(states := s.states[v.0 := Ordering]);
      CompositeOrder(g, referenced, s, v, budget);
      OrderAllEnough(g, referenced, entered, MemberVisits(g, v.0), false, [], budget - 1);
    } else if IsLink(t) {
      LinkOrder(g, referenced, s, v, budget);
      LinkIsReference(t);
      ReferenceEnough(g, s, v.0, chain, budget);
      FollowedInRange(g, v);
      var vs := Followed(t, v.1);
      OrderAllEnough(g, referenced, s, vs, false, chain + [v.0], budget - 1);
      var (s1, r) := OrderAll(g, referenced, s, vs, false, budget - 1);
      ConcludeResult(s1, t, referenced[v.0], v, r);
    } else {
      LeafOrder(g, referenced, s, v, budget);
    }
  }

  // Visits that go no further.
  lemma ShortResult(g: seq<BtfType>, referenced: seq<bool>, s: Progress, v: Visit, budget: nat)
    requires GraphOk(g) && |s.states| == |g| == |referenced| && v.0 < |g| && budget > 0
    requires !s.states[v.0].NotOrdered? || Declarable(g[v.0], v.1) || g[v.0].info.kind.Unkn?
    ensures Order(g, referenced, s, v, budget).1 != OUT_OF_BUDGET
  {
    hide GraphOk, Refs;
  }

  lemma LinkIsReference(t: BtfType)
    requires IsLink(t)
    ensures t.IsReference()
  {
  }

  lemma ChainLength(g: seq<BtfType>, s: Progress, chain: seq<nat>, budget: nat)
    requires |s.states| == |g| && Enough(g, s, chain, budget)
    ensures |chain| <= |g| && budget >= 1 && forall i :: 0 <= i < |chain| ==> chain[i] < |g|
  {
    DistinctBelow(chain, |g|);
  }

  lemma ReferenceEnough(g: seq<BtfType>, s: Progress, x: nat, chain: seq<nat>, budget: nat)
    requires |s.states| == |g| && x < |g| && g[x].IsReference() && Enough(g, s, chain, budget) && !HasRefCycle(g)
    requires forall i :: 0 <= i < |chain| ==> chain[i] < |g|
    requires chain != [] ==> x in Refs(g[chain[|chain| - 1]])
    ensures budget >= 1 && Enough(g, s, chain + [x], budget - 1)
  {
    ChainExtends(g, chain, x);
  }

  lemma EnteredEnough(g: seq<BtfType>, s: Progress, x: nat, chain: seq<nat>, budget: nat)
    requires |s.states| == |g| && x < |g| && g[x].IsComposite() && s.states[x].NotOrdered? &&
             Enough(g, s, chain, budget)
    ensures budget >= 1 && Enough(g, s.(states := s.states[x := Ordering]), [], budget - 1)
  {
    DistinctBelow(chain, |g|);
    var u := Unentered(g, s.states);
    var u' := Unentered(g, s.states[x := Ordering]);
    assert u' == u - {x};
    assert |u| * (|g| + 1) == |u'| * (|g| + 1) + (|g| + 1);
  }

  lemma {:induction false} OrderAllEnough(g: seq<BtfType>, referenced: seq<bool>, s: Progress, vs: seq<Visit>,
                                          strong: bool, chain: seq<nat>, budget: nat)
    requires GraphOk(g) && !HasRefCycle(g) && |s.states| == |g| == |referenced| && Enough(g, s, chain, budget)
    requires chain != [] ==> chain[|chain| - 1] < |g|
    requires forall w :: w in vs ==> w.0 < |g| && (chain != [] ==> w.0 in Refs(g[chain[|chain| - 1]]))
    ensures OrderAll(g, referenced, s, vs, strong, budget).1 != OUT_OF_BUDGET
    decreases budget, |vs| + 1
  {
    if vs != [] {
      OrderEnough(g, referenced, s, vs[0], chain, budget);
      var (s1, r) := Order(g, referenced, s, vs[0], budget);
      if r >= 0 {
        OrderShrinks(g, referenced, s, vs[0], budget);
        StillEnough(g, s, s1, chain, budget);
        OrderAllEnough(g, referenced, s1, vs[1..], strong || r > 0, chain, budget);
      }
    }
  }

  lemma StillEnough(g: seq<BtfType>, s: Progress, s1: Progress, chain: seq<nat>, budget: nat)
    requires |s.states| == |s1.states| == |g| && Enough(g, s, chain, budget)
    requires Unentered(g, s1.states) <= Unentered(g, s.states)
    ensures Enough(g, s1, chain, budget)
  {
    var u, u1 := Unentered(g, s.states), Unentered(g, s1.states);
    assert u == u1 + (u - u1);
    Product(|u1|, |u|, |g| + 1);
  }

  lemma Product(a: nat, b: nat, n: nat)
    requires a <= b
    ensures a * n <= b * n
  {
  }

  lemma ConcludeResult(s: Progress, t: BtfType, referenced: bool, v: Visit, r: int)
    requires v.0 < |s.states|
    ensures Conclude(s, t, referenced, v, r).1 in {r, 0, 1, -EINVAL}
  {
  }

  // The bound is enough for any state.
  lemma BoundEnough(g: seq<BtfType>, s: Progress)
    requires |s.states| == |g|
    ensures Enough(g, s, [], Bound(g))
  {
    var u := Unentered(g, s.states);
    SizeBelow(u, |g|);
    Product(|u|, |g|, |g| + 1);
  }

  lemma BoundSuffices(g: seq<BtfType>, referenced: seq<bool>, s: Progress, v: Visit)
    requires GraphOk(g) && !HasRefCycle(g) && |s.states| == |g| == |referenced| && v.0 < |g|
    ensures Order(g, referenced, s, v, Bound(g)).1 != OUT_OF_BUDGET
  {
    BoundEnough(g, s);
    OrderEnough(g, referenced, s, v, [], Bound(g));
  }
}
