// The ordering half of the C dumper: a depth-first traversal that queues definitions.

module Dumper {
  import opened BtfTypes
  import opened TypeGraph
  import opened RefSteps
  import opened DumpSteps
  import opened DumpCases
  import opened DumpOrder
  import opened DumpBudget
  import opened DumpRuns
  import opened DumpQueue

  class Dumper {
    const g: seq<BtfType>
    // Which types some other type refers to.
    const referenced: seq<bool>
    const states: array<OrderState>
    var queue: seq<nat>
    // What earlier calls have queued, and what the visits so far have done.
    ghost var earlier: seq<nat>
    ghost var log: seq<Mark>
    ghost var stale: set<nat>

    ghost function View(): Progress
      reads this, states
    {
      Progress(states[..], earlier + queue, log, stale)
    }

    ghost predicate Sized() {
      GraphOk(g) && states.Length == |g| == |referenced|
    }

    ghost predicate Valid()
      reads this, states
    {
      Sized() && !HasRefCycle(g) && !HasUnknown(g) && referenced == Referenced(g) && Inv(g, referenced, View())
    }

    constructor (g: seq<BtfType>, referenced: seq<bool>)
      requires GraphOk(g) && !HasRefCycle(g) && !HasUnknown(g) && referenced == Referenced(g)
      ensures Valid() && View() == Initial(g) && this.g == g && fresh(states)
    {
      this.g, this.referenced := g, referenced;
      queue, earlier := [], [];
      log, stale := Initial(g).log, {};
      states := new OrderState[|g|](i => if i == 0 then Ordered else NotOrdered);
      new;
      InitialInv(g, referenced);
      assert states[..] == Initial(g).states;
    }

    // Queues a type if it is a definition.
    method Enqueue(id: nat)
      requires Sized() && id < |g|
      modifies this`queue, this`log
      ensures earlier == old(earlier) && View() == Queued(old(View()), g[id], referenced[id], id)
    {
      if IsDefinition(g[id], referenced[id]) {
        queue := queue + [id];
        log := log + [Defined(id)];
      }
      assert View().queue == Queued(old(View()), g[id], referenced[id], id).queue;
    }

    method MarkOrdered(id: nat)
      requires Sized() && id < |g|
      modifies states
      ensures View() == Marked(old(View()), id)
    {
      states[id] := Ordered;
    }

    // Records a visit in the log.
    ghost method See(id: nat, strongly: bool)
      modifies this`log
      ensures View() == Seen(old(View()), id, strongly)
    {
      log := log + [Visited((id, true))] + if strongly then [Visited((id, false))] else [];
    }

    // Orders what type id needs, and then id: 1 if it must be defined first, 0 if it need not be,
    // negative on error.
    method OrderType(id: nat, throughPtr: bool, ghost budget: nat) returns (r: int)
      requires Sized() && id < |g| && Order(g, referenced, View(), (id, throughPtr), budget).1 != OUT_OF_BUDGET
      modifies states, this`queue, this`log, this`stale
      ensures (View(), r) == old(Order(g, referenced, View(), (id, throughPtr), budget))
      decreases budget, 1
    {
      if states[id].Ordered? {
        return 1;
      }
      var t := g[id];
      if states[id].Ordering? {
        if t.IsComposite() && throughPtr && Named(t) {
          See(id, false);
          return 0;
        }
        return -ELOOP;
      }
      FollowedCases(g, (id, throughPtr));
      hide GraphOk, Followed;
      match t.info.kind {
        case Struct =>
          r := OrderComposite(id, throughPtr, budget);
        case Union =>
          r := OrderComposite(id, throughPtr, budget);
        case Unkn =>
          r := -EINVAL;
        case Ptr =>
          r := OrderPtr(id, throughPtr, budget);
        case Typedef =>
          r := OrderTypedef(id, throughPtr, budget);
        case Array =>
          r := OrderArray(id, throughPtr, budget);
        case Const =>
          r := OrderModifier(id, throughPtr, budget);
        case Volatile =>
          r := OrderModifier(id, throughPtr, budget);
        case Restrict =>
          r := OrderModifier(id, throughPtr, budget);
        case FuncProto =>
          r := OrderPrototype(id, throughPtr, budget);
        case _ =>
          r := OrderLeaf(id, throughPtr, budget);
      }
    }

    // Scalars, functions and variables are only marked; enums and declarations are queued.
    method OrderLeaf(id: nat, throughPtr: bool, ghost budget: nat) returns (r: int)
      requires Sized() && id < |g| && states[id].NotOrdered? && IsLeaf(g[id].info.kind) && budget > 0
      modifies states, this`queue, this`log
      ensures (View(), r) == old(Order(g, referenced, View(), (id, throughPtr), budget))
    {
      LeafOrder(g, referenced, View(), (id, throughPtr), budget);
      r := 0;
      if g[id].info.kind.Enum? || g[id].IsFwd() {
        Enqueue(id);
        r := 1;
      }
      MarkOrdered(id);
      See(id, true);
    }

    // A struct or union needs its members, unless it can be declared ahead.
    method OrderComposite(id: nat, throughPtr: bool, ghost budget: nat) returns (r: int)
      requires Sized() && id < |g| && states[id].NotOrdered? && g[id].IsComposite()
      requires Order(g, referenced, View(), (id, throughPtr), budget).1 != OUT_OF_BUDGET
      modifies states, this`queue, this`log, this`stale
      ensures (View(), r) == old(Order(g, referenced, View(), (id, throughPtr), budget))
      decreases budget, 0
    {
      CompositeOrder(g, referenced, View(), (id, throughPtr), budget);
      hide Order, GraphOk;
      if throughPtr && Named(g[id]) {
        See(id, false);
        return 0;
      }
      states[id] := Ordering;
      r := OrderMembers(id, budget - 1);
      if r < 0 {
        return;
      }
      if Named(g[id]) {
        Enqueue(id);
      }
      MarkOrdered(id);
      See(id, true);
      r := 1;
    }

    // Visits the members of a struct or union, up to the first error.
    method OrderMembers(id: nat, ghost budget: nat) returns (r: int)
      requires Sized() && id < |g| && g[id].IsComposite()
      requires OrderAll(g, referenced, View(), MemberVisits(g, id), false, budget).1 != OUT_OF_BUDGET
      modifies states, this`queue, this`log, this`stale
      ensures var (s, all) := old(OrderAll(g, referenced, View(), MemberVisits(g, id), false, budget));
              View() == s && (r < 0 || all < 0 ==> r == all)
      decreases budget, 2
    {
      var members := g[id].rest.members;
      ghost var vs := MemberVisits(g, id);
      ghost var strong := false;
      for j := 0 to |members|
        invariant OrderAll(g, referenced, View(), vs[j..], strong, budget) ==
                  old(OrderAll(g, referenced, View(), vs, false, budget))
      {
        OrderAllSplits(g, referenced, View(), vs[j..], strong, budget);
        assert vs[j..][1..] == vs[j + 1..];
        r := OrderType(members[j].typ, false, budget);
        if r < 0 {
          return;
        }
        strong := strong || r > 0;
      }
      r := 0;
    }

    // A pointer is marked even if what it points to cannot be ordered.
    method OrderPtr(id: nat, throughPtr: bool, ghost budget: nat) returns (r: int)
      requires Sized() && id < |g| && states[id].NotOrdered? && g[id].info.kind.Ptr?
      requires Order(g, referenced, View(), (id, throughPtr), budget).1 != OUT_OF_BUDGET
      modifies states, this`queue, this`log, this`stale
      ensures (View(), r) == old(Order(g, referenced, View(), (id, throughPtr), budget))
      decreases budget, 0
    {
      var t := g[id];
      FollowedCases(g, (id, throughPtr));
      SingleOrder(g, referenced, View(), (id, throughPtr), (t.sizeOrType, true), budget);
      hide Order, GraphOk;
      r := OrderType(t.sizeOrType, true, budget - 1);
      MarkOrdered(id);
      See(id, true);
      if r < 0 {
        stale := stale + {id};
      }
    }

    // A typedef is queued unless what it names can be declared ahead.
    method OrderTypedef(id: nat, throughPtr: bool, ghost budget: nat) returns (r: int)
      requires Sized() && id < |g| && states[id].NotOrdered? && g[id].info.kind.Typedef?
      requires Order(g, referenced, View(), (id, throughPtr), budget).1 != OUT_OF_BUDGET
      modifies states, this`queue, this`log, this`stale
      ensures (View(), r) == old(Order(g, referenced, View(), (id, throughPtr), budget))
      decreases budget, 0
    {
      var t := g[id];
      FollowedCases(g, (id, throughPtr));
      SingleOrder(g, referenced, View(), (id, throughPtr), (t.sizeOrType, throughPtr), budget);
      hide Order, GraphOk;
      r := OrderType(t.sizeOrType, throughPtr, budget - 1);
      if r < 0 {
        return;
      }
      if throughPtr && r == 0 {
        See(id, false);
        return 0;
      }
      Enqueue(id);
      MarkOrdered(id);
      See(id, true);
      r := 1;
    }

    method OrderArray(id: nat, throughPtr: bool, ghost budget: nat) returns (r: int)
      requires Sized() && id < |g| && states[id].NotOrdered? && g[id].info.kind.Array?
      requires Order(g, referenced, View(), (id, throughPtr), budget).1 != OUT_OF_BUDGET
      modifies states, this`queue, this`log, this`stale
      ensures (View(), r) == old(Order(g, referenced, View(), (id, throughPtr), budget))
      decreases budget, 0
    {
      var t := g[id];
      FollowedCases(g, (id, throughPtr));
      SingleOrder(g, referenced, View(), (id, throughPtr), (t.rest.elem, false), budget);
      r := OrderType(t.rest.elem, false, budget - 1);
      if r >= 0 {
        See(id, true);
      }
    }

    // Modifiers are never marked, like arrays.
    method OrderModifier(id: nat, throughPtr: bool, ghost budget: nat) returns (r: int)
      requires Sized() && id < |g| && states[id].NotOrdered? && IsModifier(g[id])
      requires Order(g, referenced, View(), (id, throughPtr), budget).1 != OUT_OF_BUDGET
      modifies states, this`queue, this`log, this`stale
      ensures (View(), r) == old(Order(g, referenced, View(), (id, throughPtr), budget))
      decreases budget, 0
    {
      var t := g[id];
      FollowedCases(g, (id, throughPtr));
      hide Followed;
      SingleOrder(g, referenced, View(), (id, throughPtr), (t.sizeOrType, throughPtr), budget);
      hide Order, GraphOk;
      r := OrderType(t.sizeOrType, throughPtr, budget - 1);
      if r >= 0 {
        See(id, r > 0 || !throughPtr);
      }
    }

    // Function prototypes are never marked either.
    method OrderPrototype(id: nat, throughPtr: bool, ghost budget: nat) returns (r: int)
      requires Sized() && id < |g| && states[id].NotOrdered? && g[id].info.kind.FuncProto?
      requires Order(g, referenced, View(), (id, throughPtr), budget).1 != OUT_OF_BUDGET
      modifies states, this`queue, this`log, this`stale
      ensures (View(), r) == old(Order(g, referenced, View(), (id, throughPtr), budget))
      decreases budget, 0
    {
      LinkOrder(g, referenced, View(), (id, throughPtr), budget);
      hide Order, OrderAll, Followed, GraphOk;
      r := OrderSignature(id, throughPtr, budget - 1);
      if r >= 0 {
        See(id, r > 0 || !throughPtr);
      }
    }

    // A prototype needs its result first and then its parameters; it must be defined first if one
    // of them must.
    method OrderSignature(id: nat, throughPtr: bool, ghost budget: nat) returns (r: int)
      requires Sized() && id < |g| && g[id].info.kind.FuncProto?
      requires OrderAll(g, referenced, View(), Followed(g[id], throughPtr), false, budget).1 != OUT_OF_BUDGET
      modifies states, this`queue, this`log, this`stale
      ensures (View(), r) == old(OrderAll(g, referenced, View(), Followed(g[id], throughPtr), false, budget))
      decreases budget, 2
    {
      hide OrderAll, Order, Followed;
      FollowedCases(g, (id, throughPtr));
      hide GraphOk;
      var params := g[id].rest.params;
      ghost var vs := Followed(g[id], throughPtr);
      ghost var entry := View();
      OrderAllSplits(g, referenced, entry, vs, false, budget);
      r := OrderType(g[id].sizeOrType, throughPtr, budget);
      if r < 0 {
        return;
      }
      var isStrong := r > 0;
      for j := 0 to |params|
        invariant OrderAll(g, referenced, View(), vs[j + 1..], isStrong, budget) ==
                  OrderAll(g, referenced, entry, vs, false, budget)
      {
        OrderAllSplits(g, referenced, View(), vs[j + 1..], isStrong, budget);
        assert vs[j + 1..][1..] == vs[j + 1 + 1..];
        r := OrderType(params[j].typ, throughPtr, budget);
        if r < 0 {
          return;
        }
        if r > 0 {
          isStrong := true;
        }
      }
      OrderAllNone(g, referenced, View(), isStrong, budget);
      assert vs[|params| + 1..] == [];
      return if isStrong then 1 else 0;
    }

    // Orders everything that the definition of type id needs: it succeeds unless the definition leads to
    // a strong cycle, and it fails for every strong cycle if prototypes are only visited through pointers.
    method DumpType(id: nat) returns (err: int)
      requires Valid()
      modifies states, this
      ensures Valid() && earlier == old(earlier + queue) && old(log) <= log && err in {0, -ELOOP, -EINVAL}
      ensures id >= |g| ==> err == -EINVAL && View() == old(View())
      ensures id < |g| ==> err != -EINVAL && Traversed(old(View()), id, err)
      ensures err == 0 ==> id < |g| && Steady(g, old(View()), View()) && Visited((id, false)) in log
      ensures err == 0 && Declares(g, id) ==> id in earlier + queue
      ensures err == 0 ==> forall y :: Embeds(g, id, y) && Declares(g, y) ==> y in earlier + queue
      ensures id < |g| ==> forall x :: x in queue ==> Declares(g, x) && Reaches(g, (id, false), x)
      ensures err == -ELOOP && Quiet(g, old(View())) ==> StrongCycleFrom(g, (id, false))
      ensures err == 0 ==> forall p, i :: IsStrongCycle(g, (id, false), p, i) ==> !Avoids(g, stale, p)
      ensures id < |g| && Quiet(g, old(View())) && ProtosBehindPointers(g, (id, false)) ==>
              (err == -ELOOP <==> StrongCycleFrom(g, (id, false)))
      ensures id < |g| && ByValueCycleFrom(g, id) ==> err == -ELOOP
    {
      earlier := earlier + queue;
      queue := [];
      assert earlier + queue == old(earlier + queue);
      if id >= |g| {
        return -EINVAL;
      }
      CallEnds(g, referenced, View(), id);
      hide Inv, Order, GraphOk, HasRefCycle, StrongCycleFrom, IsStrongCycle, ProtosBehindPointers,
        HasUnknown, ByValueCycleFrom, Embeds, Declares, Reaches, Quiet, Steady, Avoids, Bound;
      CallDecided(g, referenced, View(), id);
      CallQueues(g, View(), id);
      err := OrderType(id, false, Bound(g));
      if err >= 0 {
        err := 0;
      }
    }

    // The state after a call is that of one traversal from s, and err is its error, if any.
    ghost predicate Traversed(s: Progress, id: nat, err: int)
      reads this, states
    {
      Sized() && |s.states| == |g| && id < |g| &&
      var (s', r) := Order(g, referenced, s, (id, false), Bound(g)); View() == s' && err == if r < 0 then r else 0
    }
  }

  // Marks what the members of a type refer to; it fails for an unknown kind.
  method MarkType(t: BtfType, marks: array<bool>) returns (err: int)
    requires RestOk(t) && RefsBelow(t, marks.Length)
    modifies marks
    ensures err == if t.info.kind.Unkn? then -EINVAL else 0
    ensures forall x :: 0 <= x < marks.Length ==> (marks[x] <==> old(marks[x]) || RefersTo(t, x))
  {
    RefsAre(t);
    match t.info.kind {
      case Int =>
      case Enum =>
      case Fwd =>
      case Float =>
      case Array =>
        marks[t.rest.index] := true;
        marks[t.rest.elem] := true;
      case Struct =>
        MarkMembers(t.rest.members, marks);
      case Union =>
        MarkMembers(t.rest.members, marks);
      case FuncProto =>
        for j := 0 to |t.rest.params|
          invariant forall x :: 0 <= x < marks.Length ==>
                      (marks[x] <==> old(marks[x]) || exists i :: 0 <= i < j && t.rest.params[i].typ == x)
        {
          marks[t.rest.params[j].typ] := true;
        }
      case Datasec =>
        for j := 0 to |t.rest.infos|
          invariant forall x :: 0 <= x < marks.Length ==>
                      (marks[x] <==> old(marks[x]) || exists i :: 0 <= i < j && t.rest.infos[i].typ == x)
        {
          marks[t.rest.infos[j].typ] := true;
        }
      case Unkn =>
        return -EINVAL;
      case _ =>
        marks[t.sizeOrType] := true;
    }
    err := 0;
  }

  method MarkMembers(members: seq<Member>, marks: array<bool>)
    requires forall j :: 0 <= j < |members| ==> members[j].typ < marks.Length
    modifies marks
    ensures forall x :: 0 <= x < marks.Length ==>
              (marks[x] <==> old(marks[x]) || exists i :: 0 <= i < |members| && members[i].typ == x)
  {
    for j := 0 to |members|
      invariant forall x :: 0 <= x < marks.Length ==>
                  (marks[x] <==> old(marks[x]) || exists i :: 0 <= i < j && members[i].typ == x)
    {
      marks[members[j].typ] := true;
    }
  }

  // Marks every type that some type refers to.
  method MarkReferenced(g: seq<BtfType>, marks: array<bool>) returns (err: int)
    requires GraphOk(g) && marks.Length == |g| && forall x :: 0 <= x < |g| ==> !marks[x]
    modifies marks
    ensures err == if HasUnknown(g) then -EINVAL else 0
    ensures err == 0 ==> marks[..] == Referenced(g)
  {
    hide RefersTo;
    for i := 1 to |g|
      invariant forall x :: 0 <= x < |g| ==> (marks[x] <==> IsReferredTo(g, i, x))
      invariant forall y :: 1 <= y < i ==> !g[y].info.kind.Unkn?
    {
      err := MarkType(g[i], marks);
      if err != 0 {
        return;
      }
    }
    err := 0;
  }

  // A dumper for a graph; there is none if some kind is unknown.
  method NewDumper(g: seq<BtfType>) returns (err: int, d: Dumper?)
    requires GraphOk(g) && !HasRefCycle(g)
    ensures err == if HasUnknown(g) then -EINVAL else 0
    ensures err == 0 ==> d != null && fresh(d) && fresh(d.states) && d.g == g && d.Valid() && d.View() == Initial(g)
  {
    var marks := new bool[|g|](_ => false);
    err := MarkReferenced(g, marks);
    d := null;
    if err == 0 {
      d := new Dumper(g, marks[..]);
    }
  }
}
