// The deduplication of a BTF type graph: the passes over primitive, composite and
// reference types, and the compaction and renumbering that follow.

module Dedup {
  import opened BtfTypes
  import opened BtfCompare
  import opened TypeGraph
  import opened Definitions
  import opened CanonMap
  import opened Hashmap
  import opened DedupState
  import opened HypotMap
  import opened DedupSteps
  import opened PrimSteps
  import opened StructSteps
  import opened RefSteps
  import opened Renumber
  import opened Quotient

  const EINVAL: int := 22
  const ELOOP: int := 40
  // Type ids of a BTF without a base start here; 0 is void.
  const START_ID: nat := 1

  class Dedup {
    const types: array<BtfType>
    const canonMap: array<nat>
    const hypotMap: array<nat>
    var hypotList: seq<nat>
    var hypotAdjustCanon: bool
    const dontResolveFwds: bool
    // The names whose definitions are not compared: those declared in the input, with resolution on.
    ghost const d: Names
    const table: Hashmap<nat, nat>
    ghost var rank: seq<nat>

    ghost function Snap(): Snapshot
      reads this, types, canonMap, table
    {
      Snapshot(types[..], canonMap[..], rank, table.Entries())
    }

    ghost predicate TableReady()
      reads table
    {
      table.Valid() && table.KeysOk() && Single(table.Entries()) && forall a, b :: table.equalFn(a, b) <==> a == b
    }

    // The arrays are distinct and of one length, and their contents are well formed.
    ghost predicate Valid()
      reads this, types, canonMap, hypotMap, table
    {
      canonMap != hypotMap && types.Length == canonMap.Length == hypotMap.Length && TableReady() &&
      Forest(canonMap[..], rank) && StateOk(Snap()) && HypState(hypotList, hypotMap[..], types.Length) &&
      !hypotAdjustCanon
    }

    // Merging has kept every meaning so far, up to the declared names.
    ghost predicate Faithful()
      reads this, types, canonMap
    {
      d == NamesFor(types[..], dontResolveFwds) && MeaningKept(d, types[..], canonMap[..])
    }

    // Starts with every VAR and DATASEC standing for itself and all else unprocessed.
    constructor (types: array<BtfType>, dontResolveFwds: bool, collideAll: bool)
      requires GraphOk(types[..]) && types.Length <= BTF_MAX_NR_TYPES + 1
      ensures this.types == types && this.dontResolveFwds == dontResolveFwds
      ensures fresh(canonMap) && fresh(hypotMap) && fresh(table)
      ensures Valid() && Faithful() && NothingSet(hypotMap[..])
      ensures table.Entries() == multiset{} && canonMap[..] == InitialMap(types[..])
    {
      this.types := types;
      this.dontResolveFwds := dontResolveFwds;
      d := NamesFor(types[..], dontResolveFwds);
      canonMap := new nat[types.Length];
      hypotMap := new nat[types.Length];
      hypotList := [];
      hypotAdjustCanon := false;
      hide GraphOk, Base, TableInv, ClassKept, MeaningKept, InitialMap, NamesFor;
      table := new Hashmap((k: nat) => if collideAll then 0 else k, (a: nat, b: nat) => a == b);
      rank := seq(types.Length, i => 0);
      new;
      assert TableReady();
      hide TableReady, Single;
      InitCanonMap();
      InitHypotMap();
      InitialHyp(hypotMap[..]);
      InitialMapOk(d, Snap());
      assert Forest(canonMap[..], rank);
      hide StateOk, HypState, NothingSet, Forest;
    }

    method InitCanonMap()
      requires types.Length == canonMap.Length > 0
      modifies canonMap
      ensures canonMap[..] == InitialMap(types[..])
    {
      canonMap[0] := 0;
      for i := 1 to types.Length
        invariant forall c :: 0 <= c < i ==> canonMap[c] == InitialMap(types[..])[c]
      {
        if types[i].IsVarOrDatasec() {
          canonMap[i] := i;
        } else {
          canonMap[i] := BTF_UNPROCESSED_ID;
        }
      }
    }

    method InitHypotMap()
      modifies hypotMap
      ensures forall c :: 0 <= c < hypotMap.Length ==> hypotMap[c] == BTF_UNPROCESSED_ID
    {
      for i := 0 to hypotMap.Length
        invariant forall c :: 0 <= c < i ==> hypotMap[c] == BTF_UNPROCESSED_ID
      {
        hypotMap[i] := BTF_UNPROCESSED_ID;
      }
    }

    predicate IsTypeMapped(id: nat)
      requires id < canonMap.Length
      reads canonMap
    {
      canonMap[id] <= BTF_MAX_NR_TYPES
    }

    method ResolveTypeId(id: nat) returns (r: nat)
      requires Forest(canonMap[..], rank) && id < canonMap.Length
      ensures r < canonMap.Length && r == Root(canonMap[..], rank, id)
    {
      r := id;
      while IsTypeMapped(r) && canonMap[r] != r
        invariant r < canonMap.Length && Root(canonMap[..], rank, r) == Root(canonMap[..], rank, id)
        decreases rank[r]
      {
        r := canonMap[r];
      }
    }

    method ResolveFwdId(id: nat) returns (r: nat)
      requires Valid() && id < types.Length
      ensures r == FwdTarget(Snap(), id)
    {
      if !types[id].IsFwd() {
        return id;
      }
      r := ResolveTypeId(id);
      if !types[r].IsFwd() {
        return;
      }
      return id;
    }

    method IdenticalArrays(id1: nat, id2: nat) returns (eq: bool)
      requires Valid() && id1 < types.Length && id2 < types.Length
      ensures eq <==> types[id2].info.kind.Array? && types[id1] == types[id2]
    {
      var t1, t2 := types[id1], types[id2];
      if !t1.info.kind.Array? || !t2.info.kind.Array? {
        return false;
      }
      return EqualArray(t1, t2);
    }

    method HypotMapAdd(fromId: nat, toId: nat)
      requires Valid() && fromId < types.Length && toId < types.Length && !IsSet(hypotMap[..], fromId)
      modifies hypotMap, this`hypotList
      ensures Valid()
      ensures hypotMap[..] == old(hypotMap[..])[fromId := toId]
    {
      hide TableReady, Forest, TableInv, ClassKept, GraphOk;
      assert types.Length <= BTF_MAX_NR_TYPES + 1;
      hide StateOk;
      hypotList := hypotList + [fromId];
      hypotMap[fromId] := toId;
    }

    method ClearHypotMap()
      requires Valid()
      modifies hypotMap, this`hypotList, this`hypotAdjustCanon
      ensures Valid() && NothingSet(hypotMap[..])
    {
      hide Base, TableInv, ClassKept;
      for i := 0 to |hypotList|
        invariant forall c :: 0 <= c < hypotMap.Length && hypotMap[c] <= BTF_MAX_NR_TYPES ==>
                    hypotMap[c] == old(hypotMap[c]) && c !in hypotList[..i]
        modifies hypotMap
      {
        assert hypotList[i] in hypotList;
        hypotMap[hypotList[i]] := BTF_UNPROCESSED_ID;
      }
      assert hypotList[..|hypotList|] == hypotList;
      assert forall c :: 0 <= c < hypotMap.Length && hypotMap[c] <= BTF_MAX_NR_TYPES ==>
          IsSet(old(hypotMap[..]), c);
      hypotList := [];
      hypotAdjustCanon := false;
    }

    // Compares the type graphs of a candidate and a canonical id side by side: 1 if they are
    // equivalent, 0 if not, negative on error.
    method IsEquiv(candId: nat, canonIn: nat, ghost unit: set<nat>) returns (eq: int)
      requires Valid() && Faithful() && candId < types.Length && canonIn < types.Length
      modifies hypotMap, this`hypotList, this`hypotAdjustCanon
      ensures Valid() && Snap() == old(Snap()) && eq in {1, 0, -EINVAL}
      ensures Extends(old(hypotMap[..]), hypotMap[..])
      ensures eq == 1 ==> AllDone(d, Snap(), old(hypotMap[..]), hypotMap[..])
      ensures eq == 1 ==> Matches(Snap(), hypotMap[..], candId, canonIn)
      ensures MustMatch(d, types[..], old(hypotMap[..]), unit, candId, canonIn) ==>
                eq == 1 && HypInUnit(d, types[..], hypotMap[..], unit)
      ensures Sane(types[..], unit, candId) ==> eq >= 0
      decreases Unset(hypotMap[..]), 1
    {
      hide Sane, ClassKept, TableInv, PairDone, MeaningKept, FwdTarget, UnitOk, Regular, HypInUnit, SameMeaning,
        AllDone, ListOk, Base;
      AllDoneNothing(d, Snap(), hypotMap[..]);
      ghost var must := MustMatch(d, types[..], hypotMap[..], unit, candId, canonIn);
      if must {
        TargetMustMatch(d, Snap(), hypotMap[..], unit, candId, canonIn);
      }
      var candRoot := ResolveTypeId(candId);
      var canonRoot := ResolveTypeId(canonIn);
      if candRoot == canonRoot {
        return 1;
      }
      FwdTargetSharesRoot(Snap(), canonIn);
      var canonId := ResolveFwdId(canonIn);
      var hypotTypeId := hypotMap[canonId];
      if hypotTypeId <= BTF_MAX_NR_TYPES {
        if must {
          MatchedOnce(d, types[..], hypotMap[..], unit, candId, canonId);
        }
        if hypotTypeId == candId {
          return 1;
        }
        var identical := IdenticalArrays(hypotTypeId, candId);
        return if identical then 1 else 0;
      }
      eq := MatchPair(candId, canonId, unit);
    }

    // Records a new pair and explores it.
    method MatchPair(candId: nat, canonId: nat, ghost unit: set<nat>) returns (eq: int)
      requires Valid() && Faithful() && candId < types.Length && canonId < types.Length && candId != canonId
      requires !IsSet(hypotMap[..], canonId)
      modifies hypotMap, this`hypotList, this`hypotAdjustCanon
      ensures Valid() && Snap() == old(Snap()) && eq in {1, 0, -EINVAL}
      ensures Extends(old(hypotMap[..]), hypotMap[..]) && hypotMap[canonId] == candId && IsSet(hypotMap[..], canonId)
      ensures eq == 1 ==> AllDone(d, Snap(), old(hypotMap[..]), hypotMap[..])
      ensures candId != canonId &&
              MustMatch(d, types[..], old(hypotMap[..]), unit, candId, canonId) ==>
                eq == 1 && HypInUnit(d, types[..], hypotMap[..], unit)
      ensures Sane(types[..], unit, candId) ==> eq >= 0
      decreases Unset(hypotMap[..]), 0
    {
      hide Sane, ClassKept, TableInv, PairDone, MeaningKept, UnitOk, Regular, HypInUnit, SameMeaning, PairOwed;
      HypotMapAdd(canonId, candId);
      ghost var hyp := hypotMap[..];
      assert Unset(hyp) < Unset(old(hypotMap[..])) by {
        UnsetShrinks(old(hypotMap[..]), hyp);
        assert canonId in Unset(old(hypotMap[..])) && canonId !in Unset(hyp);
      }
      if candId != canonId && MustMatch(d, types[..], old(hypotMap[..]), unit, candId, canonId) {
        PairMustMatch(d, types[..], old(hypotMap[..]), unit, candId, canonId);
      }
      hide Unset;
      eq := CheckPair(candId, canonId, unit);
      if eq == 1 {
        AllDoneWithPair(d, Snap(), old(hypotMap[..]), hypotMap[..], canonId, candId);
      }
    }

    // Explores a pair that has just been recorded.
    method CheckPair(candId: nat, canonId: nat, ghost unit: set<nat>) returns (eq: int)
      requires Valid() && Faithful() && candId < types.Length && canonId < types.Length && candId != canonId
      requires IsSet(hypotMap[..], canonId) && hypotMap[canonId] == candId
      modifies hypotMap, this`hypotList, this`hypotAdjustCanon
      ensures Valid() && Snap() == old(Snap()) && eq in {1, 0, -EINVAL}
      ensures Extends(old(hypotMap[..]), hypotMap[..])
      ensures eq == 1 ==> AllDone(d, Snap(), old(hypotMap[..]), hypotMap[..])
      ensures eq == 1 ==> PairDone(d, Snap(), hypotMap[..], canonId)
      ensures PairOwed(d, types[..], old(hypotMap[..]), unit, types[candId], types[canonId]) ==>
                eq == 1 && HypInUnit(d, types[..], hypotMap[..], unit)
      ensures Sane(types[..], unit, candId) ==> eq >= 0
      decreases Unset(hypotMap[..]), 3
    {
      hide Sane, ClassKept, TableInv, MeaningKept, HypInUnit, Matches, ListOk, UnitOk, Regular, SameMeaning,
        RefsMatchUpTo;
      AllDoneNothing(d, Snap(), hypotMap[..]);
      hide AllDone;
      var cand, canon := types[candId], types[canonId];
      if cand.name != canon.name {
        return 0;
      }
      if !dontResolveFwds && (cand.IsFwd() || canon.IsFwd()) && cand.info.kind != canon.info.kind {
        var realKind, fwdKind;
        if cand.IsFwd() {
          realKind, fwdKind := canon.info.kind, FwdKind(cand);
        } else {
          realKind, fwdKind := cand.info.kind, FwdKind(canon);
          hypotAdjustCanon := hypotAdjustCanon || (fwdKind == realKind && canonId < START_ID);
        }
        PairIsDeclared(types[..], candId, canonId);
        return if fwdKind == realKind then 1 else 0;
      }
      if cand.info.kind != canon.info.kind {
        return 0;
      }
      if cand.IsPrimitive() {
        eq := LeafEquiv(cand, canon);
        if OnlyDeclares(cand) || OnlyDeclares(canon) {
          PairIsDeclared(types[..], candId, canonId);
        }
        EqualRecordsMatch(Snap(), hypotMap[..], cand);
        return;
      }
      eq := CheckKids(candId, canonId, unit);
    }

    // A declaration and what bears its name stand under a declared name.
    static lemma PairIsDeclared(g: seq<BtfType>, a: nat, c: nat)
      requires a < |g| && c < |g| && g[a].name == g[c].name && (OnlyDeclares(g[a]) || OnlyDeclares(g[c]))
      ensures RealKind(g[a]) == RealKind(g[c]) ==> IsDeclared(Declarations(g), g[a]) && IsDeclared(Declarations(g), g[c])
    {
    }

    // Explores a recorded pair of one kind that refers to other types.
    method CheckKids(candId: nat, canonId: nat, ghost unit: set<nat>) returns (eq: int)
      requires Valid() && Faithful() && candId < types.Length && canonId < types.Length && candId != canonId
      requires IsSet(hypotMap[..], canonId) && hypotMap[canonId] == candId
      requires types[candId].name == types[canonId].name && types[candId].info.kind == types[canonId].info.kind
      requires !types[candId].IsPrimitive()
      modifies hypotMap, this`hypotList, this`hypotAdjustCanon
      ensures Valid() && Snap() == old(Snap()) && eq in {1, 0, -EINVAL}
      ensures Extends(old(hypotMap[..]), hypotMap[..])
      ensures eq == 1 ==> AllDone(d, Snap(), old(hypotMap[..]), hypotMap[..])
      ensures eq == 1 ==> PairDone(d, Snap(), hypotMap[..], canonId)
      ensures PairOwed(d, types[..], old(hypotMap[..]), unit, types[candId], types[canonId]) ==>
                eq == 1 && HypInUnit(d, types[..], hypotMap[..], unit)
      ensures Sane(types[..], unit, candId) ==> eq >= 0
      decreases Unset(hypotMap[..]), 3, 0
    {
      hide ClassKept, TableInv, MeaningKept, HypInUnit, Matches, ListOk, UnitOk, Regular, SameMeaning,
        RefsMatchUpTo, KidsOwed, AllDone, Sane;
      var cand, canon := types[candId], types[canonId];
      if Sane(types[..], unit, candId) {
        SaneKind(types[..], unit, candId, canonId);
      }
      eq := ShallowEquiv(cand, canon);
      if eq <= 0 {
        return;
      }
      RefCountFromShape(cand, canon);
      hide Shape, Refs, RestOk, Base;
      if cand.info.kind.Array? {
        eq := ArrayEquiv(candId, canonId, unit);
      } else {
        eq := RefsEquiv(candId, canonId, unit);
      }
    }

    // Types that refer to nothing that the check needs to follow.
    method LeafEquiv(cand: BtfType, canon: BtfType) returns (eq: int)
      requires RestOk(cand) && RestOk(canon) && cand.IsPrimitive() && cand.info.kind == canon.info.kind
      ensures eq == if cand == canon then 1
                    else if !dontResolveFwds && cand.info.kind.Enum? && (cand.IsEnumFwd() || canon.IsEnumFwd()) &&
                            EnumsAgree(cand, canon) then 1
                    else 0
    {
      var same;
      match cand.info.kind {
        case Int =>
          same := EqualInt(cand, canon);
        case Enum =>
          if dontResolveFwds {
            same := EqualEnum(cand, canon);
          } else {
            same := CompatEnum(cand, canon);
          }
        case _ =>
          same := EqualCommon(cand, canon);
      }
      eq := if same then 1 else 0;
    }

    // All that two records of one kind say besides which types they refer to.
    method ShallowEquiv(cand: BtfType, canon: BtfType) returns (eq: int)
      requires RestOk(cand) && RestOk(canon) && !cand.IsPrimitive()
      requires cand.info.kind == canon.info.kind && cand.name == canon.name
      ensures eq == if cand.IsComposite() || cand.IsReference()
                    then (if Shape(cand) == Shape(canon) then 1 else 0) else -EINVAL
    {
      var same;
      match cand.info.kind {
        case Array =>
          same := CompatArray(cand, canon);
        case Struct =>
          same := ShallowEqualStruct(cand, canon);
        case Union =>
          same := ShallowEqualStruct(cand, canon);
        case FuncProto =>
          same := CompatFnproto(cand, canon);
        case _ =>
          if !cand.IsReference() {
            return -EINVAL;
          }
          same := cand.info == canon.info;
      }
      eq := if same then 1 else 0;
    }

    // Checks the j-th types that two records refer to.
    method KidEquiv(candId: nat, canonId: nat, j: nat, ghost unit: set<nat>) returns (eq: int)
      requires Valid() && Faithful() && candId < types.Length && canonId < types.Length
      requires j < |Refs(types[candId])| == |Refs(types[canonId])|
      modifies hypotMap, this`hypotList, this`hypotAdjustCanon
      ensures Valid() && Snap() == old(Snap()) && eq in {1, 0, -EINVAL}
      ensures Extends(old(hypotMap[..]), hypotMap[..])
      ensures eq == 1 ==> AllDone(d, Snap(), old(hypotMap[..]), hypotMap[..])
      ensures eq == 1 ==> RefsMatch(Snap(), hypotMap[..], types[candId], types[canonId], j)
      ensures KidsOwed(d, types[..], old(hypotMap[..]), unit, types[candId], types[canonId]) ==>
                eq == 1 && HypInUnit(d, types[..], hypotMap[..], unit) &&
                KidsOwed(d, types[..], hypotMap[..], unit, types[candId], types[canonId])
      ensures Sane(types[..], unit, candId) ==> eq >= 0
      decreases Unset(hypotMap[..]), 2, 0
    {
      hide ClassKept, TableInv, AllDone, Matches, MeaningKept, HypInUnit, KidsOwed, MustMatch, Sane, Base;
      RefInRange(Snap(), candId, j);
      RefInRange(Snap(), canonId, j);
      hide Refs, Unset, Extends;
      var cand, canon := Refs(types[candId])[j], Refs(types[canonId])[j];
      ghost var hyp0 := hypotMap[..];
      ghost var must := KidsOwed(d, types[..], hyp0, unit, types[candId], types[canonId]);
      if must {
        KidOwed(d, types[..], hyp0, unit, types[candId], types[canonId], j);
      }
      if Sane(types[..], unit, candId) {
        SaneKids(types[..], unit, candId);
      }
      eq := IsEquiv(cand, canon, unit);
      if must {
        MustMatchExtends(d, types[..], hyp0, hypotMap[..], unit, types[candId], types[canonId]);
      }
    }

    // The index type of an array is compared before the element type.
    method ArrayEquiv(candId: nat, canonId: nat, ghost unit: set<nat>) returns (eq: int)
      requires Valid() && Faithful() && candId < types.Length && canonId < types.Length
      requires types[candId].info.kind.Array? && types[canonId].info.kind.Array?
      modifies hypotMap, this`hypotList, this`hypotAdjustCanon
      ensures Valid() && Snap() == old(Snap()) && eq in {1, 0, -EINVAL}
      ensures Extends(old(hypotMap[..]), hypotMap[..])
      ensures eq == 1 ==> AllDone(d, Snap(), old(hypotMap[..]), hypotMap[..])
      ensures eq == 1 ==> AllRefsMatch(Snap(), hypotMap[..], types[candId], types[canonId])
      ensures KidsOwed(d, types[..], old(hypotMap[..]), unit, types[candId], types[canonId]) ==>
                eq == 1 && HypInUnit(d, types[..], hypotMap[..], unit)
      ensures Sane(types[..], unit, candId) ==> eq >= 0
      decreases Unset(hypotMap[..]), 2, 1
    {
      hide Sane, ClassKept, TableInv, AllDone, RefsMatch, RefsMatchUpTo, MeaningKept, HypInUnit, KidsOwed;
      assert RestOk(types[candId]) && RestOk(types[canonId]);
      assert |Refs(types[candId])| == 2 == |Refs(types[canonId])|;
      hide Base, Refs, RestOk;
      ghost var hyp0 := hypotMap[..];
      eq := KidEquiv(candId, canonId, 1, unit);
      if eq <= 0 {
        return;
      }
      ghost var hyp1 := hypotMap[..];
      UnsetShrinks(hyp0, hyp1);
      eq := KidEquiv(candId, canonId, 0, unit);
      if eq <= 0 {
        return;
      }
      AllDoneExtends(d, Snap(), hyp0, hyp1, hypotMap[..]);
      RefMatchExtends(Snap(), hyp1, hypotMap[..], types[candId], types[canonId], 1);
      BothRefsMatch(Snap(), hypotMap[..], types[candId], types[canonId]);
    }

    // Checks the types that two records refer to, in order, up to the first difference.
    method RefsEquiv(candId: nat, canonId: nat, ghost unit: set<nat>) returns (eq: int)
      requires Valid() && Faithful() && candId < types.Length && canonId < types.Length
      requires |Refs(types[candId])| == |Refs(types[canonId])|
      modifies hypotMap, this`hypotList, this`hypotAdjustCanon
      ensures Valid() && Snap() == old(Snap()) && eq in {1, 0, -EINVAL}
      ensures Extends(old(hypotMap[..]), hypotMap[..])
      ensures eq == 1 ==> AllDone(d, Snap(), old(hypotMap[..]), hypotMap[..])
      ensures eq == 1 ==> AllRefsMatch(Snap(), hypotMap[..], types[candId], types[canonId])
      ensures KidsOwed(d, types[..], old(hypotMap[..]), unit, types[candId], types[canonId]) ==>
                eq == 1 && HypInUnit(d, types[..], hypotMap[..], unit)
      ensures Sane(types[..], unit, candId) ==> eq >= 0
      decreases Unset(hypotMap[..]), 2, 1
    {
      hide Sane, ClassKept, TableInv, AllDone, RefsMatch, MeaningKept, HypInUnit, Base, Refs;
      ghost var hyp0 := hypotMap[..];
      AllDoneNothing(d, Snap(), hyp0);
      ghost var must := KidsOwed(d, types[..], hyp0, unit, types[candId], types[canonId]);
      for i := 0 to |Refs(types[candId])|
        invariant Valid() && Snap() == old(Snap())
        invariant Extends(hyp0, hypotMap[..])
        invariant AllDone(d, Snap(), hyp0, hypotMap[..])
        invariant RefsMatchUpTo(Snap(), hypotMap[..], types[candId], types[canonId], i)
        invariant must ==> KidsOwed(d, types[..], hypotMap[..], unit, types[candId], types[canonId])
      {
        hide KidsOwed;
        ghost var hyp1 := hypotMap[..];
        UnsetShrinks(hyp0, hyp1);
        eq := KidEquiv(candId, canonId, i, unit);
        if eq <= 0 {
          return;
        }
        AllDoneExtends(d, Snap(), hyp0, hyp1, hypotMap[..]);
        RefsMatchExtends(Snap(), hyp1, hypotMap[..], types[candId], types[canonId], i);
      }
      return 1;
    }

    // Sends the representative x to the representative y.
    method MergeInto(x: nat, y: nat)
      requires Valid() && Faithful() && x < types.Length && y < types.Length && x != y
      requires IsRoot(canonMap[..], x) && IsRoot(canonMap[..], y) && MergesInto(types[x], types[y])
      requires SameMeaning(d, types[..], x, types[..], y) && (d == {} ==> !Mapped(canonMap[..], x))
      requires types[x].IsFwd() || (types[x].IsComposite() && !Mapped(canonMap[..], x))
      modifies canonMap, this`rank
      ensures Valid() && Faithful() && Merged(d, old(Snap()), Snap())
      ensures canonMap[..] == old(canonMap[..])[x := y]
      ensures forall z :: 0 <= z < types.Length && Root(old(canonMap[..]), old(rank), z) in {x, y} ==>
                Root(canonMap[..], rank, z) == y
    {
      ghost var s := MergeAssigns(d, Snap(), x, y);
      Repoint(x, y, s.rank);
    }

    // One pair of a successful equivalence check: resolves a declaration to its definition,
    // or maps a composite of the candidate graph to an established representative.
    method MergePair(canonTypeId: nat, targTypeId: nat)
      requires Valid() && Faithful() && canonTypeId < types.Length && targTypeId < types.Length
      requires PairAgrees(d, types[..], targTypeId, canonTypeId)
      modifies canonMap, this`rank
      ensures Valid() && Faithful() && Merged(d, old(Snap()), Snap())
      ensures PairResolved(Snap(), targTypeId, canonTypeId)
    {
      hide GraphOk, HypOk, ListOk;
      var t := ResolveTypeId(targTypeId);
      var c := ResolveTypeId(canonTypeId);
      var tKind, cKind := types[t].info.kind, types[c].info.kind;
      PairRoots(d, Snap(), targTypeId, canonTypeId);
      MergedNothing(d, Snap());
      hide Merged, TableInv, ClassKept, MeaningKept, SameMeaning;
      if !tKind.Fwd? && cKind.Fwd? {
        MergeInto(c, t);
      }
      if hypotAdjustCanon {
        return;
      }
      if tKind.Fwd? && !cKind.Fwd? {
        MergeInto(t, c);
      } else if (tKind.Struct? || tKind.Union?) && !cKind.Fwd? && IsTypeMapped(c) && !IsTypeMapped(t) {
        MergeInto(t, c);
      }
    }

    // Records what a successful equivalence check has matched.
    method MergeHypotMap()
      requires Valid() && Faithful() && PairsAgree(d, types[..], hypotMap[..])
      modifies canonMap, this`rank
      ensures Valid() && Faithful() && Merged(d, old(Snap()), Snap())
      ensures forall c :: c in hypotList ==> PairResolved(Snap(), hypotMap[c], c)
    {
      hide TableInv, ClassKept, MeaningKept, PairAgrees, PairResolved, GraphOk;
      MergedNothing(d, Snap());
      for i := 0 to |hypotList|
        invariant Valid() && Faithful() && Merged(d, old(Snap()), Snap())
        invariant forall c | c in hypotList && c in hypotList[..i] :: PairResolved(Snap(), hypotMap[c], c)
      {
        var canonTypeId := hypotList[i];
        assert canonTypeId in hypotList;
        var targTypeId := hypotMap[canonTypeId];
        ghost var s := Snap();
        MergePair(canonTypeId, targTypeId);
        MergedTrans(d, old(Snap()), s, Snap());
        assert hypotList[..i + 1] == hypotList[..i] + [canonTypeId];
      }
      assert hypotList[..|hypotList|] == hypotList;
    }

    // Composites of one shape are of one kind, and composites that must be merged have one shape.
    static lemma MergeFits(d: Names, g: seq<BtfType>, unit: set<nat>, id: nat, candId: nat)
      requires id < |g| && candId < |g|
      ensures MustMerge(d, g, unit, id, candId) ==> Shape(g[id]) == Shape(g[candId])
      ensures Shape(g[id]) == Shape(g[candId]) ==> g[id].info == g[candId].info && g[id].name == g[candId].name
    {
      if MustMerge(d, g, unit, id, candId) {
        MeaningAgrees(d, g, id, candId);
        FittingDefinitions(d, g[id], g[candId]);
      }
      if Shape(g[id]) == Shape(g[candId]) {
        RefCountFromShape(g[id], g[candId]);
      }
    }

    // Compares a composite with one candidate and, if they are equivalent, merges their graphs.
    method TryCandidate(id: nat, candId: nat, ghost unit: set<nat>) returns (eq: int)
      requires Valid() && Faithful() && id < types.Length && candId < types.Length && id != candId
      requires types[id].IsComposite() && !Mapped(canonMap[..], id)
      requires types[candId].IsComposite() ==> canonMap[candId] == candId
      modifies canonMap, hypotMap, this`hypotList, this`hypotAdjustCanon, this`rank
      ensures Valid() && Faithful() && eq in {1, 0, -EINVAL}
      ensures eq != 1 ==> Snap() == old(Snap())
      ensures eq == 1 ==> FoundEquivalent(d, old(Snap()), Snap(), id, candId)
      ensures MustMerge(d, types[..], unit, id, candId) ==> eq == 1
      ensures Sane(types[..], unit, id) ==> eq >= 0
    {
      hide Sane, TableInv, ClassKept, MeaningKept, Merged, PairDone, Matches, Checked, FoundEquivalent;
      assert RestOk(types[id]) && RestOk(types[candId]);
      hide GraphOk, RestOk, Refs, Shape;
      MergeFits(d, types[..], unit, id, candId);
      hide SameMeaning, UnitOk, Regular, HypOk;
      var same := ShallowEqualStruct(types[id], types[candId]);
      if !same {
        return 0;
      }
      ClearHypotMap();
      hide ListOk;
      ghost var hyp := hypotMap[..];
      eq := IsEquiv(id, candId, unit);
      if eq <= 0 {
        return;
      }
      DonePairsAgree(d, Snap(), hypotMap[..]);
      ghost var s0 := Snap();
      MergeHypotMap();
      MergedIsFound(d, s0, Snap(), hypotMap[..], hypotList, id, candId);
      eq := if hypotAdjustCanon then 0 else 1;
    }

    // Points id at another id.
    method Repoint(id: nat, newId: nat, ghost newRank: seq<nat>)
      requires id < canonMap.Length
      modifies canonMap, this`rank
      ensures Snap() == old(Snap()).(m := old(canonMap[..])[id := newId], rank := newRank)
    {
      canonMap[id] := newId;
      rank := newRank;
    }

    // Makes id its own representative and files it under its hash. There is always room, because
    // every id is filed at most once, so the code's error return is never taken.
    method FileCanonical(id: nat, h: nat)
      requires TableReady() && id < canonMap.Length && canonMap != hypotMap
      requires TableInv(Snap()) && !Mapped(canonMap[..], id)
      modifies canonMap, table
      ensures TableReady()
      ensures Snap() == old(Snap()).(m := old(canonMap[..])[id := id],
                                     entries := old(table.Entries()) + multiset{Entry(h, id)})
    {
      FiledSingle(Snap(), h, id);
      TableSmall(Snap());
      table.SizeIsCount();
      table.HasRoom();
      canonMap[id] := id;
      var r, _ := table.Insert(h, id, Append);
      assert r == Done;
    }

    // Deduplicates one composite: it takes the first equivalent candidate of its hash as
    // representative, or becomes one.
    method StructType(id: nat) returns (err: int)
      requires Valid() && Faithful() && 1 <= id < types.Length
      modifies canonMap, hypotMap, this`hypotList, this`hypotAdjustCanon, this`rank, table
      ensures err in {0, -EINVAL}
      ensures err == 0 ==> Valid() && Faithful()
      ensures err == 0 ==> StructStep(d, old(Snap()), Snap(), id)
      ensures Checkable(types[..]) ==> err != -EINVAL
    {
      hide StateOk, TableReady, HypState, MeaningKept, StructOutcome, HashOf, RestOk, Forest, FromUnits, Checkable,
        UnitOk, ClosedSet, CandsOk, NoneEquivalent, FoundEquivalent;
      if IsTypeMapped(id) || !types[id].IsComposite() {
        return 0;
      }
      var t := types[id];
      RecordOk(Snap(), id);
      var h := HashStruct(t);
      ghost var unit := UnitOf(d, types[..], id);
      var cands := Candidates(h);
      var newId;
      err, newId := FindStruct(id, h, cands, unit);
      if err == 0 {
        FinishStruct(id, newId, h, cands, old(Snap()));
      }
    }

    // Records the representative found for composite id.
    method FinishStruct(id: nat, newId: nat, h: nat, cands: seq<nat>, ghost s0: Snapshot)
      requires Valid() && Faithful() && 1 <= id < types.Length && types[id].IsComposite() && RestOk(types[id])
      requires h == HashOf(types[id]) && |s0.m| == types.Length && !Mapped(s0.m, id)
      requires newId == id ==> Snap() == s0 && CandsOk(s0.entries, h, cands)
      requires newId == id && InUnits(d, types[..], id) ==> NoneEquivalent(d, s0, id, cands)
      requires newId != id ==> FoundEquivalent(d, s0, Snap(), id, newId)
      modifies canonMap, this`rank, table
      ensures Valid() && Faithful() && StructOutcome(d, s0, Snap(), id)
    {
      hide Base, TableInv, ClassKept, HypState, CandsOk, NoneEquivalent, FoundEquivalent, StaysExcept,
        CompositesDistinct, FromUnits, MeaningKept, RestOk, HashOf;
      if newId == id {
        ghost var s := StructCanonical(d, Snap(), id, cands);
        FileCanonical(id, h);
      } else {
        ghost var s := StructMapped(d, s0, Snap(), id, newId);
        Repoint(id, newId, s.rank);
      }
    }

    // The candidates filed under a hash, in the order in which the table iterates over them.
    method Candidates(h: nat) returns (cands: seq<nat>)
      requires Valid()
      ensures CandsOk(table.Entries(), h, cands)
    {
      hide StateOk, HypState;
      var es := table.KeyEntries(h);
      assert forall e: Entry<nat, nat> :: e in multiset(es) <==> e.key == h && e in table.Entries();
      hide TableReady;
      cands := [];
      for i := 0 to |es|
        invariant |cands| == i && forall j :: 0 <= j < i ==> es[j] == Entry(h, cands[j])
      {
        assert es[i] in multiset(es);
        cands := cands + [es[i].value];
      }
      assert forall j :: 0 <= j < |es| ==> es[j] in multiset(es);
    }

    // The first candidate equivalent to composite id, after merging their graphs; id itself if there is none.
    method FindStruct(id: nat, h: nat, cands: seq<nat>, ghost unit: set<nat>) returns (err: int, newId: nat)
      requires Valid() && Faithful() && id < types.Length && types[id].IsComposite() && !Mapped(canonMap[..], id)
      requires CandsOk(table.Entries(), h, cands) && RestOk(types[id]) && h == HashOf(types[id])
      requires InUnits(d, types[..], id) ==> UnitOk(d, types[..], unit) && id in unit
      requires Checkable(types[..]) ==> ClosedSet(types[..], unit) && id in unit
      modifies canonMap, hypotMap, this`hypotList, this`hypotAdjustCanon, this`rank
      ensures Valid() && Faithful() && err in {0, -EINVAL}
      ensures err == 0 && newId == id ==> Snap() == old(Snap())
      ensures err == 0 && newId == id && InUnits(d, types[..], id) ==> NoneEquivalent(d, Snap(), id, cands)
      ensures err == 0 && newId != id ==> FoundEquivalent(d, old(Snap()), Snap(), id, newId)
      ensures Checkable(types[..]) ==> err == 0
    {
      hide HashOf, RestOk, StateOk, TableReady, HypState, MeaningKept, UnitOk, ClosedSet, CandsOk, FoundEquivalent,
        NoneEquivalent, MustMerge, InUnits, Checkable, Sane;
      NoneAtFirst(d, Snap(), id);
      assert cands[..0] == [];
      for i := 0 to |cands|
        invariant Valid() && Faithful() && Snap() == old(Snap())
        invariant InUnits(d, types[..], id) ==> NoneEquivalent(d, Snap(), id, cands[..i])
      {
        CandForStruct(Snap(), h, cands, i, id);
        var candId := cands[i];
        CheckableSane(types[..], unit, id);
        var eq := TryCandidate(id, candId, unit);
        if eq < 0 {
          return eq, id;
        }
        if eq == 1 {
          return 0, candId;
        }
        if InUnits(d, types[..], id) {
          UnitsRegular(d, types[..], id);
          NotEquivalent(d, Snap(), unit, id, cands, i);
        }
      }
      assert cands[..|cands|] == cands;
      return 0, id;
    }

    // Whether a record equals a candidate's record of any kind.
    method RecordsEqual(t: BtfType, cand: BtfType) returns (eq: bool)
      requires RestOk(t) && RestOk(cand) && IsExact(t)
      ensures eq <==> t == cand
    {
      match t.info.kind {
        case Int =>
          eq := EqualInt(t, cand);
        case Enum =>
          eq := EqualEnum(t, cand);
        case Array =>
          eq := EqualArray(t, cand);
        case FuncProto =>
          eq := EqualFnproto(t, cand);
        case _ =>
          eq := EqualCommon(t, cand);
      }
    }

    // The first candidate with the record of id; id itself if there is none.
    method FindEqual(id: nat, cands: seq<nat>, ghost h: nat) returns (newId: nat)
      requires Valid() && id < types.Length && RestOk(types[id]) && IsExact(types[id])
      requires CandsOk(table.Entries(), h, cands) && !Mapped(canonMap[..], id)
      ensures newId < types.Length && types[newId] == types[id]
      ensures newId == id || newId in cands
      ensures newId == id ==> forall c :: c in cands && c < types.Length ==> types[c] != types[id]
    {
      hide StateOk, TableReady, HypState, RestOk;
      for i := 0 to |cands|
        invariant forall c :: c in cands[..i] && c < types.Length ==> types[c] != types[id]
      {
        CandInRange(Snap(), h, cands, i);
        var eq := RecordsEqual(types[id], types[cands[i]]);
        if eq {
          return cands[i];
        }
      }
      assert cands[..|cands|] == cands;
      return id;
    }

    // Looks at one candidate for an enum. With resolution on, a declaration takes any full enum that
    // agrees with it, and a declaration among the candidates is sent to a full enum.
    method TryEnum(id: nat, candId: nat, ghost s0: Snapshot) returns (found: bool)
      requires Valid() && Faithful() && EnumMid(d, s0, Snap(), id) && types[id].info.kind.Enum? && RestOk(types[id])
      requires (dontResolveFwds ==> Snap() == s0) && 1 <= candId < |s0.g| && candId != id
      requires Mapped(s0.m, candId) && RestOk(types[candId])
      modifies canonMap, this`rank
      ensures Valid() && Faithful() && EnumMid(d, s0, Snap(), id) && (dontResolveFwds ==> Snap() == s0)
      ensures found ==> MayRepresent(d, Snap(), id, candId)
      ensures !found ==> DoesNotRepresent(d, Snap(), id, candId)
      ensures forall c :: 0 <= c < canonMap.Length ==> canonMap[c] == old(canonMap[c]) || canonMap[c] == id
    {
      hide StateOk, TableReady, HypState, RestOk, HashOf, MeaningKept, EnumsAgree;
      var cand := types[candId];
      var eq := EqualEnum(types[id], cand);
      if eq {
        return true;
      }
      EnumCases(types[id], cand);
      ResolvableExactly(types[..], dontResolveFwds, id);
      ResolvableExactly(types[..], dontResolveFwds, candId);
      hide IsFullEnum, Resolvable, NamesFor;
      if !dontResolveFwds {
        var compat := CompatEnum(types[id], cand);
        if compat {
          if types[id].IsEnumFwd() {
            return true;
          }
          ghost var s := EnumRepoint(d, s0, Snap(), candId, id);
          Repoint(candId, id, s.rank);
        }
      }
      return false;
    }

    // The representative of an enum: the first candidate that may represent it, or none.
    method FindEnum(id: nat, cands: seq<nat>) returns (newId: nat)
      requires Valid() && Faithful() && EnumMid(d, Snap(), Snap(), id) && types[id].info.kind.Enum? && RestOk(types[id])
      requires CandsOk(table.Entries(), HashOf(types[id]), cands)
      modifies canonMap, this`rank
      ensures Valid() && Faithful() && EnumMid(d, old(Snap()), Snap(), id) && newId < types.Length
      ensures dontResolveFwds ==> Snap() == old(Snap())
      ensures newId == id ==> NoneRepresents(d, Snap(), id, cands)
      ensures newId != id ==> newId in cands && MayRepresent(d, Snap(), id, newId)
    {
      hide StateOk, TableReady, HypState, RestOk, HashOf, MeaningKept, EnumsAgree, MayRepresent, IsFullEnum,
        DoesNotRepresent;
      ghost var s0 := Snap();
      NoneAmongNone(d, s0, id);
      for i := 0 to |cands|
        invariant Valid() && Faithful() && EnumMid(d, s0, Snap(), id)
        invariant dontResolveFwds ==> Snap() == s0
        invariant NoneRepresents(d, Snap(), id, cands[..i])
      {
        hide NoneRepresents;
        CandInRange(s0, HashOf(types[id]), cands, i);
        ghost var s := Snap();
        var found := TryEnum(id, cands[i], s0);
        if found {
          return cands[i];
        }
        NoneRepresentsStill(d, s, Snap(), id, cands[..i]);
        NoneRepresentsMore(d, Snap(), id, cands, i);
      }
      assert cands[..|cands|] == cands;
      return id;
    }

    // The representative of a primitive among the candidates of its hash; id itself if there is none.
    method FindPrim(id: nat, cands: seq<nat>) returns (newId: nat)
      requires Valid() && Faithful() && EnumMid(d, Snap(), Snap(), id) && types[id].IsPrimitive() && RestOk(types[id])
      requires CandsOk(table.Entries(), HashOf(types[id]), cands)
      modifies canonMap, this`rank
      ensures Valid() && Faithful() && EnumMid(d, old(Snap()), Snap(), id) && newId < types.Length
      ensures dontResolveFwds ==> Snap() == old(Snap())
      ensures newId == id ==> NoneRepresents(d, Snap(), id, cands)
      ensures newId != id ==> newId in cands && MayRepresent(d, Snap(), id, newId)
    {
      hide StateOk, TableReady, HypState, RestOk, MeaningKept;
      if types[id].info.kind.Enum? {
        newId := FindEnum(id, cands);
      } else {
        newId := FindEqual(id, cands, HashOf(types[id]));
      }
    }

    // Deduplicates one type that refers to no other.
    method PrimType(id: nat) returns (err: int)
      requires Valid() && Faithful() && id < types.Length && PrimProgress(d, Snap(), id)
      modifies canonMap, this`rank, table
      ensures err in {0, -EINVAL}
      ensures err == 0 ==> Valid() && Faithful() && PrimProgress(d, Snap(), id + 1)
      ensures err == -EINVAL <==> types[id].info.kind.Unkn?
    {
      hide StateOk, TableReady, HypState, RestOk, HashOf, MeaningKept, PrimProgress, EnumMid, NoneRepresents,
        MayRepresent, CandsOk, Statuses, EnumsResolved, MappedClosed;
      if types[id].info.kind.Unkn? {
        return -EINVAL;
      }
      if !types[id].IsPrimitive() {
        PrimSkips(d, Snap(), id);
        return 0;
      }
      PrimBegins(d, Snap(), id);
      var h := HashOf(types[id]);
      var cands := Candidates(h);
      var newId := FindPrim(id, cands);
      FinishPrim(id, newId, h, cands, old(Snap()));
      return 0;
    }

    // Records the representative found for primitive id.
    method FinishPrim(id: nat, newId: nat, h: nat, ghost cands: seq<nat>, ghost s0: Snapshot)
      requires Valid() && Faithful() && id < types.Length && types[id].IsPrimitive() && RestOk(types[id])
      requires PrimProgress(d, s0, id) && EnumMid(d, s0, Snap(), id)
      requires dontResolveFwds ==> Snap() == s0
      requires h == HashOf(types[id]) && CandsOk(table.Entries(), h, cands) && newId < types.Length
      requires newId == id ==> NoneRepresents(d, Snap(), id, cands)
      requires newId != id ==> newId in cands && MayRepresent(d, Snap(), id, newId)
      modifies canonMap, this`rank, table
      ensures Valid() && Faithful() && PrimProgress(d, Snap(), id + 1)
    {
      hide StateOk, TableReady, HypState, RestOk, HashOf, MeaningKept, EnumMid, EnumsResolved, Statuses,
        MappedClosed, NoneRepresents, MayRepresent;
      if newId == id {
        EnumMidUnmapped(d, s0, Snap(), id);
        StateTable(Snap());
        ghost var s := PrimFiled(d, s0, Snap(), id, cands);
        FileCanonical(id, h);
      } else {
        assert Entry(h, newId) in table.Entries();
        ghost var s := PrimMapped(d, s0, Snap(), id, newId);
        Repoint(id, newId, s.rank);
      }
    }

    // The primitive pass.
    method PrimTypes() returns (err: int)
      requires Valid() && Faithful() && PrimProgress(d, Snap(), 1)
      modifies canonMap, this`rank, table
      ensures err in {0, -EINVAL}
      ensures err == 0 ==> Valid() && Faithful() && PrimProgress(d, Snap(), types.Length)
      ensures err == -EINVAL <==> !KnownKinds(types[..])
    {
      hide StateOk, TableReady, HypState, MeaningKept, Statuses, MappedClosed, EnumsResolved;
      for i := 1 to types.Length
        invariant Valid() && Faithful() && PrimProgress(d, Snap(), i)
        invariant forall j :: 1 <= j < i ==> !types[j].info.kind.Unkn?
      {
        err := PrimType(i);
        if err != 0 {
          return;
        }
      }
      return 0;
    }

    // The pass over structs and unions. `trail` holds the states before each type and at the end.
    method StructTypes() returns (err: int, ghost trail: seq<Snapshot>)
      requires Valid() && Faithful() && StructProgress(d, Snap(), 1)
      modifies canonMap, hypotMap, this`hypotList, this`hypotAdjustCanon, this`rank, table
      ensures err in {0, -EINVAL}
      ensures err == 0 ==> Valid() && Faithful() && StructProgress(d, Snap(), types.Length)
      ensures err == 0 ==> StructRun(d, trail, types.Length) && trail[0] == old(Snap()) && trail[|trail| - 1] == Snap()
      ensures Checkable(types[..]) ==> err != -EINVAL
    {
      hide StructProgress, StructStep, StateOk, TableReady, HypState, MeaningKept, Checkable, NamesFor;
      NotEmpty(Snap());
      trail := [Snap()];
      for i := 1 to types.Length
        invariant Valid() && Faithful() && StructProgress(d, Snap(), i)
        invariant StructRun(d, trail, i) && trail[0] == old(Snap()) && trail[|trail| - 1] == Snap()
      {
        ghost var s := Snap();
        err := StructType(i);
        if err != 0 {
          return;
        }
        StructAdvances(d, s, Snap(), i);
        StructRunOn(d, trail, i, Snap());
        trail := trail + [Snap()];
      }
      err := 0;
    }

    // Ids that the reference pass has not entered yet.
    ghost function Untouched(): set<nat>
      reads canonMap
    {
      set i | 0 <= i < canonMap.Length && canonMap[i] == BTF_UNPROCESSED_ID
    }

    // Canonicalizes the types that id refers to and then id itself, and gives back the
    // representative of id. `path` holds the reference types being processed, `fin` the finished ones.
    method RefType(id: nat, ghost input: seq<BtfType>, ghost path: seq<nat>, ghost fin: seq<nat>)
      returns (r: int, ghost fin': seq<nat>)
      requires Valid() && id < types.Length && RefInv(d, Snap(), input, path, fin)
      requires RefPathTo(input, path, id)
      modifies types, canonMap, this`rank, table
      ensures r >= 0 || r == -ELOOP
      ensures r == -ELOOP ==> HasRefCycle(input)
      ensures r >= 0 ==> Valid() && RefInv(d, Snap(), input, path, fin')
      ensures r >= 0 ==> Settles(old(canonMap[..]), canonMap[..]) && RefResolved(Snap(), r, id)
      ensures r >= 0 ==> forall i :: i in path && i < types.Length ==> types[i] == old(types[i])
      ensures r >= 0 ==> Untouched() <= old(Untouched())
      ensures r >= 0 && id < |input| && input[id].IsReference() ==> id in fin'
      ensures fin <= fin'
      decreases Untouched(), 0
    {
      hide StateOk, TableReady, HypState, RefStatuses, AllDoneRefs, Topo, MeaningKept, SameGraph, Forest, Refs;
      fin' := fin;
      if canonMap[id] == BTF_IN_PROGRESS_ID {
        RefOnPath(d, Snap(), input, path, fin, id);
        return -ELOOP, fin;
      }
      if IsTypeMapped(id) {
        RefSettled(d, Snap(), input, path, fin, id);
        r := ResolveTypeId(id);
        return r, fin;
      }
      RefNotOnPath(d, Snap(), input, path, fin, id);
      RefEnter(d, Snap(), input, path, fin, id);
      RefPathExtends(input, path, id);
      assert id in Untouched();
      Mark(id);
      r, fin' := RefChildren(id, input, path, fin);
      if r < 0 {
        return;
      }
      r := FinishRef(id, input, path, fin');
      fin' := fin' + [id];
    }

    // Marks id as being processed.
    method Mark(id: nat)
      requires id < canonMap.Length && canonMap != hypotMap && canonMap[id] == BTF_UNPROCESSED_ID
      modifies canonMap
      ensures Snap() == old(Snap()).(m := old(canonMap[..])[id := BTF_IN_PROGRESS_ID])
      ensures Untouched() == old(Untouched()) - {id}
    {
      canonMap[id] := BTF_IN_PROGRESS_ID;
    }

    // Replaces every reference of id by its representative, in order.
    method RefChildren(id: nat, ghost input: seq<BtfType>, ghost path: seq<nat>, ghost fin: seq<nat>)
      returns (r: int, ghost fin': seq<nat>)
      requires Valid() && id < types.Length && RefInv(d, Snap(), input, path + [id], fin)
      requires IsRefPath(input, path + [id]) && input[id].IsReference() && types[id] == input[id] && id !in path
      modifies types, canonMap, this`rank, table
      ensures r >= 0 || r == -ELOOP
      ensures r == -ELOOP ==> HasRefCycle(input)
      ensures r >= 0 ==> Valid() && RefReady(d, Snap(), input, path, fin', id)
      ensures r >= 0 ==> Settles(old(canonMap[..]), canonMap[..])
      ensures r >= 0 ==> forall i :: i in path && i < types.Length ==> types[i] == old(types[i])
      ensures r >= 0 ==> Untouched() <= old(Untouched())
      ensures fin <= fin'
      decreases Untouched(), 1
    {
      hide StateOk, TableReady, HypState, RefStatuses, AllDoneRefs, Topo, MeaningKept, SameGraph, Forest, Refs;
      r, fin' := 0, fin;
      for j := 0 to |Refs(types[id])|
        invariant Valid() && RefInv(d, Snap(), input, path + [id], fin')
        invariant |Refs(types[id])| == |Refs(input[id])|
        invariant RefsResolved(Snap(), types[id], input[id], j)
        invariant forall k :: j <= k < |Refs(input[id])| ==> Refs(types[id])[k] == Refs(input[id])[k]
        invariant Settles(old(canonMap[..]), canonMap[..])
        invariant forall i :: i in path && i < types.Length ==> types[i] == old(types[i])
        invariant Untouched() <= old(Untouched()) && fin <= fin'
      {
        ghost var s := Snap();
        var c := Refs(types[id])[j];
        RefStepsTo(d, s, input, path, fin', id, j);
        r, fin' := RefType(c, input, path + [id], fin');
        if r < 0 {
          return;
        }
        assert id in path + [id];
        RefsResolvedSettled(s, Snap(), types[id], input[id], j);
        RefSet(d, Snap(), input, path + [id], fin', id, j, r);
        types[id] := SetRef(types[id], j, r);
      }
    }

    // Gives a type whose references are all representatives a representative of its own.
    method FinishRef(id: nat, ghost input: seq<BtfType>, ghost path: seq<nat>, ghost fin: seq<nat>) returns (r: int)
      requires Valid() && RefReady(d, Snap(), input, path, fin, id)
      modifies canonMap, this`rank, table
      ensures r >= 0 && Valid() && RefInv(d, Snap(), input, path, fin + [id])
      ensures Settles(old(canonMap[..]), canonMap[..]) && RefResolved(Snap(), r, id)
      ensures Untouched() <= old(Untouched())
    {
      hide RefReady, StateOk, TableReady, HypState, RestOk, HashOf, Forest, RefStatuses, AllDoneRefs, Topo,
        MeaningKept, SameGraph, Refs, RefsResolved, RefResolved, CandsOk;
      RefReadyStatus(d, Snap(), input, path, fin, id);
      var h := HashReference(types[id]);
      var cands := Candidates(h);
      var newId := FindEqual(id, cands, h);
      RecordRef(id, newId, h, cands, input, path, fin);
      return newId;
    }

    // Records the representative found for reference type id.
    method RecordRef(id: nat, newId: nat, h: nat, ghost cands: seq<nat>, ghost input: seq<BtfType>,
                     ghost path: seq<nat>, ghost fin: seq<nat>)
      requires Valid() && RefReady(d, Snap(), input, path, fin, id) && RestOk(types[id])
      requires h == HashOf(types[id]) && CandsOk(table.Entries(), h, cands)
      requires newId < types.Length && types[newId] == types[id] && (newId == id || newId in cands)
      requires newId == id ==> forall c :: c in cands && c < types.Length ==> types[c] != types[id]
      modifies canonMap, this`rank, table
      ensures Valid() && RefInv(d, Snap(), input, path, fin + [id])
      ensures Settles(old(canonMap[..]), canonMap[..]) && RefResolved(Snap(), newId, id)
      ensures Untouched() <= old(Untouched())
    {
      hide StateOk, TableReady, HypState, RestOk, HashOf, Forest, RefStatuses, AllDoneRefs, Topo, MeaningKept,
        SameGraph, Refs, RefsResolved, RefResolved, CandsOk;
      if newId == id {
        RefReadyStatus(d, Snap(), input, path, fin, id);
        StateTable(Snap());
        ghost var s := RefFiled(d, Snap(), input, path, fin, id, cands);
        FileCanonical(id, h);
      } else {
        ghost var s := RefMapped(d, Snap(), input, path, fin, id, h, cands, newId);
        Repoint(id, newId, s.rank);
      }
    }

    // The reference pass: it fails exactly when some reference cycle avoids structs and unions.
    method RefTypes() returns (err: int, ghost fin: seq<nat>)
      requires Valid() && RefInv(d, Snap(), types[..], [], [])
      modifies types, canonMap, this`rank, table
      ensures err == if HasRefCycle(old(types[..])) then -ELOOP else 0
      ensures err == 0 ==> Valid() && RefInv(d, Snap(), old(types[..]), [], fin)
      ensures err == 0 ==> forall i :: 0 <= i < types.Length ==> Mapped(canonMap[..], i)
      ensures err == 0 ==> Settles(old(canonMap[..]), canonMap[..])
    {
      hide StateOk, TableReady, HypState, RefStatuses, AllDoneRefs, Topo, MeaningKept, SameGraph, Forest, Refs,
        HasRefCycle;
      ghost var input := types[..];
      NotEmpty(Snap());
      fin := [];
      for i := 1 to types.Length
        invariant Valid() && RefInv(d, Snap(), input, [], fin)
        invariant forall j :: 1 <= j < i && input[j].IsReference() ==> j in fin
        invariant Settles(old(canonMap[..]), canonMap[..])
      {
        ghost var fin0 := fin;
        err, fin := RefType(i, input, [], fin);
        if err < 0 {
          return;
        }
        PrefixMembers(fin0, fin);
      }
      AllFinished(d, Snap(), input, fin);
      return 0, fin;
    }

    // Moves the canonical types together, in order and in place, and records their new ids.
    method CompactTypes() returns (nr: nat)
      requires canonMap != hypotMap && types.Length == canonMap.Length == hypotMap.Length
      requires types.Length >= 1 && canonMap[0] == 0
      modifies types, hypotMap
      ensures Compacted(old(types[..]), canonMap[..], types[..], hypotMap[..], types.Length, nr)
    {
      InitHypotMap();
      hypotMap[0] := 0;
      nr := 1;
      for id := 1 to types.Length
        invariant Compacted(old(types[..]), canonMap[..], types[..], hypotMap[..], id, nr)
      {
        if canonMap[id] == id {
          CompactKeeps(old(types[..]), canonMap[..], types[..], hypotMap[..], id, nr);
          hide Compacted;
          types[nr] := types[id];
          hypotMap[id] := nr;
          nr := nr + 1;
        } else {
          CompactSkips(old(types[..]), canonMap[..], types[..], hypotMap[..], id, nr);
        }
      }
    }

    // Sends every reference of the kept types to the new id of its representative.
    method RemapTypes(nr: nat, ghost g: seq<BtfType>) returns (err: int)
      requires canonMap != hypotMap && types.Length == canonMap.Length == hypotMap.Length == |g| && GraphOk(g)
      requires types.Length <= BTF_MAX_NR_TYPES + 1 && AllMapped(canonMap[..])
      requires Remapped(g, canonMap[..], rank, hypotMap[..], types[..], 0)
      requires nr == |Kept(canonMap[..], canonMap.Length)| && Numbers(hypotMap[..], Kept(canonMap[..], canonMap.Length))
      modifies types
      ensures err == 0
      ensures IsOutput(g, canonMap[..], rank, hypotMap[..], types[..nr])
    {
      for b := 0 to nr
        invariant Remapped(g, canonMap[..], rank, hypotMap[..], types[..], b)
      {
        var t;
        err, t := RemapRecord(types[b], g, Kept(canonMap[..], canonMap.Length)[b]);
        if err != 0 {
          return;
        }
        RemapsOne(g, canonMap[..], rank, hypotMap[..], types[..], b, t);
        types[b] := t;
      }
      RemapsAll(g, canonMap[..], rank, hypotMap[..], types[..]);
      return 0;
    }

    // The visitor of the type ids of one record.
    method RemapRecord(t: BtfType, ghost g: seq<BtfType>, ghost c: nat) returns (err: int, t': BtfType)
      requires canonMap.Length == hypotMap.Length == |g| <= BTF_MAX_NR_TYPES + 1 && GraphOk(g) && c < |g| && t == g[c]
      requires Forest(canonMap[..], rank) && AllMapped(canonMap[..])
      requires Numbers(hypotMap[..], Kept(canonMap[..], canonMap.Length))
      ensures err == 0
      ensures Renumbered(canonMap[..], rank, hypotMap[..], t, t')
    {
      assert RefsBelow(g[c], |g|);
      t' := t;
      for j := 0 to |Refs(t)|
        invariant Shape(t') == Shape(t) && (RestOk(t) ==> RestOk(t')) && |Refs(t')| == |Refs(t)|
        invariant RenumberedUpTo(canonMap[..], rank, hypotMap[..], t, t', j)
        invariant forall i :: j <= i < |Refs(t)| ==> Refs(t')[i] == Refs(t)[i]
      {
        var root := ResolveTypeId(Refs(t')[j]);
        NewIdKept(canonMap[..], rank, hypotMap[..], Refs(t)[j]);
        if hypotMap[root] > BTF_MAX_NR_TYPES {
          return -EINVAL, t';
        }
        SetRefChangesOneRef(t', j, hypotMap[root]);
        t' := SetRef(t', j, hypotMap[root]);
      }
      err := 0;
    }

    // The passes over types, in order. `m0` is the map after the pass over composites.
    method Passes() returns (err: int, ghost m0: seq<nat>, ghost fin: seq<nat>)
      requires Valid() && Faithful() && PrimProgress(d, Snap(), 1)
      modifies types, canonMap, hypotMap, this`hypotList, this`hypotAdjustCanon, this`rank, table
      ensures err != -EINVAL ==> err == if HasRefCycle(old(types[..])) then -ELOOP else 0
      ensures err == 0 ==> Valid() && Finished(d, Snap(), old(types[..]), m0, fin)
      ensures Checkable(old(types[..])) ==> err != -EINVAL
      ensures !KnownKinds(old(types[..])) ==> err == -EINVAL
    {
      hide StateOk, TableReady, HypState, MeaningKept, Statuses, MappedClosed, EnumsResolved, HasRefCycle,
        StructStatuses, RefInv, CompositesDistinct, FromUnits;
      m0, fin := [], [];
      err := PrimTypes();
      if err != 0 {
        return;
      }
      StructBegins(d, Snap());
      ghost var trail;
      err, trail := StructTypes();
      if err != 0 {
        return;
      }
      RefBegins(d, Snap());
      m0 := canonMap[..];
      err, fin := RefTypes();
      if err == 0 {
        MappedThroughout(Snap());
      }
    }

    // Replaces the types by one record for each representative, renumbered. Gives back their number.
    method Renumber(ghost input: seq<BtfType>, ghost m0: seq<nat>, ghost fin: seq<nat>)
      returns (err: int, nr: nat, ghost ids: seq<nat>, ghost reps: seq<nat>)
      requires Valid() && Finished(d, Snap(), input, m0, fin) && GraphOk(input)
      modifies types, hypotMap
      ensures err == 0 && 1 <= nr <= types.Length
      ensures IsDedup(d, input, types[..nr], ids, reps)
    {
      ghost var s := Snap();
      FinishedMapped(d, s, input, m0, fin);
      hide Finished, GraphOk, Kept, IsDedup, StateOk, TableReady, HypState, Forest, Compacted, Remapped, Numbers,
        IsOutput;
      nr := CompactTypes();
      CompactedStartsRemap(s.g, s.m, s.rank, hypotMap[..], types[..], nr);
      err := RemapTypes(nr, s.g);
      DedupIsRight(d, s, input, m0, fin, hypotMap[..], types[..nr]);
      ids, reps := NewIds(s.m, s.rank, hypotMap[..]), Kept(s.m, |s.m|);
    }
  }

  // Deduplicates a type graph in place: on success its first `nr` records are the result, in
  // which every input type i has become ids[i]. Names that are only declared somewhere in the input
  // are set aside if declarations are resolved.
  method Deduplicate(types: array<BtfType>, dontResolveFwds: bool, collideAll: bool)
    returns (err: int, nr: nat, ghost ids: seq<nat>, ghost reps: seq<nat>)
    requires GraphOk(types[..]) && types.Length <= BTF_MAX_NR_TYPES + 1
    modifies types
    ensures err != -EINVAL ==> err == if HasRefCycle(old(types[..])) then -ELOOP else 0
    ensures err == 0 ==> nr <= types.Length
    ensures err == 0 ==>
              IsDedup(NamesFor(old(types[..]), dontResolveFwds), old(types[..]), types[..nr], ids, reps)
    ensures Checkable(old(types[..])) || FromUnits({}, old(types[..])) ==> err != -EINVAL
    ensures !KnownKinds(old(types[..])) ==> err == -EINVAL
  {
    nr, ids, reps := 0, [], [];
    if FromUnits({}, types[..]) {
      UnitsCheckable(types[..]);
    }
    hide FromUnits, Checkable, HasRefCycle, IsDedup, PrimProgress, Finished, GraphOk, NamesFor;
    var dedup := new Dedup(types, dontResolveFwds, collideAll);
    PrimStart(dedup.d, dedup.Snap());
    ghost var m0, fin;
    err, m0, fin := dedup.Passes();
    if err == 0 {
      err, nr, ids, reps := dedup.Renumber(old(types[..]), m0, fin);
    }
  }
}
