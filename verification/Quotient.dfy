// What the passes achieve together: representatives stand for meanings.

module Quotient {
  import opened BtfTypes
  import opened BtfCompare
  import opened TypeGraph
  import opened Definitions
  import opened CanonMap
  import opened DedupState
  import opened HypotMap
  import opened PrimSteps
  import opened StructSteps
  import opened RefSteps
  import opened Renumber

  // The state after the reference pass over `input`, whose composites were settled by `m0`.
  ghost predicate Finished(d: Names, s: Snapshot, input: seq<BtfType>, m0: seq<nat>, fin: seq<nat>) {
    RefInv(d, s, input, [], fin) && AllMapped(s.m) && |m0| == |input| && Settles(m0, s.m) &&
    StructStatuses(input, m0, |input|) && EnumFwdsYield(d, input, m0, |input|) &&
    (FromUnits(d, input) ==> CompositesDistinct(d, input, m0))
  }

  lemma DistinctHolds(d: Names, s: Snapshot, input: seq<BtfType>, m0: seq<nat>, fin: seq<nat>)
    requires Finished(d, s, input, m0, fin)
    ensures |s.g| == |s.m| == |input| && Distinct(s.g, s.m)
  {
  }

  // The roots of two reference types are equal exactly if the types say the same about equal roots.
  ghost predicate SameRoots(m: seq<nat>, rank: seq<nat>, a: seq<nat>, b: seq<nat>)
    requires Forest(m, rank)
  {
    |a| == |b| &&
    forall j :: 0 <= j < |a| ==> a[j] < |m| && b[j] < |m| && Root(m, rank, a[j]) == Root(m, rank, b[j])
  }

  lemma FinishedRef(d: Names, s: Snapshot, input: seq<BtfType>, m0: seq<nat>, fin: seq<nat>, x: nat)
    requires Finished(d, s, input, m0, fin) && x < |input| && input[x].IsReference()
    ensures Forest(s.m, s.rank) && x in fin && RefDone(s, input, x) && Shape(s.g[x]) == Shape(input[x])
    ensures Root(s.m, s.rank, x) == s.m[x] && 1 <= s.m[x] < |s.g| && s.g[s.m[x]].IsReference()
    ensures |Refs(s.g[x])| == |Refs(input[x])|
  {
    assert RefStatus(s.g[x], input[x], s.m[x], x, [], fin);
    assert RefDone(s, input, x);
    assert s.g[0] == VOID;
  }

  lemma RefsFollowRoots(s: Snapshot, t: BtfType, u: BtfType, t': BtfType, u': BtfType)
    requires Forest(s.m, s.rank)
    requires RefsResolved(s, t, u, |Refs(u)|) && RefsResolved(s, t', u', |Refs(u')|)
    ensures Refs(t) == Refs(t') <==> SameRoots(s.m, s.rank, Refs(u), Refs(u'))
  {
    assert forall j :: 0 <= j < |Refs(u)| ==> RefResolved(s, Refs(t)[j], Refs(u)[j]);
    assert forall j :: 0 <= j < |Refs(u')| ==> RefResolved(s, Refs(t')[j], Refs(u')[j]);
  }

  // Reference types share a representative exactly if they have one shape and their references
  // share representatives pairwise.
  lemma RefCongruence(d: Names, s: Snapshot, input: seq<BtfType>, m0: seq<nat>, fin: seq<nat>, x: nat, y: nat)
    requires Finished(d, s, input, m0, fin) && x < |input| && y < |input|
    requires input[x].IsReference() && input[y].IsReference()
    ensures Root(s.m, s.rank, x) == Root(s.m, s.rank, y) <==>
            Shape(input[x]) == Shape(input[y]) && SameRoots(s.m, s.rank, Refs(input[x]), Refs(input[y]))
  {
    FinishedRef(d, s, input, m0, fin, x);
    FinishedRef(d, s, input, m0, fin, y);
    DistinctHolds(d, s, input, m0, fin);
    RefsFollowRoots(s, s.g[x], input[x], s.g[y], input[y]);
    if Shape(s.g[x]) == Shape(s.g[y]) && Refs(s.g[x]) == Refs(s.g[y]) {
      ShapeAndRefsDetermine(s.g[x], s.g[y]);
    }
  }

  // The representative of x, seen in the input.
  lemma RootInInput(d: Names, s: Snapshot, input: seq<BtfType>, m0: seq<nat>, fin: seq<nat>, x: nat)
    requires Finished(d, s, input, m0, fin) && x < |input|
    ensures Forest(s.m, s.rank) && Root(s.m, s.rank, x) < |input|
    ensures SameMeaning(d, input, x, input, Root(s.m, s.rank, x))
  {
    var r := Root(s.m, s.rank, x);
    RootMeaning(d, s.g, s.m, s.rank, x);
    assert SameMeaning(d, input, x, s.g, x) && SameMeaning(d, input, r, s.g, r);
  }

  // Types that do not refer to others through the reference pass: equal meanings share a representative.
  lemma LeavesMerged(d: Names, s: Snapshot, input: seq<BtfType>, m0: seq<nat>, fin: seq<nat>, x: nat, y: nat)
    requires Finished(d, s, input, m0, fin) && InUnits(d, input, x) && GraphOk(input)
    requires x < |input| && y < |input| && SameMeaning(d, input, x, input, y)
    requires !IsOpen(d, input[x]) && !IsOpen(d, input[y])
    requires !input[x].IsReference() && !input[x].IsVarOrDatasec()
    ensures Forest(s.m, s.rank) && Root(s.m, s.rank, x) == Root(s.m, s.rank, y)
  {
    hide StateOk, AllDoneRefs, Topo, FromUnits, GraphOk, Comparable, EnumFwdsYield;
    RootInInput(d, s, input, m0, fin, x);
    RootInInput(d, s, input, m0, fin, y);
    var a, b := Root(s.m, s.rank, x), Root(s.m, s.rank, y);
    MeaningsJoin(d, input, x, y, a, b);
    ComparableTransfers(d, input, x, a);
    RootIsDefined(d, s, input, m0, fin, x);
    RootIsDefined(d, s, input, m0, fin, y);
    ComparableAgrees(d, input, x, a);
    FitsRealKind(d, input[x], input[a]);
    CanonicalLeaves(d, s, input, m0, fin, a, b);
  }

  // What is not open has a representative that is not.
  lemma RootIsDefined(d: Names, s: Snapshot, input: seq<BtfType>, m0: seq<nat>, fin: seq<nat>, x: nat)
    requires Finished(d, s, input, m0, fin) && x < |input| && !IsOpen(d, input[x])
    ensures Forest(s.m, s.rank) && Root(s.m, s.rank, x) < |input| && !IsOpen(d, input[Root(s.m, s.rank, x)])
  {
    RootInInput(d, s, input, m0, fin, x);
    var r := Root(s.m, s.rank, x);
    SameMeaningStep(d, input, x, input, r);
    RootClass(s.g, s.m, s.rank, x);
    assert RefStatus(s.g[x], input[x], s.m[x], x, [], fin);
    assert RefStatus(s.g[r], input[r], s.m[r], r, [], fin);
  }

  lemma MeaningsJoin(d: Names, g: seq<BtfType>, x: nat, y: nat, a: nat, b: nat)
    requires SameMeaning(d, g, x, g, y) && SameMeaning(d, g, x, g, a) && SameMeaning(d, g, y, g, b)
    ensures SameMeaning(d, g, a, g, b)
  {
  }

  lemma CanonicalLeaves(d: Names, s: Snapshot, input: seq<BtfType>, m0: seq<nat>, fin: seq<nat>, a: nat, b: nat)
    requires Finished(d, s, input, m0, fin) && InUnits(d, input, a) && GraphOk(input)
    requires a < |input| && b < |input| && Canonical(s.m, a) && Canonical(s.m, b)
    requires !IsOpen(d, input[a]) && !IsOpen(d, input[b])
    requires SameMeaning(d, input, a, input, b) && !input[a].IsReference() && !input[a].IsVarOrDatasec()
    ensures a == b
  {
    hide SameMeaning, Comparable;
    ComparableAgrees(d, input, a, b);
    DistinctHolds(d, s, input, m0, fin);
    hide Refs, Shape, StateOk, AllDoneRefs, Topo, MeaningKept, SameGraph, GraphOk, HasUnit;
    assert RefStatus(s.g[a], input[a], s.m[a], a, [], fin);
    assert RefStatus(s.g[b], input[b], s.m[b], b, [], fin);
    if input[a].IsPrimitive() {
      CanonicalPrimitives(d, s, input, m0, fin, a, b);
    } else if input[a].IsComposite() {
      FittingDefinitions(d, input[a], input[b]);
      assert StructStatus(input[a], m0[a], a, |input|) && StructStatus(input[b], m0[b], b, |input|);
    } else {
      RefCountFromShape(input[a], input[b]);
    }
  }

  lemma CanonicalPrimitives(d: Names, s: Snapshot, input: seq<BtfType>, m0: seq<nat>, fin: seq<nat>, a: nat, b: nat)
    requires Finished(d, s, input, m0, fin) && Regular(input) && GraphOk(input)
    requires a < |input| && b < |input| && Canonical(s.m, a) && Canonical(s.m, b)
    requires !IsOpen(d, input[a]) && !IsOpen(d, input[b])
    requires Fits(d, input[a], input[b]) && input[a].IsPrimitive()
    ensures a == b
  {
    DistinctHolds(d, s, input, m0, fin);
    assert RestOk(input[a]) && RestOk(input[b]);
    hide Refs, StateOk, AllDoneRefs, Topo, MeaningKept, SameGraph, GraphOk, SameMeaning, FromUnits, RestOk;
    FitsRealKind(d, input[a], input[b]);
    assert StructStatus(input[a], m0[a], a, |input|) && StructStatus(input[b], m0[b], b, |input|);
    assert RefStatus(s.g[a], input[a], s.m[a], a, [], fin);
    assert RefStatus(s.g[b], input[b], s.m[b], b, [], fin);
    if Shape(input[a]) == Shape(input[b]) {
      PrimitivesOfOneShape(input, a, b);
    } else {
      EnumsAgreeSymmetric(input[a], input[b]);
      if input[a].IsEnumFwd() && input[b].IsEnumFwd() {
        AgreeingFwdsEqual(input[a], input[b]);
      }
    }
  }

  // With units of distinct types, types that mean the same share a representative.
  lemma {:induction false} MeaningsMerged(d: Names, s: Snapshot, input: seq<BtfType>, m0: seq<nat>, fin: seq<nat>,
                                          x: nat, y: nat, n: nat)
    requires n <= |fin| && x < |input| && y < |input| && (input[x].IsReference() ==> x in fin[..n])
    requires Finished(d, s, input, m0, fin) && FromUnits(d, input) && Decided(d, input, x, y) && GraphOk(input)
    requires SameMeaning(d, input, x, input, y) && !input[x].IsVarOrDatasec()
    ensures Forest(s.m, s.rank) && Root(s.m, s.rank, x) == Root(s.m, s.rank, y)
    decreases n
  {
    hide Refs, Shape, Unfold, FromUnits, Decided, Comparable, GraphOk, IsDeclared;
    DecidedComparable(d, input, x, y);
    if !input[x].IsReference() {
      LeavesMerged(d, s, input, m0, fin, x, y);
      return;
    }
    ReferencesAgree(d, input, x, y);
    hide SameMeaning;
    var k :| 0 <= k < n && fin[k] == x;
    forall j | 0 <= j < |Refs(input[x])|
      ensures Refs(input[x])[j] < |s.m| && Refs(input[y])[j] < |s.m|
      ensures Root(s.m, s.rank, Refs(input[x])[j]) == Root(s.m, s.rank, Refs(input[y])[j])
    {
      var c := Refs(input[x])[j];
      KidInOrder(d, input, fin, x, j, k);
      KidInRange(input, y, j);
      DecidedKids(d, input, x, y, j);
      MeaningsMerged(d, s, input, m0, fin, c, Refs(input[y])[j], k);
    }
    RefCongruence(d, s, input, m0, fin, x, y);
  }

  // Reference types bear no declared names.
  lemma ReferencesAgree(d: Names, g: seq<BtfType>, x: nat, y: nat)
    requires x < |g| && y < |g| && SameMeaning(d, g, x, g, y) && g[x].IsReference()
    ensures g[y].IsReference() && Shape(g[x]) == Shape(g[y]) && KidsMean(d, g, x, y)
  {
    SameMeaningStep(d, g, x, g, y);
    RefCountFromShape(g[x], g[y]);
  }

  lemma KidInRange(g: seq<BtfType>, x: nat, j: nat)
    requires GraphOk(g) && x < |g| && j < |Refs(g[x])|
    ensures Refs(g[x])[j] < |g|
  {
    assert RefsBelow(g[x], |g|);
  }

  // The references of a reference type lie in its unit, and earlier in the order.
  lemma KidInOrder(d: Names, input: seq<BtfType>, fin: seq<nat>, x: nat, j: nat, k: nat)
    requires InUnits(d, input, x) && GraphOk(input) && Topo(input, fin) && k < |fin| && fin[k] == x
    requires x < |input| && input[x].IsReference() && j < |Refs(input[x])|
    ensures var c := Refs(input[x])[j];
            c < |input| && !input[c].IsVarOrDatasec() && (input[c].IsReference() ==> c in fin[..k])
  {
    var c := Refs(input[x])[j];
    assert RefsBelow(input[x], |input|);
    assert input[0] == VOID;
    var unit := UnitOf(d, input, x);
    assert c in unit;
    if input[c].IsReference() {
      assert RefEdge(input, fin[k], c);
    }
  }

  // Representatives refer to representatives.
  lemma RefsAreRoots(d: Names, s: Snapshot, input: seq<BtfType>, m0: seq<nat>, fin: seq<nat>, x: nat, j: nat)
    requires Finished(d, s, input, m0, fin) && x < |s.g| && s.g[x].IsReference() && j < |Refs(s.g[x])|
    ensures Forest(s.m, s.rank) && Refs(s.g[x])[j] < |s.m|
    ensures Root(s.m, s.rank, Refs(s.g[x])[j]) == Refs(s.g[x])[j]
  {
    assert RefStatus(s.g[x], input[x], s.m[x], x, [], fin);
    assert RefDone(s, input, x);
    assert RefResolved(s, Refs(s.g[x])[j], Refs(input[x])[j]);
  }

  // No two output records of an exact kind are equal.
  lemma OutputDistinct(d: Names, s: Snapshot, input: seq<BtfType>, m0: seq<nat>, fin: seq<nat>,
                       news: seq<nat>, out: seq<BtfType>, b: nat, c: nat)
    requires Finished(d, s, input, m0, fin) && |news| == |s.m|
    requires IsOutput(s.g, s.m, s.rank, news, out) && 1 <= b < |out| && 1 <= c < |out| && b != c
    requires IsExact(out[b]) && !out[b].IsFwd()
    ensures out[b] != out[c]
  {
    DistinctHolds(d, s, input, m0, fin);
    hide Refs, Shape, RestOk, Finished;
    KeptExact(s.m, |s.m|);
    var k := Kept(s.m, |s.m|);
    assert k[b] in k && k[c] in k;
    assert Renumbered(s.m, s.rank, news, s.g[k[b]], out[b]) && Renumbered(s.m, s.rank, news, s.g[k[c]], out[c]);
    if out[b] == out[c] {
      EqualOutputs(d, s, input, m0, fin, news, out[b], k[b], k[c]);
    }
  }

  lemma EqualOutputs(d: Names, s: Snapshot, input: seq<BtfType>, m0: seq<nat>, fin: seq<nat>,
                     news: seq<nat>, t: BtfType, x: nat, y: nat)
    requires Finished(d, s, input, m0, fin) && |news| == |s.m| && x < |s.g| && y < |s.g| && Forest(s.m, s.rank)
    requires Numbers(news, Kept(s.m, |s.m|)) && IsExact(t) && !t.IsFwd() && RestOk(s.g[x])
    requires Renumbered(s.m, s.rank, news, s.g[x], t) && Renumbered(s.m, s.rank, news, s.g[y], t)
    ensures s.g[x] == s.g[y]
  {
    RefCountFromShape(s.g[x], t);
    RefCountFromShape(s.g[y], t);
    if t.IsReference() {
      EqualOutputRefs(d, s, input, m0, fin, news, t, x, y);
    } else {
      ExactHasNoRefs(s.g[x]);
      ExactHasNoRefs(s.g[y]);
    }
    ShapeAndRefsDetermine(s.g[x], s.g[y]);
  }

  lemma ExactHasNoRefs(t: BtfType)
    requires IsExact(t) && !t.IsFwd() && !t.IsReference()
    ensures RestOk(t) ==> Refs(t) == []
    ensures |Refs(t)| == 0 ==> Refs(t) == []
  {
  }

  lemma EqualOutputRefs(d: Names, s: Snapshot, input: seq<BtfType>, m0: seq<nat>, fin: seq<nat>,
                        news: seq<nat>, t: BtfType, x: nat, y: nat)
    requires Finished(d, s, input, m0, fin) && |news| == |s.m| && x < |s.g| && y < |s.g| && Forest(s.m, s.rank)
    requires Numbers(news, Kept(s.m, |s.m|)) && s.g[x].IsReference() && s.g[y].IsReference()
    requires Renumbered(s.m, s.rank, news, s.g[x], t) && Renumbered(s.m, s.rank, news, s.g[y], t)
    ensures Refs(s.g[x]) == Refs(s.g[y])
  {
    FinishedMapped(d, s, input, m0, fin);
    hide Finished, Refs, Shape, RestOk, Kept, Numbers, AllMapped;
    forall j | 0 <= j < |Refs(t)| ensures Refs(s.g[x])[j] == Refs(s.g[y])[j] {
      RefsAreRoots(d, s, input, m0, fin, x, j);
      RefsAreRoots(d, s, input, m0, fin, y, j);
      NewIdInjective(s.m, s.rank, news, Refs(s.g[x])[j], Refs(s.g[y])[j]);
    }
  }

  lemma FinishedMapped(d: Names, s: Snapshot, input: seq<BtfType>, m0: seq<nat>, fin: seq<nat>)
    requires Finished(d, s, input, m0, fin)
    ensures AllMapped(s.m) && Forest(s.m, s.rank) && |s.m| == |s.g| == |input| <= BTF_MAX_NR_TYPES + 1
    ensures GraphOk(s.g)
  {
  }

  lemma MappedThroughout(s: Snapshot)
    requires StateOk(s) && forall i :: 0 <= i < |s.m| ==> Mapped(s.m, i)
    ensures AllMapped(s.m)
  {
  }

  // The promise of deduplication: `out` is the graph `input` after every id i has become ids[i],
  // and reps[b] is the input id whose record became b. Meanings are kept up to the names in d.
  ghost predicate IsDedup(d: Names, input: seq<BtfType>, out: seq<BtfType>, ids: seq<nat>, reps: seq<nat>) {
    GraphOk(out) && IdsOk(input, out, ids, reps) && RecordsKept(input, out, ids, reps) && OutDistinct(out) &&
    EnumsDefined(d, input, out, ids) &&
    MeaningsKept(d, input, out, ids) && (FromUnits(d, input) ==> OneIdPerMeaning(d, input, ids))
  }

  // Every output record is the input record of its representative, with new ids for old.
  ghost predicate RecordsKept(input: seq<BtfType>, out: seq<BtfType>, ids: seq<nat>, reps: seq<nat>) {
    |reps| == |out| &&
    forall b :: 0 <= b < |out| ==> reps[b] < |input| && RecordKept(input[reps[b]], out[b], ids)
  }

  predicate RecordKept(t: BtfType, t': BtfType, ids: seq<nat>) {
    Shape(t') == Shape(t) && |Refs(t')| == |Refs(t)| &&
    forall j :: 0 <= j < |Refs(t)| ==> Refs(t)[j] < |ids| && Refs(t')[j] == ids[Refs(t)[j]]
  }

  // An enum that is only declared has become a full one if a full one agrees with it.
  ghost predicate EnumsDefined(d: Names, input: seq<BtfType>, out: seq<BtfType>, ids: seq<nat>) {
    |ids| == |input| &&
    forall i, j | 1 <= i < |input| && 1 <= j < |input| && Resolvable(d, input[i]) && IsFullEnum(input[j]) &&
                  EnumsAgree(input[i], input[j]) :: ids[i] < |out| && IsFullEnum(out[ids[i]])
  }

  // New ids are consecutive, keep the order of the representatives, and merge only types of a kind.
  ghost predicate IdsOk(input: seq<BtfType>, out: seq<BtfType>, ids: seq<nat>, reps: seq<nat>) {
    |ids| == |input| && |reps| == |out| && Increasing(reps) &&
    (forall b :: 0 <= b < |out| ==> reps[b] < |input| && ids[reps[b]] == b) &&
    (forall i :: 0 <= i < |input| ==> ids[i] < |out| && MergesInto(input[i], out[ids[i]]))
  }

  ghost predicate OutDistinct(out: seq<BtfType>) {
    forall b, c | 1 <= b < |out| && 1 <= c < |out| && b != c && IsExact(out[b]) && !out[b].IsFwd() :: out[b] != out[c]
  }

  ghost predicate MeaningsKept(d: Names, input: seq<BtfType>, out: seq<BtfType>, ids: seq<nat>) {
    |ids| == |input| && forall i :: 0 <= i < |input| ==> SameMeaning(d, input, i, out, ids[i])
  }

  // Types get one id exactly if they mean the same, where declarations leave nothing open: they lead to
  // no declared name, or every declared name has one definition and neither is merely declared.
  ghost predicate OneIdPerMeaning(d: Names, input: seq<BtfType>, ids: seq<nat>) {
    |ids| == |input| &&
    forall x, y | 0 <= x < |input| && 0 <= y < |input| && !input[x].IsVarOrDatasec() && Decided(d, input, x, y) ::
      SameMeaning(d, input, x, input, y) <==> ids[x] == ids[y]
  }

  // What the ids of two types say about their meanings.
  lemma IdsTell(d: Names, input: seq<BtfType>, out: seq<BtfType>, ids: seq<nat>, reps: seq<nat>, x: nat, y: nat)
    requires IsDedup(d, input, out, ids, reps) && x < |input| && y < |input|
    ensures |ids| == |input| && (ids[x] == ids[y] ==> SameMeaning(d, input, x, input, y))
    ensures FromUnits(d, input) && Decided(d, input, x, y) && !input[x].IsVarOrDatasec() ==>
              (SameMeaning(d, input, x, input, y) <==> ids[x] == ids[y])
  {
    hide IdsOk, OutDistinct, EnumsDefined, GraphOk, FromUnits, Decided;
    assert SameMeaning(d, input, x, out, ids[x]) && SameMeaning(d, input, y, out, ids[y]);
  }

  ghost function NewIds(m: seq<nat>, rank: seq<nat>, news: seq<nat>): (ids: seq<nat>)
    requires Forest(m, rank) && |m| == |news|
    ensures |ids| == |m| && forall i :: 0 <= i < |m| ==> ids[i] == NewId(m, rank, news, i)
  {
    seq(|m|, i requires 0 <= i < |m| => NewId(m, rank, news, i))
  }

  lemma DedupIsRight(d: Names, s: Snapshot, input: seq<BtfType>, m0: seq<nat>, fin: seq<nat>,
                     news: seq<nat>, out: seq<BtfType>)
    requires Finished(d, s, input, m0, fin) && GraphOk(input) && |news| == |s.m|
    requires IsOutput(s.g, s.m, s.rank, news, out)
    ensures Forest(s.m, s.rank)
    ensures IsDedup(d, input, out, NewIds(s.m, s.rank, news), Kept(s.m, |s.m|))
  {
    hide Finished, IsOutput, Kept, Forest, GraphOk, IsExact, SameMeaning, FromUnits;
    FinishedMapped(d, s, input, m0, fin);
    OutputInOrder(d, s, input, m0, fin, news, out);
    IdsAreOk(d, s, input, m0, fin, news, out);
    assert OutDistinct(out) by {
      forall b, c | 1 <= b < |out| && 1 <= c < |out| && b != c && IsExact(out[b]) && !out[b].IsFwd()
        ensures out[b] != out[c]
      {
        OutputDistinct(d, s, input, m0, fin, news, out, b, c);
      }
    }
    RecordsAreKept(d, s, input, m0, fin, news, out);
    EnumsAreDefined(d, s, input, m0, fin, news, out);
    hide IdsOk, OutDistinct, RecordsKept, EnumsDefined;
    forall i | 0 <= i < |input| ensures SameMeaning(d, input, i, out, NewId(s.m, s.rank, news, i)) {
      InputMeaning(d, s, input, m0, fin, news, out, i);
    }
    if FromUnits(d, input) {
      OneIdEach(d, s, input, m0, fin, news, out);
    }
  }

  lemma EnumsAreDefined(d: Names, s: Snapshot, input: seq<BtfType>, m0: seq<nat>, fin: seq<nat>,
                        news: seq<nat>, out: seq<BtfType>)
    requires Finished(d, s, input, m0, fin) && |news| == |s.m| && Forest(s.m, s.rank) && GraphOk(input)
    requires IsOutput(s.g, s.m, s.rank, news, out)
    ensures EnumsDefined(d, input, out, NewIds(s.m, s.rank, news))
  {
    var k := Kept(s.m, |s.m|);
    forall i, j | 1 <= i < |input| && 1 <= j < |input| && Resolvable(d, input[i]) && IsFullEnum(input[j]) &&
                  EnumsAgree(input[i], input[j])
      ensures NewId(s.m, s.rank, news, i) < |out| && IsFullEnum(out[NewId(s.m, s.rank, news, i)])
    {
      FinishedMapped(d, s, input, m0, fin);
      NewIdKept(s.m, s.rank, news, i);
      var b := NewId(s.m, s.rank, news, i);
      assert Renumbered(s.m, s.rank, news, s.g[k[b]], out[b]);
      EnumRootFull(d, s, input, m0, fin, i, j);
      hide Finished, IsOutput, Kept, Forest;
      RefCountFromShape(s.g[k[b]], out[b]);
    }
  }

  lemma EnumRootFull(d: Names, s: Snapshot, input: seq<BtfType>, m0: seq<nat>, fin: seq<nat>, i: nat, j: nat)
    requires Finished(d, s, input, m0, fin) && 1 <= i < |input| && 1 <= j < |input| && Forest(s.m, s.rank)
    requires Resolvable(d, input[i]) && IsFullEnum(input[j]) && EnumsAgree(input[i], input[j])
    ensures Root(s.m, s.rank, i) < |s.g| && IsFullEnum(s.g[Root(s.m, s.rank, i)])
  {
    RootClass(s.g, s.m, s.rank, i);
    RootInInput(d, s, input, m0, fin, i);
    var r := Root(s.m, s.rank, i);
    assert RefStatus(s.g[i], input[i], s.m[i], i, [], fin);
    assert RefStatus(s.g[r], input[r], s.m[r], r, [], fin);
    hide StateOk, AllDoneRefs, Topo, MeaningKept, SameGraph, SameMeaning, FromUnits, CompositesDistinct;
    assert s.g[0] == VOID;
    assert StructStatus(input[r], m0[r], r, |input|);
  }

  // The reference pass and renumbering together replace every reference by its new id.
  lemma RecordsAreKept(d: Names, s: Snapshot, input: seq<BtfType>, m0: seq<nat>, fin: seq<nat>,
                       news: seq<nat>, out: seq<BtfType>)
    requires Finished(d, s, input, m0, fin) && |news| == |s.m| && Forest(s.m, s.rank)
    requires IsOutput(s.g, s.m, s.rank, news, out)
    ensures RecordsKept(input, out, NewIds(s.m, s.rank, news), Kept(s.m, |s.m|))
  {
    var k := Kept(s.m, |s.m|);
    forall b | 0 <= b < |out|
      ensures k[b] < |input| && RecordKept(input[k[b]], out[b], NewIds(s.m, s.rank, news))
    {
      assert Renumbered(s.m, s.rank, news, s.g[k[b]], out[b]);
      hide Kept, IsOutput, Renumbered;
      RecordIsKept(d, s, input, m0, fin, news, k[b], out[b]);
    }
  }

  lemma RecordIsKept(d: Names, s: Snapshot, input: seq<BtfType>, m0: seq<nat>, fin: seq<nat>,
                     news: seq<nat>, x: nat, t: BtfType)
    requires Finished(d, s, input, m0, fin) && |news| == |s.m| && Forest(s.m, s.rank) && x < |s.g|
    requires Renumbered(s.m, s.rank, news, s.g[x], t)
    ensures x < |input| && RecordKept(input[x], t, NewIds(s.m, s.rank, news))
  {
    hide Refs, Shape, RestOk, StateOk, Topo, SameGraph, MeaningKept, StructStatuses, FromUnits, CompositesDistinct;
    assert RefStatus(s.g[x], input[x], s.m[x], x, [], fin);
    if input[x].IsReference() {
      FinishedRef(d, s, input, m0, fin, x);
    }
    forall j | 0 <= j < |Refs(input[x])|
      ensures Refs(input[x])[j] < |s.m| && Refs(t)[j] == NewId(s.m, s.rank, news, Refs(input[x])[j])
    {
      if input[x].IsReference() {
        assert RefResolved(s, Refs(s.g[x])[j], Refs(input[x])[j]);
      }
    }
  }

  lemma OutputInOrder(d: Names, s: Snapshot, input: seq<BtfType>, m0: seq<nat>, fin: seq<nat>,
                      news: seq<nat>, out: seq<BtfType>)
    requires Finished(d, s, input, m0, fin) && |news| == |s.m| && Forest(s.m, s.rank)
    requires IsOutput(s.g, s.m, s.rank, news, out)
    ensures GraphOk(out)
  {
    FinishedMapped(d, s, input, m0, fin);
    OutputOk(s.g, s.m, s.rank, news, out);
  }

  lemma RepsNumbered(d: Names, s: Snapshot, input: seq<BtfType>, m0: seq<nat>, fin: seq<nat>,
                     news: seq<nat>, out: seq<BtfType>)
    requires Finished(d, s, input, m0, fin) && |news| == |s.m| && Forest(s.m, s.rank)
    requires IsOutput(s.g, s.m, s.rank, news, out)
    ensures |Kept(s.m, |s.m|)| == |out| && Increasing(Kept(s.m, |s.m|))
    ensures forall b :: 0 <= b < |out| ==>
      Kept(s.m, |s.m|)[b] < |s.m| && NewIds(s.m, s.rank, news)[Kept(s.m, |s.m|)[b]] == b
  {
    FinishedMapped(d, s, input, m0, fin);
    KeptExact(s.m, |s.m|);
    forall b | 0 <= b < |out|
      ensures Kept(s.m, |s.m|)[b] < |s.m| && NewIds(s.m, s.rank, news)[Kept(s.m, |s.m|)[b]] == b
    {
      KeptNumbered(s.m, s.rank, news, b);
    }
  }

  lemma IdsAreOk(d: Names, s: Snapshot, input: seq<BtfType>, m0: seq<nat>, fin: seq<nat>,
                 news: seq<nat>, out: seq<BtfType>)
    requires Finished(d, s, input, m0, fin) && |news| == |s.m| && Forest(s.m, s.rank)
    requires IsOutput(s.g, s.m, s.rank, news, out)
    ensures IdsOk(input, out, NewIds(s.m, s.rank, news), Kept(s.m, |s.m|))
  {
    hide Root, Finished, Kept, IsOutput, GraphOk, AllMapped, MergesInto;
    FinishedMapped(d, s, input, m0, fin);
    RepsNumbered(d, s, input, m0, fin, news, out);
    hide Forest;
    forall i | 0 <= i < |input|
      ensures NewId(s.m, s.rank, news, i) < |out| && MergesInto(input[i], out[NewId(s.m, s.rank, news, i)])
    {
      NewIdClass(d, s, input, m0, fin, news, out, i);
    }
    hide NewId;
  }

  lemma NewIdClass(d: Names, s: Snapshot, input: seq<BtfType>, m0: seq<nat>, fin: seq<nat>,
                   news: seq<nat>, out: seq<BtfType>, i: nat)
    requires Finished(d, s, input, m0, fin) && |news| == |s.m| && Forest(s.m, s.rank) && i < |s.m|
    requires IsOutput(s.g, s.m, s.rank, news, out)
    ensures NewId(s.m, s.rank, news, i) < |out| && MergesInto(input[i], out[NewId(s.m, s.rank, news, i)])
  {
    hide Refs, Shape, RestOk, TableInv, AllDoneRefs, Topo, SameGraph, MeaningKept, StructStatuses, GraphOk, MergesInto,
      EnumFwdsYield, CompositesDistinct, FromUnits;
    var k := Kept(s.m, |s.m|);
    NewIdKept(s.m, s.rank, news, i);
    RootClass(s.g, s.m, s.rank, i);
    var b := NewId(s.m, s.rank, news, i);
    assert Renumbered(s.m, s.rank, news, s.g[k[b]], out[b]);
    assert RefStatus(s.g[i], input[i], s.m[i], i, [], fin);
    MergesAlike(input[i], s.g[i], s.g[k[b]], out[b]);
  }

  lemma MergesAlike(t: BtfType, t': BtfType, u': BtfType, u: BtfType)
    requires MergesInto(t', u') && Shape(t) == Shape(t') && Shape(u) == Shape(u')
    ensures MergesInto(t, u)
  {
    RefCountFromShape(t, t');
    RefCountFromShape(u, u');
  }

  lemma InputMeaning(d: Names, s: Snapshot, input: seq<BtfType>, m0: seq<nat>, fin: seq<nat>,
                     news: seq<nat>, out: seq<BtfType>, i: nat)
    requires Finished(d, s, input, m0, fin) && |news| == |s.m| && i < |input| && Forest(s.m, s.rank)
    requires IsOutput(s.g, s.m, s.rank, news, out)
    ensures SameMeaning(d, input, i, out, NewId(s.m, s.rank, news, i))
  {
    forall x | 0 <= x < |s.m| ensures SameMeaning(d, s.g, x, s.g, Root(s.m, s.rank, x)) {
      RootMeaning(d, s.g, s.m, s.rank, x);
    }
    OutputMeaning(d, s.g, s.m, s.rank, news, out, i);
    assert SameMeaning(d, input, i, s.g, i);
  }

  // Equal meanings, and only those, get one id.
  lemma OneIdEach(d: Names, s: Snapshot, input: seq<BtfType>, m0: seq<nat>, fin: seq<nat>, news: seq<nat>,
                  out: seq<BtfType>)
    requires Finished(d, s, input, m0, fin) && |news| == |s.m| && Forest(s.m, s.rank)
    requires FromUnits(d, input) && GraphOk(input) && IsOutput(s.g, s.m, s.rank, news, out)
    ensures OneIdPerMeaning(d, input, NewIds(s.m, s.rank, news))
  {
    FinishedMapped(d, s, input, m0, fin);
    assert Numbers(news, Kept(s.m, |s.m|)) by {
      OutputNumbers(s.g, s.m, s.rank, news, out);
    }
    hide Finished, FromUnits, GraphOk, Decided, IsOutput, SameMeaning;
    forall x, y | 0 <= x < |input| && 0 <= y < |input| && !input[x].IsVarOrDatasec() && Decided(d, input, x, y)
      ensures SameMeaning(d, input, x, input, y) <==> NewId(s.m, s.rank, news, x) == NewId(s.m, s.rank, news, y)
    {
      NewIdInjective(s.m, s.rank, news, x, y);
      OneRootEach(d, s, input, m0, fin, x, y);
    }
  }

  // Types have one representative exactly if they mean the same.
  lemma OneRootEach(d: Names, s: Snapshot, input: seq<BtfType>, m0: seq<nat>, fin: seq<nat>, x: nat, y: nat)
    requires Finished(d, s, input, m0, fin) && FromUnits(d, input) && Decided(d, input, x, y) && GraphOk(input)
    requires x < |input| && y < |input| && !input[x].IsVarOrDatasec() && Forest(s.m, s.rank) && |s.m| == |input|
    ensures SameMeaning(d, input, x, input, y) <==> Root(s.m, s.rank, x) == Root(s.m, s.rank, y)
  {
    RootInInput(d, s, input, m0, fin, x);
    RootInInput(d, s, input, m0, fin, y);
    if SameMeaning(d, input, x, input, y) {
      if input[x].IsReference() {
        FinishedRef(d, s, input, m0, fin, x);
      }
      assert fin[..|fin|] == fin;
      MeaningsMerged(d, s, input, m0, fin, x, y, |fin|);
    }
    hide Finished, FromUnits, Decided, GraphOk, Unfold;
  }

  lemma OutputNumbers(g: seq<BtfType>, m: seq<nat>, rank: seq<nat>, news: seq<nat>, out: seq<BtfType>)
    requires IsOutput(g, m, rank, news, out)
    ensures Numbers(news, Kept(m, |m|))
  {
  }
}
