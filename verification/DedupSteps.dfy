// What single updates of the canonical map, the types and the table preserve.

module DedupSteps {
  import opened BtfTypes
  import opened BtfCompare
  import opened TypeGraph
  import opened Definitions
  import opened CanonMap
  import opened Hashmap
  import opened DedupState
  import opened HypotMap

  // What a merge of matched pairs leaves alone: representatives other than forward
  // declarations, and every id that is neither a declaration nor a composite.
  ghost predicate MergeKeeps(g: seq<BtfType>, m: seq<nat>, m': seq<nat>) {
    |g| == |m| == |m'| &&
    forall i :: 0 <= i < |m| ==>
      (Mapped(m, i) ==> Mapped(m', i)) &&
      (m[i] == i && !g[i].IsFwd() ==> m'[i] == i) &&
      (!g[i].IsFwd() && !g[i].IsComposite() ==> m'[i] == m[i]) &&
      (m'[i] == i ==> m[i] == i)
  }

  // Sending the root x to another root y that it may merge into.
  lemma MergeStep(s: Snapshot, x: nat, y: nat) returns (rank': seq<nat>)
    requires StateOk(s) && x < |s.m| && y < |s.m| && x != y && IsRoot(s.m, x) && IsRoot(s.m, y)
    requires MergesInto(s.g[x], s.g[y]) && (s.g[x].IsFwd() || (s.g[x].IsComposite() && !Mapped(s.m, x)))
    ensures var s' := s.(m := s.m[x := y], rank := rank');
            StateOk(s') && MergeKeeps(s.g, s.m, s'.m) && Root(s'.m, s'.rank, x) == y
  {
    assert s.g[0] == VOID by {
      GraphHasVoid(s.g);
    }
    hide GraphOk;
    rank' := PointToRoot(s.m, s.rank, x, y);
    if !Mapped(s.m, x) {
      UnmappedNotFixed(s, x);
    }
    hide TableInv;
    PointOk(s, s.(m := s.m[x := y], rank := rank'), x, y);
  }

  lemma GraphHasVoid(g: seq<BtfType>)
    requires GraphOk(g)
    ensures |g| > 0 && g[0] == VOID
  {
  }

  // Re-pointing roots never splits what shared a root, and never un-resolves a declaration.
  lemma {:induction false} RootAfterPoint(m: seq<nat>, rank: seq<nat>, x: nat, y: nat, rank': seq<nat>, z: nat)
    requires Forest(m, rank) && x < |m| && y < |m| && z < |m| && IsRoot(m, x)
    requires Forest(m[x := y], rank')
    ensures Root(m[x := y], rank', z) == Root(m[x := y], rank', Root(m, rank, z))
    decreases rank[z]
  {
    if !IsRoot(m, z) {
      RootAfterPoint(m, rank, x, y, rank', m[z]);
    }
  }

  // A pair of which one side is a definition has no side left that is only declared.
  ghost predicate PairResolved(s: Snapshot, a: nat, c: nat)
    requires Base(s) && a < |s.g| && c < |s.g|
  {
    s.g[a].IsComposite() || s.g[c].IsComposite() ==>
      !s.g[Root(s.m, s.rank, a)].IsFwd() && !s.g[Root(s.m, s.rank, c)].IsFwd()
  }

  lemma PairStaysResolved(s: Snapshot, x: nat, y: nat, rank': seq<nat>, a: nat, c: nat)
    requires Base(s) && x < |s.m| && y < |s.m| && IsRoot(s.m, x) && a < |s.g| && c < |s.g|
    requires Base(s.(m := s.m[x := y], rank := rank')) && ClassKept(s.g, s.m[x := y])
    requires PairResolved(s, a, c)
    ensures PairResolved(s.(m := s.m[x := y], rank := rank'), a, c)
  {
    RootAfterPoint(s.m, s.rank, x, y, rank', a);
    RootAfterPoint(s.m, s.rank, x, y, rank', c);
    RootClass(s.g, s.m[x := y], rank', Root(s.m, s.rank, a));
    RootClass(s.g, s.m[x := y], rank', Root(s.m, s.rank, c));
  }

  // The representatives of a matched pair.
  lemma PairRoots(d: Names, s: Snapshot, a: nat, c: nat)
    requires Base(s) && ClassKept(s.g, s.m) && a < |s.g| && c < |s.g| && RealKind(s.g[a]) == RealKind(s.g[c])
    requires MeaningKept(d, s.g, s.m) && SameMeaning(d, s.g, a, s.g, c)
    ensures var t, r := Root(s.m, s.rank, a), Root(s.m, s.rank, c);
            RealKind(s.g[t]) == RealKind(s.g[r]) &&
            (s.g[a].IsComposite() ==> s.g[t].IsComposite()) &&
            (s.g[c].IsComposite() ==> s.g[r].IsComposite()) &&
            SameMeaning(d, s.g, t, s.g, r) && (d == {} ==> s.g[t].info == s.g[r].info)
  {
    var t, r := Root(s.m, s.rank, a), Root(s.m, s.rank, c);
    RootClass(s.g, s.m, s.rank, a);
    RootClass(s.g, s.m, s.rank, c);
    RootMeaning(d, s.g, s.m, s.rank, a);
    RootMeaning(d, s.g, s.m, s.rank, c);
    assert SameMeaning(d, s.g, t, s.g, r);
    if d == {} {
      ExactMeaningStep(s.g, t, s.g, r);
      RefCountFromShape(s.g[t], s.g[r]);
    }
  }

  ghost predicate ResolvedKept(s: Snapshot, s': Snapshot)
    requires Base(s) && Base(s') && |s.g| == |s'.g|
  {
    forall a, c :: 0 <= a < |s.g| && 0 <= c < |s.g| && PairResolved(s, a, c) ==> PairResolved(s', a, c)
  }

  lemma MergeKeepsTrans(g: seq<BtfType>, m: seq<nat>, m': seq<nat>, m'': seq<nat>)
    requires MergeKeeps(g, m, m') && MergeKeeps(g, m', m'')
    ensures MergeKeeps(g, m, m'')
  {
  }

  lemma ResolvedKeptTrans(s: Snapshot, s': Snapshot, s'': Snapshot)
    requires Base(s) && Base(s') && Base(s'') && |s.g| == |s'.g| == |s''.g|
    requires ResolvedKept(s, s') && ResolvedKept(s', s'')
    ensures ResolvedKept(s, s'')
  {
  }

  // What merging may do to the state, whatever it merges.
  ghost predicate Merged(d: Names, s: Snapshot, s': Snapshot) {
    StateOk(s) && StateOk(s') && s' == s.(m := s'.m, rank := s'.rank) &&
    MergeKeeps(s.g, s.m, s'.m) && ResolvedKept(s, s') &&
    MeaningKept(d, s.g, s.m) && MeaningKept(d, s'.g, s'.m) && (d == {} ==> Settles(s.m, s'.m))
  }

  lemma MergedNothing(d: Names, s: Snapshot)
    requires StateOk(s) && MeaningKept(d, s.g, s.m)
    ensures Merged(d, s, s)
  {
  }

  lemma MergedTrans(d: Names, s: Snapshot, s': Snapshot, s'': Snapshot)
    requires Merged(d, s, s') && Merged(d, s', s'')
    ensures Merged(d, s, s'')
  {
    MergeKeepsTrans(s.g, s.m, s'.m, s''.m);
    ResolvedKeptTrans(s, s', s'');
  }

  // Everything the assignment of one merge does.
  lemma MergeAssigns(d: Names, s: Snapshot, x: nat, y: nat) returns (s': Snapshot)
    requires StateOk(s) && MeaningKept(d, s.g, s.m)
    requires x < |s.m| && y < |s.m| && x != y && IsRoot(s.m, x) && IsRoot(s.m, y)
    requires MergesInto(s.g[x], s.g[y])
    requires SameMeaning(d, s.g, x, s.g, y) && (d == {} ==> !Mapped(s.m, x))
    requires s.g[x].IsFwd() || (s.g[x].IsComposite() && !Mapped(s.m, x))
    ensures s' == s.(m := s.m[x := y], rank := s'.rank)
    ensures Merged(d, s, s')
    ensures forall z :: 0 <= z < |s.m| && Root(s.m, s.rank, z) in {x, y} ==> Root(s'.m, s'.rank, z) == y
  {
    var rank' := MergeStep(s, x, y);
    s' := s.(m := s.m[x := y], rank := rank');
    hide TableInv, ClassKept, Unfold;
    MeaningStep(d, s.g, s.m, x, y);
    hide MeaningKept, Forest, PairResolved;
    PairsStayResolved(s, s', x, y);
    RootsJoin(s, s', x, y);
  }

  lemma PairsStayResolved(s: Snapshot, s': Snapshot, x: nat, y: nat)
    requires StateOk(s) && x < |s.m| && y < |s.m| && x != y && IsRoot(s.m, x) && IsRoot(s.m, y)
    requires MergesInto(s.g[x], s.g[y]) && s' == s.(m := s.m[x := y], rank := s'.rank) && Base(s')
    requires ClassKept(s'.g, s'.m)
    ensures forall a, c :: 0 <= a < |s.g| && 0 <= c < |s.g| && PairResolved(s, a, c) ==> PairResolved(s', a, c)
  {
    hide Forest, PairResolved, MergesInto, TableInv, ClassKept;
    forall a, c | 0 <= a < |s.g| && 0 <= c < |s.g| && PairResolved(s, a, c) ensures PairResolved(s', a, c) {
      PairStaysResolved(s, x, y, s'.rank, a, c);
    }
  }

  lemma RootsJoin(s: Snapshot, s': Snapshot, x: nat, y: nat)
    requires Forest(s.m, s.rank) && x < |s.m| && y < |s.m| && x != y && IsRoot(s.m, x) && IsRoot(s.m, y)
    requires s' == s.(m := s.m[x := y], rank := s'.rank) && Forest(s'.m, s'.rank) && |s.m| <= BTF_MAX_NR_TYPES + 1
    ensures forall z :: 0 <= z < |s.m| && Root(s.m, s.rank, z) in {x, y} ==> Root(s'.m, s'.rank, z) == y
  {
    forall z | 0 <= z < |s.m| && Root(s.m, s.rank, z) in {x, y} ensures Root(s'.m, s'.rank, z) == y {
      RootAfterPoint(s.m, s.rank, x, y, s'.rank, z);
    }
  }

  // What deduplicating composite `id` leaves alone elsewhere.
  ghost predicate StaysExcept(g: seq<BtfType>, m: seq<nat>, m': seq<nat>, id: nat) {
    |g| == |m| == |m'| &&
    forall i :: 0 <= i < |m| && i != id ==>
      (Mapped(m, i) ==> Mapped(m', i)) &&
      (m[i] == i && !g[i].IsFwd() ==> m'[i] == i) &&
      (!g[i].IsFwd() && !g[i].IsComposite() ==> m'[i] == m[i]) &&
      (m'[i] == i ==> m[i] == i)
  }

  // What the equivalence check has established about two composites when it accepts them: the pairs
  // that it matched, each explored with what the records of its types refer to. Afterwards no pair
  // of a declaration and a definition is left unresolved.
  ghost predicate Checked(d: Names, s0: Snapshot, s: Snapshot, hyp: seq<nat>, id: nat, newId: nat) {
    Base(s0) && Base(s) && |s.g| == |s0.g| && HypOk(hyp, |s0.g|) && id < |s0.g| && newId < |s0.g| &&
    Matches(s0, hyp, id, newId) &&
    forall c :: 0 <= c < |s0.g| && IsSet(hyp, c) ==> PairDone(d, s0, hyp, c) && PairResolved(s, hyp[c], c)
  }

  // The equivalence check has accepted candidate newId for id, and their graphs are merged.
  ghost predicate FoundEquivalent(d: Names, s0: Snapshot, s: Snapshot, id: nat, newId: nat) {
    Merged(d, s0, s) && id < |s.g| && newId < |s.g| && id != newId && s0.m[newId] == newId &&
    Shape(s.g[id]) == Shape(s.g[newId]) && SameMeaning(d, s.g, id, s.g, newId) &&
    exists hyp :: Checked(d, s0, s, hyp, id, newId)
  }

  // Merging leaves nothing unresolved of what a check has matched.
  lemma AllChecked(d: Names, s0: Snapshot, s: Snapshot, hyp: seq<nat>, list: seq<nat>, id: nat, newId: nat)
    requires Base(s0) && Base(s) && |s.g| == |s0.g| && HypState(list, hyp, |s0.g|) && id < |s0.g| && newId < |s0.g|
    requires Matches(s0, hyp, id, newId)
    requires forall c :: 0 <= c < |s0.g| && IsSet(hyp, c) ==> PairDone(d, s0, hyp, c)
    requires forall c :: c in list ==> PairResolved(s, hyp[c], c)
    ensures Checked(d, s0, s, hyp, id, newId)
  {
  }

  lemma MergedIsFound(d: Names, s0: Snapshot, s: Snapshot, hyp: seq<nat>, list: seq<nat>, id: nat, newId: nat)
    requires Merged(d, s0, s) && HypState(list, hyp, |s0.g|) && id < |s0.g| && newId < |s0.g| && id != newId
    requires s0.m[newId] == newId && Shape(s.g[id]) == Shape(s.g[newId]) && Matches(s0, hyp, id, newId)
    requires forall c :: 0 <= c < |s0.g| && IsSet(hyp, c) ==> PairDone(d, s0, hyp, c)
    requires forall c :: c in list ==> PairResolved(s, hyp[c], c)
    ensures FoundEquivalent(d, s0, s, id, newId)
  {
    hide PairDone, PairResolved, Shape, TableInv, ClassKept, MeaningKept, MergeKeeps, ResolvedKept, SameMeaning;
    AllChecked(d, s0, s, hyp, list, id, newId);
    CheckedMeaning(d, s0, hyp, id, newId);
  }

  // Soundness of the check for the types it was called with.
  lemma CheckedMeaning(d: Names, s: Snapshot, hyp: seq<nat>, id: nat, newId: nat)
    requires Base(s) && HypOk(hyp, |s.g|) && MeaningKept(d, s.g, s.m) && id < |s.g| && newId < |s.g|
    requires Matches(s, hyp, id, newId)
    requires forall c :: 0 <= c < |s.g| && IsSet(hyp, c) ==> PairDone(d, s, hyp, c)
    ensures SameMeaning(d, s.g, id, s.g, newId)
  {
    hide PairDone, Unfold;
    MatchedMeaning(d, s, hyp, id, newId);
    if !SameMeaning(d, s.g, id, s.g, newId) {
      EquivalenceIsSound(d, s, hyp, FwdTarget(s, newId));
    }
  }

  // Composite `id` has become a representative, or has been found equivalent to its new target.
  ghost predicate Justified(d: Names, s: Snapshot, s': Snapshot, id: nat)
    requires id < |s.m|
  {
    s'.m == s.m[id := id] || exists mid, newId :: IsMappedAs(d, s, mid, s', id, newId)
  }

  ghost predicate IsMappedAs(d: Names, s: Snapshot, mid: Snapshot, s': Snapshot, id: nat, newId: nat) {
    FoundEquivalent(d, s, mid, id, newId) && id < |mid.m| && s'.m == mid.m[id := newId]
  }

  ghost predicate StructOutcome(d: Names, s: Snapshot, s': Snapshot, id: nat) {
    |s.g| == |s.m| && s'.g == s.g && StateOk(s') && Forest(s'.m, s'.rank) && StaysExcept(s.g, s.m, s'.m, id) &&
    id < |s.m| && Mapped(s'.m, id) && MeaningKept(d, s'.g, s'.m) && Justified(d, s, s', id) &&
    (FromUnits(d, s.g) && CompositesDistinct(d, s.g, s.m) ==> CompositesDistinct(d, s.g, s'.m))
  }

  // None of the candidates is a composite that means the same as id.
  ghost predicate NoneEquivalent(d: Names, s: Snapshot, id: nat, cands: seq<nat>) {
    forall c :: c in cands && c < |s.g| && s.g[c].IsComposite() ==> !SameMeaning(d, s.g, id, s.g, c)
  }

  lemma NoneAtFirst(d: Names, s: Snapshot, id: nat)
    ensures NoneEquivalent(d, s, id, [])
  {
  }

  // A candidate that did not have to be merged does not mean the same as id.
  lemma NotEquivalent(d: Names, s: Snapshot, unit: set<nat>, id: nat, cands: seq<nat>, i: nat)
    requires Regular(s.g) && UnitOk(d, s.g, unit) && id in unit && i < |cands| && NoneEquivalent(d, s, id, cands[..i])
    requires id < |s.g| && s.g[id].IsComposite() && !MustMerge(d, s.g, unit, id, cands[i])
    ensures NoneEquivalent(d, s, id, cands[..i + 1])
  {
  }

  // What the candidates of a composite are that has no representative yet.
  lemma CandForStruct(s: Snapshot, h: nat, cands: seq<nat>, i: nat, id: nat)
    requires StateOk(s) && CandsOk(s.entries, h, cands) && i < |cands| && id < |s.m| && !Mapped(s.m, id)
    ensures cands[i] < |s.g| == |s.m| && cands[i] != id
    ensures s.g[cands[i]].IsComposite() ==> s.m[cands[i]] == cands[i]
  {
    CandUsable(s, h, cands, i);
  }

  lemma UnitsRegular(d: Names, g: seq<BtfType>, id: nat)
    requires InUnits(d, g, id)
    ensures Regular(g)
  {
  }

  lemma CheckableSane(g: seq<BtfType>, unit: set<nat>, id: nat)
    requires Checkable(g) ==> ClosedSet(g, unit) && id in unit
    ensures Checkable(g) ==> Sane(g, unit, id)
  {
  }

  // A composite takes an established representative.
  lemma StructMapped(d: Names, s0: Snapshot, s: Snapshot, id: nat, newId: nat) returns (s': Snapshot)
    requires FoundEquivalent(d, s0, s, id, newId) && s.g[id].IsComposite() && !Mapped(s0.m, id)
    ensures s' == s.(m := s.m[id := newId], rank := s'.rank)
    ensures StructOutcome(d, s0, s', id)
  {
    hide Unfold, SameMeaning, MeaningKept, ResolvedKept, FromUnits, Base, TableInv, ClassKept, CompositesDistinct;
    s' := StructMappedState(s0, s, id, newId);
    hide StateOk, Shape, Forest;
    MeaningStep(d, s.g, s.m, id, newId);
    assert IsMappedAs(d, s0, s, s', id, newId);
    if CompositesDistinct(d, s0.g, s0.m) {
      FewerComposites(d, s0.g, s0.m, s'.m);
    }
  }

  lemma FewerComposites(d: Names, g: seq<BtfType>, m: seq<nat>, m': seq<nat>)
    requires |g| == |m| == |m'| && CompositesDistinct(d, g, m)
    requires forall i :: 0 <= i < |m'| && m'[i] == i ==> m[i] == i
    ensures CompositesDistinct(d, g, m')
  {
  }

  lemma StructMappedState(s0: Snapshot, s: Snapshot, id: nat, newId: nat) returns (s': Snapshot)
    requires StateOk(s0) && StateOk(s) && s == s0.(m := s.m, rank := s.rank)
    requires id < |s.g| && newId < |s.g| && id != newId && s.m[newId] == newId
    requires s.g[id].IsComposite() && !Mapped(s0.m, id) && Shape(s.g[id]) == Shape(s.g[newId])
    ensures s' == s.(m := s.m[id := newId], rank := s'.rank)
    ensures StateOk(s') && Forest(s'.m, s'.rank) && Mapped(s'.m, id)
  {
    GraphHasVoid(s.g);
    hide GraphOk;
    RefCountFromShape(s.g[id], s.g[newId]);
    hide Shape;
    var rank' := PointToRoot(s.m, s.rank, id, newId);
    s' := s.(m := s.m[id := newId], rank := rank');
    UnmappedNotFixed(s0, id);
    hide TableInv;
    PointOk(s, s', id, newId);
  }

  // A composite without an equivalent becomes a representative and is filed.
  lemma StructCanonical(d: Names, s: Snapshot, id: nat, cands: seq<nat>) returns (s': Snapshot)
    requires StateOk(s) && MeaningKept(d, s.g, s.m) && 1 <= id < |s.g|
    requires s.g[id].IsComposite() && !Mapped(s.m, id) && RestOk(s.g[id])
    requires CandsOk(s.entries, HashOf(s.g[id]), cands) && (InUnits(d, s.g, id) ==> NoneEquivalent(d, s, id, cands))
    ensures s' == s.(m := s.m[id := id], entries := s.entries + multiset{Entry(HashOf(s.g[id]), id)})
    ensures StructOutcome(d, s, s', id)
  {
    hide SameMeaning, HashOf, FromUnits, GraphOk, RestOk, TableInv, CandsOk, NoneEquivalent, CompositesDistinct;
    s' := s.(m := s.m[id := id], entries := s.entries + multiset{Entry(HashOf(s.g[id]), id)});
    if FromUnits(d, s.g) && CompositesDistinct(d, s.g, s.m) {
      NewCompositeDistinct(d, s, id, cands);
    }
    StructFiled(s, s', id);
    SameMeaningReflexive(d, s.g, id);
  }

  lemma SameMeaningReflexive(d: Names, g: seq<BtfType>, x: nat)
    requires x < |g|
    ensures SameMeaning(d, g, x, g, x)
  {
  }

  lemma NewCompositeDistinct(d: Names, s: Snapshot, id: nat, cands: seq<nat>)
    requires StateOk(s) && 1 <= id < |s.g| && s.g[id].IsComposite() && RestOk(s.g[id])
    requires FromUnits(d, s.g) && CompositesDistinct(d, s.g, s.m)
    requires CandsOk(s.entries, HashOf(s.g[id]), cands) && (InUnits(d, s.g, id) ==> NoneEquivalent(d, s, id, cands))
    ensures CompositesDistinct(d, s.g, s.m[id := id])
  {
    hide SameMeaning, HashOf, FromUnits, RestOk, TableInv, Forest, ClassKept, Comparable;
    forall j | 1 <= j < |s.g| && j != id && Canonical(s.m, j) && s.g[j].IsComposite() && SameMeaning(d, s.g, id, s.g, j)
      ensures !Comparable(d, s.g, id) && !Comparable(d, s.g, j)
    {
      if Comparable(d, s.g, j) {
        MeaningSymmetric(d, s.g, id, j);
        ComparableTransfers(d, s.g, j, id);
      }
      if Comparable(d, s.g, id) {
        EquivalentIsFiled(d, s, id, j);
      }
    }
    forall j | 0 <= j < |s.g| && SameMeaning(d, s.g, j, s.g, id) ensures SameMeaning(d, s.g, id, s.g, j) {
      MeaningSymmetric(d, s.g, j, id);
    }
  }

  lemma MeaningSymmetric(d: Names, g: seq<BtfType>, x: nat, y: nat)
    requires SameMeaning(d, g, x, g, y)
    ensures SameMeaning(d, g, y, g, x)
  {
  }

  // A representative that means the same as a composite is filed under the composite's hash.
  lemma EquivalentIsFiled(d: Names, s: Snapshot, id: nat, j: nat)
    requires StateOk(s) && id < |s.g| && 1 <= j < |s.g| && s.g[id].IsComposite() && RestOk(s.g[id])
    requires s.g[j].IsComposite() && Canonical(s.m, j)
    requires SameMeaning(d, s.g, id, s.g, j) && Comparable(d, s.g, id)
    ensures Entry(HashOf(s.g[id]), j) in s.entries
  {
    hide SameMeaning, Comparable;
    ComparableAgrees(d, s.g, id, j);
    FittingDefinitions(d, s.g[id], s.g[j]);
    RefCountFromShape(s.g[id], s.g[j]);
    CompositeHashIgnoresRefs(s.g[id], s.g[j]);
    assert Entry(HashOf(s.g[j]), j) in s.entries;
  }

  lemma StructFiled(s: Snapshot, s': Snapshot, id: nat)
    requires TableInv(s) && 1 <= id < |s.g| && s.g[id].IsComposite() && !Mapped(s.m, id) && RestOk(s.g[id])
    requires s'.g == s.g && s'.m == s.m[id := id]
    requires s'.entries == s.entries + multiset{Entry(HashOf(s.g[id]), id)}
    ensures TableInv(s')
  {
    hide HashOf, RestOk;
    forall e | e in s'.entries ensures EntryOk(s', e) {
      if e in s.entries {
        assert EntryOk(s, e);
      }
    }
  }
}
