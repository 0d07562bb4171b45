// The hypothetical map of the equivalence check: canonical-graph ids speculatively
// matched with candidate-graph ids, and why a completed match is a bisimulation.

module HypotMap {
  import opened BtfTypes
  import opened BtfCompare
  import opened TypeGraph
  import opened Definitions
  import opened CanonMap
  import opened DedupState

  // Canonical id c has been matched.
  predicate IsSet(hyp: seq<nat>, c: nat)
    requires c < |hyp|
  {
    hyp[c] <= BTF_MAX_NR_TYPES
  }

  ghost predicate HypOk(hyp: seq<nat>, n: nat) {
    |hyp| == n && forall c :: 0 <= c < n && IsSet(hyp, c) ==> hyp[c] < n
  }

  ghost predicate Extends(hyp: seq<nat>, hyp': seq<nat>) {
    |hyp| == |hyp'| && forall c :: 0 <= c < |hyp| && IsSet(hyp, c) ==> hyp'[c] == hyp[c]
  }

  // Ids not matched yet; every continuing step of the check removes one.
  ghost function Unset(hyp: seq<nat>): set<nat> {
    set c | 0 <= c < |hyp| && !IsSet(hyp, c)
  }

  lemma UnsetShrinks(hyp: seq<nat>, hyp': seq<nat>)
    requires Extends(hyp, hyp')
    ensures Unset(hyp') <= Unset(hyp)
  {
  }

  // The list of matched ids is exactly the domain of the map.
  ghost predicate ListOk(list: seq<nat>, hyp: seq<nat>) {
    (forall c :: c in list ==> c < |hyp| && IsSet(hyp, c)) &&
    (forall c :: 0 <= c < |hyp| && IsSet(hyp, c) ==> c in list)
  }

  // A canonical-graph forward declaration that has been resolved is replaced by its definition.
  ghost function FwdTarget(s: Snapshot, canon: nat): (r: nat)
    requires Base(s) && canon < |s.g|
    ensures r < |s.g|
  {
    var root := Root(s.m, s.rank, canon);
    if s.g[canon].IsFwd() && !s.g[root].IsFwd() then root else canon
  }

  lemma FwdTargetSharesRoot(s: Snapshot, canon: nat)
    requires Base(s) && canon < |s.g|
    ensures Root(s.m, s.rank, FwdTarget(s, canon)) == Root(s.m, s.rank, canon)
  {
  }

  // The check accepts the pair: already merged, matched with each other, or matched with
  // an identical array.
  ghost predicate Matches(s: Snapshot, hyp: seq<nat>, cand: nat, canon: nat)
    requires Base(s) && HypOk(hyp, |s.g|) && cand < |s.g| && canon < |s.g|
  {
    Root(s.m, s.rank, cand) == Root(s.m, s.rank, canon) ||
    (var c := FwdTarget(s, canon);
     IsSet(hyp, c) && (hyp[c] == cand || (s.g[cand].info.kind.Array? && s.g[hyp[c]] == s.g[cand])))
  }

  ghost predicate RefsMatch(s: Snapshot, hyp: seq<nat>, cand: BtfType, canon: BtfType, j: nat)
    requires Base(s) && HypOk(hyp, |s.g|)
  {
    j < |Refs(cand)| && j < |Refs(canon)| && Refs(cand)[j] < |s.g| && Refs(canon)[j] < |s.g| &&
    Matches(s, hyp, Refs(cand)[j], Refs(canon)[j])
  }

  // The pair recorded for canonical id c has been explored: the records fit, and records of
  // one shape have children that match.
  ghost predicate PairDone(d: Names, s: Snapshot, hyp: seq<nat>, c: nat)
    requires Base(s) && HypOk(hyp, |s.g|) && c < |s.g| && IsSet(hyp, c)
  {
    var cand, canon := s.g[hyp[c]], s.g[c];
    Fits(d, cand, canon) && (Shape(cand) == Shape(canon) ==> AllRefsMatch(s, hyp, cand, canon))
  }

  ghost predicate AllRefsMatch(s: Snapshot, hyp: seq<nat>, cand: BtfType, canon: BtfType)
    requires Base(s) && HypOk(hyp, |s.g|)
  {
    |Refs(cand)| == |Refs(canon)| && RefsMatchUpTo(s, hyp, cand, canon, |Refs(cand)|)
  }

  ghost predicate RefsMatchUpTo(s: Snapshot, hyp: seq<nat>, cand: BtfType, canon: BtfType, n: nat)
    requires Base(s) && HypOk(hyp, |s.g|)
  {
    forall j :: 0 <= j < n ==> RefsMatch(s, hyp, cand, canon, j)
  }

  lemma BothRefsMatch(s: Snapshot, hyp: seq<nat>, cand: BtfType, canon: BtfType)
    requires Base(s) && HypOk(hyp, |s.g|) && |Refs(cand)| == 2 == |Refs(canon)|
    requires RefsMatch(s, hyp, cand, canon, 0) && RefsMatch(s, hyp, cand, canon, 1)
    ensures AllRefsMatch(s, hyp, cand, canon)
  {
  }

  // Everything matched since `base` has been explored.
  ghost predicate AllDone(d: Names, s: Snapshot, base: seq<nat>, hyp: seq<nat>)
    requires Base(s) && HypOk(base, |s.g|) && HypOk(hyp, |s.g|)
  {
    forall c :: 0 <= c < |s.g| && IsSet(hyp, c) && !IsSet(base, c) ==> PairDone(d, s, hyp, c)
  }

  // The hypothetical map with the list of its matched ids.
  ghost predicate HypState(list: seq<nat>, hyp: seq<nat>, n: nat) {
    HypOk(hyp, n) && ListOk(list, hyp)
  }

  lemma InitialHyp(hyp: seq<nat>)
    requires forall c :: 0 <= c < |hyp| ==> hyp[c] == BTF_UNPROCESSED_ID
    ensures HypState([], hyp, |hyp|) && NothingSet(hyp)
  {
  }

  lemma MatchesExtends(s: Snapshot, hyp: seq<nat>, hyp': seq<nat>, cand: nat, canon: nat)
    requires Base(s) && HypOk(hyp, |s.g|) && HypOk(hyp', |s.g|) && cand < |s.g| && canon < |s.g|
    requires Extends(hyp, hyp') && Matches(s, hyp, cand, canon)
    ensures Matches(s, hyp', cand, canon)
  {
  }

  lemma RefMatchExtends(s: Snapshot, hyp: seq<nat>, hyp': seq<nat>, cand: BtfType, canon: BtfType, j: nat)
    requires Base(s) && HypOk(hyp, |s.g|) && HypOk(hyp', |s.g|)
    requires Extends(hyp, hyp') && RefsMatch(s, hyp, cand, canon, j)
    ensures RefsMatch(s, hyp', cand, canon, j)
  {
    MatchesExtends(s, hyp, hyp', Refs(cand)[j], Refs(canon)[j]);
  }

  lemma RefsMatchExtends(s: Snapshot, hyp: seq<nat>, hyp': seq<nat>, cand: BtfType, canon: BtfType, n: nat)
    requires Base(s) && HypOk(hyp, |s.g|) && HypOk(hyp', |s.g|)
    requires Extends(hyp, hyp') && RefsMatchUpTo(s, hyp, cand, canon, n)
    ensures RefsMatchUpTo(s, hyp', cand, canon, n)
  {
    forall j | 0 <= j < n ensures RefsMatch(s, hyp', cand, canon, j) {
      RefMatchExtends(s, hyp, hyp', cand, canon, j);
    }
  }

  lemma AllDoneExtends(d: Names, s: Snapshot, base: seq<nat>, hyp: seq<nat>, hyp': seq<nat>)
    requires Base(s) && HypOk(base, |s.g|) && HypOk(hyp, |s.g|) && HypOk(hyp', |s.g|)
    requires Extends(base, hyp) && Extends(hyp, hyp')
    requires AllDone(d, s, base, hyp) && AllDone(d, s, hyp, hyp')
    ensures AllDone(d, s, base, hyp')
  {
    forall c | 0 <= c < |s.g| && IsSet(hyp', c) && !IsSet(base, c) ensures PairDone(d, s, hyp', c) {
      if IsSet(hyp, c) {
        assert PairDone(d, s, hyp, c);
        if Shape(s.g[hyp[c]]) == Shape(s.g[c]) {
          RefsMatchExtends(s, hyp, hyp', s.g[hyp[c]], s.g[c], |Refs(s.g[hyp[c]])|);
        }
      }
    }
  }

  lemma AllDoneNothing(d: Names, s: Snapshot, hyp: seq<nat>)
    requires Base(s) && HypOk(hyp, |s.g|)
    ensures AllDone(d, s, hyp, hyp)
  {
  }

  // One more pair, explored on top of everything explored since it was recorded.
  lemma AllDoneWithPair(d: Names, s: Snapshot, base: seq<nat>, hyp': seq<nat>, canon: nat, cand: nat)
    requires Base(s) && HypOk(base, |s.g|) && HypOk(hyp', |s.g|)
    requires canon < |s.g| && cand < |s.g| && |s.g| <= BTF_MAX_NR_TYPES + 1 && !IsSet(base, canon)
    requires HypOk(base[canon := cand], |s.g|) && Extends(base[canon := cand], hyp')
    requires AllDone(d, s, base[canon := cand], hyp') && PairDone(d, s, hyp', canon)
    ensures AllDone(d, s, base, hyp') && Extends(base, hyp')
  {
  }

  lemma EqualRecordsMatch(s: Snapshot, hyp: seq<nat>, t: BtfType)
    requires Base(s) && HypOk(hyp, |s.g|) && RefsBelow(t, |s.g|)
    ensures AllRefsMatch(s, hyp, t, t)
  {
    forall j | 0 <= j < |Refs(t)| ensures RefsMatch(s, hyp, t, t, j) {
      assert Refs(t)[j] < |s.g|;
    }
  }

  ghost predicate NothingSet(hyp: seq<nat>) {
    forall c :: 0 <= c < |hyp| ==> !IsSet(hyp, c)
  }

  lemma FwdTargetMeaning(d: Names, s: Snapshot, canon: nat)
    requires Base(s) && MeaningKept(d, s.g, s.m) && canon < |s.g|
    ensures SameMeaning(d, s.g, canon, s.g, FwdTarget(s, canon))
  {
    RootMeaning(d, s.g, s.m, s.rank, canon);
  }

  // What the check accepts means the same, or as much as the match of the resolved canonical type.
  lemma MatchedMeaning(d: Names, s: Snapshot, hyp: seq<nat>, cand: nat, canon: nat)
    requires Base(s) && HypOk(hyp, |s.g|) && MeaningKept(d, s.g, s.m)
    requires cand < |s.g| && canon < |s.g| && Matches(s, hyp, cand, canon)
    ensures SameMeaning(d, s.g, cand, s.g, canon) ||
            (var c := FwdTarget(s, canon);
             IsSet(hyp, c) && SameMeaning(d, s.g, cand, s.g, hyp[c]) && SameMeaning(d, s.g, canon, s.g, c))
  {
    FwdTargetMeaning(d, s, canon);
    if Root(s.m, s.rank, cand) == Root(s.m, s.rank, canon) {
      RootMeaning(d, s.g, s.m, s.rank, cand);
      RootMeaning(d, s.g, s.m, s.rank, canon);
    } else if hyp[FwdTarget(s, canon)] != cand {
      EqualRecordsSameMeaning(d, s.g, cand, hyp[FwdTarget(s, canon)]);
    }
  }

  // The children of an explored pair are covered by the matched pairs.
  lemma MatchCovers(d: Names, s: Snapshot, hyp: seq<nat>, cand: nat, canon: nat)
    requires Base(s) && HypOk(hyp, |s.g|) && MeaningKept(d, s.g, s.m)
    requires forall i :: 0 <= i < |s.g| && IsSet(hyp, i) ==> PairDone(d, s, hyp, i)
    requires cand < |s.g| && canon < |s.g| && Matches(s, hyp, cand, canon)
    ensures Covered(d, s.g, s.g, Correspondence(hyp), cand, canon)
  {
    MatchedMeaning(d, s, hyp, cand, canon);
    var c := FwdTarget(s, canon);
    if !SameMeaning(d, s.g, cand, s.g, canon) && c != canon {
      // A declaration that has been resolved stands under a declared name, and so does its match.
      assert PairDone(d, s, hyp, c);
      FitsFace(d, s.g[hyp[c]], s.g[c]);
      ResolvedIsDeclared(d, s, canon);
      SameNameSameMeaning(d, s.g, hyp[c], s.g, c);
    }
  }

  lemma ResolvedIsDeclared(d: Names, s: Snapshot, canon: nat)
    requires Base(s) && MeaningKept(d, s.g, s.m) && canon < |s.g| && FwdTarget(s, canon) != canon
    ensures IsDeclared(d, s.g[FwdTarget(s, canon)])
  {
    var r := FwdTarget(s, canon);
    FwdTargetMeaning(d, s, canon);
    SameMeaningStep(d, s.g, canon, s.g, r);
    if !IsDeclared(d, s.g[r]) {
      RefCountFromShape(s.g[canon], s.g[r]);
    }
  }

  function Correspondence(hyp: seq<nat>): map<nat, nat> {
    map c: nat | c < |hyp| && IsSet(hyp, c) :: hyp[c]
  }

  // Soundness of the equivalence check: once every recorded pair has been explored, the
  // pairs form a bisimulation, so each pair has one meaning.
  lemma EquivalenceIsSound(d: Names, s: Snapshot, hyp: seq<nat>, c: nat)
    requires Base(s) && HypOk(hyp, |s.g|) && MeaningKept(d, s.g, s.m)
    requires forall i :: 0 <= i < |s.g| && IsSet(hyp, i) ==> PairDone(d, s, hyp, i)
    requires c < |s.g| && IsSet(hyp, c)
    ensures SameMeaning(d, s.g, hyp[c], s.g, c)
  {
    var rel := Correspondence(hyp);
    forall b | b in rel ensures Progresses(d, s.g, s.g, rel, rel[b], b) {
      assert PairDone(d, s, hyp, b);
      var cand, canon := s.g[hyp[b]], s.g[b];
      FitsFace(d, cand, canon);
      if !IsDeclared(d, cand) {
        forall j | 0 <= j < |Refs(cand)| ensures Covered(d, s.g, s.g, rel, Refs(cand)[j], Refs(canon)[j]) {
          assert RefsMatch(s, hyp, cand, canon, j);
          MatchCovers(d, s, hyp, Refs(cand)[j], Refs(canon)[j]);
        }
      }
    }
    BisimulationIsSound(d, s.g, s.g, rel, c);
  }

  // What a successful check tells the merge.
  ghost predicate PairsAgree(d: Names, g: seq<BtfType>, hyp: seq<nat>) {
    |hyp| == |g| &&
    forall c :: 0 <= c < |g| && IsSet(hyp, c) ==> hyp[c] < |g| && PairAgrees(d, g, hyp[c], c)
  }

  ghost predicate PairAgrees(d: Names, g: seq<BtfType>, a: nat, c: nat)
    requires a < |g| && c < |g|
  {
    RealKind(g[a]) == RealKind(g[c]) && SameMeaning(d, g, a, g, c)
  }

  lemma DonePairsAgree(d: Names, s: Snapshot, hyp: seq<nat>)
    requires Base(s) && HypOk(hyp, |s.g|) && MeaningKept(d, s.g, s.m)
    requires forall c :: 0 <= c < |s.g| && IsSet(hyp, c) ==> PairDone(d, s, hyp, c)
    ensures PairsAgree(d, s.g, hyp)
  {
    forall c | 0 <= c < |s.g| && IsSet(hyp, c) ensures PairAgrees(d, s.g, hyp[c], c) {
      assert PairDone(d, s, hyp, c);
      FitsRealKind(d, s.g[hyp[c]], s.g[c]);
      EquivalenceIsSound(d, s, hyp, c);
    }
  }

  // A compilation unit: a set of types closed under reference in which every type occurs
  // once, except that the compiler may repeat identical arrays, and no declared name is left open.
  ghost predicate UnitOk(d: Names, g: seq<BtfType>, unit: set<nat>) {
    (forall x :: x in unit ==> x < |g| && !g[x].IsVarOrDatasec()) &&
    (OneDefinition(d, g) || forall x :: x in unit ==> !IsDeclared(d, g[x])) &&
    (forall x, j :: x in unit && 0 <= j < |Refs(g[x])| ==> Refs(g[x])[j] in unit) &&
    (forall x, y :: x in unit && y in unit && SameMeaning(d, g, x, g, y) ==>
       x == y || (g[x].info.kind.Array? && g[x] == g[y]))
  }

  // Every kind is known, and forward declarations refer to nothing.
  predicate Regular(g: seq<BtfType>) {
    forall i :: 1 <= i < |g| ==> !g[i].info.kind.Unkn? && (g[i].IsFwd() ==> g[i].sizeOrType == 0)
  }

  // Everything matched so far lies in the candidate's unit and means the same.
  ghost predicate HypInUnit(d: Names, g: seq<BtfType>, hyp: seq<nat>, unit: set<nat>) {
    |hyp| == |g| &&
    forall c :: 0 <= c < |g| && IsSet(hyp, c) ==> hyp[c] in unit && SameMeaning(d, g, hyp[c], g, c)
  }

  // The situation in which the check has no excuse to fail.
  ghost predicate MustMatch(d: Names, g: seq<BtfType>, hyp: seq<nat>, unit: set<nat>, cand: nat, canon: nat) {
    Regular(g) && UnitOk(d, g, unit) && HypInUnit(d, g, hyp, unit) && cand in unit && SameMeaning(d, g, cand, g, canon)
  }

  // It stays that way when a canonical declaration is replaced by its definition.
  lemma TargetMustMatch(d: Names, s: Snapshot, hyp: seq<nat>, unit: set<nat>, cand: nat, canon: nat)
    requires Base(s) && MeaningKept(d, s.g, s.m) && canon < |s.g| && MustMatch(d, s.g, hyp, unit, cand, canon)
    ensures MustMatch(d, s.g, hyp, unit, cand, FwdTarget(s, canon))
  {
    FwdTargetMeaning(d, s, canon);
  }

  ghost predicate KidsOwed(d: Names, g: seq<BtfType>, hyp: seq<nat>, unit: set<nat>, cand: BtfType, canon: BtfType) {
    HypInUnit(d, g, hyp, unit) && |Refs(cand)| == |Refs(canon)| &&
    forall j :: 0 <= j < |Refs(cand)| ==> MustMatch(d, g, hyp, unit, Refs(cand)[j], Refs(canon)[j])
  }

  lemma KidOwed(d: Names, g: seq<BtfType>, hyp: seq<nat>, unit: set<nat>, cand: BtfType, canon: BtfType, j: nat)
    requires KidsOwed(d, g, hyp, unit, cand, canon) && j < |Refs(cand)|
    ensures j < |Refs(canon)| && MustMatch(d, g, hyp, unit, Refs(cand)[j], Refs(canon)[j])
  {
  }

  // Two records that the check cannot tell apart before looking at their children.
  predicate RecordsAgree(d: Names, cand: BtfType, canon: BtfType) {
    Fits(d, cand, canon) &&
    (Shape(cand) == Shape(canon) ==>
       cand.info == canon.info &&
       if cand.IsPrimitive() then cand == canon else cand.IsComposite() || cand.IsReference())
  }

  // They do agree, and so must their children where both have any.
  ghost predicate PairOwed(d: Names, g: seq<BtfType>, hyp: seq<nat>, unit: set<nat>, cand: BtfType, canon: BtfType) {
    RecordsAgree(d, cand, canon) && HypInUnit(d, g, hyp, unit) &&
    (Shape(cand) == Shape(canon) ==> KidsOwed(d, g, hyp, unit, cand, canon))
  }

  // An id that is already matched is matched with this candidate or an identical array.
  lemma MatchedOnce(d: Names, g: seq<BtfType>, hyp: seq<nat>, unit: set<nat>, cand: nat, canon: nat)
    requires MustMatch(d, g, hyp, unit, cand, canon) && canon < |g| && IsSet(hyp, canon)
    ensures cand < |g| && hyp[canon] < |g|
    ensures hyp[canon] == cand || (g[cand].info.kind.Array? && g[hyp[canon]] == g[cand])
  {
  }

  // Recording a pair of one meaning obliges the pairs of their children.
  lemma PairMustMatch(d: Names, g: seq<BtfType>, hyp: seq<nat>, unit: set<nat>, cand: nat, canon: nat)
    requires GraphOk(g) && |g| <= BTF_MAX_NR_TYPES + 1
    requires MustMatch(d, g, hyp, unit, cand, canon) && cand < |g| && canon < |g| && cand != canon
    ensures PairOwed(d, g, hyp[canon := cand], unit, g[cand], g[canon])
  {
    hide SameMeaning, Shape, Refs, Fits, RestOk;
    MeaningAgrees(d, g, cand, canon);
    if Shape(g[cand]) == Shape(g[canon]) {
      RefCountFromShape(g[cand], g[canon]);
      if g[cand].IsPrimitive() {
        PrimitivesOfOneShape(g, cand, canon);
      }
    }
  }

  lemma PrimitivesOfOneShape(g: seq<BtfType>, x: nat, y: nat)
    requires GraphOk(g) && Regular(g) && x < |g| && y < |g|
    requires g[x].IsPrimitive() && Shape(g[x]) == Shape(g[y])
    ensures g[x] == g[y]
  {
    RefCountFromShape(g[x], g[y]);
    assert x != 0 && y != 0;
    assert RestOk(g[x]) && RestOk(g[y]);
    assert Refs(g[x]) == Refs(g[y]);
    ShapeAndRefsDetermine(g[x], g[y]);
  }

  lemma MustMatchExtends(d: Names, g: seq<BtfType>, hyp: seq<nat>, hyp': seq<nat>, unit: set<nat>,
                         cand: BtfType, canon: BtfType)
    requires KidsOwed(d, g, hyp, unit, cand, canon) && HypInUnit(d, g, hyp', unit)
    ensures KidsOwed(d, g, hyp', unit, cand, canon)
  {
    forall j | 0 <= j < |Refs(cand)| ensures MustMatch(d, g, hyp', unit, Refs(cand)[j], Refs(canon)[j]) {
      assert MustMatch(d, g, hyp, unit, Refs(cand)[j], Refs(canon)[j]);
    }
  }

  // The candidate's unit is in order, and it and the other composite mean the same.
  ghost predicate MustMerge(d: Names, g: seq<BtfType>, unit: set<nat>, cand: nat, canon: nat) {
    Regular(g) && UnitOk(d, g, unit) && cand in unit && SameMeaning(d, g, cand, g, canon) &&
    canon < |g| && g[cand].IsComposite() && g[canon].IsComposite()
  }

  // Types other than VAR and DATASEC that refer only to each other.
  ghost predicate ClosedSet(g: seq<BtfType>, ids: set<nat>) {
    (forall x :: x in ids ==> x < |g| && !g[x].IsVarOrDatasec()) &&
    forall x, j :: x in ids && 0 <= j < |Refs(g[x])| ==> Refs(g[x])[j] in ids
  }

  predicate KnownKinds(g: seq<BtfType>) {
    forall i :: 1 <= i < |g| ==> !g[i].info.kind.Unkn?
  }

  // The candidate reaches no kind that the check cannot handle.
  ghost predicate Sane(g: seq<BtfType>, unit: set<nat>, cand: nat) {
    KnownKinds(g) && ClosedSet(g, unit) && cand in unit
  }

  lemma SaneKids(g: seq<BtfType>, unit: set<nat>, cand: nat)
    requires Sane(g, unit, cand) && cand < |g|
    ensures forall j :: 0 <= j < |Refs(g[cand])| ==> Sane(g, unit, Refs(g[cand])[j])
  {
  }

  // Two different ids of one kind are of a kind the check handles, if one of them is sane.
  lemma SaneKind(g: seq<BtfType>, unit: set<nat>, cand: nat, canon: nat)
    requires Sane(g, unit, cand) && cand < |g| && canon < |g| && cand != canon
    requires g[cand].info.kind == g[canon].info.kind
    ensures g[cand].IsPrimitive() || g[cand].IsComposite() || g[cand].IsReference()
  {
  }

  // The input is a concatenation of units, as far as no declared name is left open.
  ghost predicate FromUnits(d: Names, g: seq<BtfType>) {
    Regular(g) && forall x :: 1 <= x < |g| && !g[x].IsVarOrDatasec() && Comparable(d, g, x) ==> HasUnit(d, g, x)
  }

  // Type x is one of those: nothing is amiss if it is not merged with what means the same.
  ghost predicate InUnits(d: Names, g: seq<BtfType>, x: nat) {
    FromUnits(d, g) && Comparable(d, g, x)
  }

  ghost predicate HasUnit(d: Names, g: seq<BtfType>, x: nat) {
    exists unit :: UnitOk(d, g, unit) && x in unit
  }

  // Every kind is known, and no struct or union reaches a VAR or DATASEC.
  ghost predicate Checkable(g: seq<BtfType>) {
    KnownKinds(g) && forall x :: 1 <= x < |g| && g[x].IsComposite() ==> InClosedSet(g, x)
  }

  ghost predicate InClosedSet(g: seq<BtfType>, x: nat) {
    exists ids :: ClosedSet(g, ids) && x in ids
  }

  lemma UnitsCheckable(g: seq<BtfType>)
    requires GraphOk(g) && FromUnits({}, g)
    ensures Checkable(g)
  {
    forall x | 1 <= x < |g| && g[x].IsComposite() ensures InClosedSet(g, x) {
      AllClear(g, x);
      assert HasUnit({}, g, x);
      var unit :| UnitOk({}, g, unit) && x in unit;
      assert ClosedSet(g, unit);
    }
  }

  ghost function UnitOf(d: Names, g: seq<BtfType>, x: nat): (unit: set<nat>)
    ensures InUnits(d, g, x) && 1 <= x < |g| && !g[x].IsVarOrDatasec() ==> UnitOk(d, g, unit) && x in unit
    ensures Checkable(g) && 1 <= x < |g| && g[x].IsComposite() ==> ClosedSet(g, unit) && x in unit
  {
    if HasUnit(d, g, x) then var unit :| UnitOk(d, g, unit) && x in unit; unit
    else if InClosedSet(g, x) then var unit :| ClosedSet(g, unit) && x in unit; unit
    else {}
  }
}
