// Progress of the pass over structs and unions.

module StructSteps {
  import opened BtfTypes
  import opened TypeGraph
  import opened CanonMap
  import opened DedupState
  import opened HypotMap
  import opened DedupSteps
  import opened PrimSteps

  ghost predicate StructStatus(t: BtfType, target: nat, i: nat, upto: nat) {
    !t.info.kind.Unkn? &&
    (t.IsVarOrDatasec() ==> target == i) &&
    (t.IsReference() ==> target == BTF_UNPROCESSED_ID) &&
    (t.IsPrimitive() || (t.IsComposite() && i < upto) ==> target <= BTF_MAX_NR_TYPES)
  }

  ghost predicate StructStatuses(g: seq<BtfType>, m: seq<nat>, upto: nat)
    requires |g| == |m|
  {
    forall i :: 1 <= i < |g| ==> StructStatus(g[i], m[i], i, upto)
  }

  // The state of the pass before it looks at id `upto`.
  ghost predicate StructProgress(d: Names, s: Snapshot, upto: nat) {
    StateOk(s) && Forest(s.m, s.rank) && 1 <= upto <= |s.g| == |s.m| && StructStatuses(s.g, s.m, upto) &&
    MeaningKept(d, s.g, s.m) && EnumFwdsYield(d, s.g, s.m, |s.g|) &&
    (FromUnits(d, s.g) ==> CompositesDistinct(d, s.g, s.m))
  }

  lemma StructBegins(d: Names, s: Snapshot)
    requires PrimProgress(d, s, |s.g|)
    ensures StructProgress(d, s, 1)
  {
    hide GraphOk, Forest, TableInv, MeaningKept, SameMeaning, MappedClosed, FullEnumsSettled, EnumFwdsYield;
    forall i | 1 <= i < |s.g| ensures StructStatus(s.g[i], s.m[i], i, 1) {
      assert PrimStatus(s.g[i], s.m[i], i, |s.g|);
    }
    forall i | 1 <= i < |s.g| && Canonical(s.m, i) ensures !s.g[i].IsComposite() {
      assert PrimStatus(s.g[i], s.m[i], i, |s.g|);
    }
  }

  // One type of the pass: a struct or union that has no target yet gets one, nothing else happens.
  ghost predicate StructStep(d: Names, s: Snapshot, s': Snapshot, id: nat) {
    id < |s.g| == |s.m| &&
    if s.g[id].IsComposite() && !Mapped(s.m, id) then StructOutcome(d, s, s', id) else s' == s
  }

  lemma StructAdvances(d: Names, s: Snapshot, s': Snapshot, id: nat)
    requires StructProgress(d, s, id) && StructStep(d, s, s', id)
    ensures StructProgress(d, s', id + 1)
  {
    hide StateOk, MeaningKept, CompositesDistinct, FromUnits, Justified;
    forall i | 1 <= i < |s.g| ensures StructStatus(s.g[i], s'.m[i], i, id + 1) {
      assert StructStatus(s.g[i], s.m[i], i, id);
    }
  }

  // The states of the pass before types 1, 2, ... up to n.
  ghost predicate StructRun(d: Names, trail: seq<Snapshot>, n: nat) {
    1 <= n == |trail| && forall i :: 1 <= i < n ==> StructStep(d, trail[i - 1], trail[i], i)
  }

  lemma StructRunOn(d: Names, trail: seq<Snapshot>, n: nat, s: Snapshot)
    requires StructRun(d, trail, n) && StructStep(d, trail[n - 1], s, n)
    ensures StructRun(d, trail + [s], n + 1)
  {
    hide StructStep;
    var longer := trail + [s];
    forall i | 1 <= i < n + 1 ensures StructStep(d, longer[i - 1], longer[i], i) {
      if i < n {
        assert longer[i - 1] == trail[i - 1] && longer[i] == trail[i];
      }
    }
  }
}
