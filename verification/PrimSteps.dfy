// The primitive pass: ints, floats, enums and forward declarations are merged when their
// records are equal; an enum without enumerators may also resolve to a full enum.

module PrimSteps {
  import opened BtfTypes
  import opened BtfCompare
  import opened TypeGraph
  import opened CanonMap
  import opened Hashmap
  import opened DedupState

  predicate IsFullEnum(t: BtfType) {
    t.info.kind.Enum? && !t.IsEnumFwd()
  }

  // An enum forward declaration whose name is declared, so that it resolves to a full enum.
  predicate Resolvable(d: Names, t: BtfType) {
    t.IsEnumFwd() && IsDeclared(d, t)
  }

  // Mapped ids lead to mapped ids.
  ghost predicate MappedClosed(m: seq<nat>) {
    forall i :: 0 <= i < |m| && Mapped(m, i) ==> m[i] < |m| && Mapped(m, m[i])
  }

  lemma {:induction false} RootMapped(m: seq<nat>, rank: seq<nat>, i: nat)
    requires Forest(m, rank) && MappedClosed(m) && i < |m| && Mapped(m, i)
    ensures Mapped(m, Root(m, rank, i))
    decreases rank[i]
  {
    if !IsRoot(m, i) {
      RootMapped(m, rank, m[i]);
    }
  }

  // A full enum is represented by an equal enum.
  ghost predicate FullEnumsSettled(g: seq<BtfType>, m: seq<nat>, upto: nat)
    requires |g| == |m| && upto <= |g|
  {
    forall j :: 1 <= j < upto && IsFullEnum(g[j]) ==> 1 <= m[j] < upto && g[m[j]] == g[j] && Canonical(m, m[j])
  }

  // With resolution, an enum forward declaration that represents itself agrees with no full enum
  // seen so far.
  ghost predicate EnumFwdsYield(d: Names, g: seq<BtfType>, m: seq<nat>, upto: nat)
    requires |g| == |m| && upto <= |g|
  {
    forall i, j :: 1 <= i < |g| && 1 <= j < upto && Canonical(m, i) && Resolvable(d, g[i]) && IsFullEnum(g[j]) ==>
      !EnumsAgree(g[i], g[j])
  }

  ghost predicate EnumsResolved(d: Names, g: seq<BtfType>, m: seq<nat>, upto: nat)
    requires |g| == |m| && upto <= |g|
  {
    FullEnumsSettled(g, m, upto) && EnumFwdsYield(d, g, m, upto)
  }

  ghost predicate EntriesBelow(entries: multiset<Entry<nat, nat>>, upto: nat) {
    forall e :: e in entries ==> e.value < upto
  }

  ghost predicate Statuses(g: seq<BtfType>, m: seq<nat>, upto: nat)
    requires |g| == |m|
  {
    forall i :: 1 <= i < |g| ==> PrimStatus(g[i], m[i], i, upto)
  }

  // The state of the pass before it looks at id `upto`.
  ghost predicate PrimProgress(d: Names, s: Snapshot, upto: nat) {
    StateOk(s) && Forest(s.m, s.rank) && 1 <= upto <= |s.g| && MappedClosed(s.m) &&
    MeaningKept(d, s.g, s.m) && EnumsResolved(d, s.g, s.m, upto) &&
    EntriesBelow(s.entries, upto) && Statuses(s.g, s.m, upto)
  }

  ghost predicate PrimStatus(t: BtfType, target: nat, i: nat, upto: nat) {
    if t.IsVarOrDatasec() then target == i
    else if t.IsPrimitive() && i < upto then target <= BTF_MAX_NR_TYPES
    else target == BTF_UNPROCESSED_ID && (t.info.kind.Unkn? ==> i >= upto)
  }

  lemma PrimStart(d: Names, s: Snapshot)
    requires StateOk(s) && MeaningKept(d, s.g, s.m) && s.m == InitialMap(s.g) && s.entries == multiset{}
    ensures PrimProgress(d, s, 1)
  {
    assert |s.g| >= 1;
  }

  // Any filed type without an equal candidate may represent itself.
  lemma FileExact(s: Snapshot, id: nat, cands: seq<nat>) returns (s': Snapshot)
    requires StateOk(s) && 1 <= id < |s.g| && !Mapped(s.m, id) && RestOk(s.g[id]) && IsExact(s.g[id])
    requires CandsOk(s.entries, HashOf(s.g[id]), cands) && (forall c :: c in cands && c < |s.g| ==> s.g[c] != s.g[id])
    ensures s' == s.(m := s.m[id := id], entries := s.entries + multiset{Entry(HashOf(s.g[id]), id)})
    ensures StateOk(s') && Forest(s'.m, s'.rank)
  {
    hide Refs, GraphOk, TableInv, HashOf, RestOk, CandsOk;
    s' := s.(m := s.m[id := id], entries := s.entries + multiset{Entry(HashOf(s.g[id]), id)});
    FileExactTable(s, s', id, cands);
  }

  // A representative with an equal record is among the candidates.
  lemma EqualIsCandidate(s: Snapshot, id: nat, j: nat, cands: seq<nat>)
    requires TableInv(s) && id < |s.g| && 1 <= j < |s.g| && RestOk(s.g[id]) && IsExact(s.g[id])
    requires CandsOk(s.entries, HashOf(s.g[id]), cands) && Canonical(s.m, j) && s.g[j] == s.g[id]
    ensures j in cands
  {
    assert Entry(HashOf(s.g[j]), j) in s.entries;
  }

  lemma FileExactTable(s: Snapshot, s': Snapshot, id: nat, cands: seq<nat>)
    requires TableInv(s) && GraphOk(s.g) && 1 <= id < |s.g| && !Mapped(s.m, id) && RestOk(s.g[id]) && IsExact(s.g[id])
    requires CandsOk(s.entries, HashOf(s.g[id]), cands) && (forall c :: c in cands && c < |s.g| ==> s.g[c] != s.g[id])
    requires s'.g == s.g && s'.m == s.m[id := id]
    requires s'.entries == s.entries + multiset{Entry(HashOf(s.g[id]), id)}
    ensures TableInv(s')
  {
    hide Refs, HashOf;
    assert forall j :: 0 <= j < |s.g| ==> RestOk(s.g[j]);
    hide GraphOk, RestOk;
    forall e | e in s'.entries ensures EntryOk(s', e) {
      if e in s.entries {
        assert EntryOk(s, e);
      }
    }
    forall j | 1 <= j < |s.g| && j != id && Canonical(s.m, j) ensures s.g[j] != s.g[id] {
      if s.g[j] == s.g[id] {
        EqualIsCandidate(s, id, j, cands);
      }
    }
    assert Distinct(s'.g, s'.m);
  }

  // While an enum id is being processed, enum forward declarations that agree with it may
  // already point at it.
  ghost predicate EnumMid(d: Names, s0: Snapshot, s: Snapshot, id: nat) {
    StateOk(s0) && StateOk(s) && Forest(s.m, s.rank) && s == s0.(m := s.m, rank := s.rank) &&
    |s.g| == |s.m| == |s0.m| <= BTF_MAX_NR_TYPES + 1 && 1 <= id < |s.g| &&
    !Mapped(s0.m, id) && !Mapped(s.m, id) &&
    forall i :: 0 <= i < |s.g| ==> s.m[i] == s0.m[i] || (s.m[i] == id && YieldsTo(d, s0, i, id))
  }

  lemma EnumMidUnmapped(d: Names, s0: Snapshot, s: Snapshot, id: nat)
    requires EnumMid(d, s0, s, id)
    ensures StateOk(s) && id < |s.m| && !Mapped(s.m, id)
  {
  }

  ghost predicate YieldsTo(d: Names, s0: Snapshot, i: nat, id: nat)
    requires StateOk(s0) && i < |s0.g| && id < |s0.g|
  {
    1 <= i && Mapped(s0.m, i) && Resolvable(d, s0.g[i]) && IsFullEnum(s0.g[id]) && EnumsAgree(s0.g[i], s0.g[id])
  }

  lemma EnumRepoint(d: Names, s0: Snapshot, s: Snapshot, c: nat, id: nat) returns (s': Snapshot)
    requires EnumMid(d, s0, s, id) && c < |s.g| && c != id && YieldsTo(d, s0, c, id)
    requires MeaningKept(d, s.g, s.m)
    ensures s' == s.(m := s.m[c := id], rank := s'.rank)
    ensures EnumMid(d, s0, s', id) && MeaningKept(d, s'.g, s'.m)
  {
    hide GraphOk, TableInv, MeaningKept, Unfold;
    ResolvableSameName(d, s.g[c], s.g[id]);
    SameNameSameMeaning(d, s.g, c, s.g, id);
    MeaningStep(d, s.g, s.m, c, id);
    var rank' := PointToRoot(s.m, s.rank, c, id);
    s' := s.(m := s.m[c := id], rank := rank');
    PointOk(s, s', c, id);
    hide StateOk;
  }

  // Candidate newId may represent id: an equal record, or with resolution a full enum for a
  // declaration.
  ghost predicate MayRepresent(d: Names, s: Snapshot, id: nat, newId: nat)
    requires id < |s.g| && newId < |s.g|
  {
    s.g[newId] == s.g[id] ||
    (Resolvable(d, s.g[id]) && IsFullEnum(s.g[newId]) && EnumsAgree(s.g[id], s.g[newId]))
  }

  // With resolution on, every enum forward declaration of the graph resolves; with it off, none does.
  lemma ResolvableExactly(g: seq<BtfType>, dontResolveFwds: bool, x: nat)
    requires x < |g|
    ensures Resolvable(NamesFor(g, dontResolveFwds), g[x]) <==> g[x].IsEnumFwd() && !dontResolveFwds
  {
    if OnlyDeclares(g[x]) {
      NameIsDeclared(g, x);
    }
  }

  // Enums that agree differ only when exactly one of them has enumerators, or both do.
  lemma AgreeingFwdsEqual(t: BtfType, u: BtfType)
    requires RestOk(t) && RestOk(u) && t.info.kind.Enum? && EnumsAgree(t, u) && t.IsEnumFwd() && u.info.vlen == 0
    ensures t == u
  {
    assert t.info.(vlen := 0) == u.info.(vlen := 0);
    assert t.rest.enums == u.rest.enums == [];
  }

  lemma CompatKinds(t: BtfType, u: BtfType)
    requires t.info.kind.Enum? && EnumsAgree(t, u)
    ensures u.info.kind.Enum?
  {
    assert t.info.(vlen := 0) == u.info.(vlen := 0);
  }

  // How an enum candidate c that differs from enum t may relate to it.
  lemma EnumCases(t: BtfType, c: BtfType)
    requires RestOk(t) && RestOk(c) && t.info.kind.Enum? && t != c
    ensures EnumsAgree(t, c) <==> EnumsAgree(c, t)
    ensures EnumsAgree(t, c) && t.IsEnumFwd() ==> IsFullEnum(c)
    ensures EnumsAgree(t, c) && (t.IsEnumFwd() || c.IsEnumFwd()) && !t.IsEnumFwd() ==> c.IsEnumFwd() && IsFullEnum(t)
  {
    EnumsAgreeSymmetric(t, c);
    if EnumsAgree(t, c) {
      CompatKinds(t, c);
      if t.IsEnumFwd() && c.info.vlen == 0 {
        AgreeingFwdsEqual(t, c);
      }
    }
  }

  lemma PrimMapped(d: Names, s0: Snapshot, s: Snapshot, id: nat, newId: nat) returns (s': Snapshot)
    requires PrimProgress(d, s0, id) && EnumMid(d, s0, s, id)
    requires s.g[id].IsPrimitive() && newId < |s.g| && newId != id
    requires exists h :: Entry(h, newId) in s.entries
    requires MayRepresent(d, s, id, newId)
    ensures s' == s.(m := s.m[id := newId], rank := s'.rank)
    ensures PrimProgress(d, s', id + 1)
  {
    hide StateOk, MappedClosed, Statuses, EnumsResolved, MeaningKept, YieldsTo, Unfold;
    var h :| Entry(h, newId) in s.entries;
    EntriesUsable(d, s0, s, id, Entry(h, newId));
    s' := PrimMappedState(d, s0, s, id, newId);
    ClosedAfterMid(d, s0, s, id, newId);
    StatusesAfterMid(d, s0, s, id, newId);
    MeaningAfterMid(d, s0, s, id);
    RepresentsMeaning(d, s, id, newId);
    MeaningStep(d, s.g, s.m, id, newId);
    EnumsMappedResolved(d, s0, s, id, newId);
  }

  // An enum forward declaration that resolves stands under the name of the full enum.
  lemma ResolvableSameName(d: Names, t: BtfType, u: BtfType)
    requires Resolvable(d, t) && IsFullEnum(u) && EnumsAgree(t, u)
    ensures SameName(d, t, u)
  {
  }

  lemma RepresentsMeaning(d: Names, s: Snapshot, id: nat, newId: nat)
    requires id < |s.g| && newId < |s.g| && MayRepresent(d, s, id, newId)
    ensures SameMeaning(d, s.g, id, s.g, newId)
  {
    if s.g[newId] == s.g[id] {
      EqualRecordsSameMeaning(d, s.g, id, newId);
    } else {
      ResolvableSameName(d, s.g[id], s.g[newId]);
      SameNameSameMeaning(d, s.g, id, s.g, newId);
    }
  }

  // Sending declarations to the enum keeps their meaning.
  lemma MeaningAfterMid(d: Names, s0: Snapshot, s: Snapshot, id: nat)
    requires EnumMid(d, s0, s, id) && MeaningKept(d, s0.g, s0.m)
    ensures MeaningKept(d, s.g, s.m)
  {
    hide StateOk, Forest, Unfold;
    forall i | 0 <= i < |s.m| && Mapped(s.m, i) ensures SameMeaning(d, s.g, i, s.g, s.m[i]) {
      if s.m[i] != s0.m[i] {
        ResolvableSameName(d, s.g[i], s.g[id]);
        SameNameSameMeaning(d, s.g, i, s.g, id);
      }
    }
  }

  lemma EntriesUsable(d: Names, s0: Snapshot, s: Snapshot, id: nat, e: Entry<nat, nat>)
    requires EnumMid(d, s0, s, id) && EntriesBelow(s0.entries, id) && e in s.entries
    ensures 1 <= e.value < id && Mapped(s0.m, e.value)
    ensures IsFullEnum(s.g[e.value]) ==> Canonical(s0.m, e.value) && Canonical(s.m, e.value)
  {
    assert EntryOk(s, e) && EntryOk(s0, e);
  }

  lemma PrimMappedState(d: Names, s0: Snapshot, s: Snapshot, id: nat, newId: nat) returns (s': Snapshot)
    requires EnumMid(d, s0, s, id) && MappedClosed(s0.m) && newId < id && s.g[id].IsPrimitive()
    requires Mapped(s0.m, newId) && (IsFullEnum(s.g[newId]) ==> Canonical(s.m, newId))
    requires MayRepresent(d, s, id, newId)
    ensures s' == s.(m := s.m[id := newId], rank := s'.rank)
    ensures StateOk(s') && Forest(s'.m, s'.rank)
  {
    hide GraphOk, TableInv;
    var rank';
    if IsFullEnum(s.g[id]) {
      rank' := PointToRoot(s.m, s.rank, id, newId);
    } else {
      assert s.m == s0.m;
      RootMapped(s.m, s.rank, newId);
      rank' := PointRoot(s.m, s.rank, id, newId);
    }
    s' := s.(m := s.m[id := newId], rank := rank');
    UnmappedNotFixed(s, id);
    PointOk(s, s', id, newId);
  }

  lemma ClosedAfterMid(d: Names, s0: Snapshot, s: Snapshot, id: nat, target: nat)
    requires EnumMid(d, s0, s, id) && MappedClosed(s0.m) && target < |s.m| <= BTF_MAX_NR_TYPES + 1
    requires target == id || Mapped(s0.m, target)
    ensures MappedClosed(s.m[id := target])
  {
    hide StateOk, YieldsTo, Forest;
    var m' := s.m[id := target];
    forall i | 0 <= i < |m'| && Mapped(m', i) ensures m'[i] < |m'| && Mapped(m', m'[i]) {
      if i != id && s.m[i] == s0.m[i] {
        assert Mapped(s0.m, i);
      }
    }
  }

  lemma StatusesAfterMid(d: Names, s0: Snapshot, s: Snapshot, id: nat, target: nat)
    requires EnumMid(d, s0, s, id) && Statuses(s0.g, s0.m, id) && s.g[id].IsPrimitive()
    requires target < |s.m| <= BTF_MAX_NR_TYPES + 1
    ensures Statuses(s.g, s.m[id := target], id + 1)
  {
    forall i | 1 <= i < |s.g| ensures PrimStatus(s.g[i], s.m[id := target][i], i, id + 1) {
      assert PrimStatus(s.g[i], s0.m[i], i, id);
    }
  }

  lemma EnumsMappedResolved(d: Names, s0: Snapshot, s: Snapshot, id: nat, newId: nat)
    requires EnumMid(d, s0, s, id) && EnumsResolved(d, s0.g, s0.m, id) && s.g[id].IsPrimitive() && 1 <= newId < id
    requires MayRepresent(d, s, id, newId) && (IsFullEnum(s.g[newId]) ==> Canonical(s.m, newId))
    ensures EnumsResolved(d, s.g, s.m[id := newId], id + 1)
  {
    hide StateOk;
    var m' := s.m[id := newId];
    forall i | 1 <= i < |s.g| && Canonical(m', i) ensures Canonical(s0.m, i) {
    }
    assert EnumFwdsYield(d, s.g, m', id + 1);
  }

  // No candidate may represent id, and every declaration that should yield to it has done so.
  ghost predicate DoesNotRepresent(d: Names, s: Snapshot, id: nat, c: nat)
    requires id < |s.g| && c < |s.g| == |s.m|
  {
    !MayRepresent(d, s, id, c) &&
    (IsFullEnum(s.g[id]) && Resolvable(d, s.g[c]) && EnumsAgree(s.g[c], s.g[id]) ==> s.m[c] == id)
  }

  ghost predicate NoneRepresents(d: Names, s: Snapshot, id: nat, cands: seq<nat>)
    requires id < |s.g| && |s.m| == |s.g|
  {
    forall c :: c in cands && c < |s.g| ==> DoesNotRepresent(d, s, id, c)
  }

  lemma NoneAmongNone(d: Names, s: Snapshot, id: nat)
    requires id < |s.g| && |s.m| == |s.g|
    ensures NoneRepresents(d, s, id, [])
  {
  }

  // Sending candidates to id makes none of them a representative.
  lemma NoneRepresentsStill(d: Names, s: Snapshot, s': Snapshot, id: nat, cands: seq<nat>)
    requires id < |s.g| == |s.m| == |s'.m| && s'.g == s.g && NoneRepresents(d, s, id, cands)
    requires forall c :: 0 <= c < |s.m| ==> s'.m[c] == s.m[c] || s'.m[c] == id
    ensures NoneRepresents(d, s', id, cands)
  {
    forall c | c in cands && c < |s.g| ensures DoesNotRepresent(d, s', id, c) {
      assert DoesNotRepresent(d, s, id, c);
    }
  }

  lemma NoneRepresentsMore(d: Names, s: Snapshot, id: nat, cands: seq<nat>, i: nat)
    requires id < |s.g| == |s.m| && i < |cands| && NoneRepresents(d, s, id, cands[..i])
    requires cands[i] < |s.g| && DoesNotRepresent(d, s, id, cands[i])
    ensures NoneRepresents(d, s, id, cands[..i + 1])
  {
  }

  lemma PrimFiled(d: Names, s0: Snapshot, s: Snapshot, id: nat, cands: seq<nat>) returns (s': Snapshot)
    requires PrimProgress(d, s0, id) && EnumMid(d, s0, s, id)
    requires s.g[id].IsPrimitive() && RestOk(s.g[id])
    requires CandsOk(s.entries, HashOf(s.g[id]), cands) && NoneRepresents(d, s, id, cands)
    ensures s' == s.(m := s.m[id := id], entries := s.entries + multiset{Entry(HashOf(s.g[id]), id)})
    ensures PrimProgress(d, s', id + 1)
  {
    hide StateOk, MappedClosed, Statuses, EnumsResolved, MeaningKept, YieldsTo, Unfold, HashOf, RestOk, CandsOk;
    s' := FileExact(s, id, cands);
    ClosedAfterMid(d, s0, s, id, id);
    StatusesAfterMid(d, s0, s, id, id);
    assert EntriesBelow(s'.entries, id + 1);
    MeaningAfterMid(d, s0, s, id);
    MeaningStep(d, s.g, s.m, id, id);
    EnumsStayResolved(d, s0, s, id, cands);
  }

  lemma EnumsStayResolved(d: Names, s0: Snapshot, s: Snapshot, id: nat, cands: seq<nat>)
    requires EnumMid(d, s0, s, id) && EnumsResolved(d, s0.g, s0.m, id) && RestOk(s.g[id])
    requires CandsOk(s.entries, HashOf(s.g[id]), cands) && NoneRepresents(d, s, id, cands)
    ensures EnumsResolved(d, s.g, s.m[id := id], id + 1)
  {
    hide StateOk, HashOf, RestOk, CandsOk;
    var m' := s.m[id := id];
    forall i, j | 1 <= i < |s.g| && 1 <= j < id + 1 && Canonical(m', i) && Resolvable(d, s.g[i]) && IsFullEnum(s.g[j])
      ensures !EnumsAgree(s.g[i], s.g[j])
    {
      if EnumsAgree(s.g[i], s.g[j]) {
        if i == id {
          assert Canonical(s0.m, s0.m[j]);
          CanonicalEnumIsCandidate(s, s.m[j], id, cands);
        } else {
          assert Canonical(s0.m, i);
          if j == id {
            CanonicalEnumIsCandidate(s, i, id, cands);
          }
        }
      }
    }
  }

  // Enums that agree share a hash, so the representative of one is a candidate for the other.
  lemma CanonicalEnumIsCandidate(s: Snapshot, i: nat, id: nat, cands: seq<nat>)
    requires StateOk(s) && 1 <= i < |s.g| && id < |s.g| && Canonical(s.m, i) && RestOk(s.g[id])
    requires s.g[i].info.kind.Enum? && s.g[id].info.kind.Enum? && EnumsAgree(s.g[i], s.g[id])
    requires CandsOk(s.entries, HashOf(s.g[id]), cands)
    ensures i in cands
  {
    RecordOk(s, i);
    assert HashOf(s.g[i]) == HashOf(s.g[id]);
    assert Entry(HashOf(s.g[i]), i) in s.entries;
  }

  // Ids that the primitive pass does not concern.
  lemma PrimSkips(d: Names, s: Snapshot, id: nat)
    requires PrimProgress(d, s, id) && id < |s.g| && !s.g[id].IsPrimitive() && !s.g[id].info.kind.Unkn?
    ensures PrimProgress(d, s, id + 1)
  {
    hide StateOk, MeaningKept;
  }

  lemma PrimBegins(d: Names, s: Snapshot, id: nat)
    requires PrimProgress(d, s, id) && id < |s.g| && s.g[id].IsPrimitive()
    ensures EnumMid(d, s, s, id) && RestOk(s.g[id])
  {
    RecordOk(s, id);
    assert PrimStatus(s.g[id], s.m[id], id, id);
  }
}
