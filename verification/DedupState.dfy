// The state of a deduplication as a value, the invariants of its passes, and the lemmas
// that carry them from one update to the next.

module DedupState {
  import opened BtfTypes
  import opened BtfCompare
  import opened TypeGraph
  import opened Definitions
  import opened CanonMap
  import opened Hashmap

  // Types, canonical map, ranks that witness its acyclicity, and the table of candidates.
  datatype Snapshot = Snapshot(g: seq<BtfType>, m: seq<nat>, rank: seq<nat>, entries: multiset<Entry<nat, nat>>)

  ghost predicate Base(s: Snapshot) {
    GraphOk(s.g) && |s.g| == |s.m| <= BTF_MAX_NR_TYPES + 1 && Forest(s.m, s.rank) && s.m[0] == 0
  }

  // Every mapped id means the same as the id it is mapped to.
  ghost predicate MeaningKept(d: Names, g: seq<BtfType>, m: seq<nat>) {
    forall i :: 0 <= i < |m| && Mapped(m, i) ==> SameMeaning(d, g, i, g, m[i])
  }

  // What every step keeps, with and without FWD resolution.
  ghost predicate StateOk(s: Snapshot) {
    Base(s) && TableInv(s) && ClassKept(s.g, s.m)
  }

  lemma NotEmpty(s: Snapshot)
    requires StateOk(s)
    ensures |s.g| >= 1
  {
  }

  lemma RecordOk(s: Snapshot, x: nat)
    requires StateOk(s) && x < |s.g|
    ensures RestOk(s.g[x])
  {
  }

  lemma RefInRange(s: Snapshot, x: nat, i: nat)
    requires Base(s) && x < |s.g| && i < |Refs(s.g[x])|
    ensures Refs(s.g[x])[i] < |s.g|
  {
    assert RefsBelow(s.g[x], |s.g|);
  }

  // A type may be merged into one of its kind, and a forward declaration into a definition
  // of the kind it declares, but never the other way round. An enum keeps its enumerators.
  predicate MergesInto(t: BtfType, u: BtfType) {
    RealKind(t) == RealKind(u) && (u.IsFwd() ==> t.IsFwd()) &&
    (t.info.kind.Enum? ==> EnumsAgree(t, u) && (t.IsEnumFwd() || Shape(t) == Shape(u)))
  }

  ghost predicate ClassKept(g: seq<BtfType>, m: seq<nat>) {
    |g| == |m| &&
    forall i :: 0 <= i < |m| && Mapped(m, i) ==> m[i] < |m| && MergesInto(g[i], g[m[i]])
  }

  // Kinds for which equality of records alone decides whether two types are merged.
  predicate IsExact(t: BtfType) {
    t.IsPrimitive() || t.IsReference()
  }

  // Kinds that are filed in the table once they are canonical.
  predicate IsFiled(t: BtfType) {
    IsExact(t) || t.IsComposite()
  }

  ghost predicate Canonical(m: seq<nat>, i: nat)
    requires i < |m|
  {
    m[i] == i
  }

  // The candidate table files canonical types under their hashes.
  ghost predicate TableOk(s: Snapshot)
    requires |s.g| == |s.m| <= BTF_MAX_NR_TYPES + 1
  {
    forall e :: e in s.entries ==> EntryOk(s, e)
  }

  ghost predicate EntryOk(s: Snapshot, e: Entry<nat, nat>)
    requires |s.g| == |s.m| <= BTF_MAX_NR_TYPES + 1
  {
    1 <= e.value < |s.g| && Mapped(s.m, e.value) &&
    RestOk(s.g[e.value]) && e.key == HashOf(s.g[e.value]) &&
    IsFiled(s.g[e.value]) &&
    (!s.g[e.value].IsFwd() && !s.g[e.value].IsEnumFwd() ==> s.m[e.value] == e.value)
  }

  // Every canonical type is in the table under its hash, so equal types are found through it.
  ghost predicate Indexed(s: Snapshot)
    requires |s.g| == |s.m|
  {
    forall i :: 1 <= i < |s.g| && Canonical(s.m, i) && IsFiled(s.g[i]) && RestOk(s.g[i]) ==>
      Entry(HashOf(s.g[i]), i) in s.entries
  }

  // No two canonical exact types are equal records.
  ghost predicate Distinct(g: seq<BtfType>, m: seq<nat>)
    requires |g| == |m|
  {
    forall i, j :: 1 <= i < j < |g| && Canonical(m, i) && Canonical(m, j) && IsExact(g[i]) ==> g[i] != g[j]
  }

  ghost predicate TableInv(s: Snapshot) {
    |s.g| == |s.m| <= BTF_MAX_NR_TYPES + 1 && TableOk(s) && Indexed(s) && Distinct(s.g, s.m)
  }

  // Nothing is filed twice.
  ghost predicate Single(entries: multiset<Entry<nat, nat>>) {
    forall e :: e in entries ==> entries[e] == 1
  }

  lemma {:induction false} SingleBound(entries: multiset<Entry<nat, nat>>, n: nat)
    requires Single(entries) && forall e :: e in entries ==> e.value < n
    requires forall d, e :: d in entries && e in entries && d.value == e.value ==> d == e
    ensures |entries| <= n
    decreases n
  {
    if e :| e in entries && e.value == n - 1 {
      var rest := entries - multiset{e};
      assert e !in rest;
      SingleBound(rest, n - 1);
      assert entries == rest + multiset{e};
    } else if n > 0 {
      SingleBound(entries, n - 1);
    } else {
      assert entries == multiset{};
    }
  }

  // The table holds at most one entry for every type.
  lemma TableSmall(s: Snapshot)
    requires TableInv(s) && Single(s.entries)
    ensures |s.entries| <= |s.g|
  {
    forall e | e in s.entries ensures EntryOk(s, e) {
    }
    SingleBound(s.entries, |s.g|);
  }

  // An id is filed only once, because filing it maps it.
  lemma FiledSingle(s: Snapshot, h: nat, id: nat)
    requires TableInv(s) && Single(s.entries) && id < |s.g| && !Mapped(s.m, id)
    ensures Single(s.entries + multiset{Entry(h, id)})
  {
    forall e | e in s.entries ensures e.value != id {
      assert EntryOk(s, e);
    }
  }

  lemma StateTable(s: Snapshot)
    requires StateOk(s)
    ensures TableInv(s)
  {
  }

  // All candidates filed under hash h.
  ghost predicate CandsOk(entries: multiset<Entry<nat, nat>>, h: nat, cands: seq<nat>) {
    (forall c :: c in cands ==> Entry(h, c) in entries) &&
    (forall c :: Entry(h, c) in entries ==> c in cands)
  }

  lemma CandUsable(s: Snapshot, h: nat, cands: seq<nat>, i: nat)
    requires TableInv(s) && CandsOk(s.entries, h, cands) && i < |cands|
    ensures EntryOk(s, Entry(h, cands[i]))
  {
    assert cands[i] in cands;
  }

  lemma CandInRange(s: Snapshot, h: nat, cands: seq<nat>, i: nat)
    requires StateOk(s) && CandsOk(s.entries, h, cands) && i < |cands|
    ensures 1 <= cands[i] < |s.g| && Mapped(s.m, cands[i]) && RestOk(s.g[cands[i]])
  {
    CandUsable(s, h, cands, i);
  }

  // No two canonical composites mean the same, where no declared name is left open.
  ghost predicate CompositesDistinct(d: Names, g: seq<BtfType>, m: seq<nat>)
    requires |g| == |m|
  {
    forall i, j | 1 <= i < |g| && 1 <= j < |g| && i != j && Canonical(m, i) && Canonical(m, j) ::
      g[i].IsComposite() && g[j].IsComposite() && Comparable(d, g, i) ==> !SameMeaning(d, g, i, g, j)
  }

  function InitialMap(g: seq<BtfType>): seq<nat> {
    seq(|g|, i requires 0 <= i < |g| => if i == 0 || g[i].IsVarOrDatasec() then i else BTF_UNPROCESSED_ID)
  }

  lemma InitialMapOk(d: Names, s: Snapshot)
    requires GraphOk(s.g) && |s.g| <= BTF_MAX_NR_TYPES + 1
    requires s.m == InitialMap(s.g) && |s.rank| == |s.m| && s.entries == multiset{}
    ensures StateOk(s) && MeaningKept(d, s.g, s.m)
  {
    hide Refs, Unfold;
  }

  lemma {:induction false} RootMeaning(d: Names, g: seq<BtfType>, m: seq<nat>, rank: seq<nat>, i: nat)
    requires Forest(m, rank) && MeaningKept(d, g, m) && i < |m|
    ensures SameMeaning(d, g, i, g, Root(m, rank, i))
    decreases rank[i]
  {
    if !IsRoot(m, i) {
      RootMeaning(d, g, m, rank, m[i]);
    }
  }

  lemma {:induction false} RootClass(g: seq<BtfType>, m: seq<nat>, rank: seq<nat>, i: nat)
    requires Forest(m, rank) && ClassKept(g, m) && i < |m|
    ensures MergesInto(g[i], g[Root(m, rank, i)])
    decreases rank[i]
  {
    if !IsRoot(m, i) {
      RootClass(g, m, rank, m[i]);
    }
  }

  lemma MeaningStep(d: Names, g: seq<BtfType>, m: seq<nat>, i: nat, j: nat)
    requires MeaningKept(d, g, m) && i < |m| && SameMeaning(d, g, i, g, j)
    ensures MeaningKept(d, g, m[i := j])
  {
  }

  lemma MeaningKeptTransfers(d: Names, g: seq<BtfType>, h: seq<BtfType>, m: seq<nat>)
    requires SameGraph(d, g, h) && MeaningKept(d, g, m) && |m| == |g|
    requires forall i :: 0 <= i < |m| && Mapped(m, i) ==> m[i] < |g|
    ensures MeaningKept(d, h, m)
  {
    forall i | 0 <= i < |m| && Mapped(m, i) ensures SameMeaning(d, h, i, h, m[i]) {
      SameMeaningTransfers(d, g, h, i, m[i]);
    }
  }

  // Mapped ids keep their target, so roots that are settled stay settled.
  ghost predicate Settles(m: seq<nat>, m': seq<nat>) {
    |m| == |m'| && forall i :: 0 <= i < |m| && Mapped(m, i) ==> m'[i] == m[i]
  }

  lemma {:induction false} RootSettled(m: seq<nat>, rank: seq<nat>, m': seq<nat>, rank': seq<nat>, i: nat)
    requires Forest(m, rank) && Forest(m', rank') && Settles(m, m') && i < |m|
    requires Mapped(m, Root(m, rank, i))
    ensures Root(m', rank', i) == Root(m, rank, i) && Mapped(m', Root(m', rank', i))
    decreases rank[i]
  {
    if !IsRoot(m, i) {
      RootSettled(m, rank, m', rank', m[i]);
    }
  }

  // No table entry relies on x representing itself.
  ghost predicate NotFixed(s: Snapshot, x: nat)
    requires x < |s.g|
  {
    s.g[x].IsFwd() || s.g[x].IsEnumFwd() || forall e :: e in s.entries ==> e.value != x
  }

  lemma UnmappedNotFixed(s: Snapshot, x: nat)
    requires TableInv(s) && x < |s.g| && !Mapped(s.m, x)
    ensures NotFixed(s, x)
  {
    forall e | e in s.entries ensures e.value != x {
      assert EntryOk(s, e);
    }
  }

  // Pointing x at y keeps the state in order, provided the map stays a forest.
  lemma PointOk(s: Snapshot, s': Snapshot, x: nat, y: nat)
    requires StateOk(s) && 1 <= x < |s.g| && y < |s.g| && x != y && NotFixed(s, x)
    requires s' == s.(m := s.m[x := y], rank := s'.rank) && Forest(s'.m, s'.rank) && MergesInto(s.g[x], s.g[y])
    ensures StateOk(s')
  {
    PointOkTable(s, s', x, y);
  }

  lemma PointOkTable(s: Snapshot, s': Snapshot, x: nat, y: nat)
    requires TableInv(s) && x < |s.g| && y < |s.g| && x != y && NotFixed(s, x)
    requires s' == s.(m := s.m[x := y], rank := s'.rank)
    ensures TableInv(s')
  {
    forall e | e in s'.entries ensures EntryOk(s', e) {
      assert EntryOk(s, e);
    }
  }
}
