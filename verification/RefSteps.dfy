// The reference pass: chains of reference types, their cycles, and the invariant of the
// depth-first traversal that canonicalizes them.

module RefSteps {
  import opened BtfTypes
  import opened BtfCompare
  import opened TypeGraph
  import opened CanonMap
  import opened Hashmap
  import opened DedupState
  import opened PrimSteps
  import opened StructSteps

  // A reference type that refers directly to another one.
  ghost predicate RefEdge(g: seq<BtfType>, a: nat, b: nat) {
    a < |g| && b < |g| && g[a].IsReference() && g[b].IsReference() && b in Refs(g[a])
  }

  ghost predicate IsRefPath(g: seq<BtfType>, p: seq<nat>) {
    forall i :: 0 <= i < |p| - 1 ==> RefEdge(g, p[i], p[i + 1])
  }

  // Some chain of reference types closes on itself without passing through a struct or union.
  ghost predicate HasRefCycle(g: seq<BtfType>) {
    exists p :: IsRefCycle(g, p)
  }

  ghost predicate IsRefCycle(g: seq<BtfType>, p: seq<nat>) {
    |p| >= 2 && p[0] == p[|p| - 1] && IsRefPath(g, p)
  }

  // In the order `fin` every reference type comes after those it refers to.
  ghost predicate Topo(g: seq<BtfType>, fin: seq<nat>) {
    forall k, b: nat :: 0 <= k < |fin| && RefEdge(g, fin[k], b) ==> b in fin[..k]
  }

  // A path that starts at position k of the order ends at an earlier position.
  lemma {:induction false} PathDescends(g: seq<BtfType>, fin: seq<nat>, p: seq<nat>, k: nat) returns (j: nat)
    requires Topo(g, fin) && IsRefPath(g, p) && |p| >= 1 && k < |fin| && fin[k] == p[0]
    ensures j <= k && fin[j] == p[|p| - 1] && (|p| >= 2 ==> j < k)
    decreases |p|
  {
    if |p| == 1 {
      return k;
    }
    assert RefEdge(g, p[0], p[1]);
    var i :| 0 <= i < k && fin[i] == p[1];
    assert IsRefPath(g, p[1..]) by {
      forall x | 0 <= x < |p[1..]| - 1 ensures RefEdge(g, p[1..][x], p[1..][x + 1]) {
        assert RefEdge(g, p[x + 1], p[x + 1 + 1]);
      }
    }
    j := PathDescends(g, fin, p[1..], i);
  }

  // No cycle starts at a position of such an order.
  lemma {:induction false} NoCycleAt(g: seq<BtfType>, fin: seq<nat>, p: seq<nat>, k: nat)
    requires Topo(g, fin) && IsRefCycle(g, p) && k < |fin| && fin[k] == p[0]
    ensures false
    decreases k
  {
    var j := PathDescends(g, fin, p, k);
    NoCycleAt(g, fin, p, j);
  }

  // An order of all reference types rules out cycles.
  lemma OrderedIsAcyclic(g: seq<BtfType>, fin: seq<nat>)
    requires Topo(g, fin) && forall i :: 0 <= i < |g| && g[i].IsReference() ==> i in fin
    ensures !HasRefCycle(g)
  {
    forall p | IsRefCycle(g, p) ensures false {
      assert RefEdge(g, p[0], p[1]);
      var k :| 0 <= k < |fin| && fin[k] == p[0];
      NoCycleAt(g, fin, p, k);
    }
  }

  // Coming back to an id on the current path closes a cycle.
  lemma CycleFound(g: seq<BtfType>, path: seq<nat>, id: nat)
    requires IsRefPath(g, path + [id]) && id in path
    ensures HasRefCycle(g)
  {
    var k :| 0 <= k < |path| && path[k] == id;
    var all := path + [id];
    var p := all[k..];
    forall x | 0 <= x < |p| - 1 ensures RefEdge(g, p[x], p[x + 1]) {
      assert RefEdge(g, all[k + x], all[k + x + 1]);
    }
    assert IsRefCycle(g, p);
  }

  // Where id i stands in the traversal: on the path, finished, or untouched.
  ghost predicate RefStatus(t: BtfType, u: BtfType, target: nat, i: nat, path: seq<nat>, fin: seq<nat>) {
    if u.IsReference() then
      Shape(t) == Shape(u) && t.info == u.info && |Refs(t)| == |Refs(u)| &&
      (i in path <==> target == BTF_IN_PROGRESS_ID) &&
      (i in fin <==> target <= BTF_MAX_NR_TYPES) &&
      (i !in path && i !in fin ==> target == BTF_UNPROCESSED_ID && t == u)
    else t == u && target <= BTF_MAX_NR_TYPES && i !in path && i !in fin
  }

  ghost predicate RefStatuses(g: seq<BtfType>, m: seq<nat>, input: seq<BtfType>, path: seq<nat>, fin: seq<nat>)
    requires |g| == |m| == |input|
  {
    forall i :: 0 <= i < |g| ==> RefStatus(g[i], input[i], m[i], i, path, fin)
  }

  // The first n references of record t are the representatives of those of the input record.
  ghost predicate RefsResolved(s: Snapshot, t: BtfType, u: BtfType, n: nat)
    requires Forest(s.m, s.rank)
  {
    |Refs(t)| == |Refs(u)| &&
    forall j :: 0 <= j < n && j < |Refs(u)| ==> RefResolved(s, Refs(t)[j], Refs(u)[j])
  }

  ghost predicate RefResolved(s: Snapshot, r: nat, c: nat)
    requires Forest(s.m, s.rank)
  {
    c < |s.m| && r == Root(s.m, s.rank, c) && Mapped(s.m, c) && Mapped(s.m, r)
  }

  // A finished reference type refers to representatives, and so does its own representative.
  ghost predicate RefDone(s: Snapshot, input: seq<BtfType>, i: nat)
    requires Forest(s.m, s.rank) && |s.g| == |s.m| == |input|
  {
    i < |s.g| && s.m[i] < |s.g| && Canonical(s.m, s.m[i]) && s.g[s.m[i]] == s.g[i] &&
    RefsResolved(s, s.g[i], input[i], |Refs(input[i])|)
  }

  ghost predicate AllDoneRefs(s: Snapshot, input: seq<BtfType>, fin: seq<nat>)
    requires Forest(s.m, s.rank) && |s.g| == |s.m| == |input|
  {
    forall i :: i in fin ==> RefDone(s, input, i)
  }

  // The invariant of the traversal.
  ghost predicate RefInv(d: Names, s: Snapshot, input: seq<BtfType>, path: seq<nat>, fin: seq<nat>) {
    StateOk(s) && |s.g| == |s.m| == |input| <= BTF_MAX_NR_TYPES + 1 && Forest(s.m, s.rank) &&
    RefStatuses(s.g, s.m, input, path, fin) && AllDoneRefs(s, input, fin) && Topo(input, fin) &&
    MeaningKept(d, s.g, s.m) && SameGraph(d, input, s.g)
  }

  lemma RefResolvedSettled(s: Snapshot, s': Snapshot, r: nat, c: nat)
    requires Forest(s.m, s.rank) && Forest(s'.m, s'.rank) && Settles(s.m, s'.m) && RefResolved(s, r, c)
    ensures RefResolved(s', r, c)
  {
    RootSettled(s.m, s.rank, s'.m, s'.rank, c);
  }

  lemma RefsResolvedSettled(s: Snapshot, s': Snapshot, t: BtfType, u: BtfType, n: nat)
    requires Forest(s.m, s.rank) && Forest(s'.m, s'.rank) && Settles(s.m, s'.m) && RefsResolved(s, t, u, n)
    ensures RefsResolved(s', t, u, n)
  {
    forall j | 0 <= j < n && j < |Refs(u)| ensures RefResolved(s', Refs(t)[j], Refs(u)[j]) {
      RefResolvedSettled(s, s', Refs(t)[j], Refs(u)[j]);
    }
  }

  lemma AllDoneRefsSettled(s: Snapshot, s': Snapshot, input: seq<BtfType>, fin: seq<nat>)
    requires Forest(s.m, s.rank) && Forest(s'.m, s'.rank) && Settles(s.m, s'.m)
    requires |s.g| == |s.m| == |input| == |s'.g| <= BTF_MAX_NR_TYPES + 1 && AllDoneRefs(s, input, fin)
    requires forall i :: 0 <= i < |s.g| && Mapped(s.m, i) ==> s'.g[i] == s.g[i]
    ensures AllDoneRefs(s', input, fin)
  {
    forall i | i in fin ensures RefDone(s', input, i) {
      assert RefDone(s, input, i);
      RefsResolvedSettled(s, s', s.g[i], input[i], |Refs(input[i])|);
    }
  }

  lemma RefBegins(d: Names, s: Snapshot)
    requires StructProgress(d, s, |s.g|)
    ensures RefInv(d, s, s.g, [], [])
  {
    assert s.g[0] == VOID;
    forall i | 0 <= i < |s.g| ensures RefStatus(s.g[i], s.g[i], s.m[i], i, [], []) {
      if i > 0 {
        assert StructStatus(s.g[i], s.m[i], i, |s.g|);
      }
    }
  }

  // Entering an untouched reference type puts it on the path.
  lemma RefEnter(d: Names, s: Snapshot, input: seq<BtfType>, path: seq<nat>, fin: seq<nat>, id: nat)
    requires RefInv(d, s, input, path, fin) && id < |s.g| && id !in path && !Mapped(s.m, id)
    ensures var s' := s.(m := s.m[id := BTF_IN_PROGRESS_ID]);
            RefInv(d, s', input, path + [id], fin) && Settles(s.m, s'.m)
    ensures s.g[id] == input[id] && s.g[id].IsReference() && s.m[id] == BTF_UNPROCESSED_ID
  {
    hide Refs, Shape, SameGraph, SameMeaning, Topo, GraphOk, RefStatuses;
    var s' := s.(m := s.m[id := BTF_IN_PROGRESS_ID]);
    EnterStatuses(s.g, s.m, input, path, fin, id);
    AllDoneRefsSettled(s, s', input, fin);
    MarkTable(s, s', id);
    hide TableInv, AllDoneRefs;
  }

  lemma EnterStatuses(g: seq<BtfType>, m: seq<nat>, input: seq<BtfType>, path: seq<nat>, fin: seq<nat>, id: nat)
    requires |g| == |m| == |input| && RefStatuses(g, m, input, path, fin) && id < |g| && id !in path && !Mapped(m, id)
    ensures RefStatuses(g, m[id := BTF_IN_PROGRESS_ID], input, path + [id], fin)
    ensures g[id] == input[id] && g[id].IsReference() && m[id] == BTF_UNPROCESSED_ID
  {
    assert RefStatus(g[id], input[id], m[id], id, path, fin);
    var m' := m[id := BTF_IN_PROGRESS_ID];
    forall i | 0 <= i < |g| ensures RefStatus(g[i], input[i], m'[i], i, path + [id], fin) {
      assert RefStatus(g[i], input[i], m[i], i, path, fin);
    }
  }

  lemma MarkTable(s: Snapshot, s': Snapshot, id: nat)
    requires TableInv(s) && id < |s.g| && !Mapped(s.m, id)
    requires s' == s.(m := s.m[id := BTF_IN_PROGRESS_ID])
    ensures TableInv(s')
  {
    forall e | e in s'.entries ensures EntryOk(s', e) {
      assert EntryOk(s, e);
    }
  }

  // Overwriting the j-th reference of a type on the path with its representative.
  lemma RefSet(d: Names, s: Snapshot, input: seq<BtfType>, path: seq<nat>, fin: seq<nat>, id: nat, j: nat, r: nat)
    requires RefInv(d, s, input, path, fin) && id < |s.g| && id in path && j < |Refs(input[id])|
    requires |Refs(s.g[id])| == |Refs(input[id])| && Refs(s.g[id])[j] == Refs(input[id])[j]
    requires RefsResolved(s, s.g[id], input[id], j) && RefResolved(s, r, Refs(input[id])[j])
    ensures var s' := s.(g := s.g[id := SetRef(s.g[id], j, r)]);
            RefInv(d, s', input, path, fin) && RefsResolved(s', s'.g[id], input[id], j + 1) &&
            Refs(s'.g[id]) == Refs(s.g[id])[j := r]
  {
    var t := SetRef(s.g[id], j, r);
    var s' := s.(g := s.g[id := t]);
    hide StateOk, Forest, MeaningKept, SameGraph;
    assert RefStatus(s.g[id], input[id], s.m[id], id, path, fin);
    SetRefChangesOneRef(s.g[id], j, r);
    hide Shape;
    assert t.info == s.g[id].info && t.name == s.g[id].name;
    hide SetRef, Topo;
    RefSetState(s, s', id, j, r);
    RefSetMeaning(d, s, s', input, id, j, r);
    AllDoneRefsOther(s, s', input, fin, id);
    hide AllDoneRefs;
    forall i | 0 <= i < |s.g| ensures RefStatus(s'.g[i], input[i], s.m[i], i, path, fin) {
      assert RefStatus(s.g[i], input[i], s.m[i], i, path, fin);
    }
    hide RefStatus;
    forall k | 0 <= k < j + 1 ensures RefResolved(s', Refs(t)[k], Refs(input[id])[k]) {
      assert k < j ==> RefResolved(s, Refs(s.g[id])[k], Refs(input[id])[k]);
    }
  }

  lemma AllDoneRefsOther(s: Snapshot, s': Snapshot, input: seq<BtfType>, fin: seq<nat>, id: nat)
    requires Forest(s.m, s.rank) && |s.g| == |s.m| == |input| <= BTF_MAX_NR_TYPES + 1 && AllDoneRefs(s, input, fin)
    requires id < |s.g| && !Mapped(s.m, id) && (forall i :: i in fin ==> i != id)
    requires s' == s.(g := s'.g) && |s'.g| == |s.g| && s'.g == s.g[id := s'.g[id]]
    ensures AllDoneRefs(s', input, fin)
  {
    forall i | i in fin ensures RefDone(s', input, i) {
      assert RefDone(s, input, i);
      RefsResolvedSettled(s, s', s.g[i], input[i], |Refs(input[i])|);
    }
  }

  lemma RefSetState(s: Snapshot, s': Snapshot, id: nat, j: nat, r: nat)
    requires StateOk(s) && id < |s.g| == |s.m| && !Mapped(s.m, id) && j < |Refs(s.g[id])| && r < |s.g|
    requires s' == s.(g := s.g[id := SetRef(s.g[id], j, r)])
    ensures StateOk(s')
  {
    var t := SetRef(s.g[id], j, r);
    SetRefChangesOneRef(s.g[id], j, r);
    assert t.info == s.g[id].info;
    hide SetRef, Shape;
    RefSetTable(s, s', id, t);
    hide TableInv, Forest;
    assert RefsBelow(s.g[id], |s.g|) && RestOk(s.g[id]);
    assert RefsBelow(t, |s.g|);
    hide Refs, RestOk;
  }

  lemma RefSetTable(s: Snapshot, s': Snapshot, id: nat, t: BtfType)
    requires TableInv(s) && id < |s.g| && !Mapped(s.m, id) && s' == s.(g := s.g[id := t])
    ensures TableInv(s')
  {
    forall e | e in s'.entries ensures EntryOk(s', e) {
      assert EntryOk(s, e);
    }
  }

  lemma RefSetMeaning(d: Names, s: Snapshot, s': Snapshot, input: seq<BtfType>, id: nat, j: nat, r: nat)
    requires StateOk(s) && |input| == |s.g| && id < |s.g| && j < |Refs(s.g[id])|
    requires RefResolved(s, r, Refs(s.g[id])[j]) && s' == s.(g := s.g[id := SetRef(s.g[id], j, r)])
    requires MeaningKept(d, s.g, s.m) && SameGraph(d, input, s.g)
    ensures MeaningKept(d, s'.g, s'.m) && SameGraph(d, input, s'.g)
  {
    var t := SetRef(s.g[id], j, r);
    SetRefChangesOneRef(s.g[id], j, r);
    RootMeaning(d, s.g, s.m, s.rank, Refs(s.g[id])[j]);
    assert forall i :: 0 <= i < |s.m| && Mapped(s.m, i) ==> s.m[i] < |s.m|;
    assert RefsBelow(s.g[id], |s.g|);
    assert Redirects(d, s.g, id, t);
    RedirectionPreservesMeaning(d, s.g, id, t);
    SameGraphTrans(d, input, s.g, s'.g);
    MeaningKeptTransfers(d, s.g, s'.g, s.m);
  }

  // A type on the path whose references have all been resolved, about to be given a representative.
  ghost predicate RefReady(d: Names, s: Snapshot, input: seq<BtfType>, path: seq<nat>, fin: seq<nat>, id: nat) {
    RefInv(d, s, input, path + [id], fin) && id < |s.g| && id !in path &&
    RefsResolved(s, s.g[id], input[id], |Refs(input[id])|)
  }

  lemma RefReadyStatus(d: Names, s: Snapshot, input: seq<BtfType>, path: seq<nat>, fin: seq<nat>, id: nat)
    requires RefReady(d, s, input, path, fin, id)
    ensures id < |s.g| == |s.m| == |input|
    ensures s.m[id] == BTF_IN_PROGRESS_ID && input[id].IsReference() && id !in fin && 1 <= id
    ensures s.g[id].IsReference() && RestOk(s.g[id])
  {
    assert id in path + [id];
    assert RefStatus(s.g[id], input[id], s.m[id], id, path + [id], fin);
  }

  // What the new target of a finished type must satisfy.
  ghost predicate RefTarget(s: Snapshot, s': Snapshot, id: nat, newId: nat) {
    id < |s.g| && newId < |s.g| == |s.m| && s'.g == s.g && s'.m == s.m[id := newId] && StateOk(s') &&
    Canonical(s'.m, newId) && s.g[newId] == s.g[id]
  }

  lemma RefLeaves(d: Names, s: Snapshot, s': Snapshot, input: seq<BtfType>, path: seq<nat>, fin: seq<nat>,
                  id: nat, newId: nat)
    requires RefReady(d, s, input, path, fin, id) && RefTarget(s, s', id, newId)
    ensures RefInv(d, s', input, path, fin + [id]) && Settles(s.m, s'.m)
    ensures Forest(s'.m, s'.rank) && RefResolved(s', newId, id)
  {
    RefReadyStatus(d, s, input, path, fin, id);
    hide TableInv, ClassKept, GraphOk, RestOk, Unfold, SameGraph;
    EqualRecordsSameMeaning(d, s.g, id, newId);
    MeaningStep(d, s.g, s.m, id, newId);
    hide SameMeaning, MeaningKept;
    LeaveTopo(d, s, input, path, fin, id);
    hide Topo;
    LeaveStatuses(s, s', input, path, fin, id, newId);
    hide RefStatuses;
    LeaveDone(s, s', input, fin, id, newId);
    hide AllDoneRefs, RefsResolved, RefReady;
    assert Mapped(s'.m, id) && Mapped(s'.m, newId);
    assert Root(s'.m, s'.rank, newId) == newId;
  }

  lemma LeaveTopo(d: Names, s: Snapshot, input: seq<BtfType>, path: seq<nat>, fin: seq<nat>, id: nat)
    requires RefReady(d, s, input, path, fin, id)
    ensures Topo(input, fin + [id])
  {
    hide Unfold, Forest, StateOk, AllDoneRefs, Shape, Refs, SameGraph, MeaningKept;
    forall b: nat | RefEdge(input, id, b) ensures b in fin {
      var j :| 0 <= j < |Refs(input[id])| && Refs(input[id])[j] == b;
      assert RefResolved(s, Refs(s.g[id])[j], Refs(input[id])[j]);
      assert RefStatus(s.g[b], input[b], s.m[b], b, path + [id], fin);
    }
    var fin' := fin + [id];
    forall k, b: nat | 0 <= k < |fin'| && RefEdge(input, fin'[k], b) ensures b in fin'[..k] {
      if k < |fin| {
        assert fin'[..k] == fin[..k];
        assert RefEdge(input, fin[k], b);
      } else {
        assert fin'[..k] == fin;
      }
    }
  }

  lemma LeaveStatuses(s: Snapshot, s': Snapshot, input: seq<BtfType>, path: seq<nat>, fin: seq<nat>, id: nat,
                      newId: nat)
    requires |s.g| == |s.m| == |input| <= BTF_MAX_NR_TYPES + 1 && id < |s.g| && newId < |s.g| && id !in path
    requires RefStatuses(s.g, s.m, input, path + [id], fin) && input[id].IsReference()
    requires s'.g == s.g && s'.m == s.m[id := newId]
    ensures RefStatuses(s'.g, s'.m, input, path, fin + [id])
  {
    forall i | 0 <= i < |s.g| ensures RefStatus(s.g[i], input[i], s'.m[i], i, path, fin + [id]) {
      assert RefStatus(s.g[i], input[i], s.m[i], i, path + [id], fin);
    }
  }

  lemma LeaveDone(s: Snapshot, s': Snapshot, input: seq<BtfType>, fin: seq<nat>, id: nat, newId: nat)
    requires Forest(s.m, s.rank) && Forest(s'.m, s'.rank) && |s.g| == |s.m| == |input| <= BTF_MAX_NR_TYPES + 1
    requires id < |s.g| && newId < |s.g| && !Mapped(s.m, id) && s'.g == s.g && s'.m == s.m[id := newId]
    requires AllDoneRefs(s, input, fin) && RefsResolved(s, s.g[id], input[id], |Refs(input[id])|)
    requires Canonical(s'.m, newId) && s.g[newId] == s.g[id]
    ensures AllDoneRefs(s', input, fin + [id])
  {
    AllDoneRefsSettled(s, s', input, fin);
    RefsResolvedSettled(s, s', s.g[id], input[id], |Refs(input[id])|);
    assert RefDone(s', input, id);
  }

  // A finished type takes an equal candidate as representative.
  lemma RefMapped(d: Names, s: Snapshot, input: seq<BtfType>, path: seq<nat>, fin: seq<nat>, id: nat,
                  h: nat, cands: seq<nat>, newId: nat) returns (s': Snapshot)
    requires RefReady(d, s, input, path, fin, id)
    requires CandsOk(s.entries, h, cands) && newId in cands && newId < |s.g| && newId != id && s.g[newId] == s.g[id]
    ensures s' == s.(m := s.m[id := newId], rank := s'.rank)
    ensures RefInv(d, s', input, path, fin + [id]) && Settles(s.m, s'.m)
    ensures Forest(s'.m, s'.rank) && RefResolved(s', newId, id)
  {
    RefReadyStatus(d, s, input, path, fin, id);
    assert EntryOk(s, Entry(h, newId));
    hide RefReady, HashOf, RestOk, GraphOk, Refs, Shape, RefStatuses, AllDoneRefs, SameGraph, MeaningKept, Topo;
    UnmappedNotFixed(s, id);
    hide TableInv;
    var rank' := PointToRoot(s.m, s.rank, id, newId);
    s' := s.(m := s.m[id := newId], rank := rank');
    PointOk(s, s', id, newId);
    RefLeaves(d, s, s', input, path, fin, id, newId);
  }

  // A finished type without an equal candidate becomes a representative.
  lemma RefFiled(d: Names, s: Snapshot, input: seq<BtfType>, path: seq<nat>, fin: seq<nat>, id: nat,
                 cands: seq<nat>) returns (s': Snapshot)
    requires RefReady(d, s, input, path, fin, id) && RestOk(s.g[id])
    requires CandsOk(s.entries, HashOf(s.g[id]), cands) && (forall c :: c in cands && c < |s.g| ==> s.g[c] != s.g[id])
    ensures s' == s.(m := s.m[id := id], entries := s.entries + multiset{Entry(HashOf(s.g[id]), id)})
    ensures RefInv(d, s', input, path, fin + [id]) && Settles(s.m, s'.m)
    ensures Forest(s'.m, s'.rank) && RefResolved(s', id, id)
  {
    RefReadyStatus(d, s, input, path, fin, id);
    s' := FileExact(s, id, cands);
    RefLeaves(d, s, s', input, path, fin, id, id);
  }

  // Reaching an id that is being processed means that the chain has closed on itself.
  lemma RefOnPath(d: Names, s: Snapshot, input: seq<BtfType>, path: seq<nat>, fin: seq<nat>, id: nat)
    requires RefInv(d, s, input, path, fin) && id < |s.g| && s.m[id] == BTF_IN_PROGRESS_ID
    requires RefPathTo(input, path, id)
    ensures HasRefCycle(input)
  {
    assert RefStatus(s.g[id], input[id], s.m[id], id, path, fin);
    assert RefEdge(input, path[|path| - 1], id);
    RefPathExtends(input, path, id);
    CycleFound(input, path, id);
  }

  // The path is a chain of reference types, the last of which refers to id.
  ghost predicate RefPathTo(input: seq<BtfType>, path: seq<nat>, id: nat) {
    IsRefPath(input, path) &&
    (path != [] ==>
       (var last := path[|path| - 1]; last < |input| && input[last].IsReference() && id in Refs(input[last])))
  }

  lemma RefPathExtends(input: seq<BtfType>, path: seq<nat>, id: nat)
    requires RefPathTo(input, path, id) && id < |input| && input[id].IsReference()
    ensures IsRefPath(input, path + [id])
  {
    var all := path + [id];
    forall i | 0 <= i < |all| - 1 ensures RefEdge(input, all[i], all[i + 1]) {
      if i < |path| - 1 {
        assert RefEdge(input, path[i], path[i + 1]);
      }
    }
  }

  // An id that is already mapped leads to a representative.
  lemma RefSettled(d: Names, s: Snapshot, input: seq<BtfType>, path: seq<nat>, fin: seq<nat>, id: nat)
    requires RefInv(d, s, input, path, fin) && id < |s.g| && Mapped(s.m, id)
    ensures RefResolved(s, Root(s.m, s.rank, id), id)
    ensures input[id].IsReference() ==> id in fin
  {
    hide Refs, Shape, TableInv, GraphOk, Topo, RefsResolved;
    assert RefStatus(s.g[id], input[id], s.m[id], id, path, fin);
    forall i | 0 <= i < |s.m| && Mapped(s.m, i) ensures s.m[i] < |s.m| && Mapped(s.m, s.m[i]) {
      assert RefStatus(s.g[i], input[i], s.m[i], i, path, fin);
      if input[i].IsReference() {
        assert RefDone(s, input, i);
      } else {
        assert MergesInto(s.g[i], s.g[s.m[i]]);
        assert RefStatus(s.g[s.m[i]], input[s.m[i]], s.m[s.m[i]], s.m[i], path, fin);
      }
    }
    hide RefStatuses, AllDoneRefs;
    RootMapped(s.m, s.rank, id);
  }

  lemma RefNotOnPath(d: Names, s: Snapshot, input: seq<BtfType>, path: seq<nat>, fin: seq<nat>, id: nat)
    requires RefInv(d, s, input, path, fin) && id < |s.g| && !Mapped(s.m, id) && s.m[id] != BTF_IN_PROGRESS_ID
    ensures id !in path && input[id].IsReference()
  {
    assert RefStatus(s.g[id], input[id], s.m[id], id, path, fin);
  }

  // The traversal may step from id to its j-th reference.
  lemma RefStepsTo(d: Names, s: Snapshot, input: seq<BtfType>, path: seq<nat>, fin: seq<nat>, id: nat, j: nat)
    requires RefInv(d, s, input, path + [id], fin) && id < |s.g| && input[id].IsReference()
    requires IsRefPath(input, path + [id]) && j < |Refs(s.g[id])| == |Refs(input[id])|
    requires Refs(s.g[id])[j] == Refs(input[id])[j]
    ensures Refs(s.g[id])[j] < |s.g| && RefPathTo(input, path + [id], Refs(s.g[id])[j])
  {
    RefInRange(s, id, j);
    assert Refs(input[id])[j] in Refs(input[id]);
  }

  lemma PrefixMembers(a: seq<nat>, b: seq<nat>)
    requires a <= b
    ensures forall x :: x in a ==> x in b
  {
    assert forall x :: x in b[..|a|] ==> x in b;
  }

  // When every reference type is finished, everything is mapped and there was no cycle.
  lemma AllFinished(d: Names, s: Snapshot, input: seq<BtfType>, fin: seq<nat>)
    requires RefInv(d, s, input, [], fin)
    requires forall j :: 1 <= j < |input| && input[j].IsReference() ==> j in fin
    ensures forall i :: 0 <= i < |s.m| ==> Mapped(s.m, i)
    ensures !HasRefCycle(input)
  {
    assert RefStatus(s.g[0], input[0], s.m[0], 0, [], fin);
    forall i | 0 <= i < |s.m| ensures Mapped(s.m, i) {
      assert RefStatus(s.g[i], input[i], s.m[i], i, [], fin);
    }
    OrderedIsAcyclic(input, fin);
  }
}
