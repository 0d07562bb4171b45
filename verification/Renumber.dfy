// Compaction keeps the canonical types in order; renumbering sends every id to the new id of
// its representative. Together they give a graph of the same meanings.

module Renumber {
  import opened BtfTypes
  import opened TypeGraph
  import opened CanonMap

  // Void followed by the canonical ids below i, in order.
  function Kept(m: seq<nat>, i: nat): (k: seq<nat>)
    requires 1 <= i <= |m|
    ensures 1 <= |k| <= i && k[0] == 0
  {
    if i == 1 then [0]
    else Kept(m, i - 1) + (if m[i - 1] == i - 1 then [i - 1] else [])
  }

  predicate Increasing(k: seq<nat>) {
    forall a, b :: 0 <= a < b < |k| ==> k[a] < k[b]
  }

  // The kept ids are the canonical ones, each once and in increasing order; so a kept type
  // never moves up.
  lemma {:induction false} KeptExact(m: seq<nat>, i: nat)
    requires 1 <= i <= |m|
    ensures Increasing(Kept(m, i))
    ensures forall b :: 0 <= b < |Kept(m, i)| ==> b <= Kept(m, i)[b] < i
    ensures forall c :: c in Kept(m, i) <==> c == 0 || (1 <= c < i && m[c] == c)
  {
    if i > 1 {
      KeptExact(m, i - 1);
    }
  }

  lemma {:induction false} KeptPrefix(m: seq<nat>, i: nat, j: nat)
    requires 1 <= i <= j <= |m|
    ensures Kept(m, i) <= Kept(m, j)
    decreases j
  {
    if i < j {
      KeptPrefix(m, i, j - 1);
    }
  }

  // `news` gives every kept id its position.
  ghost predicate Numbers(news: seq<nat>, kept: seq<nat>) {
    forall b :: 0 <= b < |kept| ==> kept[b] < |news| && news[kept[b]] == b
  }

  // Record t after its references have been sent to the new ids of their representatives.
  ghost predicate Renumbered(m: seq<nat>, rank: seq<nat>, news: seq<nat>, t: BtfType, t': BtfType)
    requires Forest(m, rank)
  {
    Shape(t') == Shape(t) && (RestOk(t) ==> RestOk(t')) && |Refs(t')| == |Refs(t)| &&
    RenumberedUpTo(m, rank, news, t, t', |Refs(t)|)
  }

  ghost predicate RenumberedUpTo(m: seq<nat>, rank: seq<nat>, news: seq<nat>, t: BtfType, t': BtfType, n: nat)
    requires Forest(m, rank) && |Refs(t')| == |Refs(t)| && n <= |Refs(t)|
  {
    forall j :: 0 <= j < n ==>
      Refs(t)[j] < |m| && Root(m, rank, Refs(t)[j]) < |news| && Refs(t')[j] == news[Root(m, rank, Refs(t)[j])]
  }

  // The output graph: kept records in order, renumbered.
  ghost predicate IsOutput(g: seq<BtfType>, m: seq<nat>, rank: seq<nat>, news: seq<nat>, out: seq<BtfType>) {
    |g| == |m| >= 1 && Forest(m, rank) && Numbers(news, Kept(m, |m|)) && |out| == |Kept(m, |m|)| &&
    forall b :: 0 <= b < |out| ==> Kept(m, |m|)[b] < |g| && Renumbered(m, rank, news, g[Kept(m, |m|)[b]], out[b])
  }

  // In a fully mapped forest every root is canonical.
  ghost predicate AllMapped(m: seq<nat>) {
    |m| >= 1 && m[0] == 0 && forall i :: 0 <= i < |m| ==> Mapped(m, i)
  }

  // The new id of an old id.
  ghost function NewId(m: seq<nat>, rank: seq<nat>, news: seq<nat>, i: nat): nat
    requires Forest(m, rank) && i < |m| == |news|
  {
    news[Root(m, rank, i)]
  }

  lemma NewIdKept(m: seq<nat>, rank: seq<nat>, news: seq<nat>, i: nat)
    requires Forest(m, rank) && AllMapped(m) && i < |m| == |news| && Numbers(news, Kept(m, |m|))
    ensures NewId(m, rank, news, i) < |Kept(m, |m|)|
    ensures Kept(m, |m|)[NewId(m, rank, news, i)] == Root(m, rank, i)
  {
    KeptExact(m, |m|);
    var k := Kept(m, |m|);
    assert Root(m, rank, i) in k;
    var b :| 0 <= b < |k| && k[b] == Root(m, rank, i);
  }

  // Two ids get one new id exactly if they share a representative.
  lemma NewIdInjective(m: seq<nat>, rank: seq<nat>, news: seq<nat>, i: nat, j: nat)
    requires Forest(m, rank) && AllMapped(m) && i < |m| == |news| && j < |m| && Numbers(news, Kept(m, |m|))
    ensures NewId(m, rank, news, i) == NewId(m, rank, news, j) <==> Root(m, rank, i) == Root(m, rank, j)
  {
    NewIdKept(m, rank, news, i);
    NewIdKept(m, rank, news, j);
  }

  // The new id of a kept id is its position.
  lemma KeptNumbered(m: seq<nat>, rank: seq<nat>, news: seq<nat>, b: nat)
    requires Forest(m, rank) && 1 <= |m| == |news| && m[0] == 0 && Numbers(news, Kept(m, |m|)) && b < |Kept(m, |m|)|
    ensures Kept(m, |m|)[b] < |m| && NewId(m, rank, news, Kept(m, |m|)[b]) == b
  {
    KeptExact(m, |m|);
    assert Kept(m, |m|)[b] in Kept(m, |m|);
  }

  function Positions(k: seq<nat>): map<nat, nat> {
    map b: nat | b < |k| :: k[b]
  }

  // Output ids correspond to the kept ids they come from, up to representatives.
  lemma OutputProgresses(d: Names, g: seq<BtfType>, m: seq<nat>, rank: seq<nat>, news: seq<nat>,
                         out: seq<BtfType>, b: nat)
    requires IsOutput(g, m, rank, news, out) && AllMapped(m) && |news| == |m| && b < |out|
    requires forall x :: 0 <= x < |m| ==> SameMeaning(d, g, x, g, Root(m, rank, x))
    ensures Progresses(d, g, out, Positions(Kept(m, |m|)), Kept(m, |m|)[b], b)
  {
    var k := Kept(m, |m|);
    var t, t' := g[k[b]], out[b];
    assert Renumbered(m, rank, news, t, t');
    ShapeIsFace(d, t, t');
    forall j | 0 <= j < |Refs(t)| ensures Covered(d, g, out, Positions(k), Refs(t)[j], Refs(t')[j]) {
      var x := Refs(t)[j];
      NewIdKept(m, rank, news, x);
      assert Positions(k)[Refs(t')[j]] == Root(m, rank, x);
    }
  }

  // Every old id means the same as its new id in the output.
  lemma OutputMeaning(d: Names, g: seq<BtfType>, m: seq<nat>, rank: seq<nat>, news: seq<nat>, out: seq<BtfType>, i: nat)
    requires IsOutput(g, m, rank, news, out) && AllMapped(m) && |news| == |m| && i < |m|
    requires forall x :: 0 <= x < |m| ==> SameMeaning(d, g, x, g, Root(m, rank, x))
    ensures SameMeaning(d, g, i, out, NewId(m, rank, news, i))
  {
    var k := Kept(m, |m|);
    var rel := Positions(k);
    forall b | b in rel ensures Progresses(d, g, out, rel, rel[b], b) {
      OutputProgresses(d, g, m, rank, news, out, b);
    }
    NewIdKept(m, rank, news, i);
    BisimulationIsSound(d, g, out, rel, NewId(m, rank, news, i));
  }

  // The output is well formed: void first, and every reference a valid new id.
  lemma OutputOk(g: seq<BtfType>, m: seq<nat>, rank: seq<nat>, news: seq<nat>, out: seq<BtfType>)
    requires IsOutput(g, m, rank, news, out) && AllMapped(m) && |news| == |m| && GraphOk(g)
    ensures GraphOk(out)
  {
    var k := Kept(m, |m|);
    assert Renumbered(m, rank, news, g[0], out[0]) by {
      assert k[0] == 0;
    }
    assert Shape(VOID) == VOID && Refs(VOID) == [];
    assert out[0] == VOID by {
      ShapeAndRefsDetermine(out[0], VOID);
    }
    forall b | 0 <= b < |out| ensures RestOk(out[b]) && RefsBelow(out[b], |out|) {
      var t := g[k[b]];
      assert Renumbered(m, rank, news, t, out[b]);
      assert RestOk(t);
      forall j | 0 <= j < |Refs(out[b])| ensures Refs(out[b])[j] < |out| {
        NewIdKept(m, rank, news, Refs(t)[j]);
      }
    }
  }

  // Compaction has looked at all ids below `id` and kept `nr` of them, in place.
  ghost predicate Compacted(was: seq<BtfType>, m: seq<nat>, ts: seq<BtfType>, news: seq<nat>, id: nat, nr: nat) {
    |was| == |m| == |ts| == |news| && 1 <= id <= |m| && nr == |Kept(m, id)| <= id &&
    (forall b :: 0 <= b < nr ==> Kept(m, id)[b] < id && ts[b] == was[Kept(m, id)[b]]) &&
    (forall i :: id <= i < |m| ==> ts[i] == was[i]) &&
    Numbers(news, Kept(m, id)) &&
    (forall i :: 1 <= i < |m| && (i >= id || m[i] != i) ==> news[i] == BTF_UNPROCESSED_ID)
  }

  lemma CompactKeeps(was: seq<BtfType>, m: seq<nat>, ts: seq<BtfType>, news: seq<nat>, id: nat, nr: nat)
    requires Compacted(was, m, ts, news, id, nr) && id < |m| && m[id] == id
    ensures nr <= id && Compacted(was, m, ts[nr := ts[id]], news[id := nr], id + 1, nr + 1)
  {
    KeptExact(m, id);
    assert Kept(m, id + 1) == Kept(m, id) + [id];
  }

  lemma CompactSkips(was: seq<BtfType>, m: seq<nat>, ts: seq<BtfType>, news: seq<nat>, id: nat, nr: nat)
    requires Compacted(was, m, ts, news, id, nr) && id < |m| && m[id] != id
    ensures Compacted(was, m, ts, news, id + 1, nr)
  {
    assert Kept(m, id + 1) == Kept(m, id);
  }

  // The first b kept records have been renumbered, the others are as they were.
  ghost predicate Remapped(g: seq<BtfType>, m: seq<nat>, rank: seq<nat>, news: seq<nat>, ts: seq<BtfType>, b: nat) {
    |g| == |m| == |ts| >= 1 && Forest(m, rank) && b <= |Kept(m, |m|)| <= |ts| &&
    forall c :: 0 <= c < |Kept(m, |m|)| ==>
      Kept(m, |m|)[c] < |g| &&
      if c < b then Renumbered(m, rank, news, g[Kept(m, |m|)[c]], ts[c]) else ts[c] == g[Kept(m, |m|)[c]]
  }

  lemma RemapsOne(g: seq<BtfType>, m: seq<nat>, rank: seq<nat>, news: seq<nat>, ts: seq<BtfType>, b: nat, t: BtfType)
    requires Remapped(g, m, rank, news, ts, b) && b < |Kept(m, |m|)|
    requires Renumbered(m, rank, news, ts[b], t)
    ensures Remapped(g, m, rank, news, ts[b := t], b + 1)
  {
  }

  lemma RemapsAll(g: seq<BtfType>, m: seq<nat>, rank: seq<nat>, news: seq<nat>, ts: seq<BtfType>)
    requires |m| >= 1 && Remapped(g, m, rank, news, ts, |Kept(m, |m|)|) && Numbers(news, Kept(m, |m|))
    ensures IsOutput(g, m, rank, news, ts[..|Kept(m, |m|)|])
  {
    var out := ts[..|Kept(m, |m|)|];
    forall c | 0 <= c < |out| ensures Renumbered(m, rank, news, g[Kept(m, |m|)[c]], out[c]) {
      assert out[c] == ts[c];
    }
  }

  // What compaction leaves is what renumbering starts from.
  lemma CompactedStartsRemap(g: seq<BtfType>, m: seq<nat>, rank: seq<nat>, news: seq<nat>, ts: seq<BtfType>, nr: nat)
    requires Compacted(g, m, ts, news, |m|, nr) && Forest(m, rank)
    ensures Remapped(g, m, rank, news, ts, 0)
    ensures nr == |Kept(m, |m|)| && Numbers(news, Kept(m, |m|)) && 1 <= nr <= |m|
  {
  }
}
