// The meaning of a type id: the possibly infinite tree that unfolding its references
// gives, observed to every finite depth.

module TypeGraph {
  import opened BtfTypes

  datatype Tree = Cut | Dangling | Declared(name: nat, kind: Kind) | Node(shape: BtfType, kids: seq<Tree>)

  // Names, with the kind of type that they stand for, of which only the name and the kind count. There
  // are none when meaning is exact.
  type Names = set<(nat, Kind)>

  predicate IsDeclared(d: Names, t: BtfType) {
    (t.IsComposite() || t.IsFwd() || t.info.kind.Enum?) && (t.name, RealKind(t)) in d
  }

  // A type that declares a name without saying what it stands for.
  predicate OnlyDeclares(t: BtfType) {
    t.IsFwd() || t.IsEnumFwd()
  }

  // The names that some type of the graph only declares.
  function Declarations(g: seq<BtfType>): Names {
    set i | 0 <= i < |g| && OnlyDeclares(g[i]) :: (g[i].name, RealKind(g[i]))
  }

  // What is set aside: nothing if declarations are not resolved.
  function NamesFor(g: seq<BtfType>, dontResolveFwds: bool): Names {
    if dontResolveFwds then {} else Declarations(g)
  }

  lemma NameIsDeclared(g: seq<BtfType>, x: nat)
    requires x < |g| && OnlyDeclares(g[x])
    ensures IsDeclared(Declarations(g), g[x])
  {
  }

  ghost function Unfold(d: Names, g: seq<BtfType>, id: nat, depth: nat): Tree
    decreases depth
  {
    if depth == 0 then Cut
    else if id >= |g| then Dangling
    else if IsDeclared(d, g[id]) then Declared(g[id].name, RealKind(g[id]))
    else Node(Shape(g[id]),
              seq(|Refs(g[id])|, i requires 0 <= i < |Refs(g[id])| => Unfold(d, g, Refs(g[id])[i], depth - 1)))
  }

  // Id `a` of graph `g` and id `b` of graph `h` describe the same type, up to the names in d.
  ghost predicate SameMeaning(d: Names, g: seq<BtfType>, a: nat, h: seq<BtfType>, b: nat) {
    forall k: nat :: Unfold(d, g, a, k) == Unfold(d, h, b, k)
  }

  predicate GraphOk(g: seq<BtfType>) {
    |g| >= 1 && g[0] == VOID &&
    forall i :: 0 <= i < |g| ==> RestOk(g[i]) && RefsBelow(g[i], |g|)
  }

  predicate RefsBelow(t: BtfType, n: nat) {
    forall j :: 0 <= j < |Refs(t)| ==> Refs(t)[j] < n
  }

  // One step of unfolding: equal shapes over children that agree to depth k.
  ghost predicate KidsAgree(d: Names, g: seq<BtfType>, a: nat, h: seq<BtfType>, b: nat, k: nat)
    requires a < |g| && b < |h|
  {
    |Refs(g[a])| == |Refs(h[b])| &&
    forall i :: 0 <= i < |Refs(g[a])| ==> Unfold(d, g, Refs(g[a])[i], k) == Unfold(d, h, Refs(h[b])[i], k)
  }

  // Types declared under one name, whatever they say besides.
  predicate SameName(d: Names, t: BtfType, u: BtfType) {
    IsDeclared(d, t) && IsDeclared(d, u) && t.name == u.name && RealKind(t) == RealKind(u)
  }

  // What one step of unfolding shows of two records: the same name that is declared, or the same shape.
  predicate SameFace(d: Names, t: BtfType, u: BtfType) {
    SameName(d, t, u) || (!IsDeclared(d, t) && !IsDeclared(d, u) && Shape(t) == Shape(u))
  }

  lemma ShapeIsFace(d: Names, t: BtfType, u: BtfType)
    requires Shape(t) == Shape(u)
    ensures SameFace(d, t, u) && (IsDeclared(d, t) <==> IsDeclared(d, u))
  {
    RefCountFromShape(t, u);
  }

  lemma UnfoldStep(d: Names, g: seq<BtfType>, a: nat, h: seq<BtfType>, b: nat, k: nat)
    requires a < |g| && b < |h|
    ensures Unfold(d, g, a, k + 1) == Unfold(d, h, b, k + 1) <==>
            SameFace(d, g[a], h[b]) && (SameName(d, g[a], h[b]) || KidsAgree(d, g, a, h, b, k))
  {
    if !IsDeclared(d, g[a]) && !IsDeclared(d, h[b]) {
      var ka, kb := Unfold(d, g, a, k + 1).kids, Unfold(d, h, b, k + 1).kids;
      assert forall i :: 0 <= i < |ka| ==> ka[i] == Unfold(d, g, Refs(g[a])[i], k);
      assert forall i :: 0 <= i < |kb| ==> kb[i] == Unfold(d, h, Refs(h[b])[i], k);
      if Shape(g[a]) == Shape(h[b]) && KidsAgree(d, g, a, h, b, k) {
        assert ka == kb;
      }
      if Unfold(d, g, a, k + 1) == Unfold(d, h, b, k + 1) {
        forall i | 0 <= i < |Refs(g[a])|
          ensures Unfold(d, g, Refs(g[a])[i], k) == Unfold(d, h, Refs(h[b])[i], k)
        {
          assert ka[i] == kb[i];
        }
      }
    }
  }

  // Two ids of one meaning have the same face and, unless that is a declared name, their children
  // agree pairwise.
  lemma SameMeaningStep(d: Names, g: seq<BtfType>, a: nat, h: seq<BtfType>, b: nat)
    requires a < |g| && b < |h| && SameMeaning(d, g, a, h, b)
    ensures SameFace(d, g[a], h[b])
    ensures !IsDeclared(d, g[a]) ==> |Refs(g[a])| == |Refs(h[b])|
    ensures !IsDeclared(d, g[a]) ==>
              forall i :: 0 <= i < |Refs(g[a])| ==> SameMeaning(d, g, Refs(g[a])[i], h, Refs(h[b])[i])
  {
    UnfoldStep(d, g, a, h, b, 0);
    assert Unfold(d, g, a, 1) == Unfold(d, h, b, 1);
    if !IsDeclared(d, g[a]) {
      forall i, k: nat | 0 <= i < |Refs(g[a])|
        ensures Unfold(d, g, Refs(g[a])[i], k) == Unfold(d, h, Refs(h[b])[i], k)
      {
        assert Unfold(d, g, a, k + 1) == Unfold(d, h, b, k + 1);
        UnfoldStep(d, g, a, h, b, k);
      }
    }
  }

  // With no names set aside, they have one shape and children of one meaning.
  lemma ExactMeaningStep(g: seq<BtfType>, a: nat, h: seq<BtfType>, b: nat)
    requires a < |g| && b < |h| && SameMeaning({}, g, a, h, b)
    ensures Shape(g[a]) == Shape(h[b]) && |Refs(g[a])| == |Refs(h[b])|
    ensures forall i :: 0 <= i < |Refs(g[a])| ==> SameMeaning({}, g, Refs(g[a])[i], h, Refs(h[b])[i])
  {
    SameMeaningStep({}, g, a, h, b);
  }

  lemma EqualRecordsSameMeaning(d: Names, g: seq<BtfType>, a: nat, b: nat)
    requires a < |g| && b < |g| && g[a] == g[b]
    ensures SameMeaning(d, g, a, g, b)
  {
    forall k: nat ensures Unfold(d, g, a, k) == Unfold(d, g, b, k) {
      if k > 0 {
        UnfoldStep(d, g, a, g, b, k - 1);
      }
    }
  }

  lemma SameNameSameMeaning(d: Names, g: seq<BtfType>, a: nat, h: seq<BtfType>, b: nat)
    requires a < |g| && b < |h| && SameName(d, g[a], h[b])
    ensures SameMeaning(d, g, a, h, b)
  {
    forall k: nat ensures Unfold(d, g, a, k) == Unfold(d, h, b, k) {
      if k > 0 {
        UnfoldStep(d, g, a, h, b, k - 1);
      }
    }
  }

  // A correspondence `rel` from ids of `h` to ids of `g` covers the pair (x, y), up to
  // replacing x by an id of the same meaning.
  ghost predicate Covered(d: Names, g: seq<BtfType>, h: seq<BtfType>, rel: map<nat, nat>, x: nat, y: nat) {
    SameMeaning(d, g, x, h, y) || (y in rel && SameMeaning(d, g, x, g, rel[y]))
  }

  // Corresponding ids have the same face and, unless that is a declared name, their children are
  // covered pairwise.
  ghost predicate Progresses(d: Names, g: seq<BtfType>, h: seq<BtfType>, rel: map<nat, nat>, a: nat, b: nat) {
    a < |g| && b < |h| && SameFace(d, g[a], h[b]) &&
    (!IsDeclared(d, g[a]) ==> KidsCover(d, g, h, rel, a, b))
  }

  ghost predicate KidsCover(d: Names, g: seq<BtfType>, h: seq<BtfType>, rel: map<nat, nat>, a: nat, b: nat)
    requires a < |g| && b < |h|
  {
    |Refs(g[a])| == |Refs(h[b])| &&
    forall i :: 0 <= i < |Refs(g[a])| ==> Covered(d, g, h, rel, Refs(g[a])[i], Refs(h[b])[i])
  }

  // `rel` is a bisimulation up to sameness of meaning.
  ghost predicate IsBisimulation(d: Names, g: seq<BtfType>, h: seq<BtfType>, rel: map<nat, nat>) {
    forall b :: b in rel ==> Progresses(d, g, h, rel, rel[b], b)
  }

  lemma {:induction false} BisimilarToDepth(d: Names, g: seq<BtfType>, h: seq<BtfType>, rel: map<nat, nat>,
                                            b: nat, k: nat)
    requires IsBisimulation(d, g, h, rel) && b in rel
    ensures Unfold(d, g, rel[b], k) == Unfold(d, h, b, k)
    decreases k, 0
  {
    hide Refs, Shape, IsDeclared;
    if k > 0 {
      assert Progresses(d, g, h, rel, rel[b], b);
      if !IsDeclared(d, g[rel[b]]) {
        KidsCovered(d, g, h, rel, b, k - 1);
      }
      UnfoldStep(d, g, rel[b], h, b, k - 1);
    }
  }

  lemma {:induction false} KidsCovered(d: Names, g: seq<BtfType>, h: seq<BtfType>, rel: map<nat, nat>, b: nat, k: nat)
    requires IsBisimulation(d, g, h, rel) && b in rel && rel[b] < |g| && !IsDeclared(d, g[rel[b]])
    ensures Progresses(d, g, h, rel, rel[b], b) && KidsAgree(d, g, rel[b], h, b, k)
    decreases k, 2
  {
    var a := rel[b];
    assert Progresses(d, g, h, rel, a, b);
    forall i | 0 <= i < |Refs(g[a])|
      ensures Unfold(d, g, Refs(g[a])[i], k) == Unfold(d, h, Refs(h[b])[i], k)
    {
      CoveredToDepth(d, g, h, rel, Refs(g[a])[i], Refs(h[b])[i], k);
    }
  }

  lemma {:induction false} CoveredToDepth(d: Names, g: seq<BtfType>, h: seq<BtfType>, rel: map<nat, nat>,
                                          x: nat, y: nat, k: nat)
    requires IsBisimulation(d, g, h, rel) && Covered(d, g, h, rel, x, y)
    ensures Unfold(d, g, x, k) == Unfold(d, h, y, k)
    decreases k, 1
  {
    if !SameMeaning(d, g, x, h, y) {
      BisimilarToDepth(d, g, h, rel, y, k);
    }
  }

  // Coinduction: ids related by a bisimulation have the same meaning.
  lemma BisimulationIsSound(d: Names, g: seq<BtfType>, h: seq<BtfType>, rel: map<nat, nat>, b: nat)
    requires IsBisimulation(d, g, h, rel) && b in rel
    ensures SameMeaning(d, g, rel[b], h, b)
  {
    forall k: nat ensures Unfold(d, g, rel[b], k) == Unfold(d, h, b, k) {
      BisimilarToDepth(d, g, h, rel, b, k);
    }
  }

  // Every id means the same in both graphs.
  ghost predicate SameGraph(d: Names, g: seq<BtfType>, h: seq<BtfType>) {
    |g| == |h| && forall x :: 0 <= x < |g| ==> SameMeaning(d, g, x, h, x)
  }

  lemma SameGraphTrans(d: Names, f: seq<BtfType>, g: seq<BtfType>, h: seq<BtfType>)
    requires SameGraph(d, f, g) && SameGraph(d, g, h)
    ensures SameGraph(d, f, h)
  {
    forall x | 0 <= x < |f| ensures SameMeaning(d, f, x, h, x) {
      assert SameMeaning(d, f, x, g, x) && SameMeaning(d, g, x, h, x);
    }
  }

  // Meanings that agree in one graph agree in another graph of the same meanings.
  lemma SameMeaningTransfers(d: Names, g: seq<BtfType>, h: seq<BtfType>, a: nat, b: nat)
    requires SameGraph(d, g, h) && a < |g| && b < |g| && SameMeaning(d, g, a, g, b)
    ensures SameMeaning(d, h, a, h, b)
  {
    assert SameMeaning(d, g, a, h, a) && SameMeaning(d, g, b, h, b);
  }

  // The record `t` may replace node x: it has the same shape, and refers to ids of the same meaning.
  ghost predicate Redirects(d: Names, g: seq<BtfType>, x: nat, t: BtfType)
    requires x < |g|
  {
    Shape(g[x]) == Shape(t) && |Refs(g[x])| == |Refs(t)| &&
    forall i :: 0 <= i < |Refs(t)| ==> Refs(t)[i] < |g| && SameMeaning(d, g, Refs(g[x])[i], g, Refs(t)[i])
  }

  // Redirecting references of one record within their meanings changes no meaning.
  lemma RedirectionPreservesMeaning(d: Names, g: seq<BtfType>, x: nat, t: BtfType)
    requires GraphOk(g) && x < |g| && Redirects(d, g, x, t)
    ensures SameGraph(d, g, g[x := t])
  {
    var h := g[x := t];
    var rel := map y: nat {:trigger g[y]} | y < |g| :: y;
    forall y | y in rel ensures Progresses(d, g, h, rel, y, y) {
      assert RefsBelow(g[y], |g|);
      ShapeIsFace(d, g[y], h[y]);
      forall i | 0 <= i < |Refs(g[y])| ensures Covered(d, g, h, rel, Refs(g[y])[i], Refs(h[y])[i]) {
        assert Refs(h[y])[i] in rel;
      }
    }
    forall y | 0 <= y < |g| ensures SameMeaning(d, g, y, h, y) {
      assert y in rel;
      BisimulationIsSound(d, g, h, rel, y);
    }
  }

  // A set of types that refer only to each other and stand under no declared name.
  ghost predicate IsClear(d: Names, g: seq<BtfType>, ids: set<nat>) {
    (forall x :: x in ids ==> x < |g| && !IsDeclared(d, g[x])) &&
    forall x, j :: x in ids && 0 <= j < |Refs(g[x])| ==> Refs(g[x])[j] in ids
  }

  // The type leads to no declared name.
  ghost predicate Clear(d: Names, g: seq<BtfType>, x: nat) {
    exists ids :: IsClear(d, g, ids) && x in ids
  }

  lemma ClearKids(d: Names, g: seq<BtfType>, x: nat)
    requires Clear(d, g, x)
    ensures x < |g| && !IsDeclared(d, g[x])
    ensures forall j :: 0 <= j < |Refs(g[x])| ==> Clear(d, g, Refs(g[x])[j])
  {
    var ids :| IsClear(d, g, ids) && x in ids;
    forall j | 0 <= j < |Refs(g[x])| ensures Clear(d, g, Refs(g[x])[j]) {
      assert Refs(g[x])[j] in ids;
    }
  }

  // Where no names are set aside, everything is clear.
  lemma AllClear(g: seq<BtfType>, x: nat)
    requires GraphOk(g) && x < |g|
    ensures Clear({}, g, x)
  {
    var ids := set y: nat {:trigger g[y]} | y < |g|;
    forall y, j | y in ids && 0 <= j < |Refs(g[y])| ensures Refs(g[y])[j] in ids {
      assert RefsBelow(g[y], |g|);
    }
    assert IsClear({}, g, ids) && x in ids;
  }

  // What means the same leads to no declared name either.
  lemma ClearTransfers(d: Names, g: seq<BtfType>, x: nat, y: nat)
    requires GraphOk(g) && Clear(d, g, x) && y < |g| && SameMeaning(d, g, x, g, y)
    ensures Clear(d, g, y)
  {
    var ids :| IsClear(d, g, ids) && x in ids;
    var all := set z: nat | z < |g| && MeansOneOf(d, g, ids, z);
    forall z | z in all ensures !IsDeclared(d, g[z]) && forall j :: 0 <= j < |Refs(g[z])| ==> Refs(g[z])[j] in all {
      var w :| w in ids && SameMeaning(d, g, w, g, z);
      SameMeaningStep(d, g, w, g, z);
      assert RefsBelow(g[z], |g|);
      forall j | 0 <= j < |Refs(g[z])| ensures Refs(g[z])[j] in all {
        assert Refs(g[w])[j] in ids && SameMeaning(d, g, Refs(g[w])[j], g, Refs(g[z])[j]);
        assert MeansOneOf(d, g, ids, Refs(g[z])[j]);
      }
    }
    assert MeansOneOf(d, g, ids, y);
    assert IsClear(d, g, all) && y in all;
  }

  ghost predicate MeansOneOf(d: Names, g: seq<BtfType>, ids: set<nat>, z: nat) {
    exists w :: w in ids && SameMeaning(d, g, w, g, z)
  }

  // A type that leads to no declared name has its exact meaning.
  lemma ClearIsExact(d: Names, g: seq<BtfType>, x: nat, h: seq<BtfType>, y: nat)
    requires Clear(d, g, x) && SameMeaning(d, g, x, h, y)
    ensures SameMeaning({}, g, x, h, y)
  {
    forall k: nat ensures Unfold({}, g, x, k) == Unfold({}, h, y, k) {
      ClearToDepth(d, g, x, h, y, k);
    }
  }

  lemma {:induction false} ClearToDepth(d: Names, g: seq<BtfType>, x: nat, h: seq<BtfType>, y: nat, k: nat)
    requires Clear(d, g, x) && SameMeaning(d, g, x, h, y)
    ensures Unfold({}, g, x, k) == Unfold({}, h, y, k)
    decreases k
  {
    hide Refs, Shape, IsDeclared, IsClear;
    if k > 0 {
      ClearKids(d, g, x);
      assert Unfold(d, g, x, 1) == Unfold(d, h, y, 1);
      SameMeaningStep(d, g, x, h, y);
      forall i | 0 <= i < |Refs(g[x])|
        ensures Unfold({}, g, Refs(g[x])[i], k - 1) == Unfold({}, h, Refs(h[y])[i], k - 1)
      {
        ClearToDepth(d, g, Refs(g[x])[i], h, Refs(h[y])[i], k - 1);
      }
      NothingDeclared(g[x], h[y]);
      UnfoldStep({}, g, x, h, y, k - 1);
    }
  }

  lemma NothingDeclared(t: BtfType, u: BtfType)
    ensures !IsDeclared({}, t) && (SameFace({}, t, u) <==> Shape(t) == Shape(u))
  {
  }
}
