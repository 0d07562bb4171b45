// What deduplication keeps when declarations are resolved: the graph in which every declaration has
// been replaced by the definition of its name.

module Resolution {
  import opened BtfTypes
  import opened BtfCompare
  import opened TypeGraph
  import opened Definitions
  import opened DedupState
  import opened PrimSteps
  import opened Quotient

  // `to` sends every type that only declares its name to a definition of that name, if there is one, and
  // every other type to itself.
  ghost predicate IsResolution(d: Names, g: seq<BtfType>, to: seq<nat>) {
    Chosen(g, to) && forall x :: 0 <= x < |g| ==> Resolves(d, g, x, to[x])
  }

  predicate Chosen(g: seq<BtfType>, to: seq<nat>) {
    |to| == |g| && forall x :: 0 <= x < |g| ==> to[x] < |g|
  }

  ghost predicate Resolves(d: Names, g: seq<BtfType>, x: nat, t: nat)
    requires x < |g|
  {
    t < |g| && (t == x || (OnlyDeclares(g[x]) && SameName(d, g[x], g[t]))) &&
    (OnlyDeclares(g[t]) ==> forall y :: 0 <= y < |g| && SameName(d, g[x], g[y]) ==> OnlyDeclares(g[y]))
  }

  // The definition of a name that x only declares, if there is one.
  ghost function Definition(d: Names, g: seq<BtfType>, x: nat): (t: nat)
    requires x < |g|
    ensures Resolves(d, g, x, t)
  {
    if t: nat :| t < |g| && OnlyDeclares(g[x]) && SameName(d, g[x], g[t]) && !OnlyDeclares(g[t]) then t else x
  }

  // There is always a way to replace all declarations.
  lemma ResolutionExists(d: Names, g: seq<BtfType>) returns (to: seq<nat>)
    ensures IsResolution(d, g, to)
  {
    to := seq(|g|, x requires 0 <= x < |g| => Definition(d, g, x));
  }

  // Every type says what its definition says.
  function Resolved(g: seq<BtfType>, to: seq<nat>): (r: seq<BtfType>)
    requires Chosen(g, to)
    ensures |r| == |g| && forall x :: 0 <= x < |g| ==> r[x] == g[to[x]]
  {
    seq(|g|, x requires 0 <= x < |g| => g[to[x]])
  }

  lemma ResolvesMeaning(d: Names, g: seq<BtfType>, x: nat, t: nat)
    requires x < |g| && Resolves(d, g, x, t)
    ensures SameMeaning(d, g, x, g, t)
  {
    if t != x {
      SameNameSameMeaning(d, g, x, g, t);
    }
  }

  // All that the theorem supposes.
  ghost predicate Given(d: Names, g: seq<BtfType>, to: seq<nat>, h: seq<BtfType>, to': seq<nat>,
                        ids: seq<nat>, reps: seq<nat>) {
    GraphOk(g) && OneDefinition(d, g) && (forall x :: 0 <= x < |g| && OnlyDeclares(g[x]) ==> IsDeclared(d, g[x])) &&
    IsDedup(d, g, h, ids, reps) && IsResolution(d, g, to) && IsResolution(d, h, to')
  }

  // An output id that means the same as x stands for an input type that agrees with x.
  lemma OutputAgrees(d: Names, g: seq<BtfType>, h: seq<BtfType>, ids: seq<nat>, reps: seq<nat>, x: nat, y: nat)
    requires OneDefinition(d, g) && IsDedup(d, g, h, ids, reps) && x < |g| && y < |h|
    requires SameMeaning(d, g, x, h, y)
    ensures reps[y] < |g| && Agree(d, g, x, reps[y]) && RecordKept(g[reps[y]], h[y], ids)
  {
    assert SameMeaning(d, g, reps[y], h, ids[reps[y]]);
    MeaningAgrees(d, g, x, reps[y]);
  }

  lemma DefinitionReaches(d: Names, g: seq<BtfType>, to: seq<nat>, h: seq<BtfType>, to': seq<nat>,
                          ids: seq<nat>, reps: seq<nat>, a: nat, b: nat)
    requires Given(d, g, to, h, to', ids, reps) && a < |g| && b < |h| && SameMeaning(d, g, a, h, b)
    requires to[a] < |g| && to'[b] < |h| && OnlyDeclares(h[to'[b]])
    ensures OnlyDeclares(g[to[a]])
  {
    var x, y := to[a], to'[b];
    assert Resolves(d, g, a, x) && Resolves(d, h, b, y);
    ResolvesMeaning(d, g, a, x);
    ResolvesMeaning(d, h, b, y);
    SameMeaningStep(d, g, x, h, y);
    SameMeaningStep(d, h, b, h, y);
    assert SameMeaning(d, g, x, h, ids[x]);
    SameMeaningStep(d, g, x, h, ids[x]);
    OutputAgrees(d, g, h, ids, reps, x, y);
    var w := reps[y];
    RefCountFromShape(g[w], h[y]);
    assert OnlyDeclares(g[w]) && IsDeclared(d, g[w]);
    FitsFace(d, g[x], g[w]);
  }

  lemma DeclarationReaches(d: Names, g: seq<BtfType>, to: seq<nat>, h: seq<BtfType>, to': seq<nat>,
                           ids: seq<nat>, reps: seq<nat>, a: nat, b: nat)
    requires Given(d, g, to, h, to', ids, reps) && a < |g| && b < |h| && SameMeaning(d, g, a, h, b)
    requires to[a] < |g| && to'[b] < |h| && OnlyDeclares(g[to[a]])
    ensures OnlyDeclares(h[to'[b]])
  {
    var x, y := to[a], to'[b];
    assert Resolves(d, g, a, x) && Resolves(d, h, b, y);
    ResolvesMeaning(d, g, a, x);
    ResolvesMeaning(d, h, b, y);
    OutputAgrees(d, g, h, ids, reps, x, y);
    var w := reps[y];
    FitsFace(d, g[x], g[w]);
    SameMeaningStep(d, g, a, g, x);
    RefCountFromShape(g[w], h[y]);
    assert SameName(d, g[a], g[w]);
  }

  // Definitions of the input have definitions for output, and the other way round.
  lemma DefinedAlike(d: Names, g: seq<BtfType>, to: seq<nat>, h: seq<BtfType>, to': seq<nat>,
                     ids: seq<nat>, reps: seq<nat>, a: nat, b: nat)
    requires Given(d, g, to, h, to', ids, reps) && a < |g| && b < |h| && SameMeaning(d, g, a, h, b)
    ensures to[a] < |g| && to'[b] < |h| && (OnlyDeclares(g[to[a]]) <==> OnlyDeclares(h[to'[b]]))
  {
    assert Resolves(d, g, a, to[a]) && Resolves(d, h, b, to'[b]);
    hide Given, SameMeaning, OnlyDeclares, Resolves;
    if OnlyDeclares(h[to'[b]]) {
      DefinitionReaches(d, g, to, h, to', ids, reps, a, b);
    }
    if OnlyDeclares(g[to[a]]) {
      DeclarationReaches(d, g, to, h, to', ids, reps, a, b);
    }
  }

  // Records that fit are of one shape if both define or both only declare.
  lemma FitsAlike(d: Names, t: BtfType, u: BtfType)
    requires Fits(d, t, u) && RestOk(t) && RestOk(u) && (OnlyDeclares(t) <==> OnlyDeclares(u))
    ensures Shape(t) == Shape(u)
  {
    if t.IsEnumFwd() && u.IsEnumFwd() && EnumsAgree(t, u) {
      AgreeingFwdsEqual(t, u);
    }
  }

  // What the definitions of a and b say is the same, and refers to types of one meaning.
  lemma DefinitionsAgree(d: Names, g: seq<BtfType>, to: seq<nat>, h: seq<BtfType>, to': seq<nat>,
                         ids: seq<nat>, reps: seq<nat>, a: nat, b: nat)
    requires Given(d, g, to, h, to', ids, reps) && a < |g| && b < |h| && SameMeaning(d, g, a, h, b)
    ensures to[a] < |g| && to'[b] < |h|
    ensures Shape(g[to[a]]) == Shape(h[to'[b]]) && |Refs(g[to[a]])| == |Refs(h[to'[b]])|
    ensures forall j :: 0 <= j < |Refs(g[to[a]])| ==>
              SameMeaning(d, g, Refs(g[to[a]])[j], h, Refs(h[to'[b]])[j])
  {
    var x, y := to[a], to'[b];
    assert Resolves(d, g, a, x) && Resolves(d, h, b, y);
    ResolvesMeaning(d, g, a, x);
    ResolvesMeaning(d, h, b, y);
    DefinedAlike(d, g, to, h, to', ids, reps, a, b);
    OutputAgrees(d, g, h, ids, reps, x, y);
    var w := reps[y];
    assert RestOk(g[x]) && RestOk(g[w]);
    hide Resolves, IsResolution, OneDefinition, GraphOk, IsDeclared, RestOk, Unfold;
    RefCountFromShape(g[w], h[y]);
    FitsAlike(d, g[x], g[w]);
    KidsMeanKept(d, g, h, ids, reps, x, y);
  }

  lemma KidsMeanKept(d: Names, g: seq<BtfType>, h: seq<BtfType>, ids: seq<nat>, reps: seq<nat>, x: nat, y: nat)
    requires IsDedup(d, g, h, ids, reps) && x < |g| && y < |h| && reps[y] < |g| && KidsMean(d, g, x, reps[y])
    ensures |Refs(g[x])| == |Refs(h[y])|
    ensures forall j :: 0 <= j < |Refs(g[x])| ==> SameMeaning(d, g, Refs(g[x])[j], h, Refs(h[y])[j])
  {
    hide IdsOk, OutDistinct, EnumsDefined, GraphOk, Refs, Shape, OneIdPerMeaning;
    assert RecordKept(g[reps[y]], h[y], ids);
  }

  lemma GivenGraphs(d: Names, g: seq<BtfType>, to: seq<nat>, h: seq<BtfType>, to': seq<nat>,
                    ids: seq<nat>, reps: seq<nat>)
    requires Given(d, g, to, h, to', ids, reps)
    ensures GraphOk(g) && Chosen(g, to) && GraphOk(h) && Chosen(h, to')
    ensures |ids| == |g| && forall i :: 0 <= i < |g| ==> ids[i] < |h| && SameMeaning(d, g, i, h, ids[i])
  {
  }

  // Types that mean the same up to declared names unfold alike once declarations are replaced.
  lemma {:induction false} ResolvedToDepth(d: Names, g: seq<BtfType>, to: seq<nat>, h: seq<BtfType>, to': seq<nat>,
                                           ids: seq<nat>, reps: seq<nat>, a: nat, b: nat, k: nat)
    requires Given(d, g, to, h, to', ids, reps) && SameMeaning(d, g, a, h, b)
    requires a < |g| && b < |h| && Chosen(g, to) && Chosen(h, to')
    ensures Unfold({}, Resolved(g, to), a, k) == Unfold({}, Resolved(h, to'), b, k)
    decreases k
  {
    hide Given, Refs, Shape, Resolved, IsDeclared;
    if k > 0 {
      GivenGraphs(d, g, to, h, to', ids, reps);
      var x, y := to[a], to'[b];
      DefinitionsAgree(d, g, to, h, to', ids, reps, a, b);
      hide SameMeaning, Unfold;
      var r, r' := Resolved(g, to), Resolved(h, to');
      assert RefsBelow(g[x], |g|) && RefsBelow(h[y], |h|);
      forall j | 0 <= j < |Refs(g[x])|
        ensures Unfold({}, r, Refs(g[x])[j], k - 1) == Unfold({}, r', Refs(h[y])[j], k - 1)
      {
        ResolvedToDepth(d, g, to, h, to', ids, reps, Refs(g[x])[j], Refs(h[y])[j], k - 1);
      }
      NothingDeclared(r[a], r'[b]);
      UnfoldStep({}, r, a, r', b, k - 1);
    }
  }

  // Where every declared name has at most one definition, every type keeps its meaning with all
  // declarations replaced by their definitions.
  lemma ResolvedMeaningKept(d: Names, g: seq<BtfType>, to: seq<nat>, h: seq<BtfType>, to': seq<nat>,
                            ids: seq<nat>, reps: seq<nat>, i: nat)
    requires Given(d, g, to, h, to', ids, reps) && i < |g|
    ensures Chosen(g, to) && Chosen(h, to') && i < |ids|
    ensures SameMeaning({}, Resolved(g, to), i, Resolved(h, to'), ids[i])
  {
    GivenGraphs(d, g, to, h, to', ids, reps);
    forall k: nat ensures Unfold({}, Resolved(g, to), i, k) == Unfold({}, Resolved(h, to'), ids[i], k) {
      ResolvedToDepth(d, g, to, h, to', ids, reps, i, ids[i], k);
    }
  }
}
