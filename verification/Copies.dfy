// Two copies of one compilation unit: deduplication leaves one.

module Copies {
  import opened BtfTypes
  import opened TypeGraph
  import opened Definitions
  import opened HypotMap
  import opened Quotient
  import opened Fields

  // A unit as a compiler writes it: no kind but VAR and DATASEC is missing, and no type is written
  // twice except for identical arrays.
  ghost predicate IsOneUnit(d: Names, u: seq<BtfType>) {
    GraphOk(u) &&
    (forall x :: 1 <= x < |u| ==>
       u[x].info.kind !in {Unkn, Var, Datasec} && (u[x].info.kind.Fwd? ==> u[x].sizeOrType == 0)) &&
    forall x, y :: 0 <= x < |u| && 0 <= y < |u| && SameMeaning(d, u, x, u, y) ==>
      x == y || (u[x].info.kind.Array? && u[x] == u[y])
  }

  // Where the copy of type i is when the copy of type 1 is at n.
  function Moved(n: nat): (ids: seq<nat>)
    requires n > 0
    ensures |ids| == n && ids[0] == 0 && forall i :: 1 <= i < n ==> ids[i] == i + n - 1
  {
    seq(n, i requires 0 <= i < n => if i == 0 then 0 else i + n - 1)
  }

  // g is u followed by a copy of it that shares nothing but void.
  ghost predicate IsTwice(u: seq<BtfType>, g: seq<BtfType>) {
    |u| > 0 && |g| == 2 * |u| - 1 && GraphOk(u) && GraphOk(g) && IsCopied(u, g)
  }

  predicate IsCopied(u: seq<BtfType>, g: seq<BtfType>)
    requires |u| > 0 && |g| == 2 * |u| - 1
  {
    (forall x :: 0 <= x < |u| ==> g[x] == u[x]) &&
    forall x :: 1 <= x < |u| ==>
      RestOk(u[x]) && RestOk(g[x + |u| - 1]) && Renamed(u[x], g[x + |u| - 1], Moved(|u|))
  }

  lemma TwiceKept(u: seq<BtfType>, g: seq<BtfType>, x: nat)
    requires IsTwice(u, g) && x < |u|
    ensures g[x] == u[x]
    ensures x > 0 ==> RecordKept(u[x], g[x + |u| - 1], Moved(|u|))
  {
    if x > 0 {
      RecordKeptExactly(u[x], g[x + |u| - 1], Moved(|u|));
    }
  }

  lemma RefMoves(u: seq<BtfType>, g: seq<BtfType>, x: nat, j: nat)
    requires IsTwice(u, g) && x < |u| && j < |Refs(u[x])|
    ensures Refs(u[x])[j] < |u|
    ensures x > 0 ==> |Refs(g[x + |u| - 1])| == |Refs(u[x])| &&
                      Refs(g[x + |u| - 1])[j] == Moved(|u|)[Refs(u[x])[j]]
  {
    TwiceKept(u, g, x);
    assert RefsBelow(u[x], |u|);
  }

  lemma OriginalMeans(d: Names, u: seq<BtfType>, g: seq<BtfType>, x: nat)
    requires IsTwice(u, g) && x < |u|
    ensures SameMeaning(d, u, x, g, x)
  {
    var rel := map y: nat {:trigger u[y]} | y < |u| :: y;
    forall y | y in rel ensures Progresses(d, u, g, rel, y, y) {
      TwiceKept(u, g, y);
      assert RefsBelow(u[y], |u|);
      forall j | 0 <= j < |Refs(u[y])| ensures Covered(d, u, g, rel, Refs(u[y])[j], Refs(g[y])[j]) {
        assert Refs(u[y])[j] in rel;
      }
    }
    assert x in rel;
    BisimulationIsSound(d, u, g, rel, x);
  }

  // Copies back to what they are copies of.
  function Back(n: nat): (rel: map<nat, nat>)
    requires n > 0
    ensures forall y: nat :: y in rel <==> InHalf(n, true, y) && y > 0
    ensures forall y :: y in rel ==> rel[y] == y - n + 1
  {
    map y: nat {:trigger InHalf(n, true, y)} | y < 2 * n && y > 0 && InHalf(n, true, y) :: y - n + 1
  }

  lemma CopyMeans(d: Names, u: seq<BtfType>, g: seq<BtfType>, x: nat)
    requires IsTwice(u, g) && 1 <= x < |u|
    ensures SameMeaning(d, g, x, g, x + |u| - 1)
  {
    hide GraphOk, IsCopied, SameMeaning, IsBisimulation;
    CopiesBisimilar(d, u, g);
    assert InHalf(|u|, true, x + |u| - 1);
    BisimulationIsSound(d, g, g, Back(|u|), x + |u| - 1);
  }

  lemma CopiesBisimilar(d: Names, u: seq<BtfType>, g: seq<BtfType>)
    requires IsTwice(u, g)
    ensures |u| > 0 && IsBisimulation(d, g, g, Back(|u|))
  {
    hide GraphOk, IsCopied, Progresses;
    var rel := Back(|u|);
    forall y | y in rel ensures Progresses(d, g, g, rel, rel[y], y) {
      CopyProgresses(d, u, g, y - |u| + 1);
    }
  }

  lemma CopyProgresses(d: Names, u: seq<BtfType>, g: seq<BtfType>, x: nat)
    requires IsTwice(u, g) && 1 <= x < |u|
    ensures Progresses(d, g, g, Back(|u|), x, x + |u| - 1)
  {
    TwiceKept(u, g, x);
    ShapeIsFace(d, g[x], g[x + |u| - 1]);
    CopyCovered(d, u, g, x);
  }

  lemma CopyCovered(d: Names, u: seq<BtfType>, g: seq<BtfType>, x: nat)
    requires IsTwice(u, g) && 1 <= x < |u|
    ensures KidsCover(d, g, g, Back(|u|), x, x + |u| - 1)
  {
    var k, rel := |u| - 1, Back(|u|);
    TwiceKept(u, g, x);
    hide GraphOk, IsCopied, Refs, Shape;
    forall j | 0 <= j < |Refs(g[x])| ensures Covered(d, g, g, rel, Refs(g[x])[j], Refs(g[x + k])[j]) {
      var r := Refs(g[x])[j];
      RefMoves(u, g, x, j);
      if r > 0 {
        assert r + k in rel && rel[r + k] == r;
      }
    }
  }

  // The type of the unit that x is, or is a copy of.
  function Origin(n: nat, x: nat): (o: nat)
    requires n > 0
    ensures x < 2 * n - 1 ==> o < n
  {
    if x < n then x else x - n + 1
  }

  lemma OriginMeans(d: Names, u: seq<BtfType>, g: seq<BtfType>, x: nat)
    requires IsTwice(u, g) && x < |g|
    ensures SameMeaning(d, u, Origin(|u|, x), g, x)
  {
    OriginalMeans(d, u, g, Origin(|u|, x));
    if x >= |u| {
      CopyMeans(d, u, g, Origin(|u|, x));
    }
  }

  // Types that mean the same come from one type, or from identical arrays.
  lemma OriginsMeet(d: Names, u: seq<BtfType>, g: seq<BtfType>, x: nat, y: nat)
    requires IsTwice(u, g) && IsOneUnit(d, u) && x < |g| && y < |g| && SameMeaning(d, g, x, g, y)
    ensures var a, b := Origin(|u|, x), Origin(|u|, y); a == b || (u[a].info.kind.Array? && u[a] == u[b])
  {
    OriginMeans(d, u, g, x);
    OriginMeans(d, u, g, y);
    assert SameMeaning(d, u, Origin(|u|, x), u, Origin(|u|, y));
  }

  // One of the two copies, with void.
  function Half(n: nat, second: bool): set<nat> {
    set x: nat {:trigger InHalf(n, second, x)} | x < 2 * n && InHalf(n, second, x)
  }

  predicate InHalf(n: nat, second: bool, x: nat) {
    x == 0 || (if second then n <= x < 2 * n - 1 else x < n)
  }

  lemma OnceInHalf(d: Names, u: seq<BtfType>, g: seq<BtfType>, second: bool, x: nat, y: nat)
    requires IsTwice(u, g) && IsOneUnit(d, u) && x in Half(|u|, second) && y in Half(|u|, second)
    requires x < |g| && y < |g| && SameMeaning(d, g, x, g, y)
    ensures x == y || (g[x].info.kind.Array? && g[x] == g[y])
  {
    OriginsMeet(d, u, g, x, y);
    hide IsOneUnit, SameMeaning;
    if Origin(|u|, x) != Origin(|u|, y) {
      EqualInHalf(u, g, second, x, y);
    }
  }

  lemma EqualInHalf(u: seq<BtfType>, g: seq<BtfType>, second: bool, x: nat, y: nat)
    requires IsTwice(u, g) && x in Half(|u|, second) && y in Half(|u|, second) && x < |g| && y < |g|
    requires var a, b := Origin(|u|, x), Origin(|u|, y); u[a].info.kind.Array? && u[a] == u[b]
    ensures g[x].info.kind.Array? && g[x] == g[y]
  {
    var a, b := Origin(|u|, x), Origin(|u|, y);
    TwiceKept(u, g, a);
    TwiceKept(u, g, b);
    assert u[0] == VOID;
    hide GraphOk, IsCopied;
    RefCountFromShape(u[a], g[x]);
    assert Refs(g[x]) == Refs(g[y]);
    ShapeAndRefsDetermine(g[x], g[y]);
  }

  lemma HalfClosed(u: seq<BtfType>, g: seq<BtfType>, second: bool, x: nat, j: nat)
    requires IsTwice(u, g) && x in Half(|u|, second) && x < |g| && j < |Refs(g[x])|
    ensures Refs(g[x])[j] in Half(|u|, second)
  {
    var a := Origin(|u|, x);
    TwiceKept(u, g, a);
    assert x > 0;
    hide GraphOk, IsCopied, Refs, Shape;
    RefMoves(u, g, a, j);
    assert InHalf(|u|, second, Refs(g[x])[j]);
  }

  lemma TwiceRegular(d: Names, u: seq<BtfType>, g: seq<BtfType>, x: nat)
    requires IsTwice(u, g) && IsOneUnit(d, u) && 1 <= x < |g|
    ensures g[x].info.kind !in {Unkn, Var, Datasec} && (g[x].IsFwd() ==> g[x].sizeOrType == 0)
    ensures !g[x].IsVarOrDatasec()
  {
    var a := Origin(|u|, x);
    TwiceKept(u, g, a);
    if x >= |u| {
      assert Renamed(u[a], g[x], Moved(|u|));
    }
  }

  // Every declared name has one definition and its copy.
  lemma TwiceDefinesOnce(d: Names, u: seq<BtfType>, g: seq<BtfType>)
    requires IsTwice(u, g) && IsOneUnit(d, u)
    ensures OneDefinition(d, g)
  {
    forall x, y | 0 <= x < |g| && 0 <= y < |g| && SameName(d, g[x], g[y]) ensures Agree(d, g, x, y) {
      SameNameSameMeaning(d, g, x, g, y);
      OriginsMeet(d, u, g, x, y);
      NamedAgree(d, u, g, x, y);
    }
  }

  lemma ShapeOfOrigin(u: seq<BtfType>, g: seq<BtfType>, x: nat)
    requires IsTwice(u, g) && x < |g|
    ensures Shape(g[x]) == Shape(u[Origin(|u|, x)]) && |Refs(g[x])| == |Refs(u[Origin(|u|, x)])|
  {
    hide GraphOk, IsCopied, Refs, Shape;
    TwiceKept(u, g, Origin(|u|, x));
  }

  // A type refers to what its origin refers to, or to copies of it.
  lemma RefOrigin(u: seq<BtfType>, g: seq<BtfType>, y: nat, j: nat)
    requires IsTwice(u, g) && y < |g| && j < |Refs(g[y])|
    ensures var a := Origin(|u|, y);
            g[y].info == u[a].info && j < |Refs(u[a])| && Refs(g[y])[j] < |g| &&
            Origin(|u|, Refs(g[y])[j]) == Refs(u[a])[j]
  {
    var a := Origin(|u|, y);
    TwiceKept(u, g, a);
    ShapeOfOrigin(u, g, y);
    hide GraphOk, IsCopied, Refs, Shape;
    RefCountFromShape(g[y], u[a]);
    RefMoves(u, g, a, j);
  }

  lemma RefMeans(d: Names, u: seq<BtfType>, g: seq<BtfType>, x: nat, j: nat)
    requires IsTwice(u, g) && x < |g| && j < |Refs(g[x])|
    ensures |Refs(g[x])| == |Refs(u[Origin(|u|, x)])|
    ensures SameMeaning(d, u, Refs(u[Origin(|u|, x)])[j], g, Refs(g[x])[j])
  {
    ShapeOfOrigin(u, g, x);
    RefOrigin(u, g, x, j);
    OriginMeans(d, u, g, Refs(g[x])[j]);
  }

  lemma NamedAgree(d: Names, u: seq<BtfType>, g: seq<BtfType>, x: nat, y: nat)
    requires IsTwice(u, g) && x < |g| && y < |g| && SameName(d, g[x], g[y])
    requires var a, b := Origin(|u|, x), Origin(|u|, y); a == b || (u[a].info.kind.Array? && u[a] == u[b])
    ensures Agree(d, g, x, y)
  {
    var a, b := Origin(|u|, x), Origin(|u|, y);
    ShapeOfOrigin(u, g, x);
    ShapeOfOrigin(u, g, y);
    RefCountFromShape(g[x], g[y]);
    assert a == b;
    forall j | 0 <= j < |Refs(g[x])| ensures SameMeaning(d, g, Refs(g[x])[j], g, Refs(g[y])[j]) {
      RefMeans(d, u, g, x, j);
      RefMeans(d, u, g, y, j);
    }
  }

  lemma HalfIsUnit(d: Names, u: seq<BtfType>, g: seq<BtfType>, second: bool)
    requires IsTwice(u, g) && IsOneUnit(d, u)
    ensures UnitOk(d, g, Half(|u|, second))
  {
    TwiceDefinesOnce(d, u, g);
    var unit := Half(|u|, second);
    forall x | x in unit ensures x < |g| && !g[x].IsVarOrDatasec() {
      if x > 0 {
        TwiceRegular(d, u, g, x);
      }
    }
    forall x, j | x in unit && 0 <= j < |Refs(g[x])| ensures Refs(g[x])[j] in unit {
      HalfClosed(u, g, second, x, j);
    }
    forall x, y | x in unit && y in unit && SameMeaning(d, g, x, g, y)
      ensures x == y || (g[x].info.kind.Array? && g[x] == g[y])
    {
      OnceInHalf(d, u, g, second, x, y);
    }
  }

  lemma TwiceFromUnits(d: Names, u: seq<BtfType>, g: seq<BtfType>)
    requires IsTwice(u, g) && IsOneUnit(d, u)
    ensures FromUnits(d, g)
  {
    hide UnitOk;
    HalfIsUnit(d, u, g, false);
    HalfIsUnit(d, u, g, true);
    forall x: nat | 1 <= x < |g|
      ensures !g[x].info.kind.Unkn? && (g[x].IsFwd() ==> g[x].sizeOrType == 0) && HasUnit(d, g, x)
    {
      TwiceRegular(d, u, g, x);
      assert x in Half(|u|, x >= |u|);
    }
  }

  lemma DefiniteTwice(d: Names, u: seq<BtfType>, g: seq<BtfType>, x: nat)
    requires IsTwice(u, g) && 1 <= x < |u| && Definite(d, u, x)
    ensures Definite(d, g, x) && Definite(d, g, x + |u| - 1)
  {
    var ids :| IsDefinite(d, u, ids) && x in ids;
    hide Refs, Shape, GraphOk, IsCopied;
    var both := set y: nat {:trigger g[y]} | y < |g| && Origin(|u|, y) in ids;
    forall y | y in both ensures !IsOpen(d, g[y]) {
      ShapeOfOrigin(u, g, y);
      RefCountFromShape(g[y], u[Origin(|u|, y)]);
    }
    forall y, j | y in both && g[y].IsReference() && 0 <= j < |Refs(g[y])| ensures Refs(g[y])[j] in both {
      RefOrigin(u, g, y, j);
    }
    assert IsDefinite(d, g, both) && x in both && x + |u| - 1 in both;
  }

  // Every type of the second copy becomes that of the first, unless it leads to an open declaration.
  lemma CopyMerges(d: Names, u: seq<BtfType>, g: seq<BtfType>, out: seq<BtfType>, ids: seq<nat>, reps: seq<nat>,
                   x: nat)
    requires IsTwice(u, g) && IsOneUnit(d, u) && IsDedup(d, g, out, ids, reps)
    requires 1 <= x < |u| && Definite(d, u, x)
    ensures |ids| == |g| && ids[x + |u| - 1] == ids[x]
  {
    hide IsOneUnit, IsDedup, GraphOk, IsCopied, FromUnits, Decided, Definite, SameMeaning;
    TwiceRegular(d, u, g, x);
    TwiceFromUnits(d, u, g);
    CopyDecided(d, u, g, x);
    CopyMeans(d, u, g, x);
    IdsTell(d, g, out, ids, reps, x, x + |u| - 1);
  }

  lemma CopyDecided(d: Names, u: seq<BtfType>, g: seq<BtfType>, x: nat)
    requires IsTwice(u, g) && IsOneUnit(d, u) && 1 <= x < |u| && Definite(d, u, x)
    ensures Decided(d, g, x, x + |u| - 1)
  {
    hide GraphOk, IsCopied, IsOneUnit, OneDefinition, Definite;
    TwiceDefinesOnce(d, u, g);
    DefiniteTwice(d, u, g, x);
  }
}
