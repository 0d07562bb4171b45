// Names that are only declared somewhere, and what fixes the types that bear them.

module Definitions {
  import opened BtfTypes
  import opened BtfCompare
  import opened TypeGraph

  // What deduplication demands of two records apart from the types they refer to. Under a declared
  // name a declaration may fit a definition.
  predicate Fits(d: Names, cand: BtfType, canon: BtfType) {
    cand.name == canon.name &&
    (Shape(cand) == Shape(canon) ||
     (IsDeclared(d, cand) && IsDeclared(d, canon) &&
      ((cand.info.kind.Enum? && canon.info.kind.Enum? && (cand.IsEnumFwd() || canon.IsEnumFwd()) &&
        EnumsAgree(cand, canon)) ||
       (cand.IsFwd() != canon.IsFwd() && RealKind(cand) == RealKind(canon)))))
  }

  lemma FitsRealKind(d: Names, cand: BtfType, canon: BtfType)
    requires Fits(d, cand, canon)
    ensures RealKind(cand) == RealKind(canon)
  {
    if Shape(cand) == Shape(canon) {
      RefCountFromShape(cand, canon);
    }
  }

  // A pair under a declared name, or of one shape.
  lemma FitsFace(d: Names, cand: BtfType, canon: BtfType)
    requires Fits(d, cand, canon)
    ensures SameFace(d, cand, canon) && (!IsDeclared(d, cand) ==> Shape(cand) == Shape(canon))
  {
    FitsRealKind(d, cand, canon);
    if Shape(cand) == Shape(canon) {
      ShapeIsFace(d, cand, canon);
    }
  }

  // Definitions that fit are of one shape.
  lemma FittingDefinitions(d: Names, t: BtfType, u: BtfType)
    requires Fits(d, t, u) && t.IsComposite() && !u.IsFwd()
    ensures u.IsComposite() && Shape(t) == Shape(u)
  {
    FitsRealKind(d, t, u);
  }

  // Two types of one name say the same, as far as they say anything.
  ghost predicate Agree(d: Names, g: seq<BtfType>, x: nat, y: nat)
    requires x < |g| && y < |g|
  {
    Fits(d, g[x], g[y]) && (Shape(g[x]) == Shape(g[y]) ==> KidsMean(d, g, x, y))
  }

  ghost predicate KidsMean(d: Names, g: seq<BtfType>, x: nat, y: nat)
    requires x < |g| && y < |g|
  {
    |Refs(g[x])| == |Refs(g[y])| &&
    forall j :: 0 <= j < |Refs(g[x])| ==> SameMeaning(d, g, Refs(g[x])[j], g, Refs(g[y])[j])
  }

  // Every declared name has at most one definition, of which there may be copies.
  ghost predicate OneDefinition(d: Names, g: seq<BtfType>) {
    forall x, y | 0 <= x < |g| && 0 <= y < |g| && SameName(d, g[x], g[y]) :: Agree(d, g, x, y)
  }

  // With no names set aside there is nothing to define.
  lemma NothingToDefine(g: seq<BtfType>)
    ensures OneDefinition({}, g)
  {
  }

  // The meaning of the type decides what it says: it leads to no declared name, or all of them have
  // one definition.
  ghost predicate Comparable(d: Names, g: seq<BtfType>, x: nat) {
    x < |g| && (Clear(d, g, x) || OneDefinition(d, g))
  }

  lemma MeaningAgrees(d: Names, g: seq<BtfType>, x: nat, y: nat)
    requires x < |g| && y < |g| && SameMeaning(d, g, x, g, y) && (IsDeclared(d, g[x]) ==> OneDefinition(d, g))
    ensures Agree(d, g, x, y)
  {
    SameMeaningStep(d, g, x, g, y);
    if IsDeclared(d, g[x]) {
      assert SameName(d, g[x], g[y]);
    } else {
      RefCountFromShape(g[x], g[y]);
    }
  }

  lemma ComparableAgrees(d: Names, g: seq<BtfType>, x: nat, y: nat)
    requires Comparable(d, g, x) && y < |g| && SameMeaning(d, g, x, g, y)
    ensures Agree(d, g, x, y)
  {
    if !OneDefinition(d, g) {
      ClearKids(d, g, x);
    }
    MeaningAgrees(d, g, x, y);
  }

  lemma ComparableTransfers(d: Names, g: seq<BtfType>, x: nat, y: nat)
    requires GraphOk(g) && Comparable(d, g, x) && y < |g| && SameMeaning(d, g, x, g, y)
    ensures Comparable(d, g, y)
  {
    if !OneDefinition(d, g) {
      ClearTransfers(d, g, x, y);
    }
  }

  lemma ComparableKids(d: Names, g: seq<BtfType>, x: nat)
    requires GraphOk(g) && Comparable(d, g, x)
    ensures forall j :: 0 <= j < |Refs(g[x])| ==> Comparable(d, g, Refs(g[x])[j])
  {
    assert RefsBelow(g[x], |g|);
    if !OneDefinition(d, g) {
      ClearKids(d, g, x);
    }
  }

  // A declaration that definitions of the same name stand beside.
  predicate IsOpen(d: Names, t: BtfType) {
    t.IsFwd() && IsDeclared(d, t)
  }

  // A set of types that say themselves what they are, together with what the reference types among
  // them refer to.
  ghost predicate IsDefinite(d: Names, g: seq<BtfType>, ids: set<nat>) {
    (forall x :: x in ids ==> x < |g| && !IsOpen(d, g[x])) &&
    forall x, j :: x in ids && g[x].IsReference() && 0 <= j < |Refs(g[x])| ==> Refs(g[x])[j] in ids
  }

  // The type does not lead to a struct or union that is only declared there, except through other
  // structs and unions.
  ghost predicate Definite(d: Names, g: seq<BtfType>, x: nat) {
    exists ids :: IsDefinite(d, g, ids) && x in ids
  }

  lemma DefiniteKids(d: Names, g: seq<BtfType>, x: nat)
    requires Definite(d, g, x)
    ensures x < |g| && !IsOpen(d, g[x])
    ensures g[x].IsReference() ==> forall j :: 0 <= j < |Refs(g[x])| ==> Definite(d, g, Refs(g[x])[j])
  {
    var ids :| IsDefinite(d, g, ids) && x in ids;
    forall j | g[x].IsReference() && 0 <= j < |Refs(g[x])| ensures Definite(d, g, Refs(g[x])[j]) {
      assert Refs(g[x])[j] in ids;
    }
  }

  // Whether x and y share a representative is decided by what they mean.
  ghost predicate Decided(d: Names, g: seq<BtfType>, x: nat, y: nat) {
    x < |g| && y < |g| &&
    (Clear(d, g, x) || (OneDefinition(d, g) && Definite(d, g, x) && Definite(d, g, y)))
  }

  lemma DecidedComparable(d: Names, g: seq<BtfType>, x: nat, y: nat)
    requires Decided(d, g, x, y) && SameMeaning(d, g, x, g, y)
    ensures Comparable(d, g, x) && !IsOpen(d, g[x]) && !IsOpen(d, g[y])
  {
    if Clear(d, g, x) {
      ClearKids(d, g, x);
      SameMeaningStep(d, g, x, g, y);
    } else {
      DefiniteKids(d, g, x);
      DefiniteKids(d, g, y);
    }
  }

  lemma DecidedKids(d: Names, g: seq<BtfType>, x: nat, y: nat, j: nat)
    requires GraphOk(g) && Decided(d, g, x, y) && g[x].IsReference() && g[y].IsReference()
    requires j < |Refs(g[x])| == |Refs(g[y])|
    ensures Decided(d, g, Refs(g[x])[j], Refs(g[y])[j])
  {
    assert RefsBelow(g[x], |g|) && RefsBelow(g[y], |g|);
    if Clear(d, g, x) {
      ClearKids(d, g, x);
    } else {
      DefiniteKids(d, g, x);
      DefiniteKids(d, g, y);
    }
  }
}
