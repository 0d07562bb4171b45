// Two small inputs and what every deduplication of them does.

module DedupSample {
  import opened BtfTypes
  import opened BtfCompare
  import opened TypeGraph
  import opened Definitions
  import opened DedupState
  import opened HypotMap
  import opened Quotient

  const Number := BtfType(1, Info(Int, 0, false), 4, IntBits(32))
  const Real := BtfType(2, Info(Float, 0, false), 4, Plain)

  function Holding(name: nat, typ: nat): BtfType {
    BtfType(name, Info(Struct, 1, false), 8, Members([Member(3, typ, 0)]))
  }

  function PointerTo(typ: nat): BtfType {
    BtfType(0, Info(Ptr, 0, false), typ, Plain)
  }

  // Two structs of one name and shape that hold different types.
  const Homonyms: seq<BtfType> := [VOID, Number, Real, Holding(4, 1), Holding(4, 2)]

  // With resolution of declarations on or off, both structs stay.
  lemma HomonymsStay(dontResolveFwds: bool, out: seq<BtfType>, ids: seq<nat>, reps: seq<nat>)
    requires IsDedup(NamesFor(Homonyms, dontResolveFwds), Homonyms, out, ids, reps)
    ensures ids[3] != ids[4]
  {
    hide IsDedup, FromUnits;
    assert NamesFor(Homonyms, dontResolveFwds) == {};
    IdsTell({}, Homonyms, out, ids, reps, 3, 4);
    if ids[3] == ids[4] {
      ExactMeaningStep(Homonyms, 3, Homonyms, 4);
      assert Refs(Homonyms[3]) == [1] && Refs(Homonyms[4]) == [2];
      assert SameMeaning({}, Homonyms, Refs(Homonyms[3])[0], Homonyms, Refs(Homonyms[4])[0]);
      ExactMeaningStep(Homonyms, 1, Homonyms, 2);
    }
  }

  // A struct behind a pointer, and a second unit in which that struct is only declared.
  const Units: seq<BtfType> :=
    [VOID, Number, Holding(4, 1), PointerTo(2), Holding(5, 3),
     BtfType(4, Info(Fwd, 0, false), 0, Plain), PointerTo(5), Holding(5, 6)]

  lemma UnitsRefs()
    ensures Refs(Units[0]) == Refs(Units[1]) == [] && Refs(Units[2]) == [1] && Refs(Units[3]) == [2]
    ensures Refs(Units[4]) == [3] && Refs(Units[5]) == [0] && Refs(Units[6]) == [5] && Refs(Units[7]) == [6]
  {
  }

  lemma UnitsDeclare()
    ensures Declarations(Units) == {(4, Struct)}
  {
    assert OnlyDeclares(Units[5]);
  }

  const Open: Names := {(4, Struct)}

  // A first unit without declarations, and a second one whose declaration refers to void.
  const First: set<nat> := {1, 2, 3, 4}
  const Second: set<nat> := {0, 5, 6, 7}

  lemma UnitsDefineOnce()
    ensures OneDefinition(Open, Units)
  {
    UnitsRefs();
    forall x, y | 0 <= x < |Units| && 0 <= y < |Units| && SameName(Open, Units[x], Units[y])
      ensures Agree(Open, Units, x, y)
    {
      assert x in {2, 5} && y in {2, 5};
      if x == y {
        SelfAgrees(Open, Units, x);
      } else {
        assert Shape(Units[x]).info != Shape(Units[y]).info;
      }
    }
  }

  lemma SelfAgrees(d: Names, g: seq<BtfType>, x: nat)
    requires x < |g|
    ensures Agree(d, g, x, x)
  {
  }

  lemma OnceInUnit(unit: set<nat>, x: nat, y: nat)
    requires unit in {First, Second} && x in unit && y in unit && SameMeaning(Open, Units, x, Units, y)
    ensures x == y
  {
    SameMeaningStep(Open, Units, x, Units, y);
    if !IsDeclared(Open, Units[x]) {
      RefCountFromShape(Units[x], Units[y]);
    }
  }

  lemma IsUnit(unit: set<nat>)
    requires unit in {First, Second}
    ensures UnitOk(Open, Units, unit)
  {
    UnitsRefs();
    UnitsDefineOnce();
    hide OneDefinition, IsDeclared, Refs, SameMeaning;
    forall x, y | x in unit && y in unit && SameMeaning(Open, Units, x, Units, y) ensures x == y {
      OnceInUnit(unit, x, y);
    }
  }

  lemma UnitsAreUnits()
    ensures FromUnits(Open, Units)
  {
    hide UnitOk, SameMeaning, Comparable;
    IsUnit(First);
    IsUnit(Second);
    forall x: nat | 1 <= x < |Units| ensures HasUnit(Open, Units, x) {
      assert x in First || x in Second;
    }
  }

  // The two structs that hold the pointer mean the same up to the declared name.
  lemma HoldersMeanTheSame()
    ensures SameMeaning(Open, Units, 4, Units, 7)
  {
    UnitsRefs();
    SameNameSameMeaning(Open, Units, 2, Units, 5);
    var rel: map<nat, nat> := map[6 := 3, 7 := 4];
    assert Covered(Open, Units, Units, rel, 2, 5) && Covered(Open, Units, Units, rel, 3, 6);
    assert Shape(Units[4]).rest.members == Shape(Units[7]).rest.members;
    hide SameMeaning, Covered;
    assert Progresses(Open, Units, Units, rel, 3, 6) && Progresses(Open, Units, Units, rel, 4, 7);
    BisimulationIsSound(Open, Units, Units, rel, 7);
  }

  // With resolution on, the struct of the second unit becomes that of the first.
  lemma DeclaredElsewhere(out: seq<BtfType>, ids: seq<nat>, reps: seq<nat>)
    requires IsDedup(NamesFor(Units, false), Units, out, ids, reps)
    ensures ids[4] == ids[7]
  {
    hide IsDedup, FromUnits, SameMeaning, Decided;
    UnitsDeclare();
    UnitsAreUnits();
    HoldersMeanTheSame();
    HoldersDecided();
    IdsTell(Open, Units, out, ids, reps, 4, 7);
  }

  lemma HoldersDecided()
    ensures Decided(Open, Units, 4, 7)
  {
    UnitsDefineOnce();
    hide OneDefinition;
    assert IsDefinite(Open, Units, {4, 7});
  }

  // With resolution off, they stay apart.
  lemma DeclaredStaysApart(out: seq<BtfType>, ids: seq<nat>, reps: seq<nat>)
    requires IsDedup(NamesFor(Units, true), Units, out, ids, reps)
    ensures ids[4] != ids[7]
  {
    UnitsRefs();
    hide IsDedup, FromUnits;
    IdsTell({}, Units, out, ids, reps, 4, 7);
    if ids[4] == ids[7] {
      ExactMeaningStep(Units, 4, Units, 7);
      assert SameMeaning({}, Units, Refs(Units[4])[0], Units, Refs(Units[7])[0]);
      ExactMeaningStep(Units, 3, Units, 6);
      assert SameMeaning({}, Units, Refs(Units[3])[0], Units, Refs(Units[6])[0]);
      ExactMeaningStep(Units, 2, Units, 5);
    }
  }
}
