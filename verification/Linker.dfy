// The linker of sub-programs: it appends to a main program, once each, the sub-programs that it
// refers to, and points every reference at the place of its target.

module Linker {
  import opened Programs
  import opened LinkImage
  import opened LinkMeaning

  const ERR_RELOC: int := 4003

  class Linker {
    // The programs as the object file holds them, and the section of the sub-programs.
    const progs: seq<Prog>
    const text: nat
    // The main program that is being linked, and its image.
    var main: nat
    var insns: seq<Insn>
    var relocs: seq<Reloc>
    // Where each program has been appended; zero if it has not been.
    const subInsnOff: array<nat>
    ghost var order: seq<nat>

    ghost function Contents(): Image
      reads this, subInsnOff
    {
      Image(insns, relocs, subInsnOff[..], order)
    }

    // While a main program is being linked. Main programs are never referred to.
    ghost predicate Valid()
      reads this, subInsnOff
    {
      ObjectOk(progs) && main < |progs| && !IsTarget(progs, text, main) &&
      subInsnOff.Length == |progs| && Laid(progs, Contents(), main)
    }

    // Between main programs: only sub-programs have been appended.
    ghost predicate Ready()
      reads this, subInsnOff
    {
      ObjectOk(progs) && subInsnOff.Length == |progs| &&
      forall p :: 0 <= p < |progs| && !IsSubprog(progs, text, p) ==> subInsnOff[p] == 0
    }

    constructor (progs: seq<Prog>, text: nat)
      requires ObjectOk(progs)
      ensures Ready() && this.progs == progs && this.text == text && fresh(subInsnOff)
    {
      this.progs, this.text, main := progs, text, 0;
      insns, relocs, order := [], [], [];
      subInsnOff := new nat[|progs|](_ => 0);
    }

    // Links one main program, whatever was linked before.
    method RelocateCalls(prog: nat) returns (err: int)
      requires Ready() && prog < |progs| && !IsSubprog(progs, text, prog) && !IsTarget(progs, text, prog)
      modifies this, subInsnOff
      ensures err in {0, -ERR_RELOC} && (err == 0 <==> !HasUnlinkable(progs, text, prog))
      ensures err == 0 ==> Ready() && LinkedImage(progs, text, prog, Contents())
    {
      for i := 0 to |progs|
        modifies subInsnOff
        invariant forall p :: 0 <= p < |progs| && (p < i || !IsSubprog(progs, text, p)) ==> subInsnOff[p] == 0
      {
        if IsSubprog(progs, text, i) {
          subInsnOff[i] := 0;
        }
      }
      main, insns, relocs, order := prog, progs[prog].insns, progs[prog].relocs, [prog];
      assert subInsnOff[..] == Started(progs, prog).off;
      ProgressStarts(progs, text, prog);
      StartedLaid(progs, prog);
      hide Progress, Laid, Started, HasUnlinkable, IsTarget, ObjectOk;
      err := RelocCode(prog);
      if err == 0 {
        LinkingDone(progs, text, prog, Contents());
        OnlySubprogsPlaced(progs, text, prog, Contents());
      }
    }

    // Looks up the relocation of instruction k of p. For the main program the list has grown.
    method FindReloc(p: nat, k: nat) returns (r: Option<Reloc>)
      requires Valid() && p < |progs| && k < |progs[p].insns|
      ensures r == RelocAt(progs[p].relocs, k)
    {
      if p == main {
        MergedRelocsSorted(progs, main, Contents());
        RelocFound(progs, main, Contents(), main, k);
        MainAtZero(progs, Contents(), main);
        r := FindInsnReloc(relocs, k);
      } else {
        r := FindInsnReloc(progs[p].relocs, k);
      }
    }

    // Looks up what instruction k of p refers to.
    method FindTarget(p: nat, k: nat) returns (t: Target)
      requires Valid() && p < |progs| && k < |progs[p].insns|
      ensures t == Resolve(progs, text, p, k)
    {
      hide Laid;
      var insn := progs[p].insns[k];
      if !IsSubprogCall(insn) && !IsPseudoFunc(insn) {
        return Nothing;
      }
      var relo := FindReloc(p, k);
      if relo.Some? && relo.value.typ.ExternFunc? {
        return Nothing;
      }
      if relo.Some? && !relo.value.typ.Call? && !relo.value.typ.SubprogAddr? {
        return Unlinkable;
      }
      var subInsnIdx: int;
      if relo.Some? {
        if relo.value.typ.Call? {
          subInsnIdx := relo.value.symOff / INSN_SIZE + insn.imm + 1;
        } else {
          subInsnIdx := (relo.value.symOff + insn.imm) / INSN_SIZE;
        }
      } else if IsPseudoFunc(insn) {
        return Unlinkable;
      } else {
        subInsnIdx := progs[p].secInsnOff + k + insn.imm + 1;
      }
      var q := FindProgBySecInsn(progs, text, subInsnIdx);
      match q {
        case Some(i) => t := To(i);
        case None => t := Unlinkable;
      }
    }

    // Appends the instructions and relocations of sub-program q.
    method Append(q: nat)
      requires Valid() && q < |progs| && !Placed(Contents(), q)
      modifies this`insns, this`relocs, this`order, subInsnOff
      ensures Valid() && Contents() == Grown(progs, old(Contents()), q)
    {
      GrownLaid(progs, Contents(), main, q);
      hide Laid;
      subInsnOff[q] := |insns|;
      insns := insns + progs[q].insns;
      AppendSubprogRelos(q);
      order := order + [q];
    }

    // The sub-program's relocations follow those already there, moved by its offset.
    method AppendSubprogRelos(q: nat)
      requires q < |progs| && q < subInsnOff.Length
      modifies this`relocs
      ensures relocs == old(relocs) + Shifted(progs[q].relocs, subInsnOff[q])
    {
      var cnt := |relocs|;
      ghost var want := Shifted(progs[q].relocs, subInsnOff[q]);
      relocs := relocs + progs[q].relocs;
      for i := cnt to |relocs|
        invariant |relocs| == cnt + |want|
        invariant relocs[..i] == old(relocs) + want[..i - cnt]
        invariant relocs[i..] == progs[q].relocs[i - cnt..]
      {
        assert relocs[i] == relocs[i..][0] == progs[q].relocs[i - cnt];
        relocs := relocs[i := relocs[i].(insnIdx := relocs[i].insnIdx + subInsnOff[q])];
        assert relocs[i] == want[i - cnt];
      }
    }

    ghost function Unplaced(): set<nat>
      reads this`order
    {
      set q | 0 <= q < |progs| && q !in order
    }

    // Links the references of program p, whose block is as in the object file, and of everything
    // that it refers to and that has not been appended yet.
    method RelocCode(p: nat) returns (err: int)
      requires Valid() && p < |progs| && Progress(progs, text, main, Contents(), Contents(), p, 0)
      modifies this`insns, this`relocs, this`order, subInsnOff
      ensures Valid() && err in {0, -ERR_RELOC} && Unplaced() <= old(Unplaced())
      ensures err == 0 ==> Progress(progs, text, main, old(Contents()), Contents(), p, |progs[p].insns|)
      ensures err != 0 ==> HasUnlinkable(progs, text, main)
      decreases Unplaced(), 1
    {
      ghost var m0 := Contents();
      hide Laid, Progress, Resolve, ObjectOk, IsTarget, Unplaced;
      for k := 0 to |progs[p].insns|
        invariant Valid() && Progress(progs, text, main, m0, Contents(), p, k)
        invariant Unplaced() <= old(Unplaced())
      {
        var t := FindTarget(p, k);
        match t {
          case Nothing =>
            ProgressSkips(progs, text, main, m0, Contents(), p, k);
          case Unlinkable =>
            FoundUnlinkable(progs, text, main, m0, Contents(), p, k);
            return -ERR_RELOC;
          case To(q) =>
            err := LinkTo(p, k, q, m0);
            if err != 0 {
              return;
            }
        }
      }
      return 0;
    }

    // Appends and links sub-program q if that has not been done, and points instruction k of p at it.
    method LinkTo(p: nat, k: nat, q: nat, ghost m0: Image) returns (err: int)
      requires Valid() && Progress(progs, text, main, m0, Contents(), p, k)
      requires p < |progs| && k < |progs[p].insns| && Resolve(progs, text, p, k) == To(q)
      modifies this`insns, this`relocs, this`order, subInsnOff
      ensures Valid() && err in {0, -ERR_RELOC} && Unplaced() <= old(Unplaced())
      ensures err == 0 ==> Progress(progs, text, main, m0, Contents(), p, k + 1)
      ensures err != 0 ==> HasUnlinkable(progs, text, main)
      decreases Unplaced(), 0, 1
    {
      hide ObjectOk, HasUnlinkable, Refers, Laid, Resolve, IsTarget, Unplaced, Progress;
      err := 0;
      ProgramNotEmpty(progs, main);
      TargetPlace(progs, text, main, m0, Contents(), p, k, q);
      if subInsnOff[q] == 0 {
        err := Visit(p, k, q, m0);
        if err != 0 {
          return;
        }
      }
      PatchTo(p, k, q, m0);
    }

    // Points instruction k of p at sub-program q, which has its place.
    method PatchTo(p: nat, k: nat, q: nat, ghost m0: Image)
      requires Valid() && Progress(progs, text, main, m0, Contents(), p, k) && Placed(Contents(), q)
      requires p < |progs| && k < |progs[p].insns| && Resolve(progs, text, p, k) == To(q)
      modifies this`insns
      ensures Valid() && Progress(progs, text, main, m0, Contents(), p, k + 1)
    {
      hide Progress, Laid, ObjectOk, IsTarget, Resolve;
      ProgressPatches(progs, text, main, m0, Contents(), p, k, q);
      hide Patched;
      Patch(p, k, q);
    }

    // Appends sub-program q and links it while p is on hold.
    method Visit(p: nat, k: nat, q: nat, ghost m0: Image) returns (err: int)
      requires Valid() && Progress(progs, text, main, m0, Contents(), p, k)
      requires q < |progs| && !Placed(Contents(), q) && Placed(Contents(), p) && Refers(progs, text, p, q)
      modifies this`insns, this`relocs, this`order, subInsnOff
      ensures Valid() && err in {0, -ERR_RELOC} && Unplaced() <= old(Unplaced())
      ensures err == 0 ==> Progress(progs, text, main, m0, Contents(), p, k) && Placed(Contents(), q)
      ensures err != 0 ==> HasUnlinkable(progs, text, main)
      decreases Unplaced(), 0, 0
    {
      hide ObjectOk, IsTarget, Progress, Laid, Refers, HasUnlinkable, OnlyReachable;
      ghost var m := Contents();
      OnlyReachableHolds(progs, text, main, m0, m, p, k);
      ProgressBegins(progs, text, main, m, q, p);
      Append(q);
      assert Unplaced() < old(Unplaced()) by {
        assert q in old(Unplaced()) && q !in Unplaced();
      }
      hide Unplaced, Grown;
      err := RelocCode(q);
      if err == 0 {
        ProgressResumes(progs, text, main, m0, m, Contents(), p, k, q);
      }
    }

    method Patch(p: nat, k: nat, q: nat)
      requires p < subInsnOff.Length && q < subInsnOff.Length && subInsnOff[p] + k < |insns|
      modifies this`insns
      ensures Contents() == Patched(old(Contents()), p, k, q)
    {
      var at := subInsnOff[p] + k;
      insns := insns[at := insns[at].(imm := subInsnOff[q] - at - 1)];
    }
  }
}
