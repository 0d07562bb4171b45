// BPF programs as an object file holds them: instructions, relocations, and the lookups that
// tell which sub-program an instruction refers to.

module Programs {

  datatype Option<T> = None | Some(value: T)

  datatype Insn = Insn(code: nat, dst: nat, src: nat, off: int, imm: int)

  datatype RelocType = Ld64 | Call | Data | ExternVar | ExternFunc | SubprogAddr

  datatype Reloc = Reloc(typ: RelocType, insnIdx: nat, mapIdx: nat, symOff: int)

  // A program at its place in a section of the object file.
  datatype Prog = Prog(secIdx: nat, secInsnOff: nat, insns: seq<Insn>, relocs: seq<Reloc>)

  const INSN_SIZE: nat := 8
  const CALL_CODE: nat := 0x85
  const LDIMM64_CODE: nat := 0x18
  const PSEUDO_CALL: nat := 1
  const PSEUDO_FUNC: nat := 4

  predicate IsSubprogCall(i: Insn) {
    i.code == CALL_CODE && i.src == PSEUDO_CALL && i.dst == 0 && i.off == 0
  }

  predicate IsPseudoFunc(i: Insn) {
    i.code == LDIMM64_CODE && i.src == PSEUDO_FUNC
  }

  predicate RelocsSorted(rs: seq<Reloc>) {
    forall i, j :: 0 <= i < j < |rs| ==> rs[i].insnIdx < rs[j].insnIdx
  }

  predicate RelocsBelow(rs: seq<Reloc>, n: nat) {
    forall i :: 0 <= i < |rs| ==> rs[i].insnIdx < n
  }

  // Program a ends before program b starts, in an earlier section or in the same one.
  predicate Precedes(a: Prog, b: Prog) {
    a.secIdx < b.secIdx || (a.secIdx == b.secIdx && a.secInsnOff + |a.insns| <= b.secInsnOff)
  }

  // Programs are not empty, sorted by place and do not overlap; relocations are sorted.
  predicate ObjectOk(progs: seq<Prog>) {
    |progs| > 0 &&
    (forall i :: 0 <= i < |progs| ==>
      |progs[i].insns| > 0 && RelocsSorted(progs[i].relocs) && RelocsBelow(progs[i].relocs, |progs[i].insns|)) &&
    forall i, j :: 0 <= i < j < |progs| ==> Precedes(progs[i], progs[j])
  }

  lemma ProgramNotEmpty(progs: seq<Prog>, p: nat)
    requires ObjectOk(progs) && p < |progs|
    ensures |progs[p].insns| > 0
  {
  }

  predicate Contains(p: Prog, sec: nat, idx: int) {
    p.secIdx == sec && p.secInsnOff <= idx < p.secInsnOff + |p.insns|
  }

  // The program that contains an instruction of a section.
  ghost function ProgAt(progs: seq<Prog>, sec: nat, idx: int): (r: Option<nat>)
    ensures r.Some? ==> r.value < |progs| && Contains(progs[r.value], sec, idx)
    ensures r.None? ==> forall i :: 0 <= i < |progs| ==> !Contains(progs[i], sec, idx)
  {
    if i: nat :| i < |progs| && Contains(progs[i], sec, idx) then Some(i) else None
  }

  // Programs do not overlap, so at most one contains an instruction.
  lemma ProgAtIsUnique(progs: seq<Prog>, sec: nat, idx: int, i: nat)
    requires ObjectOk(progs) && i < |progs| && Contains(progs[i], sec, idx)
    ensures ProgAt(progs, sec, idx) == Some(i)
  {
    var j := ProgAt(progs, sec, idx).value;
    assert i < j ==> Precedes(progs[i], progs[j]);
    assert j < i ==> Precedes(progs[j], progs[i]);
  }

  // Binary search for the last program that starts at or before the instruction.
  method FindProgBySecInsn(progs: seq<Prog>, sec: nat, idx: int) returns (r: Option<nat>)
    requires ObjectOk(progs)
    ensures r == ProgAt(progs, sec, idx)
  {
    var l, h := 0, |progs| - 1;
    while l < h
      invariant 0 <= l <= h < |progs|
      invariant forall i :: 0 <= i < |progs| && Contains(progs[i], sec, idx) ==> l <= i <= h
    {
      var m := l + (h - l + 1) / 2;
      if progs[m].secIdx < sec || (progs[m].secIdx == sec && progs[m].secInsnOff <= idx) {
        forall i | 0 <= i < m ensures !Contains(progs[i], sec, idx) {
          assert Precedes(progs[i], progs[m]);
        }
        l := m;
      } else {
        forall i | m < i < |progs| ensures !Contains(progs[i], sec, idx) {
          assert Precedes(progs[m], progs[i]);
        }
        h := m - 1;
      }
    }
    if progs[l].secIdx == sec && progs[l].secInsnOff <= idx < progs[l].secInsnOff + |progs[l].insns| {
      ProgAtIsUnique(progs, sec, idx, l);
      return Some(l);
    }
    return None;
  }

  // The relocation of an instruction.
  ghost function RelocAt(rs: seq<Reloc>, idx: nat): (r: Option<Reloc>)
    ensures r.Some? ==> r.value in rs && r.value.insnIdx == idx
    ensures r.None? ==> forall i :: 0 <= i < |rs| ==> rs[i].insnIdx != idx
  {
    if i: nat :| i < |rs| && rs[i].insnIdx == idx then Some(rs[i]) else None
  }

  lemma RelocAtIsUnique(rs: seq<Reloc>, idx: nat, i: nat)
    requires RelocsSorted(rs) && i < |rs| && rs[i].insnIdx == idx
    ensures RelocAt(rs, idx) == Some(rs[i])
  {
    var r := RelocAt(rs, idx).value;
    var j :| 0 <= j < |rs| && rs[j] == r;
    assert !(i < j) && !(j < i);
  }

  method FindInsnReloc(rs: seq<Reloc>, idx: nat) returns (r: Option<Reloc>)
    requires RelocsSorted(rs)
    ensures r == RelocAt(rs, idx)
  {
    var l, h := 0, |rs|;
    while l < h
      invariant 0 <= l <= h <= |rs|
      invariant forall i :: 0 <= i < |rs| && rs[i].insnIdx == idx ==> l <= i < h
    {
      var m := (l + h) / 2;
      if rs[m].insnIdx == idx {
        RelocAtIsUnique(rs, idx, m);
        return Some(rs[m]);
      }
      if idx < rs[m].insnIdx {
        h := m;
      } else {
        l := m + 1;
      }
    }
    return None;
  }

  // What an instruction refers to: nothing to link, a sub-program, or something unlinkable.
  datatype Target = Nothing | Unlinkable | To(prog: nat)

  // The instruction index, within the section of sub-programs, that instruction k of p refers to.
  function SubInsnIdx(p: Prog, k: nat, relo: Option<Reloc>): int
    requires k < |p.insns|
  {
    var i := p.insns[k];
    match relo
    case Some(r) =>
      if r.typ.Call? then r.symOff / INSN_SIZE + i.imm + 1 else (r.symOff + i.imm) / INSN_SIZE
    case None => p.secInsnOff + k + i.imm + 1
  }

  // Instruction k of program p, looked up in the section `text` that holds the sub-programs.
  ghost function Resolve(progs: seq<Prog>, text: nat, p: nat, k: nat): (t: Target)
    requires p < |progs| && k < |progs[p].insns|
    ensures t.To? ==> t.prog < |progs| && progs[t.prog].secIdx == text
  {
    var i := progs[p].insns[k];
    var relo := RelocAt(progs[p].relocs, k);
    if !IsSubprogCall(i) && !IsPseudoFunc(i) then Nothing
    else if relo.Some? && relo.value.typ.ExternFunc? then Nothing
    else if relo.Some? && !relo.value.typ.Call? && !relo.value.typ.SubprogAddr? then Unlinkable
    else if relo.None? && IsPseudoFunc(i) then Unlinkable
    else
      match ProgAt(progs, text, SubInsnIdx(progs[p], k, relo))
      case Some(q) => To(q)
      case None => Unlinkable
  }
}
