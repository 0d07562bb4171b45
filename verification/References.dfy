// References to sub-programs as a compiler writes them, and how the linker reads them: by the place
// in memory that they denote, wherever the sub-programs lie.

module References {
  import opened Programs
  import opened LinkImage
  import opened LinkMeaning

  // Where instruction j of p lies in its section, in bytes.
  function Place(p: Prog, j: int): int {
    8 * (p.secInsnOff + j)
  }

  // The three forms of a reference: a call relative to the instruction behind it, a call relative to
  // a symbol, and the address of a function relative to a symbol. Symbols are places in bytes.
  datatype Form = Direct | SymbolCall(sym: int) | SymbolAddress(sym: int)

  // Instruction k of p, written so as to refer to a place.
  function Written(form: Form, p: Prog, k: nat, dst: nat, at: int): Insn {
    match form
    case Direct => Insn(0x85, 0, 1, 0, (at - Place(p, k + 1)) / 8)
    case SymbolCall(sym) => Insn(0x85, 0, 1, 0, (at - sym) / 8 - 1)
    case SymbolAddress(sym) => Insn(0x18, dst, 4, 0, at - sym)
  }

  // The relocation that goes with it.
  predicate RelocFits(form: Form, relo: Option<Reloc>) {
    match form
    case Direct => relo.None?
    case SymbolCall(sym) => sym % 8 == 0 && relo.Some? && relo.value.typ.Call? && relo.value.symOff == sym
    case SymbolAddress(sym) => relo.Some? && relo.value.typ.SubprogAddr? && relo.value.symOff == sym
  }

  ghost predicate Writes(progs: seq<Prog>, p: nat, k: nat, form: Form, dst: nat, at: int) {
    p < |progs| && k < |progs[p].insns| && at % 8 == 0 &&
    progs[p].insns[k] == Written(form, progs[p], k, dst, at) && RelocFits(form, RelocAt(progs[p].relocs, k))
  }

  // The instruction index that is looked up is that of the place.
  lemma IndexOfPlace(progs: seq<Prog>, p: nat, k: nat, form: Form, dst: nat, at: int)
    requires Writes(progs, p, k, form, dst, at)
    ensures 8 * SubInsnIdx(progs[p], k, RelocAt(progs[p].relocs, k)) == at
    ensures IsSubprogCall(progs[p].insns[k]) || IsPseudoFunc(progs[p].insns[k])
  {
    hide RelocAt;
    var own := Place(progs[p], k + 1);
    assert own % 8 == 0;
    match form {
      case Direct =>
        WholeWords(at, own);
      case SymbolCall(sym) =>
        WholeWords(at, sym);
      case SymbolAddress(sym) =>
    }
  }

  lemma WholeWords(a: int, b: int)
    requires a % 8 == 0 && b % 8 == 0
    ensures 8 * ((a - b) / 8) == a - b && 8 * (b / 8) == b
  {
  }

  // A reference to the place of instruction j of q is read as one to that instruction, and only that.
  lemma ReadBack(progs: seq<Prog>, text: nat, p: nat, k: nat, form: Form, dst: nat, at: int, q: nat, j: nat)
    requires ObjectOk(progs) && Writes(progs, p, k, form, dst, at)
    requires q < |progs| && progs[q].secIdx == text && j < |progs[q].insns|
    ensures Resolve(progs, text, p, k) == To(q) && NamedInsn(progs, text, p, k) == j <==> at == Place(progs[q], j)
  {
    IndexOfPlace(progs, p, k, form, dst, at);
    hide Writes, SubInsnIdx;
    var idx := SubInsnIdx(progs[p], k, RelocAt(progs[p].relocs, k));
    WrittenLinkable(progs, text, p, k, form, dst, at);
    if at == Place(progs[q], j) {
      ProgAtIsUnique(progs, text, idx, q);
    }
  }

  lemma WrittenLinkable(progs: seq<Prog>, text: nat, p: nat, k: nat, form: Form, dst: nat, at: int)
    requires Writes(progs, p, k, form, dst, at)
    ensures var r := ProgAt(progs, text, SubInsnIdx(progs[p], k, RelocAt(progs[p].relocs, k)));
            Resolve(progs, text, p, k) == if r.Some? then To(r.value) else Unlinkable
  {
    hide RelocAt, ProgAt, SubInsnIdx;
  }

  // A reference to a place outside all sub-programs cannot be linked.
  lemma OutsideUnlinkable(progs: seq<Prog>, text: nat, p: nat, k: nat, form: Form, dst: nat, at: int)
    requires ObjectOk(progs) && Writes(progs, p, k, form, dst, at)
    ensures Resolve(progs, text, p, k).Unlinkable? <==>
            forall q, j | 0 <= q < |progs| && progs[q].secIdx == text && 0 <= j < |progs[q].insns| ::
              at != Place(progs[q], j)
  {
    IndexOfPlace(progs, p, k, form, dst, at);
    WrittenLinkable(progs, text, p, k, form, dst, at);
    hide Writes, SubInsnIdx, Resolve;
    var idx := SubInsnIdx(progs[p], k, RelocAt(progs[p].relocs, k));
    var r := ProgAt(progs, text, idx);
    if r.Some? {
      assert at == Place(progs[r.value], idx - progs[r.value].secInsnOff);
    } else {
      forall q, j | 0 <= q < |progs| && progs[q].secIdx == text && 0 <= j < |progs[q].insns|
        ensures at != Place(progs[q], j)
      {
        assert !Contains(progs[q], text, idx);
      }
    }
  }

  // All sub-programs moved by d instructions within their section.
  function Moved(progs: seq<Prog>, text: nat, d: nat): (r: seq<Prog>)
    ensures |r| == |progs|
  {
    seq(|progs|, i requires 0 <= i < |progs| =>
      if progs[i].secIdx == text then progs[i].(secInsnOff := progs[i].secInsnOff + d) else progs[i])
  }

  lemma MovedOk(progs: seq<Prog>, text: nat, d: nat)
    requires ObjectOk(progs)
    ensures ObjectOk(Moved(progs, text, d))
  {
    var moved := Moved(progs, text, d);
    forall i, j | 0 <= i < j < |moved| ensures Precedes(moved[i], moved[j]) {
      assert Precedes(progs[i], progs[j]);
    }
  }

  lemma MovedAlong(progs: seq<Prog>, text: nat, d: nat, idx: int)
    requires ObjectOk(progs)
    ensures ProgAt(Moved(progs, text, d), text, idx + d) == ProgAt(progs, text, idx)
  {
    MovedOk(progs, text, d);
    var moved := Moved(progs, text, d);
    hide ObjectOk;
    var r, s := ProgAt(progs, text, idx), ProgAt(moved, text, idx + d);
    if s.Some? {
      assert Contains(progs[s.value], text, idx);
    }
    if r.Some? {
      ProgAtIsUnique(moved, text, idx + d, r.value);
    }
  }

  // A call within the section of the sub-programs has no relocation, and none is needed: it has the
  // same target, and names the same instruction of it, wherever they lie.
  lemma CallsMoveAlong(progs: seq<Prog>, text: nat, d: nat, p: nat, k: nat)
    requires ObjectOk(progs) && p < |progs| && k < |progs[p].insns| && progs[p].secIdx == text
    requires RelocAt(progs[p].relocs, k).None?
    ensures Resolve(Moved(progs, text, d), text, p, k) == Resolve(progs, text, p, k)
    ensures Resolve(progs, text, p, k).To? ==>
              NamedInsn(Moved(progs, text, d), text, p, k) == NamedInsn(progs, text, p, k)
  {
    var moved := Moved(progs, text, d);
    MovedAlong(progs, text, d, SubInsnIdx(progs[p], k, None));
    hide ObjectOk, ProgAt;
    assert moved[p].insns == progs[p].insns && moved[p].relocs == progs[p].relocs;
  }

  // Linking leaves such a call as it is exactly if the image keeps the distance of the two programs.
  lemma CallStaysExactly(progs: seq<Prog>, text: nat, main: nat, m: Image, p: nat, k: nat)
    requires LinkedImage(progs, text, main, m) && p < |progs| && k < |progs[p].insns| && Reachable(progs, text, main, p)
    requires RelocAt(progs[p].relocs, k).None? && Resolve(progs, text, p, k).To? && NamesStart(progs, text, p, k)
    ensures m.off[p] + k < |m.insns| &&
            var q := Resolve(progs, text, p, k).prog;
            m.insns[m.off[p] + k] == progs[p].insns[k] <==>
            m.off[q] + progs[p].secInsnOff == m.off[p] + progs[q].secInsnOff
  {
    hide Laid, ObjectOk, ProgAt, RelocAt;
    BlocksDisjoint(progs, m, main, p, p);
    WholeLinkable(progs, text, m, p, k);
  }
}
