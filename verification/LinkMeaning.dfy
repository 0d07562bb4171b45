// What a linked image means: every position belongs to one program, every reference points at
// the start of its target, relocations stay findable, and running the image is running the
// separate functions, if their references name starts.

module LinkMeaning {
  import opened Programs
  import opened LinkImage

  // Some placed program contains every position of the image.
  lemma {:induction false} TilesCover(progs: seq<Prog>, m: Image, main: nat, at: nat, n: nat) returns (p: nat)
    requires OrderOk(progs, m, main) && Tiled(progs, m) && n < |m.order|
    requires at < m.off[m.order[n]] + |progs[m.order[n]].insns|
    ensures p in m.order && p < |progs| && m.off[p] <= at < m.off[p] + |progs[p].insns|
    decreases n
  {
    p := m.order[n];
    if at < m.off[p] {
      p := TilesCover(progs, m, main, at, n - 1);
    }
  }

  // Every position of the image holds an instruction of a program that `main` reaches. It differs
  // from the original at most in its offset, and if it refers to a program it points at its start.
  lemma EveryPosition(progs: seq<Prog>, text: nat, main: nat, m: Image, at: nat) returns (p: nat, k: nat)
    requires LinkedImage(progs, text, main, m) && at < |m.insns|
    ensures p < |progs| == |m.off| && k < |progs[p].insns| && at == m.off[p] + k && Reachable(progs, text, main, p)
    ensures var t := Resolve(progs, text, p, k); var i := progs[p].insns[k];
            if t.To? then m.insns[at] == i.(imm := m.insns[at].imm) && at + 1 + m.insns[at].imm == m.off[t.prog] &&
                          t.prog in m.order
            else t.Nothing? && m.insns[at] == i
  {
    p := TilesCover(progs, m, main, at, |m.order| - 1);
    k := at - m.off[p];
    WholeLinkable(progs, text, m, p, k);
  }

  function ShiftedReloc(r: Reloc, base: nat): Reloc {
    r.(insnIdx := r.insnIdx + base)
  }

  // The relocations of the first n placed programs are sorted and lie below their end.
  lemma {:induction false} RelocsStaySorted(progs: seq<Prog>, m: Image, main: nat, n: nat)
    requires OrderOk(progs, m, main) && Tiled(progs, m) && ObjectOk(progs) && 1 <= n <= |m.order|
    ensures RelocsSorted(AllRelocs(progs, m.off, m.order[..n]))
    ensures RelocsBelow(AllRelocs(progs, m.off, m.order[..n]), m.off[m.order[n - 1]] + |progs[m.order[n - 1]].insns|)
    decreases n
  {
    var q := m.order[n - 1];
    assert m.order[..n][..n - 1] == m.order[..n - 1];
    assert AllRelocs(progs, m.off, m.order[..n]) ==
           AllRelocs(progs, m.off, m.order[..n - 1]) + Shifted(progs[q].relocs, m.off[q]);
    if n > 1 {
      RelocsStaySorted(progs, m, main, n - 1);
      TiledInOrder(progs, m, main, n - 2, n - 1);
    } else {
      assert m.order[..0] == [];
    }
    var before := AllRelocs(progs, m.off, m.order[..n - 1]);
    hide AllRelocs, Tiled;
    assert RelocsBelow(before, m.off[q]);
    SortedThenShifted(before, progs[q].relocs, m.off[q], |progs[q].insns|);
  }

  // Relocations below `base`, followed by relocations moved to `base`.
  lemma SortedThenShifted(rs: seq<Reloc>, own: seq<Reloc>, base: nat, n: nat)
    requires RelocsSorted(rs) && RelocsBelow(rs, base) && RelocsSorted(own) && RelocsBelow(own, n)
    ensures RelocsSorted(rs + Shifted(own, base)) && RelocsBelow(rs + Shifted(own, base), base + n)
  {
  }

  // A shifted relocation of a placed program is in the list, and there are no others.
  lemma {:induction false} RelocMembers(progs: seq<Prog>, off: seq<nat>, order: seq<nat>, r: Reloc)
    requires |off| == |progs| && forall i :: 0 <= i < |order| ==> order[i] < |progs|
    ensures r in AllRelocs(progs, off, order) <==>
            exists i, j | 0 <= i < |order| && 0 <= j < |progs[order[i]].relocs| ::
              r == ShiftedReloc(progs[order[i]].relocs[j], off[order[i]])
    decreases |order|
  {
    if order != [] {
      var n := |order| - 1;
      var init := order[..n];
      RelocMembers(progs, off, init, r);
      var last := Shifted(progs[order[n]].relocs, off[order[n]]);
      if r in last {
        var j :| 0 <= j < |last| && last[j] == r;
        assert r == ShiftedReloc(progs[order[n]].relocs[j], off[order[n]]);
      }
      if i, j :| 0 <= i < |order| && 0 <= j < |progs[order[i]].relocs| &&
                 r == ShiftedReloc(progs[order[i]].relocs[j], off[order[i]])
      {
        if i == n {
          assert last[j] == r;
        } else {
          assert init[i] == order[i];
        }
      }
      if i, j :| 0 <= i < |init| && 0 <= j < |progs[init[i]].relocs| &&
                 r == ShiftedReloc(progs[init[i]].relocs[j], off[init[i]])
      {
        assert order[i] == init[i];
      }
    }
  }

  // A relocation of the image at a position of p is one of p's.
  lemma RelocIsOwn(progs: seq<Prog>, main: nat, m: Image, p: nat, k: nat, x: Reloc)
    requires Laid(progs, m, main) && ObjectOk(progs) && p in m.order && p < |progs| && k < |progs[p].insns|
    requires x in m.relocs && x.insnIdx == m.off[p] + k
    ensures RelocAt(progs[p].relocs, k).Some? && x == ShiftedReloc(RelocAt(progs[p].relocs, k).value, m.off[p])
  {
    RelocMembers(progs, m.off, m.order, x);
    hide AllRelocs;
    var i, j :| 0 <= i < |m.order| && 0 <= j < |progs[m.order[i]].relocs| &&
                x == ShiftedReloc(progs[m.order[i]].relocs[j], m.off[m.order[i]]);
    BlocksDisjoint(progs, m, main, p, m.order[i]);
    hide Tiled, AllRelocs;
    RelocAtIsUnique(progs[m.order[i]].relocs, progs[m.order[i]].relocs[j].insnIdx, j);
    hide RelocsSorted, RelocAt;
  }

  // A relocation of p is in the image, at its new position.
  lemma OwnRelocIsThere(progs: seq<Prog>, main: nat, m: Image, p: nat, r: Reloc)
    requires Laid(progs, m, main) && p in m.order && p < |progs| && r in progs[p].relocs
    ensures ShiftedReloc(r, m.off[p]) in m.relocs
  {
    var i :| 0 <= i < |m.order| && m.order[i] == p;
    var j :| 0 <= j < |progs[p].relocs| && progs[p].relocs[j] == r;
    RelocMembers(progs, m.off, m.order, ShiftedReloc(progs[m.order[i]].relocs[j], m.off[m.order[i]]));
  }

  // The relocation found for a position of the image is that of the original instruction.
  lemma RelocFound(progs: seq<Prog>, main: nat, m: Image, p: nat, k: nat)
    requires Laid(progs, m, main) && ObjectOk(progs) && p in m.order && p < |progs| && k < |progs[p].insns|
    ensures var r := RelocAt(progs[p].relocs, k); var s := RelocAt(m.relocs, m.off[p] + k);
            if r.None? then s.None? else s == Some(ShiftedReloc(r.value, m.off[p]))
  {
    var r, s := RelocAt(progs[p].relocs, k), RelocAt(m.relocs, m.off[p] + k);
    if r.Some? {
      OwnRelocIsThere(progs, main, m, p, r.value);
    }
    if s.Some? {
      RelocIsOwn(progs, main, m, p, k, s.value);
    }
  }

  // The merged list of relocations stays sorted, so binary search still finds what is there.
  lemma MergedRelocsSorted(progs: seq<Prog>, main: nat, m: Image)
    requires Laid(progs, m, main) && ObjectOk(progs)
    ensures RelocsSorted(m.relocs) && RelocsBelow(m.relocs, |m.insns|)
  {
    RelocsStaySorted(progs, m, main, |m.order|);
    assert m.order[..|m.order|] == m.order;
  }

  // How an instruction that is not a call acts: it moves within its function or returns.
  datatype Effect = Goto(delta: int) | Return

  // Executes an instruction, given the program and the instruction that it loads the address of, if any.
  type Exec<!D> = (Insn, Option<(nat, nat)>, D) -> (Effect, D)

  // The instruction of its target that instruction k of p names in the object file.
  ghost function NamedInsn(progs: seq<Prog>, text: nat, p: nat, k: nat): (j: nat)
    requires p < |progs| && k < |progs[p].insns| && Resolve(progs, text, p, k).To?
    ensures j < |progs[Resolve(progs, text, p, k).prog].insns|
  {
    SubInsnIdx(progs[p], k, RelocAt(progs[p].relocs, k)) - progs[Resolve(progs, text, p, k).prog].secInsnOff
  }

  // A reference of the image points where the object file says exactly if it names the start of its target.
  lemma ReferenceMeets(progs: seq<Prog>, text: nat, main: nat, m: Image, p: nat, k: nat)
    requires LinkedImage(progs, text, main, m) && p < |progs| && k < |progs[p].insns| && Reachable(progs, text, main, p)
    requires Resolve(progs, text, p, k).To?
    ensures m.off[p] + k < |m.insns| &&
            var q := Resolve(progs, text, p, k).prog;
            var idx := SubInsnIdx(progs[p], k, RelocAt(progs[p].relocs, k));
            m.off[p] + k + 1 + m.insns[m.off[p] + k].imm == m.off[q] + (idx - progs[q].secInsnOff) <==>
            idx == progs[q].secInsnOff
  {
    BlocksDisjoint(progs, m, main, p, p);
    WholeLinkable(progs, text, m, p, k);
  }

  // A machine over functions: the stack holds a program and an instruction for every active call.
  datatype Machine<D> = Stuck | Running(stack: seq<(nat, nat)>, data: D)

  // One step as the object file means it: a call enters its target at the instruction that it names.
  ghost function FunStep<D>(progs: seq<Prog>, text: nat, exec: Exec<D>, s: Machine<D>): Machine<D> {
    if s.Stuck? || s.stack == [] then s
    else
      var (p, k) := s.stack[|s.stack| - 1];
      var below := s.stack[..|s.stack| - 1];
      if p >= |progs| || k >= |progs[p].insns| then Stuck
      else
        var i := progs[p].insns[k];
        match Resolve(progs, text, p, k)
        case Unlinkable => Stuck
        case Nothing => FunMove(progs, below, p, k, exec(i, None, s.data))
        case To(q) =>
          var j := NamedInsn(progs, text, p, k);
          if IsSubprogCall(i) then Running(below + [(p, k + 1), (q, j)], s.data)
          else FunMove(progs, below, p, k, exec(i.(imm := 0), Some((q, j)), s.data))
  }

  ghost function FunMove<D>(progs: seq<Prog>, below: seq<(nat, nat)>, p: nat, k: nat, r: (Effect, D)): Machine<D>
    requires p < |progs|
  {
    match r.0
    case Return => Running(below, r.1)
    case Goto(delta) =>
      if 0 <= k + 1 + delta < |progs[p].insns| then Running(below + [(p, k + 1 + delta)], r.1) else Stuck
  }

  // A machine over the image: the stack holds positions.
  datatype Flat<D> = Fault | Active(stack: seq<int>, data: D)

  ghost function FlatStep<D>(m: Image, exec: Exec<D>, s: Flat<D>): Flat<D> {
    if s.Fault? || s.stack == [] then s
    else
      var at := s.stack[|s.stack| - 1];
      var below := s.stack[..|s.stack| - 1];
      if !(0 <= at < |m.insns|) then Fault
      else
        var i := m.insns[at];
        var relo := RelocAt(m.relocs, at);
        if (!IsSubprogCall(i) && !IsPseudoFunc(i)) || (relo.Some? && relo.value.typ.ExternFunc?)
        then FlatMove(below, at, exec(i, None, s.data))
        else if IsSubprogCall(i) then Active(below + [at + 1, at + 1 + i.imm], s.data)
        else
          var q := StartsAt(m, at + 1 + i.imm);
          if q.None? then Fault else FlatMove(below, at, exec(i.(imm := 0), Some((q.value, 0)), s.data))
  }

  ghost function FlatMove<D>(below: seq<int>, at: int, r: (Effect, D)): Flat<D> {
    match r.0
    case Return => Active(below, r.1)
    case Goto(delta) => Active(below + [at + 1 + delta], r.1)
  }

  // The placed program whose first instruction is at a position.
  ghost function StartsAt(m: Image, at: int): (r: Option<nat>)
    ensures r.Some? ==> r.value in m.order && r.value < |m.off| && m.off[r.value] == at
    ensures r.None? ==> forall q :: q in m.order && q < |m.off| ==> m.off[q] != at
  {
    if q: nat :| q in m.order && q < |m.off| && m.off[q] == at then Some(q) else None
  }

  ghost function FunRun<D>(progs: seq<Prog>, text: nat, exec: Exec<D>, s: Machine<D>, n: nat): Machine<D> {
    if n == 0 then s else FunStep(progs, text, exec, FunRun(progs, text, exec, s, n - 1))
  }

  ghost function FlatRun<D>(m: Image, exec: Exec<D>, s: Flat<D>, n: nat): Flat<D> {
    if n == 0 then s else FlatStep(m, exec, FlatRun(m, exec, s, n - 1))
  }

  // Calls of placed programs only.
  ghost predicate StackPlaced(m: Image, stack: seq<(nat, nat)>) {
    forall i :: 0 <= i < |stack| ==> stack[i].0 in m.order && stack[i].0 < |m.off|
  }

  ghost function Flatten<D>(m: Image, s: Machine<D>): (f: Flat<D>)
    requires s.Running? ==> StackPlaced(m, s.stack)
  {
    match s
    case Stuck => Fault
    case Running(stack, data) =>
      Active(seq(|stack|, i requires 0 <= i < |stack| => m.off[stack[i].0] + stack[i].1), data)
  }

  // The next instructions of both machines are the same up to the offset, and refer to the same
  // program or to none.
  ghost predicate SameInsn(progs: seq<Prog>, text: nat, m: Image, p: nat, k: nat)
    requires p < |progs| == |m.off| && k < |progs[p].insns| && m.off[p] + k < |m.insns|
  {
    var i, at := m.insns[m.off[p] + k], m.off[p] + k;
    var relo := RelocAt(m.relocs, at);
    i == progs[p].insns[k].(imm := i.imm) &&
    match Resolve(progs, text, p, k)
    case Unlinkable => false
    case Nothing =>
      i == progs[p].insns[k] &&
      ((!IsSubprogCall(i) && !IsPseudoFunc(i)) || (relo.Some? && relo.value.typ.ExternFunc?))
    case To(q) =>
      q < |progs| && q in m.order && at + 1 + i.imm == m.off[q] && StartsAt(m, m.off[q]) == Some(q) &&
      (IsSubprogCall(i) || IsPseudoFunc(i)) && !(relo.Some? && relo.value.typ.ExternFunc?)
  }

  lemma PlacedSame(progs: seq<Prog>, text: nat, main: nat, m: Image, p: nat, k: nat)
    requires LinkedImage(progs, text, main, m) && ObjectOk(progs) && p in m.order && p < |progs| && k < |progs[p].insns|
    ensures |m.off| == |progs| && m.off[p] + k < |m.insns| && SameInsn(progs, text, m, p, k)
  {
    hide Laid, Whole, Reachable, ObjectOk, RelocAt, StartsAt;
    BlocksDisjoint(progs, m, main, p, p);
    WholeLinkable(progs, text, m, p, k);
    RelocFound(progs, main, m, p, k);
    hide ProgAt;
    LaidSizes(progs, m, main);
    var t := Resolve(progs, text, p, k);
    if t.To? {
      StartUnique(progs, main, m, t.prog);
    }
  }

  lemma MainAtZero(progs: seq<Prog>, m: Image, main: nat)
    requires Laid(progs, m, main)
    ensures main in m.order && main < |progs| == |m.off| && m.off[main] == 0
  {
    assert m.order[0] == main;
  }

  lemma LaidSizes(progs: seq<Prog>, m: Image, main: nat)
    requires Laid(progs, m, main)
    ensures |m.off| == |progs|
  {
  }

  lemma StartUnique(progs: seq<Prog>, main: nat, m: Image, q: nat)
    requires Laid(progs, m, main) && ObjectOk(progs) && q in m.order && q < |progs|
    ensures q < |m.off| && StartsAt(m, m.off[q]) == Some(q)
  {
    var r := StartsAt(m, m.off[q]).value;
    BlocksDisjoint(progs, m, main, q, r);
  }

  // Every reference that `main` reaches names the start of its target.
  ghost predicate NamesStarts(progs: seq<Prog>, text: nat, main: nat) {
    forall p: nat, k: nat :: p < |progs| && k < |progs[p].insns| && Reachable(progs, text, main, p) ==>
      NamesStart(progs, text, p, k)
  }

  ghost predicate NamesStart(progs: seq<Prog>, text: nat, p: nat, k: nat)
    requires p < |progs| && k < |progs[p].insns|
  {
    Resolve(progs, text, p, k).To? ==> NamedInsn(progs, text, p, k) == 0
  }

  // One step of the function machine that does not get stuck is one step of the image, if the
  // instruction names the start of its target, or no program.
  lemma StepSimulates<D>(progs: seq<Prog>, text: nat, main: nat, m: Image, exec: Exec<D>, s: Machine<D>)
    requires LinkedImage(progs, text, main, m) && ObjectOk(progs)
    requires s.Running? && StackPlaced(m, s.stack) && FunStep(progs, text, exec, s).Running?
    requires s.stack != [] ==> (var (p, k) := s.stack[|s.stack| - 1];
                                p < |progs| && k < |progs[p].insns| && NamesStart(progs, text, p, k))
    ensures StackPlaced(m, FunStep(progs, text, exec, s).stack)
    ensures FlatStep(m, exec, Flatten(m, s)) == Flatten(m, FunStep(progs, text, exec, s))
  {
    hide Laid, Whole, Reachable, ObjectOk, Resolve, RelocAt, StartsAt, NamedInsn;
    if s.stack == [] {
      return;
    }
    var (p, k) := s.stack[|s.stack| - 1];
    PlacedSame(progs, text, main, m, p, k);
    hide LinkedImage;
    var below := s.stack[..|s.stack| - 1];
    var f, t := Flatten(m, s), FunStep(progs, text, exec, s);
    assert f.stack[|f.stack| - 1] == m.off[p] + k;
    assert f.stack[..|f.stack| - 1] == Flatten(m, Running(below, s.data)).stack;
    assert f.data == s.data && StackPlaced(m, below);
    hide Flatten, FunMove, FlatMove;
    var i := progs[p].insns[k];
    match Resolve(progs, text, p, k) {
      case Nothing =>
        MoveSimulates(progs, m, below, p, k, exec(i, None, s.data));
      case To(q) =>
        if IsSubprogCall(i) {
          CallSimulates(m, below, p, k, q, s.data);
        } else {
          MoveSimulates(progs, m, below, p, k, exec(i.(imm := 0), Some((q, 0)), s.data));
        }
    }
  }

  // For a call that is exact: otherwise the image enters the target at another instruction.
  lemma CallExactly<D>(progs: seq<Prog>, text: nat, main: nat, m: Image, exec: Exec<D>, s: Machine<D>, p: nat, k: nat)
    requires LinkedImage(progs, text, main, m) && ObjectOk(progs) && s.Running? && StackPlaced(m, s.stack)
    requires s.stack != [] && s.stack[|s.stack| - 1] == (p, k) && p < |progs| && k < |progs[p].insns|
    requires IsSubprogCall(progs[p].insns[k]) && Resolve(progs, text, p, k).To?
    ensures FunStep(progs, text, exec, s).Running? && StackPlaced(m, FunStep(progs, text, exec, s).stack)
    ensures FlatStep(m, exec, Flatten(m, s)) == Flatten(m, FunStep(progs, text, exec, s)) <==>
            NamedInsn(progs, text, p, k) == 0
  {
    hide Laid, Whole, Reachable, Resolve, RelocAt, StartsAt, NamedInsn, ObjectOk;
    PlacedSame(progs, text, main, m, p, k);
    hide LinkedImage;
    var t := FunStep(progs, text, exec, s);
    var f := Flatten(m, s);
    assert f.stack[|f.stack| - 1] == m.off[p] + k;
    var q := Resolve(progs, text, p, k).prog;
    var n := |t.stack| - 1;
    assert t.stack[n] == (q, NamedInsn(progs, text, p, k));
    assert Flatten(m, t).stack[n] == m.off[q] + NamedInsn(progs, text, p, k);
    var flat := FlatStep(m, exec, f);
    assert flat.stack[n] == m.off[q];
    if NamedInsn(progs, text, p, k) == 0 {
      StepSimulates(progs, text, main, m, exec, s);
    }
  }

  lemma CallSimulates<D>(m: Image, below: seq<(nat, nat)>, p: nat, k: nat, q: nat, data: D)
    requires StackPlaced(m, below) && p in m.order && p < |m.off| && q in m.order && q < |m.off|
    ensures StackPlaced(m, below + [(p, k + 1), (q, 0)])
    ensures Flatten(m, Running(below + [(p, k + 1), (q, 0)], data)) ==
            Active(Flatten(m, Running(below, data)).stack + [m.off[p] + k + 1, m.off[q]], data)
  {
  }

  lemma MoveSimulates<D>(progs: seq<Prog>, m: Image, below: seq<(nat, nat)>, p: nat, k: nat, r: (Effect, D))
    requires p < |progs| == |m.off| && p in m.order && StackPlaced(m, below)
    requires FunMove(progs, below, p, k, r).Running?
    ensures StackPlaced(m, FunMove(progs, below, p, k, r).stack)
    ensures FlatMove(Flatten(m, Running(below, r.1)).stack, m.off[p] + k, r) ==
            Flatten(m, FunMove(progs, below, p, k, r))
  {
    var t := FunMove(progs, below, p, k, r);
    assert FlatMove(Flatten(m, Running(below, r.1)).stack, m.off[p] + k, r).stack == Flatten(m, t).stack;
  }

  // Running the image is running the functions, step by step, for as long as the functions stay
  // within their bounds, if every reference names the start of its target.
  lemma {:induction false} ImageSimulates<D>(progs: seq<Prog>, text: nat, main: nat, m: Image, exec: Exec<D>, data: D,
                                             n: nat)
    requires LinkedImage(progs, text, main, m) && ObjectOk(progs) && NamesStarts(progs, text, main)
    requires FunRun(progs, text, exec, Running([(main, 0)], data), n).Running?
    ensures StackPlaced(m, FunRun(progs, text, exec, Running([(main, 0)], data), n).stack)
    ensures FlatRun(m, exec, Active([0], data), n) ==
            Flatten(m, FunRun(progs, text, exec, Running([(main, 0)], data), n))
    decreases n
  {
    var start: Machine<D> := Running([(main, 0)], data);
    if n == 0 {
      assert m.order[0] == main && m.off[main] == 0;
      assert Flatten(m, start) == Active([0], data);
    } else {
      hide LinkedImage, FunStep, FlatStep;
      assert FunRun(progs, text, exec, start, n - 1).Running? by {
        StuckStays(progs, text, exec, FunRun(progs, text, exec, start, n - 1));
      }
      ImageSimulates(progs, text, main, m, exec, data, n - 1);
      TopNamesStart(progs, text, main, m, exec, FunRun(progs, text, exec, start, n - 1));
      StepSimulates(progs, text, main, m, exec, FunRun(progs, text, exec, start, n - 1));
    }
  }

  lemma TopNamesStart<D>(progs: seq<Prog>, text: nat, main: nat, m: Image, exec: Exec<D>, s: Machine<D>)
    requires LinkedImage(progs, text, main, m) && NamesStarts(progs, text, main)
    requires s.Running? && StackPlaced(m, s.stack) && FunStep(progs, text, exec, s).Running?
    ensures s.stack != [] ==> (var (p, k) := s.stack[|s.stack| - 1];
                               p < |progs| && k < |progs[p].insns| && NamesStart(progs, text, p, k))
  {
  }

  lemma StuckStays<D>(progs: seq<Prog>, text: nat, exec: Exec<D>, s: Machine<D>)
    ensures s.Stuck? ==> FunStep(progs, text, exec, s).Stuck?
  {
  }
}
