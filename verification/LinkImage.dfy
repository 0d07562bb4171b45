// The image of a main program while sub-programs are appended to it.

module LinkImage {
  import opened Programs

  // Instructions, relocations, the offset of each program (zero if it has none yet), and the
  // programs placed so far, the main program first.
  datatype Image = Image(insns: seq<Insn>, relocs: seq<Reloc>, off: seq<nat>, order: seq<nat>)

  ghost predicate Placed(m: Image, p: nat) {
    p in m.order
  }

  ghost predicate OrderIn(progs: seq<Prog>, m: Image) {
    |m.off| == |progs| && forall i :: 0 <= i < |m.order| ==> m.order[i] < |progs|
  }

  // The placed programs lie one behind the other in the order in which they were placed.
  ghost predicate Tiled(progs: seq<Prog>, m: Image)
    requires OrderIn(progs, m)
  {
    m.order != [] && m.off[m.order[0]] == 0 &&
    (forall i :: 0 <= i < |m.order| - 1 ==>
      m.off[m.order[i + 1]] == m.off[m.order[i]] + |progs[m.order[i]].insns|) &&
    |m.insns| == m.off[m.order[|m.order| - 1]] + |progs[m.order[|m.order| - 1]].insns|
  }

  ghost predicate OrderOk(progs: seq<Prog>, m: Image, main: nat) {
    OrderIn(progs, m) && m.order != [] && m.order[0] == main &&
    (forall i, j :: 0 <= i < j < |m.order| ==> m.order[i] != m.order[j]) &&
    forall p :: 0 <= p < |progs| && p !in m.order ==> m.off[p] == 0
  }

  // The relocations of program p at the place where p has been appended.
  function Shifted(rs: seq<Reloc>, base: nat): (r: seq<Reloc>)
    ensures |r| == |rs|
  {
    seq(|rs|, i requires 0 <= i < |rs| => rs[i].(insnIdx := rs[i].insnIdx + base))
  }

  ghost function AllRelocs(progs: seq<Prog>, off: seq<nat>, order: seq<nat>): seq<Reloc>
    requires |off| == |progs| && forall i :: 0 <= i < |order| ==> order[i] < |progs|
  {
    if order == [] then []
    else
      var p := order[|order| - 1];
      AllRelocs(progs, off, order[..|order| - 1]) + Shifted(progs[p].relocs, off[p])
  }

  ghost predicate Laid(progs: seq<Prog>, m: Image, main: nat) {
    OrderOk(progs, m, main) && Tiled(progs, m) && m.relocs == AllRelocs(progs, m.off, m.order)
  }

  // Instruction k of p as it must read in the image: a reference points from its position to the
  // start of the program it names.
  ghost function Linked(progs: seq<Prog>, text: nat, off: seq<nat>, p: nat, k: nat): Insn
    requires |off| == |progs| && p < |progs| && k < |progs[p].insns|
  {
    var t := Resolve(progs, text, p, k);
    if t.To? then progs[p].insns[k].(imm := off[t.prog] - (off[p] + k) - 1) else progs[p].insns[k]
  }

  // The first n instructions of p are linked, and what they refer to is placed; the others are as
  // in the object file.
  ghost predicate Block(progs: seq<Prog>, text: nat, m: Image, p: nat, n: nat) {
    |m.off| == |progs| && p < |progs| && m.off[p] + |progs[p].insns| <= |m.insns| && n <= |progs[p].insns| &&
    forall k :: 0 <= k < |progs[p].insns| ==>
      if k < n then LinkedAt(progs, text, m, p, k) else m.insns[m.off[p] + k] == progs[p].insns[k]
  }

  ghost predicate LinkedAt(progs: seq<Prog>, text: nat, m: Image, p: nat, k: nat)
    requires |m.off| == |progs| && p < |progs| && k < |progs[p].insns| && m.off[p] + k < |m.insns|
  {
    m.insns[m.off[p] + k] == Linked(progs, text, m.off, p, k) &&
    !Resolve(progs, text, p, k).Unlinkable? &&
    (Resolve(progs, text, p, k).To? ==> Placed(m, Resolve(progs, text, p, k).prog))
  }

  ghost predicate Whole(progs: seq<Prog>, text: nat, m: Image, p: nat) {
    p < |progs| && Block(progs, text, m, p, |progs[p].insns|)
  }

  // Programs placed earlier lie below those placed later.
  lemma {:induction false} TiledInOrder(progs: seq<Prog>, m: Image, main: nat, i: nat, j: nat)
    requires OrderOk(progs, m, main) && Tiled(progs, m) && i < j < |m.order|
    ensures m.off[m.order[i]] + |progs[m.order[i]].insns| <= m.off[m.order[j]]
    decreases j
  {
    if i < j - 1 {
      TiledInOrder(progs, m, main, i, j - 1);
    }
  }

  // Blocks are disjoint and lie within the image.
  lemma BlocksDisjoint(progs: seq<Prog>, m: Image, main: nat, p: nat, q: nat)
    requires Laid(progs, m, main) && Placed(m, p) && Placed(m, q)
    ensures p < |progs| && q < |progs| && m.off[p] + |progs[p].insns| <= |m.insns|
    ensures p != q ==> m.off[p] + |progs[p].insns| <= m.off[q] || m.off[q] + |progs[q].insns| <= m.off[p]
    ensures p != main && |progs[main].insns| > 0 ==> m.off[p] > 0
  {
    var i: nat :| i < |m.order| && m.order[i] == p;
    var j: nat :| j < |m.order| && m.order[j] == q;
    if i < |m.order| - 1 {
      TiledInOrder(progs, m, main, i, |m.order| - 1);
    }
    if i < j {
      TiledInOrder(progs, m, main, i, j);
    } else if j < i {
      TiledInOrder(progs, m, main, j, i);
    }
    if p != main {
      TiledInOrder(progs, m, main, 0, i);
    }
  }

  // The image grown by program q.
  ghost function Grown(progs: seq<Prog>, m: Image, q: nat): Image
    requires q < |progs| && q < |m.off|
  {
    Image(m.insns + progs[q].insns, m.relocs + Shifted(progs[q].relocs, |m.insns|),
          m.off[q := |m.insns|], m.order + [q])
  }

  lemma {:induction false} AllRelocsIgnores(progs: seq<Prog>, off: seq<nat>, off': seq<nat>, order: seq<nat>)
    requires |off| == |progs| == |off'| && forall i :: 0 <= i < |order| ==> order[i] < |progs|
    requires forall i :: 0 <= i < |order| ==> off'[order[i]] == off[order[i]]
    ensures AllRelocs(progs, off', order) == AllRelocs(progs, off, order)
    decreases |order|
  {
    if order != [] {
      AllRelocsIgnores(progs, off, off', order[..|order| - 1]);
    }
  }

  lemma GrownLaid(progs: seq<Prog>, m: Image, main: nat, q: nat)
    requires Laid(progs, m, main) && q < |progs| && !Placed(m, q)
    ensures Laid(progs, Grown(progs, m, q), main)
  {
    GrownOrder(progs, m, main, q);
    GrownTiled(progs, m, main, q);
    var m' := Grown(progs, m, q);
    AllRelocsIgnores(progs, m.off, m'.off, m.order);
    assert m'.order[..|m'.order| - 1] == m.order;
  }

  lemma GrownOrder(progs: seq<Prog>, m: Image, main: nat, q: nat)
    requires OrderOk(progs, m, main) && q < |progs| && !Placed(m, q)
    ensures OrderOk(progs, Grown(progs, m, q), main)
  {
  }

  lemma GrownTiled(progs: seq<Prog>, m: Image, main: nat, q: nat)
    requires OrderOk(progs, m, main) && Tiled(progs, m) && q < |progs| && !Placed(m, q)
    ensures OrderIn(progs, Grown(progs, m, q)) && Tiled(progs, Grown(progs, m, q))
  {
    var m' := Grown(progs, m, q);
    GrownOrder(progs, m, main, q);
    forall i | 0 <= i < |m'.order| - 1
      ensures m'.off[m'.order[i + 1]] == m'.off[m'.order[i]] + |progs[m'.order[i]].insns|
    {
      assert m.order[i] != q;
      if i < |m.order| - 1 {
        assert m.order[i + 1] != q;
      }
    }
  }

  // What later steps leave alone: placed programs keep their places, and the instructions of
  // block p alone change among those there were.
  ghost predicate Frame(progs: seq<Prog>, m: Image, m': Image, p: nat) {
    |m.off| == |m'.off| == |progs| && p < |progs| && |m.insns| <= |m'.insns| &&
    (forall q :: q in m.order ==> q in m'.order && q < |progs| && m'.off[q] == m.off[q]) &&
    forall i :: 0 <= i < |m.insns| && !(m.off[p] <= i < m.off[p] + |progs[p].insns|) ==> m'.insns[i] == m.insns[i]
  }

  // A block other than p's keeps its progress.
  lemma BlockKept(progs: seq<Prog>, text: nat, m: Image, m': Image, main: nat, p: nat, q: nat, n: nat)
    requires Laid(progs, m, main) && Frame(progs, m, m', p) && Placed(m, p) && Placed(m, q) && p != q
    requires Block(progs, text, m, q, n)
    ensures Block(progs, text, m', q, n)
  {
    BlocksDisjoint(progs, m, main, p, q);
    forall k | 0 <= k < |progs[q].insns|
      ensures if k < n then LinkedAt(progs, text, m', q, k) else m'.insns[m'.off[q] + k] == progs[q].insns[k]
    {
      if k < n {
        assert LinkedAt(progs, text, m, q, k);
      }
    }
  }

  // Growing the image leaves all blocks alone and adds an untouched one.
  lemma GrownKeeps(progs: seq<Prog>, text: nat, m: Image, main: nat, q: nat, p: nat, n: nat)
    requires Laid(progs, m, main) && q < |progs| && !Placed(m, q)
    requires Placed(m, p) && Block(progs, text, m, p, n)
    ensures Block(progs, text, Grown(progs, m, q), p, n)
  {
    var m' := Grown(progs, m, q);
    forall k | 0 <= k < |progs[p].insns|
      ensures if k < n then LinkedAt(progs, text, m', p, k) else m'.insns[m'.off[p] + k] == progs[p].insns[k]
    {
      if k < n {
        assert LinkedAt(progs, text, m, p, k);
      }
    }
  }

  lemma GrownFresh(progs: seq<Prog>, text: nat, m: Image, main: nat, q: nat)
    requires Laid(progs, m, main) && q < |progs| && !Placed(m, q)
    ensures Block(progs, text, Grown(progs, m, q), q, 0)
  {
    hide Tiled, AllRelocs;
  }

  // Program p refers to program q.
  ghost predicate Refers(progs: seq<Prog>, text: nat, p: nat, q: nat) {
    p < |progs| && exists k :: 0 <= k < |progs[p].insns| && Resolve(progs, text, p, k) == To(q)
  }

  ghost predicate IsChain(progs: seq<Prog>, text: nat, c: seq<nat>) {
    forall i :: 0 <= i < |c| - 1 ==> Refers(progs, text, c[i], c[i + 1])
  }

  // Program q is referred to from `main`, directly or through others.
  ghost predicate Reachable(progs: seq<Prog>, text: nat, main: nat, q: nat) {
    exists c :: IsChainTo(progs, text, main, q, c)
  }

  ghost predicate IsChainTo(progs: seq<Prog>, text: nat, main: nat, q: nat, c: seq<nat>) {
    |c| > 0 && c[0] == main && c[|c| - 1] == q && IsChain(progs, text, c)
  }

  lemma ReachesItself(progs: seq<Prog>, text: nat, main: nat)
    ensures Reachable(progs, text, main, main)
  {
    assert IsChainTo(progs, text, main, main, [main]);
  }

  lemma ReachesFurther(progs: seq<Prog>, text: nat, main: nat, p: nat, q: nat)
    requires Reachable(progs, text, main, p) && Refers(progs, text, p, q)
    ensures Reachable(progs, text, main, q)
  {
    var c :| IsChainTo(progs, text, main, p, c);
    var d := c + [q];
    forall i | 0 <= i < |d| - 1 ensures Refers(progs, text, d[i], d[i + 1]) {
      if i < |c| - 1 {
        assert Refers(progs, text, c[i], c[i + 1]);
      }
    }
    assert IsChainTo(progs, text, main, q, d);
  }

  // Something that the main program reaches cannot be linked.
  ghost predicate HasUnlinkable(progs: seq<Prog>, text: nat, main: nat) {
    exists p: nat, k: nat | p < |progs| && k < |progs[p].insns| && Reachable(progs, text, main, p) ::
      Resolve(progs, text, p, k).Unlinkable?
  }

  ghost predicate OnlyReachable(progs: seq<Prog>, text: nat, m: Image, main: nat) {
    forall q :: q in m.order ==> Reachable(progs, text, main, q)
  }

  ghost predicate NewWhole(progs: seq<Prog>, text: nat, m0: Image, m: Image) {
    forall q :: q in m.order && q !in m0.order ==> Whole(progs, text, m, q)
  }

  // Linking of p began at m0 and has reached instruction n at m.
  ghost predicate Progress(progs: seq<Prog>, text: nat, main: nat, m0: Image, m: Image, p: nat, n: nat) {
    Laid(progs, m0, main) && Laid(progs, m, main) && Placed(m0, p) && Frame(progs, m0, m, p) &&
    Block(progs, text, m, p, n) && NewWhole(progs, text, m0, m) && OnlyReachable(progs, text, m, main)
  }

  lemma ProgressBegins(progs: seq<Prog>, text: nat, main: nat, m: Image, q: nat, p: nat)
    requires Laid(progs, m, main) && OnlyReachable(progs, text, m, main) && q < |progs| && !Placed(m, q)
    requires Placed(m, p) && Refers(progs, text, p, q)
    ensures Progress(progs, text, main, Grown(progs, m, q), Grown(progs, m, q), q, 0)
  {
    GrownLaid(progs, m, main, q);
    GrownFresh(progs, text, m, main, q);
    ReachesFurther(progs, text, main, p, q);
    LaidOrder(progs, m, main);
    var m1 := Grown(progs, m, q);
    LaidOrder(progs, m1, main);
    assert NewWhole(progs, text, m1, m1);
    assert Frame(progs, m1, m1, q);
  }

  lemma LaidOrder(progs: seq<Prog>, m: Image, main: nat)
    requires Laid(progs, m, main)
    ensures OrderIn(progs, m)
  {
  }

  lemma FrameResumes(progs: seq<Prog>, m0: Image, m: Image, m': Image, p: nat, q: nat)
    requires Frame(progs, m0, m, p) && q < |progs| && !Placed(m, q) && Frame(progs, Grown(progs, m, q), m', q)
    requires OrderIn(progs, m)
    ensures Frame(progs, m0, m', p)
  {
    var m1 := Grown(progs, m, q);
    forall x | x in m0.order ensures x in m'.order && m'.off[x] == m0.off[x] {
      assert x in m.order && x in m1.order;
    }
  }

  lemma OnlyReachableHolds(progs: seq<Prog>, text: nat, main: nat, m0: Image, m: Image, p: nat, n: nat)
    requires Progress(progs, text, main, m0, m, p, n)
    ensures OnlyReachable(progs, text, m, main)
  {
  }

  // Another program has been appended and linked while p was on hold.
  lemma ProgressResumes(progs: seq<Prog>, text: nat, main: nat, m0: Image, m: Image, m': Image, p: nat, n: nat, q: nat)
    requires Progress(progs, text, main, m0, m, p, n) && q < |progs| && !Placed(m, q)
    requires Progress(progs, text, main, Grown(progs, m, q), m', q, |progs[q].insns|)
    ensures Progress(progs, text, main, m0, m', p, n) && Placed(m', q)
  {
    var m1 := Grown(progs, m, q);
    LaidOrder(progs, m, main);
    FrameResumes(progs, m0, m, m', p, q);
    assert Placed(m, p) && Placed(m1, p);
    GrownKeeps(progs, text, m, main, q, p, n);
    BlockKept(progs, text, m1, m', main, q, p, n);
    forall x | x in m'.order && x !in m0.order ensures Whole(progs, text, m', x) {
      ResumedWhole(progs, text, main, m, m', q, x);
    }
  }

  lemma ResumedWhole(progs: seq<Prog>, text: nat, main: nat, m: Image, m': Image, q: nat, x: nat)
    requires Laid(progs, m, main) && q < |progs| && !Placed(m, q)
    requires Progress(progs, text, main, Grown(progs, m, q), m', q, |progs[q].insns|)
    requires x in m'.order && (x in m.order ==> Whole(progs, text, m, x))
    ensures Whole(progs, text, m', x)
  {
    var m1 := Grown(progs, m, q);
    if x in m.order {
      GrownKeeps(progs, text, m, main, q, x, |progs[x].insns|);
      BlockKept(progs, text, m1, m', main, q, x, |progs[x].insns|);
    } else if x != q {
      assert x !in m1.order;
    }
  }

  // The image after instruction n of p has been pointed at the start of q.
  function Patched(m: Image, p: nat, n: nat, q: nat): Image
    requires p < |m.off| && q < |m.off| && m.off[p] + n < |m.insns|
  {
    var at := m.off[p] + n;
    m.(insns := m.insns[at := m.insns[at].(imm := m.off[q] - at - 1)])
  }

  lemma ProgressPatches(progs: seq<Prog>, text: nat, main: nat, m0: Image, m: Image, p: nat, n: nat, q: nat)
    requires Progress(progs, text, main, m0, m, p, n) && n < |progs[p].insns|
    requires Resolve(progs, text, p, n) == To(q) && Placed(m, q)
    ensures p < |m.off| && q < |m.off| && m.off[p] + n < |m.insns|
    ensures Progress(progs, text, main, m0, Patched(m, p, n, q), p, n + 1)
    ensures Laid(progs, Patched(m, p, n, q), main)
  {
    LaidOrder(progs, m, main);
    var m' := Patched(m, p, n, q);
    PatchedLaid(progs, m, main, m'.insns);
    PatchedBlock(progs, text, m, p, n, q);
    PatchedFrame(progs, m0, m, p, n, q);
    PatchedFrame(progs, m, m, p, n, q);
    PatchedNewWhole(progs, text, main, m0, m, m', p);
  }

  lemma PatchedFrame(progs: seq<Prog>, m0: Image, m: Image, p: nat, n: nat, q: nat)
    requires Frame(progs, m0, m, p) && OrderIn(progs, m) && q < |progs| && n < |progs[p].insns|
    requires Placed(m0, p) && m.off[p] + n < |m.insns|
    ensures Frame(progs, m0, Patched(m, p, n, q), p)
  {
  }

  lemma PatchedNewWhole(progs: seq<Prog>, text: nat, main: nat, m0: Image, m: Image, m': Image, p: nat)
    requires Laid(progs, m, main) && Frame(progs, m, m', p) && Placed(m0, p) && Placed(m, p) && m'.order == m.order
    requires NewWhole(progs, text, m0, m)
    ensures NewWhole(progs, text, m0, m')
  {
    forall x | x in m'.order && x !in m0.order ensures Whole(progs, text, m', x) {
      PatchedWhole(progs, text, main, m, m', p, x);
    }
  }

  lemma PatchedWhole(progs: seq<Prog>, text: nat, main: nat, m: Image, m': Image, p: nat, x: nat)
    requires Laid(progs, m, main) && Frame(progs, m, m', p) && Placed(m, p) && x in m.order && x != p
    requires Whole(progs, text, m, x)
    ensures Whole(progs, text, m', x)
  {
    BlockKept(progs, text, m, m', main, p, x, |progs[x].insns|);
  }

  lemma PatchedLaid(progs: seq<Prog>, m: Image, main: nat, insns: seq<Insn>)
    requires Laid(progs, m, main) && |insns| == |m.insns|
    ensures Laid(progs, m.(insns := insns), main)
  {
  }

  lemma PatchedBlock(progs: seq<Prog>, text: nat, m: Image, p: nat, n: nat, q: nat)
    requires Block(progs, text, m, p, n) && n < |progs[p].insns|
    requires Resolve(progs, text, p, n) == To(q) && Placed(m, q)
    ensures Block(progs, text, Patched(m, p, n, q), p, n + 1)
  {
    var m' := Patched(m, p, n, q);
    assert LinkedAt(progs, text, m', p, n);
    forall k | 0 <= k < n ensures LinkedAt(progs, text, m', p, k) {
      assert LinkedAt(progs, text, m, p, k);
    }
  }

  // Instruction n of p refers to nothing.
  lemma ProgressSkips(progs: seq<Prog>, text: nat, main: nat, m0: Image, m: Image, p: nat, n: nat)
    requires Progress(progs, text, main, m0, m, p, n) && n < |progs[p].insns|
    requires Resolve(progs, text, p, n).Nothing?
    ensures Progress(progs, text, main, m0, m, p, n + 1)
  {
    hide Laid, NewWhole, OnlyReachable, Frame;
  }

  ghost predicate IsTarget(progs: seq<Prog>, text: nat, q: nat) {
    exists p: nat :: Refers(progs, text, p, q)
  }

  // The image that linking starts from.
  ghost function Started(progs: seq<Prog>, main: nat): Image
    requires main < |progs|
  {
    Image(progs[main].insns, progs[main].relocs, seq(|progs|, i => 0), [main])
  }

  lemma StartedLaid(progs: seq<Prog>, main: nat)
    requires main < |progs|
    ensures Laid(progs, Started(progs, main), main)
  {
    var m := Started(progs, main);
    assert Shifted(progs[main].relocs, 0) == progs[main].relocs;
    assert AllRelocs(progs, m.off, [main]) == AllRelocs(progs, m.off, []) + Shifted(progs[main].relocs, 0);
  }

  lemma ProgressStarts(progs: seq<Prog>, text: nat, main: nat)
    requires main < |progs|
    ensures var m := Started(progs, main); Progress(progs, text, main, m, m, main, 0)
  {
    StartedLaid(progs, main);
    ReachesItself(progs, text, main);
  }

  lemma FoundUnlinkable(progs: seq<Prog>, text: nat, main: nat, m0: Image, m: Image, p: nat, k: nat)
    requires Progress(progs, text, main, m0, m, p, k) && k < |progs[p].insns|
    requires Resolve(progs, text, p, k).Unlinkable?
    ensures HasUnlinkable(progs, text, main)
  {
    assert p in m.order;
  }

  // The target of a reference is not the main program, and has an offset exactly if it is placed.
  lemma TargetPlace(progs: seq<Prog>, text: nat, main: nat, m0: Image, m: Image, p: nat, k: nat, q: nat)
    requires Progress(progs, text, main, m0, m, p, k) && k < |progs[p].insns|
    requires Resolve(progs, text, p, k) == To(q) && !IsTarget(progs, text, main) && |progs[main].insns| > 0
    ensures q < |progs| == |m.off| && Refers(progs, text, p, q) && Placed(m, p)
    ensures m.off[q] == 0 <==> !Placed(m, q)
  {
    assert Refers(progs, text, p, q);
    if Placed(m, q) {
      BlocksDisjoint(progs, m, main, q, q);
    }
  }

  predicate IsSubprog(progs: seq<Prog>, text: nat, p: nat)
    requires p < |progs|
  {
    progs[p].secIdx == text && |progs| > 1
  }

  // The finished image: exactly the programs that `main` reaches, one behind the other, all linked.
  ghost predicate LinkedImage(progs: seq<Prog>, text: nat, main: nat, m: Image) {
    Laid(progs, m, main) &&
    (forall q :: q in m.order ==> Whole(progs, text, m, q)) &&
    (forall q :: q in m.order <==> Reachable(progs, text, main, q))
  }

  // What a linked program refers to is placed.
  lemma WholeClosed(progs: seq<Prog>, text: nat, m: Image, p: nat, q: nat)
    requires Whole(progs, text, m, p) && Refers(progs, text, p, q)
    ensures Placed(m, q)
  {
    var k :| 0 <= k < |progs[p].insns| && Resolve(progs, text, p, k) == To(q);
    assert LinkedAt(progs, text, m, p, k);
  }

  lemma {:induction false} ChainPlaced(progs: seq<Prog>, text: nat, m: Image, c: seq<nat>, n: nat)
    requires forall q :: q in m.order ==> Whole(progs, text, m, q)
    requires IsChain(progs, text, c) && n < |c| && c[0] in m.order
    ensures c[n] in m.order
    decreases n
  {
    if n > 0 {
      ChainPlaced(progs, text, m, c, n - 1);
      WholeClosed(progs, text, m, c[n - 1], c[n]);
    }
  }

  lemma LinkingDone(progs: seq<Prog>, text: nat, main: nat, m: Image)
    requires main < |progs| && Progress(progs, text, main, Started(progs, main), m, main, |progs[main].insns|)
    ensures LinkedImage(progs, text, main, m) && !HasUnlinkable(progs, text, main)
  {
    assert main in m.order;
    forall q | q in m.order ensures Whole(progs, text, m, q) {
      if q !in Started(progs, main).order {
        assert NewWhole(progs, text, Started(progs, main), m);
      }
    }
    forall q | Reachable(progs, text, main, q) ensures q in m.order {
      ReachablePlaced(progs, text, main, m, q);
    }
    forall p: nat, k: nat | p < |progs| && k < |progs[p].insns| && Reachable(progs, text, main, p)
      ensures !Resolve(progs, text, p, k).Unlinkable?
    {
      WholeLinkable(progs, text, m, p, k);
    }
  }

  lemma WholeLinkable(progs: seq<Prog>, text: nat, m: Image, p: nat, k: nat)
    requires Whole(progs, text, m, p) && k < |progs[p].insns|
    ensures LinkedAt(progs, text, m, p, k)
  {
  }

  lemma ReachablePlaced(progs: seq<Prog>, text: nat, main: nat, m: Image, q: nat)
    requires main in m.order && (forall x :: x in m.order ==> Whole(progs, text, m, x))
    requires Reachable(progs, text, main, q)
    ensures q in m.order
  {
    var c :| IsChainTo(progs, text, main, q, c);
    ChainPlaced(progs, text, m, c, |c| - 1);
  }

  // Apart from the main program, only sub-programs are placed.
  lemma OnlySubprogsPlaced(progs: seq<Prog>, text: nat, main: nat, m: Image)
    requires LinkedImage(progs, text, main, m) && main < |progs|
    ensures |m.off| == |progs| && m.off[main] == 0
    ensures forall p :: 0 <= p < |progs| && !IsSubprog(progs, text, p) ==> m.off[p] == 0
  {
    forall p | 0 <= p < |progs| && p != main && p in m.order ensures IsSubprog(progs, text, p) {
      var c :| IsChainTo(progs, text, main, p, c);
      assert Refers(progs, text, c[|c| - 2], p);
    }
  }
}
