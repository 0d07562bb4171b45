// A call into the middle of a sub-program, and what linking makes of it.

module LinkSample {
  import opened Programs
  import opened LinkImage
  import opened LinkMeaning

  const EXIT := Insn(0x95, 0, 0, 0, 0)
  const CALL := Insn(CALL_CODE, 0, PSEUDO_CALL, 0, 0)
  const Text: nat := 0
  const Main: nat := 1

  // A sub-program of two instructions, and a main program that calls the second of them.
  function Sample(): (progs: seq<Prog>)
    ensures |progs| == 2 && progs[0].insns == [EXIT, EXIT] && progs[1].insns == [CALL, EXIT]
  {
    [Prog(Text, 0, [EXIT, EXIT], []), Prog(1, 0, [CALL, EXIT], [Reloc(Call, 0, 0, 0)])]
  }

  function SampleImage(): Image {
    Image([CALL.(imm := 1), EXIT, EXIT, EXIT], [Reloc(Call, 0, 0, 0)], [2, 0], [Main, 0])
  }

  lemma SampleResolves()
    ensures ObjectOk(Sample())
    ensures Resolve(Sample(), Text, Main, 0) == To(0) && NamedInsn(Sample(), Text, Main, 0) == 1
    ensures Resolve(Sample(), Text, Main, 1).Nothing?
    ensures Resolve(Sample(), Text, 0, 0).Nothing? && Resolve(Sample(), Text, 0, 1).Nothing?
  {
    var progs := Sample();
    assert ObjectOk(progs);
    RelocAtIsUnique(progs[Main].relocs, 0, 0);
    ProgAtIsUnique(progs, Text, 1, 0);
  }

  lemma SampleLaid()
    ensures Laid(Sample(), SampleImage(), Main)
  {
    var progs, m := Sample(), SampleImage();
    assert m.order[..1] == [Main] && m.order[..1][..0] == [];
    assert AllRelocs(progs, m.off, m.order[..1]) == m.relocs;
    assert AllRelocs(progs, m.off, m.order) == m.relocs;
  }

  lemma SampleLinked()
    ensures LinkedImage(Sample(), Text, Main, SampleImage())
  {
    var progs, m := Sample(), SampleImage();
    SampleResolves();
    SampleLaid();
    hide Resolve, Laid;
    assert LinkedAt(progs, Text, m, Main, 0) && LinkedAt(progs, Text, m, Main, 1);
    assert LinkedAt(progs, Text, m, 0, 0) && LinkedAt(progs, Text, m, 0, 1);
    assert Whole(progs, Text, m, Main) && Whole(progs, Text, m, 0);
    ReachesItself(progs, Text, Main);
    assert Refers(progs, Text, Main, 0);
    ReachesFurther(progs, Text, Main, Main, 0);
    forall q | Reachable(progs, Text, Main, q) ensures q in m.order {
      ReachablePlaced(progs, Text, Main, m, q);
    }
  }

  // The main program enters its target at the second instruction, the image at the first.
  lemma MiddleMissed<D>(exec: Exec<D>, data: D)
    ensures ObjectOk(Sample()) && LinkedImage(Sample(), Text, Main, SampleImage())
    ensures FunRun(Sample(), Text, exec, Running([(Main, 0)], data), 1) == Running([(Main, 1), (0, 1)], data)
    ensures FlatRun(SampleImage(), exec, Active([0], data), 1) == Active([1, SampleImage().off[0] + 0], data)
  {
    var progs, m := Sample(), SampleImage();
    SampleResolves();
    SampleLinked();
    hide LinkedImage, Resolve;
    var start: Machine<D> := Running([(Main, 0)], data);
    assert FunRun(progs, Text, exec, start, 0) == start;
    assert start.stack[..0] == [];
    RelocAtIsUnique(m.relocs, 0, 0);
    var flat: Flat<D> := Active([0], data);
    assert FlatRun(m, exec, flat, 0) == flat;
    assert flat.stack[..0] == [];
  }
}
