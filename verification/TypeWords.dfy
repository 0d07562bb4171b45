// How types are laid out in memory: every record field by field as 32-bit words, and a section of
// them, which the parser indexes exactly and from which the types are read back.

module TypeWords {
  import opened Checksum
  import opened BtfTypes
  import opened BtfCompare
  import opened BtfFile
  import opened TypeSection
  import opened SectionRecords
  import opened Renumber

  // A number as the four bytes of a word in memory.
  function WordOf(v: nat, big: bool): Word32
    requires v < U32_SIZE
  {
    var w := v / 256;
    var x := w / 256;
    if big then Word32(x / 256, x % 256, w % 256, v % 256) else Word32(v % 256, w % 256, x % 256, x / 256)
  }

  lemma WordIsRead(v: nat, big: bool)
    requires v < U32_SIZE
    ensures Val(WordOf(v, big), big) == v
  {
    var w := v / 256;
    assert v == 256 * w + v % 256 && w == 256 * (w / 256) + w % 256;
  }

  function WordsOf(vs: seq<nat>, big: bool): (ws: seq<Word32>)
    requires forall i :: 0 <= i < |vs| ==> vs[i] < U32_SIZE
    ensures |ws| == |vs| && forall i :: 0 <= i < |vs| ==> ws[i] == WordOf(vs[i], big)
  {
    seq(|vs|, i requires 0 <= i < |vs| => WordOf(vs[i], big))
  }

  // The kind with a number in the format.
  function KindNumbered(n: nat): Kind {
    match n
    case 1 => Int case 2 => Ptr case 3 => Array case 4 => Struct case 5 => Union case 6 => Enum
    case 7 => Fwd case 8 => Typedef case 9 => Volatile case 10 => Const case 11 => Restrict
    case 12 => Func case 13 => FuncProto case 14 => Var case 15 => Datasec case 16 => Float
    case _ => Unkn
  }

  // A signed number in 32 bits.
  function Unsigned(v: int): nat {
    v % U32_SIZE
  }

  function Signed(v: nat): int {
    if v < 0x8000_0000 then v else v - U32_SIZE
  }

  function EnumNumbers(es: seq<Enumerator>): seq<nat> {
    if es == [] then [] else [es[0].name, Unsigned(es[0].val)] + EnumNumbers(es[1..])
  }

  function MemberNumbers(ms: seq<Member>): seq<nat> {
    if ms == [] then [] else [ms[0].name, ms[0].typ, ms[0].offset] + MemberNumbers(ms[1..])
  }

  function ParamNumbers(ps: seq<Param>): seq<nat> {
    if ps == [] then [] else [ps[0].name, ps[0].typ] + ParamNumbers(ps[1..])
  }

  function SecInfoWords(ss: seq<SecInfo>): seq<nat> {
    if ss == [] then [] else [ss[0].typ, ss[0].offset, ss[0].size] + SecInfoWords(ss[1..])
  }

  // What follows the first three words of a type.
  function RestNumbers(r: Rest): seq<nat> {
    match r
    case Plain => []
    case IntBits(bits) => [bits]
    case Enumerators(es) => EnumNumbers(es)
    case ArrayOf(elem, index, nelems) => [elem, index, nelems]
    case Members(ms) => MemberNumbers(ms)
    case Params(ps) => ParamNumbers(ps)
    case Linkage(linkage) => [linkage]
    case SecInfos(ss) => SecInfoWords(ss)
  }

  function Numbers32(t: BtfType): seq<nat> {
    [t.name, InfoWord(t.info), t.sizeOrType] + RestNumbers(t.rest)
  }

  // A type of a known kind whose fields fit their words.
  predicate Fits(t: BtfType) {
    RestOk(t) && !t.info.kind.Unkn? && t.info.vlen < 0x1_0000 &&
    (t.rest.Enumerators? ==> forall e :: e in t.rest.enums ==> -0x8000_0000 <= e.val < 0x8000_0000) &&
    forall i :: 0 <= i < |Numbers32(t)| ==> Numbers32(t)[i] < U32_SIZE
  }

  // The words of a type in memory.
  function Written(t: BtfType, big: bool): (ws: seq<Word32>)
    requires Fits(t)
    ensures |ws| == |Numbers32(t)|
  {
    WordsOf(Numbers32(t), big)
  }

  lemma WrittenWord(t: BtfType, big: bool, i: nat)
    requires Fits(t) && i < |Numbers32(t)|
    ensures Val(Written(t, big)[i], big) == Numbers32(t)[i]
  {
    WordIsRead(Numbers32(t)[i], big);
  }

  // The parts of an info word.
  lemma InfoIsRead(i: Info, big: bool)
    requires i.vlen < 0x1_0000
    ensures InfoWord(i) < U32_SIZE
    ensures var w := WordOf(InfoWord(i), big);
            KindOf(w, big) == KindCode(i.kind) && VlenOf(w, big) == i.vlen &&
            ((if big then w.b0 else w.b3) >= 128 <==> i.kflag)
  {
    var code := KindCode(i.kind);
    assert code <= 16;
    hide KindCode;
    var top := code + if i.kflag then 128 else 0;
    InfoParts(i.vlen, top, InfoWord(i));
    assert top % 32 == code;
  }

  lemma InfoParts(vlen: nat, top: nat, n: nat)
    requires vlen < 0x1_0000 && n == vlen + 0x100_0000 * top
    ensures n / 256 / 256 / 256 == top && n % 256 + 256 * (n / 256 % 256) == vlen
  {
    var a, b := vlen % 256, vlen / 256;
    DividedBy256(n, b + 0x1_0000 * top, a);
    DividedBy256(b + 0x1_0000 * top, 256 * top, b);
    DividedBy256(256 * top, top, 0);
  }

  lemma DividedBy256(n: nat, q: nat, r: nat)
    requires n == 256 * q + r && r < 256
    ensures n / 256 == q && n % 256 == r
  {
  }

  lemma NumbersLength(r: Rest)
    ensures |RestNumbers(r)| ==
            match r
            case Plain => 0
            case IntBits(_) => 1
            case Linkage(_) => 1
            case ArrayOf(_, _, _) => 3
            case Enumerators(es) => 2 * |es|
            case Params(ps) => 2 * |ps|
            case Members(ms) => 3 * |ms|
            case SecInfos(ss) => 3 * |ss|
  {
    match r
    case Enumerators(es) => EnumLength(es);
    case Params(ps) => ParamLength(ps);
    case Members(ms) => MemberLength(ms);
    case SecInfos(ss) => SecInfoLength(ss);
    case _ =>
  }

  lemma EnumLength(es: seq<Enumerator>)
    ensures |EnumNumbers(es)| == 2 * |es|
  {
  }

  lemma ParamLength(ps: seq<Param>)
    ensures |ParamNumbers(ps)| == 2 * |ps|
  {
  }

  lemma MemberLength(ms: seq<Member>)
    ensures |MemberNumbers(ms)| == 3 * |ms|
  {
  }

  lemma SecInfoLength(ss: seq<SecInfo>)
    ensures |SecInfoWords(ss)| == 3 * |ss|
  {
  }

  lemma WrittenInfo(t: BtfType, big: bool)
    requires Fits(t)
    ensures |Written(t, big)| >= 3 && InfoWord(t.info) < U32_SIZE && Written(t, big)[1] == WordOf(InfoWord(t.info), big)
  {
    hide RestNumbers, WordOf, RestOk;
    assert Numbers32(t)[1] == InfoWord(t.info);
  }

  // What the parser takes for the size of a type is its size.
  lemma WrittenIsRecord(t: BtfType, big: bool)
    requires Fits(t)
    ensures IsRecord(Written(t, big), big)
  {
    WrittenInfo(t, big);
    InfoIsRead(t.info, big);
    NumbersLength(t.rest);
    hide WordOf, InfoWord, KindOf, VlenOf, RestNumbers, Written;
    KindRestWords(t, Written(t, big)[1], big);
  }

  lemma KindRestWords(t: BtfType, info: Word32, big: bool)
    requires RestOk(t) && !t.info.kind.Unkn?
    requires KindOf(info, big) == KindCode(t.info.kind) && VlenOf(info, big) == t.info.vlen
    ensures RestWords(info, big) == Some(|RestNumbers(t.rest)|)
  {
    NumbersLength(t.rest);
    hide KindOf, VlenOf, RestNumbers;
  }

  predicate AllFit(ts: seq<BtfType>) {
    forall i :: 0 <= i < |ts| ==> Fits(ts[i])
  }

  // A section: the types one behind the other.
  function Section(ts: seq<BtfType>, big: bool): seq<Word32>
    requires AllFit(ts)
  {
    if ts == [] then [] else Section(ts[..|ts| - 1], big) + Written(ts[|ts| - 1], big)
  }

  // Where each type starts.
  function Starts(ts: seq<BtfType>, big: bool): (r: seq<nat>)
    requires AllFit(ts)
    ensures |r| == |ts| && forall i :: 0 <= i < |ts| ==> r[i] == |Section(ts[..i], big)|
  {
    seq(|ts|, i requires 0 <= i < |ts| => |Section(ts[..i], big)|)
  }

  lemma SectionSnoc(ts: seq<BtfType>, big: bool, n: nat)
    requires AllFit(ts) && n < |ts|
    ensures Section(ts[..n + 1], big) == Section(ts[..n], big) + Written(ts[n], big)
  {
    hide Fits, Written;
    assert ts[..n + 1][..n] == ts[..n];
  }

  // The parser finds exactly the types that were written.
  lemma {:induction false} SectionIsIndexed(ts: seq<BtfType>, big: bool)
    requires AllFit(ts)
    ensures Index(Section(ts, big), big, 0) == Some(Starts(ts, big))
    decreases |ts|
  {
    hide Index, IsRecord, Fits, Written;
    if ts == [] {
      IndexFails(Section(ts, big), big, 0);
    } else {
      var n := |ts| - 1;
      SectionIsIndexed(ts[..n], big);
      WrittenIsRecord(ts[n], big);
      IndexAppends(Section(ts[..n], big), big, 0, Written(ts[n], big));
      StartsSnoc(ts, big);
    }
  }

  lemma StartsSnoc(ts: seq<BtfType>, big: bool)
    requires AllFit(ts) && ts != []
    ensures var n := |ts| - 1; Starts(ts, big) == Starts(ts[..n], big) + [|Section(ts[..n], big)|]
  {
    hide Fits, Section;
    var n := |ts| - 1;
    forall i | 0 <= i < n ensures Starts(ts, big)[i] == Starts(ts[..n], big)[i] {
      assert ts[..n][..i] == ts[..i];
    }
  }

  lemma {:induction false} SectionHead(ts: seq<BtfType>, big: bool)
    requires AllFit(ts) && ts != []
    ensures Section(ts, big) == Written(ts[0], big) + Section(ts[1..], big)
    decreases |ts|
  {
    hide AllFit, Written, Section;
    var n := |ts| - 1;
    PartsFit(ts);
    if n == 0 {
      SectionSnoc(ts, big, 0);
      NoSection(big);
      assert ts[..1] == ts && ts[..0] == [] && ts[1..] == [];
    } else {
      SectionHead(ts[..n], big);
      HeadOfLonger(ts, big, Section(ts[..n], big), Section(ts[..n][1..], big));
    }
  }

  lemma HeadOfLonger(ts: seq<BtfType>, big: bool, init: seq<Word32>, middle: seq<Word32>)
    requires AllFit(ts) && |ts| >= 2
    requires var n := |ts| - 1;
             AllFit(ts[..n]) && AllFit(ts[..n][1..]) && AllFit(ts[1..]) &&
             init == Section(ts[..n], big) && middle == Section(ts[..n][1..], big) && init == Written(ts[0], big) + middle
    ensures Section(ts, big) == Written(ts[0], big) + Section(ts[1..], big)
  {
    hide AllFit, Written, Section;
    var n := |ts| - 1;
    PartsFit(ts);
    SectionSnoc(ts, big, n);
    SectionSnoc(ts[1..], big, n - 1);
    assert ts[..n + 1] == ts && ts[1..][..n] == ts[1..] && ts[..n][1..] == ts[1..][..n - 1];
    Associates(Written(ts[0], big), middle, Written(ts[n], big));
  }

  lemma Associates(a: seq<Word32>, b: seq<Word32>, c: seq<Word32>)
    ensures (a + b) + c == a + (b + c)
  {
  }

  lemma PartsFit(ts: seq<BtfType>)
    requires AllFit(ts) && ts != []
    ensures var n := |ts| - 1; AllFit(ts[..n]) && AllFit(ts[1..]) && Fits(ts[0]) && Fits(ts[n])
    ensures |ts| >= 2 ==> AllFit(ts[..|ts| - 1][1..])
  {
    hide Fits;
  }

  lemma NoSection(big: bool)
    ensures Section([], big) == []
  {
  }

  function EnumsRead(vs: seq<nat>): seq<Enumerator> {
    if |vs| < 2 then [] else [Enumerator(vs[0], Signed(vs[1]))] + EnumsRead(vs[2..])
  }

  function MembersRead(vs: seq<nat>): seq<Member> {
    if |vs| < 3 then [] else [Member(vs[0], vs[1], vs[2])] + MembersRead(vs[3..])
  }

  function ParamsRead(vs: seq<nat>): seq<Param> {
    if |vs| < 2 then [] else [Param(vs[0], vs[1])] + ParamsRead(vs[2..])
  }

  function SecInfosRead(vs: seq<nat>): seq<SecInfo> {
    if |vs| < 3 then [] else [SecInfo(vs[0], vs[1], vs[2])] + SecInfosRead(vs[3..])
  }

  function RestRead(k: Kind, vs: seq<nat>): Rest {
    match k
    case Int => if |vs| < 1 then Plain else IntBits(vs[0])
    case Var => if |vs| < 1 then Plain else Linkage(vs[0])
    case Array => if |vs| < 3 then Plain else ArrayOf(vs[0], vs[1], vs[2])
    case Enum => Enumerators(EnumsRead(vs))
    case Struct => Members(MembersRead(vs))
    case Union => Members(MembersRead(vs))
    case FuncProto => Params(ParamsRead(vs))
    case Datasec => SecInfos(SecInfosRead(vs))
    case _ => Plain
  }

  function Numbers(ws: seq<Word32>, big: bool): (vs: seq<nat>)
    ensures |vs| == |ws|
  {
    seq(|ws|, i requires 0 <= i < |ws| => Val(ws[i], big))
  }

  // The type that some words hold.
  function Read(ws: seq<Word32>, big: bool): BtfType {
    if |ws| < 3 then VOID
    else
      var kind := KindNumbered(KindOf(ws[1], big));
      BtfType(Val(ws[0], big), Info(kind, VlenOf(ws[1], big), (if big then ws[1].b0 else ws[1].b3) >= 128),
              Val(ws[2], big), RestRead(kind, Numbers(ws[3..], big)))
  }

  lemma {:induction false} EnumsAreRead(es: seq<Enumerator>, vs: seq<nat>)
    requires vs == EnumNumbers(es) && forall e :: e in es ==> -0x8000_0000 <= e.val < 0x8000_0000
    ensures EnumsRead(vs) == es
    decreases |es|
  {
    if es != [] {
      assert vs[2..] == EnumNumbers(es[1..]);
      EnumsAreRead(es[1..], vs[2..]);
      assert es[0] in es;
    }
  }

  lemma {:induction false} MembersAreRead(ms: seq<Member>, vs: seq<nat>)
    requires vs == MemberNumbers(ms)
    ensures MembersRead(vs) == ms
    decreases |ms|
  {
    if ms != [] {
      assert vs[3..] == MemberNumbers(ms[1..]);
      MembersAreRead(ms[1..], vs[3..]);
    }
  }

  lemma {:induction false} ParamsAreRead(ps: seq<Param>, vs: seq<nat>)
    requires vs == ParamNumbers(ps)
    ensures ParamsRead(vs) == ps
    decreases |ps|
  {
    if ps != [] {
      assert vs[2..] == ParamNumbers(ps[1..]);
      ParamsAreRead(ps[1..], vs[2..]);
    }
  }

  lemma {:induction false} SecInfosAreRead(ss: seq<SecInfo>, vs: seq<nat>)
    requires vs == SecInfoWords(ss)
    ensures SecInfosRead(vs) == ss
    decreases |ss|
  {
    if ss != [] {
      assert vs[3..] == SecInfoWords(ss[1..]);
      SecInfosAreRead(ss[1..], vs[3..]);
    }
  }

  lemma RestIsRead(t: BtfType, vs: seq<nat>)
    requires RestOk(t) && vs == RestNumbers(t.rest)
    requires t.rest.Enumerators? ==> forall e :: e in t.rest.enums ==> -0x8000_0000 <= e.val < 0x8000_0000
    ensures RestRead(t.info.kind, vs) == t.rest
  {
    match t.rest
    case Enumerators(es) => EnumsAreRead(es, vs);
    case Members(ms) => MembersAreRead(ms, vs);
    case Params(ps) => ParamsAreRead(ps, vs);
    case SecInfos(ss) => SecInfosAreRead(ss, vs);
    case _ =>
  }

  lemma NumbersOfWritten(t: BtfType, big: bool)
    requires Fits(t)
    ensures |Written(t, big)| >= 3 && Numbers(Written(t, big)[3..], big) == RestNumbers(t.rest)
    ensures Val(Written(t, big)[0], big) == t.name && Val(Written(t, big)[2], big) == t.sizeOrType
  {
    hide Val, Written, WordOf, RestNumbers, InfoWord, Fits;
    var ws := Written(t, big);
    forall i | 0 <= i < |ws| ensures Val(ws[i], big) == Numbers32(t)[i] {
      WrittenWord(t, big, i);
    }
    assert forall i :: 0 <= i < |ws| - 3 ==> Numbers32(t)[3 + i] == RestNumbers(t.rest)[i];
  }

  lemma KindBack(k: Kind)
    ensures KindNumbered(KindCode(k)) == k
  {
  }

  // A type is read back as it was written.
  lemma ReadBack(t: BtfType, big: bool)
    requires Fits(t)
    ensures Read(Written(t, big), big) == t
  {
    var ws := Written(t, big);
    WrittenInfo(t, big);
    InfoIsRead(t.info, big);
    NumbersOfWritten(t, big);
    KindBack(t.info.kind);
    hide KindCode, KindNumbered, Val, Written, WordOf, KindOf, VlenOf, InfoWord, RestNumbers, RestRead, Numbers;
    RestIsRead(t, Numbers(ws[3..], big));
    hide RestOk;
  }

  // The types of a section are read back.
  lemma {:induction false} SectionIsRead(ts: seq<BtfType>, big: bool)
    requires AllFit(ts)
    ensures Index(Section(ts, big), big, 0).Some?
    ensures RecordsFrom(Section(ts, big), big, 0, ws => Read(ws, big)) == ts
    decreases |ts|
  {
    hide Index, RecordsFrom, Fits, Written, Read, IsRecord;
    if ts == [] {
      NoRecord(Section(ts, big), big, ws => Read(ws, big));
    } else {
      SectionIsRead(ts[1..], big);
      SectionHead(ts, big);
      WrittenIsRecord(ts[0], big);
      ReadBack(ts[0], big);
      InFront(Written(ts[0], big), Section(ts[1..], big), big, ws => Read(ws, big));
    }
  }

  // Records in front of a section do not matter for what is kept of it.
  lemma {:induction false} KeptBehind(r: seq<Word32>, rest: seq<Word32>, big: bool, at: nat, keep: seq<bool>)
    requires at <= |rest| && Index(rest, big, at).Some? && |Index(rest, big, at).value| == |keep|
    ensures Index(r + rest, big, |r| + at).Some? && |Index(r + rest, big, |r| + at).value| == |keep|
    ensures KeptWords(r + rest, big, |r| + at, keep) == KeptWords(rest, big, at, keep)
    decreases |keep|
  {
    hide RestWords, Index, RecordsFrom, IsRecord, SizeAt;
    var all := r + rest;
    Behind(r, rest, big, at, _ => 0);
    if keep != [] {
      KeptStep(rest, big, at, Index(rest, big, at).value, keep);
      KeptStep(all, big, |r| + at, Index(all, big, |r| + at).value, keep);
      assert all[|r| + at + 1] == rest[at + 1];
      SizeIs(rest, big, at);
      SizeIs(all, big, |r| + at);
      var size := SizeAt(rest, big, at);
      SliceBehind(r, rest, at, size);
      hide KeptWords;
      KeptBehind(r, rest, big, at + size, keep[1..]);
    }
  }

  lemma {:induction false} SelectedFit(ts: seq<BtfType>, keep: seq<bool>)
    requires AllFit(ts) && |ts| == |keep|
    ensures AllFit(Selected(ts, keep))
    decreases |ts|
  {
    hide Fits;
    if ts != [] {
      SelectedFit(ts[..|ts| - 1], keep[..|ts| - 1]);
    }
  }

  // Keeping some of the records of a section leaves the section of those types.
  lemma {:induction false} KeptOfSection(ts: seq<BtfType>, big: bool, keep: seq<bool>)
    requires AllFit(ts) && |ts| == |keep|
    ensures AllFit(Selected(ts, keep))
    ensures Index(Section(ts, big), big, 0).Some? && |Index(Section(ts, big), big, 0).value| == |keep|
    ensures KeptWords(Section(ts, big), big, 0, keep) == Section(Selected(ts, keep), big)
    decreases |ts|
  {
    SectionIsIndexed(ts, big);
    SelectedFit(ts, keep);
    if ts != [] {
      PartsFit(ts);
      KeptOfSection(ts[1..], big, keep[1..]);
      KeptOfLonger(ts, big, keep);
    }
  }

  lemma KeptOfLonger(ts: seq<BtfType>, big: bool, keep: seq<bool>)
    requires AllFit(ts) && |ts| == |keep| >= 1 && Fits(ts[0]) && AllFit(ts[1..])
    requires AllFit(Selected(ts, keep)) && AllFit(Selected(ts[1..], keep[1..]))
    requires Index(Section(ts, big), big, 0).Some? && |Index(Section(ts, big), big, 0).value| == |keep|
    requires Index(Section(ts[1..], big), big, 0).Some? && |Index(Section(ts[1..], big), big, 0).value| == |keep| - 1
    requires KeptWords(Section(ts[1..], big), big, 0, keep[1..]) == Section(Selected(ts[1..], keep[1..]), big)
    ensures KeptWords(Section(ts, big), big, 0, keep) == Section(Selected(ts, keep), big)
  {
    hide AllFit, Fits, Section, Written, Index, KeptWords, Selected, RestWords, SizeAt;
    var r, rest := Written(ts[0], big), Section(ts[1..], big);
    SectionHead(ts, big);
    WrittenIsRecord(ts[0], big);
    KeptFront(r, rest, big, keep);
    SelectedHead(ts, keep);
    if keep[0] {
      var sel := Selected(ts, keep);
      assert sel[1..] == Selected(ts[1..], keep[1..]);
      SectionHead(sel, big);
    } else {
      assert Selected(ts, keep) == Selected(ts[1..], keep[1..]);
    }
  }

  lemma KeptFront(r: seq<Word32>, rest: seq<Word32>, big: bool, keep: seq<bool>)
    requires IsRecord(r, big) && keep != []
    requires Index(rest, big, 0).Some? && |Index(rest, big, 0).value| == |keep| - 1
    requires Index(r + rest, big, 0).Some? && |Index(r + rest, big, 0).value| == |keep|
    ensures KeptWords(r + rest, big, 0, keep) == (if keep[0] then r else []) + KeptWords(rest, big, 0, keep[1..])
  {
    hide RestWords, Index, KeptWords;
    var all := r + rest;
    KeptStep(all, big, 0, Index(all, big, 0).value, keep);
    assert all[1] == r[1];
    SizeIs(all, big, 0);
    assert all[0..|r|] == r;
    KeptBehind(r, rest, big, 0, keep[1..]);
  }

  // If the section holds the types, then after compaction it holds the compacted types: the words that
  // are kept are those of the types that are kept.
  lemma SectionIsCompacted(big: bool, m: seq<nat>, was: seq<BtfType>, ts: seq<BtfType>, news: seq<nat>, nr: nat)
    requires |m| >= 1 && Compacted(was, m, ts, news, |m|, nr) && AllFit(was[1..])
    ensures 1 <= nr <= |ts| && AllFit(ts[1..nr]) && Index(Section(was[1..], big), big, 0).Some?
    ensures |Index(Section(was[1..], big), big, 0).value| == |m| - 1
    ensures KeptWords(Section(was[1..], big), big, 0, CanonicalFlags(m)) == Section(ts[1..nr], big)
  {
    hide Index, KeptWords, Section, AllFit, Fits;
    KeptOfSection(was[1..], big, CanonicalFlags(m));
    SelectedIsCompacted(m, was, ts, news, nr);
  }

  lemma SelectedIsCompacted(m: seq<nat>, was: seq<BtfType>, ts: seq<BtfType>, news: seq<nat>, nr: nat)
    requires |m| >= 1 && Compacted(was, m, ts, news, |m|, nr)
    ensures 1 <= nr <= |ts| && Selected(was[1..], CanonicalFlags(m)) == ts[1..nr]
  {
    SelectedKept(was[1..], m, |m|);
    var n := |m| - 1;
    assert was[1..][..n] == was[1..] && CanonicalFlags(m)[..n] == CanonicalFlags(m);
    var sel := Selected(was[1..], CanonicalFlags(m));
    hide Selected, CanonicalFlags;
    forall j | 0 <= j < |sel| ensures sel[j] == ts[1..nr][j] {
      assert sel[j] == was[1..][Kept(m, |m|)[j + 1] - 1];
      assert ts[j + 1] == was[Kept(m, |m|)[j + 1]];
    }
  }

  // The header describes a section of the types and the strings, laid out back to back.
  predicate Describes(b: Btf, ts: seq<BtfType>, big: bool)
    requires AllFit(ts)
  {
    b.words == Section(ts, big) && b.offs == Starts(ts, big) && IsMagic(b.hdr.m0, b.hdr.m1, big) &&
    Val(b.hdr.hdrLen, big) == HDR_LEN + |b.more| &&
    Val(b.hdr.typeOff, big) == 0 && Val(b.hdr.typeLen, big) == 4 * |b.words| &&
    Val(b.hdr.strOff, big) == 4 * |b.words| && Val(b.hdr.strLen, big) == |b.strs| && StringsOk(b.strs)
  }

  // Types written to an image of either byte order and parsed again are the same types, each found
  // where it was written.
  lemma TypesRoundTrip(b: Btf, ts: seq<BtfType>, swap: bool, big: bool)
    requires AllFit(ts) && Describes(b, ts, big) && (swap ==> b.more == [])
    ensures var r := Decode(Encode(b, swap), big);
            r.Some? && r.value.offs == Starts(ts, big) && r.value.strs == b.strs &&
            Index(r.value.words, big, 0).Some? &&
            RecordsFrom(r.value.words, big, 0, ws => Read(ws, big)) == ts
  {
    hide Index, RecordsFrom, Section, Fits, Decode, Encode, IsMagic, Val, StringsOk, Read;
    SectionIsIndexed(ts, big);
    SectionIsRead(ts, big);
    RoundTrip(b, swap, big);
  }
}
