// A BTF image as bytes: the parser, which turns an image of either byte order into the host's,
// and the writer, which produces one in either byte order.

module BtfFile {
  import opened Checksum

  const BTF_MAGIC: nat := 0xeb9f
  const BTF_MAX_STR_OFFSET: nat := 0x7fff_ffff
  const HDR_LEN: nat := 24
  const EINVAL: int := 22
  const ENOTSUP: int := 95

  // The four bytes of a 32-bit word in memory.
  datatype Word32 = Word32(b0: Byte, b1: Byte, b2: Byte, b3: Byte)

  function Val(w: Word32, big: bool): nat {
    if big then 0x1_0000 * Word(w.b0, w.b1, true) + Word(w.b2, w.b3, true)
    else Word(w.b0, w.b1, false) + 0x1_0000 * Word(w.b2, w.b3, false)
  }

  function Swap(w: Word32): Word32 {
    Word32(w.b3, w.b2, w.b1, w.b0)
  }

  function SwapAll(ws: seq<Word32>): (r: seq<Word32>)
    ensures |r| == |ws|
  {
    seq(|ws|, i requires 0 <= i < |ws| => Swap(ws[i]))
  }

  function Bytes(ws: seq<Word32>): (bs: seq<Byte>)
    ensures |bs| == 4 * |ws|
  {
    if ws == [] then []
    else [ws[0].b0, ws[0].b1, ws[0].b2, ws[0].b3] + Bytes(ws[1..])
  }

  // Whole words only.
  function Words(bs: seq<Byte>): (ws: seq<Word32>)
    ensures |ws| == |bs| / 4
  {
    if |bs| < 4 then [] else [Word32(bs[0], bs[1], bs[2], bs[3])] + Words(bs[4..])
  }

  lemma {:induction false} WordsOfBytes(ws: seq<Word32>)
    ensures Words(Bytes(ws)) == ws
    decreases |ws|
  {
    if ws != [] {
      WordsOfBytes(ws[1..]);
      assert Bytes(ws)[4..] == Bytes(ws[1..]);
    }
  }

  datatype Header = Header(m0: Byte, m1: Byte, version: Byte, flags: Byte, hdrLen: Word32,
                           typeOff: Word32, typeLen: Word32, strOff: Word32, strLen: Word32)

  function SwapHeader(h: Header): Header {
    Header(h.m1, h.m0, h.version, h.flags, Swap(h.hdrLen),
           Swap(h.typeOff), Swap(h.typeLen), Swap(h.strOff), Swap(h.strLen))
  }

  function HeaderBytes(h: Header): (bs: seq<Byte>)
    ensures |bs| == HDR_LEN
  {
    [h.m0, h.m1, h.version, h.flags] + Bytes([h.hdrLen, h.typeOff, h.typeLen, h.strOff, h.strLen])
  }

  function HeaderOf(bs: seq<Byte>): Header
    requires |bs| >= HDR_LEN
  {
    Header(bs[0], bs[1], bs[2], bs[3], Word32(bs[4], bs[5], bs[6], bs[7]), Word32(bs[8], bs[9], bs[10], bs[11]),
           Word32(bs[12], bs[13], bs[14], bs[15]), Word32(bs[16], bs[17], bs[18], bs[19]),
           Word32(bs[20], bs[21], bs[22], bs[23]))
  }

  lemma HeaderOfBytes(h: Header, more: seq<Byte>)
    ensures HeaderOf(HeaderBytes(h) + more) == h
  {
    var w := [h.hdrLen, h.typeOff, h.typeLen, h.strOff, h.strLen];
    assert Bytes(w) == [w[0].b0, w[0].b1, w[0].b2, w[0].b3] + Bytes(w[1..]);
    assert Bytes(w[1..]) == [w[1].b0, w[1].b1, w[1].b2, w[1].b3] + Bytes(w[2..]);
    assert Bytes(w[2..]) == [w[2].b0, w[2].b1, w[2].b2, w[2].b3] + Bytes(w[3..]);
    assert Bytes(w[3..]) == [w[3].b0, w[3].b1, w[3].b2, w[3].b3] + Bytes(w[4..]);
    assert Bytes(w[4..]) == [w[4].b0, w[4].b1, w[4].b2, w[4].b3] + Bytes([]);
  }

  // The kind and the element count in the `info` word of a type, as the host reads it.
  function KindOf(info: Word32, big: bool): nat {
    (if big then info.b0 else info.b3) % 32
  }

  function VlenOf(info: Word32, big: bool): nat {
    if big then Word(info.b2, info.b3, true) else Word(info.b0, info.b1, false)
  }

  datatype Option<T> = None | Some(value: T)

  // How many words follow the three of a type; none if the kind is unknown.
  function RestWords(info: Word32, big: bool): Option<nat> {
    var kind, vlen := KindOf(info, big), VlenOf(info, big);
    if kind in {7, 10, 9, 11, 2, 8, 12, 16} then Some(0)
    else if kind == 1 || kind == 14 then Some(1)
    else if kind == 3 then Some(3)
    else if kind == 6 || kind == 13 then Some(2 * vlen)
    else if kind in {4, 5, 15} then Some(3 * vlen)
    else None
  }

  // The word offsets of the types of a section from `at` on, if it is well formed.
  function Index(ws: seq<Word32>, big: bool, at: nat): Option<seq<nat>>
    decreases |ws| - at
  {
    if at + 3 > |ws| then (if at == |ws| then Some([]) else None)
    else
      match RestWords(ws[at + 1], big)
      case None => None
      case Some(n) =>
        if at + 3 + n > |ws| then None
        else
          match Index(ws, big, at + 3 + n)
          case None => None
          case Some(rest) => Some([at] + rest)
  }

  // A parsed BTF in the byte order of the host, with the byte order it came in. `more` is what a
  // header longer than the standard one holds.
  datatype Btf = Btf(hdr: Header, more: seq<Byte>, words: seq<Word32>, strs: seq<Byte>, offs: seq<nat>, swapped: bool)

  predicate IsMagic(m0: Byte, m1: Byte, big: bool) {
    Word(m0, m1, big) == BTF_MAGIC
  }

  predicate StringsOk(strs: seq<Byte>) {
    strs != [] && |strs| - 1 <= BTF_MAX_STR_OFFSET && strs[|strs| - 1] == 0 && strs[0] == 0
  }

  // The header in the host's order, if the image is one that can be read.
  function NativeHeader(raw: seq<Byte>, big: bool): Option<(Header, bool)> {
    if |raw| < HDR_LEN then None
    else
      var h := HeaderOf(raw);
      if IsMagic(h.m1, h.m0, big) then
        (if Val(Swap(h.hdrLen), big) != HDR_LEN then None else Some((SwapHeader(h), true)))
      else if IsMagic(h.m0, h.m1, big) then Some((h, false))
      else None
  }

  // The sections lie within the image, the types before the strings.
  predicate SectionsOk(h: Header, size: nat, big: bool) {
    size >= HDR_LEN &&
    Val(h.strOff, big) + Val(h.strLen, big) <= size - HDR_LEN &&
    Val(h.typeOff, big) + Val(h.typeLen, big) <= Val(h.strOff, big) &&
    Val(h.typeOff, big) % 4 == 0 &&
    Val(h.hdrLen, big) + Val(h.strOff, big) + Val(h.strLen, big) <= size
  }

  const U32_SIZE: nat := 0x1_0000_0000

  // What the parser checks: sums of 32 bits, and a header of the standard length.
  predicate Passes(h: Header, size: nat, big: bool)
    requires size >= HDR_LEN
  {
    (Val(h.strOff, big) + Val(h.strLen, big)) % U32_SIZE <= size - HDR_LEN &&
    (Val(h.typeOff, big) + Val(h.typeLen, big)) % U32_SIZE <= Val(h.strOff, big) &&
    Val(h.typeOff, big) % 4 == 0
  }

  // Offsets and lengths do not overflow 32 bits when added up.
  predicate SumsFit(h: Header, big: bool) {
    Val(h.strOff, big) + Val(h.strLen, big) < U32_SIZE && Val(h.typeOff, big) + Val(h.typeLen, big) < U32_SIZE
  }

  // The check is right if and only if the sums fit and the strings end within the image.
  lemma PassesExactly(h: Header, size: nat, big: bool)
    requires HDR_LEN <= size < U32_SIZE
    ensures SectionsOk(h, size, big) <==>
            Passes(h, size, big) && SumsFit(h, big) &&
            Val(h.hdrLen, big) + Val(h.strOff, big) + Val(h.strLen, big) <= size
    ensures Val(h.hdrLen, big) <= HDR_LEN ==> (SectionsOk(h, size, big) <==> Passes(h, size, big) && SumsFit(h, big))
  {
    hide Val;
  }

  // A word that a host of either byte order reads as the given bytes, the least significant first.
  function Native(w: Word32, big: bool): Word32 {
    if big then Swap(w) else w
  }

  // Strings at 0xfffffff0 of length 0x20 pass in an image of 88 bytes, since 32 bits overflow.
  lemma OverflowPasses(m0: Byte, m1: Byte, big: bool)
    ensures var h := Header(m0, m1, 1, 0, Native(Word32(24, 0, 0, 0), big), Native(Word32(0, 0, 0, 0), big),
                            Native(Word32(0x10, 0, 0, 0), big), Native(Word32(0xf0, 0xff, 0xff, 0xff), big),
                            Native(Word32(0x20, 0, 0, 0), big));
            Val(h.hdrLen, big) == HDR_LEN && Passes(h, 88, big) && !SectionsOk(h, 88, big)
  {
  }

  // So do 64 bytes of strings behind a header of 32 bytes.
  lemma LongHeaderPasses(m0: Byte, m1: Byte, big: bool)
    ensures var h := Header(m0, m1, 1, 0, Native(Word32(32, 0, 0, 0), big), Native(Word32(0, 0, 0, 0), big),
                            Native(Word32(0, 0, 0, 0), big), Native(Word32(0, 0, 0, 0), big),
                            Native(Word32(64, 0, 0, 0), big));
            SumsFit(h, big) && Passes(h, 88, big) && !SectionsOk(h, 88, big)
  {
  }

  // What passes the check lies within the image, so that nothing outside is read.
  predicate Readable(raw: seq<Byte>, big: bool) {
    match NativeHeader(raw, big)
    case None => true
    case Some((h, _)) => Passes(h, |raw|, big) ==> SectionsOk(h, |raw|, big)
  }

  // The sections of an image, and what its header holds beyond the standard one.
  function StringsOf(raw: seq<Byte>, h: Header, big: bool): seq<Byte>
    requires SectionsOk(h, |raw|, big)
  {
    raw[Val(h.hdrLen, big) + Val(h.strOff, big)..][..Val(h.strLen, big)]
  }

  function TypesOf(raw: seq<Byte>, h: Header, big: bool): seq<Word32>
    requires SectionsOk(h, |raw|, big)
  {
    Words(raw[Val(h.hdrLen, big) + Val(h.typeOff, big)..][..Val(h.typeLen, big)])
  }

  function MoreOf(raw: seq<Byte>, h: Header, big: bool): seq<Byte>
    requires SectionsOk(h, |raw|, big)
  {
    if Val(h.hdrLen, big) > HDR_LEN then raw[HDR_LEN..Val(h.hdrLen, big)] else []
  }

  lemma TypesLength(raw: seq<Byte>, h: Header, big: bool)
    requires SectionsOk(h, |raw|, big)
    ensures |TypesOf(raw, h, big)| == Val(h.typeLen, big) / 4
  {
    hide Val, Words;
  }

  // What an image says, if it is well formed.
  function Decode(raw: seq<Byte>, big: bool): Option<Btf> {
    match NativeHeader(raw, big)
    case None => None
    case Some((h, swapped)) =>
      if !SectionsOk(h, |raw|, big) then None
      else
        var words := if swapped then SwapAll(TypesOf(raw, h, big)) else TypesOf(raw, h, big);
        if !StringsOk(StringsOf(raw, h, big)) || Val(h.typeLen, big) % 4 != 0 then None
        else
          match Index(words, big, 0)
          case None => None
          case Some(offs) => Some(Btf(h, MoreOf(raw, h, big), words, StringsOf(raw, h, big), offs, swapped))
  }

  lemma DecodeParts(raw: seq<Byte>, big: bool, h: Header, swapped: bool)
    requires NativeHeader(raw, big) == Some((h, swapped)) && SectionsOk(h, |raw|, big)
    ensures var words := if swapped then SwapAll(TypesOf(raw, h, big)) else TypesOf(raw, h, big);
            var offs := Index(words, big, 0);
            Decode(raw, big) ==
            if StringsOk(StringsOf(raw, h, big)) && Val(h.typeLen, big) % 4 == 0 && offs.Some?
            then Some(Btf(h, MoreOf(raw, h, big), words, StringsOf(raw, h, big), offs.value, swapped)) else None
  {
    hide Index, Val, StringsOf, TypesOf, MoreOf, StringsOk, SectionsOk, NativeHeader;
  }

  // The image of a BTF: header, types and strings, back to back.
  function Encode(b: Btf, swap: bool): seq<Byte> {
    HeaderBytes(if swap then SwapHeader(b.hdr) else b.hdr) + b.more +
    Bytes(if swap then SwapAll(b.words) else b.words) + b.strs
  }

  // A header that describes types and strings laid out back to back.
  predicate LaidOut(b: Btf, big: bool) {
    IsMagic(b.hdr.m0, b.hdr.m1, big) && Val(b.hdr.hdrLen, big) == HDR_LEN + |b.more| &&
    Val(b.hdr.typeOff, big) == 0 && Val(b.hdr.typeLen, big) == 4 * |b.words| &&
    Val(b.hdr.strOff, big) == 4 * |b.words| && Val(b.hdr.strLen, big) == |b.strs| &&
    StringsOk(b.strs) && Index(b.words, big, 0) == Some(b.offs)
  }

  lemma SwapAllTwice(ws: seq<Word32>)
    ensures SwapAll(SwapAll(ws)) == ws
  {
  }

  // The magic number tells the byte orders apart.
  lemma MagicIsOneSided(m0: Byte, m1: Byte, big: bool)
    requires IsMagic(m0, m1, big)
    ensures !IsMagic(m1, m0, big)
  {
  }

  // The header is read back in the host's order, together with the order it was written in, unless
  // it is long and in the other order.
  lemma HeaderReadBack(b: Btf, swap: bool, big: bool)
    requires LaidOut(b, big)
    ensures NativeHeader(Encode(b, swap), big) == if swap && b.more != [] then None else Some((b.hdr, swap))
  {
    hide Index, IsMagic, HeaderBytes, HeaderOf, Bytes, Val, SwapAll, StringsOk;
    var h := if swap then SwapHeader(b.hdr) else b.hdr;
    var rest := b.more + Bytes(if swap then SwapAll(b.words) else b.words) + b.strs;
    assert Encode(b, swap) == HeaderBytes(h) + rest;
    HeaderOfBytes(h, rest);
    hide Encode;
    MagicIsOneSided(b.hdr.m0, b.hdr.m1, big);
    SwapsBack(b.hdr.hdrLen);
  }

  lemma SwapsBack(w: Word32)
    ensures Swap(Swap(w)) == w
  {
  }

  // The parts are read back from their places.
  lemma SectionsReadBack(b: Btf, swap: bool)
    ensures var (raw, n, start) := (Encode(b, swap), 4 * |b.words|, HDR_LEN + |b.more|);
            |raw| == start + n + |b.strs| && raw[HDR_LEN..start] == b.more &&
            Words(raw[start..][..n]) == (if swap then SwapAll(b.words) else b.words) &&
            raw[start + n..][..|b.strs|] == b.strs
  {
    var ws := if swap then SwapAll(b.words) else b.words;
    WordsOfBytes(ws);
    Pieces(HeaderBytes(if swap then SwapHeader(b.hdr) else b.hdr), b.more, Bytes(ws), b.strs);
  }

  lemma Pieces(w: seq<Byte>, x: seq<Byte>, y: seq<Byte>, z: seq<Byte>)
    ensures var (all, n) := (w + x + y + z, |w| + |x|);
            all[|w|..n] == x && all[n..][..|y|] == y && all[n + |y|..][..|z|] == z
  {
  }

  // Writing a BTF in either byte order and parsing the image gives it back, except that an image with
  // a long header can only be parsed in the order of the host.
  lemma RoundTrip(b: Btf, swap: bool, big: bool)
    requires LaidOut(b, big)
    ensures Decode(Encode(b, swap), big) == if swap && b.more != [] then None else Some(b.(swapped := swap))
  {
    hide Index, StringsOk, IsMagic, Words, Encode, NativeHeader, Val, SwapAll;
    HeaderReadBack(b, swap, big);
    if !swap || b.more == [] {
      SectionsReadBack(b, swap);
      SwapAllTwice(b.words);
      DecodeParts(Encode(b, swap), big, b.hdr, swap);
      hide Decode;
    }
  }

  function Before(offs: seq<nat>, rest: Option<seq<nat>>): Option<seq<nat>> {
    match rest
    case None => None
    case Some(r) => Some(offs + r)
  }

  // The first n words are as they should become, the others as they were.
  ghost predicate NativeUpTo(was: seq<Word32>, native: seq<Word32>, now: seq<Word32>, n: nat) {
    |now| == |was| == |native| && n <= |was| &&
    forall i :: 0 <= i < |was| ==> now[i] == if i < n then native[i] else was[i]
  }

  lemma NativeThroughout(was: seq<Word32>, native: seq<Word32>, now: seq<Word32>)
    requires NativeUpTo(was, native, now, |now|)
    ensures now == native
  {
  }

  method SwapWord(ws: array<Word32>, i: nat)
    requires i < ws.Length
    modifies ws
    ensures ws[..] == old(ws[..])[i := Swap(old(ws[i]))]
  {
    ws[i] := Swap(ws[i]);
  }

  // Swaps the three words of struct btf_type.
  method SwapTypeBase(ws: array<Word32>, t: nat)
    requires t + 3 <= ws.Length
    modifies ws
    ensures forall i :: 0 <= i < ws.Length ==> ws[i] == if t <= i < t + 3 then Swap(old(ws[i])) else old(ws[i])
  {
    SwapWord(ws, t);
    SwapWord(ws, t + 1);
    SwapWord(ws, t + 2);
  }

  // Swaps what follows them; the info word must be in the host's order.
  method SwapTypeRest(ws: array<Word32>, t: nat, big: bool) returns (err: int)
    requires t + 3 <= ws.Length
    requires var n := RestWords(ws[t + 1], big); n.Some? ==> t + 3 + n.value <= ws.Length
    modifies ws
    ensures err == if RestWords(old(ws[t + 1]), big).Some? then 0 else -EINVAL
    ensures var n := if err == 0 then RestWords(old(ws[t + 1]), big).value else 0;
            forall i :: 0 <= i < ws.Length ==> ws[i] == if t + 3 <= i < t + 3 + n then Swap(old(ws[i])) else old(ws[i])
  {
    var kind, vlen := KindOf(ws[t + 1], big), VlenOf(ws[t + 1], big);
    if kind in {7, 10, 9, 11, 2, 8, 12, 16} {
      return 0;
    }
    if kind == 1 || kind == 14 {
      SwapWord(ws, t + 3);
      return 0;
    }
    if kind == 3 {
      SwapWord(ws, t + 3);
      SwapWord(ws, t + 4);
      SwapWord(ws, t + 5);
      return 0;
    }
    if kind == 6 || kind == 13 {
      SwapElements(ws, t + 3, vlen, 2);
      return 0;
    }
    if kind in {4, 5, 15} {
      SwapElements(ws, t + 3, vlen, 3);
      return 0;
    }
    return -EINVAL;
  }

  // Swaps `count` elements of two or three words each.
  method SwapElements(ws: array<Word32>, start: nat, count: nat, each: nat)
    requires 2 <= each <= 3 && start + each * count <= ws.Length
    modifies ws
    ensures forall i :: start <= i < start + each * count ==> ws[i] == Swap(old(ws[i]))
    ensures forall i :: 0 <= i < ws.Length && !(start <= i < start + each * count) ==> ws[i] == old(ws[i])
  {
    var at := start;
    for e := 0 to count
      invariant at == start + each * e <= start + each * count
      invariant forall i :: 0 <= i < ws.Length ==> ws[i] == if start <= i < at then Swap(old(ws[i])) else old(ws[i])
    {
      SwapWord(ws, at);
      SwapWord(ws, at + 1);
      if each == 3 {
        SwapWord(ws, at + 2);
      }
      at := at + each;
    }
  }

  class BtfImage {
    // The byte order of the host.
    const big: bool
    var hdr: Header
    var more: seq<Byte>
    var types: array<Word32>
    var strs: seq<Byte>
    var typeOffs: seq<nat>
    var swapped: bool

    ghost function View(): Btf
      reads this, types
    {
      Btf(hdr, more, types[..], strs, typeOffs, swapped)
    }

    constructor (big: bool)
      ensures this.big == big && fresh(types)
    {
      this.big := big;
      var zero := Word32(0, 0, 0, 0);
      hdr := Header(0, 0, 0, 0, zero, zero, zero, zero, zero);
      types := new Word32[0];
      more, strs, typeOffs, swapped := [], [], [], false;
    }

    // Reads an image.
    method Parse(raw: seq<Byte>) returns (err: int)
      requires |raw| < U32_SIZE && Readable(raw, big)
      modifies this
      ensures err in {0, -EINVAL, -ENOTSUP} && (err == 0 <==> Decode(raw, big).Some?)
      ensures err == 0 ==> View() == Decode(raw, big).value
    {
      err := ReadHeader(raw);
      if err != 0 {
        return;
      }
      err := CheckSections(|raw|);
      if err != 0 {
        return;
      }
      err := ParseSections(raw);
    }

    // Reads the header, swapped if its magic number says so.
    method ReadHeader(raw: seq<Byte>) returns (err: int)
      modifies this`hdr, this`swapped
      ensures err in {0, -EINVAL, -ENOTSUP} && (err == 0 <==> NativeHeader(raw, big).Some?)
      ensures err == 0 ==> NativeHeader(raw, big) == Some((hdr, swapped))
    {
      if |raw| < HDR_LEN {
        return -EINVAL;
      }
      hdr := HeaderOf(raw);
      swapped := false;
      if IsMagic(hdr.m1, hdr.m0, big) {
        swapped := true;
        if Val(Swap(hdr.hdrLen), big) != HDR_LEN {
          return -ENOTSUP;
        }
        hdr := SwapHeader(hdr);
      } else if !IsMagic(hdr.m0, hdr.m1, big) {
        return -EINVAL;
      }
      return 0;
    }

    // Checks that the sections lie within an image of a given size, with sums of 32 bits.
    method CheckSections(size: nat) returns (err: int)
      requires size >= HDR_LEN
      ensures err in {0, -EINVAL} && (err == 0 <==> Passes(hdr, size, big))
      ensures size < U32_SIZE ==>
                (SectionsOk(hdr, size, big) <==>
                   err == 0 && SumsFit(hdr, big) &&
                   Val(hdr.hdrLen, big) + Val(hdr.strOff, big) + Val(hdr.strLen, big) <= size)
    {
      hide Val;
      if size < U32_SIZE {
        PassesExactly(hdr, size, big);
      }
      hide SectionsOk;
      var strEnd, typeEnd := Val(hdr.strOff, big) + Val(hdr.strLen, big), Val(hdr.typeOff, big) + Val(hdr.typeLen, big);
      var metaLeft := size - HDR_LEN;
      if metaLeft < strEnd % U32_SIZE {
        return -EINVAL;
      }
      if typeEnd % U32_SIZE > Val(hdr.strOff, big) {
        return -EINVAL;
      }
      if Val(hdr.typeOff, big) % 4 != 0 {
        return -EINVAL;
      }
      return 0;
    }

    // Takes the strings and the types from their places in the image.
    method ParseSections(raw: seq<Byte>) returns (err: int)
      requires SectionsOk(hdr, |raw|, big) && NativeHeader(raw, big) == Some((hdr, swapped))
      modifies this`more, this`types, this`strs, this`typeOffs
      ensures err in {0, -EINVAL} && (err == 0 <==> Decode(raw, big).Some?)
      ensures err == 0 ==> View() == Decode(raw, big).value
    {
      hide NativeHeader, Val, SwapAll, Index, Decode, SectionsOk, StringsOk, StringsOf, MoreOf, TypesOf;
      DecodeParts(raw, big, hdr, swapped);
      TypesLength(raw, hdr, big);
      TakeSections(raw);
      if !StringsOk(strs) {
        return -EINVAL;
      }
      err := ParseTypeSec(Val(hdr.typeLen, big));
    }

    method TakeSections(raw: seq<Byte>)
      requires SectionsOk(hdr, |raw|, big)
      modifies this`more, this`types, this`strs, this`typeOffs
      ensures more == MoreOf(raw, hdr, big) && strs == StringsOf(raw, hdr, big) && types[..] == TypesOf(raw, hdr, big)
      ensures typeOffs == [] && fresh(types)
    {
      hide Val, Words;
      var start := Val(hdr.hdrLen, big);
      more := if start > HDR_LEN then raw[HDR_LEN..start] else [];
      strs := raw[start + Val(hdr.strOff, big)..][..Val(hdr.strLen, big)];
      var data := Words(raw[start + Val(hdr.typeOff, big)..][..Val(hdr.typeLen, big)]);
      types := new Word32[|data|](i requires 0 <= i < |data| => data[i]);
      typeOffs := [];
      assert types[..] == data;
    }

    // Writes an image in the host's byte order or the other one.
    method GetRawData(swap: bool) returns (data: seq<Byte>)
      requires Index(types[..], big, 0) == Some(typeOffs) && Val(hdr.hdrLen, big) == HDR_LEN + |more|
      ensures data == Encode(View(), swap)
    {
      var h := hdr;
      if swap {
        h := SwapHeader(h);
      }
      var words := WriteTypes(swap);
      data := HeaderBytes(h) + more + Bytes(words[..]) + strs;
    }

    // Walks over the type section, in place: brings each type into the host's order if need be,
    // and notes where it starts.
    method ParseTypeSec(typeLen: nat) returns (err: int)
      requires types.Length == typeLen / 4 && typeOffs == []
      modifies this`typeOffs, types
      ensures err in {0, -EINVAL}
      ensures var native := if swapped then SwapAll(old(types[..])) else old(types[..]);
              var index := Index(native, big, 0);
              (err == 0 <==> index.Some? && typeLen % 4 == 0) &&
              (err == 0 ==> types[..] == native && typeOffs == index.value)
    {
      err := ScanTypes(typeLen, types[..], if swapped then SwapAll(types[..]) else types[..]);
    }

    method ScanTypes(typeLen: nat, ghost was: seq<Word32>, ghost native: seq<Word32>) returns (err: int)
      requires types.Length == typeLen / 4 && typeOffs == [] && types[..] == was
      requires native == if swapped then SwapAll(was) else was
      modifies this`typeOffs, types
      ensures err in {0, -EINVAL} && (err == 0 <==> Index(native, big, 0).Some? && typeLen % 4 == 0)
      ensures err == 0 ==> types[..] == native && Index(native, big, 0) == Some(typeOffs)
    {
      hide RestWords, Index;
      assert NativeUpTo(was, native, types[..], 0);
      hide SwapAll, NativeUpTo;
      var next: nat := 0;
      assert Before(typeOffs, Index(native, big, 0)) == Index(native, big, 0) by {
        assert forall r: seq<nat> :: [] + r == r;
      }
      while 4 * (next + 3) <= typeLen
        invariant next <= types.Length == |was| == |native|
        invariant NativeUpTo(was, native, types[..], next)
        invariant Index(native, big, 0) == Before(typeOffs, Index(native, big, next))
        decreases types.Length - next
      {
        IndexFails(native, big, next);
        var size;
        err, size := ParseType(next, typeLen, was, native);
        if err != 0 {
          return;
        }
        IndexStep(native, big, next, typeOffs);
        typeOffs := typeOffs + [next];
        next := next + size;
      }
      IndexFails(native, big, next);
      if 4 * next != typeLen {
        return -EINVAL;
      }
      NativeThroughout(was, native, types[..]);
      assert typeOffs + [] == typeOffs;
      return 0;
    }

    // Brings the type at `next` into the host's order if need be, and gives back its size in words.
    method ParseType(next: nat, typeLen: nat, ghost was: seq<Word32>, ghost native: seq<Word32>) returns (err: int,
                     size: nat)
      requires types.Length == typeLen / 4 && next + 3 <= types.Length && NativeUpTo(was, native, types[..], next)
      requires native == if swapped then SwapAll(was) else was
      modifies types
      ensures err in {0, -EINVAL}
      ensures err == 0 <==> RestWords(native[next + 1], big).Some? &&
                            next + 3 + RestWords(native[next + 1], big).value <= types.Length
      ensures err == 0 ==> size == 3 + RestWords(native[next + 1], big).value &&
                           NativeUpTo(was, native, types[..], next + size)
    {
      size := 0;
      if swapped {
        SwapTypeBase(types, next);
      }
      assert types[next + 1] == native[next + 1];
      var rest := RestWords(types[next + 1], big);
      if rest.None? {
        return -EINVAL, 0;
      }
      if 4 * (next + 3 + rest.value) > typeLen {
        return -EINVAL, 0;
      }
      if swapped {
        err := SwapTypeRest(types, next, big);
        if err != 0 {
          return;
        }
      }
      return 0, 3 + rest.value;
    }

    // Copies the types and, for the other byte order, swaps the copy.
    method WriteTypes(swap: bool) returns (data: array<Word32>)
      requires Index(types[..], big, 0) == Some(typeOffs)
      ensures fresh(data) && data[..] == if swap then SwapAll(types[..]) else types[..]
    {
      data := new Word32[types.Length](i requires 0 <= i < types.Length reads this, types => types[i]);
      assert data[..] == types[..];
      if swap {
        SwapTypes(data);
      }
    }

    // Swaps a copy of the types, one after the other.
    method SwapTypes(data: array<Word32>)
      requires Index(data[..], big, 0) == Some(typeOffs)
      modifies data
      ensures data[..] == SwapAll(old(data[..]))
    {
      ghost var was := data[..];
      hide RestWords, Index;
      ghost var at: nat := 0;
      assert typeOffs[0..] == typeOffs;
      for i := 0 to |typeOffs|
        invariant at <= |was| == data.Length && Index(was, big, at) == Some(typeOffs[i..])
        invariant NativeUpTo(was, SwapAll(was), data[..], at)
      {
        hide NativeUpTo, SwapAll;
        NextType(was, big, at, typeOffs, i);
        SwapForWriting(data, typeOffs[i], was);
        at := at + 3 + RestWords(was[at + 1], big).value;
      }
      IndexHead(was, big, at, typeOffs[|typeOffs|..]);
      assert data[..] == SwapAll(was);
    }

    // Swaps a type's words after its first three while its info word can still be read, and then
    // those three.
    method SwapForWriting(data: array<Word32>, t: nat, ghost was: seq<Word32>)
      requires NativeUpTo(was, SwapAll(was), data[..], t) && t + 3 <= data.Length
      requires RestWords(was[t + 1], big).Some? && t + 3 + RestWords(was[t + 1], big).value <= data.Length
      modifies data
      ensures NativeUpTo(was, SwapAll(was), data[..], t + 3 + RestWords(was[t + 1], big).value)
    {
      assert data[t + 1] == was[t + 1];
      var err := SwapTypeRest(data, t, big);
      SwapTypeBase(data, t);
    }
  }

  lemma NextType(ws: seq<Word32>, big: bool, at: nat, offs: seq<nat>, i: nat)
    requires i < |offs| && Index(ws, big, at) == Some(offs[i..])
    ensures offs[i] == at && at + 3 <= |ws| && RestWords(ws[at + 1], big).Some?
    ensures var next := at + 3 + RestWords(ws[at + 1], big).value;
            next <= |ws| && Index(ws, big, next) == Some(offs[i + 1..])
  {
    hide RestWords, Index;
    IndexHead(ws, big, at, offs[i..]);
    assert offs[i..][1..] == offs[i + 1..];
  }

  lemma IndexStep(ws: seq<Word32>, big: bool, at: nat, offs: seq<nat>)
    requires at + 3 <= |ws| && RestWords(ws[at + 1], big).Some? && at + 3 + RestWords(ws[at + 1], big).value <= |ws|
    ensures Before(offs, Index(ws, big, at)) ==
            Before(offs + [at], Index(ws, big, at + 3 + RestWords(ws[at + 1], big).value))
  {
    var rest := Index(ws, big, at + 3 + RestWords(ws[at + 1], big).value);
    if rest.Some? {
      assert offs + ([at] + rest.value) == (offs + [at]) + rest.value;
    }
  }

  // Where a section is malformed, and where it ends.
  lemma IndexFails(ws: seq<Word32>, big: bool, at: nat)
    requires at <= |ws|
    ensures at + 3 > |ws| ==> Index(ws, big, at) == if at == |ws| then Some([]) else None
    ensures at + 3 <= |ws| && RestWords(ws[at + 1], big).None? ==> Index(ws, big, at) == None
    ensures at + 3 <= |ws| && RestWords(ws[at + 1], big).Some? && at + 3 + RestWords(ws[at + 1], big).value > |ws| ==>
              Index(ws, big, at) == None
  {
  }

  lemma IndexHead(ws: seq<Word32>, big: bool, at: nat, offs: seq<nat>)
    requires Index(ws, big, at) == Some(offs)
    ensures if offs == [] then at == |ws|
            else offs[0] == at && at + 3 <= |ws| && RestWords(ws[at + 1], big).Some? &&
                 at + 3 + RestWords(ws[at + 1], big).value <= |ws| &&
                 Index(ws, big, at + 3 + RestWords(ws[at + 1], big).value) == Some(offs[1..])
  {
  }
}
