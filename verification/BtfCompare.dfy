// Signature hashes and structural comparisons of BTF records. Hash arithmetic wraps
// around at 64 bits.

module BtfCompare {
  import opened BtfTypes

  const WORD: nat := 0x1_0000_0000_0000_0000

  function HashCombine(h: nat, value: int): nat {
    (h * 31 + value) % WORD
  }

  function KindCode(k: Kind): nat {
    match k
    case Unkn => 0 case Int => 1 case Ptr => 2 case Array => 3 case Struct => 4
    case Union => 5 case Enum => 6 case Fwd => 7 case Typedef => 8 case Volatile => 9
    case Const => 10 case Restrict => 11 case Func => 12 case FuncProto => 13
    case Var => 14 case Datasec => 15 case Float => 16
  }

  function InfoWord(i: Info): nat {
    i.vlen + 0x100_0000 * KindCode(i.kind) + if i.kflag then 0x8000_0000 else 0
  }

  function HashCommon(t: BtfType): nat {
    HashCombine(HashCombine(HashCombine(0, t.name), InfoWord(t.info)), t.sizeOrType)
  }

  function HashMembers(h: nat, ms: seq<Member>): nat {
    if ms == [] then h else
    var m := ms[|ms| - 1];
    HashCombine(HashCombine(HashMembers(h, ms[..|ms| - 1]), m.name), m.offset)
  }

  function HashParams(h: nat, ps: seq<Param>): nat {
    if ps == [] then h else
    var p := ps[|ps| - 1];
    HashCombine(HashCombine(HashParams(h, ps[..|ps| - 1]), p.name), p.typ)
  }

  // The signature under which a record is filed in the table of canonical types.
  function HashOf(t: BtfType): nat
    requires RestOk(t)
  {
    match t.info.kind
    case Int => HashCombine(HashCommon(t), t.rest.bits)
    // vlen and enumerators are left out so that an enum forward declaration finds its definition
    case Enum => HashCombine(HashCombine(HashCombine(0, t.name), InfoWord(t.info.(vlen := 0))), t.sizeOrType)
    case Struct => HashMembers(HashCommon(t), t.rest.members)
    case Union => HashMembers(HashCommon(t), t.rest.members)
    case Array =>
      HashCombine(HashCombine(HashCombine(HashCommon(t), t.rest.elem), t.rest.index), t.rest.nelems)
    case FuncProto => HashParams(HashCommon(t), t.rest.params)
    case _ => HashCommon(t)
  }

  lemma {:induction false} HashMembersIgnoresTypes(h: nat, ms: seq<Member>, ns: seq<Member>)
    requires |ms| == |ns| && forall i :: 0 <= i < |ms| ==> ms[i].(typ := 0) == ns[i].(typ := 0)
    ensures HashMembers(h, ms) == HashMembers(h, ns)
  {
    if ms != [] {
      var k := |ms| - 1;
      assert ms[k].(typ := 0) == ns[k].(typ := 0);
      HashMembersIgnoresTypes(h, ms[..k], ns[..k]);
    }
  }

  // Composites that differ only in the types of their members share a hash.
  lemma CompositeHashIgnoresRefs(t: BtfType, u: BtfType)
    requires RestOk(t) && RestOk(u) && t.IsComposite() && Shape(t) == Shape(u)
    ensures HashOf(t) == HashOf(u)
  {
    var z, w := ZeroRest(t.rest).members, ZeroRest(u.rest).members;
    forall i | 0 <= i < |z| ensures t.rest.members[i].(typ := 0) == u.rest.members[i].(typ := 0) {
      assert z[i] == w[i];
    }
    HashMembersIgnoresTypes(HashCommon(t), t.rest.members, u.rest.members);
  }

  method HashStruct(t: BtfType) returns (h: nat)
    requires RestOk(t) && t.IsComposite()
    ensures h == HashOf(t)
  {
    var ms := t.rest.members;
    h := HashCommon(t);
    for i := 0 to t.info.vlen
      invariant h == HashMembers(HashCommon(t), ms[..i])
    {
      assert ms[..i + 1][..i] == ms[..i];
      h := HashCombine(h, ms[i].name);
      h := HashCombine(h, ms[i].offset);
    }
    assert ms[..t.info.vlen] == ms;
  }

  method HashFnproto(t: BtfType) returns (h: nat)
    requires RestOk(t) && t.info.kind.FuncProto?
    ensures h == HashOf(t)
  {
    var ps := t.rest.params;
    h := HashCommon(t);
    for i := 0 to t.info.vlen
      invariant h == HashParams(HashCommon(t), ps[..i])
    {
      assert ps[..i + 1][..i] == ps[..i];
      h := HashCombine(h, ps[i].name);
      h := HashCombine(h, ps[i].typ);
    }
    assert ps[..t.info.vlen] == ps;
  }

  method HashReference(t: BtfType) returns (h: nat)
    requires RestOk(t) && t.IsReference()
    ensures h == HashOf(t)
  {
    if t.info.kind.FuncProto? {
      h := HashFnproto(t);
    } else {
      h := HashOf(t);
    }
  }

  predicate EqualCommon(t1: BtfType, t2: BtfType) {
    t1.name == t2.name && t1.info == t2.info && t1.sizeOrType == t2.sizeOrType
  }

  predicate EqualInt(t1: BtfType, t2: BtfType)
    requires RestOk(t1) && RestOk(t2) && t1.info.kind.Int?
  {
    EqualCommon(t1, t2) && t1.rest.bits == t2.rest.bits
  }

  predicate EqualArray(t1: BtfType, t2: BtfType)
    requires RestOk(t1) && RestOk(t2) && t1.info.kind.Array?
  {
    EqualCommon(t1, t2) && t1.rest.elem == t2.rest.elem && t1.rest.index == t2.rest.index &&
    t1.rest.nelems == t2.rest.nelems
  }

  predicate CompatArray(t1: BtfType, t2: BtfType)
    requires RestOk(t1) && RestOk(t2) && t1.info.kind.Array?
  {
    EqualCommon(t1, t2) && t1.rest.nelems == t2.rest.nelems
  }

  method EqualEnum(t1: BtfType, t2: BtfType) returns (eq: bool)
    requires RestOk(t1) && RestOk(t2) && t1.info.kind.Enum?
    ensures eq <==> t1 == t2
  {
    if !EqualCommon(t1, t2) {
      return false;
    }
    var m1, m2 := t1.rest.enums, t2.rest.enums;
    for i := 0 to t1.info.vlen
      invariant m1[..i] == m2[..i]
    {
      if m1[i].name != m2[i].name || m1[i].val != m2[i].val {
        return false;
      }
    }
    assert m1 == m1[..t1.info.vlen] && m2 == m2[..t1.info.vlen];
    return true;
  }

  // An enum without enumerators stands for any enum of its name and size.
  predicate EnumsAgree(t1: BtfType, t2: BtfType) {
    t1.name == t2.name && t1.info.(vlen := 0) == t2.info.(vlen := 0) && t1.sizeOrType == t2.sizeOrType
  }

  lemma EnumsAgreeSymmetric(t1: BtfType, t2: BtfType)
    ensures EnumsAgree(t1, t2) <==> EnumsAgree(t2, t1)
  {
  }

  method CompatEnum(t1: BtfType, t2: BtfType) returns (eq: bool)
    requires RestOk(t1) && RestOk(t2) && t1.info.kind.Enum?
    ensures eq <==> if t1.IsEnumFwd() || t2.IsEnumFwd() then EnumsAgree(t1, t2) else t1 == t2
  {
    if !t1.IsEnumFwd() && !t2.IsEnumFwd() {
      eq := EqualEnum(t1, t2);
      return;
    }
    return EnumsAgree(t1, t2);
  }

  method ShallowEqualStruct(t1: BtfType, t2: BtfType) returns (eq: bool)
    requires RestOk(t1) && RestOk(t2) && t1.IsComposite()
    ensures eq <==> Shape(t1) == Shape(t2)
  {
    if !EqualCommon(t1, t2) {
      return false;
    }
    var m1, m2 := t1.rest.members, t2.rest.members;
    ghost var z1, z2 := ZeroRest(t1.rest).members, ZeroRest(t2.rest).members;
    for i := 0 to t1.info.vlen
      invariant z1[..i] == z2[..i]
    {
      if m1[i].name != m2[i].name || m1[i].offset != m2[i].offset {
        assert z1[i] != z2[i];
        return false;
      }
      assert z1[i] == z2[i];
    }
    assert z1 == z1[..t1.info.vlen] && z2 == z2[..t1.info.vlen];
    return true;
  }

  method EqualFnproto(t1: BtfType, t2: BtfType) returns (eq: bool)
    requires RestOk(t1) && RestOk(t2) && t1.info.kind.FuncProto?
    ensures eq <==> t1 == t2
  {
    if !EqualCommon(t1, t2) {
      return false;
    }
    var m1, m2 := t1.rest.params, t2.rest.params;
    for i := 0 to t1.info.vlen
      invariant m1[..i] == m2[..i]
    {
      if m1[i].name != m2[i].name || m1[i].typ != m2[i].typ {
        return false;
      }
    }
    assert m1 == m1[..t1.info.vlen] && m2 == m2[..t1.info.vlen];
    return true;
  }

  method CompatFnproto(t1: BtfType, t2: BtfType) returns (eq: bool)
    requires RestOk(t1) && RestOk(t2) && t1.info.kind.FuncProto?
    ensures eq <==> Shape(t1) == Shape(t2)
  {
    if t1.name != t2.name || t1.info != t2.info {
      return false;
    }
    var m1, m2 := t1.rest.params, t2.rest.params;
    ghost var z1, z2 := ZeroRest(t1.rest).params, ZeroRest(t2.rest).params;
    for i := 0 to t1.info.vlen
      invariant z1[..i] == z2[..i]
    {
      if m1[i].name != m2[i].name {
        assert z1[i] != z2[i];
        return false;
      }
      assert z1[i] == z2[i];
    }
    assert z1 == z1[..t1.info.vlen] && z2 == z2[..t1.info.vlen];
    return true;
  }
}
