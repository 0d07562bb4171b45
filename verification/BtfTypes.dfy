// BTF type records: their kinds, the type ids they refer to, and the hashing and
// equality helpers that deduplication relies on.

module BtfTypes {

  datatype Kind =
    | Unkn | Int | Ptr | Array | Struct | Union | Enum | Fwd | Typedef | Volatile
    | Const | Restrict | Func | FuncProto | Var | Datasec | Float

  // The `info` word without its unused bits.
  datatype Info = Info(kind: Kind, vlen: nat, kflag: bool)

  datatype Enumerator = Enumerator(name: nat, val: int)
  datatype Member = Member(name: nat, typ: nat, offset: nat)
  datatype Param = Param(name: nat, typ: nat)
  datatype SecInfo = SecInfo(typ: nat, offset: nat, size: nat)

  // The data that follows `struct btf_type` for some kinds.
  datatype Rest =
    | Plain
    | IntBits(bits: nat)
    | Enumerators(enums: seq<Enumerator>)
    | ArrayOf(elem: nat, index: nat, nelems: nat)
    | Members(members: seq<Member>)
    | Params(params: seq<Param>)
    | Linkage(linkage: nat)
    | SecInfos(infos: seq<SecInfo>)

  // Names are opaque string offsets; `sizeOrType` is the union of `size` and `type`.
  datatype BtfType = BtfType(name: nat, info: Info, sizeOrType: nat, rest: Rest) {
    predicate IsComposite() { info.kind.Struct? || info.kind.Union? }

    predicate IsFwd() { info.kind.Fwd? }

    predicate IsEnumFwd() { info.kind.Enum? && info.vlen == 0 }

    // Kinds that the reference pass canonicalizes.
    predicate IsReference() {
      info.kind.Const? || info.kind.Volatile? || info.kind.Restrict? || info.kind.Ptr? ||
      info.kind.Typedef? || info.kind.Func? || info.kind.Array? || info.kind.FuncProto?
    }

    // Kinds that the primitive pass canonicalizes.
    predicate IsPrimitive() {
      info.kind.Int? || info.kind.Enum? || info.kind.Fwd? || info.kind.Float?
    }

    // Kinds that are their own representative from the start.
    predicate IsVarOrDatasec() { info.kind.Var? || info.kind.Datasec? }
  }

  // The kind a forward declaration stands for.
  function FwdKind(t: BtfType): Kind {
    if t.info.kflag then Union else Struct
  }

  function RealKind(t: BtfType): Kind {
    if t.IsFwd() then FwdKind(t) else t.info.kind
  }

  const VOID := BtfType(0, Info(Unkn, 0, false), 0, Plain)

  // Kinds whose `sizeOrType` word holds a type id.
  predicate HoldsType(k: Kind) {
    k.Fwd? || k.Const? || k.Volatile? || k.Restrict? || k.Ptr? || k.Typedef? ||
    k.Func? || k.Var? || k.FuncProto?
  }

  // The trailing data has the form that the kind and vlen announce.
  predicate RestOk(t: BtfType) {
    match t.info.kind
    case Int => t.rest.IntBits?
    case Enum => t.rest.Enumerators? && |t.rest.enums| == t.info.vlen
    case Array => t.rest.ArrayOf?
    case Struct => t.rest.Members? && |t.rest.members| == t.info.vlen
    case Union => t.rest.Members? && |t.rest.members| == t.info.vlen
    case FuncProto => t.rest.Params? && |t.rest.params| == t.info.vlen
    case Var => t.rest.Linkage?
    case Datasec => t.rest.SecInfos? && |t.rest.infos| == t.info.vlen
    case _ => t.rest.Plain?
  }

  function RestRefs(r: Rest): seq<nat> {
    match r
    case ArrayOf(elem, index, _) => [elem, index]
    case Members(ms) => seq(|ms|, i requires 0 <= i < |ms| => ms[i].typ)
    case Params(ps) => seq(|ps|, i requires 0 <= i < |ps| => ps[i].typ)
    case SecInfos(ss) => seq(|ss|, i requires 0 <= i < |ss| => ss[i].typ)
    case _ => []
  }

  // All type ids a record refers to, in the order in which they are visited.
  function Refs(t: BtfType): seq<nat> {
    (if HoldsType(t.info.kind) then [t.sizeOrType] else []) + RestRefs(t.rest)
  }

  function ZeroRest(r: Rest): Rest {
    match r
    case ArrayOf(_, _, n) => ArrayOf(0, 0, n)
    case Members(ms) => Members(seq(|ms|, i requires 0 <= i < |ms| => ms[i].(typ := 0)))
    case Params(ps) => Params(seq(|ps|, i requires 0 <= i < |ps| => ps[i].(typ := 0)))
    case SecInfos(ss) => SecInfos(seq(|ss|, i requires 0 <= i < |ss| => ss[i].(typ := 0)))
    case _ => r
  }

  // Everything a record says except which types it refers to.
  function Shape(t: BtfType): BtfType {
    t.(sizeOrType := if HoldsType(t.info.kind) then 0 else t.sizeOrType, rest := ZeroRest(t.rest))
  }

  function SetRestRef(r: Rest, i: nat, id: nat): Rest
    requires i < |RestRefs(r)|
  {
    match r
    case ArrayOf(e, x, n) => if i == 0 then ArrayOf(id, x, n) else ArrayOf(e, id, n)
    case Members(ms) => Members(ms[i := ms[i].(typ := id)])
    case Params(ps) => Params(ps[i := ps[i].(typ := id)])
    case SecInfos(ss) => SecInfos(ss[i := ss[i].(typ := id)])
  }

  // Overwrites the i-th type id of a record.
  function SetRef(t: BtfType, i: nat, id: nat): BtfType
    requires i < |Refs(t)|
  {
    if HoldsType(t.info.kind) then
      if i == 0 then t.(sizeOrType := id) else t.(rest := SetRestRef(t.rest, i - 1, id))
    else t.(rest := SetRestRef(t.rest, i, id))
  }

  lemma SetRefChangesOneRef(t: BtfType, i: nat, id: nat)
    requires i < |Refs(t)|
    ensures Refs(SetRef(t, i, id)) == Refs(t)[i := id]
    ensures Shape(SetRef(t, i, id)) == Shape(t)
    ensures RestOk(t) ==> RestOk(SetRef(t, i, id))
  {
    var u := SetRef(t, i, id);
    assert Refs(u) == Refs(t)[i := id];
    assert ZeroRest(u.rest) == ZeroRest(t.rest);
  }

  lemma RefCountFromShape(t: BtfType, u: BtfType)
    requires Shape(t) == Shape(u)
    ensures |Refs(t)| == |Refs(u)|
    ensures t.info == u.info && t.name == u.name
  {
    assert |RestRefs(t.rest)| == |RestRefs(ZeroRest(t.rest))|;
    assert |RestRefs(u.rest)| == |RestRefs(ZeroRest(u.rest))|;
  }

  // A record is determined by its shape and the ids it refers to.
  lemma ShapeAndRefsDetermine(t: BtfType, u: BtfType)
    requires Shape(t) == Shape(u) && Refs(t) == Refs(u)
    ensures t == u
  {
    RefCountFromShape(t, u);
    var k := if HoldsType(t.info.kind) then 1 else 0;
    assert Refs(t)[k..] == RestRefs(t.rest) && Refs(u)[k..] == RestRefs(u.rest);
    RestDetermined(t.rest, u.rest);
  }

  lemma RestDetermined(r: Rest, s: Rest)
    requires ZeroRest(r) == ZeroRest(s) && RestRefs(r) == RestRefs(s)
    ensures r == s
  {
    match r
    case Members(ms) =>
      forall i | 0 <= i < |ms| ensures ms[i] == s.members[i] {
        assert RestRefs(r)[i] == RestRefs(s)[i];
        assert ZeroRest(r).members[i] == ZeroRest(s).members[i];
      }
      assert ms == s.members;
    case Params(ps) =>
      forall i | 0 <= i < |ps| ensures ps[i] == s.params[i] {
        assert RestRefs(r)[i] == RestRefs(s)[i];
        assert ZeroRest(r).params[i] == ZeroRest(s).params[i];
      }
      assert ps == s.params;
    case SecInfos(ss) =>
      forall i | 0 <= i < |ss| ensures ss[i] == s.infos[i] {
        assert RestRefs(r)[i] == RestRefs(s)[i];
        assert ZeroRest(r).infos[i] == ZeroRest(s).infos[i];
      }
      assert ss == s.infos;
    case ArrayOf(e, x, n) =>
      assert RestRefs(r)[0] == RestRefs(s)[0] && RestRefs(r)[1] == RestRefs(s)[1];
    case _ =>
  }
}
