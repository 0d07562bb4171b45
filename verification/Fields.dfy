// Where a record holds type ids, field by field.

module Fields {
  import opened BtfTypes
  import opened Quotient

  predicate To(ids: seq<nat>, typ: nat, typ': nat) {
    typ < |ids| && typ' == ids[typ]
  }

  // t' says what t says, with ids[i] wherever t speaks of type i.
  predicate Renamed(t: BtfType, t': BtfType, ids: seq<nat>)
    requires RestOk(t) && RestOk(t')
  {
    t'.name == t.name && t'.info == t.info &&
    match t.info.kind
    case Unkn => t' == t
    case Int => t' == t
    case Enum => t' == t
    case Float => t' == t
    case Array =>
      t'.sizeOrType == t.sizeOrType && t'.rest.nelems == t.rest.nelems &&
      To(ids, t.rest.elem, t'.rest.elem) && To(ids, t.rest.index, t'.rest.index)
    case Struct => t'.sizeOrType == t.sizeOrType && MembersRenamed(t.rest.members, t'.rest.members, ids)
    case Union => t'.sizeOrType == t.sizeOrType && MembersRenamed(t.rest.members, t'.rest.members, ids)
    case FuncProto =>
      To(ids, t.sizeOrType, t'.sizeOrType) && ParamsRenamed(t.rest.params, t'.rest.params, ids)
    case Datasec => t'.sizeOrType == t.sizeOrType && InfosRenamed(t.rest.infos, t'.rest.infos, ids)
    case Var => To(ids, t.sizeOrType, t'.sizeOrType) && t'.rest == t.rest
    case _ => To(ids, t.sizeOrType, t'.sizeOrType)
  }

  predicate MembersRenamed(ms: seq<Member>, ms': seq<Member>, ids: seq<nat>) {
    |ms'| == |ms| &&
    forall i :: 0 <= i < |ms| ==>
      ms'[i].name == ms[i].name && ms'[i].offset == ms[i].offset && To(ids, ms[i].typ, ms'[i].typ)
  }

  predicate ParamsRenamed(ps: seq<Param>, ps': seq<Param>, ids: seq<nat>) {
    |ps'| == |ps| && forall i :: 0 <= i < |ps| ==> ps'[i].name == ps[i].name && To(ids, ps[i].typ, ps'[i].typ)
  }

  predicate InfosRenamed(ss: seq<SecInfo>, ss': seq<SecInfo>, ids: seq<nat>) {
    |ss'| == |ss| &&
    forall i :: 0 <= i < |ss| ==>
      ss'[i].offset == ss[i].offset && ss'[i].size == ss[i].size && To(ids, ss[i].typ, ss'[i].typ)
  }

  // The same for the data that follows a record.
  predicate RestRenamed(r: Rest, r': Rest, ids: seq<nat>) {
    match r
    case ArrayOf(elem, index, n) => r'.ArrayOf? && r'.nelems == n && To(ids, elem, r'.elem) && To(ids, index, r'.index)
    case Members(ms) => r'.Members? && MembersRenamed(ms, r'.members, ids)
    case Params(ps) => r'.Params? && ParamsRenamed(ps, r'.params, ids)
    case SecInfos(ss) => r'.SecInfos? && InfosRenamed(ss, r'.infos, ids)
    case _ => r' == r
  }

  predicate AllTo(ids: seq<nat>, refs: seq<nat>, refs': seq<nat>) {
    |refs'| == |refs| && forall j :: 0 <= j < |refs| ==> To(ids, refs[j], refs'[j])
  }

  lemma RestRenamedExactly(r: Rest, r': Rest, ids: seq<nat>)
    ensures RestRenamed(r, r', ids) <==> ZeroRest(r') == ZeroRest(r) && AllTo(ids, RestRefs(r), RestRefs(r'))
  {
    match r
    case Members(ms) =>
      if r'.Members? {
        MembersExactly(ms, r'.members, ids);
      }
    case Params(ps) =>
      if r'.Params? {
        ParamsExactly(ps, r'.params, ids);
      }
    case SecInfos(ss) =>
      if r'.SecInfos? {
        InfosExactly(ss, r'.infos, ids);
      }
    case ArrayOf(_, _, _) =>
      if r'.ArrayOf? {
        assert RestRefs(r)[0] == r.elem && RestRefs(r)[1] == r.index;
        assert RestRefs(r')[0] == r'.elem && RestRefs(r')[1] == r'.index;
      }
    case _ =>
  }

  lemma MembersExactly(ms: seq<Member>, ms': seq<Member>, ids: seq<nat>)
    ensures var r, r' := Members(ms), Members(ms');
            MembersRenamed(ms, ms', ids) <==> ZeroRest(r') == ZeroRest(r) && AllTo(ids, RestRefs(r), RestRefs(r'))
  {
    var r, r' := Members(ms), Members(ms');
    var z, z' := ZeroRest(r).members, ZeroRest(r').members;
    assert forall i :: 0 <= i < |ms| ==> z[i] == ms[i].(typ := 0) && RestRefs(r)[i] == ms[i].typ;
    assert forall i :: 0 <= i < |ms'| ==> z'[i] == ms'[i].(typ := 0) && RestRefs(r')[i] == ms'[i].typ;
    if MembersRenamed(ms, ms', ids) {
      assert z == z';
    }
  }

  lemma ParamsExactly(ps: seq<Param>, ps': seq<Param>, ids: seq<nat>)
    ensures var r, r' := Params(ps), Params(ps');
            ParamsRenamed(ps, ps', ids) <==> ZeroRest(r') == ZeroRest(r) && AllTo(ids, RestRefs(r), RestRefs(r'))
  {
    var r, r' := Params(ps), Params(ps');
    var z, z' := ZeroRest(r).params, ZeroRest(r').params;
    assert forall i :: 0 <= i < |ps| ==> z[i] == ps[i].(typ := 0) && RestRefs(r)[i] == ps[i].typ;
    assert forall i :: 0 <= i < |ps'| ==> z'[i] == ps'[i].(typ := 0) && RestRefs(r')[i] == ps'[i].typ;
    if ParamsRenamed(ps, ps', ids) {
      assert z == z';
    }
  }

  lemma InfosExactly(ss: seq<SecInfo>, ss': seq<SecInfo>, ids: seq<nat>)
    ensures var r, r' := SecInfos(ss), SecInfos(ss');
            InfosRenamed(ss, ss', ids) <==> ZeroRest(r') == ZeroRest(r) && AllTo(ids, RestRefs(r), RestRefs(r'))
  {
    var r, r' := SecInfos(ss), SecInfos(ss');
    var z, z' := ZeroRest(r).infos, ZeroRest(r').infos;
    assert forall i :: 0 <= i < |ss| ==> z[i] == ss[i].(typ := 0) && RestRefs(r)[i] == ss[i].typ;
    assert forall i :: 0 <= i < |ss'| ==> z'[i] == ss'[i].(typ := 0) && RestRefs(r')[i] == ss'[i].typ;
    if InfosRenamed(ss, ss', ids) {
      assert z == z';
    }
  }

  // What deduplication keeps of a record, in terms of its fields.
  lemma RecordKeptExactly(t: BtfType, t': BtfType, ids: seq<nat>)
    requires RestOk(t) && RestOk(t')
    ensures RecordKept(t, t', ids) <==> Renamed(t, t', ids)
  {
    RestRenamedExactly(t.rest, t'.rest, ids);
    hide ZeroRest, RestRefs;
    if t.info == t'.info {
      RefsSplit(t, t', ids);
    }
  }

  lemma RefsSplit(t: BtfType, t': BtfType, ids: seq<nat>)
    requires t.info == t'.info
    ensures AllTo(ids, Refs(t), Refs(t')) <==>
            (HoldsType(t.info.kind) ==> To(ids, t.sizeOrType, t'.sizeOrType)) &&
            AllTo(ids, RestRefs(t.rest), RestRefs(t'.rest))
  {
    if HoldsType(t.info.kind) {
      var one, one' := [t.sizeOrType], [t'.sizeOrType];
      AllToConcat(ids, one, one', RestRefs(t.rest), RestRefs(t'.rest));
      assert AllTo(ids, one, one') <==> To(ids, one[0], one'[0]);
    } else {
      AllToConcat(ids, [], [], RestRefs(t.rest), RestRefs(t'.rest));
    }
  }

  lemma AllToConcat(ids: seq<nat>, a: seq<nat>, a': seq<nat>, b: seq<nat>, b': seq<nat>)
    requires |a| == |a'|
    ensures AllTo(ids, a + b, a' + b') <==> AllTo(ids, a, a') && AllTo(ids, b, b')
  {
    if AllTo(ids, a + b, a' + b') {
      assert forall j :: 0 <= j < |a| ==> a[j] == (a + b)[j] && a'[j] == (a' + b')[j];
      assert forall j :: 0 <= j < |b| ==> b[j] == (a + b)[|a| + j] && b'[j] == (a' + b')[|a| + j];
    }
  }
}
