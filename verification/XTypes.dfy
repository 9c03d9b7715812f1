/** The part of an XTypes type mapping that the decoder looks at (OMG DDS-XTypes 1.3, section 7.3.4). */
module XTypes {
  import opened Core

  datatype Kind = BOOLEAN | BYTE | INT16 | INT32 | INT64 | UINT16 | UINT32 | UINT64 | FLOAT32 | FLOAT64 | CHAR8

  type Hash = nat

  datatype TypeId =
    | Primitive(kind: Kind)
    | String8
    | Sequence(element: Option<TypeId>)
    | Array(bounds: seq<nat>, element: Option<TypeId>)
    | Complete(hash: Hash)
    | Unsupported(code: nat)

  datatype Member = Member(name: string, typeId: TypeId)
  datatype Literal = Literal(name: string, value: int)
  datatype UnionMember = UnionMember(name: string, typeId: TypeId, labels: seq<int>)

  datatype TypeObject =
    | StructType(members: seq<Member>)
    | EnumType(literals: seq<Literal>)
    | UnionType(discriminator: TypeId, cases: seq<UnionMember>)
    | OtherType

  /** The types that an object's values are made of. */
  function TypesIn(o: TypeObject): seq<TypeId> {
    match o
    case StructType(members) => seq(|members|, i requires 0 <= i < |members| => members[i].typeId)
    case UnionType(_, cases) => seq(|cases|, i requires 0 <= i < |cases| => cases[i].typeId)
    case _ => []
  }

  /** One identifier/object pair; the flags say whether either side has the complete representation. */
  datatype Pair = Pair(idComplete: bool, hash: Hash, objectComplete: bool, typeObject: TypeObject)

  type Mapping = seq<Pair>

  predicate Matches(p: Pair, hash: Hash) {
    p.idComplete && p.hash == hash && p.objectComplete
  }

  /** The first struct registered under a hash. */
  function FindStruct(hash: Hash, m: Mapping): Option<seq<Member>> {
    if m == [] then None
    else if Matches(m[0], hash) && m[0].typeObject.StructType? then Some(m[0].typeObject.members)
    else FindStruct(hash, m[1..])
  }

  function FindEnum(hash: Hash, m: Mapping): Option<seq<Literal>> {
    if m == [] then None
    else if Matches(m[0], hash) && m[0].typeObject.EnumType? then Some(m[0].typeObject.literals)
    else FindEnum(hash, m[1..])
  }

  function FindUnion(hash: Hash, m: Mapping): Option<TypeObject> {
    if m == [] then None
    else if Matches(m[0], hash) && m[0].typeObject.UnionType? then Some(m[0].typeObject)
    else FindUnion(hash, m[1..])
  }

  // ----- what a lookup finds -----

  datatype Sort = AStruct | AnEnum | AUnion

  predicate IsA(o: TypeObject, sort: Sort) {
    match sort
    case AStruct => o.StructType?
    case AnEnum => o.EnumType?
    case AUnion => o.UnionType?
  }

  /** At this index there is a complete description of that sort under the hash. */
  predicate Describes(m: Mapping, i: nat, hash: Hash, sort: Sort)
    requires i < |m|
  {
    m[i].idComplete && m[i].hash == hash && m[i].objectComplete && IsA(m[i].typeObject, sort)
  }

  /** The description at the least such index is this one. */
  ghost predicate IsFirst(m: Mapping, hash: Hash, sort: Sort, o: TypeObject) {
    exists i :: 0 <= i < |m| && Describes(m, i, hash, sort) && m[i].typeObject == o &&
                forall j :: 0 <= j < i ==> !Describes(m, j, hash, sort)
  }

  ghost predicate HasNone(m: Mapping, hash: Hash, sort: Sort) {
    forall i :: 0 <= i < |m| ==> !Describes(m, i, hash, sort)
  }

  lemma FirstHere(m: Mapping, hash: Hash, sort: Sort)
    requires m != [] && Describes(m, 0, hash, sort)
    ensures forall o :: IsFirst(m, hash, sort, o) <==> o == m[0].typeObject
    ensures !HasNone(m, hash, sort)
  {
    assert IsFirst(m, hash, sort, m[0].typeObject);
  }

  lemma FirstFurther(m: Mapping, hash: Hash, sort: Sort)
    requires m != [] && !Describes(m, 0, hash, sort)
    ensures forall o :: IsFirst(m, hash, sort, o) <==> IsFirst(m[1..], hash, sort, o)
    ensures HasNone(m, hash, sort) <==> HasNone(m[1..], hash, sort)
  {
    var rest := m[1..];
    assert forall i :: 0 <= i < |rest| ==> Describes(rest, i, hash, sort) == Describes(m, i + 1, hash, sort);
    forall o | IsFirst(m, hash, sort, o) ensures IsFirst(rest, hash, sort, o) {
      var i :| 0 <= i < |m| && Describes(m, i, hash, sort) && m[i].typeObject == o &&
               forall j :: 0 <= j < i ==> !Describes(m, j, hash, sort);
      assert rest[i - 1] == m[i];
    }
    forall o | IsFirst(rest, hash, sort, o) ensures IsFirst(m, hash, sort, o) {
      var i :| 0 <= i < |rest| && Describes(rest, i, hash, sort) && rest[i].typeObject == o &&
               forall j :: 0 <= j < i ==> !Describes(rest, j, hash, sort);
      forall j | 0 <= j < i + 1 ensures !Describes(m, j, hash, sort) {
        assert j > 0 ==> !Describes(rest, j - 1, hash, sort);
      }
      assert Describes(m, i + 1, hash, sort) && m[i + 1].typeObject == o;
    }
    if HasNone(rest, hash, sort) {
      forall i | 0 <= i < |m| ensures !Describes(m, i, hash, sort) {
        assert i > 0 ==> !Describes(rest, i - 1, hash, sort);
      }
    }
  }

  /** A struct is found exactly if it is the first one described completely under the hash. */
  lemma {:induction false} FindStructExactly(hash: Hash, m: Mapping)
    ensures forall members :: FindStruct(hash, m) == Some(members) <==> IsFirst(m, hash, AStruct, StructType(members))
    ensures FindStruct(hash, m).None? <==> HasNone(m, hash, AStruct)
  {
    hide IsFirst, HasNone;
    if m == [] {
      EmptyMapping(hash, AStruct);
    } else if Describes(m, 0, hash, AStruct) {
      FirstHere(m, hash, AStruct);
    } else {
      FindStructExactly(hash, m[1..]);
      FirstFurther(m, hash, AStruct);
    }
  }

  lemma {:induction false} FindEnumExactly(hash: Hash, m: Mapping)
    ensures forall literals :: FindEnum(hash, m) == Some(literals) <==> IsFirst(m, hash, AnEnum, EnumType(literals))
    ensures FindEnum(hash, m).None? <==> HasNone(m, hash, AnEnum)
  {
    hide IsFirst, HasNone;
    if m == [] {
      EmptyMapping(hash, AnEnum);
    } else if Describes(m, 0, hash, AnEnum) {
      FirstHere(m, hash, AnEnum);
    } else {
      FindEnumExactly(hash, m[1..]);
      FirstFurther(m, hash, AnEnum);
    }
  }

  lemma {:induction false} FindUnionExactly(hash: Hash, m: Mapping)
    ensures forall u :: FindUnion(hash, m) == Some(u) <==> IsFirst(m, hash, AUnion, u)
    ensures FindUnion(hash, m).None? <==> HasNone(m, hash, AUnion)
  {
    hide IsFirst, HasNone;
    if m == [] {
      EmptyMapping(hash, AUnion);
    } else if Describes(m, 0, hash, AUnion) {
      FirstHere(m, hash, AUnion);
    } else {
      FindUnionExactly(hash, m[1..]);
      FirstFurther(m, hash, AUnion);
    }
  }

  lemma EmptyMapping(hash: Hash, sort: Sort)
    ensures HasNone([], hash, sort) && forall o :: !IsFirst([], hash, sort, o)
  {
  }

  lemma FindStructFrom(hash: Hash, m: Mapping, members: seq<Member>)
    requires FindStruct(hash, m) == Some(members)
    ensures exists p :: p in m && p.hash == hash && p.typeObject == StructType(members)
  {
    FindStructExactly(hash, m);
    assert IsFirst(m, hash, AStruct, StructType(members));
  }

  lemma FindUnionFrom(hash: Hash, m: Mapping, u: TypeObject)
    requires FindUnion(hash, m) == Some(u)
    ensures u.UnionType? && exists p :: p in m && p.hash == hash && p.typeObject == u
  {
    FindUnionExactly(hash, m);
    assert IsFirst(m, hash, AUnion, u);
  }

  // ----- reference depth: how far a type reaches before a sequence length has to be read -----

  type Rank = map<Hash, nat>

  function RankOf(hash: Hash, rank: Rank): nat {
    if hash in rank then rank[hash] else 0
  }

  function Height(t: TypeId, rank: Rank): nat {
    match t
    case Array(_, Some(e)) => Height(e, rank) + 1
    case Complete(hash) => RankOf(hash, rank) + 1
    case _ => 0
  }

  predicate Below(o: TypeObject, limit: nat, rank: Rank) {
    match o
    case StructType(members) => forall i :: 0 <= i < |members| ==> Height(members[i].typeId, rank) <= limit
    case UnionType(_, cases) => forall i :: 0 <= i < |cases| ==> Height(cases[i].typeId, rank) <= limit
    case _ => true
  }

  /** Every reference that does not pass through a sequence leads to a lower rank, so every cycle of
      references passes through a sequence. */
  predicate Stratified(m: Mapping, rank: Rank) {
    forall i :: 0 <= i < |m| ==> Below(m[i].typeObject, RankOf(m[i].hash, rank), rank)
  }

  lemma FoundStructBelow(hash: Hash, m: Mapping, rank: Rank, members: seq<Member>)
    requires Stratified(m, rank) && FindStruct(hash, m) == Some(members)
    ensures Below(StructType(members), RankOf(hash, rank), rank)
  {
    FindStructFrom(hash, m, members);
  }

  lemma FoundUnionBelow(hash: Hash, m: Mapping, rank: Rank, u: TypeObject)
    requires Stratified(m, rank) && FindUnion(hash, m) == Some(u)
    ensures u.UnionType? && Below(u, RankOf(hash, rank), rank)
  {
    FindUnionFrom(hash, m, u);
  }
}
