/** The two printers walk the same bytes. */
module Lockstep {
  import opened Core
  import opened Bytes
  import opened XTypes
  import opened CdrReader
  import opened Decoding
  import J = JsonPrinter
  import Y = YamlPrinter

  /** The YAML list loops follow a reference only to a struct; the JSON loops follow any. */
  predicate PlainElement(e: TypeId, m: Mapping) {
    e.Complete? ==> FindStruct(e.hash, m).Some? || (FindEnum(e.hash, m).None? && FindUnion(e.hash, m).None?)
  }

  /** The hashes that a type refers to, itself or through the objects behind them. What else the mapping
      describes does not matter. */
  type Scope = iset<Hash>

  /** The object that a reference leads to. */
  function ObjectOf(hash: Hash, m: Mapping): TypeObject {
    var s, u := FindStruct(hash, m), FindUnion(hash, m);
    if s.Some? then StructType(s.value)
    else if FindEnum(hash, m).Some? || u.None? then OtherType
    else u.value
  }

  /** Both printers show null for a type that nothing in the mapping describes, and an empty list for a list whose
      element type is missing, and read nothing for either. */
  lemma UndescribedReadsNothing(b: seq<byte>, pos: nat, t: TypeId, m: Mapping, rank: Rank)
    requires Fits(b, pos) && Stratified(m, rank)
    ensures t.Unsupported? || (t.Complete? && forall sort :: HasNone(m, t.hash, sort)) ==>
              J.Value(b, pos, t, m, rank) == Y.Value(b, pos, t, m, rank) == Done(NNull, pos, [])
    ensures (t.Sequence? || t.Array?) && t.element.None? ==>
              J.Value(b, pos, t, m, rank) == Y.Value(b, pos, t, m, rank) == Done(NList([]), pos, [])
  {
    if t.Complete? && forall sort :: HasNone(m, t.hash, sort) {
      FindStructExactly(t.hash, m);
      FindEnumExactly(t.hash, m);
      FindUnionExactly(t.hash, m);
      assert HasNone(m, t.hash, AStruct) && HasNone(m, t.hash, AnEnum) && HasNone(m, t.hash, AUnion);
    }
  }

  /** No list element resolves to an enum or a union, and every reference stays in the scope. */
  ghost predicate Plain(t: TypeId, m: Mapping, scope: Scope) {
    match t
    case Sequence(Some(e)) => PlainElement(e, m) && Plain(e, m, scope)
    case Array(bounds, Some(e)) => ElementCount(bounds, 1) == 0 || (PlainElement(e, m) && Plain(e, m, scope))
    case Complete(hash) => hash in scope
    case _ => true
  }

  ghost predicate PlainObject(o: TypeObject, m: Mapping, scope: Scope) {
    match o
    case StructType(members) => forall i :: 0 <= i < |members| ==> Plain(members[i].typeId, m, scope)
    case UnionType(_, cases) => forall i :: 0 <= i < |cases| ==> Plain(cases[i].typeId, m, scope)
    case _ => true
  }

  ghost predicate PlainMapping(m: Mapping, scope: Scope) {
    forall hash :: hash in scope ==> PlainObject(ObjectOf(hash, m), m, scope)
  }

  // ----- member names -----

  predicate DistinctObject(o: TypeObject) {
    match o
    case StructType(members) => forall i, j :: 0 <= i < j < |members| ==> members[i].name != members[j].name
    case UnionType(_, cases) => forall i :: 0 <= i < |cases| ==> cases[i].name != "_d"
    case _ => true
  }

  ghost predicate DistinctMapping(m: Mapping, scope: Scope) {
    forall hash :: hash in scope ==> DistinctObject(ObjectOf(hash, m))
  }

  lemma {:induction false} PutFresh(fields: seq<Field>, name: string, value: Node)
    requires forall i :: 0 <= i < |fields| ==> fields[i].name != name
    ensures J.Put(fields, name, value) == fields + [Field(name, value)]
  {
    if fields != [] {
      PutFresh(fields[1..], name, value);
    }
  }

  // ----- agreement -----

  /** Same accesses, same final offset; with distinct member names also the same tree. */
  ghost predicate Agree(y: Outcome<Node>, j: Outcome<Node>, distinct: bool) {
    (y.Done? <==> j.Done?) &&
    (y.Done? ==> y.pos == j.pos && y.trace == j.trace && (distinct ==> y.value == j.value))
  }

  lemma {:induction false} ValuesAgree(b: seq<byte>, pos: nat, t: TypeId, m: Mapping, scope: Scope, rank: Rank)
    requires Fits(b, pos) && Stratified(m, rank) && PlainMapping(m, scope) && Plain(t, m, scope)
    ensures Agree(Y.Value(b, pos, t, m, rank), J.Value(b, pos, t, m, rank), DistinctMapping(m, scope))
    decreases Left(b, pos), Height(t, rank), 0, 0
  {
    hide Stratified, AlignUp, Below, FindStruct, FindUnion, FindEnum, DistinctMapping, PlainMapping;
    match t
    case Sequence(Some(e)) =>
      var length := PrimitiveAt(b, pos, 4);
      if length.value != 0 {
        ElementsAgree(b, length.pos, e, length.value, m, scope, rank, [], [], length.trace);
      }
    case Array(bounds, Some(e)) =>
      if ElementCount(bounds, 1) != 0 {
        ElementsAgree(b, pos, e, ElementCount(bounds, 1), m, scope, rank, [], [], []);
      }
    case Complete(hash) =>
      var s := FindStruct(hash, m);
      var u := FindUnion(hash, m);
      if s.Some? {
        StructsAgree(b, pos, hash, s.value, m, scope, rank);
      } else if FindEnum(hash, m).None? && u.Some? {
        FoundUnionBelow(hash, m, rank, u.value);
        FoundPlain(hash, m, scope);
        UnionsAgree(b, pos, u.value.discriminator, u.value.cases, m, scope, rank, RankOf(hash, rank));
      }
    case _ =>
  }

  lemma FoundPlain(hash: Hash, m: Mapping, scope: Scope)
    requires hash in scope
    ensures PlainMapping(m, scope) ==> PlainObject(ObjectOf(hash, m), m, scope)
    ensures DistinctMapping(m, scope) ==> DistinctObject(ObjectOf(hash, m))
  {
    hide PlainObject, DistinctObject, ObjectOf;
  }

  lemma {:induction false} StructsAgree(b: seq<byte>, pos: nat, hash: Hash, members: seq<Member>, m: Mapping,
                                        scope: Scope, rank: Rank)
    requires Fits(b, pos) && Stratified(m, rank) && PlainMapping(m, scope) && FindStruct(hash, m) == Some(members)
    requires hash in scope
    ensures Below(StructType(members), RankOf(hash, rank), rank)
    ensures Agree(Y.Members(b, pos, members, m, rank, RankOf(hash, rank), [], []),
                  J.Members(b, pos, members, m, rank, RankOf(hash, rank), [], []), DistinctMapping(m, scope))
    decreases Left(b, pos), RankOf(hash, rank), 1, |members| + 1
  {
    hide FindStruct, Stratified, PlainMapping, DistinctMapping;
    FoundStructBelow(hash, m, rank, members);
    FoundPlain(hash, m, scope);
    MembersAgree(b, pos, members, m, scope, rank, RankOf(hash, rank), [], [], []);
  }

  lemma {:induction false} ElementsAgree(b: seq<byte>, pos: nat, e: TypeId, n: nat, m: Mapping, scope: Scope,
                                         rank: Rank,
                                         dy: seq<Node>, dj: seq<Node>, trace: seq<Read>)
    requires Fits(b, pos) && Stratified(m, rank) && PlainMapping(m, scope) && PlainElement(e, m) && Plain(e, m, scope)
    requires DistinctMapping(m, scope) ==> dy == dj
    ensures Agree(Y.Elements(b, pos, e, n, m, rank, dy, trace), J.Elements(b, pos, e, n, m, rank, dj, trace),
                  DistinctMapping(m, scope))
    decreases Left(b, pos), Height(e, rank), 2, n
  {
    hide Stratified, AlignUp, FindStruct, FindUnion, FindEnum, DistinctMapping, PlainMapping, Plain, PlainElement,
      Y.Element, J.Value;
    if n > 0 {
      ElementAgrees(b, pos, e, m, scope, rank);
      var y, j := Y.Element(b, pos, e, m, rank), J.Value(b, pos, e, m, rank);
      if y.Done? {
        ElementsAgree(b, y.pos, e, n - 1, m, scope, rank, dy + [y.value], dj + [j.value], trace + y.trace);
      }
    }
  }

  lemma {:induction false} ElementAgrees(b: seq<byte>, pos: nat, e: TypeId, m: Mapping, scope: Scope, rank: Rank)
    requires Fits(b, pos) && Stratified(m, rank) && PlainMapping(m, scope) && PlainElement(e, m) && Plain(e, m, scope)
    ensures Agree(Y.Element(b, pos, e, m, rank), J.Value(b, pos, e, m, rank), DistinctMapping(m, scope))
    decreases Left(b, pos), Height(e, rank), 1, 0
  {
    hide Stratified, AlignUp, FindStruct, FindUnion, FindEnum, DistinctMapping, PlainMapping;
    if e.Complete? {
      var s := FindStruct(e.hash, m);
      if s.Some? {
        StructsAgree(b, pos, e.hash, s.value, m, scope, rank);
      }
    } else {
      ValuesAgree(b, pos, e, m, scope, rank);
    }
  }

  predicate Unused(fields: seq<Field>, members: seq<Member>) {
    forall i, k :: 0 <= i < |fields| && 0 <= k < |members| ==> fields[i].name != members[k].name
  }

  lemma {:induction false} MembersAgree(b: seq<byte>, pos: nat, members: seq<Member>, m: Mapping, scope: Scope,
                                        rank: Rank,
                                        limit: nat, dy: seq<Field>, dj: seq<Field>, trace: seq<Read>)
    requires Fits(b, pos) && Stratified(m, rank) && Below(StructType(members), limit, rank)
    requires PlainMapping(m, scope) && PlainObject(StructType(members), m, scope)
    requires DistinctMapping(m, scope) ==> dy == dj && DistinctObject(StructType(members)) && Unused(dy, members)
    ensures Agree(Y.Members(b, pos, members, m, rank, limit, dy, trace),
                  J.Members(b, pos, members, m, rank, limit, dj, trace),
                  DistinctMapping(m, scope))
    decreases Left(b, pos), limit, 1, |members|
  {
    hide Stratified, AlignUp, DistinctMapping, PlainMapping, Plain, Y.Value, J.Value, J.Put, Height;
    if members != [] {
      var t := members[0].typeId;
      ValuesAgree(b, pos, t, m, scope, rank);
      var y, j := Y.Value(b, pos, t, m, rank), J.Value(b, pos, t, m, rank);
      if y.Done? {
        if DistinctMapping(m, scope) {
          PutFresh(dj, members[0].name, j.value);
        }
        MembersAgree(b, y.pos, members[1..], m, scope, rank, limit, dy + [Field(members[0].name, y.value)],
          J.Put(dj, members[0].name, j.value), trace + y.trace);
      }
    }
  }

  lemma {:induction false} UnionsAgree(b: seq<byte>, pos: nat, disc: TypeId, cases: seq<UnionMember>, m: Mapping,
                                       scope: Scope, rank: Rank, limit: nat)
    requires Fits(b, pos) && Stratified(m, rank) && Below(UnionType(disc, cases), limit, rank)
    requires PlainMapping(m, scope) && PlainObject(UnionType(disc, cases), m, scope)
    requires DistinctMapping(m, scope) ==> DistinctObject(UnionType(disc, cases))
    ensures Agree(Y.Union(b, pos, disc, cases, m, rank, limit), J.Union(b, pos, disc, cases, m, rank, limit),
                  DistinctMapping(m, scope))
    decreases Left(b, pos), limit, 1, 0
  {
    hide Stratified, AlignUp, DistinctMapping, PlainMapping, Plain, Y.Value, J.Value, Height, Truncate32,
      DiscriminatorWidth, Selected;
    var d := PrimitiveAt(b, pos, DiscriminatorWidth(disc));
    var active := Selected(cases, Truncate32(d.value));
    if active.Some? {
      SelectedIn(cases, Truncate32(d.value));
      SelectedBelow(cases, disc, Truncate32(d.value), limit, rank);
      ValuesAgree(b, d.pos, active.value.typeId, m, scope, rank);
      var r := J.Value(b, d.pos, active.value.typeId, m, rank);
      if r.Done? && DistinctMapping(m, scope) {
        PutFresh([Field("_d", NInt(Truncate32(d.value)))], active.value.name, r.value);
      }
    }
  }

  // ----- the scope of a type -----

  /** The reference that a type consists of, or lists. */
  function Target(t: TypeId): Option<Hash> {
    match t
    case Sequence(Some(e)) => Target(e)
    case Array(bounds, Some(e)) => if ElementCount(bounds, 1) == 0 then None else Target(e)
    case Complete(hash) => Some(hash)
    case _ => None
  }

  /** From the reference of a type along references of the objects behind it. */
  ghost predicate Leads(t: TypeId, m: Mapping, path: seq<Hash>) {
    && path != [] && Target(t) == Some(path[0])
    && forall i :: 0 <= i < |path| - 1 ==> Contains(ObjectOf(path[i], m), path[i + 1])
  }

  ghost predicate Contains(o: TypeObject, hash: Hash) {
    exists k :: 0 <= k < |TypesIn(o)| && Target(TypesIn(o)[k]) == Some(hash)
  }

  ghost predicate Reaches(t: TypeId, m: Mapping, hash: Hash) {
    exists path :: Leads(t, m, path) && path[|path| - 1] == hash
  }

  /** The type itself: no list element in it resolves to an enum or a union. */
  predicate PlainLists(t: TypeId, m: Mapping) {
    match t
    case Sequence(Some(e)) => PlainElement(e, m) && PlainLists(e, m)
    case Array(bounds, Some(e)) => ElementCount(bounds, 1) == 0 || (PlainElement(e, m) && PlainLists(e, m))
    case _ => true
  }

  predicate PlainParts(o: TypeObject, m: Mapping) {
    forall k :: 0 <= k < |TypesIn(o)| ==> PlainLists(TypesIn(o)[k], m)
  }

  /** No list element in the type, or in any object it leads to, resolves to an enum or a union. */
  ghost predicate PlainType(t: TypeId, m: Mapping) {
    PlainLists(t, m) && forall hash :: Reaches(t, m, hash) ==> PlainParts(ObjectOf(hash, m), m)
  }

  /** No struct it leads to repeats a member name, and no union has a member named like the discriminator. */
  ghost predicate DistinctType(t: TypeId, m: Mapping) {
    forall hash :: Reaches(t, m, hash) ==> DistinctObject(ObjectOf(hash, m))
  }

  ghost function ScopeOf(t: TypeId, m: Mapping): Scope {
    iset hash: Hash | Reaches(t, m, hash)
  }

  lemma {:induction false} PlainIs(t: TypeId, m: Mapping, scope: Scope)
    ensures Plain(t, m, scope) <==> PlainLists(t, m) && (Target(t).Some? ==> Target(t).value in scope)
  {
    match t
    case Sequence(Some(e)) => PlainIs(e, m, scope);
    case Array(bounds, Some(e)) => PlainIs(e, m, scope);
    case _ =>
  }

  lemma PlainObjectIs(o: TypeObject, m: Mapping, scope: Scope)
    ensures PlainObject(o, m, scope) <==> forall k :: 0 <= k < |TypesIn(o)| ==> Plain(TypesIn(o)[k], m, scope)
  {
    if o.StructType? {
      assert forall k :: 0 <= k < |TypesIn(o)| ==> TypesIn(o)[k] == o.members[k].typeId;
    } else if o.UnionType? {
      assert forall k :: 0 <= k < |TypesIn(o)| ==> TypesIn(o)[k] == o.cases[k].typeId;
    }
  }

  lemma ReachesMore(t: TypeId, m: Mapping, hash: Hash, next: Hash)
    requires Reaches(t, m, hash) && Contains(ObjectOf(hash, m), next)
    ensures Reaches(t, m, next)
  {
    var path :| Leads(t, m, path) && path[|path| - 1] == hash;
    var longer := path + [next];
    assert Leads(t, m, longer);
  }

  lemma ReachesTarget(t: TypeId, m: Mapping)
    ensures Target(t).Some? ==> Reaches(t, m, Target(t).value)
  {
    if Target(t).Some? {
      assert Leads(t, m, [Target(t).value]);
    }
  }

  lemma ScopeIsPlain(t: TypeId, m: Mapping)
    requires PlainType(t, m)
    ensures Plain(t, m, ScopeOf(t, m)) && PlainMapping(m, ScopeOf(t, m))
  {
    var scope := ScopeOf(t, m);
    ReachesTarget(t, m);
    PlainIs(t, m, scope);
    forall hash | hash in scope ensures PlainObject(ObjectOf(hash, m), m, scope) {
      var o := ObjectOf(hash, m);
      forall k | 0 <= k < |TypesIn(o)| ensures Plain(TypesIn(o)[k], m, scope) {
        var part := TypesIn(o)[k];
        PlainIs(part, m, scope);
        if Target(part).Some? {
          assert Contains(o, Target(part).value);
          ReachesMore(t, m, hash, Target(part).value);
        }
      }
      PlainObjectIs(o, m, scope);
    }
  }

  /** For every buffer and every type in which no list element resolves to an enum or a union, whatever else the
      mapping describes, both printers perform the same accesses and end at the same offset; with distinct
      member names they also print the same tree. */
  lemma PrintersAgree(b: seq<byte>, pos: nat, t: TypeId, m: Mapping, rank: Rank)
    requires Fits(b, pos) && Stratified(m, rank) && PlainType(t, m)
    ensures Agree(Y.Value(b, pos, t, m, rank), J.Value(b, pos, t, m, rank), DistinctType(t, m))
  {
    hide Stratified, Plain, PlainMapping, PlainType, Reaches, DistinctObject, ObjectOf, Y.Value, J.Value;
    ScopeIsPlain(t, m);
    ValuesAgree(b, pos, t, m, ScopeOf(t, m), rank);
  }
}
