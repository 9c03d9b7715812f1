/** The type mappings on which decoding has its termination measure: those whose reference cycles all
    pass through a sequence. */
module Termination {
  import opened Core
  import opened Bytes
  import opened XTypes
  import opened CdrReader
  import opened Decoding
  import J = JsonPrinter
  import Y = YamlPrinter

  // ----- references that no sequence length stands before -----

  /** The type that a value of t contains without reading a sequence length first. */
  function Direct(t: TypeId): Option<Hash> {
    match t
    case Array(_, Some(e)) => Direct(e)
    case Complete(hash) => Some(hash)
    case _ => None
  }

  function Nesting(t: TypeId): nat {
    match t
    case Array(_, Some(e)) => Nesting(e) + 1
    case _ => 0
  }

  ghost predicate Edge(m: Mapping, from: Hash, to: Hash) {
    exists i, j :: 0 <= i < |m| && m[i].hash == from && 0 <= j < |TypesIn(m[i].typeObject)| &&
        Direct(TypesIn(m[i].typeObject)[j]) == Some(to)
  }

  ghost predicate IsPath(m: Mapping, p: seq<Hash>) {
    p != [] && forall i :: 0 <= i < |p| - 1 ==> Edge(m, p[i], p[i + 1])
  }

  /** A type that contains itself without a sequence in between. */
  ghost predicate HasCycle(m: Mapping) {
    exists p :: IsPath(m, p) && |p| >= 2 && p[0] == p[|p| - 1]
  }

  lemma {:induction false} HeightIs(t: TypeId, rank: Rank)
    ensures Height(t, rank) == Nesting(t) + (if Direct(t).Some? then RankOf(Direct(t).value, rank) + 1 else 0)
  {
    match t
    case Array(_, Some(e)) => HeightIs(e, rank);
    case _ =>
  }

  lemma BelowTypes(o: TypeObject, limit: nat, rank: Rank)
    ensures Below(o, limit, rank) <==> forall j :: 0 <= j < |TypesIn(o)| ==> Height(TypesIn(o)[j], rank) <= limit
  {
    if o.StructType? {
      assert forall j :: 0 <= j < |TypesIn(o)| ==> TypesIn(o)[j] == o.members[j].typeId;
    } else if o.UnionType? {
      assert forall j :: 0 <= j < |TypesIn(o)| ==> TypesIn(o)[j] == o.cases[j].typeId;
    }
  }

  // ----- a rank excludes cycles -----

  lemma EdgeDescends(m: Mapping, rank: Rank, from: Hash, to: Hash)
    requires Stratified(m, rank) && Edge(m, from, to)
    ensures RankOf(to, rank) < RankOf(from, rank)
  {
    var i, j :| 0 <= i < |m| && m[i].hash == from && 0 <= j < |TypesIn(m[i].typeObject)| &&
        Direct(TypesIn(m[i].typeObject)[j]) == Some(to);
    BelowTypes(m[i].typeObject, RankOf(from, rank), rank);
    HeightIs(TypesIn(m[i].typeObject)[j], rank);
  }

  lemma {:induction false} PathDescends(m: Mapping, rank: Rank, p: seq<Hash>)
    requires Stratified(m, rank) && IsPath(m, p)
    ensures |p| >= 2 ==> RankOf(p[|p| - 1], rank) < RankOf(p[0], rank)
    decreases |p|
  {
    if |p| >= 2 {
      EdgeDescends(m, rank, p[0], p[1]);
      assert IsPath(m, p[1..]);
      PathDescends(m, rank, p[1..]);
    }
  }

  // ----- without cycles there is a rank -----

  /** The longest way down from a type, following at most `fuel` references. */
  function Depth(m: Mapping, hash: Hash, fuel: nat): nat
    decreases fuel, |m| + 2, 0
  {
    if fuel == 0 then 0 else PairsDepth(m, m, hash, fuel)
  }

  function PairsDepth(m: Mapping, pairs: Mapping, hash: Hash, fuel: nat): nat
    requires fuel > 0 && |pairs| <= |m|
    decreases fuel, |pairs| + 1, 0
  {
    if pairs == [] then 0
    else
      Max(if pairs[0].hash == hash then TypesDepth(m, TypesIn(pairs[0].typeObject), fuel) else 0,
          PairsDepth(m, pairs[1..], hash, fuel))
  }

  function TypesDepth(m: Mapping, types: seq<TypeId>, fuel: nat): nat
    requires fuel > 0
    decreases fuel, 0, |types|
  {
    if types == [] then 0 else Max(TypeDepth(m, types[0], fuel), TypesDepth(m, types[1..], fuel))
  }

  function TypeDepth(m: Mapping, t: TypeId, fuel: nat): nat
    requires fuel > 0
    decreases fuel, 0, 0
  {
    Nesting(t) + (if Direct(t).Some? then Depth(m, Direct(t).value, fuel - 1) + 1 else 0)
  }

  function Max(a: nat, b: nat): nat { if a < b then b else a }

  lemma {:induction false} TypesDepthCovers(m: Mapping, types: seq<TypeId>, j: nat, fuel: nat)
    requires fuel > 0 && j < |types|
    ensures TypeDepth(m, types[j], fuel) <= TypesDepth(m, types, fuel)
    decreases |types|
  {
    if j > 0 {
      TypesDepthCovers(m, types[1..], j - 1, fuel);
    }
  }

  lemma {:induction false} PairsDepthCovers(m: Mapping, pairs: Mapping, i: nat, fuel: nat)
    requires fuel > 0 && |pairs| <= |m| && i < |pairs|
    ensures TypesDepth(m, TypesIn(pairs[i].typeObject), fuel) <= PairsDepth(m, pairs, pairs[i].hash, fuel)
    decreases |pairs|
  {
    if i > 0 {
      PairsDepthCovers(m, pairs[1..], i - 1, fuel);
    }
  }

  /** More fuel changes a depth only if a way down is that long. */
  lemma {:induction false} DepthGrows(m: Mapping, hash: Hash, fuel: nat) returns (p: seq<Hash>)
    requires Depth(m, hash, fuel + 1) != Depth(m, hash, fuel)
    ensures IsPath(m, p) && |p| == fuel + 1 && p[0] == hash
    decreases fuel
  {
    if fuel == 0 {
      p := [hash];
    } else {
      var i := PairsDiffer(m, m, hash, fuel);
      var types := TypesIn(m[i].typeObject);
      var j := TypesDiffer(m, types, fuel);
      var next := Direct(types[j]).value;
      var rest := DepthGrows(m, next, fuel - 1);
      assert Edge(m, hash, next);
      p := [hash] + rest;
    }
  }

  lemma {:induction false} PairsDiffer(m: Mapping, pairs: Mapping, hash: Hash, fuel: nat) returns (i: nat)
    requires fuel > 0 && |pairs| <= |m|
    requires PairsDepth(m, pairs, hash, fuel + 1) != PairsDepth(m, pairs, hash, fuel)
    ensures i < |pairs| && pairs[i].hash == hash
    ensures TypesDepth(m, TypesIn(pairs[i].typeObject), fuel + 1) != TypesDepth(m, TypesIn(pairs[i].typeObject), fuel)
    decreases |pairs|
  {
    var types := TypesIn(pairs[0].typeObject);
    if pairs[0].hash == hash && TypesDepth(m, types, fuel + 1) != TypesDepth(m, types, fuel) {
      i := 0;
    } else {
      i := PairsDiffer(m, pairs[1..], hash, fuel);
      i := i + 1;
    }
  }

  lemma {:induction false} TypesDiffer(m: Mapping, types: seq<TypeId>, fuel: nat) returns (j: nat)
    requires fuel > 0 && TypesDepth(m, types, fuel + 1) != TypesDepth(m, types, fuel)
    ensures j < |types| && Direct(types[j]).Some?
    ensures Depth(m, Direct(types[j]).value, fuel) != Depth(m, Direct(types[j]).value, fuel - 1)
    decreases |types|
  {
    if TypeDepth(m, types[0], fuel + 1) != TypeDepth(m, types[0], fuel) {
      j := 0;
    } else {
      j := TypesDiffer(m, types[1..], fuel);
      j := j + 1;
    }
  }

  function Hashes(m: Mapping): (s: set<Hash>)
    ensures |s| <= |m|
    ensures forall i :: 0 <= i < |m| ==> m[i].hash in s
  {
    if m == [] then {} else {m[0].hash} + Hashes(m[1..])
  }

  /** More entries than values: one is repeated. */
  lemma {:induction false} Pigeonhole(p: seq<Hash>, s: set<Hash>) returns (i: nat, j: nat)
    requires |p| > |s| && forall k :: 0 <= k < |p| ==> p[k] in s
    ensures i < j < |p| && p[i] == p[j]
    decreases |p|
  {
    var last := p[|p| - 1];
    if k :| 0 <= k < |p| - 1 && p[k] == last {
      i, j := k, |p| - 1;
    } else {
      i, j := Pigeonhole(p[..|p| - 1], s - {last});
    }
  }

  lemma LongPathCycles(m: Mapping, p: seq<Hash>)
    requires IsPath(m, p) && |p| > |m| + 1
    ensures HasCycle(m)
  {
    var head := p[..|p| - 1];
    forall k | 0 <= k < |head| ensures head[k] in Hashes(m) {
      assert Edge(m, p[k], p[k + 1]);
    }
    var i, j := Pigeonhole(head, Hashes(m));
    var c := p[i..j + 1];
    assert c[0] == c[|c| - 1];
    forall k | 0 <= k < |c| - 1 ensures Edge(m, c[k], c[k + 1]) {
      assert Edge(m, p[i + k], p[i + k + 1]);
    }
    assert IsPath(m, c);
  }

  function RankFor(m: Mapping): Rank {
    map h | h in Hashes(m) :: Depth(m, h, |m| + 2)
  }

  lemma {:induction false} Unlisted(m: Mapping, pairs: Mapping, hash: Hash, fuel: nat)
    requires fuel > 0 && |pairs| <= |m| && hash !in Hashes(pairs)
    ensures PairsDepth(m, pairs, hash, fuel) == 0
    decreases |pairs|
  {
    if pairs != [] {
      Unlisted(m, pairs[1..], hash, fuel);
    }
  }

  lemma AcyclicStratified(m: Mapping)
    requires !HasCycle(m)
    ensures Stratified(m, RankFor(m))
  {
    var rank, n := RankFor(m), |m| + 2;
    forall i | 0 <= i < |m| ensures Below(m[i].typeObject, RankOf(m[i].hash, rank), rank) {
      var types := TypesIn(m[i].typeObject);
      PairsDepthCovers(m, m, i, n);
      forall j | 0 <= j < |types| ensures Height(types[j], rank) <= RankOf(m[i].hash, rank) {
        TypesDepthCovers(m, types, j, n);
        HeightIs(types[j], rank);
        if Direct(types[j]).Some? {
          StableDepth(m, Direct(types[j]).value);
        }
      }
      BelowTypes(m[i].typeObject, RankOf(m[i].hash, rank), rank);
    }
  }

  lemma StableDepth(m: Mapping, hash: Hash)
    requires !HasCycle(m)
    ensures RankOf(hash, RankFor(m)) == Depth(m, hash, |m| + 1)
  {
    if Depth(m, hash, |m| + 2) != Depth(m, hash, |m| + 1) {
      var p := DepthGrows(m, hash, |m| + 1);
      LongPathCycles(m, p);
    }
    if hash !in Hashes(m) {
      Unlisted(m, m, hash, |m| + 1);
    }
  }

  /** Decoding has its termination measure exactly when every cycle of references passes through a sequence. */
  lemma StratifiedExactly(m: Mapping)
    ensures (exists rank :: Stratified(m, rank)) <==> !HasCycle(m)
  {
    if rank :| Stratified(m, rank) {
      forall p | IsPath(m, p) && |p| >= 2 ensures p[0] != p[|p| - 1] {
        PathDescends(m, rank, p);
      }
    }
    if !HasCycle(m) {
      AcyclicStratified(m);
    }
  }

  // ----- the measure does not influence what is decoded -----

  lemma {:induction false} JsonIgnoresRank(b: seq<byte>, pos: nat, t: TypeId, m: Mapping, rank: Rank, other: Rank)
    requires Fits(b, pos) && Stratified(m, rank) && Stratified(m, other)
    ensures J.Value(b, pos, t, m, rank) == J.Value(b, pos, t, m, other)
    decreases Left(b, pos), Height(t, rank), 0, 0
  {
    hide Stratified, AlignUp, Below, FindStruct, FindUnion, FindEnum, StringAt;
    match t
    case Sequence(Some(e)) =>
      var length := PrimitiveAt(b, pos, 4);
      if length.value != 0 {
        JsonElementsIgnoreRank(b, length.pos, e, length.value, m, rank, other, [], length.trace);
      }
    case Array(bounds, Some(e)) =>
      JsonElementsIgnoreRank(b, pos, e, ElementCount(bounds, 1), m, rank, other, [], []);
    case Complete(hash) =>
      var s := FindStruct(hash, m);
      var u := FindUnion(hash, m);
      var limit, limit' := RankOf(hash, rank), RankOf(hash, other);
      if s.Some? {
        FoundStructBelow(hash, m, rank, s.value);
        FoundStructBelow(hash, m, other, s.value);
        JsonMembersIgnoreRank(b, pos, s.value, m, rank, other, limit, limit', [], []);
      } else if FindEnum(hash, m).None? && u.Some? {
        FoundUnionBelow(hash, m, rank, u.value);
        FoundUnionBelow(hash, m, other, u.value);
        JsonUnionIgnoresRank(b, pos, u.value.discriminator, u.value.cases, m, rank, other, limit, limit');
      }
    case _ =>
  }

  lemma {:induction false} JsonElementsIgnoreRank(b: seq<byte>, pos: nat, e: TypeId, n: nat, m: Mapping, rank: Rank,
                                                  other: Rank, done: seq<Node>, trace: seq<Read>)
    requires Fits(b, pos) && Stratified(m, rank) && Stratified(m, other)
    ensures J.Elements(b, pos, e, n, m, rank, done, trace) == J.Elements(b, pos, e, n, m, other, done, trace)
    decreases Left(b, pos), Height(e, rank), 1, n
  {
    hide Stratified, AlignUp, J.Value;
    if n > 0 {
      JsonIgnoresRank(b, pos, e, m, rank, other);
      var r := J.Value(b, pos, e, m, rank);
      if r.Done? {
        JsonElementsIgnoreRank(b, r.pos, e, n - 1, m, rank, other, done + [r.value], trace + r.trace);
      }
    }
  }

  lemma {:induction false} JsonMembersIgnoreRank(b: seq<byte>, pos: nat, members: seq<Member>, m: Mapping, rank: Rank,
                                                 other: Rank, limit: nat, limit': nat,
                                                 done: seq<Field>, trace: seq<Read>)
    requires Fits(b, pos) && Stratified(m, rank) && Stratified(m, other)
    requires Below(StructType(members), limit, rank) && Below(StructType(members), limit', other)
    ensures J.Members(b, pos, members, m, rank, limit, done, trace) ==
            J.Members(b, pos, members, m, other, limit', done, trace)
    decreases Left(b, pos), limit, 1, |members|
  {
    hide Stratified, AlignUp, J.Value, J.Put, Height;
    if members != [] {
      var t := members[0].typeId;
      JsonIgnoresRank(b, pos, t, m, rank, other);
      var r := J.Value(b, pos, t, m, rank);
      if r.Done? {
        var next := J.Put(done, members[0].name, r.value);
        JsonMembersIgnoreRank(b, r.pos, members[1..], m, rank, other, limit, limit', next, trace + r.trace);
      }
    }
  }

  lemma {:induction false} JsonUnionIgnoresRank(b: seq<byte>, pos: nat, disc: TypeId, cases: seq<UnionMember>,
                                                m: Mapping, rank: Rank, other: Rank, limit: nat, limit': nat)
    requires Fits(b, pos) && Stratified(m, rank) && Stratified(m, other)
    requires Below(UnionType(disc, cases), limit, rank) && Below(UnionType(disc, cases), limit', other)
    ensures J.Union(b, pos, disc, cases, m, rank, limit) == J.Union(b, pos, disc, cases, m, other, limit')
    decreases Left(b, pos), limit, 1, 0
  {
    hide Stratified, AlignUp, J.Value, J.Put, Height, Truncate32, DiscriminatorWidth, Selected, Below;
    var d := PrimitiveAt(b, pos, DiscriminatorWidth(disc));
    var active := Selected(cases, Truncate32(d.value));
    if active.Some? {
      SelectedBelow(cases, disc, Truncate32(d.value), limit, rank);
      SelectedBelow(cases, disc, Truncate32(d.value), limit', other);
      JsonIgnoresRank(b, d.pos, active.value.typeId, m, rank, other);
    }
  }

  lemma {:induction false} YamlIgnoresRank(b: seq<byte>, pos: nat, t: TypeId, m: Mapping, rank: Rank, other: Rank)
    requires Fits(b, pos) && Stratified(m, rank) && Stratified(m, other)
    ensures Y.Value(b, pos, t, m, rank) == Y.Value(b, pos, t, m, other)
    decreases Left(b, pos), Height(t, rank), 0, 0
  {
    hide Stratified, AlignUp, Below, FindStruct, FindUnion, FindEnum, StringAt;
    match t
    case Sequence(Some(e)) =>
      var length := PrimitiveAt(b, pos, 4);
      if length.value != 0 {
        YamlElementsIgnoreRank(b, length.pos, e, length.value, m, rank, other, [], length.trace);
      }
    case Array(bounds, Some(e)) =>
      YamlElementsIgnoreRank(b, pos, e, ElementCount(bounds, 1), m, rank, other, [], []);
    case Complete(hash) =>
      var s := FindStruct(hash, m);
      var u := FindUnion(hash, m);
      var limit, limit' := RankOf(hash, rank), RankOf(hash, other);
      if s.Some? {
        FoundStructBelow(hash, m, rank, s.value);
        FoundStructBelow(hash, m, other, s.value);
        YamlMembersIgnoreRank(b, pos, s.value, m, rank, other, limit, limit', [], []);
      } else if FindEnum(hash, m).None? && u.Some? {
        FoundUnionBelow(hash, m, rank, u.value);
        FoundUnionBelow(hash, m, other, u.value);
        YamlUnionIgnoresRank(b, pos, u.value.discriminator, u.value.cases, m, rank, other, limit, limit');
      }
    case _ =>
  }

  lemma {:induction false} YamlElementIgnoresRank(b: seq<byte>, pos: nat, e: TypeId, m: Mapping, rank: Rank,
                                                  other: Rank)
    requires Fits(b, pos) && Stratified(m, rank) && Stratified(m, other)
    ensures Y.Element(b, pos, e, m, rank) == Y.Element(b, pos, e, m, other)
    decreases Left(b, pos), Height(e, rank), 1, 0
  {
    hide Stratified, AlignUp, Below, FindStruct, PrimitiveAt, Y.Value;
    match e
    case Complete(hash) =>
      var s := FindStruct(hash, m);
      if s.Some? {
        FoundStructBelow(hash, m, rank, s.value);
        FoundStructBelow(hash, m, other, s.value);
        YamlMembersIgnoreRank(b, pos, s.value, m, rank, other, RankOf(hash, rank), RankOf(hash, other), [], []);
      }
    case Primitive(k) =>
    case _ => YamlIgnoresRank(b, pos, e, m, rank, other);
  }

  lemma {:induction false} YamlElementsIgnoreRank(b: seq<byte>, pos: nat, e: TypeId, n: nat, m: Mapping, rank: Rank,
                                                  other: Rank, done: seq<Node>, trace: seq<Read>)
    requires Fits(b, pos) && Stratified(m, rank) && Stratified(m, other)
    ensures Y.Elements(b, pos, e, n, m, rank, done, trace) == Y.Elements(b, pos, e, n, m, other, done, trace)
    decreases Left(b, pos), Height(e, rank), 2, n
  {
    hide Stratified, AlignUp, Y.Element;
    if n > 0 {
      YamlElementIgnoresRank(b, pos, e, m, rank, other);
      var r := Y.Element(b, pos, e, m, rank);
      if r.Done? {
        YamlElementsIgnoreRank(b, r.pos, e, n - 1, m, rank, other, done + [r.value], trace + r.trace);
      }
    }
  }

  lemma {:induction false} YamlMembersIgnoreRank(b: seq<byte>, pos: nat, members: seq<Member>, m: Mapping, rank: Rank,
                                                 other: Rank, limit: nat, limit': nat,
                                                 done: seq<Field>, trace: seq<Read>)
    requires Fits(b, pos) && Stratified(m, rank) && Stratified(m, other)
    requires Below(StructType(members), limit, rank) && Below(StructType(members), limit', other)
    ensures Y.Members(b, pos, members, m, rank, limit, done, trace) ==
            Y.Members(b, pos, members, m, other, limit', done, trace)
    decreases Left(b, pos), limit, 1, |members|
  {
    hide Stratified, AlignUp, Y.Value, Height;
    if members != [] {
      var t := members[0].typeId;
      YamlIgnoresRank(b, pos, t, m, rank, other);
      var r := Y.Value(b, pos, t, m, rank);
      if r.Done? {
        var next := done + [Field(members[0].name, r.value)];
        YamlMembersIgnoreRank(b, r.pos, members[1..], m, rank, other, limit, limit', next, trace + r.trace);
      }
    }
  }

  lemma {:induction false} YamlUnionIgnoresRank(b: seq<byte>, pos: nat, disc: TypeId, cases: seq<UnionMember>,
                                                m: Mapping, rank: Rank, other: Rank, limit: nat, limit': nat)
    requires Fits(b, pos) && Stratified(m, rank) && Stratified(m, other)
    requires Below(UnionType(disc, cases), limit, rank) && Below(UnionType(disc, cases), limit', other)
    ensures Y.Union(b, pos, disc, cases, m, rank, limit) == Y.Union(b, pos, disc, cases, m, other, limit')
    decreases Left(b, pos), limit, 1, 0
  {
    hide Stratified, AlignUp, Y.Value, Height, Truncate32, DiscriminatorWidth, Selected, Below;
    var d := PrimitiveAt(b, pos, DiscriminatorWidth(disc));
    var active := Selected(cases, Truncate32(d.value));
    if active.Some? {
      SelectedBelow(cases, disc, Truncate32(d.value), limit, rank);
      SelectedBelow(cases, disc, Truncate32(d.value), limit', other);
      YamlIgnoresRank(b, d.pos, active.value.typeId, m, rank, other);
    }
  }

  /** What either printer decodes does not depend on the measure that shows that it ends. */
  lemma ValueIgnoresRank(b: seq<byte>, pos: nat, t: TypeId, m: Mapping, rank: Rank, other: Rank)
    requires Fits(b, pos) && Stratified(m, rank) && Stratified(m, other)
    ensures J.Value(b, pos, t, m, rank) == J.Value(b, pos, t, m, other)
    ensures Y.Value(b, pos, t, m, rank) == Y.Value(b, pos, t, m, other)
  {
    hide Stratified, J.Value, Y.Value;
    JsonIgnoresRank(b, pos, t, m, rank, other);
    YamlIgnoresRank(b, pos, t, m, rank, other);
  }
}
