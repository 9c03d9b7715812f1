/** Where the two printers part: lists whose elements are references to an enum or a union. The YAML list loops
    write such an element without reading it; the JSON loops decode it. */
module Divergence {
  import opened Core
  import opened Bytes
  import opened XTypes
  import opened CdrReader
  import opened Decoding
  import opened Lockstep
  import J = JsonPrinter
  import Y = YamlPrinter

  // ----- values that read nothing -----

  /** Where the cursor ends if a buffer of this size has no room left for any access of a value; None if some
      access still fits. Only the size is looked at, never a byte. */
  ghost function Skid(size: nat, pos: nat, t: TypeId, m: Mapping, rank: Rank): (r: Option<nat>)
    requires Stratified(m, rank)
    ensures r.Some? ==> pos <= r.value
    decreases Height(t, rank), 0, 0
  {
    match t
    case Primitive(k) => SkidWidth(size, pos, Width(k))
    case String8 => SkidWidth(size, pos, 4)
    case Sequence(Some(_)) => SkidWidth(size, pos, 4)
    case Array(bounds, Some(e)) => SkidList(size, pos, e, ElementCount(bounds, 1), m, rank)
    case Complete(hash) =>
      var s := FindStruct(hash, m);
      var u := FindUnion(hash, m);
      if s.Some? then
        FoundStructBelow(hash, m, rank, s.value);
        SkidMembers(size, pos, s.value, m, rank, RankOf(hash, rank))
      else if FindEnum(hash, m).Some? then SkidWidth(size, pos, 4)
      else if u.Some? then
        FoundUnionBelow(hash, m, rank, u.value);
        SkidUnion(size, pos, u.value.discriminator, u.value.cases, m, rank, RankOf(hash, rank))
      else Some(pos)
    case _ => Some(pos)
  }

  function SkidWidth(size: nat, pos: nat, w: nat): (r: Option<nat>)
    requires IsWidth(w)
    ensures r.Some? ==> pos <= r.value
  {
    if AlignUp(pos, w) + w <= size then None else Some(AlignUp(pos, w))
  }

  ghost function SkidList(size: nat, pos: nat, e: TypeId, n: nat, m: Mapping, rank: Rank): (r: Option<nat>)
    requires Stratified(m, rank)
    ensures r.Some? ==> pos <= r.value
    decreases Height(e, rank), 1, n
  {
    if n == 0 then Some(pos)
    else
      var s := Skid(size, pos, e, m, rank);
      if s.Some? then SkidList(size, s.value, e, n - 1, m, rank) else None
  }

  ghost function SkidMembers(size: nat, pos: nat, members: seq<Member>, m: Mapping, rank: Rank,
                             limit: nat): (r: Option<nat>)
    requires Stratified(m, rank) && Below(StructType(members), limit, rank)
    ensures r.Some? ==> pos <= r.value
    decreases limit, 1, |members|
  {
    if members == [] then Some(pos)
    else
      var s := Skid(size, pos, members[0].typeId, m, rank);
      if s.Some? then SkidMembers(size, s.value, members[1..], m, rank, limit) else None
  }

  /** A discriminator that cannot be read counts as zero. */
  ghost function SkidUnion(size: nat, pos: nat, disc: TypeId, cases: seq<UnionMember>, m: Mapping, rank: Rank,
                           limit: nat): (r: Option<nat>)
    requires Stratified(m, rank) && Below(UnionType(disc, cases), limit, rank)
    ensures r.Some? ==> pos <= r.value
    decreases limit, 1, 0
  {
    var d := SkidWidth(size, pos, DiscriminatorWidth(disc));
    var active := Selected(cases, 0);
    if d.None? || active.None? then d
    else
      SelectedBelow(cases, disc, 0, limit, rank);
      Skid(size, d.value, active.value.typeId, m, rank)
  }

  /** The decode reads nothing more and ends where the cursor skids to, or reads something and moves on. */
  ghost predicate Skids(r: Outcome<Node>, s: Option<nat>, pos: nat, trace: seq<Read>) {
    if s.Some? then r.Done? && r.trace == trace && r.pos == s.value
    else r.Done? ==> |r.trace| > |trace| && r.pos > pos
  }

  lemma PrimitiveSkids(b: seq<byte>, pos: nat, w: nat)
    requires IsWidth(w) && Fits(b, pos)
    ensures var d, s := PrimitiveAt(b, pos, w), SkidWidth(|b|, pos, w);
            if s.Some? then d.trace == [] && d.pos == s.value && d.value == 0 else |d.trace| == 1 && d.pos > pos
  {
    AlignUpBounds(pos, w, |b|);
  }

  lemma {:induction false} SkidExact(b: seq<byte>, pos: nat, t: TypeId, m: Mapping, rank: Rank)
    requires Fits(b, pos) && Stratified(m, rank)
    ensures Skids(J.Value(b, pos, t, m, rank), Skid(|b|, pos, t, m, rank), pos, [])
    decreases Height(t, rank), 0, 0
  {
    hide Stratified, AlignUp, Below, FindStruct, FindUnion, FindEnum, PrimitiveAt, SkidWidth, ElementCount, J.Elements;
    match t
    case Primitive(k) => PrimitiveSkids(b, pos, Width(k));
    case String8 => PrimitiveSkids(b, pos, 4);
    case Sequence(Some(e)) => SequenceSkids(b, pos, e, m, rank);
    case Array(bounds, Some(e)) => SkidListExact(b, pos, e, ElementCount(bounds, 1), m, rank, [], []);
    case Complete(hash) =>
      var s := FindStruct(hash, m);
      var u := FindUnion(hash, m);
      PrimitiveSkids(b, pos, 4);
      if s.Some? {
        FoundStructBelow(hash, m, rank, s.value);
        SkidMembersExact(b, pos, s.value, m, rank, RankOf(hash, rank), [], []);
      } else if FindEnum(hash, m).None? && u.Some? {
        FoundUnionBelow(hash, m, rank, u.value);
        SkidUnionExact(b, pos, u.value.discriminator, u.value.cases, m, rank, RankOf(hash, rank));
      }
    case _ =>
  }

  lemma SequenceSkids(b: seq<byte>, pos: nat, e: TypeId, m: Mapping, rank: Rank)
    requires Fits(b, pos) && Stratified(m, rank)
    ensures Skids(J.Value(b, pos, Sequence(Some(e)), m, rank), SkidWidth(|b|, pos, 4), pos, [])
  {
    hide Stratified, AlignUp, PrimitiveAt, SkidWidth;
    PrimitiveSkids(b, pos, 4);
    var length := PrimitiveAt(b, pos, 4);
    if length.value != 0 {
      TraceGrows(b, length.pos, e, length.value, m, rank, [], length.trace);
    }
  }

  lemma {:induction false} TraceGrows(b: seq<byte>, pos: nat, e: TypeId, n: nat, m: Mapping, rank: Rank,
                                      done: seq<Node>, trace: seq<Read>)
    requires Fits(b, pos) && Stratified(m, rank)
    ensures var r := J.Elements(b, pos, e, n, m, rank, done, trace);
            r.Done? ==> |r.trace| >= |trace|
    decreases n
  {
    hide Stratified, AlignUp, J.Value;
    if n > 0 {
      var r := J.Value(b, pos, e, m, rank);
      if r.Done? {
        TraceGrows(b, r.pos, e, n - 1, m, rank, done + [r.value], trace + r.trace);
      }
    }
  }

  lemma {:induction false} SkidListExact(b: seq<byte>, pos: nat, e: TypeId, n: nat, m: Mapping, rank: Rank,
                                         done: seq<Node>, trace: seq<Read>)
    requires Fits(b, pos) && Stratified(m, rank)
    ensures Skids(J.Elements(b, pos, e, n, m, rank, done, trace), SkidList(|b|, pos, e, n, m, rank), pos, trace)
    decreases Height(e, rank), 1, n
  {
    hide Stratified, AlignUp, J.Value, Skid;
    if n > 0 {
      SkidExact(b, pos, e, m, rank);
      var r := J.Value(b, pos, e, m, rank);
      if r.Done? {
        SkidListExact(b, r.pos, e, n - 1, m, rank, done + [r.value], trace + r.trace);
      }
    }
  }

  lemma {:induction false} SkidMembersExact(b: seq<byte>, pos: nat, members: seq<Member>, m: Mapping, rank: Rank,
                                            limit: nat, done: seq<Field>, trace: seq<Read>)
    requires Fits(b, pos) && Stratified(m, rank) && Below(StructType(members), limit, rank)
    ensures Skids(J.Members(b, pos, members, m, rank, limit, done, trace),
                  SkidMembers(|b|, pos, members, m, rank, limit), pos, trace)
    decreases limit, 1, |members|
  {
    hide Stratified, AlignUp, J.Value, J.Put, Skid, Height;
    if members != [] {
      SkidExact(b, pos, members[0].typeId, m, rank);
      var r := J.Value(b, pos, members[0].typeId, m, rank);
      if r.Done? {
        var next := J.Put(done, members[0].name, r.value);
        SkidMembersExact(b, r.pos, members[1..], m, rank, limit, next, trace + r.trace);
      }
    }
  }

  lemma {:induction false} SkidUnionExact(b: seq<byte>, pos: nat, disc: TypeId, cases: seq<UnionMember>, m: Mapping,
                                          rank: Rank, limit: nat)
    requires Fits(b, pos) && Stratified(m, rank) && Below(UnionType(disc, cases), limit, rank)
    ensures Skids(J.Union(b, pos, disc, cases, m, rank, limit), SkidUnion(|b|, pos, disc, cases, m, rank, limit),
                  pos, [])
    decreases limit, 1, 0
  {
    hide Stratified, AlignUp, J.Value, J.Put, Skid, Height, DiscriminatorWidth, Selected, Below, PrimitiveAt, SkidWidth;
    PrimitiveSkids(b, pos, DiscriminatorWidth(disc));
    assert Truncate32(0) == 0;
    var d := PrimitiveAt(b, pos, DiscriminatorWidth(disc));
    var active := Selected(cases, Truncate32(d.value));
    if active.Some? {
      SelectedBelow(cases, disc, Truncate32(d.value), limit, rank);
      SkidExact(b, d.pos, active.value.typeId, m, rank);
    }
  }

  // ----- a list that reads nothing in its first element reads nothing at all -----

  lemma AlignUpMonotone(p: nat, q: nat, w: nat)
    requires IsWidth(w) && p <= q
    ensures AlignUp(p, w) <= AlignUp(q, w)
  {
    AlignUpBounds(q, w, q);
    if w > 1 {
      assert AlignUp(q, w) % w == 0 by { Aligned(q, w); }
      Gap(p, AlignUp(q, w), w);
    }
  }

  /** Later in the buffer no more fits than before. */
  ghost predicate Later(s: Option<nat>, s': Option<nat>) {
    s.Some? ==> s'.Some? && s.value <= s'.value
  }

  lemma {:induction false} SkidMonotone(size: nat, p: nat, q: nat, t: TypeId, m: Mapping, rank: Rank)
    requires p <= q && Stratified(m, rank)
    ensures Later(Skid(size, p, t, m, rank), Skid(size, q, t, m, rank))
    decreases Height(t, rank), 0, 0
  {
    hide Stratified, AlignUp, Below, FindStruct, FindUnion, FindEnum, SkidWidth, ElementCount, SkidUnion;
    match t
    case Primitive(k) => WidthMonotone(size, p, q, Width(k));
    case String8 => WidthMonotone(size, p, q, 4);
    case Sequence(Some(_)) => WidthMonotone(size, p, q, 4);
    case Array(bounds, Some(e)) => SkidListMonotone(size, p, q, e, ElementCount(bounds, 1), m, rank);
    case Complete(hash) =>
      var s := FindStruct(hash, m);
      var u := FindUnion(hash, m);
      WidthMonotone(size, p, q, 4);
      if s.Some? {
        FoundStructBelow(hash, m, rank, s.value);
        SkidMembersMonotone(size, p, q, s.value, m, rank, RankOf(hash, rank));
      } else if FindEnum(hash, m).None? && u.Some? {
        FoundUnionBelow(hash, m, rank, u.value);
        SkidUnionMonotone(size, p, q, u.value.discriminator, u.value.cases, m, rank, RankOf(hash, rank));
      }
    case _ =>
  }

  lemma WidthMonotone(size: nat, p: nat, q: nat, w: nat)
    requires IsWidth(w) && p <= q
    ensures Later(SkidWidth(size, p, w), SkidWidth(size, q, w))
  {
    AlignUpMonotone(p, q, w);
  }

  lemma {:induction false} SkidListMonotone(size: nat, p: nat, q: nat, e: TypeId, n: nat, m: Mapping, rank: Rank)
    requires p <= q && Stratified(m, rank)
    ensures Later(SkidList(size, p, e, n, m, rank), SkidList(size, q, e, n, m, rank))
    decreases Height(e, rank), 1, n
  {
    hide Stratified, Skid, Height;
    if n > 0 && Skid(size, p, e, m, rank).Some? {
      SkidMonotone(size, p, q, e, m, rank);
      SkidListMonotone(size, Skid(size, p, e, m, rank).value, Skid(size, q, e, m, rank).value, e, n - 1, m, rank);
    }
  }

  lemma {:induction false} SkidMembersMonotone(size: nat, p: nat, q: nat, members: seq<Member>, m: Mapping, rank: Rank,
                                               limit: nat)
    requires p <= q && Stratified(m, rank) && Below(StructType(members), limit, rank)
    ensures Later(SkidMembers(size, p, members, m, rank, limit), SkidMembers(size, q, members, m, rank, limit))
    decreases limit, 1, |members|
  {
    hide Stratified, Skid, Height;
    if members != [] && Skid(size, p, members[0].typeId, m, rank).Some? {
      var t := members[0].typeId;
      SkidMonotone(size, p, q, t, m, rank);
      var p', q' := Skid(size, p, t, m, rank).value, Skid(size, q, t, m, rank).value;
      SkidMembersMonotone(size, p', q', members[1..], m, rank, limit);
    }
  }

  lemma {:induction false} SkidUnionMonotone(size: nat, p: nat, q: nat, disc: TypeId, cases: seq<UnionMember>,
                                             m: Mapping, rank: Rank, limit: nat)
    requires p <= q && Stratified(m, rank) && Below(UnionType(disc, cases), limit, rank)
    ensures Later(SkidUnion(size, p, disc, cases, m, rank, limit), SkidUnion(size, q, disc, cases, m, rank, limit))
    decreases limit, 1, 0
  {
    hide Stratified, Skid, Height, SkidWidth, Selected, Below, DiscriminatorWidth;
    var w := DiscriminatorWidth(disc);
    WidthMonotone(size, p, q, w);
    var active := Selected(cases, 0);
    if SkidWidth(size, p, w).Some? && active.Some? {
      SelectedBelow(cases, disc, 0, limit, rank);
      SkidMonotone(size, SkidWidth(size, p, w).value, SkidWidth(size, q, w).value, active.value.typeId, m, rank);
    }
  }

  lemma {:induction false} SkidRepeats(size: nat, pos: nat, e: TypeId, n: nat, m: Mapping, rank: Rank)
    requires Stratified(m, rank)
    ensures var s, all := Skid(size, pos, e, m, rank), SkidList(size, pos, e, n, m, rank);
            (all.Some? <==> n == 0 || s.Some?) && (all == Some(pos) <==> n == 0 || s == Some(pos))
    decreases n
  {
    hide Stratified, Skid, Height;
    var s := Skid(size, pos, e, m, rank);
    if n > 0 && s.Some? {
      SkidMonotone(size, pos, s.value, e, m, rank);
      SkidRepeats(size, s.value, e, n - 1, m, rank);
    }
  }

  // ----- the values printed -----

  lemma {:induction false} YamlSkips(b: seq<byte>, pos: nat, hash: Hash, n: nat, m: Mapping, rank: Rank,
                                     done: seq<Node>, trace: seq<Read>)
    requires Fits(b, pos) && Stratified(m, rank) && FindStruct(hash, m).None?
    ensures Y.Elements(b, pos, Complete(hash), n, m, rank, done, trace) == Done(NList(done + Nulls(n)), pos, trace)
    decreases n
  {
    hide Stratified, FindStruct, AlignUp;
    if n > 0 {
      YamlSkips(b, pos, hash, n - 1, m, rank, done + [NNull], trace + []);
      assert done + [NNull] + Nulls(n - 1) == done + Nulls(n);
      assert trace + [] == trace;
    } else {
      assert done + Nulls(0) == done;
    }
  }

  function Nulls(n: nat): (ns: seq<Node>)
    ensures |ns| == n
  {
    seq(n, i => NNull)
  }

  /** The first element that JSON decodes is the first one it prints. */
  lemma {:induction false} JsonKeeps(b: seq<byte>, pos: nat, e: TypeId, n: nat, m: Mapping, rank: Rank,
                                     done: seq<Node>, trace: seq<Read>)
    requires Fits(b, pos) && Stratified(m, rank)
    ensures var r, first := J.Elements(b, pos, e, n, m, rank, done, trace), J.Value(b, pos, e, m, rank);
            r.Done? ==> r.value.NList? && done <= r.value.elements && |r.value.elements| == |done| + n &&
                        (n > 0 ==> first.Done? && r.value.elements[|done|] == first.value)
    decreases n
  {
    hide Stratified, AlignUp, J.Value;
    if n > 0 {
      var r := J.Value(b, pos, e, m, rank);
      if r.Done? {
        JsonKeeps(b, r.pos, e, n - 1, m, rank, done + [r.value], trace + r.trace);
      }
    }
  }

  lemma JsonPrintsSomething(b: seq<byte>, pos: nat, hash: Hash, m: Mapping, rank: Rank)
    requires Fits(b, pos) && Stratified(m, rank)
    requires FindStruct(hash, m).None? && (FindEnum(hash, m).Some? || FindUnion(hash, m).Some?)
    ensures var r := J.Value(b, pos, Complete(hash), m, rank);
            r.Done? ==> r.value != NNull
  {
    hide Stratified, AlignUp, FindStruct, FindEnum, FindUnion, PrimitiveAt, Selected, J.Put, Below;
    if FindEnum(hash, m).Some? {
      EnumPrintsSomething(FindEnum(hash, m).value, Signed(PrimitiveAt(b, pos, 4).value, 4));
    }
  }

  lemma {:induction false} EnumPrintsSomething(literals: seq<Literal>, value: int)
    ensures EnumNode(literals, value) != NNull
  {
    if literals != [] {
      EnumPrintsSomething(literals[1..], value);
    }
  }

  // ----- the exact conditions -----

  /** A list of n elements from an offset on, where s says what one element does in a buffer without room:
      - the accesses are the same exactly if there is no element, or none that fits an access;
      - the final offsets are the same exactly if moreover there is no padding to skip;
      - everything, the printed tree included, is the same exactly if there is no element, or the reference
        leads nowhere. */
  ghost predicate PartExactly(y: Outcome<Node>, j: Outcome<Node>, pos: nat, n: nat, s: Option<nat>, nowhere: bool) {
    && y.Done? && y.pos == pos
    && (j.Done? ==> pos <= j.pos)
    && (j.Done? && y.trace == j.trace <==> n == 0 || s.Some?)
    && (j.Done? && y.pos == j.pos <==> n == 0 || s == Some(pos))
    && (Agree(y, j, false) <==> n == 0 || s == Some(pos))
    && (Agree(y, j, true) <==> n == 0 || nowhere)
  }

  function Nowhere(hash: Hash, m: Mapping): bool {
    FindStruct(hash, m).None? && FindEnum(hash, m).None? && FindUnion(hash, m).None?
  }

  lemma ListsPart(b: seq<byte>, pos: nat, hash: Hash, n: nat, m: Mapping, rank: Rank, trace: seq<Read>)
    requires Fits(b, pos) && Stratified(m, rank) && FindStruct(hash, m).None?
    ensures var e := Complete(hash);
            PartExactly(Y.Elements(b, pos, e, n, m, rank, [], trace), J.Elements(b, pos, e, n, m, rank, [], trace),
                        pos, n, Skid(|b|, pos, e, m, rank), Nowhere(hash, m))
  {
    hide Stratified, FindStruct, FindEnum, FindUnion, AlignUp, J.Value, J.Elements, Y.Elements, Skid, SkidList;
    var e := Complete(hash);
    YamlSkips(b, pos, hash, n, m, rank, [], trace);
    SkidListExact(b, pos, e, n, m, rank, [], trace);
    SkidRepeats(|b|, pos, e, n, m, rank);
    JsonKeeps(b, pos, e, n, m, rank, [], trace);
    assert [] + Nulls(n) == Nulls(n);
    if Nowhere(hash, m) {
      JsonSkips(b, pos, hash, n, m, rank, [], trace);
    } else {
      JsonPrintsSomething(b, pos, hash, m, rank);
    }
    var y, j := Y.Elements(b, pos, e, n, m, rank, [], trace), J.Elements(b, pos, e, n, m, rank, [], trace);
    if n > 0 && j.Done? && !Nowhere(hash, m) {
      assert y.value.elements[0] == NNull != j.value.elements[0];
    }
    if n == 0 {
      NoElements(b, pos, e, m, rank, trace);
    }
  }

  lemma NoElements(b: seq<byte>, pos: nat, e: TypeId, m: Mapping, rank: Rank, trace: seq<Read>)
    requires Fits(b, pos) && Stratified(m, rank)
    ensures J.Elements(b, pos, e, 0, m, rank, [], trace) == Done(NList([]), pos, trace)
  {
  }

  lemma {:induction false} JsonSkips(b: seq<byte>, pos: nat, hash: Hash, n: nat, m: Mapping, rank: Rank,
                                     done: seq<Node>, trace: seq<Read>)
    requires Fits(b, pos) && Stratified(m, rank) && Nowhere(hash, m)
    ensures J.Elements(b, pos, Complete(hash), n, m, rank, done, trace) == Done(NList(done + Nulls(n)), pos, trace)
    decreases n
  {
    hide Stratified, FindStruct, FindEnum, FindUnion, AlignUp;
    if n > 0 {
      JsonSkips(b, pos, hash, n - 1, m, rank, done + [NNull], trace + []);
      assert done + [NNull] + Nulls(n - 1) == done + Nulls(n);
      assert trace + [] == trace;
    } else {
      assert done + Nulls(0) == done;
    }
  }

  /** Sequences, with the length read first. */
  lemma SequencesPart(b: seq<byte>, pos: nat, hash: Hash, m: Mapping, rank: Rank)
    requires Fits(b, pos) && Stratified(m, rank) && FindStruct(hash, m).None?
    ensures var t := Sequence(Some(Complete(hash)));
            var length := PrimitiveAt(b, pos, 4);
            PartExactly(Y.Value(b, pos, t, m, rank), J.Value(b, pos, t, m, rank), length.pos, length.value,
                        Skid(|b|, length.pos, Complete(hash), m, rank), Nowhere(hash, m))
  {
    hide Stratified, FindStruct, FindEnum, FindUnion, AlignUp, J.Elements, Y.Elements, J.Value, Y.Value, Skid,
      PartExactly, Nowhere, PrimitiveAt;
    J.SequenceIsElements(b, pos, Complete(hash), m, rank);
    Y.SequenceIsElements(b, pos, Complete(hash), m, rank);
    var length := PrimitiveAt(b, pos, 4);
    ListsPart(b, length.pos, hash, length.value, m, rank, length.trace);
  }

  /** Arrays, with the number of elements from the type. */
  lemma ArraysPart(b: seq<byte>, pos: nat, bounds: seq<nat>, hash: Hash, m: Mapping, rank: Rank)
    requires Fits(b, pos) && Stratified(m, rank) && FindStruct(hash, m).None?
    ensures var t := Array(bounds, Some(Complete(hash)));
            PartExactly(Y.Value(b, pos, t, m, rank), J.Value(b, pos, t, m, rank), pos, ElementCount(bounds, 1),
                        Skid(|b|, pos, Complete(hash), m, rank), Nowhere(hash, m))
  {
    hide Stratified, FindStruct, FindEnum, FindUnion, AlignUp, J.Elements, Y.Elements, Skid, PartExactly, Nowhere,
      ElementCount;
    ListsPart(b, pos, hash, ElementCount(bounds, 1), m, rank, []);
  }

  // ----- enums and unions, spelled out -----

  lemma EnumSkid(size: nat, pos: nat, hash: Hash, m: Mapping, rank: Rank)
    requires Stratified(m, rank) && FindStruct(hash, m).None? && FindEnum(hash, m).Some?
    ensures Skid(size, pos, Complete(hash), m, rank) == SkidWidth(size, pos, 4)
  {
  }

  /** On a sequence of enums the printers agree exactly when its length is zero. They perform the same accesses
      exactly when the length is zero or the buffer ends behind it, and then end at the same offset. */
  lemma EnumSequencesDiverge(b: seq<byte>, pos: nat, hash: Hash, m: Mapping, rank: Rank)
    requires Fits(b, pos) && Stratified(m, rank) && FindStruct(hash, m).None? && FindEnum(hash, m).Some?
    ensures var t := Sequence(Some(Complete(hash)));
            var length := PrimitiveAt(b, pos, 4);
            var y, j := Y.Value(b, pos, t, m, rank), J.Value(b, pos, t, m, rank);
            && (Agree(y, j, true) <==> length.value == 0)
            && y.Done? && j.Done?
            && (y.trace == j.trace <==> length.value == 0 || length.pos + 4 > |b|)
            && (y.pos == j.pos <==> length.value == 0 || length.pos + 4 > |b|)
  {
    hide Stratified, FindStruct, FindEnum, FindUnion, J.Value, Y.Value, Skid, PrimitiveAt, AlignUp;
    var length := PrimitiveAt(b, pos, 4);
    SequencesPart(b, pos, hash, m, rank);
    EnumSkid(|b|, length.pos, hash, m, rank);
    LengthAligned(b, pos);
    EnumSequenceDone(b, pos, hash, m, rank);
  }

  lemma LengthAligned(b: seq<byte>, pos: nat)
    requires Fits(b, pos)
    ensures PrimitiveAt(b, pos, 4).pos % 4 == 0
    ensures AlignUp(PrimitiveAt(b, pos, 4).pos, 4) == PrimitiveAt(b, pos, 4).pos
  {
    Aligned(pos, 4);
  }

  lemma EnumSequenceDone(b: seq<byte>, pos: nat, hash: Hash, m: Mapping, rank: Rank)
    requires Fits(b, pos) && Stratified(m, rank) && FindStruct(hash, m).None? && FindEnum(hash, m).Some?
    ensures J.Value(b, pos, Sequence(Some(Complete(hash))), m, rank).Done?
  {
    hide Stratified, FindStruct, FindEnum, FindUnion, J.Elements, PrimitiveAt;
    var length := PrimitiveAt(b, pos, 4);
    EnumsDone(b, length.pos, hash, length.value, m, rank, [], length.trace);
  }

  lemma {:induction false} EnumsDone(b: seq<byte>, pos: nat, hash: Hash, n: nat, m: Mapping, rank: Rank,
                                     done: seq<Node>, trace: seq<Read>)
    requires Fits(b, pos) && Stratified(m, rank) && FindStruct(hash, m).None? && FindEnum(hash, m).Some?
    ensures J.Elements(b, pos, Complete(hash), n, m, rank, done, trace).Done?
    decreases n
  {
    hide Stratified, FindStruct, FindEnum, FindUnion, PrimitiveAt, EnumNode;
    if n > 0 {
      var r := J.Value(b, pos, Complete(hash), m, rank);
      EnumsDone(b, r.pos, hash, n - 1, m, rank, done + [r.value], trace + r.trace);
    }
  }

  /** The same for arrays of enums, at any offset. */
  lemma EnumArraysDiverge(b: seq<byte>, pos: nat, bounds: seq<nat>, hash: Hash, m: Mapping, rank: Rank)
    requires Fits(b, pos) && Stratified(m, rank) && FindStruct(hash, m).None? && FindEnum(hash, m).Some?
    ensures var t := Array(bounds, Some(Complete(hash)));
            var n := ElementCount(bounds, 1);
            var y, j := Y.Value(b, pos, t, m, rank), J.Value(b, pos, t, m, rank);
            && (Agree(y, j, true) <==> n == 0)
            && y.Done? && j.Done?
            && (y.trace == j.trace <==> n == 0 || AlignUp(pos, 4) + 4 > |b|)
            && (y.pos == j.pos <==> n == 0 || (AlignUp(pos, 4) == pos && pos + 4 > |b|))
  {
    hide Stratified, FindStruct, FindEnum, FindUnion, Y.Value, J.Elements, Skid, AlignUp, ElementCount;
    var n := ElementCount(bounds, 1);
    ArraysPart(b, pos, bounds, hash, m, rank);
    EnumSkid(|b|, pos, hash, m, rank);
    EnumsDone(b, pos, hash, n, m, rank, [], []);
  }

  ghost predicate IsUnion(hash: Hash, m: Mapping, u: TypeObject) {
    FindStruct(hash, m).None? && FindEnum(hash, m).None? && FindUnion(hash, m) == Some(u) && u.UnionType?
  }

  /** One union element reads nothing exactly if its discriminator does not fit, and neither does anything of
      the member that label zero selects. */
  lemma UnionSkid(size: nat, pos: nat, hash: Hash, u: TypeObject, m: Mapping, rank: Rank)
    requires Stratified(m, rank) && IsUnion(hash, m, u)
    ensures var w, active := DiscriminatorWidth(u.discriminator), Selected(u.cases, 0);
            Skid(size, pos, Complete(hash), m, rank) ==
              if AlignUp(pos, w) + w <= size then None
              else if active.None? then Some(AlignUp(pos, w))
              else Skid(size, AlignUp(pos, w), active.value.typeId, m, rank)
  {
    hide Stratified, FindStruct, FindEnum, FindUnion, AlignUp, DiscriminatorWidth, Selected, Below;
    FoundUnionBelow(hash, m, rank, u);
  }

  /** On a sequence of unions the printers agree exactly when its length is zero. As soon as one discriminator
      fits, the accesses differ and JSON ends further on. */
  lemma UnionSequencesDiverge(b: seq<byte>, pos: nat, hash: Hash, u: TypeObject, m: Mapping, rank: Rank)
    requires Fits(b, pos) && Stratified(m, rank) && IsUnion(hash, m, u)
    ensures var t := Sequence(Some(Complete(hash)));
            var length, w := PrimitiveAt(b, pos, 4), DiscriminatorWidth(u.discriminator);
            var y, j := Y.Value(b, pos, t, m, rank), J.Value(b, pos, t, m, rank);
            && (Agree(y, j, true) <==> length.value == 0)
            && PartExactly(y, j, length.pos, length.value, Skid(|b|, length.pos, Complete(hash), m, rank), false)
            && (length.value > 0 && AlignUp(length.pos, w) + w <= |b| && j.Done? ==>
                 y.trace != j.trace && y.pos < j.pos)
  {
    hide Stratified, FindStruct, FindEnum, FindUnion, J.Value, Y.Value, Skid, PrimitiveAt, AlignUp, Selected,
      DiscriminatorWidth;
    var length := PrimitiveAt(b, pos, 4);
    SequencesPart(b, pos, hash, m, rank);
    UnionSkid(|b|, length.pos, hash, u, m, rank);
  }

  lemma UnionArraysDiverge(b: seq<byte>, pos: nat, bounds: seq<nat>, hash: Hash, u: TypeObject, m: Mapping, rank: Rank)
    requires Fits(b, pos) && Stratified(m, rank) && IsUnion(hash, m, u)
    ensures var t := Array(bounds, Some(Complete(hash)));
            var n, w := ElementCount(bounds, 1), DiscriminatorWidth(u.discriminator);
            var y, j := Y.Value(b, pos, t, m, rank), J.Value(b, pos, t, m, rank);
            && (Agree(y, j, true) <==> n == 0)
            && PartExactly(y, j, pos, n, Skid(|b|, pos, Complete(hash), m, rank), false)
            && (n > 0 && AlignUp(pos, w) + w <= |b| && j.Done? ==> y.trace != j.trace && y.pos < j.pos)
  {
    hide Stratified, FindStruct, FindEnum, FindUnion, J.Value, Y.Value, Skid, AlignUp, Selected, DiscriminatorWidth,
      ElementCount;
    ArraysPart(b, pos, bounds, hash, m, rank);
    UnionSkid(|b|, pos, hash, u, m, rank);
  }

  // ----- inputs -----

  const ENUM: Mapping := [Pair(true, 7, true, EnumType([]))]
  const UNION: Mapping := [Pair(true, 7, true, UnionType(Complete(8), []))]
  const LIST: TypeId := Sequence(Some(Complete(7)))

  lemma Lookups()
    ensures Stratified(ENUM, map[]) && FindStruct(7, ENUM).None? && FindEnum(7, ENUM).Some?
    ensures Stratified(UNION, map[]) && IsUnion(7, UNION, UnionType(Complete(8), []))
  {
    assert ENUM[1..] == [] && UNION[1..] == [];
    assert Below(ENUM[0].typeObject, 0, map[]) && Below(UNION[0].typeObject, 0, map[]);
  }

  lemma LengthOne(b: seq<byte>)
    requires [1, 0, 0, 0] <= b && |b| <= MAX_SIZE
    ensures PrimitiveAt(b, 0, 4) == Done(1, 4, [Read(0, 4)])
  {
    assert b[0..4] == [1, 0, 0, 0];
    assert [1, 0, 0, 0][1..] == [0, 0, 0] && [0, 0, 0][1..] == [0, 0] && [0, 0][1..] == [0] && [0][1..] == [];
    assert LittleEndian([0]) == 0 && LittleEndian([0, 0]) == 0 && LittleEndian([0, 0, 0]) == 0;
  }

  /** One enum is announced and the buffer ends: same accesses, same offset, different trees. */
  lemma SameAccessesDifferentTrees()
    ensures Stratified(ENUM, map[])
    ensures var b: seq<byte> := [1, 0, 0, 0];
            var y, j := Y.Value(b, 0, LIST, ENUM, map[]), J.Value(b, 0, LIST, ENUM, map[]);
            Agree(y, j, false) && !Agree(y, j, true)
  {
    hide Y.Value, J.Value, FindStruct, FindEnum, FindUnion, PrimitiveAt;
    var b: seq<byte> := [1, 0, 0, 0];
    Lookups();
    LengthOne(b);
    EnumSequencesDiverge(b, 0, 7, ENUM, map[]);
  }

  ghost predicate Behind(y: Outcome<Node>, j: Outcome<Node>) {
    y.Done? && j.Done? && y.pos < j.pos
  }

  /** One enum, or one union, that is there: JSON ends behind it and YAML in front of it. */
  lemma YamlStaysBehind()
    ensures Stratified(ENUM, map[]) && Stratified(UNION, map[])
    ensures var b: seq<byte> := [1, 0, 0, 0, 5, 0, 0, 0];
            && Behind(Y.Value(b, 0, LIST, ENUM, map[]), J.Value(b, 0, LIST, ENUM, map[]))
            && Behind(Y.Value(b, 0, LIST, UNION, map[]), J.Value(b, 0, LIST, UNION, map[]))
  {
    hide Y.Value, J.Value, FindStruct, FindEnum, FindUnion, PrimitiveAt, Skid, IsUnion;
    var b: seq<byte> := [1, 0, 0, 0, 5, 0, 0, 0];
    Lookups();
    LengthOne(b);
    EnumSequencesDiverge(b, 0, 7, ENUM, map[]);
    SequencesPart(b, 0, 7, ENUM, map[]);
    assert FindStruct(7, UNION).None? by { UnionFound(7, UNION, UnionType(Complete(8), [])); }
    SequencesPart(b, 0, 7, UNION, map[]);
    UnionSequencesDiverge(b, 0, 7, UnionType(Complete(8), []), UNION, map[]);
    OneUnionDone(b);
  }

  lemma UnionFound(hash: Hash, m: Mapping, u: TypeObject)
    requires IsUnion(hash, m, u)
    ensures FindStruct(hash, m).None?
  {
  }

  lemma OneUnionDone(b: seq<byte>)
    requires [1, 0, 0, 0] <= b && |b| <= MAX_SIZE && Stratified(UNION, map[])
    ensures J.Value(b, 0, LIST, UNION, map[]).Done?
  {
    hide FindStruct, FindEnum, FindUnion, PrimitiveAt, J.Value, Stratified, AlignUp;
    Lookups();
    LengthOne(b);
    J.SequenceIsElements(b, 0, Complete(7), UNION, map[]);
    OneElementDone(b, UNION, [Read(0, 4)]);
    BareUnionDone(b, 4);
  }

  lemma OneElementDone(b: seq<byte>, m: Mapping, trace: seq<Read>)
    requires Fits(b, 4) && Stratified(m, map[])
    ensures J.Value(b, 4, Complete(7), m, map[]).Done? ==> J.Elements(b, 4, Complete(7), 1, m, map[], [], trace).Done?
  {
    hide J.Value, AlignUp;
  }

  lemma BareUnionDone(b: seq<byte>, pos: nat)
    requires Fits(b, pos) && Stratified(UNION, map[])
    ensures J.Value(b, pos, Complete(7), UNION, map[]).Done?
  {
    hide FindStruct, FindEnum, FindUnion, PrimitiveAt, Stratified, AlignUp, Truncate32, DiscriminatorWidth;
    Lookups();
  }
}
