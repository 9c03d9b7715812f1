/** When decoding completes, and in which order, and where, it touches its buffer: both printers, on any
    bytes at all. */
module ReadOrder {
  import opened Core
  import opened Bytes
  import opened XTypes
  import opened CdrReader
  import opened Decoding
  import J = JsonPrinter
  import Y = YamlPrinter

  // ----- accesses in order -----

  /** The accesses lie inside the buffer, between two offsets, one behind the other. */
  ghost predicate InOrder(trace: seq<Read>, from: nat, to: nat, size: nat) {
    && from <= to
    && (forall i :: 0 <= i < |trace| ==> from <= trace[i].offset && Ends(trace[i]) <= to && Ends(trace[i]) <= size)
    && (forall i, j :: 0 <= i < j < |trace| ==> Ends(trace[i]) <= trace[j].offset)
  }

  function Ends(r: Read): nat { r.offset + r.width }

  lemma Chain(a: seq<Read>, b: seq<Read>, from: nat, mid: nat, to: nat, size: nat)
    requires InOrder(a, from, mid, size) && InOrder(b, mid, to, size)
    ensures InOrder(a + b, from, to, size)
  {
  }

  lemma EmptyInOrder(pos: nat, size: nat)
    ensures InOrder([], pos, pos, size)
  {
  }

  // ----- string guards -----

  /** The aligned word at p, taken as the length of a string behind it, passes the 32-bit guard although
      that string would leave the buffer. */
  predicate WordWraps(b: seq<byte>, p: nat) {
    p % 4 == 0 && p + 4 <= |b| && TWO32 <= p + 4 + LittleEndian(b[p..p + 4]) <= TWO32 + |b|
  }

  /** Something the owner of a buffer can check before it is printed. */
  ghost predicate GuardsHold(b: seq<byte>) {
    forall p: nat :: !WordWraps(b, p)
  }

  lemma StringWraps(b: seq<byte>, pos: nat)
    requires Fits(b, pos)
    ensures StringAt(b, pos).OutOfBounds? ==> WordWraps(b, AlignUp(pos, 4))
    ensures pos % 4 == 0 && WordWraps(b, pos) ==> StringAt(b, pos).OutOfBounds?
  {
    hide AlignUp, LittleEndian;
    StringGuardExact(b, pos);
    AlignUpBounds(pos, 4, |b|);
    Aligned(pos, 4);
    AlignedStays(pos);
  }

  lemma AlignedStays(pos: nat)
    ensures pos % 4 == 0 ==> AlignUp(pos, 4) == pos
  {
  }

  // ----- one value -----

  /** A decode completes if the guards hold, and a completed decode has read in order. */
  ghost predicate Orderly(r: Outcome<Node>, start: nat, b: seq<byte>) {
    (GuardsHold(b) ==> r.Done?) && (r.Done? ==> InOrder(r.trace, start, r.pos, |b|))
  }

  lemma PrimitiveInOrder(b: seq<byte>, pos: nat, w: nat)
    requires IsWidth(w) && Fits(b, pos)
    ensures var r := PrimitiveAt(b, pos, w);
            InOrder(r.trace, pos, r.pos, |b|)
  {
    AlignUpBounds(pos, w, |b|);
  }

  lemma StringInOrder(b: seq<byte>, pos: nat)
    requires Fits(b, pos)
    ensures var r := StringAt(b, pos);
            (GuardsHold(b) ==> r.Done?) && (r.Done? ==> InOrder(r.trace, pos, r.pos, |b|))
  {
    hide PrimitiveAt, WordWraps, AlignUp;
    PrimitiveInOrder(b, pos, 4);
    StringWraps(b, pos);
    var length := PrimitiveAt(b, pos, 4);
    var r := StringAt(b, pos);
    if r.Done? && r.pos > length.pos {
      var body := [Read(length.pos, length.value)];
      Chain(length.trace, body, pos, length.pos, r.pos, |b|);
    }
  }

  // ----- the JSON builder -----

  lemma {:induction false} JsonInOrder(b: seq<byte>, pos: nat, t: TypeId, m: Mapping, rank: Rank)
    requires Fits(b, pos) && Stratified(m, rank)
    ensures Orderly(J.Value(b, pos, t, m, rank), pos, b)
    decreases Left(b, pos), Height(t, rank), 0, 0
  {
    hide Stratified, AlignUp, Below, FindStruct, FindUnion, FindEnum, StringAt, PrimitiveAt, InOrder, GuardsHold;
    EmptyInOrder(pos, |b|);
    match t
    case Primitive(k) => PrimitiveInOrder(b, pos, Width(k));
    case String8 => StringInOrder(b, pos);
    case Sequence(Some(e)) =>
      PrimitiveInOrder(b, pos, 4);
      var length := PrimitiveAt(b, pos, 4);
      if length.value != 0 {
        JsonElementsInOrder(b, length.pos, e, length.value, m, rank, [], length.trace, pos);
      }
    case Array(bounds, Some(e)) =>
      JsonElementsInOrder(b, pos, e, ElementCount(bounds, 1), m, rank, [], [], pos);
    case Complete(hash) =>
      var s := FindStruct(hash, m);
      var u := FindUnion(hash, m);
      PrimitiveInOrder(b, pos, 4);
      if s.Some? {
        FoundStructBelow(hash, m, rank, s.value);
        JsonMembersInOrder(b, pos, s.value, m, rank, RankOf(hash, rank), [], [], pos);
      } else if FindEnum(hash, m).None? && u.Some? {
        FoundUnionBelow(hash, m, rank, u.value);
        JsonUnionInOrder(b, pos, u.value.discriminator, u.value.cases, m, rank, RankOf(hash, rank));
      }
    case _ =>
  }

  lemma {:induction false} JsonElementsInOrder(b: seq<byte>, pos: nat, e: TypeId, n: nat, m: Mapping, rank: Rank,
                                               done: seq<Node>, trace: seq<Read>, start: nat)
    requires Fits(b, pos) && Stratified(m, rank) && InOrder(trace, start, pos, |b|)
    ensures Orderly(J.Elements(b, pos, e, n, m, rank, done, trace), start, b)
    decreases Left(b, pos), Height(e, rank), 1, n
  {
    hide Stratified, AlignUp, J.Value, InOrder, GuardsHold;
    if n > 0 {
      JsonInOrder(b, pos, e, m, rank);
      var r := J.Value(b, pos, e, m, rank);
      if r.Done? {
        Chain(trace, r.trace, start, pos, r.pos, |b|);
        JsonElementsInOrder(b, r.pos, e, n - 1, m, rank, done + [r.value], trace + r.trace, start);
      }
    }
  }

  lemma {:induction false} JsonMembersInOrder(b: seq<byte>, pos: nat, members: seq<Member>, m: Mapping, rank: Rank,
                                              limit: nat, done: seq<Field>, trace: seq<Read>, start: nat)
    requires Fits(b, pos) && Stratified(m, rank) && Below(StructType(members), limit, rank)
    requires InOrder(trace, start, pos, |b|)
    ensures Orderly(J.Members(b, pos, members, m, rank, limit, done, trace), start, b)
    decreases Left(b, pos), limit, 1, |members|
  {
    hide Stratified, AlignUp, J.Value, J.Put, InOrder, GuardsHold;
    if members != [] {
      var t := members[0].typeId;
      JsonInOrder(b, pos, t, m, rank);
      var r := J.Value(b, pos, t, m, rank);
      if r.Done? {
        Chain(trace, r.trace, start, pos, r.pos, |b|);
        var next := J.Put(done, members[0].name, r.value);
        JsonMembersInOrder(b, r.pos, members[1..], m, rank, limit, next, trace + r.trace, start);
      }
    }
  }

  lemma {:induction false} JsonUnionInOrder(b: seq<byte>, pos: nat, disc: TypeId, cases: seq<UnionMember>, m: Mapping,
                                            rank: Rank, limit: nat)
    requires Fits(b, pos) && Stratified(m, rank) && Below(UnionType(disc, cases), limit, rank)
    ensures Orderly(J.Union(b, pos, disc, cases, m, rank, limit), pos, b)
    decreases Left(b, pos), limit, 1, 0
  {
    hide Stratified, AlignUp, J.Value, J.Put, Height, Truncate32, DiscriminatorWidth, Selected, Below, PrimitiveAt,
      InOrder, GuardsHold;
    PrimitiveInOrder(b, pos, DiscriminatorWidth(disc));
    var d := PrimitiveAt(b, pos, DiscriminatorWidth(disc));
    var active := Selected(cases, Truncate32(d.value));
    if active.Some? {
      SelectedBelow(cases, disc, Truncate32(d.value), limit, rank);
      JsonInOrder(b, d.pos, active.value.typeId, m, rank);
      var r := J.Value(b, d.pos, active.value.typeId, m, rank);
      if r.Done? {
        Chain(d.trace, r.trace, pos, d.pos, r.pos, |b|);
      }
    }
  }

  // ----- the YAML formatter -----

  lemma {:induction false} YamlInOrder(b: seq<byte>, pos: nat, t: TypeId, m: Mapping, rank: Rank)
    requires Fits(b, pos) && Stratified(m, rank)
    ensures Orderly(Y.Value(b, pos, t, m, rank), pos, b)
    decreases Left(b, pos), Height(t, rank), 0, 0
  {
    hide Stratified, AlignUp, Below, FindStruct, FindUnion, FindEnum, StringAt, PrimitiveAt, InOrder, GuardsHold;
    EmptyInOrder(pos, |b|);
    match t
    case Primitive(k) => PrimitiveInOrder(b, pos, Width(k));
    case String8 => StringInOrder(b, pos);
    case Sequence(Some(e)) =>
      PrimitiveInOrder(b, pos, 4);
      var length := PrimitiveAt(b, pos, 4);
      if length.value != 0 {
        YamlElementsInOrder(b, length.pos, e, length.value, m, rank, [], length.trace, pos);
      }
    case Array(bounds, Some(e)) =>
      YamlElementsInOrder(b, pos, e, ElementCount(bounds, 1), m, rank, [], [], pos);
    case Complete(hash) =>
      var s := FindStruct(hash, m);
      var u := FindUnion(hash, m);
      PrimitiveInOrder(b, pos, 4);
      if s.Some? {
        FoundStructBelow(hash, m, rank, s.value);
        YamlMembersInOrder(b, pos, s.value, m, rank, RankOf(hash, rank), [], [], pos);
      } else if FindEnum(hash, m).None? && u.Some? {
        FoundUnionBelow(hash, m, rank, u.value);
        YamlUnionInOrder(b, pos, u.value.discriminator, u.value.cases, m, rank, RankOf(hash, rank));
      }
    case _ =>
  }

  lemma {:induction false} YamlElementInOrder(b: seq<byte>, pos: nat, e: TypeId, m: Mapping, rank: Rank)
    requires Fits(b, pos) && Stratified(m, rank)
    ensures Orderly(Y.Element(b, pos, e, m, rank), pos, b)
    decreases Left(b, pos), Height(e, rank), 1, 0
  {
    hide Stratified, AlignUp, Below, FindStruct, PrimitiveAt, InOrder, GuardsHold, Y.Value;
    match e
    case Complete(hash) =>
      EmptyInOrder(pos, |b|);
      var s := FindStruct(hash, m);
      if s.Some? {
        FoundStructBelow(hash, m, rank, s.value);
        YamlMembersInOrder(b, pos, s.value, m, rank, RankOf(hash, rank), [], [], pos);
      }
    case Primitive(k) => PrimitiveInOrder(b, pos, Width(k));
    case _ => YamlInOrder(b, pos, e, m, rank);
  }

  lemma {:induction false} YamlElementsInOrder(b: seq<byte>, pos: nat, e: TypeId, n: nat, m: Mapping, rank: Rank,
                                               done: seq<Node>, trace: seq<Read>, start: nat)
    requires Fits(b, pos) && Stratified(m, rank) && InOrder(trace, start, pos, |b|)
    ensures Orderly(Y.Elements(b, pos, e, n, m, rank, done, trace), start, b)
    decreases Left(b, pos), Height(e, rank), 2, n
  {
    hide Stratified, AlignUp, Y.Element, InOrder, GuardsHold;
    if n > 0 {
      YamlElementInOrder(b, pos, e, m, rank);
      var r := Y.Element(b, pos, e, m, rank);
      if r.Done? {
        Chain(trace, r.trace, start, pos, r.pos, |b|);
        YamlElementsInOrder(b, r.pos, e, n - 1, m, rank, done + [r.value], trace + r.trace, start);
      }
    }
  }

  lemma {:induction false} YamlMembersInOrder(b: seq<byte>, pos: nat, members: seq<Member>, m: Mapping, rank: Rank,
                                              limit: nat, done: seq<Field>, trace: seq<Read>, start: nat)
    requires Fits(b, pos) && Stratified(m, rank) && Below(StructType(members), limit, rank)
    requires InOrder(trace, start, pos, |b|)
    ensures Orderly(Y.Members(b, pos, members, m, rank, limit, done, trace), start, b)
    decreases Left(b, pos), limit, 1, |members|
  {
    hide Stratified, AlignUp, Y.Value, InOrder, GuardsHold;
    if members != [] {
      var t := members[0].typeId;
      YamlInOrder(b, pos, t, m, rank);
      var r := Y.Value(b, pos, t, m, rank);
      if r.Done? {
        Chain(trace, r.trace, start, pos, r.pos, |b|);
        var next := done + [Field(members[0].name, r.value)];
        YamlMembersInOrder(b, r.pos, members[1..], m, rank, limit, next, trace + r.trace, start);
      }
    }
  }

  lemma {:induction false} YamlUnionInOrder(b: seq<byte>, pos: nat, disc: TypeId, cases: seq<UnionMember>, m: Mapping,
                                            rank: Rank, limit: nat)
    requires Fits(b, pos) && Stratified(m, rank) && Below(UnionType(disc, cases), limit, rank)
    ensures Orderly(Y.Union(b, pos, disc, cases, m, rank, limit), pos, b)
    decreases Left(b, pos), limit, 1, 0
  {
    hide Stratified, AlignUp, Y.Value, Height, Truncate32, DiscriminatorWidth, Selected, Below, PrimitiveAt,
      InOrder, GuardsHold;
    PrimitiveInOrder(b, pos, DiscriminatorWidth(disc));
    var d := PrimitiveAt(b, pos, DiscriminatorWidth(disc));
    var active := Selected(cases, Truncate32(d.value));
    if active.Some? {
      SelectedBelow(cases, disc, Truncate32(d.value), limit, rank);
      YamlInOrder(b, d.pos, active.value.typeId, m, rank);
      var r := Y.Value(b, d.pos, active.value.typeId, m, rank);
      if r.Done? {
        Chain(d.trace, r.trace, pos, d.pos, r.pos, |b|);
      }
    }
  }

  // ----- main results -----

  /** On any bytes at all, well formed or not, and for every type, both printers stay inside the buffer, move
      forward only, never look at a byte twice, and end at most at the size rounded up to a multiple of eight. */
  lemma AnyBufferIsReadForward(b: seq<byte>, t: TypeId, m: Mapping, rank: Rank)
    requires |b| <= MAX_SIZE && Stratified(m, rank)
    ensures var j := J.Value(b, 0, t, m, rank);
            j.Done? ==> InOrder(j.trace, 0, j.pos, |b|) && j.pos <= RoundUp8(|b|)
    ensures var y := Y.Value(b, 0, t, m, rank);
            y.Done? ==> InOrder(y.trace, 0, y.pos, |b|) && y.pos <= RoundUp8(|b|)
  {
    hide Stratified, InOrder, J.Value, Y.Value, GuardsHold;
    JsonInOrder(b, 0, t, m, rank);
    YamlInOrder(b, 0, t, m, rank);
  }

  ghost predicate Completes(b: seq<byte>, pos: nat, t: TypeId, m: Mapping, rank: Rank)
    requires Fits(b, pos) && Stratified(m, rank)
  {
    J.Value(b, pos, t, m, rank).Done? && Y.Value(b, pos, t, m, rank).Done?
  }

  /** Both printers complete on a buffer, for every type and from every offset, exactly when none of its
      aligned words wraps. */
  lemma CompletesExactly(b: seq<byte>)
    requires |b| <= MAX_SIZE
    ensures GuardsHold(b) <==>
            forall pos: nat, t: TypeId, m: Mapping, rank: Rank :: Fits(b, pos) && Stratified(m, rank) ==>
              Completes(b, pos, t, m, rank)
  {
    hide Stratified, InOrder, GuardsHold, AlignUp, WordWraps;
    if GuardsHold(b) {
      forall pos: nat, t: TypeId, m: Mapping, rank: Rank | Fits(b, pos) && Stratified(m, rank)
        ensures Completes(b, pos, t, m, rank)
      {
        JsonInOrder(b, pos, t, m, rank);
        YamlInOrder(b, pos, t, m, rank);
      }
    } else {
      WrappingStringFails(b);
    }
  }

  lemma WrappingStringFails(b: seq<byte>)
    requires |b| <= MAX_SIZE && !GuardsHold(b)
    ensures exists pos: nat :: Fits(b, pos) && Stratified([], map[]) && !Completes(b, pos, String8, [], map[])
  {
    hide AlignUp;
    var p: nat :| WordWraps(b, p);
    AlignUpBounds(|b|, 8, |b|);
    StringWraps(b, p);
    assert Fits(b, p) && Stratified([], map[]) && !Completes(b, p, String8, [], map[]);
  }

  /** Four bytes on which the guard fails: the length 2^32 - 4, behind which the end offset wraps to zero. */
  lemma GuardFails()
    ensures var b: seq<byte> := [0xFC, 0xFF, 0xFF, 0xFF];
            WordWraps(b, 0) && StringAt(b, 0).OutOfBounds? && J.Value(b, 0, String8, [], map[]).OutOfBounds?
  {
    var b: seq<byte> := [0xFC, 0xFF, 0xFF, 0xFF];
    assert b[0..4] == b;
    assert b[1..][1..] == b[2..] && b[2..][1..] == b[3..] && b[3..][1..] == [];
    assert LittleEndian(b[3..]) == 0xFF && LittleEndian(b[2..]) == 0xFFFF && LittleEndian(b[1..]) == 0xFF_FFFF;
    StringWraps(b, 0);
  }
}
