/** Decoding inverts PLAIN_CDR serialization (section 7.4.1 of OMG DDS-XTypes 1.3), at every offset. */
module CdrRoundTrip {
  import opened Core
  import opened Bytes
  import opened XTypes
  import opened CdrReader
  import opened Decoding
  import J = JsonPrinter
  import Y = YamlPrinter
  import L = Lockstep

  /** What a publisher hands over. */
  datatype Sample =
    | SBool(flag: bool)
    | SInt(i: int)
    | SChar(c: byte)
    | SFloat(bits: nat)
    | SText(text: seq<byte>)
    | SList(items: seq<Sample>)
    | SStruct(fields: seq<Sample>)
    | SEnum(i: int)
    | SUnion(tag: int, body: Option<Sample>)

  // ----- samples of a type -----

  predicate ConformsPrimitive(v: Sample, k: Kind) {
    match k
    case BOOLEAN => v.SBool?
    case CHAR8 => v.SChar?
    case INT16 | INT32 | INT64 => v.SInt? && FitsSigned(v.i, Width(k))
    case BYTE | UINT16 | UINT32 | UINT64 => v.SInt? && 0 <= v.i < Pow256(Width(k))
    case FLOAT32 | FLOAT64 => v.SFloat? && v.bits < Pow256(Width(k))
  }

  function Product(bounds: seq<nat>): nat {
    if bounds == [] then 1 else bounds[0] * Product(bounds[1..])
  }

  /** The bytes a discriminator occupies on the wire; none for a type that cannot be one. */
  function WireWidth(disc: TypeId, m: Mapping): Option<nat> {
    match disc
    case Primitive(FLOAT32) => None
    case Primitive(FLOAT64) => None
    case Primitive(k) => Some(Width(k))
    case Complete(hash) => if FindStruct(hash, m).None? && FindEnum(hash, m).Some? then Some(4) else None
    case _ => None
  }

  predicate ConformsTag(tag: int, disc: TypeId, m: Mapping) {
    && WireWidth(disc, m) == Some(DiscriminatorWidth(disc))
    && FitsSigned(tag, 4)
    && (disc == Primitive(UINT64) ==> 0 <= tag)
  }

  predicate Conforms(v: Sample, t: TypeId, m: Mapping)
    decreases v
  {
    match t
    case Primitive(k) => ConformsPrimitive(v, k)
    case String8 => v.SText? && |v.text| + 1 < TWO32
    case Sequence(Some(e)) =>
      v.SList? && |v.items| < TWO32 && forall i :: 0 <= i < |v.items| ==> Conforms(v.items[i], e, m)
    case Array(bounds, Some(e)) =>
      v.SList? && |v.items| == Product(bounds) < TWO32 && forall i :: 0 <= i < |v.items| ==> Conforms(v.items[i], e, m)
    case Complete(hash) =>
      var s := FindStruct(hash, m);
      if s.Some? then
        v.SStruct? && |v.fields| == |s.value| &&
        forall i :: 0 <= i < |v.fields| ==> Conforms(v.fields[i], s.value[i].typeId, m)
      else if FindEnum(hash, m).Some? then v.SEnum? && FitsSigned(v.i, 4)
      else
        var u := FindUnion(hash, m);
        u.Some? && u.value.UnionType? && v.SUnion? && ConformsTag(v.tag, u.value.discriminator, m) &&
        var c := Selected(u.value.cases, v.tag);
        if c.None? then v.body.None? else v.body.Some? && Conforms(v.body.value, c.value.typeId, m)
    case _ => false
  }

  // ----- the wire format -----

  function Zeros(n: nat): (z: seq<byte>)
    ensures |z| == n
  {
    seq(n, i => 0)
  }

  function Padded(n: nat, w: nat, pos: nat): seq<byte>
    requires IsWidth(w)
  {
    AlignUpBounds(pos, w, 0);
    Zeros(AlignUp(pos, w) - pos) + ToLittleEndian(n, w)
  }

  function RawBits(v: Sample, k: Kind): (n: nat)
    requires ConformsPrimitive(v, k)
    ensures n < Pow256(Width(k))
  {
    match k
    case BOOLEAN => if v.flag then 1 else 0
    case CHAR8 => assert Pow256(1) == 256; v.c
    case INT16 | INT32 | INT64 => SignedInverts(v.i, Width(k)); Unsigned(v.i, Width(k))
    case BYTE | UINT16 | UINT32 | UINT64 => v.i
    case FLOAT32 | FLOAT64 => v.bits
  }

  function Encode(v: Sample, t: TypeId, m: Mapping, pos: nat): seq<byte>
    requires Conforms(v, t, m)
    decreases v
  {
    match t
    case Primitive(k) => Padded(RawBits(v, k), Width(k), pos)
    case String8 => Padded(|v.text| + 1, 4, pos) + v.text + [0]
    case Sequence(Some(e)) =>
      var length := Padded(|v.items|, 4, pos);
      length + EncodeList(v.items, e, m, pos + |length|)
    case Array(_, Some(e)) => EncodeList(v.items, e, m, pos)
    case Complete(hash) =>
      if v.SStruct? then EncodeFields(v.fields, FindStruct(hash, m).value, m, pos)
      else if v.SEnum? then
        SignedInverts(v.i, 4);
        Padded(Unsigned(v.i, 4), 4, pos)
      else
        var u := FindUnion(hash, m).value;
        var w := DiscriminatorWidth(u.discriminator);
        TagFits(v.tag, w);
        var tag := Padded(Unsigned(v.tag, w), w, pos);
        if v.body.None? then tag
        else tag + Encode(v.body.value, Selected(u.cases, v.tag).value.typeId, m, pos + |tag|)
  }

  function EncodeList(vs: seq<Sample>, e: TypeId, m: Mapping, pos: nat): seq<byte>
    requires forall i :: 0 <= i < |vs| ==> Conforms(vs[i], e, m)
    decreases vs
  {
    if vs == [] then []
    else
      var first := Encode(vs[0], e, m, pos);
      first + EncodeList(vs[1..], e, m, pos + |first|)
  }

  function EncodeFields(vs: seq<Sample>, members: seq<Member>, m: Mapping, pos: nat): seq<byte>
    requires |vs| == |members| && forall i :: 0 <= i < |vs| ==> Conforms(vs[i], members[i].typeId, m)
    decreases vs
  {
    if vs == [] then []
    else
      var first := Encode(vs[0], members[0].typeId, m, pos);
      first + EncodeFields(vs[1..], members[1..], m, pos + |first|)
  }

  lemma TagFits(tag: int, w: nat)
    requires FitsSigned(tag, 4) && (w == 4 || w == 8)
    ensures 0 <= Unsigned(tag, w) < Pow256(w)
    ensures Truncate32(Unsigned(tag, w)) == tag
  {
    assert Pow256(4) == TWO32 && Pow256(8) == TWO32 * TWO32;
    if w == 8 && tag < 0 {
      assert Unsigned(tag, 8) == (TWO32 - 1) * TWO32 + (tag + TWO32);
      assert Unsigned(tag, 8) % TWO32 == tag + TWO32;
    }
  }

  // ----- the value printed for a sample -----

  function Denote(v: Sample, t: TypeId, m: Mapping): Node
    requires Conforms(v, t, m)
    decreases v
  {
    match t
    case Primitive(k) => DenotePrimitive(v, k)
    case String8 => NText(v.text)
    case Sequence(Some(e)) => NList(DenoteList(v.items, e, m))
    case Array(_, Some(e)) => NList(DenoteList(v.items, e, m))
    case Complete(hash) =>
      if v.SStruct? then NObject(DenoteFields(v.fields, FindStruct(hash, m).value, m, []))
      else if v.SEnum? then EnumNode(FindEnum(hash, m).value, v.i)
      else
        var head := [Field("_d", NInt(v.tag))];
        if v.body.None? then NObject(head)
        else
          var c := Selected(FindUnion(hash, m).value.cases, v.tag).value;
          NObject(J.Put(head, c.name, Denote(v.body.value, c.typeId, m)))
  }

  function DenotePrimitive(v: Sample, k: Kind): Node
    requires ConformsPrimitive(v, k)
  {
    match v
    case SBool(flag) => NBool(flag)
    case SChar(c) => NChar(c)
    case SInt(i) => NInt(i)
    case SFloat(bits) => NFloat(Width(k), bits)
  }

  function DenoteList(vs: seq<Sample>, e: TypeId, m: Mapping): seq<Node>
    requires forall i :: 0 <= i < |vs| ==> Conforms(vs[i], e, m)
    decreases vs
  {
    if vs == [] then [] else [Denote(vs[0], e, m)] + DenoteList(vs[1..], e, m)
  }

  function DenoteFields(vs: seq<Sample>, members: seq<Member>, m: Mapping, done: seq<Field>): seq<Field>
    requires |vs| == |members| && forall i :: 0 <= i < |vs| ==> Conforms(vs[i], members[i].typeId, m)
    decreases vs
  {
    if vs == [] then done
    else DenoteFields(vs[1..], members[1..], m, J.Put(done, members[0].name, Denote(vs[0], members[0].typeId, m)))
  }

  // ----- decoding inverts encoding -----

  /** The buffer holds these bytes at this offset. */
  predicate Holds(b: seq<byte>, pos: nat, enc: seq<byte>) {
    pos + |enc| <= |b| && b[pos..pos + |enc|] == enc
  }

  lemma HoldsSplit(b: seq<byte>, pos: nat, x: seq<byte>, y: seq<byte>)
    requires Holds(b, pos, x + y)
    ensures Holds(b, pos, x) && Holds(b, pos + |x|, y)
  {
    assert b[pos..pos + |x|] == (x + y)[..|x|] == x;
    assert b[pos + |x|..pos + |x| + |y|] == (x + y)[|x|..] == y;
  }

  lemma PrimitiveInverts(b: seq<byte>, pos: nat, n: nat, w: nat)
    requires Fits(b, pos) && IsWidth(w) && n < Pow256(w) && Holds(b, pos, Padded(n, w, pos))
    ensures PrimitiveAt(b, pos, w) == Done(n, pos + |Padded(n, w, pos)|, [Read(AlignUp(pos, w), w)])
  {
    hide AlignUp, Pow256;
    AlignUpBounds(pos, w, |b|);
    var at := AlignUp(pos, w);
    HoldsSplit(b, pos, Zeros(at - pos), ToLittleEndian(n, w));
    LittleEndianInverts(n, w);
  }

  lemma InterpretInverts(v: Sample, k: Kind)
    requires ConformsPrimitive(v, k)
    ensures Interpret(k, RawBits(v, k)) == DenotePrimitive(v, k)
  {
    if v.SInt? && (k.INT16? || k.INT32? || k.INT64?) {
      SignedInverts(v.i, Width(k));
    }
  }

  lemma StringInverts(b: seq<byte>, pos: nat, text: seq<byte>)
    requires Fits(b, pos) && |text| + 1 < TWO32 && Holds(b, pos, Padded(|text| + 1, 4, pos) + text + [0])
    ensures var r := StringAt(b, pos);
            r.Done? && r.value == text && r.pos == pos + |Padded(|text| + 1, 4, pos) + text + [0]|
  {
    hide AlignUp, Padded;
    var length := Padded(|text| + 1, 4, pos);
    assert length + text + [0] == length + (text + [0]);
    HoldsSplit(b, pos, length, text + [0]);
    HoldsSplit(b, pos + |length|, text, [0]);
    assert Pow256(4) == TWO32;
    PrimitiveInverts(b, pos, |text| + 1, 4);
  }

  /** build_value returns the value of the sample and stops right behind its encoding. */
  ghost predicate Decodes(r: Outcome<Node>, value: Node, pos: nat) {
    r.Done? && r.value == value && r.pos == pos
  }

  lemma {:induction false} ValueInverts(b: seq<byte>, pos: nat, v: Sample, t: TypeId, m: Mapping, rank: Rank)
    requires Fits(b, pos) && Stratified(m, rank) && Conforms(v, t, m) && Holds(b, pos, Encode(v, t, m, pos))
    ensures Decodes(J.Value(b, pos, t, m, rank), Denote(v, t, m), pos + |Encode(v, t, m, pos)|)
    decreases v, 2
  {
    hide *;
    Supported(v, t, m);
    match t
    case Primitive(k) => LeafInverts(b, pos, v, t, m, rank);
    case String8 => LeafInverts(b, pos, v, t, m, rank);
    case Sequence(Some(e)) => SequenceInverts(b, pos, v, e, m, rank);
    case Array(bounds, Some(e)) => ArrayInverts(b, pos, v, bounds, e, m, rank);
    case Complete(hash) => CompleteInverts(b, pos, v, hash, m, rank);
  }

  lemma Supported(v: Sample, t: TypeId, m: Mapping)
    requires Conforms(v, t, m)
    ensures t.Primitive? || t.String8? || t.Complete? || ((t.Sequence? || t.Array?) && t.element.Some?)
  {
    hide FindStruct, FindEnum, FindUnion, ConformsPrimitive;
  }

  lemma LeafInverts(b: seq<byte>, pos: nat, v: Sample, t: TypeId, m: Mapping, rank: Rank)
    requires t.Primitive? || t.String8?
    requires Fits(b, pos) && Stratified(m, rank) && Conforms(v, t, m) && Holds(b, pos, Encode(v, t, m, pos))
    ensures Decodes(J.Value(b, pos, t, m, rank), Denote(v, t, m), pos + |Encode(v, t, m, pos)|)
  {
    hide Stratified, AlignUp, Padded, PrimitiveAt, StringAt, Holds, Interpret, RawBits, DenotePrimitive,
      ConformsPrimitive;
    if t.Primitive? {
      PrimitiveInverts(b, pos, RawBits(v, t.kind), Width(t.kind));
      InterpretInverts(v, t.kind);
    } else {
      StringInverts(b, pos, v.text);
    }
  }

  lemma {:induction false} ArrayInverts(b: seq<byte>, pos: nat, v: Sample, bounds: seq<nat>, e: TypeId, m: Mapping,
                                        rank: Rank)
    requires Fits(b, pos) && Stratified(m, rank) && Conforms(v, Array(bounds, Some(e)), m)
    requires Holds(b, pos, Encode(v, Array(bounds, Some(e)), m, pos))
    ensures Decodes(J.Value(b, pos, Array(bounds, Some(e)), m, rank), Denote(v, Array(bounds, Some(e)), m),
                    pos + |Encode(v, Array(bounds, Some(e)), m, pos)|)
    decreases v, 1
  {
    hide Stratified, AlignUp, Padded, PrimitiveAt, Holds, J.Elements, EncodeList, DenoteList;
    ElementCountIsProduct(bounds, 1);
    ListInverts(b, pos, v.items, e, m, rank, [], []);
    assert [] + DenoteList(v.items, e, m) == DenoteList(v.items, e, m);
  }

  lemma {:induction false} SequenceInverts(b: seq<byte>, pos: nat, v: Sample, e: TypeId, m: Mapping, rank: Rank)
    requires Fits(b, pos) && Stratified(m, rank) && Conforms(v, Sequence(Some(e)), m)
    requires Holds(b, pos, Encode(v, Sequence(Some(e)), m, pos))
    ensures Decodes(J.Value(b, pos, Sequence(Some(e)), m, rank), Denote(v, Sequence(Some(e)), m),
                    pos + |Encode(v, Sequence(Some(e)), m, pos)|)
    decreases v, 1
  {
    hide Stratified, AlignUp, Padded, PrimitiveAt, Holds, J.Value, J.Elements, EncodeList, DenoteList;
    var length := Padded(|v.items|, 4, pos);
    HoldsSplit(b, pos, length, EncodeList(v.items, e, m, pos + |length|));
    assert Pow256(4) == TWO32;
    PrimitiveInverts(b, pos, |v.items|, 4);
    J.SequenceIsElements(b, pos, e, m, rank);
    ListInverts(b, pos + |length|, v.items, e, m, rank, [], PrimitiveAt(b, pos, 4).trace);
    assert [] + DenoteList(v.items, e, m) == DenoteList(v.items, e, m);
  }

  lemma {:induction false} CompleteInverts(b: seq<byte>, pos: nat, v: Sample, hash: Hash, m: Mapping, rank: Rank)
    requires Fits(b, pos) && Stratified(m, rank) && Conforms(v, Complete(hash), m)
    requires Holds(b, pos, Encode(v, Complete(hash), m, pos))
    ensures Decodes(J.Value(b, pos, Complete(hash), m, rank), Denote(v, Complete(hash), m),
                    pos + |Encode(v, Complete(hash), m, pos)|)
    decreases v, 1
  {
    hide Stratified, AlignUp, Padded, PrimitiveAt, FindStruct, FindEnum, FindUnion, EnumNode, Selected, Below;
    if v.SStruct? {
      var members := FindStruct(hash, m).value;
      FoundStructBelow(hash, m, rank, members);
      FieldsInvert(b, pos, v.fields, members, m, rank, RankOf(hash, rank), [], []);
    } else if v.SEnum? {
      SignedInverts(v.i, 4);
      PrimitiveInverts(b, pos, Unsigned(v.i, 4), 4);
    } else {
      UnionInverts(b, pos, v, hash, m, rank);
    }
  }

  lemma {:induction false} UnionInverts(b: seq<byte>, pos: nat, v: Sample, hash: Hash, m: Mapping, rank: Rank)
    requires v.SUnion?
    requires Fits(b, pos) && Stratified(m, rank) && Conforms(v, Complete(hash), m)
    requires Holds(b, pos, Encode(v, Complete(hash), m, pos))
    ensures Decodes(J.Value(b, pos, Complete(hash), m, rank), Denote(v, Complete(hash), m),
                    pos + |Encode(v, Complete(hash), m, pos)|)
    decreases v, 0
  {
    hide Stratified, AlignUp, Padded, PrimitiveAt, FindStruct, FindEnum, FindUnion, Selected, Below,
      DiscriminatorWidth, Truncate32, ConformsTag;
    var u := FindUnion(hash, m).value;
    FoundUnionBelow(hash, m, rank, u);
    var w := DiscriminatorWidth(u.discriminator);
    assert FitsSigned(v.tag, 4) by { TagConforms(v.tag, u.discriminator, m); }
    TagFits(v.tag, w);
    var tag := Padded(Unsigned(v.tag, w), w, pos);
    if v.body.Some? {
      var c := Selected(u.cases, v.tag).value;
      HoldsSplit(b, pos, tag, Encode(v.body.value, c.typeId, m, pos + |tag|));
      PrimitiveInverts(b, pos, Unsigned(v.tag, w), w);
      ValueInverts(b, pos + |tag|, v.body.value, c.typeId, m, rank);
    } else {
      PrimitiveInverts(b, pos, Unsigned(v.tag, w), w);
    }
  }

  lemma TagConforms(tag: int, disc: TypeId, m: Mapping)
    requires ConformsTag(tag, disc, m)
    ensures FitsSigned(tag, 4)
  {
  }

  lemma {:induction false} ListInverts(b: seq<byte>, pos: nat, vs: seq<Sample>, e: TypeId, m: Mapping, rank: Rank,
                                       done: seq<Node>, trace: seq<Read>)
    requires Fits(b, pos) && Stratified(m, rank) && forall i :: 0 <= i < |vs| ==> Conforms(vs[i], e, m)
    requires Holds(b, pos, EncodeList(vs, e, m, pos))
    ensures Decodes(J.Elements(b, pos, e, |vs|, m, rank, done, trace), NList(done + DenoteList(vs, e, m)),
                    pos + |EncodeList(vs, e, m, pos)|)
    decreases vs
  {
    hide Stratified, AlignUp, Conforms, Encode, Denote, J.Value, Height, Holds;
    if vs == [] {
      assert done + DenoteList(vs, e, m) == done;
    } else {
      var first := Encode(vs[0], e, m, pos);
      HoldsSplit(b, pos, first, EncodeList(vs[1..], e, m, pos + |first|));
      ValueInverts(b, pos, vs[0], e, m, rank);
      var r := J.Value(b, pos, e, m, rank);
      ListInverts(b, r.pos, vs[1..], e, m, rank, done + [r.value], trace + r.trace);
      assert done + [r.value] + DenoteList(vs[1..], e, m) == done + DenoteList(vs, e, m);
    }
  }

  lemma {:induction false} FieldsInvert(b: seq<byte>, pos: nat, vs: seq<Sample>, members: seq<Member>, m: Mapping,
                                        rank: Rank, limit: nat, done: seq<Field>, trace: seq<Read>)
    requires Fits(b, pos) && Stratified(m, rank) && Below(StructType(members), limit, rank)
    requires |vs| == |members| && forall i :: 0 <= i < |vs| ==> Conforms(vs[i], members[i].typeId, m)
    requires Holds(b, pos, EncodeFields(vs, members, m, pos))
    ensures Decodes(J.Members(b, pos, members, m, rank, limit, done, trace),
                    NObject(DenoteFields(vs, members, m, done)),
                    pos + |EncodeFields(vs, members, m, pos)|)
    decreases vs
  {
    hide Stratified, AlignUp, Conforms, Encode, Denote, J.Value, J.Put, Height, Holds;
    if vs != [] {
      var t := members[0].typeId;
      var first := Encode(vs[0], t, m, pos);
      HoldsSplit(b, pos, first, EncodeFields(vs[1..], members[1..], m, pos + |first|));
      ValueInverts(b, pos, vs[0], t, m, rank);
      var r := J.Value(b, pos, t, m, rank);
      FieldsInvert(b, r.pos, vs[1..], members[1..], m, rank, limit, J.Put(done, members[0].name, r.value),
                   trace + r.trace);
    }
  }

  // ----- discriminators -----

  lemma StopsBehind(b: seq<byte>, pos: nat, w: nat)
    requires IsWidth(w) && Fits(b, pos) && pos + 16 <= |b|
    ensures PrimitiveAt(b, pos, w).pos == pos + |Padded(0, w, pos)|
  {
    hide AlignUp;
    AlignUpBounds(pos, w, 0);
  }

  /** The decoder stops right behind a discriminator, on every buffer and at every offset, exactly when
      it takes as many bytes as the type has: for enums and the two 64-bit kinds, and for no other. */
  lemma DiscriminatorExact(disc: TypeId, m: Mapping, w: nat)
    requires WireWidth(disc, m) == Some(w)
    ensures w == DiscriminatorWidth(disc) <==> disc.Complete? || disc == Primitive(INT64) || disc == Primitive(UINT64)
    ensures w == DiscriminatorWidth(disc) <==>
            forall b: seq<byte>, pos: nat :: Fits(b, pos) && pos + 16 <= |b| ==>
              PrimitiveAt(b, pos, DiscriminatorWidth(disc)).pos == pos + |Padded(0, w, pos)|
  {
    var dw := DiscriminatorWidth(disc);
    if w == dw {
      forall b: seq<byte>, pos: nat | Fits(b, pos) && pos + 16 <= |b|
        ensures PrimitiveAt(b, pos, dw).pos == pos + |Padded(0, w, pos)|
      {
        StopsBehind(b, pos, w);
      }
    } else {
      assert Fits(Zeros(16), 0) && PrimitiveAt(Zeros(16), 0, dw).pos == dw;
      assert |Padded(0, w, 0)| == w;
    }
  }

  /** The values a discriminator of this type can have. */
  predicate TagOfType(tag: int, disc: TypeId, m: Mapping) {
    WireWidth(disc, m).Some? &&
    match disc
    case Primitive(BOOLEAN) => tag == 0 || tag == 1
    case Primitive(INT16) => FitsSigned(tag, 2)
    case Primitive(INT32) => FitsSigned(tag, 4)
    case Primitive(INT64) => FitsSigned(tag, 8)
    case Primitive(k) => 0 <= tag < Pow256(Width(k))
    case _ => FitsSigned(tag, 4)
  }

  lemma TagRaw(tag: int, disc: TypeId, m: Mapping, w: nat)
    requires TagOfType(tag, disc, m) && WireWidth(disc, m) == Some(w)
    ensures IsWidth(w) && w <= DiscriminatorWidth(disc) && 0 <= Unsigned(tag, w) < Pow256(w)
    ensures w == 4 == DiscriminatorWidth(disc) ==> FitsSigned(tag, 4)
    ensures w == DiscriminatorWidth(disc) && FitsSigned(tag, 4) ==> Truncate32(Unsigned(tag, w)) == tag
  {
    hide FindStruct, FindEnum, Truncate32;
    assert Pow256(1) == 256 && Pow256(2) == 0x1_0000 && Pow256(4) == TWO32 && Pow256(8) == TWO32 * TWO32;
    if w == DiscriminatorWidth(disc) && FitsSigned(tag, 4) {
      TagFits(tag, w);
    }
  }

  /** The union is printed with this tag, and with the member that the tag selects decoded from `end` on. */
  ghost predicate ShowsTag(b: seq<byte>, pos: nat, tag: int, end: nat, disc: TypeId, cases: seq<UnionMember>,
                           m: Mapping, rank: Rank, limit: nat)
    requires Fits(b, pos) && Fits(b, end) && Stratified(m, rank) && Below(UnionType(disc, cases), limit, rank)
  {
    var r := J.Union(b, pos, disc, cases, m, rank, limit);
    var head := [Field("_d", NInt(tag))];
    var active := Selected(cases, tag);
    if active.None? then r.Done? && r.value == NObject(head) && r.pos == end
    else
      var body := J.Value(b, end, active.value.typeId, m, rank);
      (r.Done? <==> body.Done?) &&
      (r.Done? ==> r.value == NObject(J.Put(head, active.value.name, body.value)) && r.pos == body.pos)
  }

  /** Wherever a buffer holds the tag, at its own width and aligned, any union over this discriminator shows it. */
  ghost predicate AlwaysShown(tag: int, disc: TypeId, m: Mapping, rank: Rank, w: nat)
    requires Stratified(m, rank) && IsWidth(w) && 0 <= Unsigned(tag, w)
  {
    forall b: seq<byte>, pos: nat, cases: seq<UnionMember>, limit: nat ::
      Below(UnionType(disc, cases), limit, rank) && HoldsTag(b, pos, tag, w) ==>
        ShowsTag(b, pos, tag, pos + |Padded(Unsigned(tag, w), w, pos)|, disc, cases, m, rank, limit)
  }

  ghost predicate HoldsTag(b: seq<byte>, pos: nat, tag: int, w: nat)
    requires IsWidth(w) && 0 <= Unsigned(tag, w)
    ensures HoldsTag(b, pos, tag, w) ==> Fits(b, pos) && Fits(b, pos + |Padded(Unsigned(tag, w), w, pos)|)
  {
    AlignUpBounds(|b|, 8, |b|);
    Fits(b, pos) && Holds(b, pos, Padded(Unsigned(tag, w), w, pos))
  }

  /** A tag is shown, and its member decoded from the right place, exactly when the decoder takes as many bytes
      as the discriminator has and the tag fits 32 bits. */
  lemma UnionTagExact(tag: int, disc: TypeId, m: Mapping, rank: Rank, w: nat)
    requires Stratified(m, rank) && WireWidth(disc, m) == Some(w) && TagOfType(tag, disc, m)
    ensures IsWidth(w) && 0 <= Unsigned(tag, w)
    ensures AlwaysShown(tag, disc, m, rank, w) <==> w == DiscriminatorWidth(disc) && FitsSigned(tag, 4)
  {
    hide Stratified, WireWidth, TagOfType, DiscriminatorWidth, Truncate32, Unsigned, FitsSigned, Padded, ShowsTag,
      HoldsTag;
    TagRaw(tag, disc, m, w);
    if w == DiscriminatorWidth(disc) && FitsSigned(tag, 4) {
      forall b: seq<byte>, pos: nat, cases: seq<UnionMember>, limit: nat
        | Below(UnionType(disc, cases), limit, rank) && HoldsTag(b, pos, tag, w)
        ensures ShowsTag(b, pos, tag, pos + |Padded(Unsigned(tag, w), w, pos)|, disc, cases, m, rank, limit)
      {
        TagShown(b, pos, tag, disc, cases, m, rank, limit);
      }
    } else {
      var b := ToLittleEndian(Unsigned(tag, w), w) + Zeros(8);
      TagNotShown(b, tag, disc, m, rank, w);
      assert Below(UnionType(disc, []), 0, rank);
    }
  }

  lemma TagShown(b: seq<byte>, pos: nat, tag: int, disc: TypeId, cases: seq<UnionMember>, m: Mapping, rank: Rank,
                 limit: nat)
    requires Stratified(m, rank) && Below(UnionType(disc, cases), limit, rank)
    requires var w := DiscriminatorWidth(disc);
             0 <= Unsigned(tag, w) < Pow256(w) && Truncate32(Unsigned(tag, w)) == tag && HoldsTag(b, pos, tag, w)
    ensures var w := DiscriminatorWidth(disc);
            ShowsTag(b, pos, tag, pos + |Padded(Unsigned(tag, w), w, pos)|, disc, cases, m, rank, limit)
  {
    hide Stratified, DiscriminatorWidth, Truncate32, Unsigned, Padded, PrimitiveAt, Selected, J.Value, J.Put, Below;
    PrimitiveInverts(b, pos, Unsigned(tag, DiscriminatorWidth(disc)), DiscriminatorWidth(disc));
  }

  lemma TagNotShown(b: seq<byte>, tag: int, disc: TypeId, m: Mapping, rank: Rank, w: nat)
    requires Stratified(m, rank) && IsWidth(w) && w <= DiscriminatorWidth(disc) && 0 <= Unsigned(tag, w) < Pow256(w)
    requires w == DiscriminatorWidth(disc) ==> !FitsSigned(tag, 4)
    requires b == ToLittleEndian(Unsigned(tag, w), w) + Zeros(8) && Below(UnionType(disc, []), 0, rank)
    ensures HoldsTag(b, 0, tag, w)
    ensures !ShowsTag(b, 0, tag, |Padded(Unsigned(tag, w), w, 0)|, disc, [], m, rank, 0)
  {
    hide Stratified, DiscriminatorWidth, Truncate32, Unsigned, LittleEndian, ToLittleEndian;
    var n, dw := Unsigned(tag, w), DiscriminatorWidth(disc);
    assert AlignUp(0, w) == 0 && Zeros(0) + ToLittleEndian(n, w) == ToLittleEndian(n, w);
    assert b[0..w] == ToLittleEndian(n, w);
    var d := PrimitiveAt(b, 0, dw);
    assert d.pos == dw;
    if w == dw {
      Truncate32Fits(d.value);
    }
  }

  lemma Truncate32Fits(n: nat)
    ensures FitsSigned(Truncate32(n), 4)
  {
    assert Pow256(4) == TWO32;
  }

  /** Only enum discriminators are shown for all their values; of the two 64-bit kinds, those that fit 32 bits. */
  lemma DiscriminatorsShown(disc: TypeId, m: Mapping, rank: Rank, w: nat)
    requires Stratified(m, rank) && WireWidth(disc, m) == Some(w) && IsWidth(w)
    ensures (forall tag :: TagOfType(tag, disc, m) && 0 <= Unsigned(tag, w) ==> AlwaysShown(tag, disc, m, rank, w)) <==>
            disc.Complete?
  {
    hide Stratified, AlwaysShown, FindStruct, FindEnum;
    if disc.Complete? {
      forall tag | TagOfType(tag, disc, m) ensures AlwaysShown(tag, disc, m, rank, w) {
        UnionTagExact(tag, disc, m, rank, w);
      }
    } else {
      var tag := if disc == Primitive(INT64) || disc == Primitive(UINT64) then TWO32 + 1 else 1;
      assert Pow256(1) == 256 && Pow256(2) == 0x1_0000 && Pow256(4) == TWO32 && Pow256(8) == TWO32 * TWO32;
      assert TagOfType(tag, disc, m) && 0 <= Unsigned(tag, w);
      UnionTagExact(tag, disc, m, rank, w);
    }
  }

  const CASES: seq<UnionMember> := [UnionMember("a", Primitive(BYTE), [1])]

  lemma StartHolds(b: seq<byte>, tag: int, w: nat)
    requires IsWidth(w) && 0 <= Unsigned(tag, w) && w <= |b| <= MAX_SIZE
    requires b[..w] == ToLittleEndian(Unsigned(tag, w), w)
    ensures HoldsTag(b, 0, tag, w)
  {
    hide ToLittleEndian, Unsigned;
    assert Zeros(0) + ToLittleEndian(Unsigned(tag, w), w) == ToLittleEndian(Unsigned(tag, w), w);
  }

  /** What a union over these cases shows once its discriminator is read. */
  lemma UnionOfCases(b: seq<byte>, disc: TypeId, tag: int, end: nat)
    requires |b| <= MAX_SIZE && Stratified([], map[]) && Below(UnionType(disc, CASES), 0, map[])
    requires var d := PrimitiveAt(b, 0, DiscriminatorWidth(disc));
             Truncate32(d.value) == tag && d.pos == end
    ensures tag != 1 ==>
              J.Union(b, 0, disc, CASES, [], map[], 0) ==
              Done(NObject([Field("_d", NInt(tag))]), end, PrimitiveAt(b, 0, DiscriminatorWidth(disc)).trace)
    ensures tag == 1 ==>
              var r := J.Union(b, 0, disc, CASES, [], map[], 0);
              r.Done? && r.value == NObject([Field("_d", NInt(1)), Field("a", NInt(PrimitiveAt(b, end, 1).value))])
  {
    hide PrimitiveAt, DiscriminatorWidth, Truncate32;
    assert CASES[1..] == [];
    assert Selected(CASES, tag) == if tag == 1 then Some(CASES[0]) else None;
    L.PutFresh([Field("_d", NInt(tag))], "a", NInt(PrimitiveAt(b, end, 1).value));
  }

  /** A 64-bit tag of 2^32 + 1 is shown as 1, and member 1 decoded. */
  lemma WideTagTruncated()
    ensures Stratified([], map[]) && Below(UnionType(Primitive(INT64), CASES), 0, map[])
    ensures var b: seq<byte> := [1, 0, 0, 0, 1, 0, 0, 0, 9];
            HoldsTag(b, 0, TWO32 + 1, 8) &&
            var r := J.Union(b, 0, Primitive(INT64), CASES, [], map[], 0);
            r.Done? && r.value == NObject([Field("_d", NInt(1)), Field("a", NInt(9))])
  {
    hide J.Union, HoldsTag, PrimitiveAt, ToLittleEndian;
    var b: seq<byte> := [1, 0, 0, 0, 1, 0, 0, 0, 9];
    WideTagValue(b);
    StartHolds(b, TWO32 + 1, 8);
    assert Pow256(4) == TWO32 && Truncate32(TWO32 + 1) == 1;
    UnionOfCases(b, Primitive(INT64), 1, 8);
    LastByte(b);
  }

  lemma LastByte(b: seq<byte>)
    requires b == [1, 0, 0, 0, 1, 0, 0, 0, 9]
    ensures PrimitiveAt(b, 8, 1) == Done(9, 9, [Read(8, 1)])
  {
    assert b[8..9] == [9] && [9][1..] == [];
    assert LittleEndian([9]) == 9;
  }

  lemma WideTagBytes()
    ensures ToLittleEndian(TWO32 + 1, 8) == [1, 0, 0, 0, 1, 0, 0, 0]
  {
    assert ToLittleEndian(1, 4) == [1, 0, 0, 0];
    assert ToLittleEndian(256, 5) == [0] + ToLittleEndian(1, 4);
    assert ToLittleEndian(0x1_0000, 6) == [0] + ToLittleEndian(256, 5);
    assert ToLittleEndian(0x100_0000, 7) == [0] + ToLittleEndian(0x1_0000, 6);
  }

  lemma WideTagValue(b: seq<byte>)
    requires b == [1, 0, 0, 0, 1, 0, 0, 0, 9]
    ensures PrimitiveAt(b, 0, 8) == Done(TWO32 + 1, 8, [Read(0, 8)])
    ensures Unsigned(TWO32 + 1, 8) == TWO32 + 1 && b[..8] == ToLittleEndian(TWO32 + 1, 8)
  {
    hide LittleEndian;
    WideTagBytes();
    assert Pow256(4) == TWO32 && Pow256(8) == TWO32 * TWO32;
    LittleEndianInverts(TWO32 + 1, 8);
    assert b[0..8] == [1, 0, 0, 0, 1, 0, 0, 0];
  }

  /** A 32-bit tag of 1 with a one-byte member behind it is not even read, and shown as 0. */
  lemma NarrowTagMissed(b: seq<byte>)
    requires b == [1, 0, 0, 0, 9]
    ensures Stratified([], map[]) && Below(UnionType(Primitive(INT32), CASES), 0, map[])
    ensures 0 <= Unsigned(1, 4) && HoldsTag(b, 0, 1, 4)
    ensures J.Union(b, 0, Primitive(INT32), CASES, [], map[], 0) == Done(NObject([Field("_d", NInt(0))]), 0, [])
  {
    hide J.Union, HoldsTag, ToLittleEndian, LittleEndian, PrimitiveAt, Unsigned;
    NarrowTagBytes(b);
    StartHolds(b, 1, 4);
    NoTagShown(b);
  }

  lemma NoTagShown(b: seq<byte>)
    requires |b| <= MAX_SIZE && PrimitiveAt(b, 0, 8) == Done(0, 0, [])
    ensures Stratified([], map[]) && Below(UnionType(Primitive(INT32), CASES), 0, map[])
    ensures J.Union(b, 0, Primitive(INT32), CASES, [], map[], 0) == Done(NObject([Field("_d", NInt(0))]), 0, [])
  {
    hide J.Union, PrimitiveAt;
    assert Truncate32(0) == 0;
    UnionOfCases(b, Primitive(INT32), 0, 0);
  }

  lemma NarrowTagBytes(b: seq<byte>)
    requires b == [1, 0, 0, 0, 9]
    ensures Unsigned(1, 4) == 1 && b[..4] == ToLittleEndian(1, 4)
    ensures PrimitiveAt(b, 0, 8) == Done(0, 0, [])
  {
    assert ToLittleEndian(1, 4) == [1, 0, 0, 0];
  }

  // ----- array sizes -----

  /** The loop over the bounds computes their product modulo 2^32, so it is exact for every product below. */
  lemma {:induction false} ElementCountIsProduct(bounds: seq<nat>, total: nat)
    ensures total < TWO32 ==> ElementCount(bounds, total) == total * Product(bounds) % TWO32
    decreases |bounds|
  {
    if bounds != [] {
      var p := total * bounds[0];
      var rest := Product(bounds[1..]);
      ElementCountIsProduct(bounds[1..], p % TWO32);
      assert total * Product(bounds) == p * rest by {
        Associate(total, bounds[0], rest);
      }
      ModuloProduct(p, rest);
    }
  }

  lemma Associate(a: nat, b: nat, c: nat)
    ensures a * (b * c) == a * b * c
  {
  }

  lemma ModuloProduct(a: nat, b: nat)
    ensures a % TWO32 * b % TWO32 == a * b % TWO32
  {
    var q, r := a / TWO32, a % TWO32;
    var x, y := q * b, r * b;
    assert a * b == TWO32 * x + y by {
      assert a == TWO32 * q + r;
      Distribute(q, r, b);
    }
    assert (TWO32 * x + y) % TWO32 == y % TWO32;
  }

  lemma Distribute(q: nat, r: nat, b: nat)
    ensures (TWO32 * q + r) * b == TWO32 * (q * b) + r * b
  {
  }

  // ----- the round trip -----

  /** Behind any prefix and in front of any suffix. */
  lemma RoundTrip(prefix: seq<byte>, suffix: seq<byte>, v: Sample, t: TypeId, m: Mapping, rank: Rank)
    requires Conforms(v, t, m) && Stratified(m, rank)
    requires |prefix + Encode(v, t, m, |prefix|) + suffix| <= MAX_SIZE
    ensures var enc := Encode(v, t, m, |prefix|);
            Decodes(J.Value(prefix + enc + suffix, |prefix|, t, m, rank), Denote(v, t, m), |prefix + enc|)
  {
    hide Conforms, Stratified, Encode, Denote;
    var enc := Encode(v, t, m, |prefix|);
    var b := prefix + enc + suffix;
    assert b[|prefix|..|prefix| + |enc|] == enc;
    ValueInverts(b, |prefix|, v, t, m, rank);
  }

  /** Under the conditions of lockstep the YAML printer shows the same value. */
  lemma YamlRoundTrip(prefix: seq<byte>, suffix: seq<byte>, v: Sample, t: TypeId, m: Mapping, rank: Rank)
    requires Conforms(v, t, m) && Stratified(m, rank)
    requires L.PlainType(t, m) && L.DistinctType(t, m)
    requires |prefix + Encode(v, t, m, |prefix|) + suffix| <= MAX_SIZE
    ensures var enc := Encode(v, t, m, |prefix|);
            Decodes(Y.Value(prefix + enc + suffix, |prefix|, t, m, rank), Denote(v, t, m), |prefix + enc|)
  {
    hide Conforms, Stratified, Encode, Denote, L.PlainType, L.DistinctType;
    RoundTrip(prefix, suffix, v, t, m, rank);
    L.PrintersAgree(prefix + Encode(v, t, m, |prefix|) + suffix, |prefix|, t, m, rank);
  }
}
