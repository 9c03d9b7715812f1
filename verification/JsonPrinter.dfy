/** The type-directed JSON builder. */
module JsonPrinter {
  import opened Core
  import opened Bytes
  import opened XTypes
  import opened CdrReader
  import opened Decoding

  /** obj[name] = value */
  function Put(fields: seq<Field>, name: string, value: Node): seq<Field> {
    if fields == [] then [Field(name, value)]
    else if fields[0].name == name then [Field(name, value)] + fields[1..]
    else [fields[0]] + Put(fields[1..], name, value)
  }

  /** The assigned name has the value; every other field stays, in its place; a new name goes to the end. */
  lemma {:induction false} PutExactly(fields: seq<Field>, name: string, value: Node)
    ensures var r := Put(fields, name, value);
            && |fields| <= |r| <= |fields| + 1
            && (|r| == |fields| + 1 <==> forall i :: 0 <= i < |fields| ==> fields[i].name != name)
            && (|r| == |fields| + 1 ==> r == fields + [Field(name, value)])
            && (|r| == |fields| ==>
                 exists i :: 0 <= i < |fields| && fields[i].name == name && r == fields[i := Field(name, value)] &&
                             forall j :: 0 <= j < i ==> fields[j].name != name)
  {
    if fields != [] && fields[0].name != name {
      var rest := fields[1..];
      PutExactly(rest, name, value);
      var r, r' := Put(fields, name, value), Put(rest, name, value);
      if |r'| == |rest| {
        var i :| 0 <= i < |rest| && rest[i].name == name && r' == rest[i := Field(name, value)] &&
                 forall j :: 0 <= j < i ==> rest[j].name != name;
        assert r == fields[i + 1 := Field(name, value)];
        assert fields[i + 1].name == name;
        assert forall j :: 0 < j < i + 1 ==> fields[j] == rest[j - 1];
      } else {
        assert forall i :: 0 < i < |fields| ==> fields[i] == rest[i - 1];
      }
    } else if fields != [] {
      assert fields[0].name == name && Put(fields, name, value) == fields[0 := Field(name, value)];
    }
  }

  // ----- what is decoded -----

  ghost function Value(b: seq<byte>, pos: nat, t: TypeId, m: Mapping, rank: Rank): (r: Outcome<Node>)
    requires Fits(b, pos) && Stratified(m, rank)
    ensures r.Done? ==> pos <= r.pos <= RoundUp8(|b|)
    decreases Left(b, pos), Height(t, rank), 0, 0
  {
    match t
    case Primitive(k) =>
      var r := PrimitiveAt(b, pos, Width(k));
      Done(Interpret(k, r.value), r.pos, r.trace)
    case String8 =>
      var r := StringAt(b, pos);
      if r.Done? then Done(NText(r.value), r.pos, r.trace) else OutOfBounds
    case Sequence(Some(e)) =>
      var length := PrimitiveAt(b, pos, 4);
      if length.value == 0 then Done(NList([]), length.pos, length.trace)
      else Elements(b, length.pos, e, length.value, m, rank, [], length.trace)
    case Array(bounds, Some(e)) =>
      Elements(b, pos, e, ElementCount(bounds, 1), m, rank, [], [])
    case Sequence(None) => Done(NList([]), pos, [])
    case Array(_, None) => Done(NList([]), pos, [])
    case Complete(hash) =>
      var s := FindStruct(hash, m);
      if s.Some? then
        FoundStructBelow(hash, m, rank, s.value);
        Members(b, pos, s.value, m, rank, RankOf(hash, rank), [], [])
      else
        var en := FindEnum(hash, m);
        if en.Some? then
          var r := PrimitiveAt(b, pos, 4);
          Done(EnumNode(en.value, Signed(r.value, 4)), r.pos, r.trace)
        else
          var u := FindUnion(hash, m);
          if u.Some? then
            FoundUnionBelow(hash, m, rank, u.value);
            Union(b, pos, u.value.discriminator, u.value.cases, m, rank, RankOf(hash, rank))
          else Done(NNull, pos, [])
    case Unsupported(_) => Done(NNull, pos, [])
  }

  /** n more elements, after those in `done`. */
  ghost function Elements(b: seq<byte>, pos: nat, e: TypeId, n: nat, m: Mapping, rank: Rank, done: seq<Node>,
                          trace: seq<Read>): (r: Outcome<Node>)
    requires Fits(b, pos) && Stratified(m, rank)
    ensures r.Done? ==> pos <= r.pos <= RoundUp8(|b|)
    decreases Left(b, pos), Height(e, rank), 1, n
  {
    if n == 0 then Done(NList(done), pos, trace)
    else
      var r := Value(b, pos, e, m, rank);
      if r.Done? then Elements(b, r.pos, e, n - 1, m, rank, done + [r.value], trace + r.trace) else OutOfBounds
  }

  ghost function Members(b: seq<byte>, pos: nat, members: seq<Member>, m: Mapping, rank: Rank, limit: nat,
                         done: seq<Field>, trace: seq<Read>): (r: Outcome<Node>)
    requires Fits(b, pos) && Stratified(m, rank) && Below(StructType(members), limit, rank)
    ensures r.Done? ==> pos <= r.pos <= RoundUp8(|b|)
    decreases Left(b, pos), limit, 1, |members|
  {
    if members == [] then Done(NObject(done), pos, trace)
    else
      var r := Value(b, pos, members[0].typeId, m, rank);
      if r.Done? then
        Members(b, r.pos, members[1..], m, rank, limit, Put(done, members[0].name, r.value), trace + r.trace)
      else OutOfBounds
  }

  ghost function Union(b: seq<byte>, pos: nat, disc: TypeId, cases: seq<UnionMember>, m: Mapping, rank: Rank,
                       limit: nat): (r: Outcome<Node>)
    requires Fits(b, pos) && Stratified(m, rank) && Below(UnionType(disc, cases), limit, rank)
    ensures r.Done? ==> pos <= r.pos <= RoundUp8(|b|)
    decreases Left(b, pos), limit, 1, 0
  {
    var d := PrimitiveAt(b, pos, DiscriminatorWidth(disc));
    var tag := Truncate32(d.value);
    var head := [Field("_d", NInt(tag))];
    var active := Selected(cases, tag);
    if active.None? then Done(NObject(head), d.pos, d.trace)
    else
      SelectedBelow(cases, disc, tag, limit, rank);
      var r := Value(b, d.pos, active.value.typeId, m, rank);
      if r.Done? then Done(NObject(Put(head, active.value.name, r.value)), r.pos, d.trace + r.trace) else OutOfBounds
  }

  // ----- how it is decoded -----

  method BuildPrimitive(stream: IStream, k: Kind) returns (v: Node)
    requires stream.Valid()
    modifies stream
    ensures stream.Valid()
    ensures var r := PrimitiveAt(stream.buffer, old(stream.index), Width(k));
            v == Interpret(k, r.value) && stream.index == r.pos && stream.trace == old(stream.trace) + r.trace
  {
    match k
    case BOOLEAN =>
      var n := stream.ReadPrimitive(1);
      v := NBool(n != 0);
    case BYTE =>
      var n := stream.ReadPrimitive(1);
      v := NInt(n);
    case CHAR8 =>
      var n := stream.ReadPrimitive(1);
      assert Pow256(1) == 256;
      v := NChar(n);
    case INT16 =>
      var n := stream.ReadPrimitive(2);
      v := NInt(Signed(n, 2));
    case UINT16 =>
      var n := stream.ReadPrimitive(2);
      v := NInt(n);
    case INT32 =>
      var n := stream.ReadPrimitive(4);
      v := NInt(Signed(n, 4));
    case UINT32 =>
      var n := stream.ReadPrimitive(4);
      v := NInt(n);
    case INT64 =>
      var n := stream.ReadPrimitive(8);
      v := NInt(Signed(n, 8));
    case UINT64 =>
      var n := stream.ReadPrimitive(8);
      v := NInt(n);
    case FLOAT32 =>
      var n := stream.ReadPrimitive(4);
      v := NFloat(4, n);
    case FLOAT64 =>
      var n := stream.ReadPrimitive(8);
      v := NFloat(8, n);
  }

  method BuildValue(stream: IStream, t: TypeId, m: Mapping, ghost rank: Rank) returns (v: Node, safe: bool)
    requires stream.Valid() && Stratified(m, rank)
    modifies stream
    ensures Yields(stream, old(stream.trace), Value(stream.buffer, old(stream.index), t, m, rank), v, safe)
    decreases Left(stream.buffer, stream.index), Height(t, rank), 0, 0
  {
    safe := true;
    match t
    case Primitive(k) =>
      v := BuildPrimitive(stream, k);
    case String8 =>
      var text;
      text, safe := stream.ReadString();
      v := NText(text);
    case Sequence(Some(e)) =>
      v, safe := BuildSequence(stream, e, m, rank);
    case Array(bounds, Some(e)) =>
      var total := TotalSize(bounds);
      if total > 0 {
        v, safe := BuildArray(stream, e, total, m, rank);
      } else {
        v := NList([]);
      }
    case Sequence(None) => v := NList([]);
    case Array(_, None) => v := NList([]);
    case Complete(hash) =>
      var nested := FindStructByHash(hash, m);
      if nested.Some? {
        FoundStructBelow(hash, m, rank, nested.value);
        v, safe := BuildStruct(stream, nested.value, m, rank, RankOf(hash, rank));
        return;
      }
      var enumType := FindEnumByHash(hash, m);
      if enumType.Some? {
        var n := stream.ReadPrimitive(4);
        v := LiteralOf(enumType.value, Signed(n, 4));
        return;
      }
      var unionType := FindUnionByHash(hash, m);
      if unionType.Some? {
        FoundUnionBelow(hash, m, rank, unionType.value);
        v, safe := BuildUnion(stream, unionType.value.discriminator, unionType.value.cases, m, rank,
                              RankOf(hash, rank));
        return;
      }
      v := NNull;
    case Unsupported(_) => v := NNull;
  }

  method BuildArray(stream: IStream, e: TypeId, size: nat, m: Mapping, ghost rank: Rank) returns (v: Node, safe: bool)
    requires stream.Valid() && Stratified(m, rank)
    modifies stream
    ensures Yields(stream, old(stream.trace),
                   Elements(stream.buffer, old(stream.index), e, size, m, rank, [], []), v, safe)
    decreases Left(stream.buffer, stream.index), Height(e, rank), 1, size
  {
    hide Value, Stratified, AlignUp, PrimitiveAt, Height;
    var arr: seq<Node> := [];
    ghost var start, trace := stream.trace, [];
    for i := 0 to size
      invariant stream.Valid() && stream.index >= old(stream.index) && stream.trace == start + trace
      invariant Elements(stream.buffer, old(stream.index), e, size, m, rank, [], []) ==
                Elements(stream.buffer, stream.index, e, size - i, m, rank, arr, trace)
    {
      label Before:
      var element, ok := BuildValue(stream, e, m, rank);
      if !ok {
        return NNull, false;
      }
      arr := arr + [element];
      ghost var r := Value(stream.buffer, old@Before(stream.index), e, m, rank);
      trace := trace + r.trace;
    }
    return NList(arr), true;
  }

  method BuildSequence(stream: IStream, e: TypeId, m: Mapping, ghost rank: Rank) returns (v: Node, safe: bool)
    requires stream.Valid() && Stratified(m, rank)
    modifies stream
    ensures Yields(stream, old(stream.trace),
                   Value(stream.buffer, old(stream.index), Sequence(Some(e)), m, rank), v, safe)
    decreases Left(stream.buffer, stream.index), 0, 0, -1
  {
    hide Value, Stratified, AlignUp, PrimitiveAt, Height;
    ghost var length := PrimitiveAt(stream.buffer, stream.index, 4);
    ghost var start := stream.trace;
    SequenceIsElements(stream.buffer, stream.index, e, m, rank);
    var len := stream.ReadPrimitive(4);
    var arr: seq<Node> := [];
    ghost var trace := length.trace;
    for i := 0 to len
      invariant stream.Valid() && stream.index >= length.pos && stream.trace == start + trace
      invariant Elements(stream.buffer, length.pos, e, len, m, rank, [], length.trace) ==
                Elements(stream.buffer, stream.index, e, len - i, m, rank, arr, trace)
    {
      label Before:
      var element, ok := BuildValue(stream, e, m, rank);
      if !ok {
        return NNull, false;
      }
      arr := arr + [element];
      ghost var r := Value(stream.buffer, old@Before(stream.index), e, m, rank);
      trace := trace + r.trace;
    }
    return NList(arr), true;
  }

  lemma SequenceIsElements(b: seq<byte>, pos: nat, e: TypeId, m: Mapping, rank: Rank)
    requires Fits(b, pos) && Stratified(m, rank)
    ensures var length := PrimitiveAt(b, pos, 4);
            Value(b, pos, Sequence(Some(e)), m, rank) ==
            Elements(b, length.pos, e, length.value, m, rank, [], length.trace)
  {
  }

  method BuildStruct(stream: IStream, members: seq<Member>, m: Mapping, ghost rank: Rank, ghost limit: nat)
    returns (v: Node, safe: bool)
    requires stream.Valid() && Stratified(m, rank) && Below(StructType(members), limit, rank)
    modifies stream
    ensures Yields(stream, old(stream.trace),
                   Members(stream.buffer, old(stream.index), members, m, rank, limit, [], []), v, safe)
    decreases Left(stream.buffer, stream.index), limit, 1, |members|
  {
    hide Value, Stratified, AlignUp, PrimitiveAt, Height, Put;
    var obj: seq<Field> := [];
    ghost var start, trace := stream.trace, [];
    assert members[0..] == members;
    for i := 0 to |members|
      invariant stream.Valid() && stream.index >= old(stream.index) && stream.trace == start + trace
      invariant Members(stream.buffer, old(stream.index), members, m, rank, limit, [], []) ==
                Members(stream.buffer, stream.index, members[i..], m, rank, limit, obj, trace)
    {
      var member := members[i];
      assert members[i..][1..] == members[i + 1..];
      label Before:
      var value, ok := BuildValue(stream, member.typeId, m, rank);
      if !ok {
        return NNull, false;
      }
      obj := Put(obj, member.name, value);
      ghost var r := Value(stream.buffer, old@Before(stream.index), member.typeId, m, rank);
      trace := trace + r.trace;
    }
    return NObject(obj), true;
  }

  method BuildUnion(stream: IStream, disc: TypeId, cases: seq<UnionMember>, m: Mapping, ghost rank: Rank,
                    ghost limit: nat) returns (v: Node, safe: bool)
    requires stream.Valid() && Stratified(m, rank) && Below(UnionType(disc, cases), limit, rank)
    modifies stream
    ensures Yields(stream, old(stream.trace),
                   Union(stream.buffer, old(stream.index), disc, cases, m, rank, limit), v, safe)
    decreases Left(stream.buffer, stream.index), limit, 1, 0
  {
    hide Value, Stratified, AlignUp, PrimitiveAt, Height, Put, Truncate32, DiscriminatorWidth, Below;
    var tag := ReadDiscriminator(stream, disc);
    label Read:
    var obj := [Field("_d", NInt(tag))];
    assert cases[0..] == cases;
    for i := 0 to |cases|
      invariant Selected(cases[i..], tag) == Selected(cases, tag)
      invariant unchanged@Read(stream)
    {
      var member := cases[i];
      assert cases[i..][1..] == cases[i + 1..];
      for j := 0 to |member.labels|
        invariant tag !in member.labels[..j]
        invariant unchanged@Read(stream)
      {
        if member.labels[j] == tag {
          SelectedBelow(cases, disc, tag, limit, rank);
          var value;
          value, safe := BuildValue(stream, member.typeId, m, rank);
          v := NObject(Put(obj, member.name, value));
          return;
        }
      }
    }
    return NObject(obj), true;
  }

  method ReadDiscriminator(stream: IStream, disc: TypeId) returns (tag: int)
    requires stream.Valid()
    modifies stream
    ensures stream.Valid()
    ensures var d := PrimitiveAt(stream.buffer, old(stream.index), DiscriminatorWidth(disc));
            tag == Truncate32(d.value) && stream.index == d.pos && stream.trace == old(stream.trace) + d.trace
  {
    var discType := Discriminator(disc);
    if 1 <= discType <= 5 {
      var n := stream.ReadPrimitive(8);
      tag := Truncate32(n);
    } else if 6 <= discType <= 8 {
      var n := stream.ReadPrimitive(8);
      tag := Truncate32(n);
    } else {
      var n := stream.ReadPrimitive(4);
      assert n % Pow256(4) == n;
      tag := Signed(n, 4);
    }
  }
}
