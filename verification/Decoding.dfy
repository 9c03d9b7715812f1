/** What the two printers share: the tree of decoded values and the shapes of the recursion. */
module Decoding {
  import opened Core
  import opened Bytes
  import opened XTypes
  import opened CdrReader

  /** The printed value, without its text layout. */
  datatype Node =
    | NBool(flag: bool)
    | NInt(i: int)
    | NChar(c: byte)
    | NFloat(width: nat, bits: nat)
    | NText(text: seq<byte>)
    | NName(literal: string)
    | NNull
    | NList(elements: seq<Node>)
    | NObject(fields: seq<Field>)

  datatype Field = Field(name: string, value: Node)

  function Width(k: Kind): (w: nat)
    ensures IsWidth(w)
  {
    match k
    case BOOLEAN | BYTE | CHAR8 => 1
    case INT16 | UINT16 => 2
    case INT32 | UINT32 | FLOAT32 => 4
    case INT64 | UINT64 | FLOAT64 => 8
  }

  /** The value printed for the bit pattern read. */
  function Interpret(k: Kind, n: nat): Node
    requires n < Pow256(Width(k))
  {
    match k
    case BOOLEAN => NBool(n != 0)
    case CHAR8 => NChar(n)
    case INT16 | INT32 | INT64 => NInt(Signed(n, Width(k)))
    case BYTE | UINT16 | UINT32 | UINT64 => NInt(n)
    case FLOAT32 | FLOAT64 => NFloat(Width(k), n)
  }

  /** The kinds by their widths in bits and the values they show: signed numbers in two's complement, unsigned
      numbers and characters as they are, any byte but zero as true, and floating point numbers by their bits. */
  lemma PrimitivesExactly(k: Kind, n: nat)
    requires n < Pow256(Width(k))
    ensures Pow256(Width(k)) ==
            match k
            case BOOLEAN | BYTE | CHAR8 => 0x100
            case INT16 | UINT16 => 0x1_0000
            case INT32 | UINT32 | FLOAT32 => 0x1_0000_0000
            case INT64 | UINT64 | FLOAT64 => 0x1_0000_0000_0000_0000
    ensures var v := Interpret(k, n);
            match k
            case BOOLEAN => v == NBool(n > 0)
            case CHAR8 => v == NChar(n)
            case INT16 => v == NInt(if n < 0x8000 then n else n - 0x1_0000)
            case INT32 => v == NInt(if n < 0x8000_0000 then n else n - 0x1_0000_0000)
            case INT64 => v == NInt(if n < 0x8000_0000_0000_0000 then n else n - 0x1_0000_0000_0000_0000)
            case BYTE | UINT16 | UINT32 | UINT64 => v == NInt(n)
            case FLOAT32 => v == NFloat(4, n)
            case FLOAT64 => v == NFloat(8, n)
  {
    assert Pow256(1) == 0x100;
    assert Pow256(2) == 0x1_0000;
    assert Pow256(4) == 0x1_0000_0000;
    assert Pow256(8) == 0x1_0000_0000_0000_0000;
  }

  /** The number of elements of an array, multiplied up in 32 bits. */
  function ElementCount(bounds: seq<nat>, total: nat): nat {
    if bounds == [] then total else ElementCount(bounds[1..], total * bounds[0] % TWO32)
  }

  /** The first literal with a value names it; a value without a literal stays a number. */
  function EnumNode(literals: seq<Literal>, value: int): Node {
    if literals == [] then NInt(value)
    else if literals[0].value == value then NName(literals[0].name)
    else EnumNode(literals[1..], value)
  }

  /** At the least index with the value stands the literal of this name. */
  ghost predicate NamesFirst(literals: seq<Literal>, value: int, name: string) {
    exists i :: 0 <= i < |literals| && literals[i] == Literal(name, value) &&
                forall j :: 0 <= j < i ==> literals[j].value != value
  }

  ghost predicate Unnamed(literals: seq<Literal>, value: int) {
    forall i :: 0 <= i < |literals| ==> literals[i].value != value
  }

  /** A name is printed exactly if it is that of the first literal with the value, and the number exactly if there
      is none. */
  lemma {:induction false} EnumNodeExactly(literals: seq<Literal>, value: int)
    ensures forall name :: EnumNode(literals, value) == NName(name) <==> NamesFirst(literals, value, name)
    ensures EnumNode(literals, value) == NInt(value) <==> Unnamed(literals, value)
    ensures EnumNode(literals, value).NName? || EnumNode(literals, value) == NInt(value)
  {
    if literals != [] {
      var rest := literals[1..];
      if literals[0].value == value {
        assert NamesFirst(literals, value, literals[0].name);
      } else {
        EnumNodeExactly(rest, value);
        assert forall i :: 0 <= i < |rest| ==> rest[i] == literals[i + 1];
        forall name | NamesFirst(rest, value, name) ensures NamesFirst(literals, value, name) {
          var i :| 0 <= i < |rest| && rest[i] == Literal(name, value) &&
                   forall j :: 0 <= j < i ==> rest[j].value != value;
          assert literals[i + 1] == Literal(name, value);
          assert forall j :: 0 <= j < i + 1 ==> literals[j].value != value by {
            assert forall j :: 0 < j < i + 1 ==> literals[j] == rest[j - 1];
          }
        }
        forall name | NamesFirst(literals, value, name) ensures NamesFirst(rest, value, name) {
          var i :| 0 <= i < |literals| && literals[i] == Literal(name, value) &&
                   forall j :: 0 <= j < i ==> literals[j].value != value;
          assert rest[i - 1] == Literal(name, value);
        }
        if Unnamed(rest, value) {
          assert forall i :: 0 < i < |literals| ==> literals[i] == rest[i - 1];
        }
      }
    }
  }

  // ----- union discriminators -----

  /** The type kinds of section 7.3.4.1 of OMG DDS-XTypes 1.3. */
  function KindCode(k: Kind): nat {
    match k
    case BOOLEAN => 1
    case BYTE => 2
    case INT16 => 3
    case INT32 => 4
    case INT64 => 5
    case UINT16 => 6
    case UINT32 => 7
    case UINT64 => 8
    case FLOAT32 => 9
    case FLOAT64 => 10
    case CHAR8 => 16
  }

  /** The first byte of a type identifier. */
  function Discriminator(t: TypeId): nat {
    match t
    case Primitive(k) => KindCode(k)
    case String8 => 0x70
    case Sequence(_) => 0x80
    case Array(_, _) => 0x90
    case Complete(_) => 0xF2
    case Unsupported(code) => code
  }

  /** How many bytes the printers take for a discriminator. */
  function DiscriminatorWidth(t: TypeId): (w: nat)
    ensures w == 4 || w == 8
  {
    var d := Discriminator(t);
    if 1 <= d <= 5 then 8 else if 6 <= d <= 8 then 8 else 4
  }

  /** Eight bytes for the integral kinds, four for everything else. */
  lemma DiscriminatorWidths(t: TypeId)
    ensures DiscriminatorWidth(t) == 8 <==>
            || (t.Primitive? && !t.kind.FLOAT32? && !t.kind.FLOAT64? && !t.kind.CHAR8?)
            || (t.Unsupported? && 1 <= t.code <= 8)
  {
  }

  function Truncate32(n: nat): int {
    Signed(n % Pow256(4), 4)
  }

  /** The member that carries the label, if any. */
  function Selected(cases: seq<UnionMember>, tag: int): Option<UnionMember> {
    if cases == [] then None
    else if tag in cases[0].labels then Some(cases[0])
    else Selected(cases[1..], tag)
  }

  lemma {:induction false} SelectedIn(cases: seq<UnionMember>, tag: int)
    ensures var s := Selected(cases, tag);
            (s.Some? ==> exists i :: 0 <= i < |cases| && cases[i] == s.value) &&
            (s.Some? <==> exists i :: 0 <= i < |cases| && tag in cases[i].labels)
  {
    if cases != [] && tag !in cases[0].labels {
      SelectedIn(cases[1..], tag);
      var s := Selected(cases[1..], tag);
      if s.Some? {
        var i :| 0 <= i < |cases[1..]| && cases[1..][i] == s.value;
        assert cases[i + 1] == s.value;
        var j :| 0 <= j < |cases[1..]| && tag in cases[1..][j].labels;
        assert tag in cases[j + 1].labels;
      } else {
        forall i | 0 <= i < |cases| ensures tag !in cases[i].labels {
          if i > 0 {
            assert cases[i] == cases[1..][i - 1];
          }
        }
      }
    }
  }

  /** The member at the least index that carries the label. */
  ghost predicate SelectsFirst(cases: seq<UnionMember>, tag: int, c: UnionMember) {
    exists i :: 0 <= i < |cases| && cases[i] == c && tag in c.labels &&
                forall j :: 0 <= j < i ==> tag !in cases[j].labels
  }

  lemma {:induction false} SelectedExactly(cases: seq<UnionMember>, tag: int)
    ensures forall c :: Selected(cases, tag) == Some(c) <==> SelectsFirst(cases, tag, c)
  {
    if cases != [] {
      var rest := cases[1..];
      if tag in cases[0].labels {
        assert SelectsFirst(cases, tag, cases[0]);
      } else {
        SelectedExactly(rest, tag);
        forall c | SelectsFirst(rest, tag, c) ensures SelectsFirst(cases, tag, c) {
          var i :| 0 <= i < |rest| && rest[i] == c && tag in c.labels &&
                   forall j :: 0 <= j < i ==> tag !in rest[j].labels;
          assert cases[i + 1] == c;
          assert forall j :: 0 < j < i + 1 ==> cases[j] == rest[j - 1];
        }
        forall c | SelectsFirst(cases, tag, c) ensures SelectsFirst(rest, tag, c) {
          var i :| 0 <= i < |cases| && cases[i] == c && tag in c.labels &&
                   forall j :: 0 <= j < i ==> tag !in cases[j].labels;
          assert rest[i - 1] == c;
          assert forall j :: 0 <= j < i - 1 ==> rest[j] == cases[j + 1];
        }
      }
    }
  }

  lemma SelectedBelow(cases: seq<UnionMember>, d: TypeId, tag: int, limit: nat, rank: Rank)
    requires Below(UnionType(d, cases), limit, rank) && Selected(cases, tag).Some?
    ensures Height(Selected(cases, tag).value.typeId, rank) <= limit
  {
    SelectedIn(cases, tag);
  }

  // ----- steps that both printers perform alike -----

  /** What a printer leaves behind: the value and the moved stream, unless it left the buffer. */
  ghost predicate Yields(stream: IStream, before: seq<Read>, r: Outcome<Node>, v: Node, safe: bool)
    reads stream
  {
    safe == r.Done? &&
    (safe ==> stream.Valid() && v == r.value && stream.index == r.pos && stream.trace == before + r.trace)
  }

  method TotalSize(bounds: seq<nat>) returns (total: nat)
    ensures total == ElementCount(bounds, 1)
  {
    total := 1;
    assert bounds[0..] == bounds;
    for i := 0 to |bounds|
      invariant ElementCount(bounds[i..], total) == ElementCount(bounds, 1)
    {
      assert bounds[i..][1..] == bounds[i + 1..];
      total := total * bounds[i] % TWO32;
    }
  }

  method LiteralOf(literals: seq<Literal>, value: int) returns (v: Node)
    ensures v == EnumNode(literals, value)
  {
    assert literals[0..] == literals;
    for i := 0 to |literals|
      invariant EnumNode(literals[i..], value) == EnumNode(literals, value)
    {
      assert literals[i..][1..] == literals[i + 1..];
      if literals[i].value == value {
        return NName(literals[i].name);
      }
    }
    return NInt(value);
  }
}
