/** The aligned cursor over a serialized sample: PLAIN_CDR, section 7.4.1 of OMG DDS-XTypes 1.3. */
module CdrReader {
  import opened Core
  import opened Bytes
  import opened XTypes

  /** A memory access that the decoder performed. */
  datatype Read = Read(offset: nat, width: nat)

  /** OutOfBounds: the decoder left its buffer; nothing can be said about what follows. */
  datatype Outcome<+T> = Done(value: T, pos: nat, trace: seq<Read>) | OutOfBounds

  /** Offsets are 32 bits wide; rounding such a size up to a multiple of eight stays in that range. */
  const MAX_SIZE: nat := 0xFFFF_FFF8

  predicate IsWidth(w: nat) { w == 1 || w == 2 || w == 4 || w == 8 }

  function AlignUp(pos: nat, w: nat): nat
    requires IsWidth(w)
  {
    if pos % w == 0 then pos else pos + (w - pos % w)
  }

  function RoundUp8(n: nat): nat { AlignUp(n, 8) }

  predicate Fits(b: seq<byte>, pos: nat) {
    |b| <= MAX_SIZE && pos <= RoundUp8(|b|)
  }

  function Left(b: seq<byte>, pos: nat): nat {
    if pos <= |b| then |b| - pos else 0
  }

  lemma AlignUpBounds(pos: nat, w: nat, size: nat)
    requires IsWidth(w)
    ensures pos <= AlignUp(pos, w) < pos + w
    ensures pos <= RoundUp8(size) ==> AlignUp(pos, w) <= RoundUp8(size)
  {
    var limit := RoundUp8(size);
    assert limit % 8 == 0;
    assert limit % 4 == 0 && limit % 2 == 0;
    if pos <= limit && AlignUp(pos, w) > limit {
      Gap(pos, limit, w);
    }
  }

  lemma Aligned(pos: nat, w: nat)
    requires IsWidth(w)
    ensures AlignUp(pos, w) % w == 0
  {
    if w == 8 {
    } else if w == 4 {
    } else if w == 2 {
    }
  }

  /** Between an offset and a later multiple of w there is room to align. */
  lemma Gap(pos: nat, limit: nat, w: nat)
    requires IsWidth(w) && pos <= limit && limit % w == 0
    ensures AlignUp(pos, w) <= limit
  {
    var l, p := limit / w, pos / w;
    if w == 8 {
      assert limit == 8 * l && pos == 8 * p + pos % 8;
      assert pos % 8 > 0 ==> p < l;
    } else if w == 4 {
      assert limit == 4 * l && pos == 4 * p + pos % 4;
      assert pos % 4 > 0 ==> p < l;
    } else if w == 2 {
      assert limit == 2 * l && pos == 2 * p + pos % 2;
      assert pos % 2 > 0 ==> p < l;
    }
  }

  function PrimitiveAt(b: seq<byte>, pos: nat, w: nat): (r: Outcome<nat>)
    requires IsWidth(w) && Fits(b, pos)
    ensures r.Done? && r.value < Pow256(w) && pos <= r.pos <= RoundUp8(|b|)
    ensures r.trace != [] ==> pos + w <= r.pos <= |b|
    ensures r.trace == [] ==> r.value == 0
  {
    AlignUpBounds(pos, w, |b|);
    var at := AlignUp(pos, w);
    if at + w <= |b| then Done(LittleEndian(b[at..at + w]), at + w, [Read(at, w)]) else Done(0, at, [])
  }

  /** The number is read from the next multiple of its width if it lies inside the buffer there; if not, the cursor
      stays at that multiple, nothing is read and the value is zero. */
  lemma PrimitiveExactly(b: seq<byte>, pos: nat, w: nat, at: nat)
    requires IsWidth(w) && Fits(b, pos)
    requires pos <= at < pos + w && at % w == 0
    ensures var r := PrimitiveAt(b, pos, w);
            if at + w <= |b| then r == Done(LittleEndian(b[at..at + w]), at + w, [Read(at, w)])
            else r == Done(0, at, [])
  {
    hide AlignUp, LittleEndian, Pow256;
    AlignExactly(pos, w, at);
  }

  lemma AlignExactly(pos: nat, w: nat, at: nat)
    requires IsWidth(w) && pos <= at < pos + w && at % w == 0
    ensures at == AlignUp(pos, w)
  {
    hide AlignUp;
    AlignUpBounds(pos, w, pos);
    Aligned(pos, w);
    Gap(pos, at, w);
    OneMultiple(AlignUp(pos, w), at, w);
  }

  lemma OneMultiple(x: nat, y: nat, w: nat)
    requires IsWidth(w) && x % w == 0 && y % w == 0 && x <= y < x + w
    ensures x == y
  {
    if w == 8 {
      assert (y - x) % 8 == 0;
    } else if w == 4 {
      assert (y - x) % 4 == 0;
    } else if w == 2 {
      assert (y - x) % 2 == 0;
    }
  }

  function Add32(a: nat, b: nat): nat { (a + b) % TWO32 }

  function StringAt(b: seq<byte>, pos: nat): (r: Outcome<seq<byte>>)
    requires Fits(b, pos)
    ensures r.Done? ==> pos <= r.pos <= RoundUp8(|b|)
  {
    var length := PrimitiveAt(b, pos, 4);
    var n := length.value;
    if n == 0 || Add32(length.pos, n) > |b| then Done([], length.pos, length.trace)
    else if length.pos + n > |b| then OutOfBounds
    else Done(b[length.pos..length.pos + n - 1], length.pos + n, length.trace + [Read(length.pos, n)])
  }

  /** The guard on a string length is evaluated in 32 bits: it keeps the copy inside the buffer
      exactly when the end offset does not wrap around to one inside the buffer. */
  lemma StringGuardExact(b: seq<byte>, pos: nat)
    requires Fits(b, pos)
    ensures var length := PrimitiveAt(b, pos, 4);
            StringAt(b, pos).OutOfBounds? <==> TWO32 <= length.pos + length.value <= TWO32 + |b|
  {
    var length := PrimitiveAt(b, pos, 4);
    assert Pow256(4) == TWO32;
    var end := length.pos + length.value;
    if end >= TWO32 {
      assert end < 2 * TWO32;
      assert Add32(length.pos, length.value) == end - TWO32;
    } else {
      assert Add32(length.pos, length.value) == end;
    }
  }

  /** Zero length and a string that does not fit give the empty text right behind the length; otherwise the text
      is the bytes behind the length, without the last. */
  lemma StringExact(b: seq<byte>, pos: nat)
    requires Fits(b, pos)
    ensures var length, r := PrimitiveAt(b, pos, 4), StringAt(b, pos);
            r.Done? ==>
              && (r.pos == length.pos <==> length.value == 0 || length.pos + length.value > |b|)
              && (r.pos == length.pos ==> r.value == [] && r.trace == length.trace)
              && (r.pos != length.pos ==>
                   && r.pos == length.pos + length.value
                   && |r.value| == length.value - 1
                   && (forall i :: 0 <= i < |r.value| ==> r.value[i] == b[length.pos + i])
                   && r.trace == length.trace + [Read(length.pos, length.value)])
  {
    StringGuardExact(b, pos);
  }

  class IStream {
    const buffer: seq<byte>
    var index: nat
    ghost var trace: seq<Read>

    ghost predicate Valid()
      reads this
    {
      Fits(buffer, index)
    }

    constructor (data: seq<byte>)
      requires |data| <= MAX_SIZE
      ensures Valid() && buffer == data && index == 0 && trace == []
    {
      buffer := data;
      index := 0;
      trace := [];
    }

    method ReadPrimitive(w: nat) returns (value: nat)
      requires Valid() && IsWidth(w)
      modifies this
      ensures Valid()
      ensures var r := PrimitiveAt(buffer, old(index), w);
              value == r.value && index == r.pos && trace == old(trace) + r.trace
    {
      AlignUpBounds(index, w, |buffer|);
      var align := w;
      if align > 1 {
        var misalign := index % align;
        if misalign != 0 {
          index := index + (align - misalign);
        }
      }
      if index + w <= |buffer| {
        value := LittleEndian(buffer[index..index + w]);
        trace := trace + [Read(index, w)];
        index := index + w;
      } else {
        value := 0;
      }
    }

    /** `safe` is false when the copy would leave the buffer. */
    method ReadString() returns (text: seq<byte>, safe: bool)
      requires Valid()
      modifies this
      ensures var r := StringAt(buffer, old(index));
              safe == r.Done? &&
              (safe ==> Valid() && text == r.value && index == r.pos && trace == old(trace) + r.trace)
    {
      var len := ReadPrimitive(4);
      if len == 0 || Add32(index, len) > |buffer| {
        return [], true;
      }
      if index + len > |buffer| {
        return [], false;
      }
      text := buffer[index..index + len - 1];
      trace := trace + [Read(index, len)];
      index := index + len;
      safe := true;
    }
  }

  // ----- lookups by equivalence hash -----

  method FindStructByHash(hash: Hash, m: Mapping) returns (r: Option<seq<Member>>)
    ensures r == FindStruct(hash, m)
  {
    assert m[0..] == m;
    for i := 0 to |m|
      invariant FindStruct(hash, m[i..]) == FindStruct(hash, m)
    {
      var pair := m[i];
      assert m[i..][1..] == m[i + 1..];
      if pair.idComplete {
        if pair.hash == hash {
          if pair.objectComplete && pair.typeObject.StructType? {
            return Some(pair.typeObject.members);
          }
        }
      }
    }
    return None;
  }

  method FindEnumByHash(hash: Hash, m: Mapping) returns (r: Option<seq<Literal>>)
    ensures r == FindEnum(hash, m)
  {
    assert m[0..] == m;
    for i := 0 to |m|
      invariant FindEnum(hash, m[i..]) == FindEnum(hash, m)
    {
      var pair := m[i];
      assert m[i..][1..] == m[i + 1..];
      if pair.idComplete {
        if pair.hash == hash {
          if pair.objectComplete && pair.typeObject.EnumType? {
            return Some(pair.typeObject.literals);
          }
        }
      }
    }
    return None;
  }

  method FindUnionByHash(hash: Hash, m: Mapping) returns (r: Option<TypeObject>)
    ensures r == FindUnion(hash, m)
  {
    assert m[0..] == m;
    for i := 0 to |m|
      invariant FindUnion(hash, m[i..]) == FindUnion(hash, m)
    {
      var pair := m[i];
      assert m[i..][1..] == m[i + 1..];
      if pair.idComplete {
        if pair.hash == hash {
          if pair.objectComplete && pair.typeObject.UnionType? {
            return Some(pair.typeObject);
          }
        }
      }
    }
    return None;
  }
}
