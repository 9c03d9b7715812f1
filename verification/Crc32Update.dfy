/** The code: eight lookup tables, and the update that consumes eight bytes a round. */
module Crc32Update {
  import opened Crc32

  // ----- the lookup tables -----

  /** The unsigned value of some bits. */
  function Index(bits: seq<bool>): nat
    decreases |bits|
  {
    if bits == [] then 0 else (if bits[0] then 1 else 0) + 2 * Index(bits[1..])
  }

  /** The n low bits of an unsigned value. */
  function Bits(i: nat, n: nat): (bits: seq<bool>)
    ensures |bits| == n
    decreases n
  {
    if n == 0 then [] else [i % 2 == 1] + Bits(i / 2, n - 1)
  }

  lemma {:induction false} BitsOfIndex(bits: seq<bool>, n: nat)
    requires |bits| <= n
    ensures Bits(Index(bits), n) == bits + Zeros(n - |bits|)
    decreases n
  {
    if bits == [] {
      if n > 0 {
        BitsOfIndex([], n - 1);
      }
    } else {
      BitsOfIndex(bits[1..], n - 1);
      assert Index(bits) / 2 == Index(bits[1..]);
    }
  }

  function Pow2(n: nat): (p: nat)
    ensures p > 0
  {
    if n == 0 then 1 else 2 * Pow2(n - 1)
  }

  lemma {:induction false} IndexBelowPow2(bits: seq<bool>)
    ensures Index(bits) < Pow2(|bits|)
    decreases |bits|
  {
    if bits != [] {
      IndexBelowPow2(bits[1..]);
    }
  }

  lemma {:induction false} BitsWiden(i: nat, m: nat, n: nat)
    requires i < Pow2(m) && m <= n
    ensures Bits(i, n) == Bits(i, m) + Zeros(n - m)
    decreases n
  {
    if m > 0 {
      BitsWiden(i / 2, m - 1, n - 1);
    } else if n > 0 {
      BitsWiden(0, 0, n - 1);
    }
  }

  lemma IndexBound(b: Byte)
    ensures Index(b) < 256
  {
    IndexBelowPow2(b);
    assert Pow2(8) == 256;
  }

  /** Entry j of the tables: entry 256 * k + b is the register after byte b and k zero bytes. */
  function Entry(j: nat): Word
    decreases j
  {
    if j < 256 then Enter(Zeros(32), Bits(j, 8)) else Enter(Entry(j - 256), Bits(0, 8))
  }

  lemma EnterZero(r: Word, b: Byte)
    ensures Enter(Zeros(32), b) == Steps(Widen(b), |b|)
    ensures b == Zeros(8) ==> Enter(r, b) == Steps(r, |b|)
  {
    XorLaws(Widen(b), r, r);
    XorLaws(r, r, r);
    assert b == Zeros(8) ==> Widen(b) == Zeros(32);
  }

  lemma EntryFirst(i: nat, b: Byte)
    requires i == Index(b) < 256
    ensures Entry(i) == Steps(Widen(b), |b|)
  {
    BitsOfIndex(b, 8);
    assert Bits(i, 8) == b;
    EnterZero(Zeros(32), b);
  }

  lemma {:induction false} EntryMeaning(k: nat, i: nat, b: Byte)
    requires i == Index(b) < 256
    ensures Entry(256 * k + i) == Steps(Widen(b), 8 * k + |b|)
    decreases k
  {
    hide Step, Enter, Widen, Steps, Index, Entry, Bits;
    if k == 0 {
      EntryFirst(i, b);
    } else {
      EntryMeaning(k - 1, i, b);
      EntryNext(256 * (k - 1) + i, |b|);
      StepsAdd(Widen(b), 8 * (k - 1) + |b|, |b|);
    }
  }

  /** The table one further on has seen one zero byte more. */
  lemma EntryNext(j: nat, width: nat)
    requires width == 8
    ensures Entry(j + 256) == Steps(Entry(j), width)
  {
    BitsOfIndex([], 8);
    EnterZero(Entry(j), Bits(0, 8));
  }

  /** What the constructor leaves in the table. */
  ghost predicate IsTable(t: seq<Word>) {
    |t| == 2048 && forall j :: 0 <= j < 2048 ==> t[j] == Entry(j)
  }

  /** The eight unrolled lines of the source's first loop. */
  method EightSteps(i: Word) returns (r: Word)
    ensures r == Steps(i, 8)
  {
    r := i;
    r := Xor(if r[0] then POLYNOMIAL else Zeros(32), Shr(r, 1));
    r := Xor(if r[0] then POLYNOMIAL else Zeros(32), Shr(r, 1));
    r := Xor(if r[0] then POLYNOMIAL else Zeros(32), Shr(r, 1));
    r := Xor(if r[0] then POLYNOMIAL else Zeros(32), Shr(r, 1));
    assert r == Step(Step(Step(Step(i))));
    r := Xor(if r[0] then POLYNOMIAL else Zeros(32), Shr(r, 1));
    r := Xor(if r[0] then POLYNOMIAL else Zeros(32), Shr(r, 1));
    r := Xor(if r[0] then POLYNOMIAL else Zeros(32), Shr(r, 1));
    r := Xor(if r[0] then POLYNOMIAL else Zeros(32), Shr(r, 1));
  }

  lemma BitsEntry(i: nat, r: Word)
    requires i < 256 && r == Steps(Bits(i, 32), 8)
    ensures r == Entry(i)
  {
    BitsWiden(i, 8, 32);
    EnterZero(r, Bits(i, 8));
  }

  lemma EntryStep(value: Word, low: Byte, j: nat)
    requires value == Entry(j) && low == LowByte(value)
    ensures Index(low) < 256
    ensures Xor(Entry(Index(low)), Shr(value, 8)) == Entry(j + 256)
  {
    IndexBound(low);
    EntryMeaning(0, Index(low), low);
    PeelByte(value, low);
    EntryNext(j, |low|);
  }

  method FillFirst(table: array<Word>)
    requires table.Length == 2048
    modifies table
    ensures forall j :: 0 <= j < 256 ==> table[j] == Entry(j)
  {
    hide *;
    for i := 0 to 256
      invariant forall j :: 0 <= j < i ==> table[j] == Entry(j)
    {
      var r := EightSteps(Bits(i, 32));
      BitsEntry(i, r);
      table[i] := r;
    }
  }

  method FillOthers(table: array<Word>)
    requires table.Length == 2048
    requires forall j :: 0 <= j < 256 ==> table[j] == Entry(j)
    modifies table
    ensures IsTable(table[..])
  {
    hide Step, Enter, Widen, Steps, Index, Entry, Xor, Shr;
    for i := 256 to table.Length
      invariant forall j :: 0 <= j < i ==> table[j] == Entry(j)
    {
      var value := table[i - 256];
      EntryStep(value, LowByte(value), i - 256);
      table[i] := Xor(table[Index(LowByte(value))], Shr(value, 8));
    }
  }

  /** The register after byte b and k zero bytes. */
  function TableWord(k: nat, b: Byte): Word {
    Steps(Widen(b), 8 * k + |b|)
  }

  class Crc32Table {
    const table: array<Word>

    ghost predicate Valid()
      reads table
    {
      IsTable(table[..])
    }

    constructor ()
      ensures Valid() && fresh(table)
    {
      table := new Word[2048](_ => Zeros(32));
      new;
      FillFirst(table);
      FillOthers(table);
    }

    /** CRC32_TABLE[256 * k + b] */
    function At(k: nat, b: Byte): (w: Word)
      requires Valid() && k < 8
      reads table
      ensures w == TableWord(k, b)
    {
      IndexBound(b);
      EntryMeaning(k, Index(b), b);
      table[256 * k + Index(b)]
    }
  }

  // ----- the streaming update -----

  /** The byte-wise line of both single-byte loops. */
  lemma EnterByTable(r: Word, b: Byte, low: Byte, t: Word)
    requires low == LowByte(Xor(r, Widen(b))) && t == Steps(Widen(low), |low|)
    ensures Xor(t, Shr(r, 8)) == Enter(r, b)
  {
    PeelByte(Xor(r, Widen(b)), low);
    assert Shr(Xor(r, Widen(b)), 8) == Shr(r, 8);
  }

  /** A register advances as the exclusive-or of its four bytes, each advanced on its own. */
  lemma FourPeels(r: Word, a: Byte, b: Byte, c: Byte, d: Byte, n: nat)
    requires r == Join(a, b, c, d)
    ensures Steps(r, |a| + (|b| + (|c| + (|d| + n)))) ==
            Xor(Steps(Widen(a), |a| + (|b| + (|c| + (|d| + n)))),
                Xor(Steps(Widen(b), |b| + (|c| + (|d| + n))),
                    Xor(Steps(Widen(c), |c| + (|d| + n)), Steps(Widen(d), |d| + n))))
  {
    assert LowByte(r) == a && Shr(r, 8) == b + c + d + Zeros(8);
    Peel(r, a, |b| + (|c| + (|d| + n)));
    var r1 := Shr(r, 8);
    assert LowByte(r1) == b && Shr(r1, 8) == c + d + Zeros(16);
    Peel(r1, b, |c| + (|d| + n));
    var r2 := Shr(r1, 8);
    assert LowByte(r2) == c && Shr(r2, 8) == Widen(d);
    Peel(r2, c, |d| + n);
  }

  /** Eight lookups in the order of the source equal the two halves, each combined from the inside out. */
  lemma XorChain(a: Word, b: Word, c: Word, d: Word, e: Word, f: Word, g: Word, h: Word)
    ensures Xor(Xor(Xor(Xor(Xor(Xor(Xor(a, b), c), d), e), f), g), h) ==
            Xor(Xor(h, Xor(g, Xor(f, e))), Xor(d, Xor(c, Xor(b, a))))
  {
    assert forall i :: 0 <= i < 32 ==>
      Xor(Xor(Xor(Xor(Xor(Xor(Xor(a, b), c), d), e), f), g), h)[i] ==
      Xor(Xor(h, Xor(g, Xor(f, e))), Xor(d, Xor(c, Xor(b, a))))[i];
  }

  /** Eight bytes enter the register as two words. */
  lemma FoldEight(r: Word, data: seq<Byte>)
    requires |data| == 8
    ensures Fold(r, data) == Xor(Steps(Xor(r, WordOf(data[..4])), 16 * |data[..4]|),
                                 Steps(WordOf(data[4..]), 8 * |data[4..]|))
  {
    var first, second := WordOf(data[..4]), WordOf(data[4..]);
    assert data == data[..4] + data[4..];
    FoldConcat(r, data[..4], data[4..]);
    FoldWord(r, data[..4]);
    FoldWord(Fold(r, data[..4]), data[4..]);
    var n := 8 * |data[..4]|;
    StepsAdd(Xor(r, first), n, n);
    StepsXor(Steps(Xor(r, first), n), second, n);
  }

  function Join(a: seq<bool>, b: seq<bool>, c: seq<bool>, d: seq<bool>): seq<bool> {
    a + b + c + d
  }

  lemma WordOfFour(data: seq<Byte>)
    requires |data| == 4
    ensures WordOf(data) == Join(data[0], data[1], data[2], data[3])
  {
    assert data[1..][1..] == data[2..] && data[2..][1..] == data[3..] && data[3..][1..] == [];
    var w3, w2, w1 := WordOf(data[3..]), WordOf(data[2..]), WordOf(data[1..]);
    assert data[3..][0] == data[3] && WordOf([]) == Zeros(32);
    assert w3 == data[3] + WordOf([])[..24] == data[3] + Zeros(24);
    assert w2 == data[2] + w3[..24] == data[2] + data[3] + Zeros(16);
    assert w1 == data[1] + w2[..24] == data[1] + data[2] + data[3] + Zeros(8);
  }

  function GetUint32LE(data: seq<Byte>, offset: nat): (w: Word)
    requires offset + 4 <= |data|
    ensures w == WordOf(data[offset..offset + 4])
  {
    WordOfFour(data[offset..offset + 4]);
    Join(data[offset], data[offset + 1], data[offset + 2], data[offset + 3])
  }

  /** What the source computes from eight lookups is what eight bytes do to the register. */
  lemma RoundIsFold(r: Word, data: seq<Byte>, x: Word, x0: Byte, x1: Byte, x2: Byte, x3: Byte)
    requires |data| == 8
    requires x == Xor(r, WordOf(data[..4])) == Join(x0, x1, x2, x3)
    ensures Xor(Xor(Xor(Xor(Xor(Xor(Xor(TableWord(0, data[7]), TableWord(1, data[6])), TableWord(2, data[5])),
              TableWord(3, data[4])), TableWord(4, x3)), TableWord(5, x2)), TableWord(6, x1)), TableWord(7, x0))
            == Fold(r, data)
  {
    hide Step, Steps, Widen, Xor, Fold, WordOf;
    FoldEight(r, data);
    WordOfFour(data[4..]);
    FourPeels(x, x0, x1, x2, x3, 32);
    FourPeels(WordOf(data[4..]), data[4], data[5], data[6], data[7], 0);
    XorChain(TableWord(0, data[7]), TableWord(1, data[6]), TableWord(2, data[5]), TableWord(3, data[4]),
      TableWord(4, x3), TableWord(5, x2), TableWord(6, x1), TableWord(7, x0));
  }

  /** `uintptr_t(data + offset) & alignof(uint32_t)`: bit two of the address. */
  predicate Misaligned(base: nat, offset: nat) {
    (base + offset) / 4 % 2 == 1
  }

  /** Where the single bytes in front end and the rounds of eight begin. */
  function PrefixEnd(base: nat, offset: nat, length: nat): (end: nat)
    requires offset <= length
    ensures offset <= end <= length
    decreases length - offset
  {
    if Misaligned(base, offset) && offset < length then PrefixEnd(base, offset + 1, length) else offset
  }

  lemma {:induction false} PrefixEndIs(base: nat, offset: nat, length: nat)
    requires offset <= length
    ensures var a := (base + offset) % 8;
            PrefixEnd(base, offset, length) ==
              if a < 4 then offset else if offset + (8 - a) <= length then offset + (8 - a) else length
    decreases length - offset
  {
    var x := base + offset;
    assert x == 8 * (x / 8) + x % 8;
    assert x / 4 % 2 == 1 <==> x % 8 >= 4;
    if Misaligned(base, offset) && offset < length {
      NextAddress(x);
      PrefixEndIs(base, offset + 1, length);
    }
  }

  lemma NextAddress(x: nat)
    ensures (x + 1) % 8 == if x % 8 == 7 then 0 else x % 8 + 1
  {
  }

  /** With four bytes or more the rounds begin at a multiple of four exactly if the data do or bit two of their
      address is set, in which case they begin at a multiple of eight. */
  lemma AlignmentExact(base: nat, length: nat)
    ensures length >= 4 ==> ((base + PrefixEnd(base, 0, length)) % 4 == 0 <==> base % 4 == 0 || Misaligned(base, 0))
    ensures Misaligned(base, 0) && length >= 4 ==> (base + PrefixEnd(base, 0, length)) % 8 == 0
    ensures !Misaligned(base, 0) ==> PrefixEnd(base, 0, length) == 0
  {
    hide PrefixEnd;
    PrefixEndIs(base, 0, length);
    Residues(base);
  }

  lemma Residues(base: nat)
    ensures base / 4 % 2 == 1 <==> base % 8 >= 4
    ensures base % 4 == 0 <==> base % 8 == 0 || base % 8 == 4
    ensures (base + (8 - base % 8)) % 8 == 0 && (base + (8 - base % 8)) % 4 == 0
  {
    var q, a := base / 8, base % 8;
    assert base == 8 * q + a;
    assert base + (8 - a) == 8 * (q + 1);
  }

  /** From address 1 the rounds begin there, unaligned; from address 4, which is aligned, four single bytes come
      first. */
  lemma AlignmentMissed(length: nat)
    requires length >= 4
    ensures PrefixEnd(1, 0, length) == 0 && PrefixEnd(4, 0, length) == 4
  {
    PrefixEndIs(1, 0, length);
    PrefixEndIs(4, 0, length);
  }

  /** The first loop. */
  method Prefix(tables: Crc32Table, prev: Word, data: seq<Byte>, base: nat) returns (r: Word, offset: nat)
    requires tables.Valid()
    ensures offset == PrefixEnd(base, 0, |data|) && offset <= |data|
    ensures Fold(r, data[offset..]) == Fold(prev, data)
  {
    hide Crc32Table.Valid, Fold, Misaligned;
    r := prev;
    offset := 0;
    assert data[0..] == data;
    while Misaligned(base, offset) && offset < |data|
      invariant 0 <= offset <= |data|
      invariant PrefixEnd(base, offset, |data|) == PrefixEnd(base, 0, |data|)
      invariant Fold(r, data[offset..]) == Fold(prev, data)
    {
      r := OneByte(tables, r, data, offset);
      offset := offset + 1;
    }
  }

  method Update(tables: Crc32Table, prev: Word, data: seq<Byte>, base: nat) returns (r: Word)
    requires tables.Valid()
    ensures r == Fold(prev, data)
  {
    hide *;
    var offset;
    r, offset := Prefix(tables, prev, data, base);
    if offset == |data| {
      FoldDone(r, data);
      return;
    }
    var remainingBytes := |data| - offset;
    while remainingBytes >= 8
      invariant 0 <= offset <= |data| && remainingBytes == |data| - offset
      invariant Fold(r, data[offset..]) == Fold(prev, data)
    {
      r := EightBytes(tables, r, data, offset);
      offset := offset + 8;
      remainingBytes := remainingBytes - 8;
    }
    while offset < |data|
      invariant 0 <= offset <= |data|
      invariant Fold(r, data[offset..]) == Fold(prev, data)
    {
      r := OneByte(tables, r, data, offset);
      offset := offset + 1;
    }
    FoldDone(r, data);
  }

  lemma FoldDone(r: Word, data: seq<Byte>)
    ensures Fold(r, data[|data|..]) == r
  {
  }

  /** The loop body shared by the source's first and last loop. */
  method OneByte(tables: Crc32Table, r: Word, data: seq<Byte>, offset: nat) returns (next: Word)
    requires tables.Valid() && offset < |data|
    ensures Fold(next, data[offset + 1..]) == Fold(r, data[offset..])
  {
    hide Step, Steps, Xor, Shr, Enter, Widen, Crc32Table.Valid;
    var low := LowByte(Xor(r, Widen(data[offset])));
    var t := tables.At(0, low);
    next := Xor(t, Shr(r, 8));
    EnterByTable(r, data[offset], low, t);
    assert data[offset..][1..] == data[offset + 1..];
  }

  /** The body of the source's middle loop. */
  method EightBytes(tables: Crc32Table, r: Word, data: seq<Byte>, offset: nat) returns (next: Word)
    requires tables.Valid() && offset + 8 <= |data|
    ensures Fold(next, data[offset + 8..]) == Fold(r, data[offset..])
  {
    hide *;
    var x := Xor(r, GetUint32LE(data, offset));
    var r2 := GetUint32LE(data, offset + 4);
    next := Xor(Xor(Xor(Xor(Xor(Xor(Xor(tables.At(0, r2[24..32]), tables.At(1, r2[16..24])),
      tables.At(2, r2[8..16])), tables.At(3, r2[0..8])),
      tables.At(4, x[24..32])), tables.At(5, x[16..24])),
      tables.At(6, x[8..16])), tables.At(7, x[0..8]));
    ghost var chunk := data[offset..offset + 8];
    assert chunk[..4] == data[offset..offset + 4] && chunk[4..] == data[offset + 4..offset + 8];
    WordOfFour(chunk[4..]);
    JoinParts(r2, chunk[4], chunk[5], chunk[6], chunk[7]);
    JoinParts(x, x[0..8], x[8..16], x[16..24], x[24..32]);
    RoundIsFold(r, chunk, x, x[0..8], x[8..16], x[16..24], x[24..32]);
    assert data[offset..] == chunk + data[offset + 8..];
    FoldConcat(r, chunk, data[offset + 8..]);
  }

  lemma JoinParts(w: Word, a: Byte, b: Byte, c: Byte, d: Byte)
    ensures w == Join(a, b, c, d) <==> w[0..8] == a && w[8..16] == b && w[16..24] == c && w[24..32] == d
  {
    assert w == Join(w[0..8], w[8..16], w[16..24], w[24..32]);
  }
}
