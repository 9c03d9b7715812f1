/** The streaming CRC32 of the MCAP library: a slice-by-8 table form that refines the one-bit
    reflected shift register of RFC 1952, section 8.

    An unsigned integer of n bits is a sequence of n booleans, least significant bit first, so
    `x >> k` drops k bits in front, `x & 0xff` takes the first eight, and assembling a word from
    bytes is concatenation. */
module Crc32 {

  type Word = w: seq<bool> | |w| == 32 witness Zeros(32)
  type Byte = b: seq<bool> | |b| == 8 witness Zeros(8)

  function Zeros(n: nat): (z: seq<bool>)
    ensures |z| == n
  {
    seq(n, i => false)
  }

  function Xor(a: Word, b: Word): Word {
    seq(32, i requires 0 <= i < 32 => a[i] != b[i])
  }

  /** 0xedb88320 */
  const POLYNOMIAL: Word := [
    false, false, false, false,  // 0
    false, true, false, false,   // 2
    true, true, false, false,    // 3
    false, false, false, true,   // 8
    false, false, false, true,   // 8
    true, true, false, true,     // b
    true, false, true, true,     // d
    false, true, true, true]     // e

  function Shr(r: Word, k: nat): Word
    requires k <= 32
  {
    r[k..] + Zeros(k)
  }

  function Widen(b: Byte): Word {
    b + Zeros(24)
  }

  // ----- the checksum by definition -----

  /** One bit of the reflected shift register. */
  function Step(r: Word): Word {
    Xor(if r[0] then POLYNOMIAL else Zeros(32), Shr(r, 1))
  }

  function Steps(r: Word, n: nat): Word
    decreases n
  {
    if n == 0 then r else Steps(Step(r), n - 1)
  }

  /** A byte enters the low end of the register, which then takes one step for each of its bits. */
  function Enter(r: Word, b: Byte): Word {
    Steps(Xor(r, Widen(b)), |b|)
  }

  function Fold(r: Word, data: seq<Byte>): Word
    decreases |data|
  {
    if data == [] then r else Fold(Enter(r, data[0]), data[1..])
  }

  // ----- exclusive-or is a group operation -----

  lemma XorLaws(a: Word, b: Word, c: Word)
    ensures Xor(a, b) == Xor(b, a)
    ensures Xor(Xor(a, b), c) == Xor(a, Xor(b, c))
    ensures Xor(a, Xor(a, b)) == b
    ensures Xor(a, Zeros(32)) == a == Xor(Zeros(32), a)
  {
  }

  lemma XorShr(a: Word, b: Word, k: nat)
    requires k <= 32
    ensures Shr(Xor(a, b), k) == Xor(Shr(a, k), Shr(b, k))
  {
  }

  // ----- the register is linear and invertible -----

  lemma StepXor(a: Word, b: Word)
    ensures Step(Xor(a, b)) == Xor(Step(a), Step(b))
  {
    XorShr(a, b, 1);
  }

  lemma {:induction false} StepsXor(a: Word, b: Word, n: nat)
    ensures Steps(Xor(a, b), n) == Xor(Steps(a, n), Steps(b, n))
    decreases n
  {
    if n > 0 {
      StepXor(a, b);
      StepsXor(Step(a), Step(b), n - 1);
    }
  }

  lemma {:induction false} StepsAdd(r: Word, m: nat, n: nat)
    ensures Steps(r, m + n) == Steps(Steps(r, m), n)
    decreases m
  {
    if m > 0 {
      StepsAdd(Step(r), m - 1, n);
    }
  }

  /** The top bit of a step tells which bit left the register. */
  lemma StepInjective(a: Word, b: Word)
    requires Step(a) == Step(b)
    ensures a == b
  {
    assert Step(a)[31] == a[0] && Step(b)[31] == b[0];
    forall i | 0 < i < 32 ensures a[i] == b[i] {
      assert Step(a)[i - 1] == Step(b)[i - 1];
    }
  }

  lemma {:induction false} StepsInjective(a: Word, b: Word, n: nat)
    requires Steps(a, n) == Steps(b, n)
    ensures a == b
    decreases n
  {
    if n > 0 {
      StepsInjective(Step(a), Step(b), n - 1);
      StepInjective(a, b);
    }
  }

  // ----- whole bytes leave the register at once -----

  lemma {:induction false} ShiftOut(r: Word, n: nat)
    requires n <= 32
    requires forall i :: 0 <= i < n ==> !r[i]
    ensures Steps(r, n) == Shr(r, n)
    decreases n
  {
    if n > 0 {
      XorLaws(Shr(r, 1), Zeros(32), r);
      assert Step(r) == Shr(r, 1);
      ShiftOut(Shr(r, 1), n - 1);
      assert Shr(Shr(r, 1), n - 1) == Shr(r, n);
    } else {
      assert Shr(r, 0) == r;
    }
  }

  function LowByte(r: Word): Byte { r[..8] }

  lemma LowAndHigh(r: Word, low: Byte, high: Word)
    requires low == LowByte(r) && high == Zeros(8) + r[8..]
    ensures r == Xor(Widen(low), high)
    ensures Steps(high, |low|) == Shr(r, 8)
  {
    ShiftOut(high, |low|);
    assert Shr(high, |low|) == Shr(r, 8);
  }

  lemma AdvanceApart(low: Word, high: Word, shifted: Word, m: nat, n: nat)
    requires Steps(high, m) == shifted
    ensures Steps(Xor(low, high), m + n) == Xor(Steps(low, m + n), Steps(shifted, n))
  {
    StepsXor(low, high, m + n);
    StepsAdd(high, m, n);
  }

  /** The low byte and the other three advance independently. */
  lemma Peel(r: Word, low: Byte, n: nat)
    requires low == LowByte(r)
    ensures Steps(r, |low| + n) == Xor(Steps(Widen(low), |low| + n), Steps(Shr(r, 8), n))
  {
    var high := Zeros(8) + r[8..];
    LowAndHigh(r, low, high);
    AdvanceApart(Widen(low), high, Shr(r, 8), |low|, n);
  }

  /** One table lookup advances the register by a byte. */
  lemma PeelByte(r: Word, low: Byte)
    requires low == LowByte(r)
    ensures Steps(r, |low|) == Xor(Steps(Widen(low), |low|), Shr(r, 8))
  {
    Peel(r, low, 0);
  }

  // ----- words from bytes -----

  /** The little-endian word of at most four bytes. */
  function WordOf(data: seq<Byte>): Word
    requires |data| <= 4
    decreases |data|
  {
    if data == [] then Zeros(32) else data[0] + WordOf(data[1..])[..24]
  }

  lemma {:induction false} WordOfTop(data: seq<Byte>)
    requires |data| <= 4
    ensures forall i :: 8 * |data| <= i < 32 ==> !WordOf(data)[i]
    decreases |data|
  {
    if data != [] {
      WordOfTop(data[1..]);
    }
  }

  lemma {:induction false} WordOfInjective(a: seq<Byte>, b: seq<Byte>)
    requires |a| == |b| <= 4 && WordOf(a) == WordOf(b)
    ensures a == b
    decreases |a|
  {
    if a != [] {
      WordOfTop(a[1..]);
      WordOfTop(b[1..]);
      var x, y := WordOf(a[1..]), WordOf(b[1..]);
      assert a[0] == WordOf(a)[..8] == WordOf(b)[..8] == b[0];
      assert x[..24] == WordOf(a)[8..] == WordOf(b)[8..] == y[..24];
      assert x == y;
      WordOfInjective(a[1..], b[1..]);
      assert a == [a[0]] + a[1..] && b == [b[0]] + b[1..];
    }
  }

  /** A byte and the word of the bytes after it may enter the register together. */
  lemma Absorb(r: Word, b: Byte, rest: Word)
    requires forall i :: 24 <= i < 32 ==> !rest[i]
    ensures Steps(Xor(r, b + rest[..24]), |b|) == Xor(Enter(r, b), rest)
  {
    hide Step, Steps;
    var up := Zeros(8) + rest[..24];
    assert b + rest[..24] == Xor(Widen(b), up);
    XorLaws(r, Widen(b), up);
    ShiftOut(up, |b|);
    assert Shr(up, |b|) == rest;
    StepsXor(Xor(r, Widen(b)), up, |b|);
  }

  /** Up to four bytes may enter the register together. */
  lemma {:induction false} FoldWord(r: Word, data: seq<Byte>)
    requires |data| <= 4
    ensures Fold(r, data) == Steps(Xor(r, WordOf(data)), 8 * |data|)
    decreases |data|
  {
    hide Xor, Step, Widen, Zeros;
    if data == [] {
      XorLaws(r, r, r);
    } else {
      var b, rest := data[0], data[1..];
      WordOfTop(rest);
      Absorb(r, b, WordOf(rest));
      StepsAdd(Xor(r, WordOf(data)), |b|, 8 * |rest|);
      FoldWord(Enter(r, b), rest);
    }
  }

  lemma {:induction false} FoldConcat(r: Word, a: seq<Byte>, b: seq<Byte>)
    ensures Fold(r, a + b) == Fold(Fold(r, a), b)
    decreases |a|
  {
    if a == [] {
      assert a + b == b;
    } else {
      assert (a + b)[1..] == a[1..] + b;
      FoldConcat(Enter(r, a[0]), a[1..], b);
    }
  }
}
