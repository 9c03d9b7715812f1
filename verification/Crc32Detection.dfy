/** Which changes of start value or data a checksum detects. */
module Crc32Detection {
  import opened Crc32

  /** For fixed data no two start values give the same checksum. */
  lemma {:induction false} FoldInjective(r: Word, s: Word, data: seq<Byte>)
    ensures Fold(r, data) == Fold(s, data) ==> r == s
    decreases |data|
  {
    if data != [] {
      FoldInjective(Enter(r, data[0]), Enter(s, data[0]), data[1..]);
      EnterInjective(r, s, data[0]);
    }
  }

  lemma EnterInjective(r: Word, s: Word, b: Byte)
    ensures Enter(r, b) == Enter(s, b) ==> r == s
  {
    hide Step;
    if Enter(r, b) == Enter(s, b) {
      StepsInjective(Xor(r, Widen(b)), Xor(s, Widen(b)), |b|);
      XorLaws(Widen(b), r, r);
      XorLaws(Widen(b), s, s);
    }
  }

  /** At most four bytes reach the register without any loss. */
  lemma FoldShortInjective(r: Word, a: seq<Byte>, b: seq<Byte>)
    requires |a| == |b| <= 4
    ensures Fold(r, a) == Fold(r, b) ==> a == b
  {
    hide Fold, Steps, WordOf;
    if Fold(r, a) == Fold(r, b) {
      var x, y := WordOf(a), WordOf(b);
      FoldWord(r, a);
      FoldWord(r, b);
      StepsInjective(Xor(r, x), Xor(r, y), 8 * |a|);
      XorLaws(r, x, x);
      XorLaws(r, y, y);
      WordOfInjective(a, b);
    }
  }

  /** Every change confined to four consecutive bytes is detected. */
  lemma BurstDetected(r: Word, before: seq<Byte>, a: seq<Byte>, b: seq<Byte>, after: seq<Byte>)
    requires |a| == |b| <= 4
    ensures Fold(r, before + a + after) == Fold(r, before + b + after) <==> a == b
  {
    hide Fold;
    FoldConcat(r, before + a, after);
    FoldConcat(r, before + b, after);
    FoldConcat(r, before, a);
    FoldConcat(r, before, b);
    FoldInjective(Fold(Fold(r, before), a), Fold(Fold(r, before), b), after);
    FoldShortInjective(Fold(r, before), a, b);
  }

  // ----- bursts of bits, wherever the bytes begin -----

  /** Some bits at the low end of a register. */
  function Pad(bits: seq<bool>): Word
    requires |bits| <= 32
  {
    bits + Zeros(32 - |bits|)
  }

  /** The register after bits that enter one by one. */
  function FoldBits(r: Word, bits: seq<bool>): Word
    decreases |bits|
  {
    if bits == [] then r else FoldBits(Step(Xor(r, Pad([bits[0]]))), bits[1..])
  }

  /** The bits of some bytes in the order in which they enter. */
  function Flat(data: seq<Byte>): seq<bool> {
    if data == [] then [] else data[0] + Flat(data[1..])
  }

  lemma AbsorbBit(r: Word, h: bool, t: seq<bool>)
    requires |t| <= 31
    ensures Step(Xor(r, Pad([h] + t))) == Xor(Step(Xor(r, Pad([h]))), Pad(t))
  {
    var up := [false] + Pad(t)[..31];
    assert Pad([h] + t) == Xor(Pad([h]), up);
    XorLaws(r, Pad([h]), up);
    StepXor(Xor(r, Pad([h])), up);
    assert Shr(up, 1) == Pad(t);
    XorLaws(Shr(up, 1), Zeros(32), r);
  }

  /** Up to 32 bits may enter the register together. */
  lemma {:induction false} BitsEnterTogether(r: Word, bits: seq<bool>)
    requires |bits| <= 32
    ensures FoldBits(r, bits) == Steps(Xor(r, Pad(bits)), |bits|)
    decreases |bits|
  {
    hide Step, Xor, Pad;
    if bits == [] {
      NoBits(r);
    } else {
      var h, t := bits[0], bits[1..];
      assert bits == [h] + t;
      BitsEnterTogether(Step(Xor(r, Pad([h]))), t);
      AbsorbBit(r, h, t);
    }
  }

  lemma NoBits(r: Word)
    ensures Xor(r, Pad([])) == r
  {
    XorLaws(r, r, r);
    assert Pad([]) == Zeros(32);
  }

  lemma {:induction false} FoldBitsConcat(r: Word, a: seq<bool>, b: seq<bool>)
    ensures FoldBits(r, a + b) == FoldBits(FoldBits(r, a), b)
    decreases |a|
  {
    hide Step, Xor, Pad;
    if a == [] {
      assert a + b == b;
    } else {
      assert (a + b)[1..] == a[1..] + b;
      FoldBitsConcat(Step(Xor(r, Pad([a[0]]))), a[1..], b);
    }
  }

  /** Folding bytes is folding their bits. */
  lemma {:induction false} FoldIsBits(r: Word, data: seq<Byte>)
    ensures Fold(r, data) == FoldBits(r, Flat(data))
    decreases |data|
  {
    hide Step, Steps, Xor;
    if data != [] {
      var b := data[0];
      BitsEnterTogether(r, b);
      assert Pad(b) == Widen(b);
      FoldIsBits(Enter(r, b), data[1..]);
      FoldBitsConcat(r, b, Flat(data[1..]));
    }
  }

  lemma {:induction false} FoldBitsInjective(r: Word, s: Word, bits: seq<bool>)
    ensures FoldBits(r, bits) == FoldBits(s, bits) ==> r == s
    decreases |bits|
  {
    hide Step, Xor, Pad;
    if bits != [] && FoldBits(r, bits) == FoldBits(s, bits) {
      var p := Pad([bits[0]]);
      FoldBitsInjective(Step(Xor(r, p)), Step(Xor(s, p)), bits[1..]);
      StepInjective(Xor(r, p), Xor(s, p));
      XorLaws(p, r, r);
      XorLaws(p, s, s);
    }
  }

  lemma ShortBitsInjective(r: Word, a: seq<bool>, b: seq<bool>)
    requires |a| == |b| <= 32
    ensures FoldBits(r, a) == FoldBits(r, b) ==> a == b
  {
    hide Step, Steps, Xor, FoldBits;
    if FoldBits(r, a) == FoldBits(r, b) {
      BitsEnterTogether(r, a);
      BitsEnterTogether(r, b);
      StepsInjective(Xor(r, Pad(a)), Xor(r, Pad(b)), |a|);
      XorLaws(r, Pad(a), r);
      XorLaws(r, Pad(b), r);
      assert a == Pad(a)[..|a|] && b == Pad(b)[..|b|];
    }
  }

  lemma {:induction false} FlatInjective(x: seq<Byte>, y: seq<Byte>)
    ensures Flat(x) == Flat(y) ==> x == y
    decreases |x|
  {
    FlatLength(x);
    FlatLength(y);
    if x != [] && Flat(x) == Flat(y) {
      assert x[0] == Flat(x)[..8] == Flat(y)[..8] == y[0];
      assert Flat(x[1..]) == Flat(x)[8..] == Flat(y)[8..] == Flat(y[1..]);
      FlatInjective(x[1..], y[1..]);
      assert x == [x[0]] + x[1..] && y == [y[0]] + y[1..];
    }
  }

  lemma {:induction false} FlatLength(data: seq<Byte>)
    ensures |Flat(data)| == 8 * |data|
  {
    if data != [] {
      FlatLength(data[1..]);
    }
  }

  /** The two inputs are the same outside 32 consecutive bits, which may lie across five bytes. */
  ghost predicate DifferInBurst(x: seq<Byte>, y: seq<Byte>, before: seq<bool>, a: seq<bool>, b: seq<bool>,
                                after: seq<bool>) {
    |a| == |b| <= 32 && Flat(x) == before + a + after && Flat(y) == before + b + after
  }

  /** Every change confined to 32 consecutive bits is detected. */
  lemma BitBurstDetected(r: Word, x: seq<Byte>, y: seq<Byte>, before: seq<bool>, a: seq<bool>, b: seq<bool>,
                         after: seq<bool>)
    ensures DifferInBurst(x, y, before, a, b, after) ==> (Fold(r, x) == Fold(r, y) <==> x == y)
  {
    hide Fold, FoldBits, Flat;
    if DifferInBurst(x, y, before, a, b, after) && Fold(r, x) == Fold(r, y) {
      FoldIsBits(r, x);
      FoldIsBits(r, y);
      FoldBitsConcat(r, before + a, after);
      FoldBitsConcat(r, before + b, after);
      FoldBitsConcat(r, before, a);
      FoldBitsConcat(r, before, b);
      var s := FoldBits(r, before);
      FoldBitsInjective(FoldBits(s, a), FoldBits(s, b), after);
      ShortBitsInjective(s, a, b);
      FlatInjective(x, y);
    }
  }

  // ----- from the initial value, over any number of updates, to the final inversion -----

  function Ones(n: nat): (w: seq<bool>)
    ensures |w| == n
  {
    seq(n, i => true)
  }

  /** CRC32_INIT, 0xffffffff */
  function AllOnes(): Word { Ones(32) }

  /** The output value is the inverted register. */
  function Final(crc: Word): Word {
    Xor(crc, AllOnes())
  }

  lemma FinalInjective(a: Word, b: Word)
    ensures Final(a) == Final(b) ==> a == b
  {
    hide Xor;
    XorLaws(AllOnes(), a, a);
    XorLaws(AllOnes(), b, b);
    XorLaws(a, AllOnes(), a);
    XorLaws(b, AllOnes(), b);
  }

  /** The register after any number of updates. */
  function Updates(r: Word, pieces: seq<seq<Byte>>): Word
    decreases |pieces|
  {
    if pieces == [] then r else Updates(Fold(r, pieces[0]), pieces[1..])
  }

  function Concat(pieces: seq<seq<Byte>>): seq<Byte> {
    if pieces == [] then [] else pieces[0] + Concat(pieces[1..])
  }

  lemma {:induction false} UpdatesAreOne(r: Word, pieces: seq<seq<Byte>>)
    ensures Updates(r, pieces) == Fold(r, Concat(pieces))
    decreases |pieces|
  {
    hide Fold;
    if pieces == [] {
      NothingFolded(r);
    } else {
      UpdatesAreOne(Fold(r, pieces[0]), pieces[1..]);
      FoldConcat(r, pieces[0], Concat(pieces[1..]));
    }
  }

  lemma NothingFolded(r: Word)
    ensures Fold(r, []) == r
  {
  }

  /** From the initial value to the final inversion, in any number of updates, however the two inputs are cut:
      if they differ only within 32 consecutive bits, they have equal checksums exactly if they are equal. */
  lemma ChecksumDetects(xs: seq<seq<Byte>>, ys: seq<seq<Byte>>, before: seq<bool>, a: seq<bool>, b: seq<bool>,
                        after: seq<bool>)
    ensures DifferInBurst(Concat(xs), Concat(ys), before, a, b, after) ==>
              (Final(Updates(AllOnes(), xs)) == Final(Updates(AllOnes(), ys)) <==> Concat(xs) == Concat(ys))
  {
    hide Fold, Final, Xor, DifferInBurst, Updates, Concat;
    UpdatesAreOne(AllOnes(), xs);
    UpdatesAreOne(AllOnes(), ys);
    BitBurstDetected(AllOnes(), Concat(xs), Concat(ys), before, a, b, after);
    FinalInjective(Updates(AllOnes(), xs), Updates(AllOnes(), ys));
  }
}
