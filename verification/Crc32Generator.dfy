/** The checksum as polynomial division. The register of RFC 1952, section 8, holds the remainder of the message
    modulo the generator, over the field of two elements. */
module Crc32Generator {
  import opened Crc32
  import opened Crc32Detection

  // ----- polynomials over two elements -----

  /** The exponents whose coefficient is one. */
  type Polynomial = set<nat>

  /** x^32 + x^26 + x^23 + x^22 + x^16 + x^12 + x^11 + x^10 + x^8 + x^7 + x^5 + x^4 + x^2 + x + 1 */
  const GENERATOR: Polynomial := {32, 26, 23, 22, 16, 12, 11, 10, 8, 7, 5, 4, 2, 1, 0}

  function Plus(a: Polynomial, b: Polynomial): Polynomial { (a - b) + (b - a) }

  /** x^n times p. */
  function Shift(p: Polynomial, n: nat): Polynomial { set k | k in p :: k + n }

  /** q times p, for q given by its coefficients from x^0 on. */
  function Times(q: seq<bool>, p: Polynomial): Polynomial {
    if q == [] then {}
    else Plus(Times(q[..|q| - 1], p), if q[|q| - 1] then Shift(p, |q| - 1) else {})
  }

  ghost predicate Below(p: Polynomial, degree: nat) { forall k :: k in p ==> k < degree }

  lemma PlusAt(a: Polynomial, b: Polynomial, k: nat)
    ensures k in Plus(a, b) <==> (k in a) != (k in b)
  {
  }

  lemma PlusLaws(a: Polynomial, b: Polynomial, c: Polynomial)
    ensures Plus(a, b) == Plus(b, a)
    ensures Plus(Plus(a, b), c) == Plus(a, Plus(b, c))
    ensures Plus(a, {}) == a && Plus(a, a) == {}
  {
  }

  lemma ShiftAt(p: Polynomial, n: nat, k: nat)
    ensures k in Shift(p, n) <==> k >= n && k - n in p
  {
    if k >= n && k - n in p {
      assert k == (k - n) + n;
    }
  }

  lemma ShiftPlus(a: Polynomial, b: Polynomial, n: nat)
    ensures Shift(Plus(a, b), n) == Plus(Shift(a, n), Shift(b, n))
  {
    forall k: nat ensures k in Shift(Plus(a, b), n) <==> k in Plus(Shift(a, n), Shift(b, n)) {
      ShiftAt(Plus(a, b), n, k);
      ShiftAt(a, n, k);
      ShiftAt(b, n, k);
    }
  }

  lemma ShiftShift(p: Polynomial, m: nat, n: nat)
    ensures Shift(Shift(p, m), n) == Shift(p, m + n)
    ensures Shift(p, 0) == p && Shift({}, n) == {}
  {
    forall k: nat ensures k in Shift(Shift(p, m), n) <==> k in Shift(p, m + n) {
      ShiftAt(Shift(p, m), n, k);
      ShiftAt(p, m + n, k);
      if k >= n {
        ShiftAt(p, m, k - n);
      }
    }
    forall k: nat ensures k in Shift(p, 0) <==> k in p {
      ShiftAt(p, 0, k);
    }
  }

  // ----- registers and messages -----

  /** The low bit of a register belongs to x^31. */
  function Register(r: Word): Polynomial { set k: nat | k < 32 && RegisterHas(r, k) }

  predicate RegisterHas(r: Word, k: nat) { k < 32 && r[31 - k] }

  /** The first bit of a message belongs to its highest power. */
  function Message(bits: seq<bool>): Polynomial { set k: nat | k < |bits| && MessageHas(bits, k) }

  predicate MessageHas(bits: seq<bool>, k: nat) { k < |bits| && bits[|bits| - 1 - k] }

  function Term(b: bool, n: nat): Polynomial { if b then {n} else {} }

  lemma MessageCons(h: bool, t: seq<bool>)
    ensures Message([h] + t) == Plus(Term(h, |t|), Message(t))
  {
    var bits := [h] + t;
    forall k: nat ensures k in Message(bits) <==> k in Plus(Term(h, |t|), Message(t)) {
      if k < |t| {
        assert bits[|bits| - 1 - k] == t[|t| - 1 - k];
        assert MessageHas(bits, k) == MessageHas(t, k);
      } else if k == |t| {
        assert MessageHas(bits, k) == h;
      }
    }
  }

  lemma RegisterXor(a: Word, b: Word)
    ensures Register(Xor(a, b)) == Plus(Register(a), Register(b))
  {
  }

  lemma RegisterPad(h: bool)
    ensures Register(Pad([h])) == Term(h, 31)
  {
  }

  /** The constant of the code is the generator without its leading term. */
  lemma RegisterOfConstant()
    ensures Register(POLYNOMIAL) == GENERATOR - {32}
  {
    forall k: nat ensures k in Register(POLYNOMIAL) <==> k in GENERATOR - {32} {
      if k < 32 {
        ConstantAt(k);
      }
    }
  }

  lemma ConstantAt(k: nat)
    requires k < 32
    ensures POLYNOMIAL[31 - k] <==> k in GENERATOR
  {
  }

  /** One step multiplies by x and subtracts the generator if that reached x^32. */
  lemma RegisterStep(r: Word)
    ensures Register(Step(r)) == Plus(Shift(Register(r), 1), if r[0] then GENERATOR else {})
  {
    var shifted := Shr(r, 1);
    forall k: nat ensures k in Register(shifted) <==> k in Shift(Register(r), 1) && k != 32 {
      ShiftAt(Register(r), 1, k);
    }
    assert 32 in Shift(Register(r), 1) <==> r[0] by { ShiftAt(Register(r), 1, 32); }
    RegisterXor(if r[0] then POLYNOMIAL else Zeros(32), shifted);
    RegisterOfConstant();
    assert Register(Zeros(32)) == {};
  }

  // ----- the register holds the remainder -----

  /** Register and message so far, over the same powers: the register has n bits still to be multiplied by x. */
  function Dividend(r: Word, bits: seq<bool>): Polynomial {
    Plus(Shift(Register(r), |bits|), Shift(Message(bits), 32))
  }

  /** A bit enters the register: what is left to divide loses a multiple of the generator. */
  lemma DivideOne(r: Word, h: bool, t: seq<bool>)
    ensures var x := Xor(r, Pad([h]));
            Dividend(r, [h] + t) == Plus(Dividend(Step(x), t), if x[0] then Shift(GENERATOR, |t|) else {})
  {
    hide Step, Xor;
    var x, n := Xor(r, Pad([h])), |t|;
    var g := if x[0] then GENERATOR else {};
    RegisterStep(x);
    RegisterXor(r, Pad([h]));
    RegisterPad(h);
    MessageCons(h, t);
    forall k: nat ensures k in Dividend(r, [h] + t) <==> k in Plus(Dividend(Step(x), t), Shift(g, n)) {
      ShiftAt(Register(r), n + 1, k);
      ShiftAt(Message([h] + t), 32, k);
      ShiftAt(Message(t), 32, k);
      ShiftAt(Register(Step(x)), n, k);
      ShiftAt(g, n, k);
      if k >= n {
        ShiftAt(Plus(Register(r), Term(h, 31)), 1, k - n);
      }
    }
    ShiftShift(GENERATOR, 0, n);
  }

  lemma TimesMore(q: seq<bool>, c: bool, p: Polynomial)
    ensures Times(q + [c], p) == Plus(Times(q, p), if c then Shift(p, |q|) else {})
  {
    assert (q + [c])[..|q|] == q;
  }

  /** The quotient, by long division. */
  lemma {:induction false} FoldBitsDivides(r: Word, bits: seq<bool>) returns (q: seq<bool>)
    ensures |q| == |bits| && Dividend(r, bits) == Plus(Times(q, GENERATOR), Register(FoldBits(r, bits)))
    decreases |bits|
  {
    hide Step, Xor, Pad, Plus, Shift, Register, Message;
    if bits == [] {
      q := [];
      NothingDivided(r);
    } else {
      var h, t := bits[0], bits[1..];
      assert bits == [h] + t;
      var x := Xor(r, Pad([h]));
      q := FoldBitsDivides(Step(x), t);
      DivideOne(r, h, t);
      TimesMore(q, x[0], GENERATOR);
      var rest, more := Register(FoldBits(r, bits)), if x[0] then Shift(GENERATOR, |t|) else {};
      PlusLaws(Times(q, GENERATOR), rest, more);
      PlusLaws(rest, more, {});
      PlusLaws(Times(q, GENERATOR), more, rest);
      q := q + [x[0]];
    }
  }

  lemma NothingDivided(r: Word)
    ensures Dividend(r, []) == Plus(Times([], GENERATOR), Register(FoldBits(r, [])))
  {
    ShiftShift(Register(r), 0, 32);
    ShiftShift({}, 0, 32);
    assert Message([]) == {};
  }

  /** p is the remainder of a modulo the generator. */
  ghost predicate IsRemainder(p: Polynomial, a: Polynomial) {
    Below(p, 32) && exists q :: a == Plus(Times(q, GENERATOR), p)
  }

  // ----- the remainder is unique -----

  lemma GeneratorDegree()
    ensures 32 in GENERATOR && Below(GENERATOR, 33)
  {
  }

  /** A product with a leading coefficient of one has that degree. */
  lemma {:induction false} TimesBelow(q: seq<bool>)
    ensures Below(Times(q, GENERATOR), 32 + |q|)
    ensures q != [] && q[|q| - 1] ==> 31 + |q| in Times(q, GENERATOR)
    decreases |q|
  {
    if q != [] {
      var n := |q| - 1;
      TimesBelow(q[..n]);
      GeneratorDegree();
      forall k | k in Times(q, GENERATOR) ensures k < 32 + |q| {
        ShiftAt(GENERATOR, n, k);
      }
      ShiftAt(GENERATOR, n, 32 + n);
    }
  }

  /** Only the zero multiple has a degree below that of the generator. */
  lemma {:induction false} SmallMultiple(q: seq<bool>)
    requires Below(Times(q, GENERATOR), 32)
    ensures Times(q, GENERATOR) == {}
    decreases |q|
  {
    TimesBelow(q);
    if q != [] && !q[|q| - 1] {
      PlusLaws(Times(q[..|q| - 1], GENERATOR), {}, {});
      SmallMultiple(q[..|q| - 1]);
    }
  }

  lemma PlusSwap(a: Polynomial, b: Polynomial, c: Polynomial, d: Polynomial)
    ensures Plus(Plus(a, b), Plus(c, d)) == Plus(Plus(a, c), Plus(b, d))
  {
  }

  /** The coefficient of x^n. */
  function Coefficient(q: seq<bool>, n: nat): bool { n < |q| && q[n] }

  function Leading(c: bool, n: nat): Polynomial { if c then Shift(GENERATOR, n) else {} }

  lemma TimesUpTo(q: seq<bool>, n: nat)
    requires |q| <= n + 1
    ensures var low := if |q| == n + 1 then q[..n] else q;
            |low| <= n && Times(q, GENERATOR) == Plus(Times(low, GENERATOR), Leading(Coefficient(q, n), n))
  {
    hide Shift, Plus;
    if |q| == n + 1 {
      assert q == q[..n] + [q[n]];
    } else {
      PlusLaws(Times(q, GENERATOR), {}, {});
    }
  }

  lemma LeadingSum(c: bool, d: bool, n: nat)
    ensures Plus(Leading(c, n), Leading(d, n)) == Leading(c != d, n)
  {
    hide Shift;
    PlusLaws({}, Shift(GENERATOR, n), {});
    PlusLaws(Shift(GENERATOR, n), {}, {});
    PlusLaws({}, {}, {});
  }

  /** The sum of two products is a product. */
  lemma {:induction false} TimesSum(q: seq<bool>, p: seq<bool>, n: nat) returns (s: seq<bool>)
    requires |q| <= n && |p| <= n
    ensures |s| == n && Times(s, GENERATOR) == Plus(Times(q, GENERATOR), Times(p, GENERATOR))
    decreases n
  {
    hide Plus, Leading;
    if n == 0 {
      s := [];
      PlusLaws({}, {}, {});
    } else {
      var m := n - 1;
      var c, d := Coefficient(q, m), Coefficient(p, m);
      var q', p' := if |q| == n then q[..m] else q, if |p| == n then p[..m] else p;
      TimesUpTo(q, m);
      TimesUpTo(p, m);
      var low := TimesSum(q', p', m);
      PlusSwap(Times(q', GENERATOR), Leading(c, m), Times(p', GENERATOR), Leading(d, m));
      LeadingSum(c, d, m);
      s := low + [c != d];
      assert s[..m] == low;
      TimesUpTo(s, m);
    }
  }

  lemma RemainderUnique(a: Polynomial, p: Polynomial, p': Polynomial)
    requires IsRemainder(p, a) && IsRemainder(p', a)
    ensures p == p'
  {
    hide Times;
    var q :| a == Plus(Times(q, GENERATOR), p);
    var q' :| a == Plus(Times(q', GENERATOR), p');
    var s := TimesSum(q, q', |q| + |q'|);
    forall k: nat ensures k in Plus(p, p') <==> k in Times(s, GENERATOR) {
      PlusAt(Times(q, GENERATOR), p, k);
      PlusAt(Times(q', GENERATOR), p', k);
    }
    assert Plus(p, p') == Times(s, GENERATOR);
    SmallMultiple(s);
    forall k ensures k in p <==> k in p' {
      PlusAt(p, p', k);
    }
  }

  /** The register after any bytes is the remainder, modulo the generator, of the register before, moved up by as
      many places, plus the message, moved up by 32. */
  lemma FoldIsRemainder(r: Word, data: seq<Byte>)
    ensures IsRemainder(Register(Fold(r, data)), Dividend(r, Flat(data)))
  {
    hide Fold, FoldBits, Dividend, Plus, Times;
    FoldIsBits(r, data);
    var q := FoldBitsDivides(r, Flat(data));
  }
}
