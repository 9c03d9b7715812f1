/** Bytes and little-endian numbers. */
module Bytes {

  type byte = b: int | 0 <= b < 256

  function Pow256(n: nat): (p: nat)
    ensures p > 0
  {
    if n == 0 then 1 else 256 * Pow256(n - 1)
  }

  /** The unsigned number stored least significant byte first. */
  function LittleEndian(bytes: seq<byte>): (n: nat)
    ensures n < Pow256(|bytes|)
    decreases |bytes|
  {
    if bytes == [] then 0 else bytes[0] + 256 * LittleEndian(bytes[1..])
  }

  function ToLittleEndian(n: nat, width: nat): (bytes: seq<byte>)
    ensures |bytes| == width
    decreases width
  {
    if width == 0 then [] else [n % 256] + ToLittleEndian(n / 256, width - 1)
  }

  lemma {:induction false} LittleEndianInverts(n: nat, width: nat)
    requires n < Pow256(width)
    ensures LittleEndian(ToLittleEndian(n, width)) == n
    decreases width
  {
    if width > 0 {
      LittleEndianInverts(n / 256, width - 1);
      assert ToLittleEndian(n, width)[1..] == ToLittleEndian(n / 256, width - 1);
    }
  }

  lemma {:induction false} ToLittleEndianInverts(bytes: seq<byte>)
    ensures ToLittleEndian(LittleEndian(bytes), |bytes|) == bytes
    decreases |bytes|
  {
    if bytes != [] {
      ToLittleEndianInverts(bytes[1..]);
      assert LittleEndian(bytes) % 256 == bytes[0] && LittleEndian(bytes) / 256 == LittleEndian(bytes[1..]);
    }
  }

  /** Byte i counts multiples of 256^i. */
  lemma {:induction false} LittleEndianDigits(n: nat, width: nat, i: nat)
    requires i < width
    ensures ToLittleEndian(n, width)[i] == n / Pow256(i) % 256
    decreases width
  {
    if i > 0 {
      LittleEndianDigits(n / 256, width - 1, i - 1);
      DivideTwice(n, Pow256(i - 1));
    }
  }

  lemma DivideTwice(n: nat, p: nat)
    requires p > 0
    ensures n / 256 / p == n / (256 * p)
  {
    var q, r := n / 256 / p, n / 256 % p;
    assert n / 256 == p * q + r;
    var m := 256 * r + n % 256;
    assert n == 256 * (p * q + r) + n % 256;
    assert n == (256 * p) * q + m by {
      assert 256 * (p * q) == (256 * p) * q;
    }
    QuotientIs(n, 256 * p, q, m);
  }

  lemma QuotientIs(n: nat, d: nat, q: nat, m: nat)
    requires d > 0 && n == d * q + m && m < d
    ensures n / d == q
  {
    var e := n / d;
    assert n == d * e + n % d;
    assert d * (e - q) == m - n % d;
    Multiples(d, e - q);
  }

  lemma Multiples(d: nat, k: int)
    ensures k >= 1 ==> d * k >= d
    ensures k <= -1 ==> d * k + d <= 0
  {
  }

  // ----- two's complement -----

  function Signed(n: nat, width: nat): int {
    if 2 * n >= Pow256(width) then n - Pow256(width) else n
  }

  function Unsigned(i: int, width: nat): int {
    if i < 0 then i + Pow256(width) else i
  }

  predicate FitsSigned(i: int, width: nat) {
    0 <= 2 * i + Pow256(width) && 2 * i < Pow256(width)
  }

  /** A signed number is the unsigned one modulo 256^width, in the range around zero. */
  lemma SignedIs(n: nat, width: nat)
    requires n < Pow256(width)
    ensures FitsSigned(Signed(n, width), width)
    ensures Signed(n, width) == n || Signed(n, width) == n - Pow256(width)
    ensures width > 0 ==> (Signed(n, width) < 0 <==> 2 * n >= Pow256(width))
  {
  }

  lemma SignedInverts(i: int, width: nat)
    requires FitsSigned(i, width)
    ensures 0 <= Unsigned(i, width) < Pow256(width)
    ensures Signed(Unsigned(i, width), width) == i
  {
  }
}
