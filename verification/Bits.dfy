/** Bits of non-negative integers, highest first, and the integer operators of the
    serial code that work on them. */
module Bits {

  type Byte = x: nat | x < 256

  type BitString = seq<bool>

  ghost predicate Xor(a: bool, b: bool) {
    a != b
  }

  /** The low `width` bits of `n`. */
  function ToBits(n: nat, width: nat): (p: BitString)
    ensures |p| == width
  {
    if width == 0 then [] else ToBits(n / 2, width - 1) + [n % 2 == 1]
  }

  function FromBits(p: BitString): nat {
    if p == [] then 0 else 2 * FromBits(p[..|p| - 1]) + if p[|p| - 1] then 1 else 0
  }

  function XorBits(p: BitString, q: BitString): (r: BitString)
    requires |p| == |q|
    ensures |r| == |p| && forall i | 0 <= i < |p| :: r[i] == (p[i] != q[i])
  {
    seq(|p|, i requires 0 <= i < |p| => p[i] != q[i])
  }

  function Zeros(n: nat): (p: BitString)
    ensures |p| == n && forall i | 0 <= i < n :: !p[i]
  {
    seq(n, i => false)
  }

  /** `a ^ b` on 16-bit values. */
  function Xor16(a: nat, b: nat): nat {
    FromBits(XorBits(ToBits(a, 16), ToBits(b, 16)))
  }

  function Pow2(n: nat): (r: nat)
    ensures r > 0
  {
    if n == 0 then 1 else 2 * Pow2(n - 1)
  }

  lemma {:induction false} FromToBits(p: BitString)
    ensures ToBits(FromBits(p), |p|) == p
    ensures FromBits(p) < Pow2(|p|)
  {
    if p != [] {
      FromToBits(p[..|p| - 1]);
    }
  }

  lemma {:induction false} ToFromBits(n: nat, width: nat)
    requires n < Pow2(width)
    ensures FromBits(ToBits(n, width)) == n
  {
    if width > 0 {
      ToFromBits(n / 2, width - 1);
      assert ToBits(n, width)[..width - 1] == ToBits(n / 2, width - 1);
    }
  }

  lemma HalfSplit(n: nat, q: nat, p: nat, r: nat)
    requires n == q * (2 * p) + r && r < 2 * p
    ensures n / 2 == q * p + r / 2 && n % 2 == r % 2 && r / 2 < p
  {
    var m := q * p;
    assert q * (2 * p) == 2 * m;
  }

  /** The high part of a word is the quotient by a power of two. */
  lemma {:induction false} ToBitsSplit(n: nat, high: nat, low: nat, q: nat, r: nat)
    requires n == q * Pow2(low) + r && r < Pow2(low)
    ensures ToBits(n, high + low) == ToBits(q, high) + ToBits(r, low)
  {
    if low > 0 {
      var p := Pow2(low - 1);
      HalfSplit(n, q, p, r);
      ToBitsSplit(n / 2, high, low - 1, q, r / 2);
      var last := [r % 2 == 1];
      assert ToBits(n, high + low) == ToBits(n / 2, high + low - 1) + last;
      assert ToBits(r, low) == ToBits(r / 2, low - 1) + last;
    } else {
      assert ToBits(q, high) + [] == ToBits(q, high);
    }
  }

  lemma DivUnique(n: nat, d: nat, q: nat, r: nat)
    requires n == q * d + r && r < d
    ensures n / d == q
  {
    SmallMultiple(n / d - q, d);
  }

  lemma SmallMultiple(x: int, d: int)
    requires 0 - d < x * d < d
    ensures x == 0
  {
  }

  /** Bits above the width do not matter. */
  lemma {:induction false} ToBitsMod(n: nat, width: nat)
    ensures ToBits(n % Pow2(width), width) == ToBits(n, width)
  {
    if width > 0 {
      var p := Pow2(width - 1);
      assert n % (2 * p) / 2 == n / 2 % p && n % (2 * p) % 2 == n % 2 by { ModTwice(n, p); }
      ToBitsMod(n / 2, width - 1);
    }
  }

  lemma ModTwice(n: nat, p: nat)
    requires p > 0
    ensures n % (2 * p) / 2 == n / 2 % p
    ensures n % (2 * p) % 2 == n % 2
  {
    var q, r := n / (2 * p), n % (2 * p);
    assert n == q * (2 * p) + r;
    assert n == 2 * (q * p) + r;
    assert n / 2 == q * p + r / 2;
    DivUnique(n / 2, p, q, r / 2);
  }

  lemma Powers()
    ensures Pow2(4) == 16 && Pow2(8) == 256 && Pow2(15) == 0x8000 && Pow2(16) == 0x10000
  {
    assert Pow2(4) == 16;
    assert Pow2(8) == 256;
    assert Pow2(12) == 4096;
  }
}
