/** The CRC-16/XMODEM loop of the module flasher and what it computes: the remainder
    of `message * x^16` on division by the generator `x^16 + x^12 + x^5 + 1` over GF(2). */
module Crc {

  import opened Bits

  // ---------------------------------------------------------------------------
  // Polynomials over GF(2): bit strings, highest power first
  // ---------------------------------------------------------------------------

  /** The coefficient of `x^k`; every power outside the string has coefficient 0. */
  ghost predicate Coeff(p: BitString, k: int) {
    0 <= k < |p| && p[|p| - 1 - k]
  }

  /** `x^16 + x^12 + x^5 + 1`. */
  ghost const GENERATOR: BitString :=
    [true, false, false, false, true, false, false, false, false, false, false, true,
     false, false, false, false, true]

  /** The GF(2) sum of `Coeff(p, i) * Coeff(q, k - i)` over `0 <= i < n`. */
  ghost predicate Convolution(p: BitString, q: BitString, k: int, n: nat) {
    n > 0 && Xor(Convolution(p, q, k, n - 1), Coeff(p, n - 1) && Coeff(q, k - (n - 1)))
  }

  /** The coefficient of `x^k` in the product of two polynomials. */
  ghost predicate ProductCoeff(p: BitString, q: BitString, k: int) {
    Convolution(p, q, k, |p|)
  }

  /** `message * x^16 == q * GENERATOR + r`, coefficient by coefficient. */
  ghost predicate DivisionIdentity(message: BitString, q: BitString, r: BitString) {
    forall k: int :: Coeff(message, k - 16) == Xor(ProductCoeff(GENERATOR, q, k), Coeff(r, k))
  }

  /** The 16-bit value `r` is the remainder of `message * x^16` on division by the generator. */
  ghost predicate IsRemainder(message: BitString, r: nat) {
    r < 0x10000 && exists q: BitString :: DivisionIdentity(message, q, ToBits(r, 16))
  }

  function MessageBits(data: seq<Byte>): (p: BitString)
    ensures |p| == 8 * |data|
  {
    if data == [] then [] else MessageBits(data[..|data| - 1]) + ToBits(data[|data| - 1], 8)
  }

  // ---------------------------------------------------------------------------
  // The division circuit
  // ---------------------------------------------------------------------------

  /** The register after one shift: the bit leaving at the top is fed back at x^12, x^5 and 1. */
  function Moved(p: BitString, top: bool): (p': BitString)
    requires |p| == 16
    ensures |p'| == 16
  {
    seq(16, i requires 0 <= i < 16 => (i < 15 && p[i + 1]) != (top && (i == 3 || i == 10 || i == 15)))
  }

  /** Bit-serial division: each message bit enters at the top. */
  function Serial(p: BitString, bits: BitString): (p': BitString)
    requires |p| == 16
    ensures |p'| == 16
  {
    if bits == [] then p
    else
      var p' := Serial(p, bits[..|bits| - 1]);
      Moved(p', p'[0] != bits[|bits| - 1])
  }

  function Crc16(data: seq<Byte>): nat {
    FromBits(Serial(Zeros(16), MessageBits(data)))
  }

  // ---------------------------------------------------------------------------
  // The loop
  // ---------------------------------------------------------------------------

  const POLYNOMIAL: nat := 0x1021

  lemma HexDigits(a: nat, b: nat, c: nat, d: nat)
    requires b < 16 && c < 16 && d < 16
    ensures ToBits(((a * 16 + b) * 16 + c) * 16 + d, 16) == ToBits(a, 4) + ToBits(b, 4) + ToBits(c, 4) + ToBits(d, 4)
  {
    hide ToBits;
    Powers();
    ToBitsSplit(((a * 16 + b) * 16 + c) * 16 + d, 12, 4, (a * 16 + b) * 16 + c, d);
    ToBitsSplit((a * 16 + b) * 16 + c, 8, 4, a * 16 + b, c);
    ToBitsSplit(a * 16 + b, 4, 4, a, b);
  }

  lemma HexDigit(n: nat)
    requires n < 4
    ensures ToBits(n, 4) == [false, false, n / 2 == 1, n % 2 == 1]
  {
    assert ToBits(n / 4, 2) == [false, false];
  }

  lemma PolynomialBits()
    ensures ToBits(POLYNOMIAL, 16) ==
            [false, false, false, true] + [false, false, false, false] +
            [false, false, true, false] + [false, false, false, true]
  {
    HexDigits(1, 0, 2, 1);
    HexDigit(0);
    HexDigit(1);
    HexDigit(2);
  }

  /** One turn of the inner loop on the value is one shift of its bits. */
  lemma ShiftBits(crc: nat)
    requires crc < 0x10000
    ensures var p := ToBits(crc, 16);
            && p[0] == (crc / 0x8000 % 2 == 1)
            && ToBits(if p[0] then Xor16(2 * crc, POLYNOMIAL) else 2 * crc % 0x10000, 16) == Moved(p, p[0])
            && Xor16(2 * crc, POLYNOMIAL) < 0x10000
  {
    var p := ToBits(crc, 16);
    DoubledBits(crc);
    hide ToBits, FromBits, Pow2;
    TopBit(crc);
    ReducedBits(crc, p);
  }

  /** Doubling modulo 2^16, with or without the xor. */
  lemma ReducedBits(crc: nat, p: BitString)
    requires |p| == 16 && ToBits(2 * crc, 16) == p[1..] + [false]
    ensures ToBits(2 * crc % 0x10000, 16) == Moved(p, false)
    ensures ToBits(Xor16(2 * crc, POLYNOMIAL), 16) == Moved(p, true) && Xor16(2 * crc, POLYNOMIAL) < 0x10000
  {
    hide ToBits, FromBits, Pow2;
    Powers();
    ToBitsMod(2 * crc, 16);
    PolynomialBits();
    var x := XorBits(p[1..] + [false], ToBits(POLYNOMIAL, 16));
    FromToBits(x);
    assert x == Moved(p, true);
    assert p[1..] + [false] == Moved(p, false);
  }

  lemma {:induction false} LowBits(n: nat, width: nat)
    ensures ToBits(n, width + 1)[1..] == ToBits(n, width)
  {
    if width > 0 {
      LowBits(n / 2, width - 1);
    }
  }

  lemma DoubledBits(n: nat)
    ensures ToBits(2 * n, 16) == ToBits(n, 16)[1..] + [false]
  {
    LowBits(n, 15);
  }

  lemma TopBit(n: nat)
    ensures ToBits(n, 16)[0] == (n / 0x8000 % 2 == 1)
  {
    Powers();
    ToBitsSplit(n, 1, 15, n / 0x8000, n % 0x8000);
  }

  /** Xoring a word into the register at once or bit by bit is the same. */
  ghost predicate Absorbing(p: BitString, w: BitString, j: nat, reg: BitString)
    requires |p| == |w| == |reg| == 16 && j <= 16
  {
    reg == XorBits(Serial(p, w[..j]), w[j..] + Zeros(j))
  }

  lemma AbsorbStep(p: BitString, w: BitString, j: nat, reg: BitString)
    requires |p| == |w| == |reg| == 16 && j < 16
    requires Absorbing(p, w, j, reg)
    ensures Absorbing(p, w, j + 1, Moved(reg, reg[0]))
  {
    assert w[..j + 1][..j] == w[..j];
    var s := Serial(p, w[..j]);
    assert Serial(p, w[..j + 1]) == Moved(s, s[0] != w[j]);
    assert reg[0] == (s[0] != w[j]);
    assert Moved(reg, reg[0]) == XorBits(Serial(p, w[..j + 1]), w[j + 1..] + Zeros(j + 1));
  }

  lemma AbsorbStart(crc: nat, loaded: nat)
    ensures Absorbing(ToBits(crc, 16), ToBits(loaded, 16), 0, ToBits(Xor16(crc, loaded), 16))
    ensures Xor16(crc, loaded) < 0x10000
  {
    var p, w := ToBits(crc, 16), ToBits(loaded, 16);
    FromToBits(XorBits(p, w));
    Powers();
    assert w[0..] + Zeros(0) == w;
  }

  lemma AbsorbEnd(p: BitString, b: nat, reg: BitString)
    requires |p| == |reg| == 16
    requires Absorbing(p, ToBits(b * 0x100, 16), 8, reg)
    ensures reg == Serial(p, ToBits(b, 8))
  {
    var w := ToBits(b * 0x100, 16);
    hide ToBits, Serial, Pow2;
    ByteAndZeros(b);
    assert w[..8] == ToBits(b, 8);
    assert w[8..] + Zeros(8) == Zeros(16);
    assert XorBits(Serial(p, w[..8]), Zeros(16)) == Serial(p, w[..8]);
  }

  lemma ByteAndZeros(b: nat)
    ensures ToBits(b * 0x100, 16) == ToBits(b, 8) + Zeros(8)
  {
    hide ToBits;
    Powers();
    ToBitsSplit(b * 0x100, 8, 8, b, 0);
    ZeroBits(8);
  }

  lemma {:induction false} ZeroBits(width: nat)
    ensures ToBits(0, width) == Zeros(width)
  {
    if width > 0 {
      ZeroBits(width - 1);
    }
  }

  lemma {:induction false} SerialConcat(p: BitString, bits: BitString, more: BitString)
    requires |p| == 16
    ensures Serial(p, bits + more) == Serial(Serial(p, bits), more)
  {
    if more == [] {
      assert bits + more == bits;
    } else {
      var init := more[..|more| - 1];
      SerialConcat(p, bits, init);
      assert (bits + more)[..|bits + more| - 1] == bits + init;
    }
  }

  lemma SerialOfNothing()
    ensures Serial(Zeros(16), MessageBits([])) == Zeros(16)
  {
  }

  lemma MessageBitsAppend(data: seq<Byte>, b: Byte)
    ensures MessageBits(data + [b]) == MessageBits(data) + ToBits(b, 8)
  {
    assert (data + [b])[..|data|] == data;
  }

  /** `crc16_xmodem(data, offset, count)`. */
  method Crc16Xmodem(data: seq<Byte>, offset: nat, count: nat) returns (crc: nat)
    requires offset + count <= |data|
    ensures crc == Crc16(data[offset..offset + count])
    ensures IsRemainder(MessageBits(data[offset..offset + count]), crc)
  {
    hide ToBits, FromBits, Serial, MessageBits, Absorbing;
    crc := 0;
    ZeroBits(16);
    assert data[offset..offset] == [];
    SerialOfNothing();
    for i := offset to offset + count
      invariant crc < 0x10000 && ToBits(crc, 16) == Serial(Zeros(16), MessageBits(data[offset..i]))
    {
      ghost var p := ToBits(crc, 16);
      var loaded: nat := data[i] as int * 0x100;
      AbsorbStart(crc, loaded);
      crc := Xor16(crc, loaded);
      for j := 0 to 8
        invariant crc < 0x10000 && Absorbing(p, ToBits(loaded, 16), j, ToBits(crc, 16))
      {
        ShiftBits(crc);
        AbsorbStep(p, ToBits(loaded, 16), j, ToBits(crc, 16));
        if crc / 0x8000 % 2 == 1 {
          crc := Xor16(2 * crc, POLYNOMIAL);
        } else {
          crc := 2 * crc % 0x10000;
        }
      }
      AbsorbEnd(p, data[i], ToBits(crc, 16));
      assert data[offset..i + 1] == data[offset..i] + [data[i]];
      MessageBitsAppend(data[offset..i], data[i]);
      SerialConcat(Zeros(16), MessageBits(data[offset..i]), ToBits(data[i], 8));
    }
    Powers();
    ToFromBits(crc, 16);
    CrcIsRemainder(data[offset..offset + count]);
  }

  // ---------------------------------------------------------------------------
  // The circuit divides
  // ---------------------------------------------------------------------------

  /** `q * GENERATOR` is `q * x^16 + q * x^12 + q * x^5 + q`. */
  ghost predicate FourTerms(q: BitString, k: int) {
    Xor(Xor(Coeff(q, k - 16), Coeff(q, k - 12)), Xor(Coeff(q, k - 5), Coeff(q, k)))
  }

  lemma {:induction false} ConvolutionCollapses(q: BitString, k: int, n: nat)
    requires n <= 17
    ensures Convolution(GENERATOR, q, k, n) ==
            Xor(Xor(n > 16 && Coeff(q, k - 16), n > 12 && Coeff(q, k - 12)),
                Xor(n > 5 && Coeff(q, k - 5), n > 0 && Coeff(q, k)))
  {
    if n > 0 {
      ConvolutionCollapses(q, k, n - 1);
    }
  }

  lemma ProductHasFourTerms(q: BitString)
    ensures forall k: int :: ProductCoeff(GENERATOR, q, k) == FourTerms(q, k)
  {
    forall k: int ensures ProductCoeff(GENERATOR, q, k) == FourTerms(q, k) {
      ConvolutionCollapses(q, k, 17);
    }
  }

  /** Appending a quotient bit and a message bit keeps the division identity. */
  lemma DivisionStep(init: BitString, bit: bool, q: BitString, p: BitString, top: bool, k: int)
    requires |p| == 16 && top == (p[0] != bit)
    requires Coeff(init, k - 17) == Xor(FourTerms(q, k - 1), Coeff(p, k - 1))
    ensures Coeff(init + [bit], k - 16) == Xor(FourTerms(q + [top], k), Coeff(Moved(p, top), k))
  {
    forall j: int
      ensures Coeff(q + [top], j) == if j == 0 then top else Coeff(q, j - 1)
    {
    }
    assert Coeff(init + [bit], k - 16) == if k == 16 then bit else Coeff(init, k - 17);
    assert Coeff(Moved(p, top), k) == if k == 0 then top else if k == 5 || k == 12 then Xor(Coeff(p, k - 1), top)
                                      else k != 16 && Coeff(p, k - 1);
  }

  /** The bit-serial circuit divides: quotient and remainder grow together. */
  lemma {:induction false} SerialDivides(bits: BitString) returns (q: BitString)
    ensures |q| == |bits|
    ensures DivisionIdentity(bits, q, Serial(Zeros(16), bits))
  {
    if bits == [] {
      q := [];
      ProductHasFourTerms(q);
    } else {
      var init, bit := bits[..|bits| - 1], bits[|bits| - 1];
      var q' := SerialDivides(init);
      var p := Serial(Zeros(16), init);
      var top := p[0] != bit;
      q := q' + [top];
      ProductHasFourTerms(q);
      ProductHasFourTerms(q');
      assert bits == init + [bit];
      forall k: int
        ensures Coeff(bits, k - 16) == Xor(ProductCoeff(GENERATOR, q, k), Coeff(Serial(Zeros(16), bits), k))
      {
        assert ProductCoeff(GENERATOR, q', k - 1) == FourTerms(q', k - 1);
        DivisionStep(init, bit, q', p, top, k);
      }
    }
  }

  lemma CrcBits(data: seq<Byte>)
    ensures Crc16(data) < 0x10000
    ensures ToBits(Crc16(data), 16) == Serial(Zeros(16), MessageBits(data))
  {
    FromToBits(Serial(Zeros(16), MessageBits(data)));
    Powers();
  }

  lemma CrcIsRemainder(data: seq<Byte>)
    ensures IsRemainder(MessageBits(data), Crc16(data))
  {
    var q := SerialDivides(MessageBits(data));
    CrcBits(data);
  }

  // ---------------------------------------------------------------------------
  // Uniqueness of the remainder, and what the CRC detects
  // ---------------------------------------------------------------------------

  /** The highest of the first `n` powers at which two polynomials differ, or -1. */
  lemma {:induction false} HighestDifference(p: BitString, q: BitString, n: nat) returns (k: int)
    ensures -1 <= k < n
    ensures k >= 0 ==> Coeff(p, k) != Coeff(q, k)
    ensures forall j | k < j < n :: Coeff(p, j) == Coeff(q, j)
  {
    if n == 0 {
      k := -1;
    } else if Coeff(p, n - 1) != Coeff(q, n - 1) {
      k := n - 1;
    } else {
      k := HighestDifference(p, q, n - 1);
    }
  }

  /** The lowest power at which two polynomials differ, given one at which they do. */
  lemma {:induction false} LowestDifference(p: BitString, q: BitString, n: nat) returns (k: int)
    requires Coeff(p, n) != Coeff(q, n)
    ensures 0 <= k <= n && Coeff(p, k) != Coeff(q, k)
    ensures forall j | j < k :: Coeff(p, j) == Coeff(q, j)
  {
    k := n;
    if i: nat :| i < n && Coeff(p, i) != Coeff(q, i) {
      k := LowestDifference(p, q, i);
    }
  }

  /** Multiples of the generator differ 16 powers above the highest and at the lowest power at
      which the multipliers differ. */
  lemma ProductsDiffer(p: BitString, q: BitString, hi: int, lo: int)
    requires 0 <= lo <= hi && Coeff(p, hi) != Coeff(q, hi) && Coeff(p, lo) != Coeff(q, lo)
    requires forall j | hi < j :: Coeff(p, j) == Coeff(q, j)
    requires forall j | j < lo :: Coeff(p, j) == Coeff(q, j)
    ensures ProductCoeff(GENERATOR, p, hi + 16) != ProductCoeff(GENERATOR, q, hi + 16)
    ensures ProductCoeff(GENERATOR, p, lo) != ProductCoeff(GENERATOR, q, lo)
  {
    ProductHasFourTerms(p);
    ProductHasFourTerms(q);
  }

  lemma SameProducts(p: BitString, q: BitString, k: int)
    requires forall j :: Coeff(p, j) == Coeff(q, j)
    ensures ProductCoeff(GENERATOR, p, k) == ProductCoeff(GENERATOR, q, k)
  {
    ProductHasFourTerms(p);
    ProductHasFourTerms(q);
  }

  /** Division by the generator leaves one remainder of degree below 16. */
  lemma RemainderUnique(m: BitString, q1: BitString, r1: BitString, q2: BitString, r2: BitString)
    requires |r1| == |r2| == 16
    requires DivisionIdentity(m, q1, r1) && DivisionIdentity(m, q2, r2)
    ensures r1 == r2
  {
    var hi := HighestDifference(q1, q2, |q1| + |q2|);
    if hi >= 0 {
      var lo := LowestDifference(q1, q2, hi);
      ProductsDiffer(q1, q2, hi, lo);
      assert false;
    }
    forall i | 0 <= i < 16 ensures r1[i] == r2[i] {
      SameProducts(q1, q2, 15 - i);
      assert Coeff(r1, 15 - i) == r1[i] && Coeff(r2, 15 - i) == r2[i];
    }
  }

  /** The CRC of a byte string is the one 16-bit remainder of its polynomial times x^16. */
  lemma CrcIsTheRemainder(data: seq<Byte>, r: nat)
    ensures r == Crc16(data) <==> IsRemainder(MessageBits(data), r)
  {
    CrcIsRemainder(data);
    CrcBits(data);
    if IsRemainder(MessageBits(data), r) {
      var q1 :| DivisionIdentity(MessageBits(data), q1, ToBits(r, 16));
      var q2 :| DivisionIdentity(MessageBits(data), q2, ToBits(Crc16(data), 16));
      RemainderUnique(MessageBits(data), q1, ToBits(r, 16), q2, ToBits(Crc16(data), 16));
      Powers();
      ToFromBits(r, 16);
      ToFromBits(Crc16(data), 16);
    }
  }

  /** `a` and `b` agree outside the 16 bits that start at bit `start`. */
  ghost predicate AgreeOutside(a: seq<Byte>, b: seq<Byte>, start: int)
    requires |a| == |b|
  {
    forall i | 0 <= i < 8 * |a| && !(start <= i < start + 16) :: MessageBits(a)[i] == MessageBits(b)[i]
  }

  lemma SameQuotient(p: BitString, q: BitString, qa: BitString, qb: BitString, r: BitString)
    requires |p| == |q| && DivisionIdentity(p, qa, r) && DivisionIdentity(q, qb, r)
    requires forall j :: Coeff(qa, j) == Coeff(qb, j)
    ensures p == q
  {
    hide Convolution, ProductCoeff;
    forall i | 0 <= i < |p| ensures p[i] == q[i] {
      var k := |p| - 1 - i;
      SameProducts(qa, qb, k + 16);
      assert Coeff(p, k + 16 - 16) == Coeff(q, k + 16 - 16);
    }
  }

  /** Different messages with one remainder differ at two bits at least 16 apart. */
  lemma DifferFarApart(p: BitString, q: BitString, qa: BitString, qb: BitString, r: BitString) returns (i: nat, j: nat)
    requires |p| == |q| && DivisionIdentity(p, qa, r) && DivisionIdentity(q, qb, r) && p != q
    ensures i + 16 <= j < |p| && p[i] != q[i] && p[j] != q[j]
  {
    hide Convolution, ProductCoeff;
    i, j := 0, 0;
    var hi := HighestDifference(qa, qb, |qa| + |qb|);
    if hi < 0 {
      SameQuotient(p, q, qa, qb, r);
    } else {
      var lo := LowestDifference(qa, qb, hi);
      ProductsDiffer(qa, qb, hi, lo);
      assert Coeff(p, hi + 16 - 16) != Coeff(q, hi + 16 - 16);
      assert Coeff(p, lo - 16) != Coeff(q, lo - 16);
      i, j := |p| - 1 - hi, |p| - 1 - (lo - 16);
    }
  }

  /** Every error burst of at most 16 bits changes the CRC. */
  lemma BurstDetected(a: seq<Byte>, b: seq<Byte>, start: int)
    requires |a| == |b| && AgreeOutside(a, b, start)
    ensures Crc16(a) == Crc16(b) <==> a == b
  {
    if Crc16(a) == Crc16(b) && a != b {
      var i, j := CollisionBits(a, b);
    }
  }

  /** Two different byte strings of one length with one CRC differ at two bits at least 16 apart. */
  lemma CollisionBits(a: seq<Byte>, b: seq<Byte>) returns (i: nat, j: nat)
    requires |a| == |b| && a != b && Crc16(a) == Crc16(b)
    ensures i + 16 <= j < 8 * |a|
    ensures MessageBits(a)[i] != MessageBits(b)[i] && MessageBits(a)[j] != MessageBits(b)[j]
  {
    hide DivisionIdentity, Crc16, MessageBits, ToBits;
    var p, q := MessageBits(a), MessageBits(b);
    if p == q {
      MessageBitsInjective(a, b);
    }
    CrcIsRemainder(a);
    CrcIsRemainder(b);
    var r := ToBits(Crc16(a), 16);
    var qa :| DivisionIdentity(p, qa, r);
    var qb :| DivisionIdentity(q, qb, r);
    i, j := DifferFarApart(p, q, qa, qb, r);
  }

  lemma {:induction false} MessageBitsInjective(a: seq<Byte>, b: seq<Byte>)
    requires |a| == |b| && MessageBits(a) == MessageBits(b)
    ensures a == b
  {
    hide ToBits;
    if a != [] {
      var n := |a| - 1;
      LastByteBits(a);
      LastByteBits(b);
      MessageBitsInjective(a[..n], b[..n]);
      Powers();
      ToFromBits(a[n], 8);
      ToFromBits(b[n], 8);
      assert a == a[..n] + [a[n]] && b == b[..n] + [b[n]];
    }
  }

  lemma LastByteBits(a: seq<Byte>)
    requires a != []
    ensures var n := |a| - 1;
            MessageBits(a)[..8 * n] == MessageBits(a[..n]) && MessageBits(a)[8 * n..] == ToBits(a[n], 8)
  {
  }

  function XorByte(x: Byte, y: Byte): (r: Byte)
  {
    FromToBits(XorBits(ToBits(x, 8), ToBits(y, 8)));
    Powers();
    FromBits(XorBits(ToBits(x, 8), ToBits(y, 8)))
  }

  function XorBytes(a: seq<Byte>, b: seq<Byte>): (r: seq<Byte>)
    requires |a| == |b|
    ensures |r| == |a|
  {
    if a == [] then [] else XorBytes(a[..|a| - 1], b[..|b| - 1]) + [XorByte(a[|a| - 1], b[|b| - 1])]
  }

  lemma {:induction false} MessageBitsXor(a: seq<Byte>, b: seq<Byte>)
    requires |a| == |b|
    ensures MessageBits(XorBytes(a, b)) == XorBits(MessageBits(a), MessageBits(b))
  {
    if a != [] {
      var x, y := a[|a| - 1], b[|b| - 1];
      MessageBitsXor(a[..|a| - 1], b[..|b| - 1]);
      MessageBitsAppend(XorBytes(a[..|a| - 1], b[..|b| - 1]), XorByte(x, y));
      FromToBits(XorBits(ToBits(x, 8), ToBits(y, 8)));
    }
  }

  /** The CRC is linear: the CRC of an xor is the xor of the CRCs. */
  lemma CrcLinear(a: seq<Byte>, b: seq<Byte>)
    requires |a| == |b|
    ensures Crc16(XorBytes(a, b)) == Xor16(Crc16(a), Crc16(b))
  {
    var p, q := MessageBits(a), MessageBits(b);
    var qa := SerialDivides(p);
    var qb := SerialDivides(q);
    var r := XorBits(Serial(Zeros(16), p), Serial(Zeros(16), q));
    MessageBitsXor(a, b);
    SumDivides(p, qa, Serial(Zeros(16), p), q, qb, Serial(Zeros(16), q));
    CrcBits(a);
    CrcBits(b);
    FromToBits(r);
    Powers();
    CrcIsTheRemainder(XorBytes(a, b), FromBits(r));
  }

  lemma SumDivides(p: BitString, qa: BitString, ra: BitString, q: BitString, qb: BitString, rb: BitString)
    requires |p| == |q| && |qa| == |qb| && |ra| == |rb|
    requires DivisionIdentity(p, qa, ra) && DivisionIdentity(q, qb, rb)
    ensures DivisionIdentity(XorBits(p, q), XorBits(qa, qb), XorBits(ra, rb))
  {
    var qs := XorBits(qa, qb);
    ProductHasFourTerms(qs);
    ProductHasFourTerms(qa);
    ProductHasFourTerms(qb);
    assert forall k :: Coeff(qs, k) == Xor(Coeff(qa, k), Coeff(qb, k));
    assert forall k :: Coeff(XorBits(p, q), k) == Xor(Coeff(p, k), Coeff(q, k));
    assert forall k :: Coeff(XorBits(ra, rb), k) == Xor(Coeff(ra, k), Coeff(rb, k));
  }

  /** A block followed by two bytes has CRC 0 exactly when the bytes are its CRC, high byte first. */
  lemma CrcResidue(block: seq<Byte>, high: Byte, low: Byte)
    ensures Crc16(block + [high, low]) == 0 <==> Crc16(block) == 0x100 * high + low
  {
    CrcBits(block);
    hide Crc16, MessageBits, ToBits, AgreeOutside;
    var r := Crc16(block);
    ResidueOfOwnCrc(block);
    if Crc16(block + [high, low]) == 0 {
      AgreeOnBlock(block, [high, low], [r / 0x100, r % 0x100]);
      BurstDetected(block + [high, low], block + [r / 0x100, r % 0x100], 8 * |block|);
      assert (block + [high, low])[|block|..] == (block + [r / 0x100, r % 0x100])[|block|..];
    }
  }

  lemma MessageBitsTwo(block: seq<Byte>, high: Byte, low: Byte)
    ensures MessageBits(block + [high, low]) == MessageBits(block) + ToBits(0x100 * high + low, 16)
  {
    hide MessageBits, ToBits;
    MessageBitsAppend(block, high);
    MessageBitsAppend(block + [high], low);
    Powers();
    ToBitsSplit(0x100 * high + low, 8, 8, high, low);
    assert block + [high, low] == block + [high] + [low];
  }

  lemma AgreeOnBlock(block: seq<Byte>, x: seq<Byte>, y: seq<Byte>)
    requires |x| == |y| == 2
    ensures AgreeOutside(block + x, block + y, 8 * |block|)
  {
    MessageBitsTwo(block, x[0], x[1]);
    MessageBitsTwo(block, y[0], y[1]);
    assert x == [x[0], x[1]] && y == [y[0], y[1]];
  }

  lemma ResidueOfOwnCrc(block: seq<Byte>)
    requires Crc16(block) < 0x10000
    ensures Crc16(block + [Crc16(block) / 0x100, Crc16(block) % 0x100]) == 0
  {
    var r := Crc16(block);
    var data := block + [r / 0x100, r % 0x100];
    MessageBitsTwo(block, r / 0x100, r % 0x100);
    var m, w := MessageBits(block), ToBits(r, 16);
    CrcIsRemainder(block);
    var q :| DivisionIdentity(m, q, w);
    ShiftedMultiple(m, q, w);
    ZeroBits(16);
    CrcIsTheRemainder(data, 0);
  }

  lemma ShiftedMultiple(m: BitString, q: BitString, w: BitString)
    requires |w| == 16 && DivisionIdentity(m, q, w)
    ensures DivisionIdentity(m + w, q + Zeros(16), Zeros(16))
  {
    ProductHasFourTerms(q);
    ProductHasFourTerms(q + Zeros(16));
    forall k: int
      ensures Coeff(m + w, k - 16) == Xor(ProductCoeff(GENERATOR, q + Zeros(16), k), Coeff(Zeros(16), k))
    {
      assert forall j: int :: Coeff(q + Zeros(16), j) == Coeff(q, j - 16);
      assert Coeff(m + w, k - 16) == Xor(Coeff(m, (k - 16) - 16), Coeff(w, k - 16));
      assert ProductCoeff(GENERATOR, q, k - 16) == FourTerms(q, k - 16);
    }
  }
}
