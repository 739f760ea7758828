/** Bytes, fixed-width integers, and the bit and byte-order operations the codec uses on them. */
module Bits {

  type byte = x: int | 0 <= x < 0x100
  type int32 = x: int | -0x8000_0000 <= x < 0x8000_0000
  type int64 = x: int | -0x8000_0000_0000_0000 <= x < 0x8000_0000_0000_0000
  type uint64 = x: int | 0 <= x < 0x1_0000_0000_0000_0000

  const UINT32_MAX: nat := 0xFFFF_FFFF

  /** A byte string; its length is kept in a 32-bit field. */
  type Bytes = s: seq<byte> | |s| <= UINT32_MAX

  function Pow2(n: nat): (p: nat)
    ensures p > 0
  {
    if n == 0 then 1 else 2 * Pow2(n - 1)
  }

  function Pow256(n: nat): (p: nat)
    ensures p > 0
  {
    if n == 0 then 1 else 0x100 * Pow256(n - 1)
  }

  /** Bitwise inclusive or. */
  function Or(a: nat, b: nat): nat {
    if a == 0 && b == 0 then 0
    else (if a % 2 == 1 || b % 2 == 1 then 1 else 0) + 2 * Or(a / 2, b / 2)
  }

  /** Bitwise exclusive or. */
  function Xor(a: nat, b: nat): nat {
    if a == 0 && b == 0 then 0
    else (if a % 2 != b % 2 then 1 else 0) + 2 * Xor(a / 2, b / 2)
  }

  /** Splitting off a factor b of a modulus b * p. */
  lemma SplitModulus(v: nat, b: nat, p: nat)
    requires b > 0 && p > 0
    ensures b * p > 0
    ensures v / b / p == v / (b * p)
    ensures v % (b * p) == b * (v / b % p) + v % b
  {
    MulMonotone(b, 1, p);
    var w := v / b;
    DivModDefinition(v, b);
    DivModDefinition(w, p);
    Remainder(b, p, w % p, v % b);
    Distribute(b, p, w / p, w % p);
    DivModUnique(v, b * p, w / p, b * (w % p) + v % b);
  }

  lemma DivModDefinition(v: nat, b: nat)
    requires b > 0
    ensures v == b * (v / b) + v % b && 0 <= v % b < b
  {
  }

  lemma Remainder(b: nat, p: nat, r: nat, low: nat)
    requires r < p && low < b
    ensures b * r + low < b * p
  {
    MulMonotone(b, r + 1, p);
    Distribute(b, 1, r, 1);
  }

  lemma Distribute(b: nat, p: nat, q: nat, r: nat)
    ensures b * (p * q + r) == (b * p) * q + b * r
  {
  }

  lemma HalfOfPow2(v: nat, k: nat)
    requires k > 0
    ensures v / 2 / Pow2(k - 1) == v / Pow2(k)
    ensures v % Pow2(k) == 2 * (v / 2 % Pow2(k - 1)) + v % 2
  {
    SplitModulus(v, 2, Pow2(k - 1));
  }

  lemma DivModUnique(v: nat, p: nat, q: nat, r: nat)
    requires p > 0 && r < p && v == p * q + r
    ensures v / p == q && v % p == r
  {
    var q' := v / p;
    if q > q' {
      MulMonotone(p, q' + 1, q);
    } else if q < q' {
      MulMonotone(p, q + 1, q');
    }
  }

  /** The values that agree with an aligned mask above bit k are the 2^k values from the mask on. */
  lemma AlignedRange(v: nat, mask: nat, k: nat)
    requires mask % Pow2(k) == 0
    ensures v / Pow2(k) == mask / Pow2(k) <==> mask <= v < mask + Pow2(k)
    ensures mask <= v < mask + Pow2(k) ==> v % Pow2(k) == v - mask
  {
    var p := Pow2(k);
    DivModDefinition(mask, p);
    DivModDefinition(v, p);
    if mask <= v < mask + p {
      DivModUnique(v, p, mask / p, v - mask);
    }
  }

  lemma MulMonotone(p: nat, a: nat, b: nat)
    requires a <= b
    ensures p * a <= p * b
  {
  }

  /** Or-ing a mask whose low k bits are clear into a k-bit value adds the mask. */
  lemma {:induction false} OrOfDisjoint(v: nat, mask: nat, k: nat)
    requires v < Pow2(k) && mask % Pow2(k) == 0
    ensures Or(mask, v) == mask + v == Or(v, mask)
  {
    if v == 0 {
      OrOfZero(mask);
    } else {
      HalfOfPow2(mask, k);
      OrOfDisjoint(v / 2, mask / 2, k - 1);
    }
  }

  lemma {:induction false} OrOfZero(mask: nat)
    ensures Or(mask, 0) == mask == Or(0, mask)
  {
    if mask != 0 {
      OrOfZero(mask / 2);
    }
  }

  /** Two values equal above bit k, the second with clear low bits: exclusive or leaves the first's low k bits. */
  lemma {:induction false} XorOfSameHigh(v: nat, mask: nat, k: nat)
    requires v / Pow2(k) == mask / Pow2(k) && mask % Pow2(k) == 0
    ensures Xor(v, mask) == v % Pow2(k)
  {
    if k == 0 {
      XorOfSelf(v);
    } else {
      HalfOfPow2(v, k);
      HalfOfPow2(mask, k);
      XorOfSameHigh(v / 2, mask / 2, k - 1);
    }
  }

  lemma {:induction false} XorOfSelf(v: nat)
    ensures Xor(v, v) == 0
  {
    if v != 0 {
      XorOfSelf(v / 2);
    }
  }

  /** The low n bytes of v, most significant first: a byte swap followed by a memcpy on a little-endian host. */
  function BigEndian(v: nat, n: nat): (bs: seq<byte>)
    ensures |bs| == n
  {
    if n == 0 then [] else BigEndian(v / 0x100, n - 1) + [v % 0x100]
  }

  function FromBigEndian(bs: seq<byte>): (v: nat)
    ensures v < Pow256(|bs|)
  {
    if |bs| == 0 then 0
    else
      var high := FromBigEndian(bs[..|bs| - 1]);
      assert 0x100 * high + 0x100 <= Pow256(|bs|);
      0x100 * high + bs[|bs| - 1]
  }

  /** Writing n bytes and reading them back keeps the value modulo 256^n. */
  lemma {:induction false} BigEndianRoundTrip(v: nat, n: nat)
    ensures FromBigEndian(BigEndian(v, n)) == v % Pow256(n)
  {
    if n > 0 {
      var bs := BigEndian(v, n);
      assert bs[..n - 1] == BigEndian(v / 0x100, n - 1);
      BigEndianRoundTrip(v / 0x100, n - 1);
      SplitModulus(v, 0x100, Pow256(n - 1));
    }
  }
}
