/** The two dimension helpers of the texture cache header: `pow2` rounds a
    texture dimension up to a power of two and `powof` gives the matching
    exponent. Both are u32 loops that double a counter from 1 until it is no
    longer below the dimension.

    The loops are proved against reference definitions that do not double
    anything: CeilPow2 and CeilLog2 halve the dimension (rounding up) instead.
    Doubling(k) is the sequence of counter values both loops walk through,
    wrap-around included; it shows why the dimension must not exceed 2^31. */
module TextureDims {
  import opened FixedWidth

  /** 2^k. */
  function Exp2(k: nat): (r: nat)
    ensures r >= 1
  {
    if k == 0 then 1 else 2 * Exp2(k - 1)
  }

  ghost predicate IsPowerOfTwo(n: int)
  {
    exists k: nat :: n == Exp2(k)
  }

  /** The least power of two that is not below dim (1 for dim 0 and 1). */
  function CeilPow2(dim: nat): nat
  {
    if dim <= 1 then 1 else 2 * CeilPow2((dim + 1) / 2)
  }

  /** The least exponent k with 2^k not below dim (0 for dim 0 and 1). */
  function CeilLog2(dim: nat): nat
  {
    if dim <= 1 then 0 else 1 + CeilLog2((dim + 1) / 2)
  }

  /** The value of the loop counter after k iterations of `i <<= 1` from 1,
      with u32 wrap-around. */
  function Doubling(k: nat): u32
  {
    if k == 0 then 1 else Shl1(Doubling(k - 1))
  }

  // ---------------------------------------------------------------------
  // The loops

  /** `pow2`: double i from 1 while it is below dim. */
  method Pow2(dim: u32) returns (r: u32)
    requires dim as int <= U32_HALF
    ensures r as int == CeilPow2(dim as int)
  {
    ghost var k: nat := 0;
    ghost var bound := CeilLog2(dim as int);
    PowofAtMost31(dim as int);
    var i: u32 := 1;
    while i < dim
      invariant k <= bound
      invariant i == Doubling(k)
      decreases bound - k
    {
      DoublingValue(k);
      CeilLog2Least(dim as int, k);
      i := Shl1(i);
      k := k + 1;
    }
    DoublingValue(k);
    CeilLog2Least(dim as int, k);
    CeilPow2IsExp2(dim as int);
    r := i;
  }

  /** `powof`: double num from 1 while it is below dim, counting the steps. */
  method Powof(dim: u32) returns (r: u32)
    requires dim as int <= U32_HALF
    ensures r as int == CeilLog2(dim as int)
  {
    ghost var bound := CeilLog2(dim as int);
    PowofAtMost31(dim as int);
    var num: u32 := 1;
    var i: u32 := 0;
    while num < dim
      invariant i as int <= bound
      invariant num == Doubling(i as nat)
      decreases bound - i as int
    {
      DoublingValue(i as nat);
      CeilLog2Least(dim as int, i as nat);
      num := Shl1(num);
      i := i + 1;
    }
    DoublingValue(i as nat);
    CeilLog2Least(dim as int, i as nat);
    r := i;
  }

  // ---------------------------------------------------------------------
  // Powers of two

  lemma {:induction false} Exp2Monotone(j: nat, k: nat)
    requires j <= k
    ensures Exp2(j) <= Exp2(k)
    ensures j < k ==> Exp2(j) < Exp2(k)
    decreases k
  {
    if j < k {
      Exp2Monotone(j, k - 1);
    }
  }

  lemma Exp2At31()
    ensures Exp2(30) == 0x4000_0000
    ensures Exp2(31) == U32_HALF
  {
    assert Exp2(10) == 0x400;
    assert Exp2(20) == 0x10_0000;
  }

  // ---------------------------------------------------------------------
  // The exponent

  /** 2^k reaches dim exactly when k reaches CeilLog2(dim): CeilLog2(dim) is
      an exponent whose power is not below dim, and no smaller one is. */
  lemma {:induction false} CeilLog2Least(dim: nat, k: nat)
    ensures Exp2(k) >= dim <==> k >= CeilLog2(dim)
    decreases dim
  {
    if dim > 1 && k > 0 {
      CeilLog2Least((dim + 1) / 2, k - 1);
    }
  }

  /** For every dimension that keeps the loops finite, the exponent fits in
      the 31 shifts a u32 allows. */
  lemma PowofAtMost31(dim: nat)
    requires dim <= U32_HALF
    ensures CeilLog2(dim) <= 31
  {
    Exp2At31();
    CeilLog2Least(dim, 31);
  }

  /** The exponent of an exact power of two is its logarithm. */
  lemma {:induction false} PowofOfPowerOfTwo(k: nat)
    ensures CeilLog2(Exp2(k)) == k
  {
    CeilLog2Least(Exp2(k), k);
    if k > 0 {
      CeilLog2Least(Exp2(k), CeilLog2(Exp2(k)));
      Exp2Monotone(CeilLog2(Exp2(k)), k);
    }
  }

  /** powof is monotone non-decreasing in dim. */
  lemma {:induction false} PowofMonotone(a: nat, b: nat)
    requires a <= b
    ensures CeilLog2(a) <= CeilLog2(b)
  {
    CeilLog2Least(b, CeilLog2(b));
    CeilLog2Least(a, CeilLog2(b));
  }

  // ---------------------------------------------------------------------
  // The rounded dimension

  /** The two helpers agree: pow2(dim) == 1 << powof(dim). */
  lemma {:induction false} CeilPow2IsExp2(dim: nat)
    ensures CeilPow2(dim) == Exp2(CeilLog2(dim))
    decreases dim
  {
    if dim > 1 {
      CeilPow2IsExp2((dim + 1) / 2);
    }
  }

  /** pow2 always returns a power of two. */
  lemma Pow2IsPowerOfTwo(dim: nat)
    ensures IsPowerOfTwo(CeilPow2(dim))
  {
    CeilPow2IsExp2(dim);
  }

  /** pow2(dim) is a power of two not below dim and, for dim >= 1, less than
      2 * dim; pow2(0) == pow2(1) == 1. */
  lemma {:induction false} Pow2Bounds(dim: nat)
    ensures CeilPow2(dim) >= 1
    ensures CeilPow2(dim) >= dim
    ensures dim >= 1 ==> CeilPow2(dim) < 2 * dim
    ensures dim <= 1 ==> CeilPow2(dim) == 1
  {
    var k := CeilLog2(dim);
    CeilPow2IsExp2(dim);
    CeilLog2Least(dim, k);
    if k > 0 {
      CeilLog2Least(dim, k - 1);
    }
  }

  /** pow2(dim) is the least power of two not below dim. */
  lemma {:induction false} Pow2Least(dim: nat, k: nat)
    requires Exp2(k) >= dim
    ensures CeilPow2(dim) <= Exp2(k)
  {
    CeilPow2IsExp2(dim);
    CeilLog2Least(dim, k);
    Exp2Monotone(CeilLog2(dim), k);
  }

  /** pow2 leaves a power of two unchanged. */
  lemma {:induction false} Pow2OfPowerOfTwo(k: nat)
    ensures CeilPow2(Exp2(k)) == Exp2(k)
  {
    PowofOfPowerOfTwo(k);
    CeilPow2IsExp2(Exp2(k));
  }

  /** pow2 is idempotent. */
  lemma {:induction false} Pow2Idempotent(dim: nat)
    ensures CeilPow2(CeilPow2(dim)) == CeilPow2(dim)
  {
    CeilPow2IsExp2(dim);
    Pow2OfPowerOfTwo(CeilLog2(dim));
  }

  /** pow2 is monotone non-decreasing in dim. */
  lemma {:induction false} Pow2Monotone(a: nat, b: nat)
    requires a <= b
    ensures CeilPow2(a) <= CeilPow2(b)
  {
    PowofMonotone(a, b);
    CeilPow2IsExp2(a);
    CeilPow2IsExp2(b);
    Exp2Monotone(CeilLog2(a), CeilLog2(b));
  }

  // ---------------------------------------------------------------------
  // The doubling sequence and termination

  /** The counter doubles exactly for 31 steps, reaching 2^31, and the next
      shift wraps it to 0, where it stays. */
  lemma {:induction false} DoublingValue(k: nat)
    ensures Doubling(k) as int == if k <= 31 then Exp2(k) else 0
  {
    if k > 0 {
      DoublingValue(k - 1);
      if k - 1 <= 30 {
        Exp2At31();
        Exp2Monotone(k - 1, 30);
      } else if k - 1 == 31 {
        Exp2At31();
      }
    }
  }

  /** Above 2^31 the conditions of the loops of pow2 and powof stay true
      forever: every value the counter takes is below dim, so `i < dim`
      (`num < dim`) never becomes false and the loop cannot end (a loop
      without side effects that never ends is undefined behaviour in C++).
      This is why Pow2 and Powof require dim <= 2^31. */
  lemma Pow2DivergesAbove(dim: nat, k: nat)
    requires dim > U32_HALF
    ensures (Doubling(k) as int) < dim
  {
    DoublingValue(k);
    if k <= 31 {
      Exp2At31();
      Exp2Monotone(k, 31);
    }
  }

  /** At or below 2^31 the counter does reach dim, after exactly
      powof(dim) doublings, and it then holds pow2(dim). */
  lemma DoublingReaches(dim: nat)
    requires dim <= U32_HALF
    ensures Doubling(CeilLog2(dim)) as int == CeilPow2(dim)
    ensures forall k: nat :: k < CeilLog2(dim) ==> (Doubling(k) as int) < dim
  {
    PowofAtMost31(dim);
    DoublingValue(CeilLog2(dim));
    CeilPow2IsExp2(dim);
    forall k: nat | k < CeilLog2(dim)
      ensures (Doubling(k) as int) < dim
    {
      DoublingValue(k);
      CeilLog2Least(dim, k);
    }
  }
}
