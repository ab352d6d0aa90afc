/** Bitwise operations on natural numbers, and the bit-smearing `next_pow2`
    (Runtime/Search.h): for every count the index supports it is the least power of
    two that is large enough, so that masking with `capacity - 1` is a remainder.
 */
module Bits {

  function Pow2(k: nat): (p: nat)
    ensures p >= 1
  {
    if k == 0 then 1 else 2 * Pow2(k - 1)
  }

  /** x >> k */
  function Shr(x: nat, k: nat): nat
    decreases k
  {
    if k == 0 then x else Shr(x / 2, k - 1)
  }

  /** a | b */
  function Or(a: nat, b: nat): nat
    decreases a + b
  {
    if a == 0 then b else if b == 0 then a
    else (if a % 2 == 1 || b % 2 == 1 then 1 else 0) + 2 * Or(a / 2, b / 2)
  }

  /** a & b */
  function And(a: nat, b: nat): nat {
    if a == 0 || b == 0 then 0
    else (if a % 2 == 1 && b % 2 == 1 then 1 else 0) + 2 * And(a / 2, b / 2)
  }

  const U32: nat := 0x1_0000_0000

  /** The or-and-shift steps of `next_pow2`, with shifts `j`, `2 * j`, ... up to 16. */
  function SmearBits(x: nat, j: nat): nat
    requires j >= 1
    decreases 32 - j
  {
    if j > 16 then x else SmearBits(Or(x, Shr(x, j)), 2 * j)
  }

  /** `next_pow2` on 32-bit values: five steps with shifts 1, 2, 4, 8 and 16. */
  function NextPow2(v: nat): nat {
    if v == 0 then 1 else (SmearBits(v - 1, 1) + 1) % U32
  }

  // ----- powers of two and shifts

  lemma {:induction false} Pow2Monotone(j: nat, k: nat)
    requires j <= k
    ensures Pow2(j) <= Pow2(k)
  {
    if j < k { Pow2Monotone(j, k - 1); }
  }

  lemma {:induction false} ShrAdd(x: nat, a: nat, b: nat)
    ensures Shr(x, a + b) == Shr(Shr(x, a), b)
    decreases a
  {
    if a != 0 { ShrAdd(x / 2, a - 1, b); }
  }

  lemma ShrHalf(x: nat, k: nat)
    ensures Shr(x, k) / 2 == Shr(x / 2, k)
  {
    ShrAdd(x, k, 1);
    ShrAdd(x, 1, k);
  }

  lemma {:induction false} ShrOnes(j: nat, i: nat)
    requires i <= j
    ensures Shr(Pow2(j) - 1, i) == Pow2(j - i) - 1
  {
    if i != 0 {
      assert (Pow2(j) - 1) / 2 == Pow2(j - 1) - 1;
      ShrOnes(j - 1, i - 1);
    }
  }

  lemma OrZero(a: nat)
    ensures Or(a, 0) == a
  {
  }

  lemma OrStep(a: nat, b: nat)
    ensures Or(a, b) == (if a % 2 == 1 || b % 2 == 1 then 1 else 0) + 2 * Or(a / 2, b / 2)
  {
  }

  // ----- bit smearing

  /** The top `j` of the `l` bits of `x` are ones. */
  predicate TopOnes(x: nat, l: nat, j: nat) {
    j <= l && Shr(x, l - j) == Pow2(j) - 1
  }

  /** With at least half of the bits set, the shifted value starts with a one. */
  lemma ShiftedIsOdd(x: nat, l: nat, j: nat)
    requires 1 <= j < l <= 2 * j && TopOnes(x, l, j)
    ensures Shr(x, j) % 2 == 1
  {
    ShrAdd(x, l - j, 2 * j - l);
    ShrOnes(j, 2 * j - l);
    assert Pow2(l - j) == 2 * Pow2(l - j - 1);
  }

  lemma TopOnesHalf(x: nat, l: nat, j: nat)
    requires 1 <= j < l && TopOnes(x, l, j)
    ensures TopOnes(x / 2, l - 1, j)
  {
  }

  /** With at least half of the bits set, or-ing in the shifted value sets them all. */
  lemma {:induction false} SmearShort(x: nat, l: nat, j: nat)
    requires 1 <= j && l <= 2 * j && TopOnes(x, l, j)
    ensures Or(x, Shr(x, j)) == Pow2(l) - 1
    decreases l
  {
    if l == j {
      SmearFull(x, l, j);
    } else {
      ShiftedIsOdd(x, l, j);
      ShrHalf(x, j);
      TopOnesHalf(x, l, j);
      SmearShort(x / 2, l - 1, j);
      OrStep(x, Shr(x, j));
    }
  }

  /** A number of `l` ones is not changed by a shift of at least `l`. */
  lemma SmearFull(x: nat, l: nat, j: nat)
    requires x == Pow2(l) - 1 && l <= j
    ensures Or(x, Shr(x, j)) == x
  {
    ShrOnes(l, l);
    ShrAdd(x, l, j - l);
    ShrZero(j - l);
    OrZero(x);
  }

  /** One smearing step doubles the run of ones at the top, up to the length of the number. */
  lemma {:induction false} SmearStep(x: nat, l: nat, j: nat)
    requires 1 <= j && TopOnes(x, l, j)
    ensures TopOnes(Or(x, Shr(x, j)), l, if 2 * j <= l then 2 * j else l)
    decreases l
  {
    if l <= 2 * j {
      SmearShort(x, l, j);
    } else {
      ShrHalf(x, j);
      SmearStep(x / 2, l - 1, j);
      OrStep(x, Shr(x, j));
      assert Or(x, Shr(x, j)) / 2 == Or(x / 2, Shr(x / 2, j));
    }
  }

  /** Length of a positive number in bits. */
  lemma {:induction false} BitLength(x: nat) returns (l: nat)
    requires x >= 1
    ensures l >= 1 && Pow2(l - 1) <= x < Pow2(l) && TopOnes(x, l, 1)
  {
    if x == 1 { l := 1; } else {
      l := BitLength(x / 2);
      l := l + 1;
    }
  }

  /** Smearing from shift `j` on, when `min(j, l)` top bits are set. */
  lemma {:induction false} Smear(x: nat, l: nat, j: nat)
    requires 1 <= l <= 32 && (j == 1 || j == 2 || j == 4 || j == 8 || j == 16 || j == 32)
    requires if j <= l then TopOnes(x, l, j) else x == Pow2(l) - 1
    ensures SmearBits(x, j) == Pow2(l) - 1
    decreases 32 - j
  {
    if j <= 16 {
      if j <= l { SmearStep(x, l, j); } else { SmearFull(x, l, j); }
      Smear(Or(x, Shr(x, j)), l, 2 * j);
    }
  }

  lemma {:induction false} ShrZero(k: nat)
    ensures Shr(0, k) == 0
  {
    if k != 0 { ShrZero(k - 1); }
  }

  lemma {:induction false} Pow2Add(a: nat, b: nat)
    ensures Pow2(a + b) == Pow2(a) * Pow2(b)
  {
    if a != 0 { Pow2Add(a - 1, b); }
  }

  lemma Pow2At32()
    ensures Pow2(8) == 256 && Pow2(16) == 65536 && Pow2(31) == 0x8000_0000 && Pow2(32) == U32
  {
    assert Pow2(4) == 16;
    Pow2Add(4, 4);
    Pow2Add(8, 8);
    Pow2Add(16, 16);
    assert Pow2(32) == 2 * Pow2(31);
  }

  /** `p` is the least power of two that is at least `v`. */
  ghost predicate LeastPow2(p: nat, v: nat) {
    (exists k: nat :: k <= 31 && p == Pow2(k)) && v <= p && forall j: nat :: v <= Pow2(j) ==> p <= Pow2(j)
  }

  lemma NextPow2Small(v: nat)
    requires v <= 1
    ensures NextPow2(v) == 1
  {
    SmearZero(1);
  }

  lemma {:induction false} SmearZero(j: nat)
    requires j >= 1
    ensures SmearBits(0, j) == 0
    decreases 32 - j
  {
    if j <= 16 {
      ShrZero(j);
      OrZero(0);
      SmearZero(2 * j);
    }
  }

  lemma NextPow2Of(v: nat, l: nat)
    requires v >= 2 && 1 <= l <= 32 && TopOnes(v - 1, l, 1)
    ensures NextPow2(v) == Pow2(l) % U32
  {
    Smear(v - 1, l, 1);
    Incremented(SmearBits(v - 1, 1), Pow2(l));
  }

  lemma Incremented(x: nat, p: nat)
    requires x == p - 1
    ensures (x + 1) % U32 == p % U32
  {
  }

  lemma Pow2Least(p: nat, v: nat, l: nat)
    requires 1 <= l <= 31 && Pow2(l - 1) < v <= p == Pow2(l)
    ensures LeastPow2(p, v)
  {
    forall j: nat | v <= Pow2(j) ensures Pow2(l) <= Pow2(j) {
      if j < l { Pow2Monotone(j, l - 1); } else { Pow2Monotone(l, j); }
    }
  }

  lemma OneIsLeast(v: nat)
    requires v <= 1
    ensures LeastPow2(1, v)
  {
    assert Pow2(0) == 1;
  }

  lemma LeastOrWrapped(p: nat, v: nat, l: nat)
    requires 1 <= l <= 32 && Pow2(l - 1) < v <= Pow2(l) && p == Pow2(l) % U32
    ensures v <= 0x8000_0000 ==> LeastPow2(p, v)
    ensures v > 0x8000_0000 ==> p == 0
  {
    Pow2At32();
    if l < 32 {
      Pow2Monotone(l, 31);
      assert p == Pow2(l);
      Pow2Least(p, v, l);
    } else {
      assert Pow2(l - 1) == 0x8000_0000 && p == 0;
    }
  }

  /** The power of two that `next_pow2` reaches, before the wrap at 2^32. */
  lemma NextPow2Length(v: nat) returns (l: nat)
    requires 2 <= v < U32
    ensures 1 <= l <= 32 && Pow2(l - 1) < v <= Pow2(l) && NextPow2(v) == Pow2(l) % U32
  {
    l := BitLength(v - 1);
    Pow2At32();
    if l > 32 {
      Pow2Monotone(32, l - 1);
      assert false;
    }
    NextPow2Of(v, l);
  }

  /** `next_pow2` gives the least power of two that is at least `v`, exactly for the arguments up to
      2^31; above that the 32-bit increment wraps to 0. */
  lemma NextPow2IsLeast(v: nat)
    requires v < U32
    ensures v <= 0x8000_0000 ==> LeastPow2(NextPow2(v), v)
    ensures v > 0x8000_0000 ==> NextPow2(v) == 0
  {
    if v <= 1 {
      NextPow2Small(v);
      OneIsLeast(v);
    } else {
      var l := NextPow2Length(v);
      LeastOrWrapped(NextPow2(v), v, l);
    }
  }

  // ----- masking

  lemma MulMonotone(a: nat, b: nat, m: nat)
    requires a <= b
    ensures a * m <= b * m
  {
  }

  lemma ModUnique(x: nat, m: nat, q: nat, s: nat)
    requires s < m && x == q * m + s
    ensures x % m == s
  {
    var e := x / m;
    assert x == e * m + x % m;
    if e < q {
      MulMonotone(e + 1, q, m);
      assert false;
    }
    if q < e {
      MulMonotone(q + 1, e, m);
      assert false;
    }
  }

  /** The remainder modulo `2 * p`, one bit at a time. */
  lemma ModDouble(x: nat, p: nat)
    requires p >= 1
    ensures x % (2 * p) == x % 2 + 2 * ((x / 2) % p)
  {
    var q, r := (x / 2) / p, (x / 2) % p;
    assert x / 2 == q * p + r;
    assert q * (2 * p) == 2 * (q * p);
    ModUnique(x, 2 * p, q, 2 * r + x % 2);
  }

  /** Masking with `2^k - 1` is the remainder modulo `2^k`. */
  lemma {:induction false} AndMask(x: nat, k: nat)
    ensures And(x, Pow2(k) - 1) == x % Pow2(k)
  {
    if k == 0 {
    } else if x == 0 {
      ModUnique(0, Pow2(k), 0, 0);
    } else {
      var p := Pow2(k - 1);
      AndMask(x / 2, k - 1);
      assert (Pow2(k) - 1) / 2 == p - 1 && (Pow2(k) - 1) % 2 == 1;
      ModDouble(x, p);
    }
  }
}
