/**
 The multiplication-based remainder of cpp-test/test-fastmod.c, with the exact 64-bit wrap-around
 of the C code, and the primality search of cpp-test/test-prime.cpp that produces its table.
 */
module FastMod {
  import opened Arithmetic

  const TWO32: nat := 0x1_0000_0000
  const TWO64: nat := 0x1_0000_0000_0000_0000

  /** UINT64_MAX / d + 1 in 64 bits: for d = 1 it wraps to 0. */
  function Multiplier(d: nat): nat
    requires d > 0
  {
    ((TWO64 - 1) / d + 1) % TWO64
  }

  /** The second half: one product and one shift. */
  function Shift(high: nat, divisor: nat): nat {
    ((high * divisor) % TWO64 / TWO32) % TWO32
  }

  /** helper_FastMod: every intermediate result is a uint64_t, the result a uint32_t. */
  function Helper(value: nat, divisor: nat, multiplier: nat): nat {
    var low := (multiplier * value) % TWO64;
    Shift((low / TWO32 + 1) % TWO64, divisor)
  }

  /** m is 2^64 / d rounded up: m * d exceeds 2^64 by less than d. */
  predicate IsCeiling(d: nat, m: nat) { TWO64 <= m * d < TWO64 + d }

  lemma CeilingIsUnique(d: nat, m: nat, m': nat)
    requires d > 0 && IsCeiling(d, m) && IsCeiling(d, m')
    ensures m == m'
  {
    if m < m' {
      MulMonotone(m + 1, m', d);
      Distribute(m, 1, d);
    } else if m' < m {
      MulMonotone(m' + 1, m, d);
      Distribute(m', 1, d);
    }
  }

  /** From divisor 2 on the multiplier fits into 64 bits and is the ceiling. */
  lemma MultiplierIsCeiling(d: nat)
    requires d >= 2
    ensures IsCeiling(d, Multiplier(d))
  {
    var q := (TWO64 - 1) / d;
    Euclid(TWO64 - 1, d);
    Distribute(q, 1, d);
    assert IsCeiling(d, q + 1);
    assert q + 1 < TWO64 by {
      MulMonotone(2, d, q);
    }
  }

  /** What the two roundings up together add to 2^64 times the remainder, before the last shift. */
  function Rounding(v: nat, d: nat, m: nat): int {
    (m * d - TWO64) * v + (TWO32 - m * v % TWO32) * d
  }

  /** With v = q * d + r the product m * v is q * 2^64 + low, and low * d = 2^64 * r + e * v. */
  lemma LowWord(v: nat, d: nat, m: nat, e: nat, q: nat, r: nat, low: nat)
    requires m * d == TWO64 + e && v == q * d + r && low == q * e + m * r
    ensures m * v == q * TWO64 + low && low * d == TWO64 * r + e * v
  {
  }

  lemma LowWordFits(v: nat, d: nat, e: nat, r: nat, low: nat)
    requires e < d < TWO32 && v < TWO32 && r < d && low * d == TWO64 * r + e * v
    ensures low < TWO64
  {
    MulMonotone(e, TWO32, v);
    MulMonotone(r + 1, d, TWO64);
    if low >= TWO64 {
      MulMonotone(TWO64, low, d);
    }
  }

  /** The second product, made up to the word above, is 2^64 * r and both roundings. */
  lemma HighWord(v: nat, d: nat, e: nat, r: nat, low: nat)
    requires low * d == TWO64 * r + e * v
    ensures TWO32 * ((low / TWO32 + 1) * d) == TWO64 * r + (e * v + (TWO32 - low % TWO32) * d)
  {
    var a, b := low / TWO32, low % TWO32;
    assert low == TWO32 * a + b;
    Distribute(TWO32 * a, b, d);
    Distribute(a, 1, d);
    Distribute(TWO32 - b, b, d);
  }

  lemma ShiftIs(h: nat, d: nat, r: nat, over: int)
    requires h <= TWO32 && d < TWO32 && over >= 0 && TWO32 * (h * d) == TWO64 * r + over
    ensures Shift(h, d) == r <==> over < TWO64
  {
    var x := h * d;
    MulMonotone(h, TWO32, d);
    assert x < TWO64 && TWO32 * x == TWO64 * r + over;
  }

  lemma SameLowHalf(x: nat, q: nat, low: nat)
    requires x == q * TWO64 + low && low < TWO64
    ensures x % TWO64 == low && x % TWO32 == low % TWO32
  {
    DivIs(x, q, low, TWO64);
  }

  lemma HelperIsShift(v: nat, d: nat, m: nat, low: nat)
    requires low < TWO64 && m * v % TWO64 == low
    ensures Helper(v, d, m) == Shift(low / TWO32 + 1, d)
  {
    assert low / TWO32 + 1 < TWO64;
  }

  lemma RoundingIs(v: nat, d: nat, m: nat, e: nat, low: nat)
    requires m * d == TWO64 + e && m * v % TWO32 == low % TWO32
    ensures Rounding(v, d, m) == e * v + (TWO32 - low % TWO32) * d
    ensures Rounding(v, d, m) >= 0
  {
    MulMonotone(0, e, v);
    MulMonotone(0, TWO32 - low % TWO32, d);
  }

  lemma HelperIs(v: nat, d: nat, m: nat, e: nat, q: nat, r: nat, low: nat)
    requires v < TWO32 && 2 <= d < TWO32 && e < d && m * d == TWO64 + e && v == q * d + r && r < d
    requires low == q * e + m * r
    ensures Helper(v, d, m) == r <==> Rounding(v, d, m) < TWO64
  {
    LowWord(v, d, m, e, q, r, low);
    LowWordFits(v, d, e, r, low);
    SameLowHalf(m * v, q, low);
    HelperIsShift(v, d, m, low);
    RoundingIs(v, d, m, e, low);
    HighWord(v, d, e, r, low);
    ShiftIs(low / TWO32 + 1, d, r, Rounding(v, d, m));
  }

  /** With the rounded-up quotient the result is the remainder exactly when the roundings stay below 2^64. */
  lemma FastModCeiling(v: nat, d: nat, m: nat)
    requires v < TWO32 && 2 <= d < TWO32 && IsCeiling(d, m)
    ensures Helper(v, d, m) == v % d <==> Rounding(v, d, m) < TWO64
  {
    Euclid(v, d);
    var e, q, r := m * d - TWO64, v / d, v % d;
    HelperIs(v, d, m, e, q, r, q * e + m * r);
  }

  /** The error of the multiplier and the divisor together fit into 32 bits. */
  predicate SmallError(d: nat)
    requires d > 0
  {
    d == 1 || Multiplier(d) * d - TWO64 + d <= TWO32
  }

  /** So it is for every divisor up to 2^31, and then the roundings stay below 2^64 for all values. */
  lemma SmallErrorSuffices(v: nat, d: nat)
    requires v < TWO32 && 2 <= d < TWO32
    ensures d <= 0x8000_0000 ==> SmallError(d)
    ensures SmallError(d) ==> Rounding(v, d, Multiplier(d)) < TWO64
  {
    MultiplierIsCeiling(d);
    var m := Multiplier(d);
    if SmallError(d) {
      RoundingBound(v, d, m * d - TWO64, TWO32 - m * v % TWO32);
    }
  }

  lemma RoundingBound(v: nat, d: nat, e: nat, g: nat)
    requires v < TWO32 && g <= TWO32 && d < TWO32 && e + d <= TWO32
    ensures e * v + g * d < TWO64
  {
    MulMonotone(v, TWO32 - 1, e);
    MulMonotone(g, TWO32, d);
  }

  /**
   For every 32-bit value and every 32-bit divisor, with the multiplier the code computes: the wrapped
   64-bit computation is the remainder exactly when the roundings stay below 2^64, which they do
   for every divisor up to 2^31; for divisor 1 the multiplier itself wraps.
   */
  lemma FastModIsMod(v: nat, d: nat)
    requires v < TWO32 && 1 <= d < TWO32
    ensures Helper(v, d, Multiplier(d)) == v % d <==> d == 1 || Rounding(v, d, Multiplier(d)) < TWO64
    ensures SmallError(d) || d <= 0x8000_0000 ==> Helper(v, d, Multiplier(d)) == v % d
  {
    if d > 1 {
      MultiplierIsCeiling(d);
      FastModCeiling(v, d, Multiplier(d));
      SmallErrorSuffices(v, d);
    }
  }

  /** A divisor above 2^31 and a value for which the result is not the remainder. */
  lemma LargeDivisorFails()
    ensures var v, d := 0xFFFF_FFFE, 0xFFFF_FFFF; Helper(v, d, Multiplier(d)) == d && v % d == v
  {
  }

  // ----- the table -----

  /** s_fastmod_primes: divisors with precomputed multipliers. */
  const TABLE: seq<(nat, nat)> := [
    (1, 0), (3, 6148914691236517206), (5, 3689348814741910324),
    (11, 1676976733973595602), (19, 970881267037344822), (41, 449920587163647601),
    (79, 233503089540627236), (157, 117495185182863387), (317, 58191621683626346),
    (631, 29234142747558719), (1259, 14651901567680343), (2521, 7317232873347700),
    (5039, 3660794616731406), (10079, 1830215703314769), (20161, 914971681648210),
    (40343, 457247702791304), (80611, 228836561681527), (161221, 114418990539133),
    (322459, 57206479191803), (644881, 28604880704672), (1289749, 14302584513506),
    (2579513, 7151250671623), (5158999, 3575644049110), (10317991, 1787823237461),
    (20635981, 893911662049), (41271991, 446955516969), (82543913, 223477945294),
    (165087817, 111738978739), (330175613, 55869492923), (660351239, 27934745912),
    (1320702451, 13967373242)
  ]

  function ModPow2FastMod(value: nat, size: nat): nat
    requires size < |TABLE|
  {
    Helper(value, TABLE[size].0, TABLE[size].1)
  }

  function ModPow2(value: nat, size: nat): nat
    requires size < |TABLE| && TABLE[size].0 > 0
  {
    value % TABLE[size].0
  }

  /** The precomputed multipliers are those the code would compute. */
  lemma TableIsRight(size: nat)
    requires size < |TABLE|
    ensures |TABLE| == 31
    ensures 1 <= TABLE[size].0 <= 0x8000_0000 && TABLE[size].1 == Multiplier(TABLE[size].0)
  {
    var (d, m) := TABLE[size];
    assert (d == 1 && m == 0) || (2 <= d <= 0x8000_0000 && IsCeiling(d, m));
    if d >= 2 {
      MultiplierIsCeiling(d);
      CeilingIsUnique(d, m, Multiplier(d));
    }
  }

  lemma TableModIsMod(value: nat, size: nat)
    requires value < TWO32 && size < |TABLE|
    ensures TABLE[size].0 > 0 && ModPow2FastMod(value, size) == ModPow2(value, size)
  {
    TableIsRight(size);
    FastModIsMod(value, TABLE[size].0);
  }

  /** The multiplier makes the fast remainder exact for every 32-bit value. */
  ghost predicate IsExactFor(d: nat, m: nat) {
    d > 0 && forall v: nat :: v < TWO32 ==> Helper(v, d, m) == v % d
  }

  lemma MultiplierIsExact(d: nat)
    requires 1 <= d < TWO32
    ensures SmallError(d) || d <= 0x8000_0000 ==> IsExactFor(d, Multiplier(d))
  {
    forall v: nat | v < TWO32 && (SmallError(d) || d <= 0x8000_0000)
      ensures Helper(v, d, Multiplier(d)) == v % d
    {
      FastModIsMod(v, d);
    }
  }

  /** The loop of test_fastmod that fills the multiplier table. */
  method FillMultipliers(divisors: seq<nat>) returns (data: seq<(nat, nat)>)
    requires forall i :: 0 <= i < |divisors| ==> 1 <= divisors[i] <= 0x8000_0000
    ensures |data| == |divisors|
    ensures forall i :: 0 <= i < |data| ==> data[i].0 == divisors[i] && IsExactFor(data[i].0, data[i].1)
  {
    data := [];
    for i := 0 to |divisors|
      invariant |data| == i
      invariant forall k :: 0 <= k < i ==> data[k].0 == divisors[k] && IsExactFor(data[k].0, data[k].1)
    {
      MultiplierIsExact(divisors[i]);
      data := data + [(divisors[i], ((TWO64 - 1) / divisors[i] + 1) % TWO64)];
    }
  }
}
