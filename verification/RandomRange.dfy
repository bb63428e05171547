/**
 The range of the numbers of go/gowork/mypkg/mypkg.go.  For a seed above 161803398 the first slot is
 filled with a negative number, and two differences of the warm-up with it may wrap around; still
 every number that is drawn is in [0, MaxInt32).
 */
module RandomRange {
  import opened Int32
  import opened CompatRandom

  /** The history after any number of calls. */
  function After(seed: int, calls: nat): (r: seq<int>)
    ensures |r| == 275 + calls
  {
    if calls == 0 then Initial(seed) else Advance(After(seed, calls - 1))
  }

  ghost predicate AllProper(h: seq<int>, from: nat) {
    forall i :: from <= i < |h| ==> Proper(h[i])
  }

  // ----- seeds up to 161803398 -----

  /** Only the first number of the fill can be improper. */
  lemma {:induction false} ProperFill(seed: int, i: nat)
    requires IsInt32(seed) && i >= 1
    ensures Proper(Fill(seed, i))
  {
    if i >= 3 {
      ProperFill(seed, i - 2);
      ProperFill(seed, i - 1);
      SubtractsModulo(Fill(seed, i - 2), Fill(seed, i - 1));
    }
  }

  lemma {:induction false} ProperWarmed(h: seq<int>, steps: nat)
    requires |h| >= 55 && AllProper(h, 0)
    ensures AllProper(Warmed(h, steps), 0)
  {
    if steps > 0 {
      ProperWarmed(h, steps - 1);
      var g := Warmed(h, steps - 1);
      SubtractsModulo(g[|g| - 55], g[|g| - 24]);
    }
  }

  lemma ProperInitial(seed: int)
    requires IsInt32(seed) && Abs32(seed) <= MSEED
    ensures AllProper(Initial(seed), 0)
  {
    forall j | 0 <= j < 55
      ensures Proper(Filled(seed)[j])
    {
      if 21 * (j + 1) % 55 > 0 {
        ProperFill(seed, 21 * (j + 1) % 55);
      }
    }
    ProperWarmed(Filled(seed), 220);
  }

  // ----- the history right after Reset -----

  lemma {:induction false} WarmedAt(h: seq<int>, steps: nat, n: nat)
    requires |h| == 55 && 55 <= n < 55 + steps
    ensures var w := Warmed(h, steps); w[n] == Mix(w[n - 55], w[n - 24])
  {
    if n < 54 + steps {
      WarmedAt(h, steps - 1, n);
    }
  }

  lemma InitialAt(seed: int, n: nat)
    requires n < 275
    ensures var h := Initial(seed);
      h[n] == if n < 55 then Fill(seed, 21 * (n + 1) % 55) else Mix(h[n - 55], h[n - 24])
  {
    if n < 55 {
      assert Filled(seed) <= Initial(seed);
    } else {
      WarmedAt(Filled(seed), 220, n);
    }
  }

  /** The history has a proper number at n. */
  ghost predicate P(h: seq<int>, n: nat)
    requires n < |h|
  {
    Proper(h[n])
  }

  /** The history right after `Reset`, as what each number is made of. */
  ghost predicate IsHistory(seed: int, h: seq<int>) {
    |h| == 275 && forall n: nat :: n < 275 ==> MadeAt(seed, h, n)
  }

  ghost predicate MadeAt(seed: int, h: seq<int>, n: nat)
    requires n < 275 <= |h|
  {
    h[n] == if n < 55 then Fill(seed, 21 * (n + 1) % 55) else Mix(h[n - 55], h[n - 24])
  }

  lemma HistoryAt(seed: int, h: seq<int>, n: nat)
    requires IsHistory(seed, h) && n < 275
    ensures MadeAt(seed, h, n)
  {
  }

  lemma InitialIsHistory(seed: int)
    ensures IsHistory(seed, Initial(seed))
  {
    forall n: nat | n < 275
      ensures MadeAt(seed, Initial(seed), n)
    {
      InitialAt(seed, n);
    }
  }

  /**
   For seeds up to 161803398 every number of the fill and of the warm-up is in [0, MaxInt32), no
   difference overflows, and each is the difference modulo MaxInt32.
   */
  lemma NothingOverflows(seed: int, n: nat)
    requires IsInt32(seed) && Abs32(seed) <= MSEED && n < 275
    ensures P(Initial(seed), n)
    ensures var h := Initial(seed); n >= 55 ==> IsInt32(h[n - 55] - h[n - 24]) && h[n] == (h[n - 55] - h[n - 24]) % MAX_INT32
    ensures n >= 2 ==> IsInt32(Fill(seed, n - 2) - Fill(seed, n - 1)) && Fill(seed, n) == (Fill(seed, n - 2) - Fill(seed, n - 1)) % MAX_INT32
  {
    var h := Initial(seed);
    ProperInitial(seed);
    if n >= 55 {
      InitialAt(seed, n);
      SubtractsModulo(h[n - 55], h[n - 24]);
    }
    if n >= 2 {
      ProperFill(seed, n - 1);
      if n > 2 {
        ProperFill(seed, n - 2);
      }
      SubtractsModulo(Fill(seed, n - 2), Fill(seed, n - 1));
    }
  }

  lemma ProperFirst(seed: int, h: seq<int>, n: nat)
    requires IsHistory(seed, h)
    requires IsInt32(seed) && n < 54
    ensures P(h, n)
  {
    HistoryAt(seed, h, n);
    NotZero(n);
    ProperFill(seed, 21 * (n + 1) % 55);
  }

  lemma NotZero(n: nat)
    requires n < 54
    ensures 21 * (n + 1) % 55 >= 1
  {
    TwentyOne(n + 1);
  }

  lemma ProperNext(seed: int, h: seq<int>, n: nat)
    requires IsHistory(seed, h)
    requires 55 <= n < 275 && P(h, n - 55) && P(h, n - 24)
    ensures P(h, n)
  {
    HistoryAt(seed, h, n);
    SubtractsModulo(h[n - 55], h[n - 24]);
  }

  /**
   The negative number is used for numbers 78 and 109 only.  If at most one of them is improper, and
   the two numbers it is used for are proper, everything else is.
   */
  lemma {:induction false} Spread(seed: int, h: seq<int>, bad: nat, n: nat)
    requires IsHistory(seed, h)
    requires IsInt32(seed) && (bad == 78 || bad == 109) && n < 275 && n != 54 && n != bad
    requires P(h, if bad == 78 then 109 else 78) && P(h, bad + 24) && P(h, bad + 55)
    ensures P(h, n)
  {
    if n < 54 {
      ProperFirst(seed, h, n);
    } else if n != 78 && n != 109 && n != bad + 24 && n != bad + 55 {
      Spread(seed, h, bad, n - 55);
      Spread(seed, h, bad, n - 24);
      ProperNext(seed, h, n);
    }
  }

  // ----- congruences modulo MaxInt32 -----

  ghost predicate Congruent(x: int, y: int) { (x - y) % MAX_INT32 == 0 }

  lemma Multiple(z: int, k: int)
    requires z == MAX_INT32 * k
    ensures z % MAX_INT32 == 0
  {
  }

  lemma Subtracts(a: int, b: int, x: int, y: int, d: int)
    requires Congruent(a, x) && Congruent(b, y) && (d == a - b || d == a - b + MAX_INT32)
    ensures Congruent(d, x - y)
  {
    var j, k := (a - x) / MAX_INT32, (b - y) / MAX_INT32;
    assert a - x == MAX_INT32 * j && b - y == MAX_INT32 * k;
    Multiple(d - (x - y), if d == a - b then j - k else j - k + 1);
  }

  /** Numbers i and i + 1 of the fill as linear functions of number 0. */
  function Coefs(i: nat): (int, int, int, int) {
    if i == 0 then (1, 0, 0, 1)
    else
      var c := Coefs(i - 1);
      (c.2, c.3, c.0 - c.2, c.1 - c.3)
  }

  function Linear(a: int, b: int, n: int): int { a * n + b }

  lemma LinearSubtracts(a: int, b: int, c: int, d: int, n: int)
    ensures Linear(a - c, b - d, n) == Linear(a, b, n) - Linear(c, d, n)
  {
  }

  lemma FillStep(seed: int, i: nat)
    requires IsInt32(seed) && i >= 1
    ensures var d := Fill(seed, i - 1) - Fill(seed, i); Fill(seed, i + 1) == d || Fill(seed, i + 1) == d + MAX_INT32
  {
    ProperFill(seed, i);
    if i > 1 {
      ProperFill(seed, i - 1);
    }
  }

  lemma FillStarts(seed: int, zero: nat)
    requires zero == 0
    ensures var n, c := Fill(seed, zero), Coefs(zero);
      Congruent(Fill(seed, zero), Linear(c.0, c.1, n)) && Congruent(Fill(seed, zero + 1), Linear(c.2, c.3, n))
  {
  }

  lemma {:induction false} FillCongruent(seed: int, i: nat)
    requires IsInt32(seed)
    ensures LinearAt(seed, i)
  {
    if i == 0 {
      FillStarts(seed, i);
    } else {
      FillCongruent(seed, i - 1);
      CongruentStep(seed, i);
    }
  }

  ghost predicate LinearAt(seed: int, i: nat) {
    var n, c := Fill(seed, 0), Coefs(i);
    Congruent(Fill(seed, i), Linear(c.0, c.1, n)) && Congruent(Fill(seed, i + 1), Linear(c.2, c.3, n))
  }

  lemma CongruentStep(seed: int, i: nat)
    requires IsInt32(seed) && i >= 1 && LinearAt(seed, i - 1)
    ensures LinearAt(seed, i)
  {
    FillStep(seed, i);
    NextCongruent(Fill(seed, i - 1), Fill(seed, i), Fill(seed, i + 1), Coefs(i - 1), Fill(seed, 0));
    CoefsNext(i);
  }

  lemma CoefsNext(i: nat)
    requires i >= 1
    ensures var c := Coefs(i - 1); Coefs(i) == (c.2, c.3, c.0 - c.2, c.1 - c.3)
  {
  }

  lemma NextCongruent(x: int, y: int, z: int, c: (int, int, int, int), n: int)
    requires Congruent(x, Linear(c.0, c.1, n)) && Congruent(y, Linear(c.2, c.3, n))
    requires z == x - y || z == x - y + MAX_INT32
    ensures Congruent(z, Linear(c.0 - c.2, c.1 - c.3, n))
  {
    LinearSubtracts(c.0, c.1, c.2, c.3, n);
    Subtracts(x, y, Linear(c.0, c.1, n), Linear(c.2, c.3, n), z);
  }

  lemma ThreeOn(i: nat)
    ensures var c := Coefs(i);
      Coefs(i + 3) == (2 * c.2 - c.0, 2 * c.3 - c.1, 2 * c.0 - 3 * c.2, 2 * c.1 - 3 * c.3)
  {
    assert Coefs(i + 2) == (Coefs(i + 1).2, Coefs(i + 1).3, Coefs(i + 1).0 - Coefs(i + 1).2, Coefs(i + 1).1 - Coefs(i + 1).3);
  }

  lemma NineOn(i: nat)
    ensures var c := Coefs(i);
      Coefs(i + 9) == (34 * c.2 - 21 * c.0, 34 * c.3 - 21 * c.1, 34 * c.0 - 55 * c.2, 34 * c.1 - 55 * c.3)
  {
    ThreeOn(i);
    ThreeOn(i + 3);
    ThreeOn(i + 6);
  }

  /** Numbers 9k and 9k + 1 of the fill, for the k that are needed. */
  function Row(k: nat): (int, int, int, int) {
    if k == 1 then (-21, 34, 34, -55)
    else if k == 2 then (1597, -2584, -2584, 4181)
    else if k == 3 then (-121393, 196418, 196418, -317811)
    else if k == 4 then (9227465, -14930352, -14930352, 24157817)
    else (-701408733, 1134903170, 1134903170, -1836311903)
  }

  lemma {:induction false} CoefsAt(i: nat, k: nat)
    requires i == 9 * k && 1 <= k <= 5
    ensures Coefs(i) == Row(k)
  {
    NineOn(i - 9);
    if k > 1 {
      CoefsAt(i - 9, k - 1);
    }
  }

  /** A number of the history that is number 9k or 9k + 1 of the fill. */
  lemma InputAt(seed: int, h: seq<int>, j: nat, i: nat, k: nat, a: int, b: int)
    requires IsHistory(seed, h)
    requires IsInt32(seed) && 1 <= k <= 5 && j < 54 && i == 9 * k
    requires (21 * (j + 1) % 55 == i && a == Row(k).0 && b == Row(k).1)
      || (21 * (j + 1) % 55 == i + 1 && a == Row(k).2 && b == Row(k).3)
    ensures P(h, j) && Congruent(h[j], Linear(a, b, Fill(seed, 0)))
  {
    CoefsAt(i, k);
    FillCongruent(seed, i);
    HistoryAt(seed, h, j);
    ProperFirst(seed, h, j);
  }

  /** A proper difference in the warm-up. */
  lemma StepAt(seed: int, h: seq<int>, j: nat, x: int, y: int)
    requires IsHistory(seed, h)
    requires 55 <= j < 275 && P(h, j - 55) && P(h, j - 24)
    requires Congruent(h[j - 55], x) && Congruent(h[j - 24], y)
    ensures P(h, j) && Congruent(h[j], x - y)
  {
    var a, b := h[j - 55], h[j - 24];
    HistoryAt(seed, h, j);
    ProperNext(seed, h, j);
    Subtracts(a, b, x, y, h[j]);
  }

  /** The numbers that meet the negative one, and those its results meet, as functions of it. */
  lemma Inputs(seed: int, h: seq<int>, n: int)
    requires IsHistory(seed, h)
    requires IsInt32(seed) && n == Fill(seed, 0)
    ensures P(h, 23) && P(h, 47) && P(h, 85) && P(h, 116)
    ensures && Congruent(h[23], Linear(-21, 34, n)) && Congruent(h[47], Linear(1597, -2584, n))
      && Congruent(h[85], Linear(1150029940, -1860787531, n)) && Congruent(h[116], Linear(-15325806, 24797675, n))
  {
    InputAt(seed, h, 23, 9, 1, -21, 34);
    InputAt(seed, h, 47, 18, 2, 1597, -2584);
    Input61(seed, h, n);
    Input85(seed, h, n);
    Input116(seed, h, n);
  }

  lemma Input61(seed: int, h: seq<int>, n: int)
    requires IsHistory(seed, h)
    requires IsInt32(seed) && n == Fill(seed, 0)
    ensures P(h, 61) && Congruent(h[61], Linear(-15126770, 24475628, n))
  {
    InputAt(seed, h, 6, 36, 4, -14930352, 24157817);
    InputAt(seed, h, 37, 27, 3, 196418, -317811);
    StepAt(seed, h, 61, Linear(-14930352, 24157817, n), Linear(196418, -317811, n));
    LinearSubtracts(-14930352, 24157817, 196418, -317811, n);
  }

  lemma Input85(seed: int, h: seq<int>, n: int)
    requires IsHistory(seed, h)
    requires IsInt32(seed) && n == Fill(seed, 0)
    ensures P(h, 85) && Congruent(h[85], Linear(1150029940, -1860787531, n))
  {
    InputAt(seed, h, 30, 45, 5, 1134903170, -1836311903);
    Input61(seed, h, n);
    StepAt(seed, h, 85, Linear(1134903170, -1836311903, n), Linear(-15126770, 24475628, n));
    LinearSubtracts(1134903170, -1836311903, -15126770, 24475628, n);
  }

  lemma Input92(seed: int, h: seq<int>, n: int)
    requires IsHistory(seed, h)
    requires IsInt32(seed) && n == Fill(seed, 0)
    ensures P(h, 92) && Congruent(h[92], Linear(199036, -322047, n))
  {
    InputAt(seed, h, 13, 18, 2, -2584, 4181);
    InputAt(seed, h, 44, 9, 1, 34, -55);
    StepAt(seed, h, 68, Linear(-2584, 4181, n), Linear(34, -55, n));
    LinearSubtracts(-2584, 4181, 34, -55, n);
    InputAt(seed, h, 37, 27, 3, 196418, -317811);
    StepAt(seed, h, 92, Linear(196418, -317811, n), Linear(-2618, 4236, n));
    LinearSubtracts(196418, -317811, -2618, 4236, n);
  }

  lemma Input116(seed: int, h: seq<int>, n: int)
    requires IsHistory(seed, h)
    requires IsInt32(seed) && n == Fill(seed, 0)
    ensures P(h, 116) && Congruent(h[116], Linear(-15325806, 24797675, n))
  {
    Input61(seed, h, n);
    Input92(seed, h, n);
    StepAt(seed, h, 116, Linear(-15126770, 24475628, n), Linear(199036, -322047, n));
    LinearSubtracts(-15126770, 24475628, 199036, -322047, n);
  }

  // ----- which seeds can make numbers 78 and 109 improper -----

  /** A linear congruence has one solution, by the inverse of its coefficient. */
  lemma Solve(n: int, c: int, d: int, inverse: int, w: int, u: int, s: int)
    requires -MAX_INT32 < n < 0 && 0 <= s < MAX_INT32
    requires inverse * c == 1 + w * MAX_INT32 && inverse * d == u * MAX_INT32 + s
    requires Linear(c, d, n) % MAX_INT32 == 0
    ensures n == -s
  {
    var k := Linear(c, d, n) / MAX_INT32;
    calc {
      MAX_INT32 * (inverse * k);
      inverse * (c * n + d);
      (inverse * c) * n + inverse * d;
      n + s + MAX_INT32 * (w * n + u);
    }
    OnlyMultiple(n + s, inverse * k - (w * n + u));
  }

  lemma OnlyMultiple(x: int, z: int)
    requires x == MAX_INT32 * z && -MAX_INT32 < x < MAX_INT32
    ensures x == 0
  {
  }

  /** A proper number minus the negative one may wrap around. */
  lemma MinusNegative(a: int, n: int)
    requires Proper(a) && MSEED - MAX_INT32 <= n < 0
    ensures var x := a - n;
      && Mix(a, n) == (if x <= MAX_INT32 then x else x - MAX_INT32 - 2)
      && (!Proper(Mix(a, n)) <==> x == MAX_INT32 || x == MAX_INT32 + 1)
  {
  }

  /** And so may the negative number minus a proper one. */
  lemma NegativeMinus(n: int, b: int)
    requires Proper(b) && MSEED - MAX_INT32 <= n < 0
    ensures var y := n - b;
      && Mix(n, b) == (if y >= MIN_INT32 then y + MAX_INT32 else y + 2 * MAX_INT32 + 2)
      && (!Proper(Mix(n, b)) <==> y == MIN_INT32 || y == MIN_INT32 - 1)
  {
  }

  lemma Roots78(n: int, x: int)
    requires -MAX_INT32 < n < 0 && Congruent(x, Linear(-22, 34, n))
    ensures x == MAX_INT32 + 1 ==> n == -1073741822
    ensures x == MAX_INT32 ==> n == -1171354715
    ensures x == MAX_INT32 - 1 ==> n != -452475753
  {
    if x == MAX_INT32 + 1 {
      Shifted(Linear(-22, 33, n), MAX_INT32 + 1 - Linear(-22, 34, n));
      Solve(n, -22, 33, 97612893, -1, 1, 1073741822);
    } else if x == MAX_INT32 {
      Shifted(Linear(-22, 34, n), MAX_INT32 - Linear(-22, 34, n));
      Solve(n, -22, 34, 97612893, -1, 1, 1171354715);
    }
  }

  lemma Roots109(n: int, y: int)
    requires -MAX_INT32 < n < 0 && Congruent(y, Linear(-1150029939, 1860787531, n))
    ensures y == MIN_INT32 ==> n == -452475753
    ensures y == MIN_INT32 - 1 ==> n == -1073425010
    ensures y == -MAX_INT32 ==> n != -1171354715
  {
    if y == MIN_INT32 {
      Shifted(Linear(-1150029939, 1860787532, n), MIN_INT32 - Linear(-1150029939, 1860787531, n));
      Solve(n, -1150029939, 1860787532, 620949257, -332533492, 538050493, 452475753);
    } else if y == MIN_INT32 - 1 {
      Shifted(Linear(-1150029939, 1860787533, n), MIN_INT32 - 1 - Linear(-1150029939, 1860787531, n));
      Solve(n, -1150029939, 1860787533, 620949257, -332533492, 538050493, 1073425010);
    }
  }

  lemma Shifted(x: int, y: int)
    requires y % MAX_INT32 == 0 && (x + y) % MAX_INT32 == 0
    ensures x % MAX_INT32 == 0
  {
  }

  lemma LastOfFill(seed: int, h: seq<int>, j: nat)
    requires IsHistory(seed, h)
    requires j == 54
    ensures h[j] == Fill(seed, 0)
  {
    HistoryAt(seed, h, j);
    assert 21 * (j + 1) % 55 == 0;
  }

  lemma NegativeStart(seed: int, n: int)
    requires IsInt32(seed) && n == Fill(seed, 0)
    ensures MSEED - MAX_INT32 <= n
  {
  }

  /** The number that the negative one is taken from, for the two seeds. */
  lemma Back78(n: int, a: int)
    requires Proper(a) && Congruent(a, Linear(-21, 34, n))
    ensures n == -1073741822 ==> a - n == MAX_INT32 + 1
    ensures n == -1171354715 ==> a - n == MAX_INT32
  {
  }

  /** The number that is taken from the negative one, for the two others. */
  lemma Back109(n: int, b: int)
    requires Proper(b) && Congruent(b, Linear(1150029940, -1860787531, n))
    ensures n == -452475753 ==> n - b == MIN_INT32
    ensures n == -1073425010 ==> n - b == MIN_INT32 - 1
  {
  }

  /** Number 78 is improper for exactly two seeds, up to the sign. */
  lemma Improper78(seed: int, h: seq<int>, n: int)
    requires IsHistory(seed, h)
    requires IsInt32(seed) && n == Fill(seed, 0) && n < 0
    ensures h[78] == -1 <==> n == -1073741822
    ensures h[78] == MAX_INT32 <==> n == -1171354715
    ensures Proper(h[78]) || h[78] == -1 || h[78] == MAX_INT32
    ensures n == -452475753 ==> h[78] != MAX_INT32 - 1
  {
    var a := h[23];
    Inputs(seed, h, n);
    HistoryAt(seed, h, 78);
    LastOfFill(seed, h, 54);
    NegativeStart(seed, n);
    MinusNegative(a, n);
    LinearSubtracts(-21, 34, 1, 0, n);
    Subtracts(a, n, Linear(-21, 34, n), Linear(1, 0, n), a - n);
    Roots78(n, a - n);
    Back78(n, a);
  }

  /** And so is number 109, for two others. */
  lemma Improper109(seed: int, h: seq<int>, n: int)
    requires IsHistory(seed, h)
    requires IsInt32(seed) && n == Fill(seed, 0) && n < 0
    ensures h[109] == -1 <==> n == -452475753
    ensures h[109] == MAX_INT32 <==> n == -1073425010
    ensures Proper(h[109]) || h[109] == -1 || h[109] == MAX_INT32
    ensures n == -1171354715 ==> h[109] != 0
  {
    var b := h[85];
    Inputs(seed, h, n);
    HistoryAt(seed, h, 109);
    LastOfFill(seed, h, 54);
    NegativeStart(seed, n);
    NegativeMinus(n, b);
    LinearSubtracts(1, 0, 1150029940, -1860787531, n);
    Subtracts(n, b, Linear(1, 0, n), Linear(1150029940, -1860787531, n), n - b);
    Roots109(n, n - b);
    Back109(n, b);
  }

  /** Number 47 is not one below MaxInt32 for the first special seed. */
  lemma Number47(seed: int, h: seq<int>, n: int)
    requires IsHistory(seed, h)
    requires IsInt32(seed) && n == Fill(seed, 0) == -1073741822
    ensures h[47] != MAX_INT32 - 1
  {
    Inputs(seed, h, n);
  }

  /** Number 140 is not 0 for the last one. */
  lemma Number140(seed: int, h: seq<int>, n: int)
    requires IsHistory(seed, h)
    requires IsInt32(seed) && n == Fill(seed, 0) == -1073425010
    ensures P(h, 140) && h[140] != 0
  {
    Inputs(seed, h, n);
    StepAt(seed, h, 140, Linear(1150029940, -1860787531, n), Linear(-15325806, 24797675, n));
  }

  /** What an improper number is used for. */
  lemma MixImproper(a: int)
    requires Proper(a)
    ensures Proper(Mix(-1, a)) && (a != MAX_INT32 - 1 ==> Proper(Mix(a, -1)))
    ensures Proper(Mix(a, MAX_INT32)) && (a != 0 ==> Proper(Mix(MAX_INT32, a)))
  {
  }

  /** If one of the two is improper, the two numbers it is used for are proper. */
  lemma Recovers(seed: int, h: seq<int>, n: int) returns (bad: nat)
    requires IsHistory(seed, h)
    requires IsInt32(seed) && n == Fill(seed, 0) && n < 0
    ensures bad == 78 || bad == 109
    ensures P(h, if bad == 78 then 109 else 78) && P(h, bad + 24) && P(h, bad + 55)
  {
    Improper78(seed, h, n);
    Improper109(seed, h, n);
    if P(h, 109) {
      bad := 78;
      Recovers78(seed, h, n);
    } else {
      bad := 109;
      Recovers109(seed, h, n);
    }
  }

  lemma Recovers78(seed: int, h: seq<int>, n: int)
    requires IsHistory(seed, h)
    requires IsInt32(seed) && n == Fill(seed, 0) && n < 0 && P(h, 109)
    ensures P(h, 102) && P(h, 133)
  {
    Improper78(seed, h, n);
    Improper109(seed, h, n);
    Inputs(seed, h, n);
    HistoryAt(seed, h, 102);
    HistoryAt(seed, h, 133);
    MixImproper(h[47]);
    MixImproper(h[109]);
    if P(h, 78) {
      ProperNext(seed, h, 102);
      ProperNext(seed, h, 133);
    } else if n == -1073741822 {
      Number47(seed, h, n);
    }
  }

  lemma Recovers109(seed: int, h: seq<int>, n: int)
    requires IsHistory(seed, h)
    requires IsInt32(seed) && n == Fill(seed, 0) && n < 0 && !P(h, 109)
    ensures P(h, 78) && P(h, 133) && P(h, 164)
  {
    Improper78(seed, h, n);
    Improper109(seed, h, n);
    Inputs(seed, h, n);
    HistoryAt(seed, h, 133);
    HistoryAt(seed, h, 164);
    ProperNext(seed, h, 140);
    MixImproper(h[78]);
    MixImproper(h[140]);
    if n == -1073425010 {
      Number140(seed, h, n);
    }
  }

  /** For every seed the warm-up ends with numbers in [0, MaxInt32). */
  lemma InitialIsProper(seed: int, n: nat)
    requires IsInt32(seed) && 110 <= n < 275
    ensures P(Initial(seed), n)
  {
    if Abs32(seed) <= MSEED {
      ProperInitial(seed);
    } else {
      var h := Initial(seed);
      InitialIsHistory(seed);
      var bad := Recovers(seed, h, Fill(seed, 0));
      Spread(seed, h, bad, n);
    }
  }

  /** Number 0 of the fill is in range for exactly these seeds. */
  lemma FirstIsProper(seed: int)
    requires IsInt32(seed)
    ensures Proper(Fill(seed, 0)) <==> -161803398 <= seed <= 161803398
    ensures Fill(seed, 0) == 161803398 - (if seed == -0x8000_0000 then 0x7FFF_FFFF else if seed < 0 then -seed else seed)
  {
  }

  /** Number 78 of the history is out of range for exactly four seeds. */
  lemma Number78(seed: int)
    requires IsInt32(seed)
    ensures Initial(seed)[78] == -1 <==> seed == 1235545220 || seed == -1235545220
    ensures Initial(seed)[78] == MAX_INT32 <==> seed == 1333158113 || seed == -1333158113
    ensures Proper(Initial(seed)[78]) || Initial(seed)[78] == -1 || Initial(seed)[78] == MAX_INT32
  {
    FirstIsProper(seed);
    if Proper(Fill(seed, 0)) {
      NothingOverflows(seed, 78);
    } else {
      InitialIsHistory(seed);
      Improper78(seed, Initial(seed), Fill(seed, 0));
    }
  }

  /** And so is number 109, for four others. */
  lemma Number109(seed: int)
    requires IsInt32(seed)
    ensures Initial(seed)[109] == -1 <==> seed == 614279151 || seed == -614279151
    ensures Initial(seed)[109] == MAX_INT32 <==> seed == 1235228408 || seed == -1235228408
    ensures Proper(Initial(seed)[109]) || Initial(seed)[109] == -1 || Initial(seed)[109] == MAX_INT32
  {
    FirstIsProper(seed);
    if Proper(Fill(seed, 0)) {
      NothingOverflows(seed, 109);
    } else {
      InitialIsHistory(seed);
      Improper109(seed, Initial(seed), Fill(seed, 0));
    }
  }

  /** What a number that is drawn is: the difference of the two lagged ones modulo MaxInt32, without overflow. */
  ghost predicate DrawnAt(h: seq<int>, i: nat)
    requires 55 <= i < |h|
  {
    Proper(h[i]) && IsInt32(h[i - 55] - h[i - 34]) && h[i] == (h[i - 55] - h[i - 34]) % MAX_INT32
  }

  /** For every seed and any number of calls: every number drawn is in [0, MaxInt32), and no draw overflows. */
  lemma {:induction false} RangeAfter(seed: int, calls: nat)
    requires IsInt32(seed)
    ensures forall i :: 110 <= i < 275 + calls ==> Proper(After(seed, calls)[i])
    ensures forall i :: 275 <= i < 275 + calls ==> DrawnAt(After(seed, calls), i)
  {
    if calls == 0 {
      forall i | 110 <= i < 275
        ensures Proper(After(seed, 0)[i])
      {
        InitialIsProper(seed, i);
      }
    } else {
      RangeAfter(seed, calls - 1);
      var g := After(seed, calls - 1);
      SubtractsModulo(g[|g| - 55], g[|g| - 34]);
      forall i | 275 <= i < 275 + calls
        ensures DrawnAt(After(seed, calls), i)
      {
        assert i < 274 + calls ==> DrawnAt(g, i);
      }
    }
  }
}
