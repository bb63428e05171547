/**
 `MyRandom` of go/gowork/mypkg/mypkg.go, the subtractive generator of .NET: a circular array with two
 cursors that carries on a lagged recurrence, in 32-bit arithmetic.
 */
module CompatRandom {
  import opened Int32

  const MSEED: int := 161803398

  /** A negative difference is brought back by adding MaxInt32. */
  function Fix(n: int): int { if n < 0 then n + MAX_INT32 else n }

  /** One difference of the warm-up. */
  function Mix(a: int, b: int): int { Fix(Wrap32(a - b)) }

  /** One difference of `Next`, with its extra correction. */
  function Draw(a: int, b: int): int {
    var num := Wrap32(a - b);
    Fix(if num == MAX_INT32 then num - 1 else num)
  }

  /** What a number of the generator should be. */
  predicate Proper(x: int) { 0 <= x < MAX_INT32 }

  /** Between such numbers both differences are the difference modulo MaxInt32, and nothing overflows. */
  lemma SubtractsModulo(a: int, b: int)
    requires Proper(a) && Proper(b)
    ensures IsInt32(a - b) && Mix(a, b) == Draw(a, b) == (a - b) % MAX_INT32
    ensures Proper(Mix(a, b))
  {
  }

  function Abs32(seed: int): int {
    if seed == MIN_INT32 then MAX_INT32 else if seed < 0 then -seed else seed
  }

  /** The numbers the array is filled with: each is the difference of the two before it. */
  function Fill(seed: int, i: nat): int {
    if i == 0 then MSEED - Abs32(seed)
    else if i == 1 then 1
    else Mix(Fill(seed, i - 2), Fill(seed, i - 1))
  }

  /** The filled array as a history: entry j is in slot j + 1, and 21 is its own inverse modulo 55. */
  function Filled(seed: int): seq<int> {
    seq(55, j requires 0 <= j < 55 => Fill(seed, 21 * (j + 1) % 55))
  }

  /** The warm-up continues the history by x(n) = x(n-55) - x(n-24). */
  function Warmed(h: seq<int>, steps: nat): (r: seq<int>)
    requires |h| >= 55
    ensures |r| == |h| + steps && h <= r
  {
    if steps == 0 then h
    else
      var g := Warmed(h, steps - 1);
      g + [Mix(g[|g| - 55], g[|g| - 24])]
  }

  /** The state right after `Reset`: four rounds of warm-up. */
  function Initial(seed: int): seq<int> { Warmed(Filled(seed), 220) }

  /** The pure recurrence: x(n) = x(n-55) - x(n-34). */
  function Advance(h: seq<int>): seq<int>
    requires |h| >= 55
  {
    h + [Draw(h[|h| - 55], h[|h| - 34])]
  }

  /** The slots 1 to 55 hold the last 55 numbers of the history, going round. */
  ghost predicate Holds(slots: seq<int>, h: seq<int>) {
    && |slots| == 56 && |h| >= 55
    && forall j :: |h| - 55 <= j < |h| ==> slots[j % 55 + 1] == h[j]
  }

  /** The cursor of the slot written last; it starts one before slot 1. */
  function Cursor(calls: nat, ahead: nat): int {
    if calls == 0 then ahead else (calls - 1 + ahead) % 55 + 1
  }

  lemma Turns(i: int, k: int)
    requires 0 <= i < 55
    ensures (i + 55 * k) % 55 == i
  {
  }

  /** 21 is its own inverse modulo 55. */
  lemma TwentyOne(i: nat)
    requires i < 55
    ensures 21 * (21 * i % 55) % 55 == i
  {
    var q, r := 21 * i / 55, 21 * i % 55;
    assert 21 * r == i + 55 * (8 * i - 21 * q);
    Turns(i, 8 * i - 21 * q);
  }

  /** One step of the warm-up in slot k: the other slot is 31 further, going round. */
  lemma WarmStep(slots: seq<int>, h: seq<int>, k: int, other: int)
    requires Holds(slots, h) && |h| % 55 + 1 == k
    requires other == if k + 30 >= 55 then k - 25 else k + 30
    ensures 1 <= k <= 55 && 0 <= other < 55
    ensures slots[k] == h[|h| - 55] && slots[1 + other] == h[|h| - 24]
    ensures Holds(slots[k := Mix(slots[k], slots[1 + other])], h + [Mix(h[|h| - 55], h[|h| - 24])])
  {
  }

  /** One draw: the cursors point to the oldest number and to the one 21 later. */
  lemma DrawStep(slots: seq<int>, h: seq<int>, i: int, p: int)
    requires Holds(slots, h) && i == |h| % 55 + 1 && p == (|h| + 21) % 55 + 1
    ensures 1 <= i <= 55 && 1 <= p <= 55
    ensures slots[i] == h[|h| - 55] && slots[p] == h[|h| - 34]
    ensures Holds(slots[i := Draw(slots[i], slots[p])], Advance(h))
  {
    Turns(|h| % 55, |h| / 55 - 1);
    Turns((|h| + 21) % 55, (|h| + 21) / 55 - 1);
    assert slots[(|h| - 34) % 55 + 1] == h[|h| - 34];
    Replaces(slots, h, Draw(slots[i], slots[p]));
  }

  /** A new number takes the slot of the oldest one. */
  lemma Replaces(slots: seq<int>, h: seq<int>, x: int)
    requires Holds(slots, h)
    ensures 1 <= |h| % 55 + 1 <= 55 && Holds(slots[|h| % 55 + 1 := x], h + [x])
  {
    var more, n := slots[|h| % 55 + 1 := x], |h|;
    forall j: nat | n - 54 <= j < n + 1
      ensures more[j % 55 + 1] == (h + [x])[j]
    {
      if j < n {
        OtherSlot(n, j);
      }
    }
  }

  lemma OtherSlot(n: nat, j: nat)
    requires n - 55 < j < n
    ensures j % 55 != n % 55
  {
  }

  /** Moving a cursor on, from 55 back to 1. */
  lemma CursorMoves(calls: nat, ahead: nat)
    requires ahead < 55
    ensures var c := Cursor(calls, ahead);
      && Cursor(calls + 1, ahead) == (if c + 1 >= 56 then 1 else c + 1)
      && Cursor(calls + 1, ahead) == (calls + 275 + ahead) % 55 + 1
  {
    FiveTurns(calls + ahead);
    if calls == 0 {
      Turns(ahead, 0);
    } else {
      AddOne(calls - 1 + ahead);
    }
  }

  lemma FiveTurns(x: nat)
    ensures (x + 275) % 55 == x % 55
  {
    assert x + 275 == x % 55 + 55 * (x / 55 + 5);
    Turns(x % 55, x / 55 + 5);
  }

  lemma AddOne(x: nat)
    ensures (x + 1) % 55 == (if x % 55 == 54 then 0 else x % 55 + 1)
  {
  }

  /** The i-th fill goes to slot 21 * i modulo 55, which is neither 0 nor 55. */
  lemma NextSlot(i: nat)
    requires 1 <= i <= 54
    ensures 1 <= 21 * i % 55 <= 54
    ensures 21 * i % 55 == (if 21 * (i - 1) % 55 + 21 >= 55 then 21 * (i - 1) % 55 - 34 else 21 * (i - 1) % 55 + 21)
  {
    TwentyOne(i);
    AddTwentyOne(21 * (i - 1));
  }

  lemma AddTwentyOne(x: nat)
    ensures (x + 21) % 55 == (if x % 55 + 21 >= 55 then x % 55 - 34 else x % 55 + 21)
  {
  }

  /** Both cursors move on, and are 21 slots apart afterwards. */
  lemma CursorsMove(n: nat, inext: int, inextp: int, i: int, p: int)
    requires n >= 275 && inext == Cursor(n - 275, 0) && inextp == Cursor(n - 275, 21)
    requires i == (if inext + 1 >= 56 then 1 else inext + 1) && p == (if inextp + 1 >= 56 then 1 else inextp + 1)
    ensures i == Cursor(n + 1 - 275, 0) == n % 55 + 1 && p == Cursor(n + 1 - 275, 21) == (n + 21) % 55 + 1
    ensures 1 <= i <= 55 && 1 <= p <= 55 && (p - i) % 55 == 21
  {
    CursorMoves(n - 275, 0);
    CursorMoves(n - 275, 21);
    Apart(n, i, p);
  }

  lemma Apart(n: nat, i: int, p: int)
    requires i == n % 55 + 1 && p == (n + 21) % 55 + 1
    ensures 1 <= i <= 55 && 1 <= p <= 55 && (p - i) % 55 == 21
  {
    AddTwentyOne(n);
    Turns(21, if n % 55 + 21 >= 55 then -1 else 0);
  }

  lemma OnlySlot(i: nat, j: nat)
    requires 1 <= i <= 54 && 1 <= j <= 54
    ensures 21 * j % 55 == i <==> j == 21 * i % 55
  {
    TwentyOne(i);
    TwentyOne(j);
  }

  /** The fills before the n-th are in their slots. */
  ghost predicate Placed(slots: seq<int>, seed: int, n: nat) {
    |slots| == 56 && forall j: nat :: 1 <= j <= 54 ==> IsPlaced(slots[j], seed, j, n)
  }

  ghost predicate IsPlaced(x: int, seed: int, j: nat, n: nat) {
    1 <= 21 * j % 55 < n ==> x == Fill(seed, 21 * j % 55)
  }

  lemma PlaceFill(slots: seq<int>, seed: int, i: nat)
    requires 1 <= i <= 54 && Placed(slots, seed, i)
    ensures 1 <= 21 * i % 55 <= 54 && Placed(slots[21 * i % 55 := Fill(seed, i)], seed, i + 1)
  {
    NextSlot(i);
    var more := slots[21 * i % 55 := Fill(seed, i)];
    forall j: nat | 1 <= j <= 54
      ensures IsPlaced(more[j], seed, j, i + 1)
    {
      OnlySlot(i, j);
      assert IsPlaced(slots[j], seed, j, i);
    }
  }

  /** Which fill is in the slot j + 1, in the order of the slots. */
  lemma SlotFilled(j: nat)
    requires j < 55
    ensures j % 55 == j && (if j == 54 then 21 * (j + 1) % 55 == 0 else 1 <= 21 * (j + 1) % 55 <= 54)
  {
    if j < 54 {
      NextSlot(j + 1);
    }
  }

  lemma AllSlotsFilled(slots: seq<int>, seed: int)
    requires |slots| == 56 && slots[55] == Fill(seed, 0) && Placed(slots, seed, 55)
    ensures Holds(slots, Filled(seed))
  {
    forall j: nat | j < 55
      ensures slots[j % 55 + 1] == Filled(seed)[j]
    {
      SlotFilled(j);
      assert j < 54 ==> IsPlaced(slots[j + 1], seed, j + 1, 55);
    }
  }

  class MyRandom {
    var seedArray: array<int>
    var inext: int
    var inextp: int
    ghost var history: seq<int>

    ghost predicate Valid()
      reads this, seedArray
    {
      && seedArray.Length == 56 && |history| >= 275
      && Holds(seedArray[..], history)
      && inext == Cursor(|history| - 275, 0)
      && inextp == Cursor(|history| - 275, 21)
    }

    constructor (seed: int)
      requires IsInt32(seed)
      ensures Valid() && fresh(seedArray) && history == Initial(seed)
    {
      seedArray := new int[56](_ => 0);
      inext, inextp, history := 0, 0, [];
      new;
      Reset(seed);
    }

    method Reset(seed: int)
      requires IsInt32(seed)
      modifies this
      ensures Valid() && fresh(seedArray) && history == Initial(seed)
    {
      var a := FillArray(seed);
      ghost var h := Filled(seed);
      ghost var steps: nat := 0;
      for i := 1 to 5
        invariant fresh(a) && a.Length == 56
        invariant steps == 55 * (i - 1) && h == Warmed(Filled(seed), steps) && Holds(a[..], h)
      {
        for k := 1 to 56
          invariant fresh(a) && a.Length == 56
          invariant steps == 55 * (i - 1) + (k - 1) && h == Warmed(Filled(seed), steps) && Holds(a[..], h)
        {
          var num5 := k + 30;
          if num5 >= 55 {
            num5 := num5 - 55;
          }
          ghost var x := Mix(h[|h| - 55], h[|h| - 24]);
          assert |h| == 55 * i + (k - 1);
          Turns(k - 1, i);
          ghost var slots := a[..];
          WarmStep(slots, h, k, num5);
          a[k] := Subtract(a[k], a[1 + num5]);
          assert a[..] == slots[k := x];
          h, steps := h + [x], steps + 1;
        }
      }
      seedArray := a;
      inext := 0;
      inextp := 21;
      history := h;
    }

    /** The difference and its correction, written out twice in `Reset`: a difference modulo MaxInt32. */
    static method Subtract(x: int, y: int) returns (z: int)
      ensures z == Mix(x, y)
      ensures Proper(x) && Proper(y) ==> z == (x - y) % MAX_INT32
    {
      z := Wrap32(x - y);
      if z < 0 {
        z := z + MAX_INT32;
      }
    }

    /** The same with the extra correction of `Next`. */
    static method SubtractBelowMax(x: int, y: int) returns (z: int)
      ensures z == Draw(x, y) && z != MAX_INT32
      ensures Proper(x) && Proper(y) ==> z == (x - y) % MAX_INT32
    {
      z := Wrap32(x - y);
      if z == MAX_INT32 {
        z := z - 1;
      }
      if z < 0 {
        z := z + MAX_INT32;
      }
    }

    static method NextIndex(index: int, ghost i: nat) returns (next: int)
      requires 1 <= i <= 54 && index == 21 * (i - 1) % 55
      ensures 1 <= next <= 54 && next == 21 * i % 55
    {
      next := index + 21;
      if next >= 55 {
        next := next - 55;
      }
      NextSlot(i);
    }

    static method FillArray(seed: int) returns (a: array<int>)
      requires IsInt32(seed)
      ensures fresh(a) && a.Length == 56 && Holds(a[..], Filled(seed))
    {
      a := new int[56](_ => 0);
      var num2 := Wrap32(MSEED - Abs32(seed));
      var num3 := 1;
      var num4 := 0;
      a[55] := num2;
      for i := 1 to 55
        invariant a.Length == 56 && a[55] == Fill(seed, 0)
        invariant num2 == Fill(seed, i - 1) && num3 == Fill(seed, i) && num4 == 21 * (i - 1) % 55
        invariant Placed(a[..], seed, i)
      {
        num4 := NextIndex(num4, i);
        PlaceFill(a[..], seed, i);
        ghost var slots := a[..];
        a[num4] := num3;
        assert a[..] == slots[num4 := num3];
        num3 := Subtract(num2, num3);
        num2 := a[num4];
      }
      AllSlotsFilled(a[..], seed);
    }

    /** The next number is that of the pure recurrence; the cursors stay 21 slots apart. */
    method Next() returns (num: int)
      requires Valid()
      modifies this, seedArray
      ensures Valid() && seedArray == old(seedArray)
      ensures history == Advance(old(history)) && num == history[|history| - 1]
      ensures 1 <= inext <= 55 && 1 <= inextp <= 55 && (inextp - inext) % 55 == 21
    {
      ghost var n := |history|;
      var i := inext + 1;
      if i >= 56 {
        i := 1;
      }
      var p := inextp + 1;
      if p >= 56 {
        p := 1;
      }
      CursorsMove(n, inext, inextp, i, p);
      DrawStep(seedArray[..], history, i, p);
      num := SubtractBelowMax(seedArray[i], seedArray[p]);
      ghost var slots := seedArray[..];
      seedArray[i] := num;
      assert seedArray[..] == slots[i := num];
      inext := i;
      inextp := p;
      history := history + [num];
    }
  }
}
