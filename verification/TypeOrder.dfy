/**
 Types and their order: what reflection knows about types, the stable sort by name of
 c#/code/XSerialize/Binary/XBinarySerializer.cs, and when its result is the only possible one.
 */
module TypeOrder {

  /** A type; what reflection says about it is a parameter of the model. */
  type T = nat

  /**
   Reflection: the types needed to serialize a type, which types have open generic parameters, for
   which types there is no handler (interfaces, for example), and where a type's name stands in the
   order names are sorted by.
   */
  datatype World = World(subtypes: map<T, seq<T>>, openGeneric: set<T>, unhandled: set<T>, rank: map<T, int>)

  ghost predicate Distinct(list: seq<T>) {
    forall i, j :: 0 <= i < j < |list| ==> list[i] != list[j]
  }

  function SetOf(list: seq<T>): set<T> { set t | t in list }

  function Rank(world: World, t: T): int {
    if t in world.rank then world.rank[t] else 0
  }

  // ----- sorting by name -----

  /** Behind everything that does not come after it: the sort is stable. */
  function Insert(world: World, sorted: seq<T>, t: T): (r: seq<T>)
    ensures forall s :: s in r <==> s in sorted || s == t
  {
    if sorted == [] || Rank(world, sorted[|sorted| - 1]) <= Rank(world, t) then sorted + [t]
    else
      assert sorted == sorted[..|sorted| - 1] + [sorted[|sorted| - 1]];
      Insert(world, sorted[..|sorted| - 1], t) + [sorted[|sorted| - 1]]
  }

  function OrderByName(world: World, list: seq<T>): (r: seq<T>)
    ensures forall s :: s in r <==> s in list
  {
    if list == [] then []
    else
      assert list == list[..|list| - 1] + [list[|list| - 1]];
      Insert(world, OrderByName(world, list[..|list| - 1]), list[|list| - 1])
  }

  /** The place of a type in a list of types that were there first; all others share the last place. */
  function Place(first: seq<T>, t: T): nat {
    if first == [] then 0 else if first[0] == t then 0 else 1 + Place(first[1..], t)
  }

  /** By name, and with equal names by place. */
  predicate Comes(world: World, first: seq<T>, x: T, y: T) {
    Rank(world, x) < Rank(world, y) || (Rank(world, x) == Rank(world, y) && Place(first, x) <= Place(first, y))
  }

  ghost predicate InOrder(world: World, first: seq<T>, list: seq<T>) {
    forall i, j :: 0 <= i < j < |list| ==> Comes(world, first, list[i], list[j])
  }

  /** Types with equal names are in the order of their places already. */
  ghost predicate Arranged(world: World, first: seq<T>, list: seq<T>) {
    forall i, j :: 0 <= i < j < |list| ==> Rank(world, list[i]) != Rank(world, list[j]) || Comes(world, first, list[i], list[j])
  }

  /** The type may stand behind all of the list. */
  ghost predicate MayFollow(world: World, first: seq<T>, list: seq<T>, t: T) {
    forall s :: s in list ==> Rank(world, s) != Rank(world, t) || Comes(world, first, s, t)
  }

  lemma {:induction false} InsertInOrder(world: World, first: seq<T>, sorted: seq<T>, t: T)
    requires InOrder(world, first, sorted) && MayFollow(world, first, sorted, t)
    ensures InOrder(world, first, Insert(world, sorted, t))
    ensures multiset(Insert(world, sorted, t)) == multiset(sorted) + multiset{t}
  {
    if sorted != [] {
      var n := |sorted| - 1;
      assert sorted == sorted[..n] + [sorted[n]];
      if Rank(world, sorted[n]) <= Rank(world, t) {
        AllBefore(world, first, sorted, t);
      } else {
        InsertInOrder(world, first, sorted[..n], t);
        LastStaysLast(world, first, sorted, Insert(world, sorted[..n], t), t);
      }
    }
  }

  lemma AllBefore(world: World, first: seq<T>, sorted: seq<T>, t: T)
    requires InOrder(world, first, sorted) && MayFollow(world, first, sorted, t)
    requires sorted != [] && Rank(world, sorted[|sorted| - 1]) <= Rank(world, t)
    ensures InOrder(world, first, sorted + [t])
  {
    var n := |sorted| - 1;
    forall i | 0 <= i < |sorted|
      ensures Comes(world, first, sorted[i], t)
    {
      assert i < n ==> Comes(world, first, sorted[i], sorted[n]);
      assert sorted[i] in sorted;
    }
  }

  lemma LastStaysLast(world: World, first: seq<T>, sorted: seq<T>, inner: seq<T>, t: T)
    requires sorted != [] && InOrder(world, first, sorted) && InOrder(world, first, inner)
    requires forall s :: s in inner ==> s in sorted[..|sorted| - 1] || s == t
    requires Rank(world, t) < Rank(world, sorted[|sorted| - 1])
    ensures InOrder(world, first, inner + [sorted[|sorted| - 1]])
  {
    var n := |sorted| - 1;
    forall i | 0 <= i < |inner|
      ensures Comes(world, first, inner[i], sorted[n])
    {
      assert inner[i] in inner;
      if inner[i] != t {
        var j :| 0 <= j < n && sorted[j] == inner[i];
      }
    }
  }

  /** The sort is a permutation in name order; types with equal names stay as they were. */
  lemma {:induction false} OrderInOrder(world: World, first: seq<T>, list: seq<T>)
    requires Arranged(world, first, list)
    ensures InOrder(world, first, OrderByName(world, list))
    ensures multiset(OrderByName(world, list)) == multiset(list)
  {
    if list != [] {
      var n := |list| - 1;
      OrderInOrder(world, first, list[..n]);
      LastMayFollow(world, first, list, OrderByName(world, list[..n]));
      InsertInOrder(world, first, OrderByName(world, list[..n]), list[n]);
      assert list == list[..n] + [list[n]];
    }
  }

  lemma LastMayFollow(world: World, first: seq<T>, list: seq<T>, sorted: seq<T>)
    requires list != [] && Arranged(world, first, list) && multiset(sorted) == multiset(list[..|list| - 1])
    ensures MayFollow(world, first, sorted, list[|list| - 1])
  {
    var n := |list| - 1;
    forall s | s in sorted
      ensures Rank(world, s) != Rank(world, list[n]) || Comes(world, first, s, list[n])
    {
      assert s in multiset(list[..n]);
      var i :| 0 <= i < n && list[i] == s;
    }
  }

  // ----- the only arrangement -----

  /** Any two types of the list differ in name or in place. */
  ghost predicate ToldApart(world: World, first: seq<T>, list: seq<T>) {
    forall a, b :: Differ(world, first, list, a, b)
  }

  ghost predicate Differ(world: World, first: seq<T>, list: seq<T>, a: T, b: T) {
    a in list && b in list && a != b ==> Rank(world, a) != Rank(world, b) || Place(first, a) != Place(first, b)
  }

  lemma LastAgrees(world: World, first: seq<T>, a: seq<T>, b: seq<T>)
    requires InOrder(world, first, a) && InOrder(world, first, b) && a != [] && b != []
    requires multiset(a) == multiset(b) && ToldApart(world, first, a)
    ensures a[|a| - 1] == b[|b| - 1]
  {
    var x, y := a[|a| - 1], b[|b| - 1];
    assert x in multiset(b) && y in multiset(a);
    var i :| 0 <= i < |b| && b[i] == x;
    var j :| 0 <= j < |a| && a[j] == y;
    assert Differ(world, first, a, x, y);
    assert i < |b| - 1 ==> Comes(world, first, b[i], y);
    assert j < |a| - 1 ==> Comes(world, first, a[j], x);
  }

  lemma FrontOf(a: seq<T>)
    requires a != []
    ensures multiset(a[..|a| - 1]) == multiset(a) - multiset{a[|a| - 1]}
    ensures |multiset(a)| == |a|
  {
    assert a == a[..|a| - 1] + [a[|a| - 1]];
  }

  lemma FrontDiffers(world: World, first: seq<T>, a: seq<T>)
    requires a != [] && ToldApart(world, first, a)
    ensures ToldApart(world, first, a[..|a| - 1])
  {
    var front := a[..|a| - 1];
    forall x, y
      ensures Differ(world, first, front, x, y)
    {
      assert Differ(world, first, a, x, y);
    }
  }

  lemma FrontsAgree(a: seq<T>, b: seq<T>)
    requires a != [] && b != [] && multiset(a) == multiset(b) && a[|a| - 1] == b[|b| - 1]
    ensures multiset(a[..|a| - 1]) == multiset(b[..|b| - 1])
  {
    FrontOf(a);
    FrontOf(b);
  }

  lemma SameLength(a: seq<T>, b: seq<T>)
    requires multiset(a) == multiset(b)
    ensures |a| == |b|
  {
    assert |multiset(a)| == |a| && |multiset(b)| == |b|;
  }

  /** Types that can be told apart have only one arrangement in order. */
  lemma {:induction false} OneArrangement(world: World, first: seq<T>, a: seq<T>, b: seq<T>)
    requires InOrder(world, first, a) && InOrder(world, first, b)
    requires multiset(a) == multiset(b) && ToldApart(world, first, a)
    ensures a == b
  {
    SameLength(a, b);
    if a != [] {
      LastAgrees(world, first, a, b);
      FrontsAgree(a, b);
      FrontDiffers(world, first, a);
      OneArrangement(world, first, a[..|a| - 1], b[..|b| - 1]);
      LastsBack(a);
      LastsBack(b);
    }
  }

  lemma LastsBack(a: seq<T>)
    requires a != []
    ensures a == a[..|a| - 1] + [a[|a| - 1]]
  {
  }

  lemma {:induction false} DistinctOnce(list: seq<T>, t: T)
    requires Distinct(list)
    ensures multiset(list)[t] == if t in list then 1 else 0
  {
    if list != [] {
      var n := |list| - 1;
      assert list == list[..n] + [list[n]];
      DistinctOnce(list[..n], t);
      if list[n] == t {
        assert t !in list[..n];
      }
    }
  }

  /** Lists without repetition and with the same elements are permutations of each other. */
  lemma SameMultiset(a: seq<T>, b: seq<T>)
    requires Distinct(a) && Distinct(b) && SetOf(a) == SetOf(b)
    ensures multiset(a) == multiset(b)
  {
    forall t: T
      ensures multiset(a)[t] == multiset(b)[t]
    {
      DistinctOnce(a, t);
      DistinctOnce(b, t);
      assert t in SetOf(a) <==> t in SetOf(b);
    }
  }

  lemma PermutedDistinct(a: seq<T>, b: seq<T>)
    requires Distinct(a) && multiset(a) == multiset(b)
    ensures Distinct(b) && SetOf(a) == SetOf(b)
  {
    assert forall t :: t in a <==> t in multiset(a);
    assert forall t :: t in b <==> t in multiset(b);
    forall i, j | 0 <= i < j < |b|
      ensures b[i] != b[j]
    {
      if b[i] == b[j] {
        DistinctOnce(a, b[i]);
        TwiceCounts(b, i, j);
      }
    }
  }

  lemma TwiceCounts(b: seq<T>, i: nat, j: nat)
    requires i < j < |b| && b[i] == b[j]
    ensures multiset(b)[b[i]] >= 2
  {
    assert b == b[..j] + [b[j]] + b[j + 1..];
    assert b[i] in b[..j];
  }

  // ----- places -----

  lemma {:induction false} PlaceOf(first: seq<T>, t: T)
    ensures Place(first, t) <= |first|
    ensures Place(first, t) < |first| <==> t in first
    ensures t in first ==> first[Place(first, t)] == t
  {
    if first != [] && first[0] != t {
      PlaceOf(first[1..], t);
    }
  }

  lemma {:induction false} PlaceAt(first: seq<T>, i: nat)
    requires Distinct(first) && i < |first|
    ensures Place(first, first[i]) == i
  {
    PlaceOf(first, first[i]);
  }

  /** A list that begins with the types that were first is arranged. */
  lemma PrefixArranged(world: World, first: seq<T>, list: seq<T>)
    requires Distinct(list) && first <= list
    ensures Arranged(world, first, list)
  {
    forall i, j | 0 <= i < j < |list| && Rank(world, list[i]) == Rank(world, list[j])
      ensures Comes(world, first, list[i], list[j])
    {
      PlaceOf(first, list[i]);
      if j < |first| {
        PlaceAt(first, i);
        PlaceAt(first, j);
      } else {
        NotFirst(first, list, j);
      }
    }
  }

  lemma NotFirst(first: seq<T>, list: seq<T>, j: nat)
    requires Distinct(list) && first <= list && |first| <= j < |list|
    ensures Place(first, list[j]) == |first|
  {
    PlaceOf(first, list[j]);
  }

  /** Types that are added behind a list in order do not disturb it. */
  lemma MoreArranged(world: World, first: seq<T>, list: seq<T>, more: seq<T>)
    requires InOrder(world, first, list) && SetOf(first) <= SetOf(list)
    requires Distinct(more) && list <= more
    ensures Arranged(world, first, more)
  {
    forall i, j | 0 <= i < j < |more| && Rank(world, more[i]) == Rank(world, more[j])
      ensures Comes(world, first, more[i], more[j])
    {
      if j < |list| {
        assert Comes(world, first, list[i], list[j]);
      } else {
        PlaceOf(first, more[i]);
        PlaceOf(first, more[j]);
        assert more[j] !in SetOf(list);
      }
    }
  }

  /** Of two types with equal names, the one that was first comes first. */
  lemma FirstComesFirst(world: World, first: seq<T>, list: seq<T>, a: T, b: T) returns (i: nat, j: nat)
    requires InOrder(world, first, list) && Distinct(list) && a in list && b in list && a != b
    requires Rank(world, a) == Rank(world, b) && Place(first, a) < Place(first, b)
    ensures i < j < |list| && list[i] == a && list[j] == b
  {
    i :| 0 <= i < |list| && list[i] == a;
    j :| 0 <= j < |list| && list[j] == b;
    assert j < i ==> Comes(world, first, b, a);
  }
}
