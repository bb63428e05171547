/**
 The type table of c#/code/XSerialize/Binary/XBinarySerializer.cs: collecting every type a set of types
 needs, and giving the types their ids.
 */
module TypeRegistry {
  import opened TypeOrder
  import opened IdTables

  function Subtypes(world: World, t: T): seq<T> {
    if t in world.subtypes then world.subtypes[t] else []
  }

  /** With every type, everything it needs. */
  ghost predicate Closed(world: World, types: set<T>) {
    forall t :: t in types ==> SubtypesIn(world, t, types)
  }

  ghost predicate SubtypesIn(world: World, t: T, types: set<T>) {
    forall s :: s in Subtypes(world, t) ==> s in types
  }

  /** t belongs to the least closed set around `start`: it is in all of them. */
  ghost predicate Needed(world: World, start: set<T>, t: T) {
    forall types: set<T> :: InClosed(world, start, t, types)
  }

  ghost predicate InClosed(world: World, start: set<T>, t: T, types: set<T>) {
    Closed(world, types) && start <= types ==> t in types
  }

  /** A type that can be registered: its parameters are known and there is a handler for it. */
  predicate Registrable(world: World, t: T) {
    t !in world.openGeneric && t !in world.unhandled
  }

  /** Everything that is needed and not listed yet can be registered. */
  ghost predicate AllRegistrable(world: World, list: seq<T>, start: set<T>) {
    forall t :: Needed(world, start, t) && t !in list ==> Registrable(world, t)
  }

  // ----- the worklist -----

  /** The list that was collected, or the type that was refused and what was collected before. */
  datatype Collected =
    | Done(list: seq<T>)
    | OpenGeneric(t: T, list: seq<T>)
    | NoHandler(t: T, list: seq<T>)

  /** The subtypes that are not in the list, in order. */
  function Missing(list: seq<T>, subtypes: seq<T>): (r: seq<T>)
    ensures forall s :: s in r <==> s in subtypes && s !in list
  {
    if subtypes == [] then []
    else
      var n := |subtypes| - 1;
      assert subtypes == subtypes[..n] + [subtypes[n]];
      Missing(list, subtypes[..n]) + if subtypes[n] in list then [] else [subtypes[n]]
  }

  lemma MissingNext(list: seq<T>, subtypes: seq<T>, i: nat)
    requires i < |subtypes|
    ensures Missing(list, subtypes[..i + 1]) == Missing(list, subtypes[..i]) + if subtypes[i] in list then [] else [subtypes[i]]
  {
    assert subtypes[..i + 1][..i] == subtypes[..i];
  }

  ghost predicate Within(world: World, universe: set<T>, list: seq<T>, stack: seq<T>) {
    Closed(world, universe) && SetOf(list) <= universe && SetOf(stack) <= universe
  }

  lemma WithinPops(world: World, universe: set<T>, list: seq<T>, stack: seq<T>)
    requires Within(world, universe, list, stack) && stack != []
    ensures Within(world, universe, list, stack[..|stack| - 1])
  {
  }

  lemma WithinPushes(world: World, universe: set<T>, list: seq<T>, stack: seq<T>, t: T)
    requires Within(world, universe, list, stack) && t in universe && t !in list
    ensures Within(world, universe, list + [t], stack + Missing(list + [t], Subtypes(world, t)))
    ensures universe - SetOf(list + [t]) < universe - SetOf(list)
  {
    assert SubtypesIn(world, t, universe);
    assert t in universe - SetOf(list) && t !in universe - SetOf(list + [t]);
  }

  /** What `_AddTypesWithoutHash` does; `universe` is any closed set, as reason that it ends. */
  ghost function Collect(world: World, universe: set<T>, list: seq<T>, stack: seq<T>): (c: Collected)
    requires Within(world, universe, list, stack)
    ensures list <= c.list && SetOf(c.list) <= universe
    decreases universe - SetOf(list), |stack|
  {
    if stack == [] then Done(list)
    else
      var t, rest := stack[|stack| - 1], stack[..|stack| - 1];
      WithinPops(world, universe, list, stack);
      if t in list then Collect(world, universe, list, rest)
      else if t in world.openGeneric then OpenGeneric(t, list)
      else if t in world.unhandled then NoHandler(t, list)
      else
        assert t in SetOf(stack);
        WithinPushes(world, universe, list, rest, t);
        Collect(world, universe, list + [t], rest + Missing(list + [t], Subtypes(world, t)))
  }

  /** The worklist invariant: what a listed type needs is listed or still on the stack. */
  ghost predicate Pending(world: World, start: set<T>, listed: set<T>, stack: set<T>) {
    && start <= listed + stack
    && (forall t :: t in listed ==> SubtypesIn(world, t, listed + stack))
    && (forall t :: t in listed + stack ==> Needed(world, start, t))
  }

  lemma Handles(world: World, start: set<T>, listed: set<T>, stack: set<T>, t: T, pushed: set<T>)
    requires Pending(world, start, listed, stack + {t})
    requires forall s :: s in pushed <==> s in Subtypes(world, t) && s !in listed + {t}
    ensures Pending(world, start, listed + {t}, stack + pushed)
  {
    var all := listed + {t} + (stack + pushed);
    assert Needed(world, start, t);
    NeededSubtypes(world, start, t);
    forall u | u in listed + {t}
      ensures SubtypesIn(world, u, all)
    {
      if u in listed {
        assert SubtypesIn(world, u, listed + (stack + {t}));
      }
    }
  }

  lemma NeededSubtypes(world: World, start: set<T>, t: T)
    requires Needed(world, start, t)
    ensures forall s :: s in Subtypes(world, t) ==> Needed(world, start, s)
  {
    forall s, types: set<T> | s in Subtypes(world, t)
      ensures InClosed(world, start, s, types)
    {
      assert InClosed(world, start, t, types);
      if Closed(world, types) && start <= types {
        assert SubtypesIn(world, t, types);
      }
    }
  }

  /** With an empty stack the listed types are the least closed set. */
  lemma LeastClosed(world: World, start: set<T>, types: set<T>)
    requires Pending(world, start, types, {})
    ensures Closed(world, types)
    ensures forall t :: t in types <==> Needed(world, start, t)
  {
    assert types + {} == types;
    forall t | Needed(world, start, t)
      ensures t in types
    {
      assert InClosed(world, start, t, types);
    }
  }

  /** What is promised of an outcome. */
  ghost predicate Outcome(world: World, start: set<T>, list: seq<T>, c: Collected) {
    && Distinct(c.list) && (forall t :: t in c.list ==> Needed(world, start, t) && (t in list || Registrable(world, t)))
    && match c
       case Done(r) => Closed(world, SetOf(r)) && forall t :: Needed(world, start, t) ==> t in r
       case OpenGeneric(t, _) => Needed(world, start, t) && t !in list && t in world.openGeneric
       case NoHandler(t, _) => Needed(world, start, t) && t !in list && t in world.unhandled && t !in world.openGeneric
  }

  lemma {:induction false} CollectOutcome(world: World, universe: set<T>, start: set<T>, list: seq<T>, stack: seq<T>)
    requires Within(world, universe, list, stack) && Distinct(list)
    requires Pending(world, start, SetOf(list), SetOf(stack))
    ensures Outcome(world, start, list, Collect(world, universe, list, stack))
    decreases universe - SetOf(list), |stack|
  {
    if stack == [] {
      LeastClosed(world, start, SetOf(list));
    } else {
      var t, rest := stack[|stack| - 1], stack[..|stack| - 1];
      WithinPops(world, universe, list, stack);
      StackTop(stack);
      if t in list {
        assert SetOf(list) + SetOf(stack) == SetOf(list) + SetOf(rest);
        CollectOutcome(world, universe, start, list, rest);
      } else if Registrable(world, t) {
        var more := Missing(list + [t], Subtypes(world, t));
        WithinPushes(world, universe, list, rest, t);
        Handles(world, start, SetOf(list), SetOf(rest), t, SetOf(more));
        Pushed(list, rest, t, more);
        CollectOutcome(world, universe, start, list + [t], rest + more);
      } else {
        assert Needed(world, start, t);
      }
    }
  }

  lemma StackTop(stack: seq<T>)
    requires stack != []
    ensures SetOf(stack) == SetOf(stack[..|stack| - 1]) + {stack[|stack| - 1]}
    ensures stack[|stack| - 1] in SetOf(stack)
  {
  }

  lemma Pushed(list: seq<T>, rest: seq<T>, t: T, more: seq<T>)
    ensures SetOf(list + [t]) == SetOf(list) + {t} && SetOf(rest + more) == SetOf(rest) + SetOf(more)
  {
  }

  /**
   Collecting on top of a closed list: it succeeds exactly when everything new that is needed can be
   registered, and then leaves exactly the least set that contains the old and the given types
   and everything they need, each type once and the old ones first.
   */
  lemma CollectIsLeast(world: World, universe: set<T>, list: seq<T>, types: seq<T>)
    requires Within(world, universe, list, types) && Distinct(list) && Closed(world, SetOf(list))
    ensures var start := SetOf(list) + SetOf(types); var c := Collect(world, universe, list, types);
      && Outcome(world, start, list, c) && list <= c.list
      && (c.Done? <==> AllRegistrable(world, list, start))
      && (c.Done? ==> forall t :: t in c.list <==> Needed(world, start, t))
  {
    var start := SetOf(list) + SetOf(types);
    forall t | t in start
      ensures Needed(world, start, t)
    {
      assert forall s: set<T> :: InClosed(world, start, t, s);
    }
    forall t | t in SetOf(list)
      ensures SubtypesIn(world, t, start)
    {
      assert SubtypesIn(world, t, SetOf(list));
    }
    CollectOutcome(world, universe, start, list, types);
  }

  /** A field of an interface type: without a handler for it, its class cannot be registered. */
  lemma InterfaceFieldIsRefused(world: World, class_: T, interface_: T)
    requires world == World(map[class_ := [interface_]], {}, {interface_}, map[]) && class_ != interface_
    ensures !AllRegistrable(world, [], {class_})
    ensures var universe := {class_, interface_};
      Within(world, universe, [], [class_]) && Collect(world, universe, [], [class_]) == NoHandler(interface_, [class_])
  {
    var universe := {class_, interface_};
    assert Closed(world, universe) && SetOf([class_]) == {class_};
    forall types: set<T>
      ensures InClosed(world, {class_}, interface_, types)
    {
      assert Closed(world, types) && class_ in types ==> SubtypesIn(world, class_, types);
    }
    assert Needed(world, {class_}, interface_);
    WithinPushes(world, universe, [], [], class_);
    var more := Missing([class_], Subtypes(world, class_));
    assert Subtypes(world, class_) == [interface_] && [interface_][..0] == [];
    assert more == Missing([class_], [interface_][..0]) + [interface_] == [interface_];
    assert [class_][..0] == [] && [] + [class_] == [class_] && [] + more == more;
    assert Collect(world, universe, [class_], [interface_]) == NoHandler(interface_, [class_]);
  }

  // ----- the table after a history of registrations -----

  ghost predicate AllWithin(world: World, universe: set<T>, base: seq<T>, history: seq<seq<T>>) {
    && Within(world, universe, [], base)
    && forall i :: 0 <= i < |history| ==> SetOf(history[i]) <= universe
  }

  /** `ResetTypes`: the base types and the given types, sorted. */
  ghost function Reset(world: World, universe: set<T>, base: seq<T>, types: seq<T>): (r: Collected)
    requires Within(world, universe, [], base) && SetOf(types) <= universe
    ensures SetOf(r.list) <= universe
  {
    var c := Collect(world, universe, [], base);
    if c.Done? then Sorted(world, Collect(world, universe, c.list, types)) else c
  }

  ghost function Sorted(world: World, c: Collected): (r: Collected)
    ensures SetOf(r.list) == SetOf(c.list)
  {
    if c.Done? then Done(OrderByName(world, c.list)) else c
  }

  /** The table after the constructor and any number of calls of `AddTypes`, one history entry for each. */
  ghost function Table(world: World, universe: set<T>, base: seq<T>, history: seq<seq<T>>): (r: Collected)
    requires AllWithin(world, universe, base, history) && history != []
    ensures SetOf(r.list) <= universe
  {
    var n := |history| - 1;
    if n == 0 then Reset(world, universe, base, history[0])
    else
      var before := Table(world, universe, base, history[..n]);
      if before.Done? then Sorted(world, Collect(world, universe, before.list, history[n])) else before
  }

  /** Everything that was asked for. */
  ghost function Asked(base: seq<T>, history: seq<seq<T>>): set<T> {
    if history == [] then SetOf(base) else Asked(base, history[..|history| - 1]) + SetOf(history[|history| - 1])
  }

  /** The list of a registry that has not failed. */
  ghost predicate Complete(world: World, start: set<T>, list: seq<T>) {
    && Distinct(list) && Closed(world, SetOf(list))
    && (forall t :: t in list <==> Needed(world, start, t))
    && forall t :: t in list ==> Registrable(world, t)
  }

  lemma SortedComplete(world: World, start: set<T>, list: seq<T>)
    requires Complete(world, start, list)
    ensures Complete(world, start, OrderByName(world, list))
  {
    OrderInOrder(world, list, list) by {
      PrefixArranged(world, list, list);
    }
    PermutedDistinct(list, OrderByName(world, list));
  }

  lemma CollectComplete(world: World, universe: set<T>, start: set<T>, list: seq<T>, types: seq<T>)
    requires Within(world, universe, list, types) && Complete(world, start, list)
    requires Collect(world, universe, list, types).Done?
    ensures Complete(world, start + SetOf(types), Collect(world, universe, list, types).list)
  {
    CollectIsLeast(world, universe, list, types);
    var r := Collect(world, universe, list, types).list;
    forall t
      ensures Needed(world, SetOf(list) + SetOf(types), t) <==> Needed(world, start + SetOf(types), t)
    {
      SameClosure(world, start, SetOf(list), SetOf(types), t);
    }
  }

  /** Starting from a set or from the least closed set around it is the same. */
  lemma SameClosure(world: World, start: set<T>, closure: set<T>, types: set<T>, t: T)
    requires forall s :: s in closure <==> Needed(world, start, s)
    ensures Needed(world, closure + types, t) <==> Needed(world, start + types, t)
  {
    forall s | s in start
      ensures s in closure
    {
      assert forall u: set<T> :: InClosed(world, start, s, u);
    }
    if Needed(world, closure + types, t) {
      forall u: set<T>
        ensures InClosed(world, start + types, t, u)
      {
        assert InClosed(world, closure + types, t, u);
        assert forall s :: s in closure ==> InClosed(world, start, s, u);
      }
    }
    if Needed(world, start + types, t) {
      forall u: set<T>
        ensures InClosed(world, closure + types, t, u)
      {
        assert InClosed(world, start + types, t, u);
      }
    }
  }

  /** A table that did not fail lists exactly what was asked for and what that needs. */
  lemma {:induction false} TableComplete(world: World, universe: set<T>, base: seq<T>, history: seq<seq<T>>)
    requires AllWithin(world, universe, base, history) && history != []
    requires Table(world, universe, base, history).Done?
    ensures Complete(world, Asked(base, history), Table(world, universe, base, history).list)
  {
    var n := |history| - 1;
    if n == 0 {
      StartComplete(world, universe, base);
      var c := Collect(world, universe, [], base);
      CollectComplete(world, universe, SetOf(base), c.list, history[0]);
      SortedComplete(world, SetOf(base) + SetOf(history[0]), Collect(world, universe, c.list, history[0]).list);
      assert history[..0] == [];
    } else {
      var before := Table(world, universe, base, history[..n]);
      TableComplete(world, universe, base, history[..n]);
      CollectComplete(world, universe, Asked(base, history[..n]), before.list, history[n]);
      SortedComplete(world, Asked(base, history), Collect(world, universe, before.list, history[n]).list);
    }
  }

  lemma StartComplete(world: World, universe: set<T>, base: seq<T>)
    requires Within(world, universe, [], base) && Collect(world, universe, [], base).Done?
    ensures Complete(world, SetOf(base), Collect(world, universe, [], base).list)
  {
    CollectIsLeast(world, universe, [], base);
    assert SetOf([]) + SetOf(base) == SetOf(base);
  }

  /** However many types are added later: the types a registry began with keep their order among equal names. */
  lemma {:induction false} TableInOrder(world: World, universe: set<T>, base: seq<T>, history: seq<seq<T>>, first: seq<T>)
    requires AllWithin(world, universe, base, history) && history != []
    requires Table(world, universe, base, history).Done?
    requires first <= Collect(world, universe, Collect(world, universe, [], base).list, history[0]).list
    ensures var list := Table(world, universe, base, history).list;
      InOrder(world, first, list) && SetOf(first) <= SetOf(list)
  {
    var n := |history| - 1;
    if n == 0 {
      var c := Collect(world, universe, [], base);
      var r := Collect(world, universe, c.list, history[0]).list;
      StartComplete(world, universe, base);
      CollectIsLeast(world, universe, c.list, history[0]);
      PrefixArranged(world, first, r);
      OrderInOrder(world, first, r);
    } else {
      var before := Table(world, universe, base, history[..n]).list;
      var more := Collect(world, universe, before, history[n]).list;
      TableInOrder(world, universe, base, history[..n], first);
      TableComplete(world, universe, base, history[..n]);
      CollectIsLeast(world, universe, before, history[n]);
      MoreArranged(world, first, before, more);
      OrderInOrder(world, first, more);
    }
  }

  // ----- do the ids depend on the order of registration? -----

  /** No two types besides those the base types need have names that compare equal. */
  ghost predicate NamesDiffer(world: World, first: seq<T>, list: seq<T>) {
    forall a, b :: DifferentNames(world, first, list, a, b)
  }

  ghost predicate DifferentNames(world: World, first: seq<T>, list: seq<T>, a: T, b: T) {
    a in list && b in list && a !in first && b !in first && a != b ==> Rank(world, a) != Rank(world, b)
  }

  /** A history that ends with the same types has the same table. */
  ghost predicate SameTable(world: World, universe: set<T>, base: seq<T>, list: seq<T>, other: seq<seq<T>>) {
    AllWithin(world, universe, base, other) && other != [] ==>
      var c := Table(world, universe, base, other);
      c.Done? && SetOf(c.list) == SetOf(list) ==> c.list == list
  }

  /**
   Two registries that hold the same types have the same list, and so the same ids, however and in
   whatever order the types were registered, exactly when no two types besides those the base types
   need have names that compare equal.
   */
  lemma IdsIndependentOfOrder(world: World, universe: set<T>, base: seq<T>, history: seq<seq<T>>)
    requires AllWithin(world, universe, base, history) && history != []
    requires Table(world, universe, base, history).Done?
    ensures var list := Table(world, universe, base, history).list;
      var first := Collect(world, universe, [], base).list;
      NamesDiffer(world, first, list) <==> forall other :: SameTable(world, universe, base, list, other)
  {
    var list := Table(world, universe, base, history).list;
    var first := Collect(world, universe, [], base).list;
    if NamesDiffer(world, first, list) {
      forall other
        ensures SameTable(world, universe, base, list, other)
      {
        OrderDoesNotMatter(world, universe, base, history, other);
      }
    } else {
      var other := OtherTable(world, universe, base, history);
    }
  }

  /** When two names compare equal, some history ends with the same types in a different order. */
  lemma OtherTable(world: World, universe: set<T>, base: seq<T>, history: seq<seq<T>>) returns (other: seq<seq<T>>)
    requires AllWithin(world, universe, base, history) && history != []
    requires Table(world, universe, base, history).Done?
    requires !NamesDiffer(world, Collect(world, universe, [], base).list, Table(world, universe, base, history).list)
    ensures !SameTable(world, universe, base, Table(world, universe, base, history).list, other)
  {
    var list := Table(world, universe, base, history).list;
    var a, b :| !DifferentNames(world, Collect(world, universe, [], base).list, list, a, b);
    var ab, ba := OrderMatters(world, universe, base, history, a, b);
    other := if Table(world, universe, base, ab).list != list then ab else ba;
  }

  lemma OrderDoesNotMatter(world: World, universe: set<T>, base: seq<T>, history: seq<seq<T>>, other: seq<seq<T>>)
    requires AllWithin(world, universe, base, history) && history != []
    requires Table(world, universe, base, history).Done?
    requires NamesDiffer(world, Collect(world, universe, [], base).list, Table(world, universe, base, history).list)
    ensures SameTable(world, universe, base, Table(world, universe, base, history).list, other)
  {
    var list := Table(world, universe, base, history).list;
    if AllWithin(world, universe, base, other) && other != [] {
      var c := Table(world, universe, base, other);
      if c.Done? && SetOf(c.list) == SetOf(list) {
        var first := Collect(world, universe, [], base).list;
        DoneFromTheStart(world, universe, base, history);
        DoneFromTheStart(world, universe, base, other);
        TableInOrder(world, universe, base, history, first);
        TableInOrder(world, universe, base, other, first);
        TableComplete(world, universe, base, history);
        TableComplete(world, universe, base, other);
        SameMultiset(list, c.list);
        NamesToldApart(world, first, list);
        OneArrangement(world, first, list, c.list);
      }
    }
  }

  lemma {:induction false} DoneFromTheStart(world: World, universe: set<T>, base: seq<T>, history: seq<seq<T>>)
    requires AllWithin(world, universe, base, history) && history != []
    requires Table(world, universe, base, history).Done?
    ensures Collect(world, universe, [], base).Done?
  {
    if |history| > 1 {
      DoneFromTheStart(world, universe, base, history[..|history| - 1]);
    }
  }

  lemma NamesToldApart(world: World, first: seq<T>, list: seq<T>)
    requires NamesDiffer(world, first, list)
    ensures ToldApart(world, first, list)
  {
    forall a, b
      ensures Differ(world, first, list, a, b)
    {
      assert DifferentNames(world, first, list, a, b);
      PlaceOf(first, a);
      PlaceOf(first, b);
    }
  }

  /** Two types with equal names: registries that are given a first and b first have different lists of the same types. */
  lemma OrderMatters(world: World, universe: set<T>, base: seq<T>, history: seq<seq<T>>, a: T, b: T)
    returns (ab: seq<seq<T>>, ba: seq<seq<T>>)
    requires AllWithin(world, universe, base, history) && history != []
    requires Table(world, universe, base, history).Done?
    requires !DifferentNames(world, Collect(world, universe, [], base).list, Table(world, universe, base, history).list, a, b)
    ensures var list := Table(world, universe, base, history).list;
      && ab == [[a], list] && ba == [[b], list]
      && AllWithin(world, universe, base, ab) && AllWithin(world, universe, base, ba)
      && var x, y := Table(world, universe, base, ab), Table(world, universe, base, ba);
         x.Done? && y.Done? && SetOf(x.list) == SetOf(y.list) == SetOf(list) && x.list != y.list
  {
    var list := Table(world, universe, base, history).list;
    ab, ba := [[a], list], [[b], list];
    var i, j := ComesFirst(world, universe, base, history, a, b);
    var k, l := ComesFirst(world, universe, base, history, b, a);
    var x := Table(world, universe, base, ab).list;
    assert Distinct(x) && x[i] == a && x[j] == b;
  }

  /** A registry that is given a first lists a before b. */
  lemma ComesFirst(world: World, universe: set<T>, base: seq<T>, history: seq<seq<T>>, a: T, b: T) returns (i: nat, j: nat)
    requires AllWithin(world, universe, base, history) && history != []
    requires Table(world, universe, base, history).Done?
    requires !DifferentNames(world, Collect(world, universe, [], base).list, Table(world, universe, base, history).list, a, b)
    ensures var list := Table(world, universe, base, history).list; var again := [[a], list];
      && AllWithin(world, universe, base, again)
      && var x := Table(world, universe, base, again);
         x.Done? && Distinct(x.list) && SetOf(x.list) == SetOf(list) && i < j < |x.list| && x.list[i] == a && x.list[j] == b
  {
    var list := Table(world, universe, base, history).list;
    var first := Collect(world, universe, [], base).list;
    var again := [[a], list];
    DoneFromTheStart(world, universe, base, history);
    TableComplete(world, universe, base, history);
    TableInOrder(world, universe, base, history, first);
    RegisterOne(world, universe, base, list, a);
    RegisterAgain(world, universe, base, list, a);
    TableInOrder(world, universe, base, again, first + [a]);
    TableComplete(world, universe, base, again);
    PlaceBehind(first, a, b);
    i, j := FirstComesFirst(world, first + [a], Table(world, universe, base, again).list, a, b);
  }

  ghost predicate Listed(world: World, universe: set<T>, base: seq<T>, list: seq<T>) {
    && Within(world, universe, [], base) && SetOf(list) <= universe
    && Distinct(list) && Closed(world, SetOf(list)) && forall t :: t in list ==> Registrable(world, t)
  }

  /** Types out of a complete list can always be registered, and bring nothing new. */
  lemma CollectListed(world: World, universe: set<T>, base: seq<T>, list: seq<T>, start: set<T>, part: seq<T>, types: seq<T>)
    requires Listed(world, universe, base, list) && Complete(world, start, part)
    requires SetOf(part) <= SetOf(list) && SetOf(types) <= SetOf(list)
    ensures Within(world, universe, part, types)
    ensures var c := Collect(world, universe, part, types);
      c.Done? && SetOf(c.list) <= SetOf(list) && SetOf(types) <= SetOf(c.list) && Complete(world, start + SetOf(types), c.list)
  {
    var all := SetOf(part) + SetOf(types);
    CollectIsLeast(world, universe, part, types);
    forall t | Needed(world, all, t)
      ensures t in list
    {
      assert InClosed(world, all, t, SetOf(list));
    }
    CollectComplete(world, universe, start, part, types);
    var c := Collect(world, universe, part, types);
    forall t | t in types
      ensures t in c.list
    {
      assert forall u: set<T> :: InClosed(world, all, t, u);
    }
  }

  /** A registry that begins with one more type has it directly behind the base types. */
  lemma RegisterOne(world: World, universe: set<T>, base: seq<T>, list: seq<T>, a: T)
    requires Listed(world, universe, base, list) && Collect(world, universe, [], base).Done?
    requires var first := Collect(world, universe, [], base).list; SetOf(first) <= SetOf(list) && a in list && a !in first
    ensures AllWithin(world, universe, base, [[a]])
    ensures var first := Collect(world, universe, [], base).list; var c := Collect(world, universe, first, [a]);
      c.Done? && first + [a] <= c.list && SetOf(c.list) <= SetOf(list)
  {
    var first := Collect(world, universe, [], base).list;
    StartComplete(world, universe, base);
    CollectListed(world, universe, base, list, SetOf(base), first, [a]);
    WithinPushes(world, universe, first, [], a);
    assert [a][..0] == [];
  }

  /** Given the whole list on top, it ends with the same types. */
  lemma RegisterAgain(world: World, universe: set<T>, base: seq<T>, list: seq<T>, a: T)
    requires Listed(world, universe, base, list) && AllWithin(world, universe, base, [[a]]) && SetOf([a]) <= universe
    requires Collect(world, universe, [], base).Done?
    requires var c := Collect(world, universe, Collect(world, universe, [], base).list, [a]); c.Done? && SetOf(c.list) <= SetOf(list)
    ensures AllWithin(world, universe, base, [[a], list])
    ensures var x := Table(world, universe, base, [[a], list]); x.Done? && SetOf(x.list) == SetOf(list)
  {
    var one := [[a]];
    var before := Table(world, universe, base, one);
    assert before == Reset(world, universe, base, [a]);
    TableComplete(world, universe, base, one);
    CollectListed(world, universe, base, list, Asked(base, one), before.list, list);
    assert [[a], list][..1] == one;
  }

  lemma PlaceBehind(first: seq<T>, a: T, b: T)
    requires a !in first && b !in first && a != b
    ensures Place(first + [a], a) < Place(first + [a], b)
  {
    PlaceOf(first + [a], a);
    PlaceOf(first + [a], b);
  }

  // ----- the registry -----

  class Registry {
    const world: World
    const base: seq<T>
    ghost const universe: set<T>
    var handled: set<T>       // the keys of the handler map
    var typeList: seq<T>
    var typeIds: map<T, nat>
    ghost var history: seq<seq<T>>

    /** The tables are those of the history, and the ids are a bijection inverse to the list. */
    ghost predicate Valid()
      reads this
    {
      && AllWithin(world, universe, base, history) && history != []
      && Table(world, universe, base, history) == Done(typeList)
      && handled == SetOf(typeList) && IdsOf(typeIds, typeList)
    }

    constructor (world: World, base: seq<T>, ghost universe: set<T>)
      requires Within(world, universe, [], base)
      ensures this.world == world && this.base == base && this.universe == universe
    {
      this.world, this.base, this.universe := world, base, universe;
      handled, typeList, typeIds, history := {}, [], map[], [];
    }

    /** The tables from scratch: the base types, then the given ones. */
    method ResetTypes(types: seq<T>) returns (c: Collected)
      requires Within(world, universe, [], base) && SetOf(types) <= universe
      modifies this
      ensures c == Reset(world, universe, base, types)
      ensures c.Done? ==> Valid() && history == [types]
      ensures !c.Done? ==> typeList == c.list && handled == SetOf(typeList)
    {
      handled, typeList, typeIds := {}, [], map[];
      c := AddTypesWithoutHash(base);
      if !c.Done? {
        return;
      }
      StartComplete(world, universe, base);
      c := AddTypesWithoutHash(types);
      if !c.Done? {
        return;
      }
      CollectIsLeast(world, universe, Collect(world, universe, [], base).list, types);
      OrderTypes();
      history := [types];
      c := Done(typeList);
    }

    /** More types on top. */
    method AddTypes(types: seq<T>) returns (c: Collected)
      requires Valid() && SetOf(types) <= universe
      modifies this
      ensures c == Table(world, universe, base, old(history) + [types])
      ensures c.Done? ==> Valid() && history == old(history) + [types]
      ensures !c.Done? ==> typeList == c.list && handled == SetOf(typeList)
    {
      ghost var longer := history + [types];
      assert longer[..|longer| - 1] == history;
      TableComplete(world, universe, base, history);
      CollectIsLeast(world, universe, typeList, types);
      c := AddTypesWithoutHash(types);
      if !c.Done? {
        return;
      }
      OrderTypes();
      history := longer;
      c := Done(typeList);
    }

    /** The worklist. */
    method AddTypesWithoutHash(types: seq<T>) returns (c: Collected)
      requires Within(world, universe, typeList, types) && handled == SetOf(typeList)
      modifies this`handled, this`typeList
      ensures c == Collect(world, universe, old(typeList), types)
      ensures typeList == c.list && handled == SetOf(typeList)
    {
      var stack := types;
      while stack != []
        invariant Within(world, universe, typeList, stack) && handled == SetOf(typeList)
        invariant Collect(world, universe, typeList, stack) == Collect(world, universe, old(typeList), types)
        decreases universe - SetOf(typeList), |stack|
      {
        var t := stack[|stack| - 1];
        StackTop(stack);
        WithinPops(world, universe, typeList, stack);
        stack := stack[..|stack| - 1];
        if t in handled {
          continue;
        }
        if t in world.openGeneric {
          return OpenGeneric(t, typeList);
        }
        if t in world.unhandled {
          return NoHandler(t, typeList);
        }
        WithinPushes(world, universe, typeList, stack, t);
        handled := handled + {t};
        typeList := typeList + [t];
        var pushed := Push(t);
        stack := stack + pushed;
      }
      c := Done(typeList);
    }

    /** The subtypes not handled yet, in order. */
    method Push(t: T) returns (pushed: seq<T>)
      requires handled == SetOf(typeList)
      ensures pushed == Missing(typeList, Subtypes(world, t))
      ensures forall s :: s in pushed <==> s in Subtypes(world, t) && s !in handled
    {
      pushed := [];
      var subtypes := Subtypes(world, t);
      for i := 0 to |subtypes|
        invariant pushed == Missing(typeList, subtypes[..i])
      {
        MissingNext(typeList, subtypes, i);
        if subtypes[i] !in handled {
          pushed := pushed + [subtypes[i]];
        }
      }
      assert subtypes[..|subtypes|] == subtypes;
    }

    /** Sorting by name and numbering. */
    method OrderTypes()
      requires Distinct(typeList)
      modifies this`typeList, this`typeIds
      ensures typeList == OrderByName(world, old(typeList)) && IdsOf(typeIds, typeList)
    {
      var sorted := OrderByName(world, typeList);
      PrefixArranged(world, typeList, typeList);
      OrderInOrder(world, typeList, typeList);
      PermutedDistinct(typeList, sorted);
      typeIds := Number(sorted);
      typeList := sorted;
    }

    static method Number(sorted: seq<T>) returns (ids: map<T, nat>)
      requires Distinct(sorted)
      ensures IdsOf(ids, sorted)
    {
      ids := map[];
      for id := 0 to |sorted|
        invariant IdsOf(ids, sorted[..id])
      {
        IdsGrow(ids, sorted[..id], sorted[id]);
        assert sorted[..id + 1] == sorted[..id] + [sorted[id]];
        ids := ids[sorted[id] := id];
      }
      assert sorted[..|sorted|] == sorted;
    }
  }
}
