/** Tables of ids: the id of an entry is its position in a list. */
module IdTables {
  function IndexOf<T(==)>(s: seq<T>, x: T): (i: nat)
    requires x in s
    ensures i < |s| && s[i] == x
  {
    if s[0] == x then 0 else 1 + IndexOf(s[1..], x)
  }

  /** An id table is the inverse of a list: every entry's id is its position. */
  ghost predicate IdsOf<T(!new)>(ids: map<T, nat>, list: seq<T>) {
    |ids| == |list| && forall x :: HasId(ids, list, x)
  }

  ghost predicate HasId<T>(ids: map<T, nat>, list: seq<T>, x: T) {
    (x in ids <==> x in list) && (x in ids ==> ids[x] == IndexOf(list, x))
  }

  lemma {:induction false} IndexOfAppend<T>(list: seq<T>, x: T, y: T)
    ensures x in list ==> IndexOf(list + [y], x) == IndexOf(list, x)
    ensures x !in list && x == y ==> IndexOf(list + [y], x) == |list|
  {
    if list != [] {
      assert (list + [y])[1..] == list[1..] + [y];
      IndexOfAppend(list[1..], x, y);
    }
  }

  lemma HasIdGrows<T(!new)>(ids: map<T, nat>, list: seq<T>, x: T, y: T)
    requires HasId(ids, list, x) && HasId(ids, list, y) && x !in list
    ensures HasId(ids[x := |list|], list + [x], y)
  {
    IndexOfAppend(list, y, x);
  }

  lemma IdsGrow<T(!new)>(ids: map<T, nat>, list: seq<T>, x: T)
    requires IdsOf(ids, list) && x !in list
    ensures IdsOf(ids[x := |ids|], list + [x])
  {
    var ids', list' := ids[x := |list|], list + [x];
    assert HasId(ids, list, x);
    assert ids'.Keys == ids.Keys + {x};
    forall y
      ensures HasId(ids', list', y)
    {
      assert HasId(ids, list, y);
      HasIdGrows(ids, list, x, y);
    }
  }
}
