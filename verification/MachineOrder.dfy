/**
 The order of the list of machines of python/lang_convert/langconv.py: survivors stay in place and branches
 go to the end, so the machines are ordered by the last position where one of them went on although it
 could have cut.  The first of the shortest finished machines has the preferred segmentation.
 */
module MachineOrder {
  import opened Segmentation
  import opened SegmentationOrder
  import opened MachineStep
  import opened MachineList
  import opened Wrappers

  /** For each character fed: whether the machine is, from there on, a branch. */
  function MachineMarks(m: Dictionary, v: View): seq<bool> {
    Marks(m, v.segs) + PartMarks(m, v.pool)
  }

  ghost predicate Comes(m: Dictionary, v: View, w: View) {
    |MachineMarks(m, v)| == |MachineMarks(m, w)| && Less(MachineMarks(m, v), MachineMarks(m, w))
  }

  ghost predicate Ordered(m: Dictionary, vs: seq<View>) {
    forall i, j :: 0 <= i < j < |vs| ==> Comes(m, vs[i], vs[j])
  }

  // ----- one machine, one character -----

  lemma TakenMarks(m: Dictionary, v: View, c: char)
    ensures MachineMarks(m, MachineOf(m, v.segs + [v.pool + [c]], "")) == MachineMarks(m, v) + [false]
  {
    var w := v.pool + [c];
    assert w[..|w| - 1] == v.pool;
    assert (v.segs + [w])[..|v.segs|] == v.segs;
  }

  lemma WaitingMarks(m: Dictionary, v: View, c: char)
    ensures MachineMarks(m, MachineOf(m, v.segs, v.pool + [c])) == MachineMarks(m, v) + [IsWord(m, v.pool + [c])]
  {
    var w := v.pool + [c];
    var marks := PartMarks(m, v.pool);
    forall i | 0 <= i < |w|
      ensures PartMarks(m, w)[i] == (marks + [IsWord(m, w)])[i]
    {
      assert w[..i + 1] == if i < |v.pool| then v.pool[..i + 1] else w;
    }
    assert PartMarks(m, w) == marks + [IsWord(m, w)];
  }

  /** A branch is marked, what the machine itself becomes is not. */
  lemma NextMarks(table: Table, m: Dictionary, v: View, text: string, c: char, x: View)
    requires TableFor(table, m) && Reached(m, v, text)
    ensures SurvivesAs(table, v, c, x) ==> MachineMarks(m, x) == MachineMarks(m, v) + [false]
    ensures BranchesTo(table, v, c, x) ==> MachineMarks(m, x) == MachineMarks(m, v) + [true]
  {
    ReactReached(table, m, v, text, c);
    TakenMarks(m, v, c);
    WaitingMarks(m, v, c);
  }

  lemma LessLast(a: seq<bool>, b: seq<bool>, x: bool, y: bool)
    requires |a| == |b|
    ensures Less(a + [x], b + [y]) <==> (if x == y then Less(a, b) else y)
  {
    assert (a + [x])[..|a|] == a && (b + [y])[..|b|] == b;
  }

  // ----- the list -----

  ghost predicate AllReached(m: Dictionary, vs: seq<View>, text: string) {
    forall v :: v in vs ==> Reached(m, v, text)
  }

  lemma {:induction false} SurvivorsOrdered(table: Table, m: Dictionary, vs: seq<View>, text: string, c: char)
    requires TableFor(table, m) && AllReached(m, vs, text) && Ordered(m, vs)
    ensures Ordered(m, Survivors(table, vs, c))
  {
    if vs != [] {
      var n := |vs| - 1;
      var front, last := vs[..n], ReactTo(table, vs[n], c);
      SurvivorsOrdered(table, m, front, text, c);
      SurvivorsMembers(table, front, c);
      if last.Fed? && last.self.state != FAIL {
        forall x | x in Survivors(table, front, c)
          ensures Comes(m, x, last.self)
        {
          var v :| v in front && SurvivesAs(table, v, c, x);
          NextComes(table, m, vs, text, c, v, x, last.self, false);
        }
        LastComes(m, Survivors(table, front, c), last.self);
      }
    }
  }

  lemma {:induction false} BranchesOrdered(table: Table, m: Dictionary, vs: seq<View>, text: string, c: char)
    requires TableFor(table, m) && AllReached(m, vs, text) && Ordered(m, vs)
    ensures Ordered(m, Branches(table, vs, c))
  {
    if vs != [] {
      var n := |vs| - 1;
      var front, last := vs[..n], ReactTo(table, vs[n], c);
      BranchesOrdered(table, m, front, text, c);
      BranchesMembers(table, front, c);
      if last.Fed? && last.branch.Some? {
        forall x | x in Branches(table, front, c)
          ensures Comes(m, x, last.branch.value)
        {
          var v :| v in front && BranchesTo(table, v, c, x);
          NextComes(table, m, vs, text, c, v, x, last.branch.value, true);
        }
        LastComes(m, Branches(table, front, c), last.branch.value);
      }
    }
  }

  /** Two machines that come from machines in order, both the same way. */
  lemma NextComes(table: Table, m: Dictionary, vs: seq<View>, text: string, c: char, v: View, x: View, y: View, branch: bool)
    requires TableFor(table, m) && AllReached(m, vs, text) && Ordered(m, vs) && vs != [] && v in vs[..|vs| - 1]
    requires if branch then BranchesTo(table, v, c, x) && BranchesTo(table, vs[|vs| - 1], c, y)
             else SurvivesAs(table, v, c, x) && SurvivesAs(table, vs[|vs| - 1], c, y)
    ensures Comes(m, x, y)
  {
    var n := |vs| - 1;
    var i :| 0 <= i < n && vs[i] == v;
    assert Comes(m, vs[i], vs[n]) && vs[i] in vs && vs[n] in vs;
    NextMarks(table, m, v, text, c, x);
    NextMarks(table, m, vs[n], text, c, y);
    LessLast(MachineMarks(m, v), MachineMarks(m, vs[n]), branch, branch);
  }

  lemma LastComes(m: Dictionary, vs: seq<View>, last: View)
    requires Ordered(m, vs) && forall x :: x in vs ==> Comes(m, x, last)
    ensures Ordered(m, vs + [last])
  {
    var all := vs + [last];
    forall i, j | 0 <= i < j < |all|
      ensures Comes(m, all[i], all[j])
    {
      assert all[i] == vs[i] && vs[i] in vs;
    }
  }

  lemma OrderedJoin(m: Dictionary, a: seq<View>, b: seq<View>)
    requires Ordered(m, a) && Ordered(m, b) && forall x, y :: x in a && y in b ==> Comes(m, x, y)
    ensures Ordered(m, a + b)
  {
    var all := a + b;
    forall i, j | 0 <= i < j < |all|
      ensures Comes(m, all[i], all[j])
    {
      assert i < |a| ==> all[i] in a;
      assert j >= |a| ==> all[j] in b && all[j] == b[j - |a|];
      assert i >= |a| ==> all[i] == b[i - |a|];
    }
  }

  /** One round keeps the machines in order. */
  lemma StepKeepsOrder(table: Table, m: Dictionary, vs: seq<View>, text: string, c: char)
    requires TableFor(table, m) && Complete(m, vs, text) && Ordered(m, vs)
    ensures Ordered(m, Step(table, vs, c))
  {
    LiveAreReached(m, vs, text);
    SurvivorsOrdered(table, m, vs, text, c);
    BranchesOrdered(table, m, vs, text, c);
    SurvivorsMembers(table, vs, c);
    BranchesMembers(table, vs, c);
    forall x, y | x in Survivors(table, vs, c) && y in Branches(table, vs, c)
      ensures Comes(m, x, y)
    {
      var v :| v in vs && SurvivesAs(table, v, c, x);
      var w :| w in vs && BranchesTo(table, w, c, y);
      NextMarks(table, m, v, text, c, x);
      NextMarks(table, m, w, text, c, y);
      SameLength(m, v, w, text);
      LessLast(MachineMarks(m, v), MachineMarks(m, w), false, true);
    }
    OrderedJoin(m, Survivors(table, vs, c), Branches(table, vs, c));
  }

  lemma LiveAreReached(m: Dictionary, vs: seq<View>, text: string)
    requires Complete(m, vs, text)
    ensures AllReached(m, vs, text)
  {
    forall v | v in vs
      ensures Reached(m, v, text)
    {
      assert IsLive(m, vs, text, v);
    }
  }

  lemma SameLength(m: Dictionary, v: View, w: View, text: string)
    requires Reached(m, v, text) && Reached(m, w, text)
    ensures |MachineMarks(m, v)| == |MachineMarks(m, w)| == |text|
  {
  }

  // ----- choosing a machine -----

  lemma {:induction false} FinishedOrdered(m: Dictionary, vs: seq<View>)
    requires Ordered(m, vs)
    ensures Ordered(m, Finished(vs))
  {
    if vs != [] {
      var n := |vs| - 1;
      var front := vs[..n];
      FinishedOrdered(m, front);
      FinishedContents(front);
      if vs[n].state == END {
        forall x | x in Finished(front)
          ensures Comes(m, x, vs[n])
        {
          var i :| 0 <= i < n && front[i] == x;
          assert Comes(m, vs[i], vs[n]);
        }
        LastComes(m, Finished(front), vs[n]);
      }
    }
  }

  /** The first of the shortest finished machines has cut the text in the preferred way. */
  lemma PreferredFinished(m: Dictionary, vs: seq<View>, text: string, i: nat)
    requires Complete(m, vs, text) && Ordered(m, vs) && text != ""
    requires IsFirstShortest(Finished(vs), i)
    ensures IsPreferred(m, Finished(vs)[i].segs, text)
  {
    ShortestFinished(m, vs, text, i);
    FinishedOrdered(m, vs);
    FinishedContents(vs);
    var v := Finished(vs)[i];
    assert v in Finished(vs) && IsLive(m, vs, text, v);
    forall other | IsShortest(m, other, text) && other != v.segs
      ensures Precedes(m, v.segs, other)
    {
      var x := MachineOf(m, other, "");
      MachineOfReached(m, other, "", text);
      assert IsLive(m, vs, text, x) && x in Finished(vs);
      assert NoShorter(m, other, text, v.segs) && NoShorter(m, v.segs, text, other);
      var j :| 0 <= j < |Finished(vs)| && Finished(vs)[j] == x;
      assert Comes(m, v, x);
      NoPending(m, v);
      NoPending(m, x);
      PrecedesIsLess(m, v.segs, other);
    }
    assert forall other :: NotBefore(m, v.segs, text, other);
  }

  lemma NoPending(m: Dictionary, v: View)
    requires v.pool == ""
    ensures MachineMarks(m, v) == Marks(m, v.segs)
  {
  }
}
