/**
 The list of machines of python/lang_convert/langconv.py as a search over all segmentations: a
 round over the list keeps it complete and free of duplicates, and the choice of a machine.
 */
module MachineList {
  import opened Segmentation
  import opened MachineStep
  import opened Wrappers
  import opened Sequences

  ghost predicate NoDuplicates<T>(s: seq<T>) {
    s == [] || (s[|s| - 1] !in s[..|s| - 1] && NoDuplicates(s[..|s| - 1]))
  }

  lemma {:induction false} NoDuplicatesAt<T>(s: seq<T>, i: nat)
    requires NoDuplicates(s) && i < |s|
    ensures forall j :: 0 <= j < |s| && j != i ==> s[j] != s[i]
    ensures s[i] !in s[..i] && NoDuplicates(s[..i])
  {
    var n := |s| - 1;
    if i < n {
      NoDuplicatesAt(s[..n], i);
      assert s[..n][..i] == s[..i];
    }
    assert s[i] in s[..i + 1];
    assert forall j :: 0 <= j < n ==> s[j] in s[..n];
  }

  /** The live machines are exactly the reachable ones, each once. */
  ghost predicate Complete(m: Dictionary, vs: seq<View>, text: string) {
    && NoDuplicates(vs)
    && forall v :: IsLive(m, vs, text, v)
  }

  ghost predicate IsLive(m: Dictionary, vs: seq<View>, text: string, v: View) {
    v in vs <==> Reached(m, v, text)
  }

  /**
   One to one with the pairs (segmentation of a prefix, pending stem): every pair has its machine,
   every machine is that of its pair, and no two machines share a pair.
   */
  lemma MachinesArePairs(m: Dictionary, vs: seq<View>, text: string)
    requires Complete(m, vs, text)
    ensures forall segs, pool :: AllWords(m, segs) && Flatten(segs) + pool == text && (pool == "" || IsStem(m, pool))
              ==> MachineOf(m, segs, pool) in vs
    ensures forall v :: v in vs ==> v == MachineOf(m, v.segs, v.pool)
    ensures forall i, j :: 0 <= i < j < |vs| ==> (vs[i].segs, vs[i].pool) != (vs[j].segs, vs[j].pool)
  {
    forall segs, pool | AllWords(m, segs) && Flatten(segs) + pool == text && (pool == "" || IsStem(m, pool))
      ensures MachineOf(m, segs, pool) in vs
    {
      assert IsLive(m, vs, text, MachineOf(m, segs, pool));
    }
    forall v | v in vs
      ensures v == MachineOf(m, v.segs, v.pool)
    {
      assert IsLive(m, vs, text, v);
    }
    forall i, j | 0 <= i < j < |vs|
      ensures (vs[i].segs, vs[i].pool) != (vs[j].segs, vs[j].pool)
    {
      NoDuplicatesAt(vs, j);
    }
  }

  // ----- the list of machines -----

  /** The machines' own reactions that did not fail, in order. */
  function Survivors(table: Table, vs: seq<View>, c: char): seq<View> {
    if vs == [] then []
    else
      var rest := Survivors(table, vs[..|vs| - 1], c);
      var r := ReactTo(table, vs[|vs| - 1], c);
      if r.Fed? && r.self.state != FAIL then rest + [r.self] else rest
  }

  /** The machines branched off, in order. */
  function Branches(table: Table, vs: seq<View>, c: char): seq<View> {
    if vs == [] then []
    else
      var rest := Branches(table, vs[..|vs| - 1], c);
      var r := ReactTo(table, vs[|vs| - 1], c);
      if r.Fed? && r.branch.Some? then rest + [r.branch.value] else rest
  }

  function Step(table: Table, vs: seq<View>, c: char): seq<View> {
    Survivors(table, vs, c) + Branches(table, vs, c)
  }

  lemma {:induction false} SurvivorsMembers(table: Table, vs: seq<View>, c: char)
    ensures forall x :: x in Survivors(table, vs, c) <==> exists v :: v in vs && SurvivesAs(table, v, c, x)
  {
    if vs != [] {
      var n := |vs| - 1;
      SurvivorsMembers(table, vs[..n], c);
      assert vs == vs[..n] + [vs[n]];
      forall x
        ensures x in Survivors(table, vs, c) <==> x in Survivors(table, vs[..n], c) || SurvivesAs(table, vs[n], c, x)
      {
      }
    }
  }

  lemma {:induction false} BranchesMembers(table: Table, vs: seq<View>, c: char)
    ensures forall x :: x in Branches(table, vs, c) <==> exists v :: v in vs && BranchesTo(table, v, c, x)
  {
    if vs != [] {
      var n := |vs| - 1;
      BranchesMembers(table, vs[..n], c);
      assert vs == vs[..n] + [vs[n]];
      forall x
        ensures x in Branches(table, vs, c) <==> x in Branches(table, vs[..n], c) || BranchesTo(table, vs[n], c, x)
      {
      }
    }
  }

  lemma {:induction false} SurvivorsDistinct(table: Table, m: Dictionary, vs: seq<View>, c: char)
    requires NoDuplicates(vs)
    requires forall v, x :: v in vs && SurvivesAs(table, v, c, x) ==> Origin(m, x) == v
    ensures NoDuplicates(Survivors(table, vs, c))
  {
    if vs != [] {
      var n := |vs| - 1;
      SurvivorsDistinct(table, m, vs[..n], c);
      SurvivorsMembers(table, vs[..n], c);
      var r := ReactTo(table, vs[n], c);
      if r.Fed? && r.self.state != FAIL {
        assert SurvivesAs(table, vs[n], c, r.self);
        assert r.self !in Survivors(table, vs[..n], c);
      }
    }
  }

  lemma {:induction false} BranchesDistinct(table: Table, m: Dictionary, vs: seq<View>, c: char)
    requires NoDuplicates(vs)
    requires forall v, x :: v in vs && BranchesTo(table, v, c, x) ==> Origin(m, x) == v
    ensures NoDuplicates(Branches(table, vs, c))
  {
    if vs != [] {
      var n := |vs| - 1;
      BranchesDistinct(table, m, vs[..n], c);
      BranchesMembers(table, vs[..n], c);
      var r := ReactTo(table, vs[n], c);
      if r.Fed? && r.branch.Some? {
        assert BranchesTo(table, vs[n], c, r.branch.value);
        assert r.branch.value !in Branches(table, vs[..n], c);
      }
    }
  }

  /** How the machines of one round relate to those of the round before. */
  ghost predicate StepsFrom(table: Table, vs: seq<View>, c: char, x: View) {
    exists v :: v in vs && (SurvivesAs(table, v, c, x) || BranchesTo(table, v, c, x))
  }

  lemma StepDistinct(table: Table, m: Dictionary, vs: seq<View>, text: string, c: char)
    requires TableFor(table, m) && Complete(m, vs, text)
    ensures NoDuplicates(Step(table, vs, c))
  {
    forall v, x | v in vs && (SurvivesAs(table, v, c, x) || BranchesTo(table, v, c, x))
      ensures Origin(m, x) == v
      ensures !(SurvivesAs(table, v, c, x) && BranchesTo(table, v, c, x))
    {
      assert IsLive(m, vs, text, v);
      StepSound(table, m, v, text, c, x);
    }
    SurvivorsDistinct(table, m, vs, c);
    BranchesDistinct(table, m, vs, c);
    var ss, bs := Survivors(table, vs, c), Branches(table, vs, c);
    SurvivorsMembers(table, vs, c);
    BranchesMembers(table, vs, c);
    forall i, j | 0 <= i < |ss| && 0 <= j < |bs|
      ensures ss[i] != bs[j]
    {
      assert ss[i] in ss && bs[j] in bs;
    }
    DistinctJoin(ss, bs);
  }

  lemma {:induction false} DistinctJoin<T>(a: seq<T>, b: seq<T>)
    requires NoDuplicates(a) && NoDuplicates(b)
    requires forall i, j :: 0 <= i < |a| && 0 <= j < |b| ==> a[i] != b[j]
    ensures NoDuplicates(a + b)
  {
    if b == [] {
      assert a + b == a;
    } else {
      DistinctJoin(a, b[..|b| - 1]);
      assert (a + b)[..|a + b| - 1] == a + b[..|b| - 1];
    }
  }

  /** One round over the list keeps it complete: nothing missing, spurious or duplicated. */
  lemma StepKeepsComplete(table: Table, m: Dictionary, vs: seq<View>, text: string, c: char)
    requires TableFor(table, m) && Complete(m, vs, text)
    ensures Complete(m, Step(table, vs, c), text + [c])
  {
    StepDistinct(table, m, vs, text, c);
    SurvivorsMembers(table, vs, c);
    BranchesMembers(table, vs, c);
    forall x
      ensures IsLive(m, Step(table, vs, c), text + [c], x)
    {
      if StepsFrom(table, vs, c, x) {
        var v :| v in vs && (SurvivesAs(table, v, c, x) || BranchesTo(table, v, c, x));
        assert IsLive(m, vs, text, v);
        StepSound(table, m, v, text, c, x);
      }
      if Reached(m, x, text + [c]) {
        StepComplete(table, m, x, text, c);
        assert IsLive(m, vs, text, Origin(m, x));
      }
    }
  }

  lemma {:induction false} WordsAreNotEmpty(m: Dictionary, ws: seq<string>)
    requires AllWords(m, ws)
    ensures |ws| <= |Flatten(ws)|
  {
    if ws != [] {
      assert IsWord(m, ws[|ws| - 1]);
      WordsAreNotEmpty(m, ws[..|ws| - 1]);
    }
  }

  lemma FreshComplete(m: Dictionary)
    ensures Complete(m, [FRESH_VIEW], "")
  {
    forall v
      ensures IsLive(m, [FRESH_VIEW], "", v)
    {
      if Reached(m, v, "") {
        WordsAreNotEmpty(m, v.segs);
      }
    }
  }

  // ----- choosing a machine -----

  /** The first of the machines with the fewest words: what a stable sort by length puts in front. */
  predicate IsFirstShortest(vs: seq<View>, i: nat) {
    && i < |vs|
    && (forall j :: 0 <= j < |vs| ==> vs[i].len <= vs[j].len)
    && (forall j :: 0 <= j < i ==> vs[i].len < vs[j].len)
  }

  function Finished(vs: seq<View>): seq<View> {
    if vs == [] then []
    else
      var rest := Finished(vs[..|vs| - 1]);
      if vs[|vs| - 1].state == END then rest + [vs[|vs| - 1]] else rest
  }

  lemma {:induction false} FinishedContents(vs: seq<View>)
    ensures forall v :: v in Finished(vs) <==> v in vs && v.state == END
  {
    if vs != [] {
      FinishedContents(vs[..|vs| - 1]);
      assert vs == vs[..|vs| - 1] + [vs[|vs| - 1]];
    }
  }

  /** The chosen machine has cut the whole text into the fewest words possible. */
  lemma ShortestFinished(m: Dictionary, vs: seq<View>, text: string, i: nat)
    requires Complete(m, vs, text) && text != ""
    requires IsFirstShortest(Finished(vs), i)
    ensures var v := Finished(vs)[i];
      IsShortest(m, v.segs, text) && v.final == TranslateAll(m, v.segs)
  {
    FinishedContents(vs);
    var v := Finished(vs)[i];
    assert v in Finished(vs) && IsLive(m, vs, text, v);
    forall other | IsSegmentation(m, other, text)
      ensures |v.segs| <= |other|
    {
      MachineOfReached(m, other, "", text);
      assert IsLive(m, vs, text, MachineOf(m, other, ""));
      assert MachineOf(m, other, "") in Finished(vs);
    }
    assert forall other :: NoShorter(m, v.segs, text, other);
  }

  /** Some machine has always cut the whole text: the one that takes every character alone. */
  lemma SomeFinished(m: Dictionary, vs: seq<View>, text: string)
    requires Complete(m, vs, text)
    ensures vs != [] && (text != "" ==> Finished(vs) != [])
  {
    SinglesCut(m, text);
    MachineOfReached(m, Singles(text), "", text);
    assert IsLive(m, vs, text, MachineOf(m, Singles(text), ""));
    FinishedContents(vs);
  }

  lemma {:induction false} AllFinished(vs: seq<View>)
    requires forall v :: v in vs ==> v.state == END
    ensures Finished(vs) == vs
  {
    if vs != [] {
      AllFinished(vs[..|vs| - 1]);
    }
  }

  /** When no machine waits, nothing is pending: the text so far can be committed. */
  lemma NoWaitingNothingPending(m: Dictionary, vs: seq<View>, text: string)
    requires Complete(m, vs, text)
    requires forall v :: v in vs ==> v.state == END
    ensures NothingPending(m, text)
  {
    forall ws, p | AllWords(m, ws) && Flatten(ws) + p == text && IsStem(m, p)
      ensures p == ""
    {
      MachineOfReached(m, ws, p, text);
      assert IsLive(m, vs, text, MachineOf(m, ws, p));
    }
    assert forall ws, p :: NotPending(m, ws, p, text);
  }
}
