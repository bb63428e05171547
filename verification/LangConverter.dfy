/**
 `StatesMachine` and `Converter` of python/lang_convert/langconv.py as the mutable objects they
 are, proved against the search of MachineList, and the optimality of the whole conversion.
 */
module LangConverter {
  import opened Segmentation
  import opened MachineStep
  import opened MachineList
  import opened SegmentationOrder
  import opened MachineOrder
  import opened ConvertTable
  import opened Sequences
  import opened Wrappers

  class StatesMachine {
    var state: State
    var final: string
    var len: nat
    var pool: string
    ghost var segs: seq<string>

    ghost function Value(): View
      reads this
    {
      View(state, final, len, pool, segs)
    }

    constructor ()
      ensures Value() == FRESH_VIEW
    {
      state, final, len, pool, segs := START, "", 0, "", [];
    }

    /** The deep copy that `clone` starts from. */
    constructor Copy(other: StatesMachine)
      ensures Value() == other.Value()
    {
      state, final, len, pool, segs := other.state, other.final, other.len, other.pool, other.segs;
    }

    method Clone(pool: string) returns (twin: StatesMachine)
      ensures fresh(twin) && twin.Value() == Value().Waiting(pool)
    {
      twin := new StatesMachine.Copy(this);
      twin.state := WAIT_TAIL;
      twin.pool := pool;
    }

    /** The translated word is added; `state` is set by the caller. */
    method Take(node: Node)
      modifies this
      ensures Value() == old(Value()).(final := old(final) + node.toWord, len := old(len) + 1, segs := old(segs) + [node.fromWord])
    {
      final := final + node.toWord;
      len := len + 1;
      segs := segs + [node.fromWord];
    }

    /** `raised` stands for the StatesMachineException. */
    method Feed(c: char, convertMap: ConvertMap) returns (twin: StatesMachine?, raised: bool)
      modifies this
      ensures var r := old(ReactTo(convertMap.entries, Value(), c));
        if r.Raised? then raised && twin == null && Value() == old(Value())
        else !raised && Value() == r.self
             && (r.branch == None ==> twin == null)
             && (r.branch.Some? ==> twin != null && fresh(twin) && twin.Value() == r.branch.value)
      decreases state == END
    {
      var node := convertMap.Get(pool + [c]);
      var cond := node.Cond();
      twin, raised := null, false;
      if cond == ERROR {
        state := FAIL;
      } else if cond == TAIL {
        if state == WAIT_TAIL && node.IsOriginalLongWord() {
          state := FAIL;
        } else {
          Take(node);
          pool := "";
          state := END;
        }
      } else if state == START || state == WAIT_TAIL {
        if cond == MATCHED_SWITCH {
          twin := Clone(node.fromWord);
          Take(node);
          state := END;
          pool := "";
        } else if state == START {
          twin := Clone(node.fromWord);
          Take(node);
          state := END;
        } else if node.IsFollow(pool) {
          assert false; // the looked-up word is the pool plus one character: dead code in the original
        } else {
          pool := node.fromWord;
        }
      } else if state == END {
        // a finished machine starts over
        state := START;
        twin, raised := Feed(c, convertMap);
      } else {
        raised := true;
      }
    }

    /** `__len__`: at least 1, so that a machine is always true in a condition. */
    function Length(): (n: nat)
      reads this
      ensures n > 0
    {
      len + 1
    }
  }

  /** Distinct objects, all of them in `repr`. */
  ghost predicate Owned(ms: seq<StatesMachine>, repr: set<StatesMachine>) {
    NoDuplicates(ms) && forall i :: 0 <= i < |ms| ==> ms[i] in repr
  }

  lemma OthersDiffer(ms: seq<StatesMachine>, n: nat)
    requires NoDuplicates(ms) && n < |ms|
    ensures forall i :: 0 <= i < |ms| && i != n ==> ms[i] != ms[n]
  {
  }

  lemma OwnedJoin(ms: seq<StatesMachine>, others: seq<StatesMachine>, repr: set<StatesMachine>, more: set<StatesMachine>)
    requires Owned(ms, repr) && Owned(others, more) && repr !! more
    ensures Owned(ms, repr + more) && Owned(ms + others, repr + more)
    ensures Views(ms + others) == Views(ms) + Views(others)
  {
    DistinctJoin(ms, others);
  }

  ghost function Views(ms: seq<StatesMachine>): seq<View>
    reads ms
  {
    seq(|ms|, i requires 0 <= i < |ms| reads ms => ms[i].Value())
  }

  /** What has been written out is the translation of the preferred segmentation of what was committed. */
  ghost predicate Committed(m: Dictionary, final: string, done: string, segs: seq<string>) {
    && IsBoundary(m, done)
    && IsPreferred(m, segs, done)
    && final == TranslateAll(m, segs)
  }

  /** What the chosen machine's words add to the segmentation committed before. */
  lemma ChosenJoins(m: Dictionary, final: string, done: string, segs: seq<string>, vs: seq<View>, text: string, i: nat)
    requires Committed(m, final, done, segs)
    requires Complete(m, vs, text) && Ordered(m, vs) && text != ""
    requires IsFirstShortest(Finished(vs), i)
    ensures var v := Finished(vs)[i];
      && IsPreferred(m, segs + v.segs, done + text)
      && final + v.final == TranslateAll(m, segs + v.segs)
  {
    var v := Finished(vs)[i];
    ShortestFinished(m, vs, text, i);
    PreferredFinished(m, vs, text, i);
    PreferredJoins(m, done, segs, text, v.segs);
    TranslateConcat(m, segs, v.segs);
  }

  /** A commit while no machine waits: the result stays best whatever is fed afterwards. */
  lemma CommitKeeps(m: Dictionary, final: string, done: string, segs: seq<string>, vs: seq<View>, text: string, i: nat)
    requires Committed(m, final, done, segs)
    requires Complete(m, vs, text) && Ordered(m, vs) && text != ""
    requires forall v :: v in vs ==> v.state == END
    requires IsFirstShortest(vs, i)
    ensures Committed(m, final + vs[i].final, done + text, segs + vs[i].segs)
  {
    AllFinished(vs);
    ChosenJoins(m, final, done, segs, vs, text, i);
    NoWaitingNothingPending(m, vs, text);
    BoundaryExtends(m, done, text);
  }

  lemma EndIsBest(m: Dictionary, final: string, done: string, segs: seq<string>, vs: seq<View>, text: string, result: string)
    requires Committed(m, final, done, segs)
    requires Complete(m, vs, text) && Ordered(m, vs)
    requires if Finished(vs) == [] then result == final
             else exists i: nat :: IsFirstShortest(Finished(vs), i) && result == final + Finished(vs)[i].final
    ensures IsBestTranslation(m, done + text, result) && final <= result
  {
    if text == "" {
      FinishedAtStart(m, vs);
      assert done + text == done;
    } else {
      SomeFinished(m, vs, text);
      var i: nat :| IsFirstShortest(Finished(vs), i) && result == final + Finished(vs)[i].final;
      ChosenJoins(m, final, done, segs, vs, text, i);
    }
  }

  /**
   The contract of `convert`: the translation of the whole text cut into the fewest words possible, and of
   the ways to do so the one that comes first in the order of SegmentationOrder.
   */
  ghost predicate IsBestTranslation(m: Dictionary, text: string, result: string) {
    exists ws :: IsPreferred(m, ws, text) && result == TranslateAll(m, ws)
  }

  /** There is one best translation only. */
  lemma BestIsUnique(m: Dictionary, text: string, a: string, b: string)
    requires IsBestTranslation(m, text, a) && IsBestTranslation(m, text, b)
    ensures a == b
  {
    var x :| IsPreferred(m, x, text) && a == TranslateAll(m, x);
    var y :| IsPreferred(m, y, text) && b == TranslateAll(m, y);
    PreferredIsUnique(m, x, y, text);
  }

  lemma FreshList(m: Dictionary, vs: seq<View>)
    requires vs == [FRESH_VIEW]
    ensures Complete(m, vs, "") && Ordered(m, vs)
  {
    FreshComplete(m);
  }

  /** A text none of whose words is mapped to another one comes out as it is, also where a key is mapped to "". */
  lemma NothingToConvert(m: Dictionary, text: string, result: string)
    requires IsBestTranslation(m, text, result)
    requires forall i, j :: 0 <= i <= j <= |text| && text[i..j] in m ==> m[text[i..j]] == "" || m[text[i..j]] == text[i..j]
    ensures result == text
  {
    var ws :| IsPreferred(m, ws, text) && result == TranslateAll(m, ws);
    WordsStay(m, ws, text);
  }

  lemma {:induction false} WordsStay(m: Dictionary, ws: seq<string>, text: string)
    requires Flatten(ws) <= text
    requires forall i, j :: 0 <= i <= j <= |text| && text[i..j] in m ==> m[text[i..j]] == "" || m[text[i..j]] == text[i..j]
    ensures TranslateAll(m, ws) == Flatten(ws)
  {
    if ws != [] {
      var n := |ws| - 1;
      var i, j := |Flatten(ws[..n])|, |Flatten(ws)|;
      assert Flatten(ws) == text[..j] && Flatten(ws[..n]) == text[..i];
      assert ws[n] == text[i..j];
      WordsStay(m, ws[..n], text);
    }
  }

  class Converter {
    const convertMap: ConvertMap
    var machines: seq<StatesMachine>
    var final: string
    ghost var Repr: set<StatesMachine>
    ghost var done: string          // the text committed to `final`
    ghost var doneSegs: seq<string> // the segmentation it was committed with
    ghost var text: string          // the text fed since the last commit

    ghost predicate Valid()
      reads this, convertMap, Repr
    {
      && convertMap.Valid()
      && Owned(machines, Repr)
      && Complete(convertMap.dictionary, Views(machines), text)
      && Ordered(convertMap.dictionary, Views(machines))
      && Committed(convertMap.dictionary, final, done, doneSegs)
    }

    constructor (convertMap: ConvertMap)
      requires convertMap.Valid()
      ensures Valid() && this.convertMap == convertMap && fresh(Repr)
      ensures final == "" && done == "" && text == ""
    {
      this.convertMap := convertMap;
      machines := [];
      Repr := {};
      final := "";
      new;
      Start();
    }

    method Start()
      requires convertMap.Valid()
      modifies this
      ensures Valid() && fresh(Repr)
      ensures final == "" && done == "" && text == ""
    {
      var machine := new StatesMachine();
      machines := [machine];
      Repr := {machine};
      final := "";
      done, doneSegs, text := "", [], "";
      FreshComplete(convertMap.dictionary);
      EmptyBoundary(convertMap.dictionary);
      EmptyIsPreferred(convertMap.dictionary);
      assert Views(machines) == [FRESH_VIEW];
    }

    /** Stable sort by length and take the front: the first machine with the fewest words. */
    method Front() returns (i: nat)
      requires machines != []
      ensures IsFirstShortest(Views(machines), i)
    {
      i := 0;
      for j := 1 to |machines|
        invariant 0 <= i < j
        invariant forall k :: 0 <= k < j ==> machines[i].len <= machines[k].len
        invariant forall k :: 0 <= k < i ==> machines[i].len < machines[k].len
      {
        if machines[j].Length() < machines[i].Length() {
          i := j;
        }
      }
    }

    method Clean()
      modifies this`machines, this`final, this`Repr
      ensures fresh(Repr) && Views(machines) == [FRESH_VIEW] && Owned(machines, Repr)
      ensures old(machines) == [] ==> final == old(final)
      ensures old(machines) != [] ==> exists i: nat :: IsFirstShortest(old(Views(machines)), i) && final == old(final) + old(Views(machines))[i].final
    {
      if |machines| > 0 {
        var i := Front();
        assert IsFirstShortest(old(Views(machines)), i);
        final := final + machines[i].final;
      }
      var machine := new StatesMachine();
      machines := [machine];
      Repr := {machine};
    }

    /** The body of the loop over the machines: feeds one and appends its branch, if any. */
    method FeedOne(machine: StatesMachine, c: char, branches: seq<StatesMachine>, ghost owners: set<StatesMachine>, ghost r: Outcome)
      returns (more: seq<StatesMachine>, ghost moreOwners: set<StatesMachine>)
      requires machine !in owners && Owned(branches, owners)
      requires r.Fed? && r == ReactTo(convertMap.entries, machine.Value(), c)
      modifies machine
      ensures machine.Value() == r.self
      ensures Owned(more, moreOwners) && owners <= moreOwners && fresh(moreOwners - owners)
      ensures Views(more) == old(Views(branches)) + OneOrNone(r.branch)
    {
      ghost var before := Views(branches);
      var twin, raised := machine.Feed(c, convertMap);
      assert !raised;
      more, moreOwners := branches, owners;
      assert Views(branches) == before;
      if twin != null && twin.Length() != 0 {
        more, moreOwners := branches + [twin], owners + {twin};
        assert Views(more) == before + [twin.Value()];
      }
    }

    /** Feeds every machine; collects the branches. */
    method FeedAll(c: char, ghost rs: seq<Outcome>) returns (branches: seq<StatesMachine>, ghost more: set<StatesMachine>)
      requires Owned(machines, Repr) && |rs| == |machines|
      requires forall i :: 0 <= i < |rs| ==> rs[i].Fed? && rs[i] == ReactTo(convertMap.entries, machines[i].Value(), c)
      modifies Repr
      ensures forall i :: 0 <= i < |machines| ==> machines[i].Value() == rs[i].self
      ensures fresh(more) && Owned(branches, more)
      ensures Views(branches) == BranchesOf(rs)
    {
      branches, more := [], {};
      var ms := machines;
      for n := 0 to |ms|
        invariant forall i :: 0 <= i < n ==> ms[i].Value() == rs[i].self
        invariant forall i :: n <= i < |ms| ==> ms[i].Value() == old(ms[i].Value())
        invariant fresh(more) && Owned(branches, more)
        invariant Views(branches) == BranchesOf(rs[..n])
      {
        OthersDiffer(ms, n);
        assert rs[..n + 1][..n] == rs[..n];
        branches, more := FeedOne(ms[n], c, branches, more, rs[n]);
      }
      assert rs[..|ms|] == rs;
    }

    /** The list comprehension that drops failed machines. */
    static method DropFailed(ms: seq<StatesMachine>, ghost repr: set<StatesMachine>) returns (kept: seq<StatesMachine>)
      requires Owned(ms, repr)
      ensures Views(kept) == Alive(Views(ms)) && Owned(kept, repr)
    {
      kept := [];
      ghost var vs := Views(ms);
      for n := 0 to |ms|
        invariant Views(kept) == Alive(vs[..n]) && Owned(kept, repr)
        invariant forall i :: 0 <= i < |kept| ==> kept[i] in ms[..n]
      {
        NoDuplicatesAt(ms, n);
        assert vs[..n + 1][..n] == vs[..n];
        if ms[n].state != FAIL {
          assert Views(kept + [ms[n]]) == Views(kept) + [vs[n]];
          kept := kept + [ms[n]];
        }
      }
      assert vs[..|ms|] == vs;
    }

    /** The list comprehension of `end`; there are no failed machines to keep. */
    static method DropWaiting(ms: seq<StatesMachine>, ghost repr: set<StatesMachine>) returns (kept: seq<StatesMachine>)
      requires Owned(ms, repr)
      requires forall v :: v in Views(ms) ==> v.state != FAIL
      ensures Views(kept) == Finished(Views(ms)) && Owned(kept, repr)
    {
      kept := [];
      ghost var vs := Views(ms);
      for n := 0 to |ms|
        invariant Views(kept) == Finished(vs[..n]) && Owned(kept, repr)
        invariant forall i :: 0 <= i < |kept| ==> kept[i] in ms[..n]
      {
        NoDuplicatesAt(ms, n);
        assert vs[..n + 1][..n] == vs[..n];
        assert vs[n] in vs;
        if ms[n].state == FAIL || ms[n].state == END {
          assert Views(kept + [ms[n]]) == Views(kept) + [vs[n]];
          kept := kept + [ms[n]];
        }
      }
      assert vs[..|ms|] == vs;
    }

    method AllOk() returns (ok: bool)
      ensures ok <==> forall v :: v in Views(machines) ==> v.state == END
    {
      ok := true;
      ghost var vs := Views(machines);
      for n := 0 to |machines|
        invariant ok <==> forall v :: v in vs[..n] ==> v.state == END
      {
        assert vs[..n + 1] == vs[..n] + [vs[n]];
        if machines[n].state != END {
          ok := false;
        }
      }
      assert vs[..|machines|] == vs;
    }

    /** Feeds every machine and extends the list by the branches. */
    method Extend(c: char, ghost rs: seq<Outcome>)
      requires Owned(machines, Repr) && |rs| == |machines|
      requires forall i :: 0 <= i < |rs| ==> rs[i].Fed? && rs[i] == ReactTo(convertMap.entries, machines[i].Value(), c)
      modifies this`machines, this`Repr, Repr
      ensures Owned(machines, Repr) && fresh(Repr - old(Repr))
      ensures Views(machines) == SelvesOf(rs) + BranchesOf(rs)
    {
      ghost var more: set<StatesMachine>;
      var branches;
      branches, more := FeedAll(c, rs);
      assert Views(machines) == SelvesOf(rs);
      OwnedJoin(machines, branches, Repr, more);
      Repr := Repr + more;
      if branches != [] {
        machines := machines + branches;
      }
    }

    /** One round without the commit: feed, extend, drop what failed. */
    method Advance(c: char, ghost rs: seq<Outcome>)
      requires Owned(machines, Repr) && |rs| == |machines|
      requires forall i :: 0 <= i < |rs| ==> rs[i].Fed? && rs[i] == ReactTo(convertMap.entries, machines[i].Value(), c)
      modifies this`machines, this`Repr, Repr
      ensures Owned(machines, Repr) && fresh(Repr - old(Repr))
      ensures Views(machines) == Alive(SelvesOf(rs) + BranchesOf(rs))
    {
      Extend(c, rs);
      var kept := DropFailed(machines, Repr);
      ghost var alive := Views(kept);
      machines := kept;
      assert Views(machines) == alive;
    }

    /** The commit: everything fed so far is written out, and nothing else is. */
    method CommitAll()
      requires convertMap.Valid() && Complete(convertMap.dictionary, Views(machines), text) && text != ""
      requires Ordered(convertMap.dictionary, Views(machines))
      requires Committed(convertMap.dictionary, final, done, doneSegs)
      requires forall v :: v in Views(machines) ==> v.state == END
      modifies this
      ensures Valid() && fresh(Repr)
      ensures done == old(done + text) && text == "" && old(final) <= final
    {
      ghost var m, before, chosen, vs := convertMap.dictionary, final, doneSegs, Views(machines);
      SomeFinished(m, vs, text);
      Clean();
      ghost var i: nat :| IsFirstShortest(vs, i) && final == before + vs[i].final;
      CommitKeeps(m, before, done, chosen, vs, text, i);
      done, doneSegs, text := done + text, chosen + vs[i].segs, "";
      assert Views(machines) == [FRESH_VIEW];
      FreshList(m, Views(machines));
    }

    /** The part of `feed` before the commit. */
    method Round(c: char)
      requires Valid()
      modifies this`machines, this`Repr, this`text, Repr
      ensures Valid() && fresh(Repr - old(Repr))
      ensures text == old(text) + [c] && done + text == old(done + text) + [c]
    {
      ghost var table, m, vs := convertMap.entries, convertMap.dictionary, Views(machines);
      RoundKeepsComplete(table, m, vs, text, c);
      Advance(c, Outcomes(table, vs, c));
      Grouped(done, text, [c]);
      text := text + [c];
    }

    /**
     Everything fed so far is committed as soon as, and only when, no way to cut what was fed since the last
     commit leaves a key open.
     */
    method Feed(c: char) returns (result: string)
      requires Valid()
      modifies this, Repr
      ensures Valid() && fresh(Repr - old(Repr))
      ensures done + text == old(done + text) + [c]
      ensures if NothingPending(convertMap.dictionary, old(text) + [c]) then text == "" else text == old(text) + [c] && final == old(final)
      ensures result == final && old(final) <= final
    {
      Round(c);
      var ok := AllOk();
      PendingMeansWaiting(convertMap.dictionary, Views(machines), text);
      if ok {
        CommitAll();
      }
      result := final;
    }

    method End()
      requires Valid()
      modifies this
      ensures fresh(Repr) && Owned(machines, Repr) && Views(machines) == [FRESH_VIEW]
      ensures old(final) <= final
      ensures IsBestTranslation(convertMap.dictionary, old(done + text), final)
    {
      ghost var vs := Views(machines);
      ghost var m := convertMap.dictionary;
      NoneFailed(m, vs, text);
      ghost var before := final;
      machines := DropWaiting(machines, Repr);
      assert machines == [] <==> Finished(vs) == [];
      Clean();
      EndIsBest(m, before, done, doneSegs, vs, text, final);
    }

    /** For every dictionary and every text, the result is the best translation, whatever was fed before. */
    method Convert(s: string) returns (result: string)
      requires convertMap.Valid()
      modifies this
      ensures IsBestTranslation(convertMap.dictionary, s, result)
    {
      Start();
      for n := 0 to |s|
        invariant Valid() && fresh(Repr)
        invariant done + text == s[..n]
      {
        var _ := Feed(s[n]);
        assert s[..n + 1] == s[..n] + [s[n]];
      }
      assert s[..|s|] == s;
      End();
      result := final;
    }
  }

  function Alive(vs: seq<View>): seq<View> {
    if vs == [] then []
    else
      var rest := Alive(vs[..|vs| - 1]);
      if vs[|vs| - 1].state != FAIL then rest + [vs[|vs| - 1]] else rest
  }

  lemma {:induction false} AliveJoin(a: seq<View>, b: seq<View>)
    ensures Alive(a + b) == Alive(a) + Alive(b)
  {
    if b == [] {
      assert a + b == a;
    } else {
      assert (a + b)[..|a + b| - 1] == a + b[..|b| - 1];
      AliveJoin(a, b[..|b| - 1]);
    }
  }

  ghost function OneOrNone(v: Option<View>): seq<View> {
    if v.Some? then [v.value] else []
  }

  ghost predicate NoneRaises(table: Table, vs: seq<View>, c: char) {
    forall v :: v in vs ==> ReactTo(table, v, c).Fed?
  }

  /** What every machine makes of the character. */
  ghost function Outcomes(table: Table, vs: seq<View>, c: char): (rs: seq<Outcome>)
    requires NoneRaises(table, vs, c)
    ensures forall i :: 0 <= i < |rs| ==> rs[i].Fed?
  {
    seq(|vs|, i requires 0 <= i < |vs| => assert vs[i] in vs; ReactTo(table, vs[i], c))
  }

  /** The machines' own new fields, failed ones included. */
  ghost function SelvesOf(rs: seq<Outcome>): seq<View>
    requires forall i :: 0 <= i < |rs| ==> rs[i].Fed?
  {
    seq(|rs|, i requires 0 <= i < |rs| => rs[i].self)
  }

  ghost function BranchesOf(rs: seq<Outcome>): seq<View>
    requires forall i :: 0 <= i < |rs| ==> rs[i].Fed?
  {
    if rs == [] then [] else BranchesOf(rs[..|rs| - 1]) + OneOrNone(rs[|rs| - 1].branch)
  }

  /** The exception is unreachable. */
  lemma ReachedNeverRaise(table: Table, m: Dictionary, vs: seq<View>, text: string, c: char)
    requires TableFor(table, m) && Complete(m, vs, text)
    ensures NoneRaises(table, vs, c)
  {
    forall v | v in vs
      ensures ReactTo(table, v, c).Fed?
    {
      assert IsLive(m, vs, text, v);
      ReactReached(table, m, v, text, c);
    }
  }

  /** Extending the list and then dropping failures is one step of the search. */
  lemma StepIsAlive(table: Table, vs: seq<View>, c: char)
    requires NoneRaises(table, vs, c)
    ensures var rs := Outcomes(table, vs, c);
      Alive(SelvesOf(rs) + BranchesOf(rs)) == Step(table, vs, c)
  {
    var rs := Outcomes(table, vs, c);
    AliveJoin(SelvesOf(rs), BranchesOf(rs));
    SurvivorsAreAlive(table, vs, c);
    BranchesAreAlive(table, vs, c);
  }

  lemma RoundKeepsComplete(table: Table, m: Dictionary, vs: seq<View>, text: string, c: char)
    requires TableFor(table, m) && Complete(m, vs, text) && Ordered(m, vs)
    ensures NoneRaises(table, vs, c)
    ensures var next := Alive(SelvesOf(Outcomes(table, vs, c)) + BranchesOf(Outcomes(table, vs, c)));
      Complete(m, next, text + [c]) && Ordered(m, next)
  {
    ReachedNeverRaise(table, m, vs, text, c);
    StepIsAlive(table, vs, c);
    StepKeepsComplete(table, m, vs, text, c);
    StepKeepsOrder(table, m, vs, text, c);
  }

  lemma {:induction false} SurvivorsAreAlive(table: Table, vs: seq<View>, c: char)
    requires NoneRaises(table, vs, c)
    ensures Alive(SelvesOf(Outcomes(table, vs, c))) == Survivors(table, vs, c)
  {
    if vs != [] {
      var n := |vs| - 1;
      SurvivorsAreAlive(table, vs[..n], c);
      assert SelvesOf(Outcomes(table, vs, c))[..n] == SelvesOf(Outcomes(table, vs[..n], c));
    }
  }

  lemma {:induction false} BranchesAreAlive(table: Table, vs: seq<View>, c: char)
    requires NoneRaises(table, vs, c)
    ensures var bs := BranchesOf(Outcomes(table, vs, c)); bs == Branches(table, vs, c) && Alive(bs) == bs
  {
    if vs != [] {
      var n := |vs| - 1;
      BranchesAreAlive(table, vs[..n], c);
      LastBranch(table, vs, c);
    }
  }

  lemma LastBranch(table: Table, vs: seq<View>, c: char)
    requires vs != [] && NoneRaises(table, vs, c)
    requires var front := BranchesOf(Outcomes(table, vs[..|vs| - 1], c)); front == Branches(table, vs[..|vs| - 1], c) && Alive(front) == front
    ensures var bs := BranchesOf(Outcomes(table, vs, c)); bs == Branches(table, vs, c) && Alive(bs) == bs
  {
    var n := |vs| - 1;
    var last := ReactTo(table, vs[n], c).branch;
    OutcomesLast(table, vs, c);
    AliveJoin(Branches(table, vs[..n], c), OneOrNone(last));
    AliveOne(table, vs[n], c);
  }

  lemma OutcomesLast(table: Table, vs: seq<View>, c: char)
    requires vs != [] && NoneRaises(table, vs, c)
    ensures var n := |vs| - 1;
      && ReactTo(table, vs[n], c).Fed?
      && BranchesOf(Outcomes(table, vs, c)) == BranchesOf(Outcomes(table, vs[..n], c)) + OneOrNone(ReactTo(table, vs[n], c).branch)
  {
    var n, rs := |vs| - 1, Outcomes(table, vs, c);
    assert rs[..n] == Outcomes(table, vs[..n], c);
  }

  lemma AliveOne(table: Table, v: View, c: char)
    requires ReactTo(table, v, c).Fed?
    ensures var b := OneOrNone(ReactTo(table, v, c).branch); Alive(b) == b
  {
  }

  lemma NoneFailed(m: Dictionary, vs: seq<View>, text: string)
    requires Complete(m, vs, text)
    ensures forall v :: v in vs ==> v.state != FAIL
  {
    assert forall v :: v in vs ==> IsLive(m, vs, text, v);
  }

  /** The test of `feed` for a commit. */
  lemma PendingMeansWaiting(m: Dictionary, vs: seq<View>, text: string)
    requires Complete(m, vs, text) && text != ""
    ensures NothingPending(m, text) <==> forall v :: v in vs ==> v.state == END
  {
    if forall v :: v in vs ==> v.state == END {
      NoWaitingNothingPending(m, vs, text);
    } else {
      var v :| v in vs && v.state != END;
      assert IsLive(m, vs, text, v);
      assert !NotPending(m, v.segs, v.pool, text);
    }
  }

  /** Right after a commit there is nothing left for `end` to choose from. */
  lemma FinishedAtStart(m: Dictionary, vs: seq<View>)
    requires Complete(m, vs, "")
    ensures Finished(vs) == []
  {
    FinishedContents(vs);
    assert Finished(vs) != [] ==> Finished(vs)[0] in Finished(vs) && IsLive(m, vs, "", Finished(vs)[0]);
  }
}
