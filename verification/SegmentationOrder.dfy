/**
 Which of several shortest segmentations the converter of python/lang_convert/langconv.py prefers.

 A position strictly inside a word is passed over when the part of the word before it is a word as well:
 there the text could have been cut, and was not.  Segmentations of one text are ordered by the last
 position that one of them passes over and the other does not.
 */
module SegmentationOrder {
  import opened Sequences
  import opened Segmentation

  ghost predicate PassesOver(m: Dictionary, ws: seq<string>, p: nat) {
    exists k: nat :: k < |ws| && PassesInWord(m, ws, p, k)
  }

  ghost predicate PassesInWord(m: Dictionary, ws: seq<string>, p: nat, k: nat)
    requires k < |ws|
  {
    var start := |Flatten(ws[..k])|;
    start < p < start + |ws[k]| && IsWord(m, ws[k][..p - start])
  }

  /** The last position where they differ is passed over by the second one only. */
  ghost predicate Precedes(m: Dictionary, a: seq<string>, b: seq<string>) {
    exists p: nat :: LastDifference(m, a, b, p)
  }

  ghost predicate LastDifference(m: Dictionary, a: seq<string>, b: seq<string>, p: nat) {
    && !PassesOver(m, a, p) && PassesOver(m, b, p)
    && forall q: nat :: q > p ==> (PassesOver(m, a, q) <==> PassesOver(m, b, q))
  }

  /** The first of the shortest segmentations in this order. */
  ghost predicate IsPreferred(m: Dictionary, ws: seq<string>, text: string) {
    IsShortest(m, ws, text) && forall other :: NotBefore(m, ws, text, other)
  }

  ghost predicate NotBefore(m: Dictionary, ws: seq<string>, text: string, other: seq<string>) {
    IsShortest(m, other, text) && other != ws ==> Precedes(m, ws, other)
  }

  lemma Asymmetric(m: Dictionary, a: seq<string>, b: seq<string>)
    requires Precedes(m, a, b)
    ensures !Precedes(m, b, a)
  {
    var p: nat :| LastDifference(m, a, b, p);
    forall q: nat
      ensures !LastDifference(m, b, a, q)
    {
      assert p < q || p > q || p == q;
    }
  }

  /** There is only one. */
  lemma PreferredIsUnique(m: Dictionary, a: seq<string>, b: seq<string>, text: string)
    requires IsPreferred(m, a, text) && IsPreferred(m, b, text)
    ensures a == b
  {
    assert NotBefore(m, a, text, b) && NotBefore(m, b, text, a);
    if Precedes(m, a, b) {
      Asymmetric(m, a, b);
    }
  }

  /** Two ways to cut the same three characters: the first word is as long as it can be. */
  lemma LongFirst(m: Dictionary)
    requires "ab" in m && "bc" in m
    ensures Flatten(["ab", "c"]) == Flatten(["a", "bc"]) == "abc" && Precedes(m, ["ab", "c"], ["a", "bc"])
  {
    var x, y := ["ab", "c"], ["a", "bc"];
    assert x[..1] == ["ab"] && y[..1] == ["a"] && x[..0] == y[..0] == [];
    assert Flatten(["ab"]) == "ab" && Flatten(["a"]) == "a";
    assert "bc"[..1] == "b" && PassesInWord(m, y, 2, 1);
    assert LastDifference(m, x, y, 2);
  }

  // ----- one mark for each character -----

  /** For each character of a part of a word: whether the part up to it is a word. */
  function PartMarks(m: Dictionary, part: string): seq<bool> {
    seq(|part|, i requires 0 <= i < |part| => IsWord(m, part[..i + 1]))
  }

  /** For each character of a word: whether the position behind it is passed over. */
  function WordMarks(m: Dictionary, w: string): seq<bool> {
    if w == "" then [] else PartMarks(m, w[..|w| - 1]) + [false]
  }

  function Marks(m: Dictionary, ws: seq<string>): (marks: seq<bool>)
    ensures |marks| == |Flatten(ws)|
  {
    if ws == [] then [] else Marks(m, ws[..|ws| - 1]) + WordMarks(m, ws[|ws| - 1])
  }

  /** The last mark where they differ is set in the second one. */
  predicate Less(a: seq<bool>, b: seq<bool>)
    requires |a| == |b|
  {
    if a == [] then false
    else
      var n := |a| - 1;
      if a[n] == b[n] then Less(a[..n], b[..n]) else b[n]
  }

  lemma WordMarkAt(m: Dictionary, w: string, i: nat)
    requires i < |w|
    ensures |WordMarks(m, w)| == |w| && (WordMarks(m, w)[i] <==> i + 1 < |w| && IsWord(m, w[..i + 1]))
  {
    var p := w[..|w| - 1];
    if i + 1 < |w| {
      assert p[..i + 1] == w[..i + 1];
    }
  }

  lemma {:induction false} MarksAt(m: Dictionary, ws: seq<string>, p: nat)
    ensures PassesOver(m, ws, p) <==> 0 < p <= |Flatten(ws)| && Marks(m, ws)[p - 1]
  {
    if ws != [] {
      var n := |ws| - 1;
      var front := ws[..n];
      MarksAt(m, front, p);
      PassesInFront(m, ws, p);
      assert ws[..n] == front;
      var start := |Flatten(front)|;
      if start < p <= start + |ws[n]| {
        WordMarkAt(m, ws[n], p - start - 1);
      }
    }
  }

  /** A position is passed over in the last word or before. */
  lemma PassesInFront(m: Dictionary, ws: seq<string>, p: nat)
    requires ws != []
    ensures var n := |ws| - 1; PassesOver(m, ws, p) <==> PassesOver(m, ws[..n], p) || PassesInWord(m, ws, p, n)
  {
    var n := |ws| - 1;
    var front := ws[..n];
    forall k: nat | k < n
      ensures PassesInWord(m, ws, p, k) <==> PassesInWord(m, front, p, k)
    {
      assert front[..k] == ws[..k];
    }
  }

  lemma {:induction false} LessMeans(a: seq<bool>, b: seq<bool>)
    requires |a| == |b|
    ensures Less(a, b) <==> exists p :: 0 <= p < |a| && DiffersLast(a, b, p)
  {
    if a != [] {
      var n := |a| - 1;
      LessMeans(a[..n], b[..n]);
      if a[n] == b[n] {
        forall p | 0 <= p < n
          ensures DiffersLast(a, b, p) <==> DiffersLast(a[..n], b[..n], p)
        {
        }
      } else if b[n] {
        assert DiffersLast(a, b, n);
      }
    }
  }

  ghost predicate DiffersLast(a: seq<bool>, b: seq<bool>, p: nat)
    requires p < |a| == |b|
  {
    !a[p] && b[p] && forall q :: p < q < |a| ==> a[q] == b[q]
  }

  /** The order of segmentations is that of their marks. */
  lemma PrecedesIsLess(m: Dictionary, a: seq<string>, b: seq<string>)
    requires Flatten(a) == Flatten(b)
    ensures Precedes(m, a, b) <==> Less(Marks(m, a), Marks(m, b))
  {
    var x, y := Marks(m, a), Marks(m, b);
    LessMeans(x, y);
    forall p: nat
      ensures PassesOver(m, a, p) <==> 0 < p <= |x| && x[p - 1]
      ensures PassesOver(m, b, p) <==> 0 < p <= |x| && y[p - 1]
    {
      MarksAt(m, a, p);
      MarksAt(m, b, p);
    }
    if Precedes(m, a, b) {
      var p: nat :| LastDifference(m, a, b, p);
      LastIsLast(m, a, b, x, y, p);
    }
    if Less(x, y) {
      var p :| 0 <= p < |x| && DiffersLast(x, y, p);
      assert LastDifference(m, a, b, p + 1);
    }
  }

  lemma LastIsLast(m: Dictionary, a: seq<string>, b: seq<string>, x: seq<bool>, y: seq<bool>, p: nat)
    requires |x| == |y| && LastDifference(m, a, b, p)
    requires forall p: nat :: PassesOver(m, a, p) <==> 0 < p <= |x| && x[p - 1]
    requires forall p: nat :: PassesOver(m, b, p) <==> 0 < p <= |x| && y[p - 1]
    ensures 0 < p <= |x| && DiffersLast(x, y, p - 1)
  {
    forall q: nat | p - 1 < q < |x|
      ensures x[q] == y[q]
    {
      assert PassesOver(m, a, q + 1) <==> PassesOver(m, b, q + 1);
    }
  }

  // ----- joining at a boundary -----

  lemma {:induction false} MarksConcat(m: Dictionary, a: seq<string>, b: seq<string>)
    ensures Marks(m, a + b) == Marks(m, a) + Marks(m, b)
  {
    if b == [] {
      assert a + b == a;
    } else {
      var n := |b| - 1;
      MarksConcat(m, a, b[..n]);
      assert (a + b)[..|a + b| - 1] == a + b[..n];
      Grouped(Marks(m, a), Marks(m, b[..n]), WordMarks(m, b[n]));
    }
  }

  lemma {:induction false} LessBehind(a: seq<bool>, b: seq<bool>, x: seq<bool>, y: seq<bool>)
    requires |a| == |b| && |x| == |y|
    ensures Less(a + x, b + y) <==> Less(x, y) || (x == y && Less(a, b))
  {
    if x == [] {
      assert a + x == a && b + y == b;
    } else {
      var n := |x| - 1;
      LessBehind(a, b, x[..n], y[..n]);
      LastBehind(a, x);
      LastBehind(b, y);
      SameFront(x, y);
    }
  }

  lemma LastBehind(a: seq<bool>, x: seq<bool>)
    requires x != []
    ensures var n := |a| + |x| - 1; (a + x)[..n] == a + x[..|x| - 1] && (a + x)[n] == x[|x| - 1]
  {
  }

  lemma SameFront(x: seq<bool>, y: seq<bool>)
    requires |x| == |y| && x != []
    ensures var n := |x| - 1; x == y <==> x[..n] == y[..n] && x[n] == y[n]
  {
    assert x == x[..|x| - 1] + [x[|x| - 1]] && y == y[..|y| - 1] + [y[|y| - 1]];
  }

  /** The preferred segmentations of the two sides of a boundary join to the preferred one. */
  lemma PreferredJoins(m: Dictionary, done: string, a: seq<string>, chunk: string, b: seq<string>)
    requires IsBoundary(m, done)
    requires IsPreferred(m, a, done) && IsPreferred(m, b, chunk)
    ensures IsPreferred(m, a + b, done + chunk)
  {
    ShortestJoins(m, done, a, chunk, b);
    forall other | IsShortest(m, other, done + chunk) && other != a + b
      ensures Precedes(m, a + b, other)
    {
      var i := CutAtBoundary(m, done, chunk, a, b, other);
      var first, second := other[..i], other[i..];
      assert other == first + second;
      assert NotBefore(m, a, done, first) && NotBefore(m, b, chunk, second);
      JoinedPrecedes(m, a, b, first, second);
    }
    assert forall other :: NotBefore(m, a + b, done + chunk, other);
  }

  lemma JoinedPrecedes(m: Dictionary, a: seq<string>, b: seq<string>, first: seq<string>, second: seq<string>)
    requires Flatten(a) == Flatten(first) && Flatten(b) == Flatten(second)
    requires first == a || Precedes(m, a, first)
    requires second == b || Precedes(m, b, second)
    requires first != a || second != b
    ensures Precedes(m, a + b, first + second)
  {
    FlattenConcat(a, b);
    FlattenConcat(first, second);
    MarksConcat(m, a, b);
    MarksConcat(m, first, second);
    PrecedesIsLess(m, a, first);
    PrecedesIsLess(m, b, second);
    PrecedesIsLess(m, a + b, first + second);
    LessBehind(Marks(m, a), Marks(m, first), Marks(m, b), Marks(m, second));
  }

  /** A shortest segmentation is cut at the boundary into shortest ones. */
  lemma CutAtBoundary(m: Dictionary, done: string, chunk: string, a: seq<string>, b: seq<string>, other: seq<string>) returns (i: nat)
    requires IsBoundary(m, done) && IsShortest(m, a, done) && IsShortest(m, b, chunk) && IsShortest(m, other, done + chunk)
    ensures i <= |other| && IsShortest(m, other[..i], done) && IsShortest(m, other[i..], chunk)
  {
    ShortestJoins(m, done, a, chunk, b);
    assert CutBy(m, other, done);
    i :| 0 <= i <= |other| && Flatten(other[..i]) == done;
    FlattenSplit(other, i);
    assert Flatten(other[i..]) == chunk by {
      assert (done + Flatten(other[i..]))[|done|..] == Flatten(other[i..]);
      assert (done + chunk)[|done|..] == chunk;
    }
    assert NoShorter(m, other, done + chunk, a + b);
    assert NoShorter(m, a, done, other[..i]) && NoShorter(m, b, chunk, other[i..]);
    AsShort(m, a, other[..i], done);
    AsShort(m, b, other[i..], chunk);
  }

  lemma AsShort(m: Dictionary, a: seq<string>, b: seq<string>, text: string)
    requires IsShortest(m, a, text) && IsSegmentation(m, b, text) && |b| <= |a|
    ensures IsShortest(m, b, text)
  {
    forall other
      ensures NoShorter(m, b, text, other)
    {
      assert NoShorter(m, a, text, other);
    }
  }

  lemma EmptyIsPreferred(m: Dictionary)
    ensures IsPreferred(m, [], "")
  {
    EmptyBoundary(m);
    forall other
      ensures NotBefore(m, [], "", other)
    {
      if IsShortest(m, other, "") {
        assert NoShorter(m, other, "", []);
      }
    }
  }
}
