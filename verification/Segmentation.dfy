/**
 The declarative side of the converter of python/lang_convert/langconv.py: what it means to cut a
 text into single characters and dictionary keys, and what such a cut translates to.

 Nothing here mentions machines, branches or commits.  The empty string may be a key; it is never
 a word of a segmentation.
 */
module Segmentation {
  import opened Sequences

  type Dictionary = map<string, string>

  /** A piece a text may be cut into: one character, or a longer dictionary key. */
  predicate IsWord(m: Dictionary, w: string) {
    |w| == 1 || (|w| > 1 && w in m)
  }

  /** p is a proper prefix of some key. */
  predicate IsStem(m: Dictionary, p: string) {
    exists k :: k in m && |p| < |k| && p == k[..|p|]
  }

  /** The mapped value of a key, or the word itself for a non-key or a key mapped to "". */
  function Translate(m: Dictionary, w: string): string {
    if w in m && m[w] != "" then m[w] else w
  }

  lemma KeyHasStem(m: Dictionary, w: string, p: string)
    requires w in m && |p| < |w| && p == w[..|p|]
    ensures IsStem(m, p)
  {
  }

  function TranslateAll(m: Dictionary, ws: seq<string>): string {
    if ws == [] then "" else TranslateAll(m, ws[..|ws| - 1]) + Translate(m, ws[|ws| - 1])
  }

  predicate AllWords(m: Dictionary, ws: seq<string>) {
    forall w :: w in ws ==> IsWord(m, w)
  }

  predicate IsSegmentation(m: Dictionary, ws: seq<string>, text: string) {
    AllWords(m, ws) && Flatten(ws) == text
  }

  ghost predicate IsShortest(m: Dictionary, ws: seq<string>, text: string) {
    && IsSegmentation(m, ws, text)
    && forall other :: NoShorter(m, ws, text, other)
  }

  ghost predicate NoShorter(m: Dictionary, ws: seq<string>, text: string, other: seq<string>) {
    IsSegmentation(m, other, text) ==> |ws| <= |other|
  }

  /** Every segmentation of every extension of `text` has a cut exactly after `text`. */
  ghost predicate IsBoundary(m: Dictionary, text: string) {
    forall ws :: CutBy(m, ws, text)
  }

  ghost predicate CutBy(m: Dictionary, ws: seq<string>, text: string) {
    AllWords(m, ws) && text <= Flatten(ws) ==> HasCut(ws, text)
  }

  /** No way to cut a prefix of `text` leaves a non-empty remainder that could grow into a key. */
  ghost predicate NothingPending(m: Dictionary, text: string) {
    forall ws, p :: NotPending(m, ws, p, text)
  }

  ghost predicate NotPending(m: Dictionary, ws: seq<string>, p: string, text: string) {
    AllWords(m, ws) && Flatten(ws) + p == text && IsStem(m, p) ==> p == ""
  }

  ghost predicate HasCut(ws: seq<string>, text: string) {
    exists i :: 0 <= i <= |ws| && Flatten(ws[..i]) == text
  }

  lemma TranslateAppend(m: Dictionary, ws: seq<string>, w: string)
    ensures TranslateAll(m, ws + [w]) == TranslateAll(m, ws) + Translate(m, w)
  {
  }

  lemma {:induction false} FlattenConcat(a: seq<string>, b: seq<string>)
    ensures Flatten(a + b) == Flatten(a) + Flatten(b)
  {
    if b == [] {
      assert a + b == a;
    } else {
      var b', w := b[..|b| - 1], b[|b| - 1];
      calc {
        Flatten(a + b);
        { assert a + b == (a + b') + [w]; }
        Flatten((a + b') + [w]);
        { FlattenAppend(a + b', w); }
        Flatten(a + b') + w;
        { FlattenConcat(a, b'); }
        Flatten(a) + Flatten(b') + w;
        { Grouped(Flatten(a), Flatten(b'), w); }
        Flatten(a) + Flatten(b);
      }
    }
  }

  lemma {:induction false} TranslateConcat(m: Dictionary, a: seq<string>, b: seq<string>)
    ensures TranslateAll(m, a + b) == TranslateAll(m, a) + TranslateAll(m, b)
  {
    if b == [] {
      assert a + b == a;
    } else {
      var b', w := b[..|b| - 1], b[|b| - 1];
      calc {
        TranslateAll(m, a + b);
        { assert a + b == (a + b') + [w]; }
        TranslateAll(m, (a + b') + [w]);
        { TranslateAppend(m, a + b', w); }
        TranslateAll(m, a + b') + Translate(m, w);
        { TranslateConcat(m, a, b'); }
        TranslateAll(m, a) + TranslateAll(m, b') + Translate(m, w);
        { Grouped(TranslateAll(m, a), TranslateAll(m, b'), Translate(m, w)); }
        TranslateAll(m, a) + TranslateAll(m, b);
      }
    }
  }

  /** The cut into single characters always exists. */
  function Singles(text: string): seq<string> {
    if text == "" then [] else Singles(text[..|text| - 1]) + [[text[|text| - 1]]]
  }

  lemma {:induction false} SinglesCut(m: Dictionary, text: string)
    ensures IsSegmentation(m, Singles(text), text)
  {
    if text != "" {
      var rest := text[..|text| - 1];
      SinglesCut(m, rest);
      FlattenAppend(Singles(rest), [text[|text| - 1]]);
    }
  }

  /** Prefix lengths grow by the length of the word they add. */
  lemma FlattenPrefix(ws: seq<string>, i: nat)
    requires i < |ws|
    ensures Flatten(ws[..i + 1]) == Flatten(ws[..i]) + ws[i]
  {
    assert ws[..i + 1] == ws[..i] + [ws[i]];
    FlattenAppend(ws[..i], ws[i]);
  }

  lemma FlattenSplit(ws: seq<string>, i: nat)
    requires i <= |ws|
    ensures Flatten(ws) == Flatten(ws[..i]) + Flatten(ws[i..])
  {
    assert ws == ws[..i] + ws[i..];
    FlattenConcat(ws[..i], ws[i..]);
  }

  /** A word that contains position |text| of a segmented string, if no cut falls there. */
  lemma {:induction false} StraddlingWord(ws: seq<string>, text: string) returns (i: nat)
    requires text <= Flatten(ws)
    requires !HasCut(ws, text)
    ensures i < |ws|
    ensures |Flatten(ws[..i])| < |text| < |Flatten(ws[..i])| + |ws[i]|
  {
    i := 0;
    assert Flatten(ws[..0]) == "";
    while i < |ws| && |Flatten(ws[..i + 1])| <= |text|
      invariant i <= |ws|
      invariant |Flatten(ws[..i])| <= |text|
    {
      i := i + 1;
    }
    FlattenSplit(ws, i);
    assert ws[..|ws|] == ws;
    assert Flatten(ws[..i]) == Flatten(ws)[..|Flatten(ws[..i])|];
    assert text == Flatten(ws)[..|text|];
    FlattenPrefix(ws, i);
  }

  /**
   The key lemma behind committing early.  If `done` is a boundary and no segmentation of a prefix
   of `chunk` leaves a pending stem, then `done + chunk` is a boundary: no key occurrence of any
   segmentation of any longer text straddles that position.
   */
  lemma BoundaryExtends(m: Dictionary, done: string, chunk: string)
    requires IsBoundary(m, done)
    requires NothingPending(m, chunk)
    ensures IsBoundary(m, done + chunk)
  {
    forall ws | AllWords(m, ws) && done + chunk <= Flatten(ws)
      ensures HasCut(ws, done + chunk)
    {
      assert done <= Flatten(ws) by { assert (done + chunk)[..|done|] == done; }
      assert CutBy(m, ws, done);
      var i :| 0 <= i <= |ws| && Flatten(ws[..i]) == done;
      CutFurther(m, ws, i, done, chunk);
    }
    assert forall ws :: CutBy(m, ws, done + chunk);
  }

  /** From one cut to the next one. */
  lemma CutFurther(m: Dictionary, ws: seq<string>, i: nat, done: string, chunk: string)
    requires AllWords(m, ws) && done + chunk <= Flatten(ws) && i <= |ws| && Flatten(ws[..i]) == done
    requires NothingPending(m, chunk)
    ensures HasCut(ws, done + chunk)
  {
    var tail := ws[i..];
    FlattenSplit(ws, i);
    var rest := Flatten(ws)[|done + chunk|..];
    Behind(done, chunk, Flatten(tail), Flatten(ws));
    NoStraddle(m, tail, chunk, rest);
    var j :| 0 <= j <= |tail| && Flatten(tail[..j]) == chunk;
    SecondCut(ws, i, j);
  }

  lemma SecondCut(ws: seq<string>, i: nat, j: nat)
    requires i + j <= |ws|
    ensures HasCut(ws, Flatten(ws[..i]) + Flatten(ws[i..][..j]))
  {
    var a, b := ws[..i], ws[i..][..j];
    assert ws[..i + j] == a + b;
    FlattenConcat(a, b);
  }

  lemma Behind(done: string, chunk: string, tail: string, text: string)
    requires text == done + tail && done + chunk <= text
    ensures tail == chunk + text[|done + chunk|..]
  {
    assert text == done + (chunk + text[|done + chunk|..]);
    assert tail == text[|done|..];
  }

  lemma NoStraddle(m: Dictionary, tail: seq<string>, chunk: string, rest: string)
    requires AllWords(m, tail) && Flatten(tail) == chunk + rest
    requires NothingPending(m, chunk)
    ensures HasCut(tail, chunk)
  {
    assert forall ws, p :: NotPending(m, ws, p, chunk);
    if !HasCut(tail, chunk) {
      var i := StraddlingWord(tail, chunk);
      var before := Flatten(tail[..i]);
      var w := tail[i];
      FlattenSplit(tail, i + 1);
      FlattenPrefix(tail, i);
      assert chunk + rest == before + w + Flatten(tail[i + 1..]);
      var p := chunk[|before|..];
      assert before == chunk[..|before|] by {
        assert (chunk + rest)[..|before|] == (before + w + Flatten(tail[i + 1..]))[..|before|];
      }
      assert p == w[..|p|] by {
        assert (chunk + rest)[|before|..|chunk|] == p;
        assert (before + w + Flatten(tail[i + 1..]))[|before|..|chunk|] == w[..|p|];
      }
      assert w in tail && IsWord(m, w) && |w| > 1;
      assert AllWords(m, tail[..i]) && before + p == chunk;
      assert NotPending(m, tail[..i], p, chunk);
      KeyHasStem(m, w, p);
      assert false;
    }
  }

  /** Shortest segmentations of the two sides of a boundary join to a shortest one. */
  lemma ShortestJoins(m: Dictionary, done: string, a: seq<string>, chunk: string, b: seq<string>)
    requires IsBoundary(m, done)
    requires IsShortest(m, a, done) && IsShortest(m, b, chunk)
    ensures IsShortest(m, a + b, done + chunk)
  {
    FlattenConcat(a, b);
    forall other | IsSegmentation(m, other, done + chunk)
      ensures |a + b| <= |other|
    {
      assert CutBy(m, other, done);
      var i :| 0 <= i <= |other| && Flatten(other[..i]) == done;
      FlattenSplit(other, i);
      assert Flatten(other[i..]) == chunk by {
        assert (done + Flatten(other[i..]))[|done|..] == Flatten(other[i..]);
        assert (done + chunk)[|done|..] == chunk;
      }
      assert NoShorter(m, a, done, other[..i]) && NoShorter(m, b, chunk, other[i..]);
    }
    assert forall other :: NoShorter(m, a + b, done + chunk, other);
  }

  lemma EmptyBoundary(m: Dictionary)
    ensures IsBoundary(m, "") && IsShortest(m, [], "")
  {
    forall ws
      ensures CutBy(m, ws, "") && NoShorter(m, [], "", ws)
    {
      assert Flatten(ws[..0]) == "";
    }
  }
}
