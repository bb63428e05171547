/**
 Paths as text and as segments, and the resolution of relative references of RFC 3986 as far as
 paths are concerned.
 */
module UriPaths {
  import opened Wrappers
  import opened Sequences

  /** The index of the last slash, or -1. */
  function LastSlash(s: string): (r: int)
    ensures -1 <= r < |s|
    ensures r >= 0 ==> s[r] == '/'
    ensures forall i :: r < i < |s| ==> s[i] != '/'
  {
    if s == "" then -1
    else if s[|s| - 1] == '/' then |s| - 1
    else LastSlash(s[..|s| - 1])
  }

  /** The part up to and including the last slash. */
  function Directory(path: string): string {
    path[..LastSlash(path) + 1]
  }

  predicate IsRooted(s: string) { s == "" || s[0] == '/' }

  // ----- segments -----

  function Split(path: string): (segs: seq<string>)
    requires IsRooted(path)
    ensures path != "" ==> segs != []
    ensures forall i :: 0 <= i < |segs| ==> '/' !in segs[i]
  {
    if path == "" then []
    else
      var n := LastSlash(path);
      Split(path[..n]) + [path[n + 1..]]
  }

  function Joined(segs: seq<string>): (path: string)
    ensures IsRooted(path)
  {
    if segs == [] then ""
    else Joined(segs[..|segs| - 1]) + "/" + segs[|segs| - 1]
  }

  lemma {:induction false} JoinedSplit(path: string)
    requires IsRooted(path)
    ensures Joined(Split(path)) == path
  {
    if path != "" {
      var n := LastSlash(path);
      JoinedSplit(path[..n]);
      JoinedMore(Split(path[..n]), path[n + 1..]);
      AtSlash(path, n);
    }
  }

  lemma JoinedMore(segs: seq<string>, seg: string)
    ensures Joined(segs + [seg]) == Joined(segs) + "/" + seg
  {
    assert (segs + [seg])[..|segs|] == segs;
  }

  lemma AtSlash(path: string, n: nat)
    requires n < |path| && path[n] == '/'
    ensures path == path[..n] + "/" + path[n + 1..]
  {
  }

  lemma LastSlashBehind(a: string, b: string)
    requires LastSlash(b) >= 0
    ensures LastSlash(a + b) == |a| + LastSlash(b)
  {
    LastSlashIs(a + b, |a| + LastSlash(b));
  }

  lemma LastSlashIs(s: string, n: nat)
    requires n < |s| && s[n] == '/' && forall i :: n < i < |s| ==> s[i] != '/'
    ensures LastSlash(s) == n
  {
  }

  /** A segment between two texts, in any grouping. */
  lemma Regroup(a: string, b: string, seg: string, rest: string)
    ensures (b + "/" + seg) + rest == b + ("/" + seg + rest)
    ensures (a + b) + ("/" + seg) == a + (b + "/" + seg)
    ensures (a + b) + "/" + seg == a + (b + "/" + seg)
  {
  }

  lemma {:induction false} SplitConcat(a: string, b: string)
    requires IsRooted(a) && IsRooted(b)
    ensures IsRooted(a + b) && Split(a + b) == Split(a) + Split(b)
  {
    if b == "" {
      assert a + b == a;
    } else {
      var m := LastSlash(b);
      SplitConcat(a, b[..m]);
      SplitBehind(a, b, m);
      Grouped(Split(a), Split(b[..m]), [b[m + 1..]]);
    }
  }

  lemma SplitBehind(a: string, b: string, m: nat)
    requires IsRooted(a) && IsRooted(b) && b != "" && m == LastSlash(b)
    ensures IsRooted(a + b) && IsRooted(a + b[..m]) && Split(a + b) == Split(a + b[..m]) + [b[m + 1..]]
  {
    LastSlashBehind(a, b);
    CutBehind(a, b, m);
    RootedConcat(a, b);
    SplitAt(a + b, |a| + m);
  }

  lemma RootedConcat(a: string, b: string)
    requires IsRooted(a) && IsRooted(b)
    ensures IsRooted(a + b) && (b != "" ==> a + b != "")
  {
  }

  lemma SplitAt(path: string, n: nat)
    requires IsRooted(path) && path != "" && n == LastSlash(path)
    ensures IsRooted(path[..n]) && Split(path) == Split(path[..n]) + [path[n + 1..]]
  {
  }

  lemma SplitMore(path: string, c: string)
    requires IsRooted(path) && '/' !in c
    ensures IsRooted(path + "/" + c) && Split(path + "/" + c) == Split(path) + [c]
  {
    var whole := path + "/" + c;
    LastSlashIs(whole, |path|);
    assert whole[..|path|] == path && whole[|path| + 1..] == c;
  }

  lemma CutBehind(a: string, b: string, m: nat)
    requires m < |b|
    ensures (a + b)[..|a| + m] == a + b[..m] && (a + b)[|a| + m + 1..] == b[m + 1..]
  {
  }

  predicate IsDot(seg: string) { seg == "." || seg == ".." }

  predicate NoDots(segs: seq<string>) {
    forall i :: 0 <= i < |segs| ==> !IsDot(segs[i]) && '/' !in segs[i]
  }

  // ----- section 5.2.4 of RFC 3986 -----

  /** Where the first path segment of the input, with its slash, ends. */
  function SegmentEnd(input: string, from: nat): (n: nat)
    requires from <= |input|
    ensures from <= n <= |input|
    ensures n < |input| ==> input[n] == '/'
    ensures forall i :: from <= i < n ==> input[i] != '/'
    decreases |input| - from
  {
    if from == |input| || input[from] == '/' then from else SegmentEnd(input, from + 1)
  }

  /** The output without its last segment and the slash before it, if any. */
  function DropLast(output: string): string {
    if LastSlash(output) >= 0 then output[..LastSlash(output)] else ""
  }

  /** One of the steps A to E on the two buffers. */
  function RemoveStep(input: string, output: string): (r: (string, string))
    requires input != ""
    ensures |r.0| < |input| && |r.0| + |r.1| <= |input| + |output|
  {
    if "../" <= input then (input[3..], output)
    else if "./" <= input || "/./" <= input then (input[2..], output)
    else if input == "/." then ("/", output)
    else if "/../" <= input then (input[3..], DropLast(output))
    else if input == "/.." then ("/", DropLast(output))
    else if IsDot(input) then ("", output)
    else
      var n := SegmentEnd(input, 1);
      (input[n..], output + input[..n])
  }

  function RemoveDots(input: string, output: string): string
    decreases |input|
  {
    if input == "" then output
    else
      var (i, o) := RemoveStep(input, output);
      RemoveDots(i, o)
  }

  lemma SegmentEndIs(input: string, from: nat, n: nat)
    requires from <= n <= |input| && (n < |input| ==> input[n] == '/')
    requires forall i :: from <= i < n ==> input[i] != '/'
    ensures SegmentEnd(input, from) == n
  {
  }

  /** Only a first segment that is a dot segment gets special treatment. */
  lemma OnlyDotsMatter(input: string)
    requires input != "" && input[0] == '/'
    ensures !("../" <= input) && !("./" <= input) && !IsDot(input)
    ensures "/./" <= input || input == "/." || "/../" <= input || input == "/.." ==> IsDot(input[1..SegmentEnd(input, 1)])
  {
    if "/./" <= input || input == "/." {
      SegmentEndIs(input, 1, 2);
      assert input[1..2] == ".";
    } else if "/../" <= input || input == "/.." {
      SegmentEndIs(input, 1, 3);
      assert input[1..3] == "..";
    }
  }

  /** An ordinary segment moves to the output. */
  lemma MovesSegment(seg: string, rest: string, output: string)
    requires !IsDot(seg) && '/' !in seg && IsRooted(rest)
    ensures RemoveDots("/" + seg + rest, output) == RemoveDots(rest, output + ("/" + seg))
  {
    var input, n := "/" + seg + rest, 1 + |seg|;
    FirstSegment(seg, rest);
    SegmentEndIs(input, 1, n);
    OnlyDotsMatter(input);
  }

  lemma FirstSegment(seg: string, rest: string)
    requires '/' !in seg && IsRooted(rest)
    ensures var input, n := "/" + seg + rest, 1 + |seg|;
      && input[n..] == rest && input[..n] == "/" + seg && input[1..n] == seg && input[0] == '/'
      && (n < |input| ==> input[n] == '/') && forall i :: 1 <= i < n ==> input[i] != '/'
  {
    var input := "/" + seg + rest;
    assert forall i :: 1 <= i < 1 + |seg| ==> input[i] == seg[i - 1];
  }

  lemma {:induction false} MovesSegments(segs: seq<string>, rest: string, output: string)
    requires NoDots(segs) && IsRooted(rest)
    ensures RemoveDots(Joined(segs) + rest, output) == RemoveDots(rest, output + Joined(segs))
  {
    if segs == [] {
      assert Joined(segs) + rest == rest && output + Joined(segs) == output;
    } else {
      var front, seg := segs[..|segs| - 1], segs[|segs| - 1];
      Regroup(output, Joined(front), seg, rest);
      MovesSegments(front, "/" + seg + rest, output);
      MovesSegment(seg, rest, output + Joined(front));
    }
  }

  /** A path without dot segments stays as it is. */
  lemma KeepsPlain(segs: seq<string>, output: string)
    requires NoDots(segs)
    ensures RemoveDots(Joined(segs), output) == output + Joined(segs)
  {
    MovesSegments(segs, "", output);
    assert Joined(segs) + "" == Joined(segs);
  }

  /** k times "/..". */
  function Climb(k: nat): string {
    if k == 0 then "" else Climb(k - 1) + "/.."
  }

  lemma GoesUp(rest: string, output: string, seg: string)
    requires IsRooted(rest) && rest != "" && '/' !in seg
    ensures RemoveDots("/.." + rest, output + "/" + seg) == RemoveDots(rest, output)
  {
    var input, out := "/.." + rest, output + "/" + seg;
    assert input[3..] == rest && input[..4] == "/../" && input[2] == '.';
    OnlyDotsMatter(input);
    LastSlashIs(out, |output|);
    assert out[..|output|] == output;
  }

  lemma {:induction false} Climbs(rest: string, output: string, segs: seq<string>, dropped: seq<string>)
    requires NoDots(dropped) && IsRooted(rest) && rest != ""
    ensures RemoveDots(Climb(|dropped|) + rest, output + Joined(segs + dropped)) == RemoveDots(rest, output + Joined(segs))
    decreases |dropped|
  {
    if dropped == [] {
      ClimbsNone(rest, segs);
    } else {
      ClimbMore(|dropped|, rest);
      FirstMoves(segs, dropped);
      Climbs("/.." + rest, output, segs + [dropped[0]], dropped[1..]);
      ClimbsOne(rest, output, segs, dropped[0]);
    }
  }

  lemma ClimbsNone(rest: string, segs: seq<string>)
    ensures Climb(0) + rest == rest && segs + [] == segs
  {
  }

  lemma ClimbMore(k: nat, rest: string)
    requires k > 0
    ensures Climb(k) + rest == Climb(k - 1) + ("/.." + rest)
  {
  }

  lemma FirstMoves(segs: seq<string>, dropped: seq<string>)
    requires dropped != []
    ensures (segs + [dropped[0]]) + dropped[1..] == segs + dropped
  {
  }

  lemma ClimbsOne(rest: string, output: string, segs: seq<string>, seg: string)
    requires IsRooted(rest) && rest != "" && '/' !in seg
    ensures RemoveDots("/.." + rest, output + Joined(segs + [seg])) == RemoveDots(rest, output + Joined(segs))
  {
    JoinedMore(segs, seg);
    Regroup(output, Joined(segs), seg, "");
    GoesUp(rest, output + Joined(segs), seg);
  }

  lemma {:induction false} NeverLonger(input: string, output: string)
    ensures |RemoveDots(input, output)| <= |input| + |output|
    decreases |input|
  {
    if input != "" {
      var (i, o) := RemoveStep(input, output);
      NeverLonger(i, o);
    }
  }

  // ----- section 5.2.2 of RFC 3986, and appendix B -----

  predicate IsDelimiter(c: char) { c == '/' || c == '?' || c == '#' }

  /** A colon behind at least one character and before any delimiter. */
  predicate HasScheme(reference: string) {
    exists i :: 0 < i < |reference| && SchemeEndsAt(reference, i)
  }

  predicate SchemeEndsAt(reference: string, i: nat)
    requires i < |reference|
  {
    reference[i] == ':' && forall j :: 0 <= j < i ==> reference[j] != ':' && !IsDelimiter(reference[j])
  }

  /** The path of a reference without scheme and authority, and what follows it. */
  function PathEnd(reference: string, from: nat): (n: nat)
    requires from <= |reference|
    ensures from <= n <= |reference|
    ensures n < |reference| ==> reference[n] == '?' || reference[n] == '#'
    ensures forall i :: from <= i < n ==> reference[i] != '?' && reference[i] != '#'
    decreases |reference| - from
  {
    if from == |reference| || reference[from] == '?' || reference[from] == '#' then from
    else PathEnd(reference, from + 1)
  }

  /**
   Where a reference leads from a document on the same server: a path, and the query and fragment;
   nothing when the reference names another scheme or server.
   */
  function Resolve(base: string, reference: string): Option<(string, string)> {
    if HasScheme(reference) || "//" <= reference then None
    else
      var n := PathEnd(reference, 0);
      var path := reference[..n];
      var target :=
        if path == "" then base
        else if path[0] == '/' then RemoveDots(path, "")
        else RemoveDots(Directory(base) + path, "");
      Some((target, reference[n..]))
  }
}
