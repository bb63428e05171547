/**
 The relative links of `_GetRelateUrl` (Worker.cs of DownloadWebsite) as text: the path they are made of,
 and what resolving them against the address of a page gives.
 */
module LinkPaths {
  import opened Wrappers
  import opened Sequences
  import opened UriPaths

  /** How many directories below the web root a path (given from the root on) lies, as the loop counts. */
  function Levels(path: string): nat
    decreases |path|
  {
    if LastSlash(path) <= 0 then 0 else 1 + Levels(path[..LastSlash(path)])
  }

  function Ups(k: nat): string {
    if k == 0 then "" else "../" + Ups(k - 1)
  }

  /** The path part of the link from the page at `base`, whose directory is said to be `dir`, to `target`. */
  function Href(root: string, dir: string, base: string, target: string): string
    requires root <= target && root <= base
  {
    if dir <= target then target[|dir|..]
    else Ups(Levels(base[|root|..])) + target[|root|..]
  }

  /** A rooted path without dot segments and without characters that file names may not have. */
  predicate IsFilePath(path: string) {
    && path != "" && path[0] == '/'
    && NoDots(Split(path))
    && '?' !in path && ':' !in path
  }

  predicate IsDirectory(path: string) {
    path != "" && path[0] == '/' && path[|path| - 1] == '/'
  }

  // ----- references made of a path and a fragment -----

  ghost predicate IsFragment(fragment: string) {
    fragment == "" || fragment[0] == '#'
  }

  /** A path without colons is not taken for a scheme. */
  lemma NoScheme(path: string, fragment: string)
    requires ':' !in path && IsFragment(fragment)
    ensures !HasScheme(path + fragment)
  {
    var whole := path + fragment;
    forall i | 0 < i < |whole|
      ensures !SchemeEndsAt(whole, i)
    {
      assert i < |path| ==> whole[i] == path[i];
      assert fragment != "" ==> whole[|path|] == '#';
    }
  }

  lemma PathEndIs(reference: string, from: nat, n: nat)
    requires from <= n <= |reference| && (n < |reference| ==> reference[n] == '#')
    requires forall i :: from <= i < n ==> reference[i] != '?' && reference[i] != '#'
    ensures PathEnd(reference, from) == n
  {
  }

  lemma ResolvesPath(base: string, path: string, fragment: string)
    requires IsFragment(fragment) && '?' !in path && '#' !in path && ':' !in path
    ensures Resolve(base, path + fragment) ==
      if path == "" then Some((base, fragment))
      else if "//" <= path then None
      else Some((RemoveDots(if path[0] == '/' then path else Directory(base) + path, ""), fragment))
  {
    var whole := path + fragment;
    NoScheme(path, fragment);
    PathEndIs(whole, 0, |path|);
    assert whole[..|path|] == path && whole[|path|..] == fragment;
    assert "//" <= whole <==> "//" <= path;
  }

  /** A hash in the path is taken for the beginning of the fragment. */
  lemma {:induction false} HashEnds(reference: string, from: nat, i: nat)
    requires from <= i < |reference| && reference[i] == '#'
    ensures PathEnd(reference, from) <= i
    decreases i - from
  {
    if from < i && reference[from] != '?' && reference[from] != '#' {
      HashEnds(reference, from + 1, i);
    }
  }

  lemma HashFails(base: string, path: string, fragment: string)
    requires '#' in path
    ensures var r := Resolve(base, path + fragment); r.Some? ==> r.value.1 != fragment
  {
    var i :| 0 <= i < |path| && path[i] == '#';
    HashEnds(path + fragment, 0, i);
  }

  // ----- paths as segments -----

  /** A path under a directory, as segments. */
  lemma Under(root: string, path: string)
    requires IsDirectory(root) && root <= path && IsFilePath(path)
    ensures var top, rest := root[..|root| - 1], path[|root|..];
      && root == top + "/" && path == top + ("/" + rest)
      && IsRooted(top) && NoDots(Split(top)) && NoDots(Split("/" + rest))
  {
    var top, rest := root[..|root| - 1], path[|root|..];
    assert root == top + "/";
    assert path == top + ("/" + rest);
    SplitConcat(top, "/" + rest);
    var segs := Split(path);
    assert Split(top) == segs[..|Split(top)|] && Split("/" + rest) == segs[|Split(top)|..];
  }

  /** The loop leaves the directories one by one, but does not see a slash in front. */
  lemma {:induction false} LevelsAre(path: string)
    ensures |Split("/" + path)| == Levels(path) + 1 + (if path != "" && path[0] == '/' then 1 else 0)
    decreases |path|
  {
    var n := LastSlash(path);
    LastSlashIs("/" + path, n + 1);
    if n > 0 {
      assert ("/" + path)[..n + 1] == "/" + path[..n];
      LevelsAre(path[..n]);
    } else if n == 0 {
      assert ("/" + path)[..1] == "/" + "";
      assert path[0] == '/';
      LevelsAre("");
    } else {
      assert ("/" + path)[..0] == "";
      assert path != "" ==> path[0] != '/';
    }
  }

  lemma {:induction false} UpsClimb(k: nat)
    ensures "/" + Ups(k) == Climb(k) + "/"
  {
    if k > 0 {
      UpsClimb(k - 1);
      assert "/" + Ups(k) == "/.." + ("/" + Ups(k - 1));
      ClimbFront(k - 1);
      assert Climb(k) + "/" == ("/.." + Climb(k - 1)) + "/";
    }
  }

  lemma {:induction false} ClimbFront(k: nat)
    ensures Climb(k) + "/.." == "/.." + Climb(k)
  {
    if k > 0 {
      ClimbFront(k - 1);
    }
  }

  lemma {:induction false} UpsPlain(k: nat)
    ensures '?' !in Ups(k) && '#' !in Ups(k) && ':' !in Ups(k)
  {
    if k > 0 {
      UpsPlain(k - 1);
    }
  }

  lemma UpwardLink(k: nat, rest: string)
    requires '?' !in rest && ':' !in rest
    ensures var path := Ups(k) + rest;
      && '?' !in path && ':' !in path && ('#' in path <==> '#' in rest)
      && (k == 0 ==> path == rest)
      && (k > 0 ==> path != "" && path[0] != '/')
  {
    UpsPlain(k);
  }

  lemma DirectoryOf(path: string)
    requires path != "" && path[0] == '/'
    ensures var segs := Split(path); Directory(path) == Joined(segs[..|segs| - 1]) + "/"
  {
    var n := LastSlash(path);
    SplitAt(path, n);
    JoinedSplit(path[..n]);
    WithoutLast(Split(path[..n]), path[n + 1..]);
    CutAt(path, n);
  }

  lemma CutAt(path: string, n: nat)
    requires n < |path| && path[n] == '/'
    ensures path[..n + 1] == path[..n] + "/"
  {
  }

  lemma WithoutLast(segs: seq<string>, seg: string)
    ensures (segs + [seg])[..|segs + [seg]| - 1] == segs
  {
  }

  lemma LinkText(dir: string, ups: string, climb: string, rest: string)
    requires "/" + ups == climb + "/"
    ensures (dir + "/") + (ups + rest) == dir + (climb + ("/" + rest))
    ensures IsRooted(climb + ("/" + rest))
  {
    assert (dir + "/") + (ups + rest) == dir + (("/" + ups) + rest);
    assert (climb + "/") + rest == climb + ("/" + rest);
    assert (("/" + ups) + rest)[0] == '/';
  }

  lemma NoText(s: string)
    ensures "" + s == s
  {
  }

  /** Climbing out of directories that are given as segments. */
  lemma ClimbedOutput(base: seq<string>, dropped: seq<string>, rest: string)
    requires NoDots(base) && NoDots(dropped) && NoDots(Split("/" + rest)) && IsRooted(Climb(|dropped|) + ("/" + rest))
    ensures RemoveDots(Joined(base + dropped) + (Climb(|dropped|) + ("/" + rest)), "") == Joined(base) + ("/" + rest)
  {
    MovesSegments(base + dropped, Climb(|dropped|) + ("/" + rest), "");
    Climbs("/" + rest, "", base, dropped);
    NoText(Joined(base));
    KeepsPlain(Split("/" + rest), Joined(base));
    JoinedSplit("/" + rest);
  }

  /** What k steps up lead to from a directory given as segments. */
  lemma ClimbedTo(kept: seq<string>, dropped: seq<string>, rest: string)
    requires NoDots(kept) && NoDots(dropped) && NoDots(Split("/" + rest))
    ensures RemoveDots((Joined(kept + dropped) + "/") + (Ups(|dropped|) + rest), "") == Joined(kept) + ("/" + rest)
  {
    UpsClimb(|dropped|);
    LinkText(Joined(kept + dropped), Ups(|dropped|), Climb(|dropped|), rest);
    ClimbedOutput(kept, dropped, rest);
  }

  /** A link of any number of steps up, from the page at the address `at`. */
  lemma UpwardResolves(at: string, kept: seq<string>, dropped: seq<string>, rest: string, fragment: string)
    requires at != "" && at[0] == '/' && NoDots(kept) && NoDots(dropped) && Split(at)[..|Split(at)| - 1] == kept + dropped
    requires NoDots(Split("/" + rest)) && '?' !in rest && ':' !in rest && '#' !in rest && IsFragment(fragment)
    requires dropped == [] ==> rest != "" && rest[0] != '/'
    ensures Resolve(at, Ups(|dropped|) + rest + fragment) == Some((Joined(kept) + ("/" + rest), fragment))
  {
    var path := Ups(|dropped|) + rest;
    UpwardLink(|dropped|, rest);
    ResolvesPath(at, path, fragment);
    DirectoryOf(at);
    ClimbedTo(kept, dropped, rest);
  }
}
