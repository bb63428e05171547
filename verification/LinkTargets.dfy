/**
 Where the relative links of `_GetRelateUrl` (Worker.cs of DownloadWebsite) lead among the files that were
 saved: an address is resolved as text, and then its escapes are decoded to give the path of a file.
 */
module LinkTargets {
  import opened Wrappers
  import opened Sequences
  import opened UriPaths
  import opened FileNames
  import opened LinkPaths

  function Decoded(decode: Decoder, segs: seq<string>): seq<string> {
    seq(|segs|, k requires 0 <= k < |segs| => decode(segs[k]))
  }

  /** An address of a file: its segments decode to those of the file's path. */
  ghost predicate IsAddressOf(decode: Decoder, at: string, path: string) {
    && at != "" && at[0] == '/' && '?' !in at && '#' !in at
    && IsRooted(path) && Split(path) == Decoded(decode, Split(at))
  }

  /** The link in the page at the address `at` leads to the file `target`, and to this fragment in it. */
  ghost predicate Leads(decode: Decoder, at: string, link: string, target: string, fragment: string) {
    var r := Resolve(at, link);
    r.Some? && decode(r.value.0) == target && r.value.1 == fragment
  }

  /** From the page's file, at any address of it, the link leads to the target if and only if it works. */
  ghost predicate LeadsExactlyIf(decode: Decoder, base: string, link: string, target: string, fragment: string, works: bool) {
    forall at :: IsAddressOf(decode, at, base) ==> (Leads(decode, at, link, target, fragment) <==> works)
  }

  /**
   When the link works.  In the first branch the page must really lie in the directory that is taken away,
   and what is left must not be empty or taken for an absolute path; in the second the loop must not
   stop too early.  In both, nothing of the target's name may be taken for a fragment or an escape.
   */
  ghost predicate LinkWorks(decode: Decoder, root: string, dir: string, base: string, target: string)
    requires root <= base && root <= target
  {
    if dir <= target then
      var rest := target[|dir|..];
      dir == Directory(base) && rest != "" && rest[0] != '/' && '#' !in rest && decode(rest) == rest
    else
      var rest := target[|root|..];
      base[|root|..] != "" && base[|root|] != '/' && '#' !in rest && decode(rest) == rest
  }

  // ----- decoding paths -----

  lemma {:induction false} DecodedJoined(decode: Decoder, segs: seq<string>)
    ensures decode(Joined(segs)) == Joined(Decoded(decode, segs))
  {
    if segs == [] {
      assert DecodesText(decode, "");
    } else {
      var front, seg := segs[..|segs| - 1], segs[|segs| - 1];
      DecodedJoined(decode, front);
      assert DecodesAround(decode, Joined(front), seg);
      assert segs == front + [seg];
      DecodedMore(decode, front, seg);
      JoinedMore(Decoded(decode, front), decode(seg));
    }
  }

  lemma DecodedMore(decode: Decoder, segs: seq<string>, seg: string)
    ensures Decoded(decode, segs + [seg]) == Decoded(decode, segs) + [decode(seg)]
  {
  }

  lemma AddressDecodes(decode: Decoder, at: string, path: string)
    requires IsAddressOf(decode, at, path)
    ensures decode(at) == path
  {
    DecodedJoined(decode, Split(at));
    JoinedSplit(at);
    JoinedSplit(path);
  }

  lemma AddressHasNoDots(decode: Decoder, at: string, path: string)
    requires IsAddressOf(decode, at, path) && NoDots(Split(path))
    ensures NoDots(Split(at))
  {
    var segs := Split(at);
    forall k | 0 <= k < |segs|
      ensures !IsDot(segs[k])
    {
      assert !IsDot(Split(path)[k]) && Split(path)[k] == decode(segs[k]);
      assert DecodesText(decode, ".") && DecodesText(decode, "..");
    }
  }

  // ----- counting slashes -----

  function Slashes(s: string): nat {
    if s == "" then 0 else Slashes(s[..|s| - 1]) + if s[|s| - 1] == '/' then 1 else 0
  }

  lemma {:induction false} SlashesConcat(a: string, b: string)
    ensures Slashes(a + b) == Slashes(a) + Slashes(b)
  {
    if b == "" {
      assert a + b == a;
    } else {
      SlashesConcat(a, b[..|b| - 1]);
      assert (a + b)[..|a + b| - 1] == a + b[..|b| - 1];
    }
  }

  lemma {:induction false} NoSlashes(s: string)
    requires '/' !in s
    ensures Slashes(s) == 0
  {
    if s != "" {
      NoSlashes(s[..|s| - 1]);
    }
  }

  lemma OneSlash(a: string, b: string)
    ensures Slashes(a + "/" + b) == Slashes(a) + 1 + Slashes(b)
  {
    SlashesConcat(a + "/", b);
    SlashesConcat(a, "/");
    assert "/"[..0] == "";
  }

  lemma {:induction false} SlashesJoined(segs: seq<string>)
    requires forall k :: 0 <= k < |segs| ==> '/' !in segs[k]
    ensures Slashes(Joined(segs)) == |segs|
  {
    if segs != [] {
      var front, seg := segs[..|segs| - 1], segs[|segs| - 1];
      SlashesJoined(front);
      NoSlashes(seg);
      OneSlash(Joined(front), seg);
    }
  }

  /** Decoding does not take slashes away. */
  lemma {:induction false} DecodeKeepsSlashes(decode: Decoder, s: string)
    ensures Slashes(decode(s)) >= Slashes(s)
    decreases |s|
  {
    var n := LastSlash(s);
    if n < 0 {
      NoSlashes(s);
    } else {
      var a, b := s[..n], s[n + 1..];
      AtSlash(s, n);
      DecodeKeepsSlashes(decode, a);
      NoSlashes(b);
      assert DecodesAround(decode, a, b);
      OneSlash(a, b);
      OneSlash(decode(a), decode(b));
    }
  }

  // ----- the file that is reached -----

  /** A path below some directory of another one: its first d segments, and a rest. */
  function Behind(base: string, d: nat, rest: string): string
    requires IsRooted(base) && d <= |Split(base)|
  {
    Joined(Split(base)[..d]) + "/" + rest
  }

  /** The same file only from the same directory, and only if nothing was decoded. */
  lemma SameFile(decode: Decoder, base: string, j: nat, d: nat, rest: string)
    requires IsRooted(base) && d <= j <= |Split(base)|
    ensures Behind(base, j, decode(rest)) == Behind(base, d, rest) <==> j == d && decode(rest) == rest
  {
    var segs := Split(base);
    if j == d {
      SameSuffix(Joined(segs[..j]) + "/", decode(rest), rest);
    } else {
      SlashesJoined(segs[..j]);
      SlashesJoined(segs[..d]);
      DecodeKeepsSlashes(decode, rest);
      OneSlash(Joined(segs[..j]), decode(rest));
      OneSlash(Joined(segs[..d]), rest);
    }
  }

  lemma SameSuffix(a: string, b: string, c: string)
    ensures a + b == a + c <==> b == c
  {
    if a + b == a + c {
      assert b == (a + b)[|a|..] && c == (a + c)[|a|..];
    }
  }

  /** A file below a directory of the page's address: its path decodes segment by segment. */
  lemma DecodedBelow(decode: Decoder, at: string, base: string, j: nat, rest: string)
    requires IsAddressOf(decode, at, base) && j <= |Split(at)|
    ensures decode(Joined(Split(at)[..j]) + ("/" + rest)) == Behind(base, j, decode(rest))
  {
    var kept := Split(at)[..j];
    Grouped(Joined(kept), "/", rest);
    assert DecodesAround(decode, Joined(kept), rest);
    DecodedJoined(decode, kept);
    assert Decoded(decode, kept) == Split(base)[..j];
  }

  /** The segments that a link leaves, and those it stays under. */
  lemma LeaveSegments(segs: seq<string>, levels: nat) returns (kept: seq<string>, dropped: seq<string>)
    requires NoDots(segs) && levels < |segs|
    ensures kept == segs[..|segs| - 1 - levels] && |dropped| == levels && segs[..|segs| - 1] == kept + dropped
    ensures NoDots(kept) && NoDots(dropped)
  {
    var j := |segs| - 1 - levels;
    kept, dropped := segs[..j], segs[j..|segs| - 1];
  }

  /** A page at an address, and a link in it of some steps up and a rest, with a fragment. */
  ghost predicate IsLink(decode: Decoder, at: string, base: string, levels: nat, rest: string, fragment: string) {
    && IsAddressOf(decode, at, base) && NoDots(Split(base)) && levels < |Split(base)|
    && NoDots(Split("/" + rest)) && '?' !in rest && ':' !in rest && IsFragment(fragment)
  }

  /** What a link leads to that climbs `levels` directories. */
  lemma ClimbLeads(decode: Decoder, at: string, base: string, levels: nat, rest: string, fragment: string)
    requires IsLink(decode, at, base, levels, rest, fragment) && '#' !in rest
    requires levels == 0 ==> rest != "" && rest[0] != '/'
    ensures Leads(decode, at, Ups(levels) + rest + fragment, Behind(base, |Split(base)| - 1 - levels, decode(rest)), fragment)
  {
    AddressHasNoDots(decode, at, base);
    var kept, dropped := LeaveSegments(Split(at), levels);
    UpwardResolves(at, kept, dropped, rest, fragment);
    DecodedBelow(decode, at, base, |kept|, rest);
  }

  /** A link leads to one file only. */
  lemma BehindOne(decode: Decoder, at: string, link: string, base: string, j: nat, d: nat, rest: string, fragment: string)
    requires IsRooted(base) && d <= j <= |Split(base)| && Leads(decode, at, link, Behind(base, j, decode(rest)), fragment)
    ensures Leads(decode, at, link, Behind(base, d, rest), fragment) <==> j == d && decode(rest) == rest
  {
    SameFile(decode, base, j, d, rest);
  }

  /**
   Every link of `_GetRelateUrl` is some steps up and a rest.  It leads to the target exactly when it climbs
   far enough and its rest is not taken for something else.
   */
  lemma LinkLeads(decode: Decoder, at: string, base: string, d: nat, levels: nat, rest: string, fragment: string)
    requires IsLink(decode, at, base, levels, rest, fragment) && d + levels < |Split(base)|
    requires levels == 0 && rest == "" ==> base != Behind(base, d, rest)
    ensures Leads(decode, at, Ups(levels) + rest + fragment, Behind(base, d, rest), fragment)
      <==> d + levels == |Split(base)| - 1 && '#' !in rest && decode(rest) == rest && (levels == 0 ==> rest != "" && rest[0] != '/')
  {
    UpwardLink(levels, rest);
    if '#' in rest {
      HashFails(at, Ups(levels) + rest, fragment);
    } else if levels == 0 && rest == "" {
      ResolvesPath(at, Ups(levels) + rest, fragment);
      AddressDecodes(decode, at, base);
    } else if levels == 0 && rest[0] == '/' {
      RootedFails(decode, at, rest, Behind(base, d, rest), fragment);
    } else {
      var j := |Split(base)| - 1 - levels;
      ClimbLeads(decode, at, base, levels, rest, fragment);
      BehindOne(decode, at, Ups(levels) + rest + fragment, base, j, d, rest, fragment);
    }
  }

  /** A link that begins with a slash leads to a path that is too short. */
  lemma RootedFails(decode: Decoder, at: string, rest: string, target: string, fragment: string)
    requires '?' !in rest && '#' !in rest && ':' !in rest && IsFragment(fragment)
    requires rest != "" && rest[0] == '/' && |rest| < |target|
    ensures !Leads(decode, at, rest + fragment, target, fragment)
  {
    ResolvesPath(at, rest, fragment);
    NeverLonger(rest, "");
    assert DecodesText(decode, RemoveDots(rest, ""));
  }

  // ----- the two branches -----

  lemma SlashBehind(dir: string, base: string)
    requires IsDirectory(dir) && dir <= base
    ensures '/' in base[|dir|..] ==> LastSlash(base) >= |dir|
    ensures '/' !in base[|dir|..] ==> LastSlash(base) == |dir| - 1
  {
    var name := base[|dir|..];
    if '/' in name {
      var i :| 0 <= i < |name| && name[i] == '/';
      assert base[|dir| + i] == '/';
    } else {
      assert forall i :: |dir| <= i < |base| ==> base[i] == name[i - |dir|];
      LastSlashIs(base, |dir| - 1);
    }
  }

  /** The page lies directly in the directory if and only if what is behind it is one segment. */
  lemma OneSegment(dir: string, base: string)
    requires IsDirectory(dir) && dir <= base && dir != base
    ensures |Split("/" + base[|dir|..])| == 1 <==> dir == Directory(base)
  {
    SlashBehind(dir, base);
    LevelsAre(base[|dir|..]);
  }

  /** A target in or below a directory of the page. */
  lemma BehindDirectory(dir: string, base: string, target: string) returns (d: nat)
    requires IsDirectory(dir) && dir <= base && dir <= target && IsFilePath(base) && IsFilePath(target)
    ensures d < |Split(base)| == d + |Split("/" + base[|dir|..])|
    ensures target == Behind(base, d, target[|dir|..])
    ensures var rest := target[|dir|..]; NoDots(Split("/" + rest)) && '?' !in rest && ':' !in rest
  {
    var top, rest := dir[..|dir| - 1], target[|dir|..];
    Under(dir, base);
    Under(dir, target);
    d := |Split(top)|;
    SplitConcat(top, "/" + base[|dir|..]);
    assert Split(base)[..d] == Split(top);
    JoinedSplit(top);
    Grouped(top, "/", rest);
  }

  lemma NoUps(levels: nat, rest: string)
    requires levels == 0
    ensures Ups(levels) + rest == rest
  {
  }

  lemma WholeRest(dir: string, target: string)
    requires dir <= target
    ensures target[|dir|..] == "" ==> target == dir
  {
  }

  lemma BelowWorks(decode: Decoder, at: string, dir: string, base: string, target: string, fragment: string)
    requires IsAddressOf(decode, at, base) && IsFilePath(base) && IsFilePath(target) && IsFragment(fragment)
    requires IsDirectory(dir) && dir <= base && dir != base && dir <= target
    ensures var rest := target[|dir|..];
      Leads(decode, at, rest + fragment, target, fragment)
      <==> dir == Directory(base) && rest != "" && rest[0] != '/' && '#' !in rest && decode(rest) == rest
  {
    var rest := target[|dir|..];
    var d := BehindDirectory(dir, base, target);
    OneSegment(dir, base);
    WholeRest(dir, target);
    NoUps(0, rest);
    LinkLeads(decode, at, base, d, 0, rest, fragment);
  }

  /** A page directly in the web root has everything in or below its directory. */
  lemma NotAtRoot(root: string, dir: string, base: string, target: string)
    requires IsDirectory(root) && root <= base && root <= target
    requires IsDirectory(dir) && dir <= base && !(dir <= target)
    ensures Directory(base) != root
  {
    assert dir[|dir| - 1] == base[|dir| - 1];
    assert dir <= Directory(base);
    Prefixes(dir, Directory(base), target);
  }

  lemma Prefixes(a: string, b: string, c: string)
    requires a <= b
    ensures b <= c ==> a <= c
  {
  }

  /** The loop must get as far as the web root. */
  lemma AboveWorks(decode: Decoder, at: string, root: string, dir: string, base: string, target: string, fragment: string)
    requires IsAddressOf(decode, at, base) && IsFilePath(base) && IsFilePath(target) && IsFragment(fragment)
    requires IsDirectory(root) && root <= base && root <= target && IsDirectory(dir) && dir <= base && !(dir <= target)
    ensures base[|root|..] != ""
    ensures var rest := target[|root|..];
      Leads(decode, at, Ups(Levels(base[|root|..])) + rest + fragment, target, fragment)
      <==> base[|root|] != '/' && '#' !in rest && decode(rest) == rest
  {
    var rest, below := target[|root|..], base[|root|..];
    assert base != root && base != target;
    var d := BehindDirectory(root, base, target);
    LevelsAre(below);
    OneSegment(root, base);
    NotAtRoot(root, dir, base, target);
    LinkLeads(decode, at, base, d, Levels(below), rest, fragment);
  }

  /** The link leads to the target if and only if `LinkWorks`, whatever the page's address is. */
  lemma LinksLeadToTarget(decode: Decoder, root: string, dir: string, base: string, target: string, fragment: string)
    requires IsFilePath(base) && IsFilePath(target) && IsFragment(fragment)
    requires IsDirectory(root) && root <= base && root <= target
    requires IsDirectory(dir) && dir <= base && dir != base
    ensures LeadsExactlyIf(decode, base, Href(root, dir, base, target) + fragment, target, fragment,
                           LinkWorks(decode, root, dir, base, target))
  {
    forall at | IsAddressOf(decode, at, base)
      ensures Leads(decode, at, Href(root, dir, base, target) + fragment, target, fragment) <==> LinkWorks(decode, root, dir, base, target)
    {
      if dir <= target {
        BelowWorks(decode, at, dir, base, target, fragment);
      } else {
        AboveWorks(decode, at, root, dir, base, target, fragment);
      }
    }
  }
}
