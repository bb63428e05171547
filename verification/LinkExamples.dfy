/**
 Links of `_GetRelateUrl` (c#/other/DownloadWebsite) that lead elsewhere: the addresses of a page and a
 target on one server for each part of the condition under which they work.
 */
module LinkExamples {
  import opened Wrappers
  import opened Sequences
  import opened UriPaths
  import opened FileNames
  import opened LinkPaths
  import opened LinkTargets
  import opened PercentCodes
  import opened RelateUrl

  /** The first page, whose directory is the web root, a page, and what it has a link to. */
  datatype Example = Example(first: WebUri, page: WebUri, to: WebUri) {
    predicate Of(firstPath: string, pagePath: string, toPath: string) {
      && first == Uri("http", "", "h", firstPath, "", "")
      && page == Uri("http", "", "h", pagePath, "", "")
      && to == Uri("http", "", "h", toPath, "", "")
    }

    /** `_GetRelateUrl` gives a link, and from no address of the page's file it leads to the target's file. */
    ghost predicate LeadsElsewhere(decode: Decoder) {
      LinksAway(decode, first.Host() + Directory(first.FilePath()), Converted(decode, Directory(first.FilePath())),
                PartsOf(decode, page), PartsOf(decode, to), to.fragment)
    }
  }

  ghost predicate LinksAway(decode: Decoder, urlDir: string, root: string, page: Parts, to: Parts, fragment: string) {
    && !to.hasQuery && urlDir <= page.urlFull && urlDir <= to.urlFull && page.urlFull != to.urlFull
    && IsPlainPath(page.filePath) && IsPlainPath(to.filePath) && root <= page.filePath && root <= to.filePath
    && LeadsExactlyIf(decode, page.filePath, Href(root, page.fileDir, page.filePath, to.filePath) + fragment, to.filePath, fragment, false)
    && Exists(decode, page.filePath)
  }

  /** The file can be visited. */
  ghost predicate Exists(decode: Decoder, path: string) {
    exists at :: IsAddressOf(decode, at, path)
  }

  // ----- places -----

  /** A directory without its last slash and a name in it, and what they decode to. */
  datatype Place = Place(front: string, name: string, fileFront: string, fileName: string) {
    function Path(): string { front + "/" + name }

    function File(): string { fileFront + "/" + fileName }

    predicate Ok(decode: Decoder) {
      && IsRooted(front) && IsRooted(fileFront) && '/' !in name && name != "" && fileName != ""
      && '?' !in front && '#' !in front && '?' !in name && '#' !in name
      && decode(front) == fileFront && decode(name) == fileName && NoneInvalid(fileFront) && NoneInvalid(fileName)
    }
  }

  predicate NoneInvalid(s: string) {
    forall c :: c in s ==> !IsInvalid(c)
  }

  function Page(path: string): (u: Uri)
    requires path != "" && path[0] == '/' && '?' !in path && '#' !in path
    ensures u.Ok()
  {
    Uri("http", "", "h", path, "", "")
  }

  /** The parts of the address of a page. */
  ghost predicate IsAt(decode: Decoder, u: WebUri, p: Parts, at: Place) {
    && u == Uri("http", "", "h", u.path, "", "") && u.path == at.Path() && Directory(u.FilePath()) == at.front + "/"
    && p == PartsOf(decode, u) && !p.hasQuery && p.urlFull == u.Host() + u.path
    && p.fileDir == Converted(decode, at.front + "/") == at.fileFront + "/" && p.filePath == at.File()
  }

  lemma PageAt(decode: Decoder, at: Place) returns (u: WebUri, p: Parts)
    requires at.Ok(decode)
    ensures IsAt(decode, u, p, at)
  {
    var path := at.Path();
    NameIsLast(at.front, at.name);
    u := Page(path);
    PlaceConverted(decode, at);
    NoMoreText(u.Host(), path);
    p := PartsOf(decode, u);
  }

  lemma NameIsLast(front: string, name: string)
    requires '/' !in name && name != ""
    ensures var path := front + "/" + name; LastSlash(path) == |front| && Directory(path) == front + "/" && !EndsWith(path, "/")
  {
    var path := front + "/" + name;
    assert path[|path| - 1] == name[|name| - 1];
    LastSlashIs(path, |front|);
  }

  lemma PlaceConverted(decode: Decoder, at: Place)
    requires at.Ok(decode)
    ensures Converted(decode, at.front + "/") == at.fileFront + "/" && Converted(decode, at.Path()) == at.File()
  {
    EscapeValid(at.fileFront);
    EscapeValid(at.fileName);
    FrontConverted(decode, at.front);
    ConvertedAround(decode, at.front, at.name);
  }

  lemma {:induction false} EscapeValid(s: string)
    requires NoneInvalid(s)
    ensures Escape(s) == s
  {
    if s != "" {
      EscapeValid(s[..|s| - 1]);
    }
  }

  lemma NoMoreText(host: string, path: string)
    ensures host + path + "" + "" == host + path
  {
  }

  /** Both pages are on the site. */
  lemma OnSite(host: string, front: string, page: string, to: string)
    requires front <= page && front <= to && page != to
    ensures host + front <= host + page && host + front <= host + to && host + page != host + to
  {
    SameSuffix(host, page, to);
  }

  lemma InDirectory(at: Place)
    requires IsRooted(at.fileFront) && at.fileName != ""
    ensures IsDirectory(at.fileFront + "/") && at.fileFront + "/" <= at.File() && at.fileFront + "/" != at.File()
  {
    var dir := at.fileFront + "/";
    assert at.File() == dir + at.fileName;
    assert |at.File()| > |dir|;
  }

  /** A link that does not work. */
  lemma Fails(decode: Decoder, urlDir: string, root: string, page: Parts, to: Parts)
    requires !to.hasQuery && urlDir <= page.urlFull && urlDir <= to.urlFull && page.urlFull != to.urlFull
    requires IsFilePath(page.filePath) && IsFilePath(to.filePath) && IsDirectory(root) && root <= page.filePath && root <= to.filePath
    requires IsDirectory(page.fileDir) && page.fileDir <= page.filePath && page.fileDir != page.filePath
    requires !LinkWorks(decode, root, page.fileDir, page.filePath, to.filePath) && Exists(decode, page.filePath)
    ensures LinksAway(decode, urlDir, root, page, to, "")
  {
    LinksLeadToTarget(decode, root, page.fileDir, page.filePath, to.filePath, "");
  }

  /** The example of three places. */
  lemma Elsewhere(decode: Decoder, first: Place, page: Place, to: Place) returns (e: Example)
    requires first.Ok(decode) && page.Ok(decode) && to.Ok(decode) && IsFilePath(page.File()) && IsFilePath(to.File())
    requires first.front + "/" <= page.Path() && first.front + "/" <= to.Path() && page.Path() != to.Path()
    requires var root := first.fileFront + "/";
      && root <= page.File() && root <= to.File() && !LinkWorks(decode, root, page.fileFront + "/", page.File(), to.File())
    requires Exists(decode, page.File())
    ensures e.Of(first.Path(), page.Path(), to.Path()) && e.LeadsElsewhere(decode)
  {
    var f, a := PageAt(decode, first);
    var u, p := PageAt(decode, page);
    var v, t := PageAt(decode, to);
    e := Example(f, u, v);
    InDirectory(first);
    InDirectory(page);
    OnSite(f.Host(), first.front + "/", u.path, v.path);
    Fails(decode, f.Host() + (first.front + "/"), first.fileFront + "/", p, t);
  }

  // ----- files -----

  predicate IsPlainName(seg: string) {
    seg != "." && seg != ".." && '/' !in seg && '?' !in seg && ':' !in seg
  }

  predicate IsPlainDir(path: string) {
    IsRooted(path) && NoDots(Split(path)) && '?' !in path && ':' !in path
  }

  lemma MoreSegments(path: string, c: string)
    requires IsPlainDir(path) && IsPlainName(c)
    ensures IsPlainDir(path + "/" + c) && IsFilePath(path + "/" + c)
  {
    SplitMore(path, c);
    TextMore(path, c);
  }

  lemma TextMore(path: string, c: string)
    requires IsRooted(path)
    ensures var whole := path + "/" + c;
      whole != "" && whole[0] == '/' && forall d :: d in whole ==> d in path || d == '/' || d in c
  {
  }

  /** A name without escapes and without characters that file names may not have. */
  predicate IsOrdinary(name: string) {
    name != "" && IsPlainName(name) && '#' !in name && '%' !in name && NoneInvalid(name)
  }

  /** A directory of one segment, or this and an empty one, without the last slash. */
  function Dir(a: string, empty: bool): string {
    if empty then "/" + a + "/" else "/" + a
  }

  lemma DirIs(none: string, a: string)
    requires none == ""
    ensures Dir(a, false) == none + "/" + a && Dir(a, true) == Dir(a, false) + "/" + none
  {
  }

  lemma Nested(a: string, empty: bool, name: string)
    requires IsOrdinary(a) && IsPlainName(name)
    ensures IsFilePath(Dir(a, empty) + "/" + name)
  {
    var none := "";
    DirIs(none, a);
    MoreSegments(none, a);
    MoreSegments(Dir(a, false), none);
    MoreSegments(Dir(a, empty), name);
  }

  lemma Below(a: string, empty: bool, name: string)
    ensures Dir(a, false) + "/" <= Dir(a, empty) + "/" + name
  {
  }

  lemma DirIsPlain(a: string, empty: bool)
    requires IsOrdinary(a)
    ensures var d := Dir(a, empty); IsRooted(d) && '#' !in d && '?' !in d && '%' !in d && NoneInvalid(d)
  {
    assert !IsInvalid('/');
  }

  /** The name is decoded, the directory has nothing to decode. */
  lemma PlaceIn(decode: Decoder, a: string, empty: bool, name: string, fileName: string) returns (at: Place)
    requires IsOrdinary(a) && name != "" && '/' !in name && '?' !in name && '#' !in name
    requires decode(name) == fileName && NoneInvalid(fileName)
    ensures at == Place(Dir(a, empty), name, Dir(a, empty), fileName) && at.Ok(decode)
  {
    DirIsPlain(a, empty);
    at := Place(Dir(a, empty), name, Dir(a, empty), fileName);
    assert DecodesText(decode, Dir(a, empty)) && DecodesText(decode, name);
  }

  lemma OrdinaryPlace(decode: Decoder, a: string, empty: bool, name: string) returns (at: Place)
    requires IsOrdinary(a) && IsOrdinary(name)
    ensures at == Place(Dir(a, empty), name, Dir(a, empty), name) && at.Ok(decode) && IsFilePath(at.File())
    ensures Dir(a, false) + "/" <= at.File() == at.Path()
  {
    assert DecodesText(decode, name) && IsInvalid('?');
    at := PlaceIn(decode, a, empty, name, name);
    Nested(a, empty, name);
    Below(a, empty, name);
  }

  /** A page and a target under a web root of one segment. */
  lemma UnderDir(decode: Decoder, a: string, f: string, page: Place, to: Place, pageEmpty: bool, toEmpty: bool) returns (e: Example)
    requires IsOrdinary(a) && IsOrdinary(f) && page.Ok(decode) && to.Ok(decode) && Exists(decode, page.File())
    requires page.front == page.fileFront == Dir(a, pageEmpty) && to.front == to.fileFront == Dir(a, toEmpty)
    requires IsFilePath(page.File()) && IsFilePath(to.File()) && page.Path() != to.Path()
    requires Dir(a, false) + "/" <= page.File() && Dir(a, false) + "/" <= to.File()
    requires !LinkWorks(decode, Dir(a, false) + "/", page.fileFront + "/", page.File(), to.File())
    ensures e.Of(Dir(a, false) + "/" + f, page.Path(), to.Path()) && e.LeadsElsewhere(decode)
  {
    var first := OrdinaryPlace(decode, a, false, f);
    Below(a, pageEmpty, page.name);
    Below(a, toEmpty, to.name);
    e := Elsewhere(decode, first, page, to);
  }

  // ----- links that lead elsewhere -----

  lemma SlashInFront(decode: Decoder, root: string, dir: string, base: string, target: string, y: string)
    requires target == dir + "/" + y && root <= base && root <= target
    ensures !LinkWorks(decode, root, dir, base, target)
  {
    assert target[|dir|..] == "/" + y;
  }

  lemma DirNotEmpty(a: string, x: string, y: string)
    requires '/' !in x && '/' !in y && '/' !in a
    ensures Dir(a, false) + "/" + x != Dir(a, true) + "/" + y
  {
    var n := |a| + 1;
    if x != "" {
      assert (Dir(a, false) + "/" + x)[n + 1] == x[0];
      assert (Dir(a, true) + "/" + y)[n + 1] == '/';
    }
  }

  /** The target has an empty segment right behind the page's directory: the link begins with a slash. */
  lemma EmptySegment(decode: Decoder, f: string, a: string, x: string, y: string) returns (e: Example)
    requires IsOrdinary(f) && IsOrdinary(a) && IsOrdinary(x) && IsOrdinary(y) && Exists(decode, Dir(a, false) + "/" + x)
    ensures e.Of(Dir(a, false) + "/" + f, Dir(a, false) + "/" + x, Dir(a, true) + "/" + y) && e.LeadsElsewhere(decode)
  {
    var page := OrdinaryPlace(decode, a, false, x);
    var to := OrdinaryPlace(decode, a, true, y);
    DirNotEmpty(a, x, y);
    SlashInFront(decode, Dir(a, false) + "/", Dir(a, false) + "/", page.File(), to.File(), y);
    e := UnderDir(decode, a, f, page, to, false, true);
  }

  lemma Misread(decode: Decoder, root: string, dir: string, base: string, target: string, name: string)
    requires target == dir + name && root <= base && root <= target
    requires '#' in name || decode(name) != name
    ensures !LinkWorks(decode, root, dir, base, target)
  {
    assert target[|dir|..] == name;
  }

  lemma DifferentNames(dir: string, x: string, y: string)
    requires x != y
    ensures dir + "/" + x != dir + "/" + y
  {
    SameSuffix(dir + "/", x, y);
  }

  /** The target's name decodes to one with a hash or with an escape: it is taken for a fragment or decoded once more. */
  lemma MisreadName(decode: Decoder, f: string, a: string, x: string, y: string, fileName: string) returns (e: Example)
    requires IsOrdinary(f) && IsOrdinary(a) && IsOrdinary(x) && Exists(decode, Dir(a, false) + "/" + x)
    requires y != "" && y != x && '/' !in y && '?' !in y && '#' !in y && decode(y) == fileName
    requires IsPlainName(fileName) && NoneInvalid(fileName) && ('#' in fileName || decode(fileName) != fileName)
    ensures e.Of(Dir(a, false) + "/" + f, Dir(a, false) + "/" + x, Dir(a, false) + "/" + y) && e.LeadsElsewhere(decode)
  {
    var page := OrdinaryPlace(decode, a, false, x);
    var to := PlaceIn(decode, a, false, y, fileName);
    Nested(a, false, fileName);
    Below(a, false, fileName);
    DifferentNames(Dir(a, false), x, y);
    Misread(decode, Dir(a, false) + "/", Dir(a, false) + "/", page.File(), to.File(), fileName);
    e := UnderDir(decode, a, f, page, to, false, false);
  }

  lemma NotInDirectory(decode: Decoder, root: string, dir: string, base: string, target: string, x: string)
    requires base == dir + "/" + x && '/' !in x && dir <= target && root <= base && root <= target
    ensures !LinkWorks(decode, root, dir, base, target)
  {
    LastSlashIs(base, |dir|);
  }

  lemma SlashName(a: string, x: string)
    ensures Dir(a, false) + "/" + ("/" + x) == Dir(a, true) + "/" + x == (Dir(a, false) + "/") + "/" + x
  {
  }

  /** The page's name has an escaped slash: its file lies one directory below the one it is said to lie in. */
  lemma SlashInName(decode: Decoder, f: string, a: string, name: string, x: string, y: string) returns (e: Example)
    requires IsOrdinary(f) && IsOrdinary(a) && IsOrdinary(x) && IsOrdinary(y) && Exists(decode, Dir(a, true) + "/" + x)
    requires name != "" && name != y && '/' !in name && '?' !in name && '#' !in name && decode(name) == "/" + x
    ensures e.Of(Dir(a, false) + "/" + f, Dir(a, false) + "/" + name, Dir(a, false) + "/" + y) && e.LeadsElsewhere(decode)
  {
    assert !IsInvalid('/');
    var page := PlaceIn(decode, a, false, name, "/" + x);
    var to := OrdinaryPlace(decode, a, false, y);
    SlashName(a, x);
    Nested(a, true, x);
    Below(a, true, x);
    DifferentNames(Dir(a, false), name, y);
    NotInDirectory(decode, Dir(a, false) + "/", Dir(a, false) + "/", page.File(), to.File(), x);
    e := UnderDir(decode, a, f, page, to, false, false);
  }

  lemma StopsEarly(decode: Decoder, root: string, dir: string, base: string, target: string, x: string)
    requires base == root + "/" + x && root <= target && !(dir <= target)
    ensures !LinkWorks(decode, root, dir, base, target)
  {
    assert base[|root|..] == "/" + x;
  }

  lemma NoPrefix(a: string, y: string)
    requires y != "" && '/' !in y
    ensures !(Dir(a, true) + "/" <= Dir(a, false) + "/" + y)
  {
    var n := |a| + 2;
    assert (Dir(a, true) + "/")[n] == '/';
    assert (Dir(a, false) + "/" + y)[n] == y[0];
  }

  /** The page has an empty segment right behind the web root: the loop stops too early. */
  lemma EmptyBehindRoot(decode: Decoder, f: string, a: string, x: string, y: string) returns (e: Example)
    requires IsOrdinary(f) && IsOrdinary(a) && IsOrdinary(x) && IsOrdinary(y) && Exists(decode, Dir(a, true) + "/" + x)
    ensures e.Of(Dir(a, false) + "/" + f, Dir(a, true) + "/" + x, Dir(a, false) + "/" + y) && e.LeadsElsewhere(decode)
  {
    var page := OrdinaryPlace(decode, a, true, x);
    var to := OrdinaryPlace(decode, a, false, y);
    DirNotEmpty(a, y, x);
    NoPrefix(a, y);
    SlashName(a, x);
    StopsEarly(decode, Dir(a, false) + "/", Dir(a, true) + "/", page.File(), to.File(), x);
    e := UnderDir(decode, a, f, page, to, true, false);
  }

  // ----- one input of each kind -----

  lemma Names() returns (f: string, a: string, x: string, y: string)
    ensures f == "f" && a == "a" && x == "x" && y == "y"
    ensures IsOrdinary(f) && IsOrdinary(a) && IsOrdinary(x) && IsOrdinary(y)
  {
    f, a, x, y := "f", "a", "x", "y";
  }

  /** An escaped slash. */
  lemma SlashCode() returns (name: string)
    ensures name == "%2Fx" && PercentDecode(name) == "/" + "x"
  {
    name := "%2Fx";
  }

  /** An escaped hash, and what it decodes to. */
  lemma HashCode() returns (name: string, fileName: string)
    ensures name == "%23y" && PercentDecode(name) == fileName
    ensures '#' in fileName && IsPlainName(fileName) && NoneInvalid(fileName)
  {
    name, fileName := "%23y", "#y";
    assert fileName[0] == '#';
  }

  /** An escaped percent sign in front of two digits. */
  lemma PercentCode() returns (name: string, fileName: string)
    ensures name == "x%2541" && PercentDecode(name) == fileName
    ensures PercentDecode(fileName) != fileName && IsPlainName(fileName) && NoneInvalid(fileName)
  {
    TwoCodes();
    name, fileName := "x%2541", "x%41";
    IsFileName(fileName);
  }

  lemma IsFileName(name: string)
    requires name == "x%41"
    ensures IsPlainName(name) && NoneInvalid(name)
  {
  }

  lemma TwoCodes()
    ensures PercentDecode("x%2541") == "x%41" && PercentDecode("x%41") == "xA"
  {
  }

  lemma Paths(f: string, a: string, x: string, y: string)
    requires f == "f" && a == "a" && x == "x" && y == "y"
    ensures Dir(a, false) + "/" + f == "/a/f" && Dir(a, false) + "/" + x == "/a/x" && Dir(a, false) + "/" + y == "/a/y"
    ensures Dir(a, true) + "/" + x == "/a//x" && Dir(a, true) + "/" + y == "/a//y"
  {
  }

  lemma EmptySegmentFails() returns (e: Example)
    ensures e.Of("/a/f", "/a/x", "/a//y") && Decodes(PercentDecode) && e.LeadsElsewhere(PercentDecode)
  {
    var f, a, x, y := Names();
    Paths(f, a, x, y);
    HasAddress(Dir(a, false) + "/" + x);
    e := EmptySegment(PercentDecode, f, a, x, y);
  }

  lemma EmptyBehindRootFails() returns (e: Example)
    ensures e.Of("/a/f", "/a//x", "/a/y") && Decodes(PercentDecode) && e.LeadsElsewhere(PercentDecode)
  {
    var f, a, x, y := Names();
    Paths(f, a, x, y);
    HasAddress(Dir(a, true) + "/" + x);
    e := EmptyBehindRoot(PercentDecode, f, a, x, y);
  }

  lemma EscapedSlashFails() returns (e: Example)
    ensures e.Of("/a/f", "/a/%2Fx", "/a/y") && Decodes(PercentDecode) && e.LeadsElsewhere(PercentDecode)
  {
    var f, a, x, y := Names();
    var name := SlashCode();
    Paths(f, a, x, y);
    assert Dir(a, false) + "/" + name == "/a/%2Fx";
    HasAddress(Dir(a, true) + "/" + x);
    e := SlashInName(PercentDecode, f, a, name, x, y);
  }

  lemma HashFailsToo() returns (e: Example)
    ensures e.Of("/a/f", "/a/x", "/a/%23y") && Decodes(PercentDecode) && e.LeadsElsewhere(PercentDecode)
  {
    var f, a, x, y := Names();
    var name, fileName := HashCode();
    Paths(f, a, x, y);
    assert Dir(a, false) + "/" + name == "/a/%23y";
    HasAddress(Dir(a, false) + "/" + x);
    e := MisreadName(PercentDecode, f, a, x, name, fileName);
  }

  lemma EscapeFails() returns (e: Example)
    ensures e.Of("/a/f", "/a/x", "/a/x%2541") && Decodes(PercentDecode) && e.LeadsElsewhere(PercentDecode)
  {
    var f, a, x, y := Names();
    var name, fileName := PercentCode();
    Paths(f, a, x, y);
    assert Dir(a, false) + "/" + name == "/a/x%2541";
    HasAddress(Dir(a, false) + "/" + x);
    e := MisreadName(PercentDecode, f, a, x, name, fileName);
  }
}
