/**
 Addresses and relative links of the web site copier (c#/other/DownloadWebsite): the parts that
 `XUrl` cuts an address into, and `_GetRelateUrl` of `Worker`.
 */
module RelateUrl {
  import opened Wrappers
  import opened Sequences
  import opened UriPaths
  import opened FileNames
  import opened LinkPaths
  import opened LinkTargets

  // ----- XHttp.cs -----

  /** The parts of a `System.Uri` of scheme http or https; the path is still escaped. */
  datatype Uri = Uri(scheme: string, userInfo: string, authority: string, path: string, query: string, fragment: string) {
    predicate Ok() {
      && '/' !in scheme && '/' !in userInfo && '/' !in authority
      && path != "" && path[0] == '/' && '?' !in path && '#' !in path
      && (query == "" || query[0] == '?') && (fragment == "" || fragment[0] == '#')
    }

    function Server(): string {
      userInfo + (if |userInfo| > 0 then "@" else "") + authority
    }

    function Host(): string {
      scheme + "://" + Server()
    }

    /** The path with a file name for a directory. */
    function FilePath(): string {
      if EndsWith(path, "/") then path + "index.html" else path
    }

    function Full(): string {
      Host() + FilePath() + query + fragment
    }
  }

  type WebUri = u: Uri | u.Ok() witness Uri("http", "", "localhost", "/", "", "")

  predicate EndsWith(s: string, end: string) {
    |end| <= |s| && s[|s| - |end|..] == end
  }

  /** What `XUrl` knows about an address. */
  datatype Parts = Parts(fileDir: string, filePath: string, fileName: string, urlHost: string, urlDir: string,
                         urlPath: string, urlFull: string, addIndex: bool, isHtml: bool, hasQuery: bool)

  function PartsOf(decode: Decoder, u: Uri): Parts {
    var path, host := u.FilePath(), u.Host();
    var dir := Directory(path);
    var name := path[|dir|..];
    Parts(Converted(decode, dir), Converted(decode, path), Converted(decode, name), host, host + dir, host + path, u.Full(),
          EndsWith(u.path, "/"), EndsWith(name, ".html"), u.query != "")
  }

  class XUrl {
    const decode: Decoder
    var uri: WebUri
    var fileDir: string
    var filePath: string
    var fileName: string
    var urlHost: string
    var urlDir: string
    var urlPath: string
    var urlFull: string
    var addIndex: bool
    var isHtml: bool
    var hasQuery: bool

    function Value(): Parts
      reads this
    {
      Parts(fileDir, filePath, fileName, urlHost, urlDir, urlPath, urlFull, addIndex, isHtml, hasQuery)
    }

    ghost predicate Valid()
      reads this
    {
      Value() == PartsOf(decode, uri)
    }

    constructor (decode: Decoder, uri: WebUri)
      ensures Valid() && this.uri == uri && this.decode == decode
    {
      this.decode := decode;
      new;
      InitInfoFromUri(uri);
    }

    /**
     The file path is the directory and the name, in it is no character that file names may not have, and
     the addresses are made of the same parts before they are converted.
     */
    method InitInfoFromUri(u: WebUri)
      modifies this
      ensures uri == u && Value() == PartsOf(decode, u)
      ensures Fit(Value(), u)
    {
      var p := Cut(decode, u);
      SetParts(p);
      uri := u;
      PartsFit(decode, u);
    }

    method SetParts(p: Parts)
      modifies this
      ensures Value() == p
    {
      filePath, addIndex, fileDir, fileName := p.filePath, p.addIndex, p.fileDir, p.fileName;
      urlHost, urlDir, urlPath, urlFull, isHtml, hasQuery := p.urlHost, p.urlDir, p.urlPath, p.urlFull, p.isHtml, p.hasQuery;
    }
  }

  /** What `InitInfoFromUri` assigns to the fields, in the order of its statements. */
  method Cut(decode: Decoder, u: Uri) returns (p: Parts)
    ensures p == PartsOf(decode, u)
  {
    var path, added := u.path, false;
    if EndsWith(path, "/") {
      path := path + "index.html";
      added := true;
    }
    assert path == u.FilePath();
    var dir := path[..LastSlash(path) + 1];
    var name, host := path[|dir|..], u.Host();
    var urlDir, urlPath := host + dir, host + path;
    var full := urlPath + u.query + u.fragment;
    var html := EndsWith(name, ".html");
    var filePath := ConvertUrlFragToPath(decode, path);
    var fileDir := ConvertUrlFragToPath(decode, dir);
    var fileName := ConvertUrlFragToPath(decode, name);
    p := Parts(fileDir, filePath, fileName, host, urlDir, urlPath, full, added, html, u.query != "");
  }

  /** The parts fit together. */
  ghost predicate Fit(p: Parts, u: WebUri) {
    && p.filePath == p.fileDir + p.fileName && IsDirectory(p.fileDir) && p.fileName != ""
    && (forall c :: c in p.filePath ==> !IsInvalid(c))
    && p.urlDir <= p.urlPath && p.urlDir != p.urlPath && p.urlFull == p.urlPath + u.query + u.fragment
    && p.urlHost == u.Host() && p.urlPath == p.urlHost + u.path + (if p.addIndex then "index.html" else "")
    && (p.hasQuery <==> u.query != "")
    && (p.addIndex <==> u.path[|u.path| - 1] == '/')
    && (p.isHtml <==> EndsWith(u.path + (if p.addIndex then "index.html" else ""), ".html"))
  }

  lemma PartsFit(decode: Decoder, u: WebUri)
    ensures Fit(PartsOf(decode, u), u)
  {
    var path := u.FilePath();
    var dir := Directory(path);
    var name := path[|dir|..];
    FileNameIsLast(u);
    DirectoryConverted(decode, dir, name);
    ConvertedText(decode, path);
    LastIsSlash(u.path);
    SameEnd(dir, name, ".html");
    AddressFits(u, dir, name);
  }

  /** The addresses are made of host, path, query and fragment. */
  lemma AddressFits(u: WebUri, dir: string, name: string)
    requires u.FilePath() == dir + name && name != ""
    ensures u.Host() + dir <= u.Host() + u.FilePath() && u.Host() + dir != u.Host() + u.FilePath()
    ensures u.Full() == u.Host() + u.FilePath() + u.query + u.fragment
    ensures var end := if EndsWith(u.path, "/") then "index.html" else "";
      u.FilePath() == u.path + end && u.Host() + u.FilePath() == u.Host() + u.path + end
  {
    Grouped(u.Host(), dir, name);
    Grouped(u.Host(), u.path, if EndsWith(u.path, "/") then "index.html" else "");
  }

  /** An ending without slashes lies in the name. */
  lemma SameEnd(dir: string, name: string, end: string)
    requires dir != "" && dir[|dir| - 1] == '/' && '/' !in end
    ensures EndsWith(dir + name, end) <==> EndsWith(name, end)
  {
    var path := dir + name;
    if |end| <= |name| {
      assert path[|path| - |end|..] == name[|name| - |end|..];
    } else if |end| <= |path| {
      var k := |dir| - 1 - (|path| - |end|);
      assert path[|path| - |end|..][k] == dir[|dir| - 1];
    }
  }

  /** Cutting at a slash and converting may change places. */
  lemma DirectoryConverted(decode: Decoder, dir: string, name: string)
    requires IsDirectory(dir)
    ensures Converted(decode, dir + name) == Converted(decode, dir) + Converted(decode, name)
    ensures IsDirectory(Converted(decode, dir)) && (name != "" ==> Converted(decode, name) != "")
  {
    var front := dir[..|dir| - 1];
    EndsInSlash(dir);
    FrontConverted(decode, front);
    ConvertedAround(decode, front, name);
    Grouped(Converted(decode, front), "/", Converted(decode, name));
    ConvertedText(decode, name);
    RootConverted(decode, dir);
  }

  lemma FrontConverted(decode: Decoder, front: string)
    ensures Converted(decode, front + "/") == Converted(decode, front) + "/"
  {
    ConvertedAround(decode, front, "");
    ConvertedText(decode, "");
    NoTextBehind(front + "/");
    NoTextBehind(Converted(decode, front) + "/");
  }

  lemma NoTextBehind(s: string)
    ensures s + "" == s
  {
  }

  lemma RootConverted(decode: Decoder, path: string)
    requires path != "" && path[0] == '/'
    ensures var p := Converted(decode, path); p != "" && p[0] == '/'
  {
    assert path == "" + "/" + path[1..];
    ConvertedAround(decode, "", path[1..]);
    ConvertedText(decode, "");
  }

  /** The path that `InitInfoFromUri` cuts has a directory and a name. */
  lemma FileNameIsLast(u: WebUri)
    ensures var path := u.FilePath(); var dir := Directory(path);
      && path != "" && path[0] == '/' && IsDirectory(dir) && path == dir + path[|dir|..] && path[|dir|..] != ""
      && '?' !in path && '#' !in path
  {
    var path := u.path;
    LastIsSlash(path);
    if EndsWith(path, "/") {
      LastSlashIs(path + "index.html", |path| - 1);
    }
  }

  lemma LastIsSlash(path: string)
    requires path != ""
    ensures EndsWith(path, "/") <==> path[|path| - 1] == '/'
  {
    assert path[|path| - 1..] == [path[|path| - 1]];
  }

  lemma EndsInSlash(path: string)
    requires path != "" && path[|path| - 1] == '/'
    ensures path == path[..|path| - 1] + "/"
  {
  }

  // ----- one web site -----

  /** The loop of `_GetRelateUrl`: one "../" for every directory that is left. */
  method Climbing(target: string, base: string) returns (href: string)
    ensures href == Ups(Levels(base)) + target
  {
    var t1, t2 := target, base;
    ghost var k := 0;
    while LastSlash(t2) > 0
      invariant t1 == Ups(k) + target && k + Levels(t2) == Levels(base)
      decreases |t2|
    {
      t1 := "../" + t1;
      t2 := t2[..LastSlash(t2)];
      assert "../" + (Ups(k) + target) == ("../" + Ups(k)) + target;
      k := k + 1;
    }
    href := t1;
  }

  class Worker {
    const decode: Decoder
    var webRootUrlDir: string
    var webRootFileDir: string
    ghost var start: WebUri

    ghost predicate Valid()
      reads this
    {
      && webRootFileDir == Converted(decode, Directory(start.FilePath()))
      && webRootUrlDir == start.Host() + Directory(start.FilePath())
    }

    /** A download begins: the directory of the first page is the web root. */
    constructor (first: XUrl)
      requires first.Valid()
      ensures Valid() && start == first.uri && decode == first.decode
    {
      decode := first.decode;
      webRootFileDir := first.fileDir;
      webRootUrlDir := first.urlDir;
      start := first.uri;
    }

    /**
     No link for addresses with a query or outside the web root, "#" for the page itself, and
     otherwise a link that leads from the page's file, at any address of it, to exactly the target's file,
     if and only if the page lies in the directory it is said to lie in, nothing of the link is taken for an
     absolute path, a fragment or an escape, and the loop does not stop too early.
     */
    method GetRelateUrl(page: XUrl, to: XUrl) returns (href: Option<string>)
      requires Valid() && page.Valid() && to.Valid() && page.decode == decode == to.decode
      requires webRootUrlDir <= page.urlFull
      requires IsPlainPath(page.filePath) && IsPlainPath(to.filePath)
      ensures href.None? <==> to.uri.query != "" || !(webRootUrlDir <= to.urlFull)
      ensures href.Some? ==> to.urlHost == page.urlHost && webRootFileDir <= to.filePath && webRootFileDir <= page.filePath
      ensures href.Some? && to.urlFull == page.urlFull ==> href.value == "#"
      ensures href.Some? && to.urlFull != page.urlFull ==>
        LeadsExactlyIf(decode, page.filePath, href.value, to.filePath, to.uri.fragment,
                       LinkWorks(decode, webRootFileDir, page.fileDir, page.filePath, to.filePath))
    {
      if to.hasQuery {
        return None;
      }
      if !(webRootUrlDir <= to.urlFull) {
        return None;
      }
      LinksInSite(decode, start, page.uri, to.uri, page.Value(), to.Value(), webRootFileDir);
      if to.urlFull == page.urlFull {
        return Some("#");
      }
      var path := PathTo(webRootFileDir, page.fileDir, page.filePath, to.filePath);
      href := Some(path + to.uri.fragment);
    }

    /** The two branches. */
    static method PathTo(root: string, fileDir: string, base: string, target: string) returns (path: string)
      requires root <= base && root <= target
      ensures path == Href(root, fileDir, base, target)
    {
      if fileDir <= target {
        path := target[|fileDir|..];
      } else {
        path := Climbing(target[|root|..], base[|root|..]);
      }
    }
  }

  /** No segment of the path is a dot segment. */
  predicate IsPlainPath(path: string) {
    IsRooted(path) && NoDots(Split(path))
  }

  lemma FileIsPath(decode: Decoder, u: WebUri)
    requires IsPlainPath(PartsOf(decode, u).filePath)
    ensures IsFilePath(PartsOf(decode, u).filePath)
  {
    PartsFit(decode, u);
    NoColon(PartsOf(decode, u).filePath);
  }

  lemma NoColon(path: string)
    requires forall c :: c in path ==> !IsInvalid(c)
    ensures ':' !in path && '?' !in path
  {
    assert IsInvalid(':') && IsInvalid('?');
  }

  /** Two pages of one site: they are on one server, and the link from one to the other leads there if and only if `LinkWorks`. */
  lemma LinksInSite(decode: Decoder, start: WebUri, page: WebUri, to: WebUri, p: Parts, t: Parts, root: string)
    requires p == PartsOf(decode, page) && t == PartsOf(decode, to) && root == Converted(decode, Directory(start.FilePath()))
    requires start.Host() + Directory(start.FilePath()) <= p.urlFull && start.Host() + Directory(start.FilePath()) <= t.urlFull
    requires IsPlainPath(p.filePath) && IsPlainPath(t.filePath)
    ensures t.urlHost == p.urlHost && root <= t.filePath && root <= p.filePath
    ensures LeadsExactlyIf(decode, p.filePath, Href(root, p.fileDir, p.filePath, t.filePath) + to.fragment, t.filePath,
                           to.fragment, LinkWorks(decode, root, p.fileDir, p.filePath, t.filePath))
  {
    UnderRoot(decode, start, page);
    UnderRoot(decode, start, to);
    PartsFit(decode, page);
    FileIsPath(decode, page);
    FileIsPath(decode, to);
    LinksLeadToTarget(decode, root, p.fileDir, p.filePath, t.filePath, to.fragment);
  }

  /** An address that begins like the web root is one of the same server, and its file is under the root's directory. */
  lemma UnderRoot(decode: Decoder, start: WebUri, u: WebUri)
    requires start.Host() + Directory(start.FilePath()) <= u.Full()
    ensures var root := Converted(decode, Directory(start.FilePath()));
      IsDirectory(root) && u.Host() == start.Host() && root <= Converted(decode, u.FilePath())
  {
    var root, path := Directory(start.FilePath()), u.FilePath();
    FileNameIsLast(start);
    FileNameIsLast(u);
    var rest := u.query + u.fragment;
    Grouped(u.Host() + path, u.query, u.fragment);
    Grouped(u.Host(), path, rest);
    SameHost(start, u, root, path + rest);
    InPath(root, start.FilePath(), path, rest);
    assert path == root + path[|root|..];
    DirectoryConverted(decode, root, path[|root|..]);
  }

  /** The root has no question mark and no hash, so it does not reach behind the path. */
  lemma InPath(root: string, first: string, path: string, rest: string)
    requires '?' !in first && '#' !in first && root == Directory(first) && path != ""
    requires root <= path + rest && (rest == "" || rest[0] == '?' || rest[0] == '#')
    ensures root <= path
  {
    var both := path + rest;
    assert forall i :: 0 <= i < |root| ==> root[i] == first[i] == both[i];
    assert |path| < |both| ==> both[|path|] == '?' || both[|path|] == '#';
    assert |root| <= |path|;
    assert both[..|root|] == path[..|root|];
  }

  /** The host is what stands before the third slash. */
  lemma SameHost(a: WebUri, b: WebUri, x: string, y: string)
    requires x != "" && y != "" && x[0] == '/' == y[0]
    requires a.Host() + x <= b.Host() + y
    ensures a.Host() == b.Host() && x <= y
  {
    var s, t := a.Host() + x, b.Host() + y;
    SlashesOf(a, x);
    SlashesOf(b, y);
    SameSlashes(s, t, |a.scheme|, |a.Host()|, |b.scheme|, |b.Host()|);
    var n := |a.Host()|;
    assert a.Host() == s[..n] && b.Host() == t[..n] && x == s[n..] && y == t[n..];
  }

  /** Two slashes behind the scheme, and the next one at `host`. */
  ghost predicate SlashesAt(s: string, scheme: nat, host: nat) {
    && scheme + 3 <= host < |s| && s[host] == '/'
    && forall i :: 0 <= i < host ==> (s[i] == '/' <==> i == scheme + 1 || i == scheme + 2)
  }

  lemma SameSlashes(s: string, t: string, scheme: nat, host: nat, scheme2: nat, host2: nat)
    requires s <= t && SlashesAt(s, scheme, host) && SlashesAt(t, scheme2, host2)
    ensures host == host2
  {
    assert forall i :: 0 <= i < |s| ==> s[i] == t[i];
    assert s[scheme + 1] == '/' && s[host] == '/' && s[scheme + 2] == '/';
    assert t[scheme2 + 1] == '/' && t[host2] == '/';
    assert scheme + 1 >= scheme2 + 1;
    assert s[scheme2 + 1] == '/';
    assert scheme == scheme2;
    assert host >= host2;
    assert s[host2] == '/';
  }

  /** Where the slashes are up to the one that ends the host. */
  lemma SlashesOf(u: WebUri, rest: string)
    requires rest != "" && rest[0] == '/'
    ensures SlashesAt(u.Host() + rest, |u.scheme|, |u.Host()|)
  {
    var h, server := u.Host(), u.Server();
    assert '/' !in server;
    assert forall i :: 0 <= i < |u.scheme| ==> h[i] == u.scheme[i];
    forall i | |u.scheme| + 3 <= i < |h|
      ensures h[i] != '/'
    {
      assert h[i] == server[i - |u.scheme| - 3];
    }
    assert forall i :: 0 <= i < |h| ==> (h + rest)[i] == h[i];
  }
}
