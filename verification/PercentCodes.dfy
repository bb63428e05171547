/**
 A decoder of escapes in addresses, section 2.1 of RFC 3986, for the characters of ASCII; escapes of other
 characters are left as they are.  Every path of a file has an address under it.
 */
module PercentCodes {
  import opened Sequences
  import opened UriPaths
  import opened FileNames
  import opened LinkTargets

  function HexValue(c: char): (n: int)
    ensures -1 <= n < 16
  {
    if '0' <= c <= '9' then c as int - '0' as int
    else if 'A' <= c <= 'F' then c as int - 'A' as int + 10
    else if 'a' <= c <= 'f' then c as int - 'a' as int + 10
    else -1
  }

  /** An escape of an ASCII character is at the beginning. */
  predicate StartsWithEscape(s: string) {
    |s| >= 3 && s[0] == '%' && 0 <= HexValue(s[1]) < 8 && 0 <= HexValue(s[2])
  }

  function Code(s: string): char
    requires StartsWithEscape(s)
  {
    (16 * HexValue(s[1]) + HexValue(s[2])) as char
  }

  function PercentDecode(s: string): string {
    if s == "" then ""
    else if StartsWithEscape(s) then [Code(s)] + PercentDecode(s[3..])
    else [s[0]] + PercentDecode(s[1..])
  }

  // ----- what decoding keeps -----

  /** The first character or escape of a text that does not end within an escape. */
  lemma DecodeStep(s: string, t: string)
    requires s != "" && (StartsWithEscape(s + t) <==> StartsWithEscape(s))
    ensures PercentDecode(s + t) ==
      if StartsWithEscape(s) then [Code(s)] + PercentDecode(s[3..] + t) else [s[0]] + PercentDecode(s[1..] + t)
  {
    if StartsWithEscape(s) {
      assert (s + t)[3..] == s[3..] + t && Code(s + t) == Code(s);
    } else {
      assert (s + t)[1..] == s[1..] + t && (s + t)[0] == s[0];
    }
  }

  lemma EscapeStopsAtSlash(a: string, t: string)
    requires a != "" && t != "" && t[0] == '/'
    ensures StartsWithEscape(a + t) <==> StartsWithEscape(a)
  {
    var whole := a + t;
    assert whole[|a|] == '/' && HexValue('/') < 0;
    assert forall i :: 0 <= i < |a| ==> whole[i] == a[i];
  }

  lemma {:induction false} DecodeBehind(a: string, t: string)
    requires t != "" && t[0] == '/'
    ensures PercentDecode(a + t) == PercentDecode(a) + PercentDecode(t)
  {
    if a == "" {
      NoTextBefore(a, t);
      NoTextBefore(a, PercentDecode(t));
    } else {
      EscapeStopsAtSlash(a, t);
      DecodeStep(a, t);
      var n := if StartsWithEscape(a) then 3 else 1;
      DecodeBehind(a[n..], t);
      Grouped([if n == 3 then Code(a) else a[0]], PercentDecode(a[n..]), PercentDecode(t));
    }
  }

  lemma DecodeAround(a: string, b: string)
    ensures PercentDecode(a + "/" + b) == PercentDecode(a) + "/" + PercentDecode(b)
  {
    var t := "/" + b;
    assert t[0] == '/' && t[1..] == b;
    Grouped(a, "/", b);
    DecodeBehind(a, t);
    Grouped(PercentDecode(a), "/", PercentDecode(b));
  }

  lemma {:induction false} DecodeText(s: string)
    ensures '%' !in s ==> PercentDecode(s) == s
    ensures s != "" ==> PercentDecode(s) != ""
    ensures |PercentDecode(s)| <= |s|
  {
    if s != "" {
      DecodeText(if StartsWithEscape(s) then s[3..] else s[1..]);
    }
  }

  /** Decoding goes part by part between slashes and leaves text without escapes as it is. */
  lemma DecodesPercent()
    ensures Decodes(PercentDecode)
  {
    forall a, b
      ensures DecodesAround(PercentDecode, a, b)
    {
      DecodeAround(a, b);
    }
    forall s
      ensures DecodesText(PercentDecode, s)
    {
      DecodeText(s);
    }
  }

  /** An escape somewhere. */
  predicate HasEscape(s: string) {
    exists i :: 0 <= i < |s| && StartsWithEscape(s[i..])
  }

  /** A text decodes to itself if and only if it has no escape, so a caller can see it. */
  lemma {:induction false} DecodesToItself(s: string)
    ensures PercentDecode(s) == s <==> !HasEscape(s)
  {
    DecodeText(s);
    if s != "" {
      assert s[0..] == s;
      DecodeText(if StartsWithEscape(s) then s[3..] else s[1..]);
      if !StartsWithEscape(s) {
        DecodesToItself(s[1..]);
        EscapeBehind(s);
        assert s == [s[0]] + s[1..];
      }
    }
  }

  lemma EscapeBehind(s: string)
    requires s != "" && !StartsWithEscape(s)
    ensures HasEscape(s) <==> HasEscape(s[1..])
  {
    forall i | 0 <= i < |s[1..]|
      ensures s[1..][i..] == s[i + 1..]
    {
    }
    if HasEscape(s) {
      var i :| 0 <= i < |s| && StartsWithEscape(s[i..]);
      assert s[0..] == s;
      assert StartsWithEscape(s[1..][i - 1..]);
    }
    if HasEscape(s[1..]) {
      var i :| 0 <= i < |s[1..]| && StartsWithEscape(s[1..][i..]);
      assert StartsWithEscape(s[i + 1..]);
    }
  }

  // ----- an address for every file -----

  function EncodeChar(c: char): string {
    if c == '%' then "%25" else if c == '#' then "%23" else if c == '?' then "%3F" else [c]
  }

  function PercentEncode(s: string): string {
    if s == "" then "" else EncodeChar(s[0]) + PercentEncode(s[1..])
  }

  lemma EncodedChar(c: char)
    ensures var code := EncodeChar(c);
      if StartsWithEscape(code) then |code| == 3 && Code(code) == c else code == [c] && c != '%'
  {
  }

  lemma DecodeFirst(c: char, rest: string)
    ensures PercentDecode(EncodeChar(c) + rest) == [c] + PercentDecode(rest)
  {
    var code := EncodeChar(c);
    EncodedChar(c);
    DecodeStep(code, rest);
    NoTextBefore(if StartsWithEscape(code) then code[3..] else code[1..], rest);
  }

  lemma NoTextBefore(none: string, s: string)
    requires none == ""
    ensures none + s == s
  {
  }

  lemma {:induction false} DecodeEncode(s: string)
    ensures PercentDecode(PercentEncode(s)) == s
  {
    if s != "" {
      DecodeEncode(s[1..]);
      DecodeFirst(s[0], PercentEncode(s[1..]));
    }
  }

  lemma {:induction false} EncodedCharacters(s: string)
    ensures '?' !in PercentEncode(s) && '#' !in PercentEncode(s) && ('/' !in s ==> '/' !in PercentEncode(s))
  {
    if s != "" {
      EncodedCharacters(s[1..]);
    }
  }

  lemma {:induction false} EncodeAround(a: string, b: string)
    ensures PercentEncode(a + "/" + b) == PercentEncode(a) + "/" + PercentEncode(b)
  {
    var whole := a + "/" + b;
    if a == "" {
      assert whole[0] == '/' && whole[1..] == b;
    } else {
      assert whole[0] == a[0] && whole[1..] == a[1..] + "/" + b;
      EncodeAround(a[1..], b);
      Grouped(EncodeChar(a[0]), PercentEncode(a[1..]) + "/", PercentEncode(b));
      Grouped(EncodeChar(a[0]), PercentEncode(a[1..]), "/");
    }
  }

  lemma {:induction false} EncodedSegments(path: string)
    requires IsRooted(path)
    ensures var at := PercentEncode(path); IsRooted(at) && (path != "" ==> at != "")
    ensures Decodes(PercentDecode) && Split(path) == Decoded(PercentDecode, Split(PercentEncode(path)))
  {
    DecodesPercent();
    if path != "" {
      var n := LastSlash(path);
      var a, b := path[..n], path[n + 1..];
      SplitAt(path, n);
      AtSlash(path, n);
      EncodedSegments(a);
      OneMoreSegment(a, b);
    }
  }

  lemma OneMoreSegment(a: string, b: string)
    requires IsRooted(PercentEncode(a)) && '/' !in b
    ensures var at := PercentEncode(a + "/" + b); at != "" && IsRooted(at)
    ensures Decodes(PercentDecode) &&
      Decoded(PercentDecode, Split(PercentEncode(a + "/" + b))) == Decoded(PercentDecode, Split(PercentEncode(a))) + [b]
  {
    DecodesPercent();
    EncodeAround(a, b);
    EncodedCharacters(b);
    DecodeEncode(b);
    SplitMore(PercentEncode(a), PercentEncode(b));
    DecodedMore(PercentDecode, Split(PercentEncode(a)), PercentEncode(b));
  }

  /** Every file has an address that leads to it. */
  lemma HasAddress(path: string)
    requires path != "" && path[0] == '/'
    ensures Decodes(PercentDecode) && IsAddressOf(PercentDecode, PercentEncode(path), path)
  {
    DecodesPercent();
    EncodedSegments(path);
    EncodedCharacters(path);
  }
}
