/**
 How c#/other/DownloadWebsite turns a part of an address into a path of the file system: escapes of the
 address are decoded, and characters that file names may not have are written as `$` and their code.
 */
module FileNames {
  import opened Sequences

  // ----- decoding -----

  /** Decoding leaves slashes where they are and text without escapes as it is, and makes nothing longer. */
  ghost predicate Decodes(f: string -> string) {
    && (forall a, b :: DecodesAround(f, a, b))
    && (forall s :: DecodesText(f, s))
  }

  ghost predicate DecodesAround(f: string -> string, a: string, b: string) {
    f(a + "/" + b) == f(a) + "/" + f(b)
  }

  ghost predicate DecodesText(f: string -> string, s: string) {
    ('%' !in s ==> f(s) == s) && (s != "" ==> f(s) != "") && |f(s)| <= |s|
  }

  /** `Uri.UnescapeDataString`. */
  type Decoder = f: string -> string | Decodes(f) ghost witness (s: string) => s

  // ----- escaping -----

  /** `Path.GetInvalidFileNameChars` besides the slash. */
  predicate IsInvalid(c: char) {
    c as int < 32 || c in "\"<>|:*?\\"
  }

  function Hex(n: nat): char
    requires n < 16
  {
    "0123456789ABCDEF"[n]
  }

  function EscapeChar(c: char): string {
    if IsInvalid(c) then ['$', Hex(c as int / 16 % 16), Hex(c as int % 16)] else [c]
  }

  function Escape(s: string): string {
    if s == "" then "" else Escape(s[..|s| - 1]) + EscapeChar(s[|s| - 1])
  }

  /** `ConvertUrlFragToPath`. */
  function Converted(decode: Decoder, part: string): string {
    Escape(decode(part))
  }

  method ConvertUrlFragToPath(decode: Decoder, part: string) returns (path: string)
    ensures path == Converted(decode, part)
    ensures forall c :: c in path ==> !IsInvalid(c)
  {
    var text := decode(part);
    path := "";
    for i := 0 to |text|
      invariant path == Escape(text[..i])
    {
      assert text[..i + 1][..i] == text[..i];
      if text[i] == '/' {
        path := path + [text[i]];
      } else if IsInvalid(text[i]) {
        path := path + ['$', Hex(text[i] as int / 16 % 16), Hex(text[i] as int % 16)];
      } else {
        path := path + [text[i]];
      }
    }
    assert text[..|text|] == text;
    NothingInvalid(text);
  }

  /** No character that is invalid in file names is left, so no colon either. */
  lemma {:induction false} NothingInvalid(s: string)
    ensures forall c :: c in Escape(s) ==> !IsInvalid(c)
  {
    if s != "" {
      NothingInvalid(s[..|s| - 1]);
      EscapedChar(s[|s| - 1]);
    }
  }

  lemma EscapedChar(c: char)
    ensures forall d :: d in EscapeChar(c) ==> !IsInvalid(d)
  {
    assert forall n: nat :: n < 16 ==> !IsInvalid(Hex(n));
  }

  /** The codes are those of the characters, two digits each. */
  lemma InvalidCodes()
    ensures EscapeChar(':') == "$3A" && EscapeChar('?') == "$3F" && EscapeChar('\\') == "$5C" && EscapeChar('\n') == "$0A"
    ensures EscapeChar('$') == "$" && EscapeChar('/') == "/"
  {
  }

  lemma {:induction false} EscapeConcat(a: string, b: string)
    ensures Escape(a + b) == Escape(a) + Escape(b)
  {
    if b == "" {
      assert a + b == a;
    } else {
      var n := |b| - 1;
      EscapeConcat(a, b[..n]);
      Grouped(Escape(a), Escape(b[..n]), EscapeChar(b[n]));
      assert (a + b)[..|a| + n] == a + b[..n];
    }
  }

  lemma EscapeNotEmpty(s: string)
    requires s != ""
    ensures Escape(s) != ""
  {
  }

  /** The conversion goes part by part between slashes. */
  lemma ConvertedAround(decode: Decoder, a: string, b: string)
    ensures Converted(decode, a + "/" + b) == Converted(decode, a) + "/" + Converted(decode, b)
  {
    assert DecodesAround(decode, a, b);
    EscapeConcat(decode(a) + "/", decode(b));
    EscapeConcat(decode(a), "/");
    assert Escape("/") == "" + "/" by {
      assert "/"[..0] == "";
    }
  }

  lemma ConvertedText(decode: Decoder, s: string)
    ensures s != "" ==> Converted(decode, s) != ""
    ensures s == "" ==> Converted(decode, s) == ""
    ensures forall c :: c in Converted(decode, s) ==> !IsInvalid(c)
  {
    assert DecodesText(decode, s);
    if s != "" {
      EscapeNotEmpty(decode(s));
    }
    NothingInvalid(decode(s));
  }
}
