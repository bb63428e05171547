/**
 The table printer of dotnet/libs/om.utils/CmdLine.cs: columns padded to equal width, the last one
 wrapped by display width.  Text is a sequence of UTF-16 code units, as in the source.
 */
module LineWrap {
  import opened Sequences
  import opened TextLines

  type CodeUnit = c: int | 0 <= c < 0x1_0000

  type Text = seq<CodeUnit>

  const CR: CodeUnit := 13
  const LF: CodeUnit := 10
  const SPACE: CodeUnit := 32

  /** Brackets, currency and similar signs, a vertical line, four arrows, a square, a circle. */
  predicate IsSpecialFullWidth(c: CodeUnit) {
    || c == 0xFF5F || c == 0xFF60 || 0xFFE0 <= c <= 0xFFE6
    || c == 0x2502 || 0x2190 <= c <= 0x2193 || c == 0x25A0 || c == 0x25CB
  }

  predicate IsFullWidthChar(c: CodeUnit) {
    0xFF01 <= c <= 0xFF5E || 0x3000 <= c <= 0x9FFF || IsSpecialFullWidth(c)
  }

  function CharWidth(c: CodeUnit): nat {
    if IsFullWidthChar(c) then 2 else 1
  }

  function Width(s: Text): nat {
    if s == [] then 0 else CharWidth(s[0]) + Width(s[1..])
  }

  // ----- layouts -----

  /** A line ends where the text has a newline, where it was broken, or with the text. */
  datatype End = Newline | Break | Finish

  datatype Line = Line(chars: Text, end: End)

  /** The text that the lines were made from. */
  function Recovered(lines: seq<Line>): Text {
    if lines == [] then []
    else lines[0].chars + (if lines[0].end == Newline then [LF] else []) + Recovered(lines[1..])
  }

  /** Carriage returns are dropped. */
  function Clean(text: Text): Text {
    if text == [] then []
    else if text[0] == CR then Clean(text[1..])
    else [text[0]] + Clean(text[1..])
  }

  predicate LineOk(lines: seq<Line>, i: nat, width: nat)
    requires i < |lines|
  {
    && Width(lines[i].chars) <= width
    && LF !in lines[i].chars
    && (lines[i].end == Finish <==> i == |lines| - 1)
  }

  /** The lines spell the text without carriage returns, and none is too wide. */
  predicate IsLayout(text: Text, lines: seq<Line>, width: nat) {
    && lines != []
    && Recovered(lines) == text
    && forall i :: 0 <= i < |lines| ==> LineOk(lines, i, width)
  }

  /** A line is broken only where the next character does not fit on it. */
  predicate IsTight(lines: seq<Line>, width: nat) {
    forall i :: 0 <= i < |lines| ==> TightAt(lines, i, width)
  }

  predicate TightAt(lines: seq<Line>, i: nat, width: nat)
    requires i < |lines|
  {
    lines[i].end == Break ==>
      i + 1 < |lines| && lines[i + 1].chars != [] && Width(lines[i].chars) + CharWidth(lines[i + 1].chars[0]) > width
  }

  lemma LayoutTail(text: Text, lines: seq<Line>, width: nat)
    requires IsLayout(text, lines, width) && |lines| > 1
    ensures IsLayout(Recovered(lines[1..]), lines[1..], width)
    ensures IsTight(lines, width) ==> IsTight(lines[1..], width)
  {
    var tail := lines[1..];
    forall i | 0 <= i < |tail|
      ensures LineOk(tail, i, width)
      ensures IsTight(lines, width) ==> TightAt(tail, i, width)
    {
      assert LineOk(lines, i + 1, width);
      assert IsTight(lines, width) ==> TightAt(lines, i + 1, width);
    }
  }

  lemma {:induction false} WidthMore(a: Text, n: nat)
    ensures n < |a| ==> Width(a[..n]) + CharWidth(a[n]) <= Width(a)
  {
    if 0 < n < |a| {
      WidthMore(a[1..], n - 1);
      assert a[..n][1..] == a[1..][..n - 1];
    }
  }

  lemma {:induction false} WidthSuffix(a: Text, n: nat)
    requires n <= |a|
    ensures Width(a[n..]) <= Width(a)
  {
    if n > 0 {
      WidthSuffix(a[1..], n - 1);
      assert a[1..][n - 1..] == a[n..];
    } else {
      assert a[0..] == a;
    }
  }

  /** How much of the text a line takes. */
  function Taken(line: Line): nat {
    |line.chars| + if line.end == Newline then 1 else 0
  }

  lemma FirstLine(lines: seq<Line>)
    requires lines != []
    ensures var text := Recovered(lines);
      && Taken(lines[0]) <= |text| && text[..|lines[0].chars|] == lines[0].chars
      && text[Taken(lines[0])..] == Recovered(lines[1..])
      && (lines[0].end == Newline ==> text[|lines[0].chars|] == LF)
  {
  }

  /** Why the first line of a tight layout ends where it does. */
  lemma TightEnds(text: Text, lines: seq<Line>, width: nat)
    requires IsLayout(text, lines, width) && IsTight(lines, width)
    ensures var b := lines[0].chars; var n := |b|;
      && n <= |text| && b == text[..n]
      && match lines[0].end
         case Finish => n == |text|
         case Newline => n < |text| && text[n] == LF
         case Break => n < |text| && text[n] != LF && Width(b) + CharWidth(text[n]) > width
  {
    FirstLine(lines);
    assert LineOk(lines, 0, width) && TightAt(lines, 0, width);
    if lines[0].end == Break {
      FirstLine(lines[1..]);
      assert LineOk(lines, 1, width);
      assert text[|lines[0].chars|] == lines[1].chars[0];
    } else if lines[0].end == Finish {
      assert lines[1..] == [];
    }
  }

  lemma PrefixAt(s: Text, text: Text, n: nat)
    requires |s| <= |text| && s == text[..|s|]
    ensures n < |s| ==> s[..n] == text[..n] && s[n] == text[n]
  {
  }

  /** A line that starts no later than the first line of a tight layout ends no later. */
  lemma TightReachesFar(text: Text, skipped: nat, a: Text, lines: seq<Line>, width: nat)
    requires IsLayout(text, lines, width) && IsTight(lines, width)
    requires skipped <= |a| && |a| - skipped <= |text| && a[skipped..] == text[..|a| - skipped]
    requires Width(a) <= width && LF !in a
    ensures |a| - skipped <= |lines[0].chars|
  {
    var s, n := a[skipped..], |lines[0].chars|;
    WidthSuffix(a, skipped);
    WidthMore(s, n);
    PrefixAt(s, text, n);
    assert LF !in s;
    TightEnds(text, lines, width);
  }

  lemma CutBehind(before: Text, text: Text, n: nat, m: nat)
    requires |before| <= n <= |before| + m && m <= |text|
    ensures (before + text)[n..] == text[n - |before|..m] + text[m..]
  {
  }

  /** No layout has fewer lines than a tight one, not even one of more text before it. */
  lemma {:induction false} TightIsShort(before: Text, text: Text, lines: seq<Line>, tight: seq<Line>, width: nat)
    requires IsLayout(before + text, lines, width)
    requires IsLayout(text, tight, width) && IsTight(tight, width)
    ensures |tight| <= |lines|
    decreases |lines|
  {
    if |lines| > 1 && |tight| > 1 {
      var a, n := lines[0].chars, Taken(lines[0]);
      FirstLine(lines);
      LayoutTail(before + text, lines, width);
      assert LineOk(lines, 0, width) && LineOk(tight, 0, width);
      if n <= |before| {
        SkipBefore(before, text, n);
        TightIsShort(before[n..], text, lines[1..], tight, width);
      } else {
        LayoutTail(text, tight, width);
        FirstLines(before, text, lines, tight, width);
        TightIsShort(text[n - |before|..Taken(tight[0])], Recovered(tight[1..]), lines[1..], tight[1..], width);
      }
    } else if |lines| == 1 {
      TightIsOne(before, text, lines, tight, width);
    }
  }

  lemma PartOfLine(before: Text, text: Text, line: Text)
    requires |before| <= |line| <= |before + text| && line == (before + text)[..|line|]
    ensures line[|before|..] == text[..|line| - |before|]
  {
  }

  lemma SkipBefore(before: Text, text: Text, n: nat)
    requires n <= |before|
    ensures (before + text)[n..] == before[n..] + text
  {
  }

  /** The first tight line reaches at least as far as the first line that ends behind `before`. */
  lemma FirstLines(before: Text, text: Text, lines: seq<Line>, tight: seq<Line>, width: nat)
    requires IsLayout(before + text, lines, width) && |lines| > 1 && Taken(lines[0]) > |before|
    requires IsLayout(text, tight, width) && IsTight(tight, width) && |tight| > 1
    ensures var n, m := Taken(lines[0]) - |before|, Taken(tight[0]);
      n <= m <= |text| && Recovered(lines[1..]) == text[n..m] + Recovered(tight[1..])
  {
    var a, skipped := lines[0].chars, |before|;
    FirstLine(lines);
    FirstLine(tight);
    assert LineOk(lines, 0, width) && LineOk(tight, 0, width);
    if skipped <= |a| {
      PartOfLine(before, text, a);
      TightReachesFar(text, skipped, a, tight, width);
    }
    TightEnds(text, tight, width);
    CutBehind(before, text, Taken(lines[0]), Taken(tight[0]));
  }

  lemma TightIsOne(before: Text, text: Text, lines: seq<Line>, tight: seq<Line>, width: nat)
    requires IsLayout(before + text, lines, width) && |lines| == 1
    requires IsLayout(text, tight, width) && IsTight(tight, width)
    ensures |tight| == 1
  {
    assert LineOk(lines, 0, width) && LineOk(tight, 0, width);
    assert Recovered(lines[1..]) == [];
    var a := lines[0].chars;
    assert a == before + text;
    assert a[|before|..] == text[..|a| - |before|];
    TightReachesFar(text, |before|, a, tight, width);
    TightEnds(text, tight, width);
  }

  /** There is only one tight layout. */
  lemma {:induction false} TightIsUnique(text: Text, a: seq<Line>, b: seq<Line>, width: nat)
    requires IsLayout(text, a, width) && IsTight(a, width)
    requires IsLayout(text, b, width) && IsTight(b, width)
    ensures a == b
  {
    SameFirst(text, a, b, width);
    FirstLine(a);
    FirstLine(b);
    if |a| > 1 {
      LayoutTail(text, a, width);
      LayoutTail(text, b, width);
      TightIsUnique(Recovered(a[1..]), a[1..], b[1..], width);
    }
    assert a == [a[0]] + a[1..] && b == [b[0]] + b[1..];
  }

  lemma SameFirst(text: Text, a: seq<Line>, b: seq<Line>, width: nat)
    requires IsLayout(text, a, width) && IsTight(a, width)
    requires IsLayout(text, b, width) && IsTight(b, width)
    ensures a[0] == b[0] && (|a| > 1 <==> |b| > 1)
  {
    assert LineOk(a, 0, width) && LineOk(b, 0, width);
    FirstLine(a);
    FirstLine(b);
    TightReachesFar(text, 0, a[0].chars, b, width);
    TightReachesFar(text, 0, b[0].chars, a, width);
    TightEnds(text, a, width);
    TightEnds(text, b, width);
  }

  // ----- the wrapping loop -----

  /** What the loop makes of the rest of the text, with `line` already on the current line. */
  function Lay(rest: Text, line: Text, width: nat): (lines: seq<Line>)
    requires width >= 2
    ensures lines != [] && line <= lines[0].chars
    decreases |rest|, |line|
  {
    if rest == [] then [Line(line, Finish)]
    else if rest[0] == CR then Lay(rest[1..], line, width)
    else if rest[0] == LF then [Line(line, Newline)] + Lay(rest[1..], [], width)
    else if Width(line) + CharWidth(rest[0]) <= width then Lay(rest[1..], line + [rest[0]], width)
    else [Line(line, Break)] + Lay(rest, [], width)
  }

  lemma {:induction false} WidthOfMore(line: Text, c: CodeUnit)
    ensures Width(line + [c]) == Width(line) + CharWidth(c)
  {
    if line == [] {
      assert line + [c] == [c];
    } else {
      WidthOfMore(line[1..], c);
      assert (line + [c])[1..] == line[1..] + [c];
    }
  }

  lemma LayoutCons(line: Line, text: Text, lines: seq<Line>, width: nat)
    requires Width(line.chars) <= width && LF !in line.chars && line.end != Finish
    requires IsLayout(text, lines, width) && IsTight(lines, width)
    requires line.end == Break ==> lines[0].chars != [] && Width(line.chars) + CharWidth(lines[0].chars[0]) > width
    ensures var all := [line] + lines;
      IsLayout(line.chars + (if line.end == Newline then [LF] else []) + text, all, width) && IsTight(all, width)
  {
    var all := [line] + lines;
    assert all[1..] == lines;
    forall i | 0 <= i < |all|
      ensures LineOk(all, i, width) && TightAt(all, i, width)
    {
      if i > 0 {
        assert LineOk(lines, i - 1, width) && TightAt(lines, i - 1, width);
      }
    }
  }

  lemma {:induction false} LayIsTight(rest: Text, line: Text, width: nat)
    requires width >= 2 && Width(line) <= width && LF !in line
    ensures IsLayout(line + Clean(rest), Lay(rest, line, width), width)
    ensures IsTight(Lay(rest, line, width), width)
    decreases |rest|, |line|
  {
    if rest == [] {
      assert Recovered([Line(line, Finish)][1..]) == [];
    } else if rest[0] == CR {
      LayIsTight(rest[1..], line, width);
    } else if rest[0] == LF {
      LayIsTight(rest[1..], [], width);
      NothingBefore(Clean(rest[1..]));
      NewlineLine(line, Clean(rest[1..]), Lay(rest[1..], [], width), width);
    } else if Width(line) + CharWidth(rest[0]) <= width {
      WidthOfMore(line, rest[0]);
      LayIsTight(rest[1..], line + [rest[0]], width);
      Grouped(line, [rest[0]], Clean(rest[1..]));
    } else {
      LayIsTight(rest, [], width);
      NothingBefore(Clean(rest));
      StartsWith(rest, width);
      BrokenLine(line, Clean(rest), Lay(rest, [], width), width);
    }
  }

  lemma NewlineLine(line: Text, text: Text, lines: seq<Line>, width: nat)
    requires Width(line) <= width && LF !in line
    requires IsLayout(text, lines, width) && IsTight(lines, width)
    ensures IsLayout(line + ([LF] + text), [Line(line, Newline)] + lines, width) && IsTight([Line(line, Newline)] + lines, width)
  {
    LayoutCons(Line(line, Newline), text, lines, width);
    Grouped(line, [LF], text);
  }

  lemma BrokenLine(line: Text, text: Text, lines: seq<Line>, width: nat)
    requires Width(line) <= width && LF !in line
    requires IsLayout(text, lines, width) && IsTight(lines, width)
    requires lines[0].chars != [] && Width(line) + CharWidth(lines[0].chars[0]) > width
    ensures IsLayout(line + text, [Line(line, Break)] + lines, width) && IsTight([Line(line, Break)] + lines, width)
  {
    LayoutCons(Line(line, Break), text, lines, width);
    NothingBefore(text);
    Grouped(line, [], text);
  }

  lemma StartsWith(rest: Text, width: nat)
    requires width >= 2 && rest != [] && rest[0] != CR && rest[0] != LF
    ensures var chars := Lay(rest, [], width)[0].chars; chars != [] && chars[0] == rest[0]
  {
  }

  /**
   The wrapping of a text: it spells the text without carriage returns, no line is too wide, lines
   are broken only where nothing more fits, nothing else is a wrapping of this kind, and no way
   at all to lay out the text within the width has fewer lines.
   */
  lemma WrapIsBest(text: Text, width: nat, other: seq<Line>)
    requires width >= 2
    ensures var lines := Lay(text, [], width);
      && IsLayout(Clean(text), lines, width) && IsTight(lines, width)
      && (IsLayout(Clean(text), other, width) ==> |lines| <= |other|)
      && (IsLayout(Clean(text), other, width) && IsTight(other, width) ==> other == lines)
  {
    LayIsTight(text, [], width);
    assert [] + Clean(text) == Clean(text);
    if IsLayout(Clean(text), other, width) {
      TightIsShort([], Clean(text), other, Lay(text, [], width), width);
      if IsTight(other, width) {
        TightIsUnique(Clean(text), other, Lay(text, [], width), width);
      }
    }
  }

  /** The lines with `between` between them. */
  function Show(lines: seq<Line>, between: Text): Text
    requires lines != []
  {
    if |lines| == 1 then lines[0].chars else lines[0].chars + between + Show(lines[1..], between)
  }

  lemma ShowCons(head: Text, line: Line, lines: seq<Line>, newline: Text, pad: Text)
    requires lines != []
    ensures head + Show([line] + lines, newline + pad) == (head + line.chars + newline + pad) + Show(lines, newline + pad)
  {
  }

  /** The text that the loop has not yet looked at. */
  lemma NextCharacter(last: Text, idx: nat)
    requires idx < |last|
    ensures last[idx..] != [] && last[idx..][0] == last[idx] && last[idx..][1..] == last[idx + 1..]
  {
  }

  /** What will have been written in the end: `head`, and the lines from the one that holds `line` on. */
  function Outcome(head: Text, last: Text, idx: nat, line: Text, lastLen: nat, newline: Text, pad: Text): Text
    requires lastLen >= 10 && idx <= |last|
  {
    head + Show(Lay(last[idx..], line, lastLen), newline + pad)
  }

  lemma OutcomeAtEnd(head: Text, last: Text, line: Text, lastLen: nat, newline: Text, pad: Text)
    requires lastLen >= 10
    ensures Outcome(head, last, |last|, line, lastLen, newline, pad) == head + line
  {
  }

  lemma OutcomeSteps(head: Text, last: Text, idx: nat, line: Text, lastLen: nat, newline: Text, pad: Text)
    requires lastLen >= 10 && idx < |last|
    ensures var c := last[idx]; var closed := head + line + newline + pad;
      Outcome(head, last, idx, line, lastLen, newline, pad) ==
      if c == CR then Outcome(head, last, idx + 1, line, lastLen, newline, pad)
      else if c == LF then Outcome(closed, last, idx + 1, [], lastLen, newline, pad)
      else if Width(line) + CharWidth(c) <= lastLen then Outcome(head, last, idx + 1, line + [c], lastLen, newline, pad)
      else Outcome(closed, last, idx, [], lastLen, newline, pad)
  {
    NextCharacter(last, idx);
    var c := last[idx];
    if c == LF {
      ShowCons(head, Line(line, Newline), Lay(last[idx + 1..], [], lastLen), newline, pad);
    } else if c != CR && Width(line) + CharWidth(c) > lastLen {
      ShowCons(head, Line(line, Break), Lay(last[idx..], [], lastLen), newline, pad);
    }
  }

  /** The inner loop. */
  method Wrap(last: Text, lastLen: nat, newline: Text, pad: Text) returns (sb: Text)
    requires lastLen >= 10
    ensures sb == Show(Lay(last, [], lastLen), newline + pad)
  {
    sb := [];
    var len, idx, cur := |last|, 0, 0;
    ghost var head: Text, line: Text := [], [];
    assert last[0..] == last;
    while idx < len
      invariant 0 <= idx <= len && cur == Width(line) && sb == head + line
      invariant Outcome(head, last, idx, line, lastLen, newline, pad) == Show(Lay(last, [], lastLen), newline + pad)
      decreases len - idx, |line|
    {
      OutcomeSteps(head, last, idx, line, lastLen, newline, pad);
      if last[idx] == CR {
        idx := idx + 1;
      } else if last[idx] == LF {
        cur := 0;
        idx := idx + 1;
        sb := sb + newline;
        sb := sb + pad;
        head, line := sb, [];
      } else {
        var t := CharWidth(last[idx]);
        if cur + t <= lastLen {
          WidthOfMore(line, last[idx]);
          line := line + [last[idx]];
          cur := cur + t;
          sb := sb + [last[idx]];
          idx := idx + 1;
        } else {
          cur := 0;
          sb := sb + newline;
          sb := sb + pad;
          head, line := sb, [];
        }
      }
    }
    OutcomeAtEnd(head, last, line, lastLen, newline, pad);
  }

  // ----- the table -----

  function Spaces(n: nat): Text { seq(n, _ => SPACE) }

  /** `String.PadRight`. */
  function PadRight(s: Text, n: nat): (r: Text)
    ensures |r| == if |s| >= n then |s| else n
  {
    if |s| >= n then s else s + Spaces(n - |s|)
  }

  /** A column and the width asked for it. */
  datatype Column = Column(cells: seq<Text>, len: nat)

  function Max(a: nat, b: nat): nat { if a >= b then a else b }

  /** The width of a column that is not the last: two more than its longest cell, if that was not asked for. */
  function ColumnLen(c: Column): nat {
    CellsLen(c.cells, c.len)
  }

  function CellsLen(cells: seq<Text>, len: nat): nat {
    if cells == [] then len else Max(CellsLen(cells[..|cells| - 1], len), |cells[|cells| - 1]| + 2)
  }

  function TotalLen(columns: seq<Column>): nat {
    if columns == [] then 0 else TotalLen(columns[..|columns| - 1]) + ColumnLen(columns[|columns| - 1])
  }

  /** All columns have the same number of cells, as `Add` keeps them. */
  predicate IsTable(columns: seq<Column>) {
    columns != [] && forall k :: 0 <= k < |columns| ==> |columns[k].cells| == |columns[0].cells|
  }

  /** The padded cells of row i. */
  function RowHead(columns: seq<Column>, i: nat): Text
    requires forall k :: 0 <= k < |columns| ==> i < |columns[k].cells|
  {
    if columns == [] then []
    else
      var last := columns[|columns| - 1];
      RowHead(columns[..|columns| - 1], i) + PadRight(last.cells[i], ColumnLen(last))
  }

  function Front(columns: seq<Column>): seq<Column>
    requires columns != []
  {
    columns[..|columns| - 1]
  }

  /** The room for the last column. */
  function LastLen(columns: seq<Column>, window: nat): (r: nat)
    requires columns != []
    ensures r >= 10
  {
    var pre := TotalLen(Front(columns));
    Max(pre + 10, window) - pre
  }

  function Pad(columns: seq<Column>): Text
    requires columns != []
  {
    PadRight([SPACE], TotalLen(Front(columns)))
  }

  function RowText(columns: seq<Column>, window: nat, newline: Text, i: nat): Text
    requires IsTable(columns) && i < |columns[0].cells|
  {
    RowHead(Front(columns), i)
    + Show(Lay(columns[|columns| - 1].cells[i], [], LastLen(columns, window)), newline + Pad(columns))
    + newline
  }

  function TableText(columns: seq<Column>, window: nat, newline: Text, rows: nat): Text
    requires IsTable(columns) && rows <= |columns[0].cells|
  {
    if rows == 0 then []
    else TableText(columns, window, newline, rows - 1) + RowText(columns, window, newline, rows - 1)
  }

  // ----- the lines of the table -----

  /** Line n of row i, when its last cell is this one: behind the padded cells, or behind the padding. */
  function RowLine(columns: seq<Column>, window: nat, i: nat, cell: Text, n: nat): Text
    requires IsTable(columns) && i < |columns[0].cells| && n < |Lay(cell, [], LastLen(columns, window))|
  {
    (if n == 0 then RowHead(Front(columns), i) else Pad(columns)) + Lay(cell, [], LastLen(columns, window))[n].chars
  }

  function RowLines(columns: seq<Column>, window: nat, i: nat): seq<Text>
    requires IsTable(columns) && i < |columns[0].cells|
  {
    var cell := columns[|columns| - 1].cells[i];
    seq(|Lay(cell, [], LastLen(columns, window))|, n requires 0 <= n < |Lay(cell, [], LastLen(columns, window))| =>
      RowLine(columns, window, i, cell, n))
  }

  /** Row by row. */
  function TableLines(columns: seq<Column>, window: nat, rows: nat): seq<Text>
    requires IsTable(columns) && rows <= |columns[0].cells|
  {
    if rows == 0 then [] else TableLines(columns, window, rows - 1) + RowLines(columns, window, rows - 1)
  }

  /** The cells before the last one have no line breaks. */
  ghost predicate OneLineCells(columns: seq<Column>) {
    columns != [] && forall k, i :: 0 <= k < |columns| - 1 && 0 <= i < |columns[k].cells| ==> LF !in columns[k].cells[i]
  }

  /** `Environment.NewLine` ends with a line feed. */
  predicate IsLineBreak(newline: Text) {
    IsNewline(newline) && newline[|newline| - 1] == LF
  }

  function Shown(lines: seq<Line>, pad: Text): seq<Text> {
    seq(|lines|, n requires 0 <= n < |lines| => pad + lines[n].chars)
  }

  lemma {:induction false} ShowIsUnlines(head: Text, lines: seq<Line>, newline: Text, pad: Text)
    requires lines != []
    ensures head + Show(lines, newline + pad) + newline == Unlines([head + lines[0].chars] + Shown(lines[1..], pad), newline)
    decreases |lines|
  {
    var rest := Shown(lines[1..], pad);
    assert ([head + lines[0].chars] + rest)[1..] == rest;
    if |lines| == 1 {
      assert rest == [];
    } else {
      ShowIsUnlines(pad, lines[1..], newline, pad);
      assert rest == [pad + lines[1].chars] + Shown(lines[1..][1..], pad);
      ShownGrouped(head, lines[0].chars, newline, pad, Show(lines[1..], newline + pad));
    }
  }

  lemma ShownGrouped(head: Text, chars: Text, newline: Text, pad: Text, show: Text)
    ensures head + (chars + (newline + pad) + show) + newline == (head + chars) + newline + (pad + show + newline)
  {
  }

  lemma RowTextIsLines(columns: seq<Column>, window: nat, newline: Text, i: nat)
    requires IsTable(columns) && i < |columns[0].cells|
    ensures RowText(columns, window, newline, i) == Unlines(RowLines(columns, window, i), newline)
  {
    var lines := Lay(columns[|columns| - 1].cells[i], [], LastLen(columns, window));
    var head, pad := RowHead(Front(columns), i), Pad(columns);
    ShowIsUnlines(head, lines, newline, pad);
    assert RowLines(columns, window, i) == [head + lines[0].chars] + Shown(lines[1..], pad);
  }

  lemma {:induction false} TableTextIsLines(columns: seq<Column>, window: nat, newline: Text, rows: nat)
    requires IsTable(columns) && rows <= |columns[0].cells|
    ensures TableText(columns, window, newline, rows) == Unlines(TableLines(columns, window, rows), newline)
  {
    if rows > 0 {
      TableTextIsLines(columns, window, newline, rows - 1);
      RowTextIsLines(columns, window, newline, rows - 1);
      UnlinesConcat(TableLines(columns, window, rows - 1), RowLines(columns, window, rows - 1), newline);
    }
  }

  lemma {:induction false} HeadOnOneLine(columns: seq<Column>, i: nat)
    requires forall k :: 0 <= k < |columns| ==> i < |columns[k].cells| && LF !in columns[k].cells[i]
    ensures LF !in RowHead(columns, i)
  {
    if columns != [] {
      HeadOnOneLine(columns[..|columns| - 1], i);
    }
  }

  lemma RowLinesAreLines(columns: seq<Column>, window: nat, i: nat)
    requires IsTable(columns) && OneLineCells(columns) && i < |columns[0].cells|
    ensures forall n :: 0 <= n < |RowLines(columns, window, i)| ==> LF !in RowLines(columns, window, i)[n]
  {
    var cell, width := columns[|columns| - 1].cells[i], LastLen(columns, window);
    HeadOnOneLine(Front(columns), i);
    WrapIsBest(cell, width, []);
    forall n | 0 <= n < |RowLines(columns, window, i)|
      ensures LF !in RowLines(columns, window, i)[n]
    {
      assert LineOk(Lay(cell, [], width), n, width);
    }
  }

  lemma {:induction false} TableLinesAreLines(columns: seq<Column>, window: nat, rows: nat)
    requires IsTable(columns) && OneLineCells(columns) && rows <= |columns[0].cells|
    ensures forall n :: 0 <= n < |TableLines(columns, window, rows)| ==> LF !in TableLines(columns, window, rows)[n]
  {
    if rows > 0 {
      TableLinesAreLines(columns, window, rows - 1);
      RowLinesAreLines(columns, window, rows - 1);
    }
  }

  /** Cut at the newlines, the text is the rows' lines, and it ends with a newline. */
  lemma TableLinesPrinted(columns: seq<Column>, window: nat, newline: Text)
    requires IsTable(columns) && OneLineCells(columns) && IsLineBreak(newline)
    ensures var rows := |columns[0].cells|;
      LinesOf(TableText(columns, window, newline, rows), newline) == (TableLines(columns, window, rows), [])
  {
    var rows := |columns[0].cells|;
    TableTextIsLines(columns, window, newline, rows);
    TableLinesAreLines(columns, window, rows);
    LinesAre(TableLines(columns, window, rows), newline);
  }

  lemma {:induction false} CellFits(cells: seq<Text>, len: nat, i: nat)
    requires i < |cells|
    ensures |cells[i]| + 2 <= CellsLen(cells, len)
  {
    if i < |cells| - 1 {
      CellFits(cells[..|cells| - 1], len, i);
    }
  }

  method GetColumnLens(columns: seq<Column>) returns (lens: seq<nat>, preWidth: nat)
    requires columns != []
    ensures |lens| == |columns| && preWidth == TotalLen(Front(columns))
    ensures forall k :: 0 <= k < |columns| - 1 ==> lens[k] == ColumnLen(columns[k])
  {
    lens := seq(|columns|, k requires 0 <= k < |columns| => columns[k].len);
    preWidth := 0;
    for i := 0 to |columns| - 1
      invariant |lens| == |columns| && preWidth == TotalLen(columns[..i])
      invariant forall k :: 0 <= k < i ==> lens[k] == ColumnLen(columns[k])
      invariant forall k :: i <= k < |columns| ==> lens[k] == columns[k].len
    {
      var cells := columns[i].cells;
      for j := 0 to |cells|
        invariant |lens| == |columns| && lens[i] == CellsLen(cells[..j], columns[i].len)
        invariant forall k :: 0 <= k < i ==> lens[k] == ColumnLen(columns[k])
        invariant forall k :: i < k < |columns| ==> lens[k] == columns[k].len
      {
        assert cells[..j + 1][..j] == cells[..j];
        lens := lens[i := Max(lens[i], |cells[j]| + 2)];
      }
      assert cells[..|cells|] == cells;
      assert columns[..i + 1][..i] == columns[..i];
      preWidth := preWidth + lens[i];
    }
  }

  /** The cells of row i before the last one. */
  method PrintHead(columns: seq<Column>, lens: seq<nat>, i: nat) returns (head: Text)
    requires IsTable(columns) && i < |columns[0].cells| && |lens| == |columns|
    requires forall k :: 0 <= k < |columns| - 1 ==> lens[k] == ColumnLen(columns[k])
    ensures head == RowHead(Front(columns), i)
  {
    head := [];
    for k := 0 to |columns| - 1
      invariant head == RowHead(columns[..k], i)
    {
      assert columns[..k + 1][..k] == columns[..k];
      head := head + PadRight(columns[k].cells[i], lens[k]);
    }
  }

  /**
   The table: every row, with its last cell wrapped and continued under its first line.  Cut at the newlines
   it is the lines of the rows, and every line, the last one as well, ends with a newline.
   */
  method GetPrintString(columns: seq<Column>, window: nat, newline: Text) returns (sb: Text)
    requires IsTable(columns)
    ensures sb == TableText(columns, window, newline, |columns[0].cells|)
    ensures IsLineBreak(newline) && OneLineCells(columns) ==>
      LinesOf(sb, newline) == (TableLines(columns, window, |columns[0].cells|), [])
  {
    var lens, preWidth := GetColumnLens(columns);
    var padPre := PadRight([SPACE], preWidth);
    var maxWidth := Max(preWidth + 10, window);
    var lastLen := maxWidth - preWidth;
    sb := [];
    for i := 0 to |columns[0].cells|
      invariant sb == TableText(columns, window, newline, i)
    {
      var head := PrintHead(columns, lens, i);
      var lines := Wrap(columns[|columns| - 1].cells[i], lastLen, newline, padPre);
      sb := sb + (head + lines + newline);
    }
    if IsLineBreak(newline) && OneLineCells(columns) {
      TableLinesPrinted(columns, window, newline);
    }
  }
}
