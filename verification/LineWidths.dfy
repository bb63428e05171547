/**
 How wide the lines are that the table printer of dotnet/libs/om.utils/CmdLine.cs prints, in display
 columns, and exactly when they are as wide as it means them to be.
 */
module LineWidths {
  import opened LineWrap
  import opened Sequences
  import opened TextLines

  lemma {:induction false} WidthConcat(a: Text, b: Text)
    ensures Width(a + b) == Width(a) + Width(b)
  {
    if a == [] {
      assert a + b == b;
    } else {
      WidthConcat(a[1..], b);
      assert (a + b)[1..] == a[1..] + b;
    }
  }

  lemma {:induction false} WidthOfSpaces(n: nat)
    ensures Width(Spaces(n)) == n
  {
    if n > 0 {
      WidthOfSpaces(n - 1);
      assert Spaces(n)[1..] == Spaces(n - 1);
    }
  }

  /** No character of the text is displayed with double width. */
  predicate IsHalfWidth(s: Text) {
    forall k :: 0 <= k < |s| ==> !IsFullWidthChar(s[k])
  }

  lemma {:induction false} WidthIsLength(s: Text)
    ensures |s| <= Width(s)
    ensures Width(s) == |s| <==> IsHalfWidth(s)
  {
    if s != [] {
      WidthIsLength(s[1..]);
      assert IsHalfWidth(s) <==> !IsFullWidthChar(s[0]) && IsHalfWidth(s[1..]) by {
        assert forall k :: 0 <= k < |s[1..]| ==> s[1..][k] == s[k + 1];
        assert IsHalfWidth(s[1..]) ==> forall k :: 1 <= k < |s| ==> s[k] == s[1..][k - 1];
      }
    }
  }

  /** The cells of row i before the last one are free of characters of double width. */
  ghost predicate HalfWidthHead(columns: seq<Column>, i: nat)
    requires forall k :: 0 <= k < |columns| ==> i < |columns[k].cells|
  {
    forall k :: 0 <= k < |columns| ==> IsHalfWidth(columns[k].cells[i])
  }

  /**
   The padded cells of a row never take less than the room of their columns; they take exactly it,
   so that the last column begins at its place, if and only if they are all of half width.
   */
  lemma {:induction false} ColumnsAlign(columns: seq<Column>, i: nat)
    requires forall k :: 0 <= k < |columns| ==> i < |columns[k].cells|
    ensures TotalLen(columns) <= Width(RowHead(columns, i))
    ensures Width(RowHead(columns, i)) == TotalLen(columns) <==> HalfWidthHead(columns, i)
  {
    if columns != [] {
      var last := columns[|columns| - 1];
      ColumnsAlign(Front(columns), i);
      CellFits(last.cells, last.len, i);
      PaddedWidth(last.cells[i], ColumnLen(last));
      WidthConcat(RowHead(Front(columns), i), PadRight(last.cells[i], ColumnLen(last)));
      HalfWidthMore(columns, i);
    }
  }

  lemma HalfWidthMore(columns: seq<Column>, i: nat)
    requires columns != [] && forall k :: 0 <= k < |columns| ==> i < |columns[k].cells|
    ensures HalfWidthHead(columns, i) <==> HalfWidthHead(Front(columns), i) && IsHalfWidth(columns[|columns| - 1].cells[i])
  {
    var front := Front(columns);
    assert forall k :: 0 <= k < |front| ==> front[k] == columns[k];
  }

  lemma PaddedWidth(s: Text, n: nat)
    requires |s| <= n
    ensures n <= Width(PadRight(s, n))
    ensures Width(PadRight(s, n)) == n <==> IsHalfWidth(s)
  {
    WidthIsLength(s);
    WidthConcat(s, Spaces(n - |s|));
    WidthOfSpaces(n - |s|);
    assert |s| == n ==> PadRight(s, n) == s;
  }

  function MaxWidth(columns: seq<Column>, window: nat): nat
    requires columns != []
  {
    Max(TotalLen(Front(columns)) + 10, window)
  }

  /** How wide line n of row i is, as printed, when its last cell is this one. */
  function PrintedWidth(columns: seq<Column>, window: nat, i: nat, cell: Text, n: nat): nat
    requires IsTable(columns) && i < |columns[0].cells| && n < |Lay(cell, [], LastLen(columns, window))|
  {
    Width(RowLine(columns, window, i, cell, n))
  }

  lemma PrintedWidthIs(columns: seq<Column>, window: nat, i: nat, cell: Text, n: nat)
    requires IsTable(columns) && i < |columns[0].cells| && n < |Lay(cell, [], LastLen(columns, window))|
    ensures PrintedWidth(columns, window, i, cell, n) ==
      Width(if n == 0 then RowHead(Front(columns), i) else Pad(columns)) + Width(Lay(cell, [], LastLen(columns, window))[n].chars)
  {
    WidthConcat(if n == 0 then RowHead(Front(columns), i) else Pad(columns), Lay(cell, [], LastLen(columns, window))[n].chars);
  }

  lemma PadWidth(columns: seq<Column>)
    requires columns != []
    ensures Width(Pad(columns)) == Max(1, TotalLen(Front(columns)))
  {
    var n := TotalLen(Front(columns));
    WidthConcat([SPACE], Spaces(if n > 1 then n - 1 else 0));
    WidthOfSpaces(if n > 1 then n - 1 else 0);
    assert Width([SPACE]) == 1;
  }

  /** A line of the layout is never wider than the room for the last column. */
  lemma LineWidth(columns: seq<Column>, window: nat, cell: Text, n: nat)
    requires columns != [] && n < |Lay(cell, [], LastLen(columns, window))|
    ensures Width(Lay(cell, [], LastLen(columns, window))[n].chars) <= LastLen(columns, window)
  {
    WrapIsBest(cell, LastLen(columns, window), []);
    assert LineOk(Lay(cell, [], LastLen(columns, window)), n, LastLen(columns, window));
  }

  /** With more than one column no continued line is wider than the window, or than ten more than the other columns. */
  lemma LinesFit(columns: seq<Column>, window: nat, i: nat, cell: Text, n: nat)
    requires IsTable(columns) && i < |columns[0].cells| && |columns| > 1
    requires 0 < n < |Lay(cell, [], LastLen(columns, window))|
    ensures PrintedWidth(columns, window, i, cell, n) <= MaxWidth(columns, window)
  {
    var before := Front(columns)[|columns| - 2];
    CellFits(before.cells, before.len, i);
    PadWidth(columns);
    LineWidth(columns, window, cell, n);
    PrintedWidthIs(columns, window, i, cell, n);
  }

  ghost predicate FirstLineFits(columns: seq<Column>, window: nat, i: nat, cell: Text)
    requires IsTable(columns) && i < |columns[0].cells|
  {
    PrintedWidth(columns, window, i, cell, 0) <= MaxWidth(columns, window)
  }

  /** The first line fits whatever the last cell is, if and only if the other cells of the row are of half width. */
  lemma FirstLinesFit(columns: seq<Column>, window: nat, i: nat)
    requires IsTable(columns) && i < |columns[0].cells|
    ensures HalfWidthHead(Front(columns), i) <==> forall cell :: FirstLineFits(columns, window, i, cell)
  {
    var front, room := Front(columns), LastLen(columns, window);
    ColumnsAlign(front, i);
    if HalfWidthHead(front, i) {
      forall cell
        ensures FirstLineFits(columns, window, i, cell)
      {
        LineWidth(columns, window, cell, 0);
        PrintedWidthIs(columns, window, i, cell, 0);
      }
    } else {
      var cell := Letters(room);
      WholeCell(columns, window, cell, room);
      PrintedWidthIs(columns, window, i, cell, 0);
      assert !FirstLineFits(columns, window, i, cell);
    }
  }

  // ----- the text that is printed -----

  ghost predicate AllWithin(lines: seq<Text>, width: nat) {
    forall k :: 0 <= k < |lines| ==> Width(lines[k]) <= width
  }

  lemma RowWithin(columns: seq<Column>, window: nat, i: nat)
    requires IsTable(columns) && i < |columns[0].cells| && |columns| > 1 && HalfWidthHead(Front(columns), i)
    ensures AllWithin(RowLines(columns, window, i), MaxWidth(columns, window))
  {
    var cell := columns[|columns| - 1].cells[i];
    FirstLinesFit(columns, window, i);
    forall n | 0 <= n < |RowLines(columns, window, i)|
      ensures Width(RowLines(columns, window, i)[n]) <= MaxWidth(columns, window)
    {
      if n == 0 {
        assert FirstLineFits(columns, window, i, cell);
      } else {
        LinesFit(columns, window, i, cell, n);
      }
    }
  }

  lemma {:induction false} RowsWithin(columns: seq<Column>, window: nat, rows: nat)
    requires IsTable(columns) && rows <= |columns[0].cells| && |columns| > 1
    requires forall i :: 0 <= i < rows ==> HalfWidthHead(Front(columns), i)
    ensures AllWithin(TableLines(columns, window, rows), MaxWidth(columns, window))
  {
    if rows > 0 {
      RowsWithin(columns, window, rows - 1);
      RowWithin(columns, window, rows - 1);
    }
  }

  /** With half-width cells before the last column, no line of the printed text is wider than max_width. */
  lemma PrintedTextFits(columns: seq<Column>, window: nat, newline: Text)
    requires IsTable(columns) && OneLineCells(columns) && IsLineBreak(newline) && |columns| > 1
    requires forall i :: 0 <= i < |columns[0].cells| ==> HalfWidthHead(Front(columns), i)
    ensures AllWithin(LinesOf(TableText(columns, window, newline, |columns[0].cells|), newline).0, MaxWidth(columns, window))
  {
    TableLinesPrinted(columns, window, newline);
    RowsWithin(columns, window, |columns[0].cells|);
  }

  /** A cell of n letters. */
  function Letters(n: nat): Text { seq(n, _ => 97) }

  lemma {:induction false} WidthOfLetters(n: nat)
    ensures Width(Letters(n)) == n && Clean(Letters(n)) == Letters(n)
  {
    if n > 0 {
      WidthOfLetters(n - 1);
      assert Letters(n)[1..] == Letters(n - 1);
      assert Letters(n) == [97] + Letters(n - 1);
    } else {
      assert Letters(n) == [];
    }
  }

  /** A text without newlines that fits on a line stays on it. */
  lemma {:induction false} LayShort(rest: Text, line: Text, width: nat)
    requires width >= 2 && LF !in rest && Width(line) + Width(rest) <= width
    ensures Lay(rest, line, width) == [Line(line + Clean(rest), Finish)]
  {
    if rest == [] {
      assert line + [] == line;
    } else {
      assert Width(rest) == CharWidth(rest[0]) + Width(rest[1..]);
      if rest[0] == CR {
        LayShort(rest[1..], line, width);
      } else {
        WidthOfMore(line, rest[0]);
        LayShort(rest[1..], line + [rest[0]], width);
        Grouped(line, [rest[0]], Clean(rest[1..]));
      }
    }
  }

  // ----- a single column -----

  /** The text between newlines, without carriage returns. */
  function Paragraphs(text: Text): (ps: seq<Text>)
    ensures ps != []
  {
    if text == [] then [[]]
    else
      var ps := Paragraphs(text[1..]);
      if text[0] == LF then [[]] + ps
      else if text[0] == CR then ps
      else [[text[0]] + ps[0]] + ps[1..]
  }

  ghost predicate LinesBelow(lines: seq<Line>, from: nat, width: nat) {
    forall n :: from <= n < |lines| ==> Width(lines[n].chars) < width
  }

  ghost predicate ParagraphsBelow(ps: seq<Text>, from: nat, length: nat) {
    forall n :: from <= n < |ps| ==> |ps[n]| < length
  }

  lemma LinesBelowCons(line: Line, lines: seq<Line>, width: nat)
    ensures LinesBelow([line] + lines, 1, width) <==> LinesBelow(lines, 0, width)
    ensures LinesBelow([line] + lines, 0, width) <==> Width(line.chars) < width && LinesBelow(lines, 0, width)
  {
    var all := [line] + lines;
    assert all[0] == line;
    if LinesBelow(all, 1, width) {
      forall n | 0 <= n < |lines|
        ensures Width(lines[n].chars) < width
      {
        assert all[n + 1] == lines[n];
      }
    }
  }

  lemma ParagraphsBelowCons(p: Text, ps: seq<Text>, length: nat)
    requires ps != []
    ensures ParagraphsBelow([p] + ps, 1, length) <==> |ps[0]| < length && ParagraphsBelow(ps, 1, length)
  {
    var all := [p] + ps;
    if ParagraphsBelow(all, 1, length) {
      forall n | 0 <= n < |ps|
        ensures |ps[n]| < length
      {
        assert all[n + 1] == ps[n];
      }
    }
  }

  lemma ParagraphsBelowTail(q: Text, ps: seq<Text>, length: nat)
    requires ps != []
    ensures ParagraphsBelow([q] + ps[1..], 1, length) <==> ParagraphsBelow(ps, 1, length)
  {
    var all := [q] + ps[1..];
    assert |all| == |ps|;
    assert forall n :: 1 <= n < |ps| ==> all[n] == ps[n];
  }

  /** Which lines of a half-width text stay below the width: those of short paragraphs. */
  lemma {:induction false} LayHalfWidth(rest: Text, line: Text, width: nat)
    requires width >= 2 && IsHalfWidth(rest) && Width(line) == |line| <= width
    ensures var ps, lines := Paragraphs(rest), Lay(rest, line, width);
      && (LinesBelow(lines, 1, width) <==> |line| + |ps[0]| < 2 * width && ParagraphsBelow(ps, 1, width))
      && (LinesBelow(lines, 0, width) <==> |line| + |ps[0]| < width && ParagraphsBelow(ps, 1, width))
    decreases |rest|, |line|
  {
    if rest != [] {
      HalfWidthTail(rest);
      var ps := Paragraphs(rest[1..]);
      ParagraphsBelowCons([], ps, width);
      ParagraphsBelowTail([rest[0]] + ps[0], ps, width);
      if rest[0] == LF {
        LayHalfWidth(rest[1..], [], width);
        LinesBelowCons(Line(line, Newline), Lay(rest[1..], [], width), width);
      } else if rest[0] == CR {
        LayHalfWidth(rest[1..], line, width);
      } else if |line| < width {
        WidthOfMore(line, rest[0]);
        LayHalfWidth(rest[1..], line + [rest[0]], width);
      } else {
        LayHalfWidth(rest, [], width);
        LinesBelowCons(Line(line, Break), Lay(rest, [], width), width);
      }
    }
  }

  lemma HalfWidthTail(rest: Text)
    requires rest != [] && IsHalfWidth(rest)
    ensures CharWidth(rest[0]) == 1 && IsHalfWidth(rest[1..])
  {
  }

  ghost predicate ContinuedLinesFit(columns: seq<Column>, window: nat, i: nat, cell: Text)
    requires IsTable(columns) && i < |columns[0].cells|
  {
    forall n :: 0 < n < |Lay(cell, [], LastLen(columns, window))| ==> PrintedWidth(columns, window, i, cell, n) <= MaxWidth(columns, window)
  }

  lemma ContinuedIsBelow(columns: seq<Column>, window: nat, i: nat, cell: Text)
    requires |columns| == 1 && i < |columns[0].cells|
    ensures var max := MaxWidth(columns, window);
      LastLen(columns, window) == max && (ContinuedLinesFit(columns, window, i, cell) <==> LinesBelow(Lay(cell, [], max), 1, max))
  {
    assert Front(columns) == [];
    PadWidth(columns);
    var max, lines := MaxWidth(columns, window), Lay(cell, [], MaxWidth(columns, window));
    forall n | 0 < n < |lines|
      ensures PrintedWidth(columns, window, i, cell, n) == 1 + Width(lines[n].chars)
    {
    }
    if LinesBelow(lines, 1, max) {
      assert forall n :: 0 < n < |lines| ==> Width(lines[n].chars) < max;
    }
    if ContinuedLinesFit(columns, window, i, cell) {
      forall n | 1 <= n < |lines|
        ensures Width(lines[n].chars) < max
      {
        assert PrintedWidth(columns, window, i, cell, n) <= max;
      }
    }
  }

  /**
   With a single column a full continued line is one too wide, because the padding of width 0 is still
   one space: a cell fits if and only if no continued line of its layout is full.  A half-width cell fits
   if and only if its first paragraph is shorter than two lines and every other shorter than one; any cell without newlines that fits on one line fits.
   */
  lemma SingleColumnFits(columns: seq<Column>, window: nat, i: nat, cell: Text)
    requires |columns| == 1 && i < |columns[0].cells|
    ensures var max, ps := MaxWidth(columns, window), Paragraphs(cell);
      && (ContinuedLinesFit(columns, window, i, cell) <==> LinesBelow(Lay(cell, [], max), 1, max))
      && (IsHalfWidth(cell) ==>
           (ContinuedLinesFit(columns, window, i, cell) <==> |ps[0]| < 2 * max && ParagraphsBelow(ps, 1, max)))
      && (LF !in cell && Width(cell) <= max ==> ContinuedLinesFit(columns, window, i, cell))
  {
    var max := MaxWidth(columns, window);
    assert Front(columns) == [] && LastLen(columns, window) == max;
    ContinuedIsBelow(columns, window, i, cell);
    if IsHalfWidth(cell) {
      LayHalfWidth(cell, [], max);
    }
    if LF !in cell && Width(cell) <= max {
      LayShort(cell, [], max);
      assert |Lay(cell, [], max)| == 1;
    }
  }

  // ----- two tables with a line that is too wide -----

  /** Eight characters of double width before the last column: the first line is 8 wider than the window. */
  lemma WideCellsOverflow(columns: seq<Column>, wide: Text)
    requires |wide| == 8 && forall k :: 0 <= k < 8 ==> wide[k] == 0x4E00
    requires columns == [Column([wide], 10), Column([Letters(70)], 10)]
    ensures IsTable(columns) && MaxWidth(columns, 80) == 80
    ensures PrintedWidth(columns, 80, 0, Letters(70), 0) == 88
  {
    OneCellBefore(columns, wide);
    WideCell(wide);
    WholeCell(columns, 80, Letters(70), 70);
    PrintedWidthIs(columns, 80, 0, Letters(70), 0);
  }

  /** A cell of letters that fills the room for the last column is its own first line. */
  lemma WholeCell(columns: seq<Column>, window: nat, cell: Text, room: nat)
    requires columns != [] && room == LastLen(columns, window) && cell == Letters(room)
    ensures |Lay(cell, [], room)| == 1 && Width(Lay(cell, [], room)[0].chars) == room
  {
    WidthOfLetters(room);
    LayShort(cell, [], room);
    assert [] + Clean(cell) == cell;
  }

  lemma OneCellBefore(columns: seq<Column>, cell: Text)
    requires |columns| == 2 && columns[0] == Column([cell], 10) && |cell| == 8
    ensures TotalLen(Front(columns)) == 10
    ensures RowHead(Front(columns), 0) == PadRight(cell, 10)
  {
    var front := [columns[0]];
    assert Front(columns) == front && front[..0] == [];
    assert [cell][..0] == [] && CellsLen([], 10) == 10;
    assert CellsLen([cell], 10) == Max(CellsLen([cell][..0], 10), |cell| + 2);
    assert RowHead(front, 0) == [] + PadRight(cell, 10);
  }

  lemma WideCell(wide: Text)
    requires |wide| == 8 && forall k :: 0 <= k < 8 ==> wide[k] == 0x4E00
    ensures Width(PadRight(wide, 10)) == 18
  {
    var two := 2;
    DoubleWidth(wide);
    WidthConcat(wide, Spaces(two));
    WidthOfSpaces(two);
  }

  lemma {:induction false} DoubleWidth(wide: Text)
    requires forall k :: 0 <= k < |wide| ==> wide[k] == 0x4E00
    ensures Width(wide) == 2 * |wide|
  {
    if wide != [] {
      DoubleWidth(wide[1..]);
    }
  }

  /** One column, twenty letters, window 10: the second line is 11 wide. */
  lemma SingleColumnOverflows(columns: seq<Column>, n: nat, cell: Text)
    requires n == 20 && cell == Letters(n) && columns == [Column([cell], 10)]
    ensures IsTable(columns) && MaxWidth(columns, 10) == 10
    ensures !ContinuedLinesFit(columns, 10, 0, cell)
  {
    assert Front(columns) == [];
    WidthOfLetters(n);
    WidthIsLength(cell);
    ParagraphOfLetters(n);
    SingleColumnFits(columns, 10, 0, cell);
  }

  lemma {:induction false} ParagraphOfLetters(n: nat)
    ensures Paragraphs(Letters(n)) == [Letters(n)]
  {
    if n > 0 {
      ParagraphOfLetters(n - 1);
      assert Letters(n)[1..] == Letters(n - 1);
      assert [97] + Letters(n - 1) == Letters(n);
    } else {
      assert Letters(n) == [];
    }
  }
}
