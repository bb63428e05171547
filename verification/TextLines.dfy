/** A text cut into lines at a newline of one or more characters. */
module TextLines {
  import opened Sequences

  /** Where the first newline begins, or the end of the text. */
  function FirstBreak<T(==)>(text: seq<T>, newline: seq<T>, from: nat): (n: nat)
    requires from <= |text| && newline != []
    ensures from <= n <= |text|
    ensures n < |text| ==> n + |newline| <= |text| && text[n..n + |newline|] == newline
    decreases |text| - from
  {
    if from + |newline| > |text| then |text|
    else if text[from..from + |newline|] == newline then from
    else FirstBreak(text, newline, from + 1)
  }

  /** The lines that end with a newline, and what comes behind the last of them. */
  function LinesOf<T(==)>(text: seq<T>, newline: seq<T>): (seq<seq<T>>, seq<T>)
    requires newline != []
  {
    var n := FirstBreak(text, newline, 0);
    if n == |text| then ([], text)
    else
      var (lines, rest) := LinesOf(text[n + |newline|..], newline);
      ([text[..n]] + lines, rest)
  }

  /** The last character of a newline is not in it before. */
  predicate IsNewline<T(==)>(newline: seq<T>) {
    newline != [] && newline[|newline| - 1] !in newline[..|newline| - 1]
  }

  function Unlines<T>(lines: seq<seq<T>>, newline: seq<T>): seq<T> {
    if lines == [] then [] else lines[0] + newline + Unlines(lines[1..], newline)
  }

  lemma {:induction false} FirstBreakIs<T>(text: seq<T>, newline: seq<T>, from: nat, n: nat)
    requires IsNewline(newline) && from <= n && n + |newline| <= |text| && text[n..n + |newline|] == newline
    requires newline[|newline| - 1] !in text[..n]
    ensures FirstBreak(text, newline, from) == n
    decreases n - from
  {
    if from < n {
      var k := from + |newline| - 1;
      assert text[from..from + |newline|][|newline| - 1] == text[k];
      assert if k < n then text[k] in text[..n] else text[k] == text[n..n + |newline|][k - n] == newline[..|newline| - 1][k - n];
      FirstBreakIs(text, newline, from + 1, n);
    }
  }

  /** A text without the newline's last character, and a newline: the first line. */
  lemma OneLine<T>(line: seq<T>, newline: seq<T>, rest: seq<T>)
    requires IsNewline(newline) && newline[|newline| - 1] !in line
    ensures var r := LinesOf(rest, newline); LinesOf(line + newline + rest, newline) == ([line] + r.0, r.1)
  {
    var text := line + newline + rest;
    assert text[|line|..|line| + |newline|] == newline && text[..|line|] == line && text[|line| + |newline|..] == rest;
    FirstBreakIs(text, newline, 0, |line|);
  }

  /** No line has the newline's last character. */
  ghost predicate OneLineEach<T>(lines: seq<seq<T>>, newline: seq<T>)
    requires newline != []
  {
    forall k :: 0 <= k < |lines| ==> newline[|newline| - 1] !in lines[k]
  }

  /** Lines that are written with newlines behind them are the lines of the text. */
  lemma {:induction false} LinesAre<T>(lines: seq<seq<T>>, newline: seq<T>)
    requires IsNewline(newline) && OneLineEach(lines, newline)
    ensures LinesOf(Unlines(lines, newline), newline) == (lines, [])
  {
    if lines == [] {
      NoLines(newline);
    } else {
      var tail := lines[1..];
      LinesAre(tail, newline);
      MoreLines(lines[0], tail, newline);
      assert [lines[0]] + tail == lines;
    }
  }

  lemma NoLines<T>(newline: seq<T>)
    requires newline != []
    ensures LinesOf([], newline) == ([], [])
  {
  }

  lemma MoreLines<T>(line: seq<T>, tail: seq<seq<T>>, newline: seq<T>)
    requires IsNewline(newline) && newline[|newline| - 1] !in line && LinesOf(Unlines(tail, newline), newline) == (tail, [])
    ensures LinesOf(Unlines([line] + tail, newline), newline) == ([line] + tail, [])
  {
    OneLine(line, newline, Unlines(tail, newline));
    assert ([line] + tail)[1..] == tail;
    assert Unlines([line] + tail, newline) == line + newline + Unlines(tail, newline);
  }

  lemma {:induction false} UnlinesConcat<T>(a: seq<seq<T>>, b: seq<seq<T>>, newline: seq<T>)
    ensures Unlines(a + b, newline) == Unlines(a, newline) + Unlines(b, newline)
  {
    if a == [] {
      assert a + b == b;
      NothingBefore(Unlines(b, newline));
    } else {
      assert (a + b)[0] == a[0] && (a + b)[1..] == a[1..] + b;
      UnlinesConcat(a[1..], b, newline);
      Grouped(a[0] + newline, Unlines(a[1..], newline), Unlines(b, newline));
    }
  }
}
