/** Where a text is cut into lines, and which lists of lines are the lines of a text. */
module TextLines {
  import opened UnifiedDiff

  /** A text may be cut between `a` and `b`: a line ends there, or one of them is empty. */
  predicate Cut(a: string, b: string) {
    || a == "" || b == ""
    || a[|a| - 1] == '\n'
    || (a[|a| - 1] == '\r' && b[0] != '\n')
  }

  /** Joined and cut again, the lines come back. */
  predicate IsText(lines: seq<Line>) {
    SplitLines(Join(lines)) == lines
  }

  lemma {:induction false} JoinConcat(a: seq<Line>, b: seq<Line>)
    ensures Join(a + b) == Join(a) + Join(b)
  {
    if a == [] {
      assert a + b == b;
    } else {
      JoinConcat(a[1..], b);
      assert (a + b)[1..] == a[1..] + b;
    }
  }

  lemma {:induction false} LineSizeConcat(a: string, b: string)
    requires a != "" && Cut(a, b)
    ensures LineSize(a + b) == LineSize(a)
    decreases |a|
  {
    if |a| > 1 && a[0] != '\n' && a[0] != '\r' {
      LineSizeConcat(a[1..], b);
      assert (a + b)[1..] == a[1..] + b;
    } else if b == "" {
      assert a + b == a;
    }
  }

  /** A first line is one line, and the text may be cut after it. */
  lemma {:induction false} LineSizeCut(x: string)
    requires x != ""
    ensures var n := LineSize(x); Cut(x[..n], x[n..]) && LineSize(x[..n]) == n
    decreases |x|
  {
    var n := LineSize(x);
    if |x| > 1 && x[0] != '\n' && x[0] != '\r' {
      LineSizeCut(x[1..]);
      assert x[..n][1..] == x[1..][..n - 1] && x[n..] == x[1..][n - 1..];
    }
  }

  /** Cutting a text in two at a line end cuts its lines in two. */
  lemma {:induction false} SplitConcat(a: string, b: string)
    requires Cut(a, b)
    ensures SplitLines(a + b) == SplitLines(a) + SplitLines(b)
    decreases |a|
  {
    if a == "" {
      assert a + b == b;
    } else {
      var n := LineSize(a);
      LineSizeConcat(a, b);
      assert (a + b)[..n] == a[..n] && (a + b)[n..] == a[n..] + b;
      SplitConcat(a[n..], b);
    }
  }

  lemma OneLine(x: string)
    requires x != ""
    ensures SplitLines(x[..LineSize(x)]) == [x[..LineSize(x)]]
  {
    LineSizeCut(x);
    var l := x[..LineSize(x)];
    assert l[|l|..] == "";
    assert l[..|l|] == l;
  }

  /** The first line of a text is one line, and the text may be cut after it. */
  lemma FirstOfText(lines: seq<Line>)
    requires IsText(lines) && lines != []
    ensures lines[0] != "" && SplitLines(lines[0]) == [lines[0]] && IsText(lines[1..])
    ensures Join(lines) == lines[0] + Join(lines[1..]) && Cut(lines[0], Join(lines[1..]))
  {
    hide LineSize;
    var x := Join(lines);
    var n := LineSize(x);
    assert SplitLines(x)[0] == x[..n] && SplitLines(x)[1..] == SplitLines(x[n..]);
    assert Join(lines[1..]) == x[n..];
    LineSizeCut(x);
    OneLine(x);
  }

  lemma CutLonger(a: string, b: string, c: string)
    requires Cut(a, b + c) && Cut(b, c)
    ensures Cut(a, b) && Cut(a + b, c)
  {
    if b != "" {
      assert (b + c)[0] == b[0] && (a + b)[|a + b| - 1] == b[|b| - 1];
    } else {
      assert b + c == c && a + b == a;
    }
  }

  /** Lines of a text, cut in two, are the lines of two texts that meet at a line end. */
  lemma {:induction false} SplitCut(a: seq<Line>, b: seq<Line>)
    requires IsText(a + b)
    ensures Cut(Join(a), Join(b)) && IsText(a) && IsText(b)
    decreases |a|
  {
    hide LineSize, SplitLines, Cut;
    if a == [] {
      NoLines();
      assert a + b == b;
    } else {
      FirstOfText(a + b);
      assert (a + b)[1..] == a[1..] + b && (a + b)[0] == a[0];
      SplitCut(a[1..], b);
      JoinConcat(a[1..], b);
      CutLonger(a[0], Join(a[1..]), Join(b));
      SplitConcat(a[0], Join(a[1..]));
      assert Join(a) == a[0] + Join(a[1..]);
      assert a == [a[0]] + a[1..];
    }
  }

  lemma NoLines()
    ensures SplitLines("") == [] && forall x :: Cut("", x)
  {
  }

  lemma NoEmptyLine(lines: seq<Line>)
    requires IsText(lines) && lines != []
    ensures Join(lines) != ""
  {
  }

  /** Texts are equal exactly when their lines are. */
  lemma SameText(a: seq<Line>, b: seq<Line>)
    requires IsText(a) && IsText(b) && Join(a) == Join(b)
    ensures a == b
  {
  }
}
