/** Reflowing text given as a string (mailpile/util.py:594-649). */
module ReflowText {
  import opened ReflowWords
  import opened Reflow

  predicate IsBreak(c: char) {
    c == '\n' || c == '\r'
  }

  function LineEnd(t: string): (n: nat)
    ensures n <= |t| && (forall i :: 0 <= i < n ==> !IsBreak(t[i])) && (n < |t| ==> IsBreak(t[n]))
  {
    if t == [] || IsBreak(t[0]) then 0 else 1 + LineEnd(t[1..])
  }

  /** How many characters the line break at position n takes. */
  function BreakLength(t: string, n: nat): (k: nat)
    requires n < |t|
    ensures 1 <= k <= 2 && n + k <= |t|
  {
    if t[n] == '\r' && n + 1 < |t| && t[n + 1] == '\n' then 2 else 1
  }

  /** Python's `splitlines`, for text whose only line breaks are \n, \r and \r\n. */
  function SplitLines(t: string): seq<string>
    decreases |t|
  {
    if t == [] then []
    else
      var n := LineEnd(t);
      if n == |t| then [t] else [t[..n]] + SplitLines(t[n + BreakLength(t, n)..])
  }

  function JoinLines(lines: seq<string>): string {
    if lines == [] then [] else if |lines| == 1 then lines[0] else lines[0] + ['\n'] + JoinLines(lines[1..])
  }

  function ReflowText(t: string, width: int): string {
    JoinLines(ReflowLines(SplitLines(t), width))
  }

  predicate Unbroken(l: string) {
    forall i :: 0 <= i < |l| ==> !IsBreak(l[i])
  }

  predicate AllUnbroken(lines: seq<string>) {
    forall i :: 0 <= i < |lines| ==> Unbroken(lines[i])
  }

  /** A blank last line is lost when lines are joined and split again. */
  function Shed(lines: seq<string>): seq<string> {
    if lines != [] && lines[|lines| - 1] == [] then lines[..|lines| - 1] else lines
  }

  lemma LineEndAt(l: string, rest: string)
    requires Unbroken(l) && (rest == [] || IsBreak(rest[0]))
    ensures LineEnd(l + rest) == |l|
  {
    var t := l + rest;
    assert forall i :: 0 <= i < |l| ==> t[i] == l[i];
    assert rest != [] ==> t[|l|] == rest[0];
  }

  lemma SplitFirstLine(l: string, rest: string)
    requires Unbroken(l)
    ensures SplitLines(l + ['\n'] + rest) == [l] + SplitLines(rest)
  {
    var t := l + ['\n'] + rest;
    assert t == l + (['\n'] + rest);
    LineEndAt(l, ['\n'] + rest);
    var n := |l|;
    assert t[n] == '\n' && t[..n] == l && t[n + 1..] == rest;
  }

  /** The three line breaks. */
  lemma SplitAtBreak(l: string, br: string, rest: string)
    requires Unbroken(l) && (br == "\n" || br == "\r\n" || (br == "\r" && (rest == [] || rest[0] != '\n')))
    ensures SplitLines(l + br + rest) == [l] + SplitLines(rest)
  {
    var t := l + br + rest;
    assert t == l + (br + rest);
    LineEndAt(l, br + rest);
    var n := |l|;
    assert forall i :: 0 <= i < |br + rest| ==> t[n + i] == (br + rest)[i];
    assert t[..n] == l && t[n + |br|..] == rest;
  }

  lemma SplitLastLine(l: string)
    requires Unbroken(l)
    ensures SplitLines(l) == if l == [] then [] else [l]
  {
    LineEndAt(l, []);
    assert l + [] == l;
  }

  lemma {:induction false} SplitJoinLines(lines: seq<string>)
    requires AllUnbroken(lines)
    ensures SplitLines(JoinLines(lines)) == Shed(lines)
  {
    hide SplitLines, Unbroken;
    if lines == [] {
      SplitNothing();
    } else if |lines| == 1 {
      SplitLastLine(lines[0]);
      assert lines[0] == [] ==> Shed(lines) == [];
    } else {
      SplitFirstLine(lines[0], JoinLines(lines[1..]));
      SplitJoinLines(lines[1..]);
      assert Shed(lines) == [lines[0]] + Shed(lines[1..]);
    }
  }

  lemma SplitNothing()
    ensures SplitLines([]) == []
  {
  }

  lemma {:induction false} SplitLinesUnbroken(t: string)
    ensures AllUnbroken(SplitLines(t))
    decreases |t|
  {
    if t == [] {
    } else {
      var n := LineEnd(t);
      if n < |t| {
        SplitLinesUnbroken(t[n + BreakLength(t, n)..]);
      }
    }
  }

  lemma {:induction false} JoinUnbroken(line: seq<Word>)
    requires GoodWords(line)
    ensures Unbroken(Join(line))
  {
    if line == [] {
    } else {
      JoinUnbroken(line[1..]);
      assert forall i :: 0 <= i < |line[0]| ==> !IsSpace(line[0][i]);
    }
  }

  lemma {:induction false} ReflowUnbroken(lines: seq<string>, width: int)
    requires AllUnbroken(lines)
    ensures AllUnbroken(ReflowLines(lines, width))
    decreases |lines|
  {
    hide RunLength, Fill, TwoSpaces, ProseStart, Unbroken;
    if lines == [] {
    } else if Opens(lines[0], width) {
      var n := 1 + RunLength(lines[1..]);
      ParagraphIsTight(lines, width);
      var p := Fill([], AllWords(lines[..n]), width);
      forall i | 0 <= i < |p|
        ensures Unbroken(Joins(p)[i])
      {
        assert GoodLine(p[i], width);
        JoinUnbroken(p[i]);
      }
      ReflowUnbroken(lines[n..], width);
    } else {
      ReflowUnbroken(lines[1..], width);
    }
  }

  /** A line of the result is a line of the input, or no longer than the width, or a single word. */
  lemma {:induction false} ReflowWidth(lines: seq<string>, width: int, k: nat)
    requires k < |ReflowLines(lines, width)|
    ensures var l := ReflowLines(lines, width)[k]; l in lines || |l| <= width || |Split(l)| == 1
    decreases |lines|
  {
    hide RunLength, Fill, TwoSpaces, ProseStart;
    if Opens(lines[0], width) {
      var n := 1 + RunLength(lines[1..]);
      ParagraphIsTight(lines, width);
      var p := Fill([], AllWords(lines[..n]), width);
      if k < |p| {
        assert GoodLine(p[k], width);
        LineWidth(p[k], width);
        SplitJoin(p[k]);
      } else {
        ReflowWidth(lines[n..], width, k - |p|);
      }
    } else if k > 0 {
      ReflowWidth(lines[1..], width, k - 1);
    }
  }

  /** Neither a paragraph nor what becomes of it ends in a blank line. */
  lemma ParagraphEnd(lines: seq<string>, p: seq<seq<Word>>, width: int)
    requires lines != [] && Opens(lines[0], width) && 1 + RunLength(lines[1..]) == |lines|
    requires p == Fill([], AllWords(lines), width)
    ensures lines[|lines| - 1] != [] && p != [] && Join(p[|p| - 1]) != []
  {
    hide RunLength, Fill, AllWords, Join, TwoSpaces;
    assert lines[..|lines|] == lines;
    ParagraphIsTight(lines, width);
    RunLengthMeans(lines[1..]);
    assert GoodLine(p[|p| - 1], width);
    JoinEnds(p[|p| - 1]);
    assert |lines| > 1 ==> lines[|lines| - 1] == lines[1..][|lines| - 2];
  }

  /** Reflowed text ends in a blank line just in case the input does. */
  lemma {:induction false} LastLine(lines: seq<string>, width: int)
    requires lines != []
    ensures var out := ReflowLines(lines, width);
            out != [] && (out[|out| - 1] == [] <==> lines[|lines| - 1] == [])
    decreases |lines|
  {
    hide RunLength, Fill, Opens, ReflowLines, Tight, AllWords, Join;
    ReflowUnfold(lines, width);
    if Opens(lines[0], width) {
      var n := 1 + RunLength(lines[1..]);
      var p := Fill([], AllWords(lines[..n]), width);
      if n < |lines| {
        LastLine(lines[n..], width);
      } else {
        assert lines[..n] == lines;
        ParagraphEnd(lines, p, width);
        NoLines(width);
      }
    } else if |lines| > 1 {
      LastLine(lines[1..], width);
    } else {
      NoLines(width);
    }
  }

  /** Does the text end in a blank line that is not its only line? */
  predicate EndsBlank(t: string) {
    var lines := SplitLines(t);
    |lines| > 1 && lines[|lines| - 1] == []
  }

  lemma {:induction false} JoinLinesMore(lines: seq<string>)
    requires lines != []
    ensures JoinLines(lines + [[]]) == JoinLines(lines) + ['\n']
  {
    if |lines| > 1 {
      JoinLinesMore(lines[1..]);
      assert (lines + [[]])[1..] == lines[1..] + [[]];
    } else {
      assert (lines + [[]])[1..] == [[]];
    }
  }

  /** What reflowing text twice gives: the lines of the first time, without a blank last line. */
  lemma TwiceIsShed(t: string, width: int)
    ensures var out := ReflowLines(SplitLines(t), width);
            ReflowText(ReflowText(t, width), width) == JoinLines(Shed(out))
  {
    hide ReflowLines, SplitLines, JoinLines;
    var lines := SplitLines(t);
    var out := ReflowLines(lines, width);
    SplitLinesUnbroken(t);
    ReflowUnbroken(lines, width);
    SplitJoinLines(out);
    ReflowIdempotent(lines, width);
    if Shed(out) != out {
      BlankAtEnd(Shed(out), width);
      assert out == Shed(out) + [[]];
    }
  }

  /** A blank last line stays a blank last line. */
  lemma BlankAtEnd(lines: seq<string>, width: int)
    ensures ReflowLines(lines + [[]], width) == ReflowLines(lines, width) + [[]]
    ensures ReflowLines(lines + [[]], width) == lines + [[]] ==> ReflowLines(lines, width) == lines
  {
    ReflowAround(lines, [], [], width);
    assert lines + [[]] + [] == lines + [[]];
    var out := ReflowLines(lines, width);
    assert out + [[]] + ReflowLines([], width) == out + [[]];
    assert out == (out + [[]])[..|out|];
    assert lines == (lines + [[]])[..|lines|];
    if out + [[]] == lines + [[]] {
      assert |out| == |lines|;
    }
  }

  /** The function is stable, as its documentation promises, on exactly those texts that do not end
      in a blank line below another line. */
  lemma ReflowStableExactly(t: string, width: int)
    ensures ReflowText(ReflowText(t, width), width) == ReflowText(t, width) <==> !EndsBlank(t)
  {
    hide ReflowLines, SplitLines, JoinLines;
    var lines := SplitLines(t);
    var out := ReflowLines(lines, width);
    TwiceIsShed(t, width);
    if lines == [] {
      NoLines(width);
    } else {
      LastLine(lines, width);
      if lines[|lines| - 1] == [] {
        var init, before := Shed(out), lines[..|lines| - 1];
        assert lines == before + [[]] && out == init + [[]];
        BlankAtEnd(before, width);
        assert init == ReflowLines(before, width);
        if before == [] {
          NoLines(width);
          JoinBlank();
          assert out == [[]];
        } else {
          LastLine(before, width);
          JoinLinesMore(init);
        }
      }
    }
  }

  /** Such a text: a letter and two line breaks. */
  lemma BlankEndIsLost(width: int)
    ensures ReflowText(ReflowText("a\n\n", width), width) != ReflowText("a\n\n", width)
  {
    var t, b := "a\n\n", "\n";
    assert LineEnd(b) == 0 && b[..0] == [] && b[1..] == [];
    assert SplitLines(b) == [[]];
    assert t[1..] == "\n\n" && LineEnd(t) == 1;
    assert BreakLength(t, 1) == 1 && t[2..] == b;
    assert SplitLines(t) == [t[..1]] + [[]];
    assert EndsBlank(t);
    hide ReflowText;
    ReflowStableExactly(t, width);
  }

  lemma NoLines(width: int)
    ensures ReflowLines([], width) == []
  {
  }

  lemma JoinBlank()
    ensures JoinLines([[]]) == JoinLines([])
  {
  }

  // ---- The loops -----------------------------------------------------------------------------

  lemma {:induction false} FillSnoc(done: seq<seq<Word>>, cur: seq<Word>, ws: seq<Word>, all: seq<seq<Word>>,
                                    width: int)
    requires ws != [] && all == done + Fill(cur, ws, width)
    ensures all == if LineLength(cur, ws[0]) <= width || cur == []
                   then done + Fill(cur + [ws[0]], ws[1..], width)
                   else done + [cur] + Fill([ws[0]], ws[1..], width)
  {
  }

  /** The inner loop: the words of a paragraph go to lines; the last line is still open. */
  method FillLines(para: seq<Word>, width: int) returns (lines: seq<seq<Word>>)
    ensures lines == Fill([], para, width)
  {
    hide Fill, LineLength;
    var done, cur: seq<Word> := [], [];
    var i := 0;
    assert para[0..] == para;
    assert Fill([], para, width) == done + Fill(cur, para[i..], width);
    while i < |para|
      invariant 0 <= i <= |para|
      invariant Fill([], para, width) == done + Fill(cur, para[i..], width)
    {
      var word := para[i];
      FillSnoc(done, cur, para[i..], Fill([], para, width), width);
      assert para[i..][1..] == para[i + 1..];
      SumIsLength(cur, word);
      if SumLengths(cur) + |cur| + |word| <= width {
        cur := cur + [word];
      } else if |cur| == 0 {
        cur := cur + [word];
      } else {
        done, cur := done + [cur], [word];
      }
      i := i + 1;
    }
    FillEnd(cur, width);
    assert para[i..] == [];
    lines := done + [cur];
  }

  lemma FillEnd(cur: seq<Word>, width: int)
    ensures Fill(cur, [], width) == [cur]
  {
  }

  /** Collecting the words of a paragraph. */
  method TakeParagraph(lines: seq<string>, from: nat) returns (para: seq<Word>, next: nat)
    requires from < |lines|
    ensures next == from + 1 + RunLength(lines[from + 1..]) <= |lines|
    ensures para == AllWords(lines[from..next])
  {
    hide Split, Continues;
    para := Split(lines[from]);
    next := from + 1;
    assert lines[from..next] == [lines[from]];
    assert AllWords([lines[from]]) == Split(lines[from]) by {
      assert [lines[from]][1..] == [];
      assert Split(lines[from]) + [] == Split(lines[from]);
    }
    while next < |lines| && Continues(lines[next])
      invariant from < next <= |lines|
      invariant from + 1 + RunLength(lines[from + 1..]) == next + RunLength(lines[next..])
      invariant para == AllWords(lines[from..next])
    {
      assert lines[next..][1..] == lines[next + 1..];
      AllWordsAppend(lines[from..next], [lines[next]]);
      assert AllWords([lines[next]]) == Split(lines[next]) by {
        assert [lines[next]][1..] == [];
        assert Split(lines[next]) + [] == Split(lines[next]);
      }
      assert lines[from..next] + [lines[next]] == lines[from..next + 1];
      para := para + Split(lines[next]);
      next := next + 1;
    }
  }

  lemma ReflowStep(lines: seq<string>, i: nat, width: int)
    requires i < |lines|
    ensures var n := i + 1 + RunLength(lines[i + 1..]);
            n <= |lines| &&
            ReflowLines(lines[i..], width) ==
            if Opens(lines[i], width)
            then Joins(Fill([], AllWords(lines[i..n]), width)) + ReflowLines(lines[n..], width)
            else [lines[i]] + ReflowLines(lines[i + 1..], width)
  {
    hide RunLength, Fill, AllWords, Opens;
    var rest := lines[i..];
    assert rest[1..] == lines[i + 1..];
    var n := 1 + RunLength(rest[1..]);
    assert rest[..n] == lines[i..i + n] && rest[n..] == lines[i + n..];
  }

  /** The outer loop. */
  method ReflowLoop(text: string, quoting: bool, targetWidth: int) returns (out: string)
    ensures out == ReflowText(text, if quoting then targetWidth - 2 else targetWidth)
  {
    hide ReflowLines, SplitLines, JoinLines, Fill, Opens, AllWords, RunLength, Join;
    var width := if quoting then targetWidth - 2 else targetWidth;
    var inlines := SplitLines(text);
    var outlines: seq<string> := [];
    var i := 0;
    assert inlines[0..] == inlines;
    while i < |inlines|
      invariant 0 <= i <= |inlines|
      invariant ReflowLines(inlines, width) == outlines + ReflowLines(inlines[i..], width)
    {
      ReflowStep(inlines, i, width);
      ghost var before := outlines;
      if Opens(inlines[i], width) {
        var para, next := TakeParagraph(inlines, i);
        var paralines := FillLines(para, width);
        outlines := outlines + Joins(paralines);
        i := next;
        assert before + (Joins(paralines) + ReflowLines(inlines[i..], width))
            == outlines + ReflowLines(inlines[i..], width);
      } else {
        outlines := outlines + [inlines[i]];
        i := i + 1;
        assert before + ([inlines[i - 1]] + ReflowLines(inlines[i..], width))
            == outlines + ReflowLines(inlines[i..], width);
      }
    }
    NoLines(width);
    assert inlines[i..] == [] && outlines + [] == outlines;
    out := JoinLines(outlines);
  }
}
