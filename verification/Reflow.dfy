/** Reflowing text (mailpile/util.py:591-649). */
module Reflow {
  import opened ReflowWords

  /** The line matches `\S*\w+` at its start: its first word has a letter, digit or underscore. */
  predicate ProseStart(l: string) {
    l != [] && !IsSpace(l[0]) && (IsWordChar(l[0]) || ProseStart(l[1..]))
  }

  predicate TwoSpaces(l: string) {
    |l| >= 2 && l[|l| - 2..] == [' ', ' ']
  }

  /** Can the line continue a paragraph? */
  predicate Continues(l: string) {
    ProseStart(l) && !TwoSpaces(l)
  }

  /** Does the line open a paragraph? */
  predicate Opens(l: string, width: int) {
    Continues(l) && |l| > width - 10
  }

  /** How many lines continue the paragraph. */
  function RunLength(lines: seq<string>): (n: nat)
    ensures n <= |lines|
  {
    if lines == [] || !Continues(lines[0]) then 0 else 1 + RunLength(lines[1..])
  }

  /** The words of all lines. */
  function AllWords(lines: seq<string>): (ws: seq<Word>)
    ensures GoodWords(ws)
  {
    if lines == [] then [] else Split(lines[0]) + AllWords(lines[1..])
  }

  function Joins(p: seq<seq<Word>>): (lines: seq<string>) {
    seq(|p|, i requires 0 <= i < |p| => Join(p[i]))
  }

  /** Reflowing a list of lines. */
  function ReflowLines(lines: seq<string>, width: int): seq<string>
    decreases |lines|
  {
    if lines == [] then []
    else if Opens(lines[0], width) then
      var n := 1 + RunLength(lines[1..]);
      Joins(Fill([], AllWords(lines[..n]), width)) + ReflowLines(lines[n..], width)
    else [lines[0]] + ReflowLines(lines[1..], width)
  }

  // ---- Lines of good words -----------------------------------------------------------------

  lemma {:induction false} ProseHasWord(l: string)
    requires ProseStart(l)
    ensures Split(l) != []
  {
  }

  lemma {:induction false} JoinEnds(line: seq<Word>)
    requires line != [] && GoodWords(line)
    ensures Join(line) != [] && !IsSpace(Join(line)[|Join(line)| - 1])
    ensures Join(line)[0] == line[0][0]
  {
    if |line| <= 1 {
    } else {
      JoinEnds(line[1..]);
    }
  }

  lemma {:induction false} AllWordsAppend(a: seq<string>, b: seq<string>)
    ensures AllWords(a + b) == AllWords(a) + AllWords(b)
  {
    hide Split, GoodWords;
    if a == [] {
      assert a + b == b && [] + AllWords(b) == AllWords(b);
    } else {
      AllWordsAppend(a[1..], b);
      var ab := a + b;
      assert ab[0] == a[0] && ab[1..] == a[1..] + b;
      AllWordsUnfold(ab);
      AllWordsUnfold(a);
      hide AllWords;
      Regroup(Split(a[0]), AllWords(a[1..]), AllWords(b));
    }
  }

  lemma AllWordsUnfold(lines: seq<string>)
    requires lines != []
    ensures AllWords(lines) == Split(lines[0]) + AllWords(lines[1..])
  {
    hide Split, GoodWords;
  }

  /** The words of joined lines are the words that were joined. */
  lemma {:induction false} WordsOfJoins(p: seq<seq<Word>>)
    requires forall i :: 0 <= i < |p| ==> GoodWords(p[i])
    ensures AllWords(Joins(p)) == Flatten(p)
  {
    if p == [] {
    } else {
      SplitJoin(p[0]);
      WordsOfJoins(p[1..]);
      assert Joins(p)[1..] == Joins(p[1..]);
    }
  }

  lemma {:induction false} RunLengthMeans(lines: seq<string>)
    ensures var n := RunLength(lines);
            && (forall i :: 0 <= i < n ==> Continues(lines[i]))
            && (n < |lines| ==> !Continues(lines[n]))
  {
    if lines != [] && Continues(lines[0]) {
      RunLengthMeans(lines[1..]);
    }
  }

  /** How many of the joined lines continue a paragraph, up to where the rest begins. */
  lemma {:induction false} RunOfJoins(p: seq<seq<Word>>, rest: seq<string>, width: int) returns (n: nat)
    requires Tight(p, width) && (rest == [] || !Continues(rest[0]))
    ensures n <= |p| && RunLength(Joins(p) + rest) == n
  {
    hide Tight, Join, ProseStart, TwoSpaces;
    if p == [] {
      assert Joins(p) + rest == rest;
      n := 0;
    } else {
      var lines := Joins(p) + rest;
      assert lines[1..] == Joins(p[1..]) + rest;
      if Continues(lines[0]) {
        TightTail(p, width);
        n := RunOfJoins(p[1..], rest, width);
        n := n + 1;
      } else {
        n := 0;
      }
    }
  }

  lemma TightSlice(p: seq<seq<Word>>, n: nat, width: int)
    requires Tight(p, width) && n <= |p|
    ensures Tight(p[..n], width) && Tight(p[n..], width)
  {
    forall i | 0 <= i < |p[..n]| - 1
      ensures LineLength(p[..n][i], p[..n][i + 1][0]) > width
    {
      assert p[..n][i] == p[i] && p[..n][i + 1] == p[i + 1];
    }
    forall i | 0 <= i < |p[n..]| - 1
      ensures LineLength(p[n..][i], p[n..][i + 1][0]) > width
    {
      assert p[n..][i] == p[n + i] && p[n..][i + 1] == p[n + i + 1];
    }
  }

  /** Cutting a list of joined lines. */
  lemma CutJoins(p: seq<seq<Word>>, rest: seq<string>, n: nat)
    requires n <= |p|
    ensures (Joins(p) + rest)[..n] == Joins(p[..n]) && (Joins(p) + rest)[n..] == Joins(p[n..]) + rest
  {
    hide Join;
  }

  /** One step of reflowing. */
  lemma ReflowUnfold(lines: seq<string>, width: int)
    requires lines != []
    ensures var n := 1 + RunLength(lines[1..]);
            ReflowLines(lines, width) ==
            if Opens(lines[0], width)
            then Joins(Fill([], AllWords(lines[..n]), width)) + ReflowLines(lines[n..], width)
            else [lines[0]] + ReflowLines(lines[1..], width)
  {
    hide Opens, Fill, AllWords, Joins, ReflowLines;
    if Opens(lines[0], width) {
      UnfoldParagraph(lines, width);
    } else {
      UnfoldLine(lines, width);
    }
  }

  lemma UnfoldParagraph(lines: seq<string>, width: int)
    requires lines != [] && Opens(lines[0], width)
    ensures var n := 1 + RunLength(lines[1..]);
            ReflowLines(lines, width) == Joins(Fill([], AllWords(lines[..n]), width)) + ReflowLines(lines[n..], width)
  {
    hide Opens, RunLength, Fill, AllWords, Joins;
  }

  lemma UnfoldLine(lines: seq<string>, width: int)
    requires lines != [] && !Opens(lines[0], width)
    ensures ReflowLines(lines, width) == [lines[0]] + ReflowLines(lines[1..], width)
  {
    hide Opens, RunLength, Fill, AllWords, Joins;
  }

  /** The first lines of a reflowed paragraph, as far as they are looked at together. */
  lemma TightStep(p: seq<seq<Word>>, rest: seq<string>, width: int) returns (n: nat)
    requires p != [] && Tight(p, width) && (rest == [] || !Continues(rest[0]))
    ensures 1 <= n <= |p| && Tight(p[n..], width)
    ensures ReflowLines(Joins(p) + rest, width) == Joins(p[..n]) + ReflowLines(Joins(p[n..]) + rest, width)
  {
    hide Tight, RunLength, Continues, Opens, Fill, Join, Joins, AllWords, ReflowLines;
    var lines := Joins(p) + rest;
    CutJoins(p, rest, 1);
    JoinsParts(p, 1);
    ReflowUnfold(lines, width);
    n := 1;
    if Opens(lines[0], width) {
      TightTail(p, width);
      var k := RunOfJoins(p[1..], rest, width);
      n := 1 + k;
      TightSlice(p, n, width);
      CutJoins(p, rest, n);
      RefillSlice(p[..n], width);
    } else {
      TightSlice(p, 1, width);
    }
  }

  /** A reflowed paragraph, or any end of it, is left alone the second time. */
  lemma {:induction false} TightStays(p: seq<seq<Word>>, rest: seq<string>, width: int)
    requires Tight(p, width) && (rest == [] || !Continues(rest[0]))
    ensures ReflowLines(Joins(p) + rest, width) == Joins(p) + ReflowLines(rest, width)
    decreases |p|
  {
    hide Tight, Continues, Join, Joins, ReflowLines;
    if p == [] {
      NoJoins();
      assert [] + rest == rest && [] + ReflowLines(rest, width) == ReflowLines(rest, width);
    } else {
      var n := TightStep(p, rest, width);
      TightStays(p[n..], rest, width);
      JoinsParts(p, n);
      Regroup(Joins(p[..n]), Joins(p[n..]), ReflowLines(rest, width));
    }
  }

  lemma NoJoins()
    ensures Joins([]) == []
  {
  }

  lemma JoinsParts(p: seq<seq<Word>>, n: nat)
    requires n <= |p|
    ensures Joins(p) == Joins(p[..n]) + Joins(p[n..])
    ensures n == 1 ==> Joins(p[..n]) == [Join(p[0])]
  {
    hide Join;
  }

  lemma RefillSlice(p: seq<seq<Word>>, width: int)
    requires Tight(p, width) && p != []
    ensures Fill([], AllWords(Joins(p)), width) == p
  {
    assert forall i :: 0 <= i < |p| ==> GoodLine(p[i], width);
    WordsOfJoins(p);
    FillTight(p, 0, width);
    assert p[0][..0] == [] && p[0][0..] == p[0];
  }

  /** The lines of a paragraph. */
  lemma ParagraphIsTight(lines: seq<string>, width: int)
    requires lines != [] && Opens(lines[0], width)
    ensures var n := 1 + RunLength(lines[1..]);
            var p := Fill([], AllWords(lines[..n]), width);
            Tight(p, width) && Flatten(p) == AllWords(lines[..n]) && p != []
  {
    var n := 1 + RunLength(lines[1..]);
    ProseHasWord(lines[0]);
    assert lines[..n][0] == lines[0];
    var ws := AllWords(lines[..n]);
    assert [] + ws == ws && ws != [];
    FillIsTight([], ws, width);
  }

  /** What comes after a paragraph does not continue it, before or after reflowing. */
  lemma AfterParagraph(rest: seq<string>, width: int)
    requires rest == [] || !Continues(rest[0])
    ensures var out := ReflowLines(rest, width); out == [] || !Continues(out[0])
  {
  }

  /** Reflowing a list of lines a second time changes nothing. */
  lemma {:induction false} ReflowIdempotent(lines: seq<string>, width: int)
    ensures ReflowLines(ReflowLines(lines, width), width) == ReflowLines(lines, width)
    decreases |lines|
  {
    hide RunLength, Fill, Tight, TwoSpaces, ProseStart;
    if lines == [] {
    } else if Opens(lines[0], width) {
      var n := 1 + RunLength(lines[1..]);
      ParagraphIsTight(lines, width);
      RunLengthMeans(lines[1..]);
      var p := Fill([], AllWords(lines[..n]), width);
      var rest := lines[n..];
      assert rest == [] || rest[0] == lines[1..][n - 1];
      AfterParagraph(rest, width);
      TightStays(p, ReflowLines(rest, width), width);
      ReflowIdempotent(rest, width);
    } else {
      ReflowIdempotent(lines[1..], width);
      var out := [lines[0]] + ReflowLines(lines[1..], width);
      assert out[1..] == ReflowLines(lines[1..], width);
    }
  }

  /** The words stay, in order. */
  lemma {:induction false} ReflowKeepsWords(lines: seq<string>, width: int)
    ensures AllWords(ReflowLines(lines, width)) == AllWords(lines)
    decreases |lines|
  {
    if lines == [] {
    } else {
      ReflowUnfold(lines, width);
      hide RunLength, Fill, Opens, AllWords, ReflowLines, Joins;
      if Opens(lines[0], width) {
        var n := 1 + RunLength(lines[1..]);
        var p := Fill([], AllWords(lines[..n]), width);
        ParagraphWords(lines, width);
        ReflowKeepsWords(lines[n..], width);
        AllWordsAppend(Joins(p), ReflowLines(lines[n..], width));
        AllWordsAppend(lines[..n], lines[n..]);
        assert lines == lines[..n] + lines[n..];
      } else {
        ReflowKeepsWords(lines[1..], width);
        AllWordsAppend([lines[0]], ReflowLines(lines[1..], width));
        AllWordsAppend([lines[0]], lines[1..]);
        assert lines == [lines[0]] + lines[1..];
      }
    }
  }

  /** The lines that a paragraph becomes have its words. */
  lemma ParagraphWords(lines: seq<string>, width: int)
    requires lines != [] && Opens(lines[0], width)
    ensures var n := 1 + RunLength(lines[1..]);
            AllWords(Joins(Fill([], AllWords(lines[..n]), width))) == AllWords(lines[..n])
  {
    hide RunLength, Fill, Opens, AllWords;
    var p := Fill([], AllWords(lines[..1 + RunLength(lines[1..])]), width);
    ParagraphIsTight(lines, width);
    assert forall i :: 0 <= i < |p| ==> GoodLine(p[i], width);
    WordsOfJoins(p);
  }

  lemma {:induction false} RunLengthCut(a: seq<string>, l: string, b: seq<string>)
    requires !Continues(l)
    ensures RunLength(a + [l] + b) == RunLength(a)
  {
    var lines := a + [l] + b;
    if a != [] && Continues(a[0]) {
      RunLengthCut(a[1..], l, b);
      assert lines[1..] == a[1..] + [l] + b;
    }
  }

  /** A line that cannot be part of a paragraph stays where it is, and keeps what is before it and
      what is after it apart. */
  lemma {:induction false} ReflowAround(a: seq<string>, l: string, b: seq<string>, width: int)
    requires !Continues(l)
    ensures ReflowLines(a + [l] + b, width) == ReflowLines(a, width) + [l] + ReflowLines(b, width)
    decreases |a|
  {
    hide RunLength, Fill, TwoSpaces, ProseStart;
    var lines := a + [l] + b;
    if a == [] {
      assert lines[0] == l && lines[1..] == b;
    } else if Opens(a[0], width) {
      var n := 1 + RunLength(a[1..]);
      RunLengthCut(a[1..], l, b);
      assert lines[1..] == a[1..] + [l] + b;
      assert lines[..n] == a[..n] && lines[n..] == a[n..] + [l] + b;
      ReflowAround(a[n..], l, b, width);
    } else {
      assert lines[1..] == a[1..] + [l] + b;
      ReflowAround(a[1..], l, b, width);
    }
  }

  // ---- Which lines are reflowed ----------------------------------------------------------------

  /** What opens a paragraph: a line longer than the width less ten whose first word starts the line and has a word
      character in it, and that does not end in two spaces. */
  lemma OpensExactly(l: string, width: int)
    ensures Opens(l, width) <==>
            && |l| > width - 10
            && (exists i :: 0 <= i < |l| && IsWordChar(l[i]) && forall j :: 0 <= j <= i ==> !IsSpace(l[j]))
            && !(|l| >= 2 && l[|l| - 1] == ' ' && l[|l| - 2] == ' ')
  {
    ProseStartExactly(l);
    hide ProseStart;
  }

  lemma {:induction false} ProseStartExactly(l: string)
    ensures ProseStart(l) <==>
            exists i :: 0 <= i < |l| && IsWordChar(l[i]) && forall j :: 0 <= j <= i ==> !IsSpace(l[j])
  {
    if l == [] || IsSpace(l[0]) {
    } else if IsWordChar(l[0]) {
      assert forall j :: 0 <= j <= 0 ==> !IsSpace(l[j]);
    } else {
      ProseStartExactly(l[1..]);
      if i :| 0 <= i < |l[1..]| && IsWordChar(l[1..][i]) && forall j :: 0 <= j <= i ==> !IsSpace(l[1..][j]) {
        assert IsWordChar(l[i + 1]);
        forall j | 0 <= j <= i + 1
          ensures !IsSpace(l[j])
        {
          assert j > 0 ==> l[j] == l[1..][j - 1];
        }
      }
      if i :| 0 <= i < |l| && IsWordChar(l[i]) && forall j :: 0 <= j <= i ==> !IsSpace(l[j]) {
        assert l[1..][i - 1] == l[i];
        forall j | 0 <= j <= i - 1
          ensures !IsSpace(l[1..][j])
        {
          assert l[1..][j] == l[j + 1];
        }
      }
    }
  }

  /** A line is in a paragraph if a line at or before it opens one, and those in between continue it. */
  ghost predicate InParagraph(lines: seq<string>, width: int, k: nat)
    requires k < |lines|
  {
    exists a :: 0 <= a <= k && Opens(lines[a], width) && forall i :: a < i <= k ==> Continues(lines[i])
  }

  /** No paragraph goes on from the line before position k to the line at it. */
  ghost predicate Apart(lines: seq<string>, width: int, k: nat)
    requires k <= |lines|
  {
    k == 0 || k == |lines| || !Continues(lines[k]) || !InParagraph(lines, width, k - 1)
  }

  lemma {:induction false} RunLengthIs(lines: seq<string>, n: nat)
    requires n <= |lines| && (forall i :: 0 <= i < n ==> Continues(lines[i]))
    requires n < |lines| ==> !Continues(lines[n])
    ensures RunLength(lines) == n
  {
    if n > 0 {
      RunLengthIs(lines[1..], n - 1);
    }
  }

  /** What is before and after such a position is reflowed on its own. */
  lemma {:induction false} ReflowApart(lines: seq<string>, width: int, k: nat)
    requires k <= |lines| && Apart(lines, width, k)
    ensures ReflowLines(lines, width) == ReflowLines(lines[..k], width) + ReflowLines(lines[k..], width)
    decreases |lines|
  {
    hide Opens, Continues, Fill, AllWords, Joins, ReflowLines, RunLength;
    if k == 0 || k == |lines| {
      ReflowNothing(width);
      assert lines[..|lines|] == lines && lines[0..] == lines && lines[..0] == [] && lines[|lines|..] == [];
      var out := ReflowLines(lines, width);
      assert out + [] == out && [] + out == out;
    } else {
      ReflowUnfold(lines, width);
      ReflowUnfold(lines[..k], width);
      var n := if Opens(lines[0], width) then 1 + RunLength(lines[1..]) else 1;
      FirstPart(lines, width, k, n);
      assert lines[n..][..k - n] == lines[..k][n..] && lines[n..][k - n..] == lines[k..];
      ReflowApart(lines[n..], width, k - n);
      assert lines[..k][..n] == lines[..n] && lines[..k][0] == lines[0];
      Regroup(if Opens(lines[0], width) then Joins(Fill([], AllWords(lines[..n]), width)) else [lines[0]],
              ReflowLines(lines[n..k], width), ReflowLines(lines[k..], width));
      assert lines[n..k] == lines[n..][..k - n];
    }
  }

  lemma ReflowNothing(width: int)
    ensures ReflowLines([], width) == []
  {
  }

  /** The first paragraph, or the first line outside of any, does not reach beyond such a position. */
  lemma FirstPart(lines: seq<string>, width: int, k: nat, n: nat)
    requires 0 < k < |lines| && Apart(lines, width, k)
    requires n == if Opens(lines[0], width) then 1 + RunLength(lines[1..]) else 1
    ensures n <= k && Apart(lines[n..], width, k - n)
    ensures Opens(lines[0], width) ==> RunLength(lines[..k][1..]) == n - 1
  {
    hide Opens, Continues, RunLength;
    if Opens(lines[0], width) {
      RunLengthMeans(lines[1..]);
      assert forall i :: 0 < i < n ==> lines[i] == lines[1..][i - 1];
      assert forall m: nat :: m < n ==> InParagraph(lines, width, m);
      var cut := lines[..k][1..];
      assert forall i :: 0 <= i < |cut| ==> cut[i] == lines[i + 1];
      assert n - 1 < |lines[1..]| ==> lines[1..][n - 1] == lines[n];
      RunLengthIs(cut, n - 1);
    }
    if k > n && InParagraph(lines[n..], width, k - n - 1) {
      var a :| 0 <= a <= k - n - 1 && Opens(lines[n..][a], width)
        && forall i :: a < i <= k - n - 1 ==> Continues(lines[n..][i]);
      assert lines[n..][a] == lines[n + a];
      forall i | n + a < i <= k - 1
        ensures Continues(lines[i])
      {
        assert lines[n..][i - n] == lines[i];
      }
      assert InParagraph(lines, width, k - 1);
    }
  }

  lemma ParagraphGoesOn(lines: seq<string>, width: int, k: nat)
    requires k < |lines|
    ensures Opens(lines[k], width) ==> InParagraph(lines, width, k)
    ensures k > 0 && Continues(lines[k]) && InParagraph(lines, width, k - 1) ==> InParagraph(lines, width, k)
  {
    hide Opens, Continues;
  }

  /** A line outside of any paragraph stays as it is, in its place. */
  lemma OtherLinesStay(lines: seq<string>, width: int, k: nat)
    requires k < |lines| && !InParagraph(lines, width, k)
    ensures ReflowLines(lines, width) ==
            ReflowLines(lines[..k], width) + [lines[k]] + ReflowLines(lines[k + 1..], width)
  {
    hide Opens, Continues, ReflowLines;
    var rest := lines[k..];
    ParagraphGoesOn(lines, width, k);
    ReflowApart(lines, width, k);
    UnfoldLine(rest, width);
    assert rest[1..] == lines[k + 1..];
    Regroup(ReflowLines(lines[..k], width), [lines[k]], ReflowLines(lines[k + 1..], width));
  }

  /** Every paragraph, from a line that opens it to before the next line that does not continue it, becomes lines with
      the same words, filled: no line that is longer than the width has more than one word, and the first word of a
      line would not have fitted on the line before. */
  lemma ParagraphsAreFilled(lines: seq<string>, width: int, a: nat, b: nat) returns (p: seq<seq<Word>>)
    requires a < b <= |lines| && Opens(lines[a], width) && (a > 0 ==> !InParagraph(lines, width, a - 1))
    requires (forall i :: a < i < b ==> Continues(lines[i])) && (b < |lines| ==> !Continues(lines[b]))
    ensures ReflowLines(lines, width) ==
            ReflowLines(lines[..a], width) + Joins(p) + ReflowLines(lines[b..], width)
    ensures Flatten(p) == AllWords(lines[a..b])
    ensures forall i :: 0 <= i < |p| ==> p[i] != [] && (|Join(p[i])| <= width || |p[i]| == 1)
    ensures forall i :: 0 < i < |p| ==> |Join(p[i - 1])| + 1 + |p[i][0]| > width
  {
    hide Opens, Continues, ReflowLines, RunLength, AllWords, Fill;
    ReflowApart(lines, width, a);
    var rest := lines[a..];
    assert forall i :: 0 <= i < |rest[1..]| ==> rest[1..][i] == lines[a + 1 + i];
    RunLengthIs(rest[1..], b - a - 1);
    UnfoldParagraph(rest, width);
    ParagraphIsTight(rest, width);
    assert rest[..b - a] == lines[a..b] && rest[b - a..] == lines[b..];
    p := Fill([], AllWords(lines[a..b]), width);
    Regroup(ReflowLines(lines[..a], width), Joins(p), ReflowLines(lines[b..], width));
    TightMeans(p, width);
  }

  lemma TightMeans(p: seq<seq<Word>>, width: int)
    requires Tight(p, width)
    ensures forall i :: 0 <= i < |p| ==> p[i] != [] && (|Join(p[i])| <= width || |p[i]| == 1)
    ensures forall i :: 0 < i < |p| ==> |Join(p[i - 1])| + 1 + |p[i][0]| > width
  {
    hide Join;
    forall i | 0 <= i < |p|
      ensures p[i] != [] && (|Join(p[i])| <= width || |p[i]| == 1)
    {
      assert GoodLine(p[i], width);
      LineWidth(p[i], width);
    }
    forall i | 0 < i < |p|
      ensures |Join(p[i - 1])| + 1 + |p[i][0]| > width
    {
      assert GoodLine(p[i - 1], width) && LineLength(p[i - 1], p[i - 1 + 1][0]) > width;
    }
  }
}
