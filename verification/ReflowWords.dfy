/** Words, lines of words, and filling lines up to a width (mailpile/util.py:619-643). */
module ReflowWords {

  predicate IsSpace(c: char) {
    c == ' ' || c == '\t' || c == '\n' || c == '\r' || c as int == 11 || c as int == 12
  }

  predicate IsWordChar(c: char) {
    'a' <= c <= 'z' || 'A' <= c <= 'Z' || '0' <= c <= '9' || c == '_'
  }

  /** The characters of the two classes, one by one. */
  lemma CharClasses(c: char)
    ensures IsSpace(c) <==> c in " \t\n\r\U{0b}\U{0c}"
    ensures IsWordChar(c) <==>
              c in "abcdefghijklmnopqrstuvwxyz" || c in "ABCDEFGHIJKLMNOPQRSTUVWXYZ" || c in "0123456789_"
  {
    Smalls(c);
    Capitals(c);
    assert c in "0123456789_" <==> '0' <= c <= '9' || c == '_';
  }

  lemma Smalls(c: char)
    ensures c in "abcdefghijklmnopqrstuvwxyz" <==> 'a' <= c <= 'z'
  {
  }

  lemma Capitals(c: char)
    ensures c in "ABCDEFGHIJKLMNOPQRSTUVWXYZ" <==> 'A' <= c <= 'Z'
  {
  }

  type Word = string

  predicate GoodWord(w: Word) {
    w != [] && forall i :: 0 <= i < |w| ==> !IsSpace(w[i])
  }

  predicate GoodWords(ws: seq<Word>) {
    forall i :: 0 <= i < |ws| ==> GoodWord(ws[i])
  }

  /** How many characters come before the first space. */
  function WordLength(l: string): (n: nat)
    ensures n <= |l| && (forall i :: 0 <= i < n ==> !IsSpace(l[i])) && (n < |l| ==> IsSpace(l[n]))
  {
    if l == [] || IsSpace(l[0]) then 0 else 1 + WordLength(l[1..])
  }

  /** Python's `strip().split()`. */
  function Split(l: string): (ws: seq<Word>)
    ensures GoodWords(ws)
  {
    if l == [] then []
    else if IsSpace(l[0]) then Split(l[1..])
    else
      var n := WordLength(l);
      [l[..n]] + Split(l[n..])
  }

  function Join(ws: seq<Word>): string {
    if ws == [] then [] else if |ws| == 1 then ws[0] else ws[0] + [' '] + Join(ws[1..])
  }

  lemma WordLengthAt(w: Word, rest: string)
    requires GoodWord(w) && (rest == [] || IsSpace(rest[0]))
    ensures WordLength(w + rest) == |w|
  {
    var l := w + rest;
    assert forall i :: 0 <= i < |w| ==> l[i] == w[i];
    assert rest != [] ==> l[|w|] == rest[0];
  }

  lemma SplitWord(w: Word, rest: string)
    requires GoodWord(w) && (rest == [] || IsSpace(rest[0]))
    ensures Split(w + rest) == [w] + Split(rest)
  {
    var l := w + rest;
    WordLengthAt(w, rest);
    assert l[0] == w[0];
    assert l[..|w|] == w && l[|w|..] == rest;
  }

  /** Splitting what was joined gives the words back. */
  lemma {:induction false} SplitJoin(ws: seq<Word>)
    requires GoodWords(ws)
    ensures Split(Join(ws)) == ws
  {
    if |ws| == 1 {
      SplitWord(ws[0], []);
      assert ws[0] + [] == ws[0];
    } else if |ws| > 1 {
      var tail := [' '] + Join(ws[1..]);
      assert Join(ws) == ws[0] + tail;
      SplitWord(ws[0], tail);
      assert tail[1..] == Join(ws[1..]);
      SplitJoin(ws[1..]);
      assert ws == [ws[0]] + ws[1..];
    }
  }

  /** `line_length` of the source, for a line and one more word. */
  function LineLength(line: seq<Word>, word: Word): nat {
    if line == [] then |word| else |Join(line)| + 1 + |word|
  }

  lemma {:induction false} JoinLength(line: seq<Word>, word: Word)
    ensures |Join(line + [word])| == LineLength(line, word)
  {
    if line == [] {
    } else {
      JoinLength(line[1..], word);
      assert (line + [word])[1..] == line[1..] + [word];
    }
  }

  /** The sum that the source computes. */
  function SumLengths(line: seq<Word>): nat {
    if line == [] then 0 else SumLengths(line[..|line| - 1]) + |line[|line| - 1]|
  }

  lemma {:induction false} SumIsLength(line: seq<Word>, word: Word)
    ensures SumLengths(line) + |line| + |word| == LineLength(line, word)
  {
    if line == [] {
    } else {
      var init, last := line[..|line| - 1], line[|line| - 1];
      SumIsLength(init, last);
      JoinLength(init, last);
      assert init + [last] == line;
    }
  }

  /** Filling lines: a word goes on the current line if it fits or if the line is empty. */
  function Fill(cur: seq<Word>, ws: seq<Word>, width: int): seq<seq<Word>>
    decreases |ws|
  {
    if ws == [] then [cur]
    else if LineLength(cur, ws[0]) <= width || cur == [] then Fill(cur + [ws[0]], ws[1..], width)
    else [cur] + Fill([ws[0]], ws[1..], width)
  }

  function Flatten(p: seq<seq<Word>>): seq<Word> {
    if p == [] then [] else p[0] + Flatten(p[1..])
  }

  /** Every word of the line after the first fits behind the words before it. */
  ghost predicate Fits(line: seq<Word>, width: int) {
    forall m :: 0 < m < |line| ==> LineLength(line[..m], line[m]) <= width
  }

  ghost predicate GoodLine(line: seq<Word>, width: int) {
    line != [] && GoodWords(line) && Fits(line, width)
  }

  /** Lines as `Fill` makes them: each is filled, and the next word would not have fitted. */
  ghost predicate Tight(p: seq<seq<Word>>, width: int) {
    && (forall i :: 0 <= i < |p| ==> GoodLine(p[i], width))
    && (forall i :: 0 <= i < |p| - 1 ==> LineLength(p[i], p[i + 1][0]) > width)
  }

  lemma FitsStep(cur: seq<Word>, w: Word, width: int)
    requires (cur == [] || GoodLine(cur, width)) && GoodWord(w) && (cur == [] || LineLength(cur, w) <= width)
    ensures GoodLine(cur + [w], width)
  {
    var line := cur + [w];
    forall m | 0 < m < |line|
      ensures LineLength(line[..m], line[m]) <= width
    {
      if m < |cur| {
        assert line[..m] == cur[..m];
      } else {
        assert line[..m] == cur;
      }
    }
  }

  lemma {:induction false} FillIsTight(cur: seq<Word>, ws: seq<Word>, width: int)
    requires cur + ws != [] && (cur == [] || GoodLine(cur, width)) && GoodWords(ws)
    ensures var p := Fill(cur, ws, width);
            Tight(p, width) && Flatten(p) == cur + ws && p != [] && (cur != [] ==> p[0] != [] && p[0][0] == cur[0])
    decreases |ws|
  {
    if ws == [] {
      LastLineIsTight(cur, width);
    } else if LineLength(cur, ws[0]) <= width || cur == [] {
      hide GoodLine, Tight, Flatten, GoodWords;
      FitsStep(cur, ws[0], width);
      TailIsGood(ws);
      FillIsTight(cur + [ws[0]], ws[1..], width);
      Regroup(cur, [ws[0]], ws[1..]);
      assert [ws[0]] + ws[1..] == ws;
      FillFits(cur, ws, width);
      hide Fill;
    } else {
      hide GoodLine, Tight, Flatten, GoodWords;
      TailIsGood(ws);
      FitsStep([], ws[0], width);
      assert [] + [ws[0]] == [ws[0]] && [ws[0]] + ws[1..] == ws;
      FillIsTight([ws[0]], ws[1..], width);
      FillBreaks(cur, ws, width);
      hide Fill;
      TightCons(cur, Fill([ws[0]], ws[1..], width), width);
    }
  }

  lemma Regroup<T>(a: seq<T>, b: seq<T>, c: seq<T>)
    ensures a + (b + c) == (a + b) + c
  {
  }

  lemma FillBreaks(cur: seq<Word>, ws: seq<Word>, width: int)
    requires ws != [] && cur != [] && LineLength(cur, ws[0]) > width
    ensures Fill(cur, ws, width) == [cur] + Fill([ws[0]], ws[1..], width)
  {
  }

  lemma FillFits(cur: seq<Word>, ws: seq<Word>, width: int)
    requires ws != [] && (cur == [] || LineLength(cur, ws[0]) <= width)
    ensures Fill(cur, ws, width) == Fill(cur + [ws[0]], ws[1..], width)
  {
  }

  lemma TailIsGood(ws: seq<Word>)
    requires GoodWords(ws) && ws != []
    ensures GoodWord(ws[0]) && GoodWords(ws[1..])
  {
  }

  lemma LastLineIsTight(cur: seq<Word>, width: int)
    requires cur != [] && GoodLine(cur, width)
    ensures Fill(cur, [], width) == [cur] && Tight([cur], width) && Flatten([cur]) == cur + []
  {
    assert Flatten([cur]) == cur;
  }

  lemma TightCons(line: seq<Word>, q: seq<seq<Word>>, width: int)
    requires GoodLine(line, width) && Tight(q, width)
    requires q != [] && q[0] != [] && LineLength(line, q[0][0]) > width
    ensures Tight([line] + q, width) && Flatten([line] + q) == line + Flatten(q)
  {
    var p := [line] + q;
    assert p[1..] == q;
    forall i | 0 <= i < |p| - 1
      ensures LineLength(p[i], p[i + 1][0]) > width
    {
      if i > 0 {
        assert p[i] == q[i - 1] && p[i + 1] == q[i - 1 + 1];
      }
    }
  }

  lemma TightTail(p: seq<seq<Word>>, width: int)
    requires Tight(p, width) && p != []
    ensures Tight(p[1..], width)
  {
    forall i | 0 <= i < |p[1..]| - 1
      ensures LineLength(p[1..][i], p[1..][i + 1][0]) > width
    {
      assert p[1..][i] == p[i + 1] && p[1..][i + 1] == p[i + 1 + 1];
    }
  }

  /** At the end of a line, the next word opens the next line. */
  lemma FillTurns(p: seq<seq<Word>>, width: int)
    requires Tight(p, width) && |p| > 1
    ensures p[1..][0] == p[1] != []
    ensures Fill(p[0], Flatten(p[1..]), width) == [p[0]] + Fill(p[1][..1], p[1][1..] + Flatten(p[1..][1..]), width)
  {
    hide LineLength, GoodWords, Fits;
    var ws := Flatten(p[1..]);
    assert ws == p[1] + Flatten(p[1..][1..]);
    assert GoodLine(p[0], width) && GoodLine(p[1], width);
    assert ws[0] == p[1][0] && ws[1..] == p[1][1..] + Flatten(p[1..][1..]);
    assert LineLength(p[0], p[0 + 1][0]) > width;
    assert p[1][..1] == [p[1][0]];
  }

  /** Filling the words of tight lines again makes the same lines. */
  lemma {:induction false} FillTight(p: seq<seq<Word>>, m: nat, width: int)
    requires Tight(p, width) && p != [] && m <= |p[0]|
    ensures Fill(p[0][..m], p[0][m..] + Flatten(p[1..]), width) == p
    decreases |p|, |p[0]| - m
  {
    hide LineLength, GoodWords;
    var ws := p[0][m..] + Flatten(p[1..]);
    if m < |p[0]| {
      FillTight(p, m + 1, width);
      assert GoodLine(p[0], width);
      assert ws[0] == p[0][m] && ws[1..] == p[0][m + 1..] + Flatten(p[1..]);
      assert p[0][..m] + [p[0][m]] == p[0][..m + 1];
    } else {
      assert p[0][..m] == p[0] && ws == Flatten(p[1..]);
      if |p| == 1 {
        assert p == [p[0]];
      } else {
        TightTail(p, width);
        FillTurns(p, width);
        FillTight(p[1..], 1, width);
        assert p == [p[0]] + p[1..];
      }
    }
  }

  /** A filled line is no longer than the width, unless it is a single word. */
  lemma LineWidth(line: seq<Word>, width: int)
    requires GoodLine(line, width)
    ensures |Join(line)| <= width || |line| == 1
  {
    hide Join, LineLength, GoodWords;
    if |line| > 1 {
      var m := |line| - 1;
      JoinLength(line[..m], line[m]);
      assert line[..m] + [line[m]] == line;
      assert LineLength(line[..m], line[m]) <= width;
    }
  }
}
