/** Quoting and folding vCard lines (mailpile/vcard.py:57-64, 143-173, 892-894; sections 3.2 and 3.4
    of RFC 6350). Letters outside ASCII are taken to have no case. */
module VCardFold {

  /** The characters that are written with a backslash, and what follows it. */
  function QuoteChar(c: char): string {
    if c == '\\' || c == ',' || c == ';' then ['\\', c]
    else if c == '\n' then ['\\', 'n']
    else if c == '\r' then ['\\', 'r']
    else [c]
  }

  function Quote(text: string): string {
    if text == [] then [] else QuoteChar(text[0]) + Quote(text[1..])
  }

  lemma Regroup(a: string, b: string, c: string)
    ensures a + (b + c) == (a + b) + c
  {
  }

  lemma {:induction false} QuoteAppend(a: string, b: string)
    ensures Quote(a + b) == Quote(a) + Quote(b)
  {
    hide QuoteChar;
    if a == [] {
      assert a + b == b;
    } else {
      QuoteAppend(a[1..], b);
      var ab := a + b;
      assert ab[0] == a[0] && ab[1..] == a[1..] + b;
      Regroup(QuoteChar(a[0]), Quote(a[1..]), Quote(b));
    }
  }

  /** Commas and semicolons only follow a backslash, and there are no line breaks. */
  lemma {:induction false} QuoteHides(text: string, i: nat)
    requires i < |Quote(text)|
    ensures Quote(text)[i] != '\n' && Quote(text)[i] != '\r'
    ensures Quote(text)[i] == ',' || Quote(text)[i] == ';' ==> i > 0 && Quote(text)[i - 1] == '\\'
  {
    var n := |QuoteChar(text[0])|;
    if i >= n {
      QuoteHides(text[1..], i - n);
      assert Quote(text)[i] == Quote(text[1..])[i - n];
      assert i > n ==> Quote(text)[i - 1] == Quote(text[1..])[i - n - 1];
    }
  }

  predicate OneLine(text: string) {
    '\n' !in text
  }

  lemma {:induction false} QuoteIsOneLine(text: string)
    ensures OneLine(Quote(text))
  {
    if text == [] {
    } else {
      QuoteIsOneLine(text[1..]);
    }
  }

  /** How many octets UTF-8 takes for a character. */
  function Octets(c: char): (n: nat)
    ensures 1 <= n <= 4
  {
    if c as int < 0x80 then 1 else if c as int < 0x800 then 2 else if c as int < 0x10000 then 3 else 4
  }

  /** The rest of a line, folded, when `used` octets are already on the current physical line. */
  function FoldFrom(line: string, used: nat): string {
    if line == [] then []
    else
      var clen := Octets(line[0]);
      if used + clen >= 75 then ['\n', ' ', line[0]] + FoldFrom(line[1..], clen)
      else [line[0]] + FoldFrom(line[1..], used + clen)
  }

  /** Counting from `used`, no physical line has more than 75 octets. */
  predicate Within75(text: string, used: nat) {
    text == [] ||
    if text[0] == '\n' then Within75(text[1..], 0)
    else used + Octets(text[0]) <= 75 && Within75(text[1..], used + Octets(text[0]))
  }

  function OctetsOf(text: string): nat {
    if text == [] then 0 else OctetsOf(text[..|text| - 1]) + Octets(text[|text| - 1])
  }

  /** Any stretch of the text without a line break is within 75 octets. */
  lemma Within75Means(text: string, i: nat, n: nat)
    requires Within75(text, 0) && n > 0 && i + n <= |text| && '\n' !in text[i..][..n]
    ensures OctetsOf(text[i..][..n]) <= 75
  {
    var used := Within75From(text, 0, i);
    Within75UpTo(text[i..], used, n);
  }

  lemma {:induction false} Within75From(text: string, used: nat, i: nat) returns (later: nat)
    requires Within75(text, used) && i <= |text|
    ensures Within75(text[i..], later)
  {
    if i == 0 {
      later := used;
      assert text[0..] == text;
    } else {
      later := Within75From(text[1..], if text[0] == '\n' then 0 else used + Octets(text[0]), i - 1);
      assert text[1..][i - 1..] == text[i..];
    }
  }

  lemma {:induction false} Within75UpTo(text: string, used: nat, j: nat)
    requires Within75(text, used) && 0 < j <= |text| && '\n' !in text[..j]
    ensures used + OctetsOf(text[..j]) <= 75
  {
    var part := text[..j];
    assert part[0] == text[0];
    FirstOctets(part);
    if j == 1 {
      assert part[1..] == [];
    } else {
      assert part[1..] == text[1..][..j - 1];
      assert forall c :: c in part[1..] ==> c in part;
      Within75UpTo(text[1..], used + Octets(text[0]), j - 1);
    }
  }

  lemma {:induction false} FirstOctets(text: string)
    requires text != []
    ensures OctetsOf(text) == Octets(text[0]) + OctetsOf(text[1..])
  {
    if |text| == 1 {
      assert text[..0] == text[1..] == [];
    } else {
      var init := text[..|text| - 1];
      FirstOctets(init);
      assert init[1..] == text[1..][..|text| - 2];
    }
  }

  /** Every physical line is within 75 octets. Characters are never cut, as they are only ever
      written whole. */
  lemma {:induction false} FoldWithin75(line: string, used: nat, written: nat)
    requires OneLine(line) && used <= written <= used + 1 && used < 75
    ensures Within75(FoldFrom(line, used), written)
  {
    if line == [] {
    } else {
      var clen := Octets(line[0]);
      assert OneLine(line[1..]);
      if used + clen >= 75 {
        FoldWithin75(line[1..], clen, 1 + clen);
        var out := FoldFrom(line, used);
        var rest := FoldFrom(line[1..], clen);
        assert out[1..] == [' ', line[0]] + rest;
        assert out[1..][1..] == [line[0]] + rest;
        assert out[1..][1..][1..] == rest;
      } else {
        FoldWithin75(line[1..], used + clen, written + clen);
      }
    }
  }

  /** Counting from `used`, and the space after a break apart, a line is only broken before a character that would have
      taken it to 75 octets. */
  predicate Full75(text: string, used: nat) {
    text == [] ||
    if text[0] == '\n' then
      |text| > 2 && text[1] == ' ' && used + Octets(text[2]) >= 75 && Full75(text[3..], Octets(text[2]))
    else Full75(text[1..], used + Octets(text[0]))
  }

  lemma {:induction false} FoldFull75(line: string, used: nat)
    requires OneLine(line)
    ensures Full75(FoldFrom(line, used), used)
  {
    if line == [] {
    } else {
      var clen := Octets(line[0]);
      assert OneLine(line[1..]);
      var out := FoldFrom(line, used);
      if used + clen >= 75 {
        FoldFull75(line[1..], clen);
        assert out[3..] == FoldFrom(line[1..], clen);
      } else {
        FoldFull75(line[1..], used + clen);
        assert out[1..] == FoldFrom(line[1..], used + clen);
      }
    }
  }

  /** The octets of a character, as section 3 of RFC 3629 has them. */
  function Utf8(c: char): (out: seq<nat>)
    ensures |out| == Octets(c)
  {
    var n := c as int;
    var q := n / 0x40;
    var r := q / 0x40;
    if n < 0x80 then [n]
    else if n < 0x800 then [0xC0 + q, 0x80 + n % 0x40]
    else if n < 0x10000 then [0xE0 + r, 0x80 + q % 0x40, 0x80 + n % 0x40]
    else [0xF0 + r / 0x40, 0x80 + r % 0x40, 0x80 + q % 0x40, 0x80 + n % 0x40]
  }

  /** The character that such octets stand for. */
  function FromUtf8(b: seq<int>): int {
    if |b| == 1 then b[0]
    else if |b| == 2 then 0x40 * b[0] + b[1] - 0x3080
    else if |b| == 3 then 0x1000 * b[0] + 0x40 * b[1] + b[2] - 0xE2080
    else if |b| == 4 then 0x40000 * b[0] + 0x1000 * b[1] + 0x40 * b[2] + b[3] - 0x3C82080
    else -1
  }

  lemma Utf8RoundTrip(c: char)
    ensures FromUtf8(Utf8(c)) == c as int
    ensures forall i :: 0 <= i < |Utf8(c)| ==> Utf8(c)[i] < 0x100 && (i > 0 ==> 0x80 <= Utf8(c)[i] < 0xC0)
  {
  }

  /** `text.replace(ab, '')` for two characters. */
  function RemovePairs(text: string, a: char, b: char): string
    decreases |text|
  {
    if |text| >= 2 && text[0] == a && text[1] == b then RemovePairs(text[2..], a, b)
    else if text == [] then []
    else [text[0]] + RemovePairs(text[1..], a, b)
  }

  /** The first pair goes, wherever it is, and then those behind it. */
  lemma {:induction false} RemovesPair(before: string, a: char, b: char, rest: string)
    requires a !in before
    ensures RemovePairs(before + [a, b] + rest, a, b) == before + RemovePairs(rest, a, b)
  {
    var text := before + [a, b] + rest;
    if before == [] {
      assert text[2..] == rest;
    } else {
      RemovesPair(before[1..], a, b, rest);
      assert text[1..] == before[1..] + [a, b] + rest;
      assert text[0] in before;
    }
  }

  function Unwrap(text: string): string {
    RemovePairs(RemovePairs(text, '\n', ' '), '\n', '\t')
  }

  lemma {:induction false} RemoveFromOneLine(text: string, b: char)
    requires OneLine(text)
    ensures RemovePairs(text, '\n', b) == text
  {
    if text == [] {
    } else {
      assert OneLine(text[1..]);
      RemoveFromOneLine(text[1..], b);
    }
  }

  lemma {:induction false} RemoveFolds(line: string, used: nat)
    requires OneLine(line)
    ensures RemovePairs(FoldFrom(line, used), '\n', ' ') == line
  {
    if line == [] {
    } else {
      var clen := Octets(line[0]);
      assert OneLine(line[1..]) && line[0] != '\n';
      var out := FoldFrom(line, used);
      if used + clen >= 75 {
        RemoveFolds(line[1..], clen);
        assert out[2..] == [line[0]] + FoldFrom(line[1..], clen);
        assert out[2..][1..] == FoldFrom(line[1..], clen);
      } else {
        RemoveFolds(line[1..], used + clen);
        assert out[1..] == FoldFrom(line[1..], used + clen);
      }
    }
  }

  /** Unfolding undoes folding, for every line without line breaks. */
  lemma UnwrapFold(line: string)
    requires OneLine(line)
    ensures Unwrap(FoldFrom(line, 0)) == line
  {
    RemoveFolds(line, 0);
    RemoveFromOneLine(line, '\t');
  }

  /** The folding loop of `as_vcardline`. */
  method FoldLine(line: string) returns (wrapped: string)
    requires OneLine(line)
    ensures wrapped == FoldFrom(line, 0)
    ensures Within75(wrapped, 0) && Full75(wrapped, 0) && Unwrap(wrapped) == line
  {
    hide FoldFrom, Octets, OneLine, Within75, Full75, Unwrap;
    wrapped := "";
    var llen := 0;
    var i := 0;
    assert line[0..] == line;
    while i < |line|
      invariant 0 <= i <= |line|
      invariant wrapped + FoldFrom(line[i..], llen) == FoldFrom(line, 0)
    {
      var clen := Octets(line[i]);
      ghost var before, fold := wrapped, llen + clen >= 75;
      FoldStep(line, i, llen);
      if llen + clen >= 75 {
        wrapped := wrapped + ['\n', ' '];
        llen := 0;
      }
      wrapped := wrapped + [line[i]];
      assert wrapped == before + FoldedChar(line[i], fold);
      llen := llen + clen;
      i := i + 1;
      Regroup(before, FoldedChar(line[i - 1], fold), FoldFrom(line[i..], llen));
    }
    NothingFolds(line[i..], llen);
    FoldWithin75(line, 0, 0);
    FoldFull75(line, 0);
    UnwrapFold(line);
  }

  function FoldedChar(c: char, fold: bool): string {
    if fold then ['\n', ' ', c] else [c]
  }

  lemma FoldStep(line: string, i: nat, used: nat)
    requires i < |line|
    ensures var n := Octets(line[i]);
            FoldFrom(line[i..], used) == if used + n >= 75 then FoldedChar(line[i], true) + FoldFrom(line[i + 1..], n)
                                         else FoldedChar(line[i], false) + FoldFrom(line[i + 1..], used + n)
  {
    assert line[i..][1..] == line[i + 1..];
  }

  lemma NothingFolds(rest: string, used: nat)
    requires rest == []
    ensures FoldFrom(rest, used) == []
  {
  }
}
