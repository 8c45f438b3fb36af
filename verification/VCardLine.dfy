/** Writing a vCard line and reading it back (mailpile/vcard.py:143-150, 175-225). */
module VCardLine {
  import opened Wrappers
  import opened VCardFold

  datatype Attr = Attr(key: string, value: Option<string>)

  function LowerChar(c: char): char {
    if 'A' <= c <= 'Z' then (c as int + 32) as char else c
  }

  function UpperChar(c: char): char {
    if 'a' <= c <= 'z' then (c as int - 32) as char else c
  }

  function Lower(s: string): (r: string)
    ensures |r| == |s|
  {
    seq(|s|, i requires 0 <= i < |s| => LowerChar(s[i]))
  }

  function Upper(s: string): (r: string)
    ensures |r| == |s|
  {
    seq(|s|, i requires 0 <= i < |s| => UpperChar(s[i]))
  }

  /** The letters of ASCII, and no other character. */
  lemma LowerTable()
    ensures Lower("ABCDEFGHIJKLMNOPQRSTUVWXYZ") == "abcdefghijklmnopqrstuvwxyz"
    ensures forall c: char :: !('A' <= c <= 'Z') ==> LowerChar(c) == c
  {
  }

  lemma UpperTable()
    ensures Upper("abcdefghijklmnopqrstuvwxyz") == "ABCDEFGHIJKLMNOPQRSTUVWXYZ"
    ensures forall c: char :: !('a' <= c <= 'z') ==> UpperChar(c) == c
  {
  }

  /** An attribute as it is written, before quoting. */
  function AttrText(a: Attr): string {
    Upper(a.key) + match a.value case None => "" case Some(v) => "=" + v
  }

  function RenderAttr(a: Attr): string {
    ";" + Quote(Upper(a.key)) + match a.value case None => "" case Some(v) => "=" + Quote(v)
  }

  /** The attributes, and the colon behind them. */
  function RenderAttrs(attrs: seq<Attr>): string {
    if attrs == [] then ":" else RenderAttr(attrs[0]) + RenderAttrs(attrs[1..])
  }

  /** The line before folding. */
  function Render(name: string, attrs: seq<Attr>, value: string): string {
    Quote(Upper(name)) + RenderAttrs(attrs) + Quote(value)
  }

  // ---- The parser ----------------------------------------------------------------------------

  /** What the parser passes along: whether the last character was a backslash, the part of the
      line, the text collected so far, and what was found. */
  datatype Parser = Parser(quoted: bool, state: nat, parsed: string, name: Option<string>, attrs: seq<Attr>)

  /** A quoted character, or the pair itself if it is not one that quoting makes. */
  function Unquoted(c: char): string {
    if c == '\\' || c == ',' || c == ';' then [c]
    else if c == 'n' then ['\n']
    else if c == 'r' then ['\r']
    else ['\\', c]
  }

  /** Where the first '=' is; the length of the text if there is none. */
  function FindEq(text: string): (n: nat)
    ensures n <= |text| && (n < |text| ==> text[n] == '=') && forall i :: 0 <= i < n ==> text[i] != '='
  {
    if text == [] || text[0] == '=' then 0 else 1 + FindEq(text[1..])
  }

  function ParseAttr(text: string): Attr {
    var n := FindEq(text);
    if n < |text| then Attr(Lower(text[..n]), Some(text[n + 1..])) else Attr(Lower(text), None)
  }

  function Step(p: Parser, c: char): Parser {
    if p.quoted then
      p.(quoted := false, parsed := (if p.parsed == [] then [] else p.parsed[..|p.parsed| - 1]) + Unquoted(c))
    else if c == '\\' then p.(quoted := true, parsed := p.parsed + [c])
    else if p.state == 0 && (c == ';' || c == ':') then
      p.(name := Some(Lower(p.parsed)), parsed := [], state := if c == ';' then 1 else 2)
    else if p.state == 1 && (c == ';' || c == ':') then
      p.(attrs := p.attrs + [ParseAttr(p.parsed)], parsed := [], state := if c == ':' then 2 else 1)
    else p.(parsed := p.parsed + [c])
  }

  function Run(p: Parser, text: string): Parser
    decreases |text|
  {
    if text == [] then p else Run(Step(p, text[0]), text[1..])
  }

  const START := Parser(false, 0, [], None, [])

  datatype Line = Line(name: Option<string>, attrs: seq<Attr>, value: string)

  function Parse(text: string): Line {
    var p := Run(START, text);
    Line(p.name, p.attrs, p.parsed)
  }

  lemma {:induction false} RunAppend(p: Parser, a: string, b: string)
    ensures Run(p, a + b) == Run(Run(p, a), b)
    decreases |a|
  {
    if a == [] {
      assert a + b == b;
    } else {
      RunAppend(Step(p, a[0]), a[1..], b);
      assert (a + b)[1..] == a[1..] + b;
    }
  }

  /** `ParseLine`: the loop over the characters. */
  method ParseLine(text: string) returns (line: Line)
    ensures line == Parse(text)
  {
    var p := START;
    var i := 0;
    assert text[0..] == text;
    while i < |text|
      invariant 0 <= i <= |text|
      invariant Run(p, text[i..]) == Run(START, text)
    {
      assert text[i..][1..] == text[i + 1..];
      p := Step(p, text[i]);
      i := i + 1;
    }
    assert text[i..] == [];
    line := Line(p.name, p.attrs, p.parsed);
  }

  /** Reading a quoted text collects the text, outside the value as long as it has no colon. */
  lemma {:induction false} RunQuote(p: Parser, text: string)
    requires !p.quoted && (p.state >= 2 || ':' !in text)
    ensures Run(p, Quote(text)) == p.(parsed := p.parsed + text)
    decreases |text|
  {
    hide Step, QuoteChar;
    if text == [] {
      assert p.parsed + text == p.parsed;
    } else {
      var c, rest := text[0], text[1..];
      var q := p.(parsed := p.parsed + [c]);
      assert ':' in rest ==> ':' in text;
      assert c == ':' ==> ':' in text;
      RunQuoteChar(p, c);
      RunAppend(p, QuoteChar(c), Quote(rest));
      RunQuote(q, rest);
      assert p.parsed + [c] + rest == p.parsed + text;
    }
  }

  lemma RunQuoteChar(p: Parser, c: char)
    requires !p.quoted && (p.state >= 2 || c != ':')
    ensures Run(p, QuoteChar(c)) == p.(parsed := p.parsed + [c])
  {
    var out := QuoteChar(c);
    if |out| == 1 {
      RunOne(p, c);
    } else {
      hide Run;
      assert out == ['\\', out[1]];
      RunEscaped(p, out[1]);
    }
  }

  lemma RunEscaped(p: Parser, d: char)
    requires !p.quoted
    ensures Run(p, ['\\', d]) == p.(parsed := p.parsed + Unquoted(d))
  {
    var q := Step(p, '\\');
    assert q.parsed[..|q.parsed| - 1] == p.parsed;
    assert Step(q, d) == p.(parsed := p.parsed + Unquoted(d));
    assert ['\\', d] == ['\\'] + [d];
    hide Run, Step, Unquoted;
    RunAppend(p, ['\\'], [d]);
    RunOne(p, '\\');
    RunOne(q, d);
  }

  lemma RunOne(p: Parser, c: char)
    ensures Run(p, [c]) == Step(p, c)
  {
    assert [c][1..] == [];
    assert Run(p, [c]) == Run(Step(p, c), []);
  }

  /** What a backslash stands for, anywhere: the five characters that are quoted, and otherwise itself. */
  lemma EscapeMeans(p: Parser, d: char)
    requires !p.quoted
    ensures Run(p, ['\\', d]).parsed == p.parsed +
            (if d == ',' then "," else if d == ';' then ";" else if d == '\\' then "\\" else if d == 'n' then "\n"
             else if d == 'r' then "\r" else ['\\', d])
  {
    RunEscaped(p, d);
    hide Run, Step;
  }

  /** Once something is found it stays found. */
  lemma {:induction false} RunExtends(p: Parser, text: string)
    ensures var q := Run(p, text);
            && |q.attrs| >= |p.attrs| && q.attrs[..|p.attrs|] == p.attrs
            && (p.state >= 1 ==> q.name == p.name && q.state >= 1)
            && (p.state >= 2 ==> q.attrs == p.attrs && q.state >= 2)
    decreases |text|
  {
    if text == [] {
    } else {
      RunExtends(Step(p, text[0]), text[1..]);
    }
  }

  // ---- The round trip ------------------------------------------------------------------------

  predicate CleanAttr(a: Attr) {
    ':' !in a.key && '=' !in a.key && (a.value.Some? ==> ':' !in a.value.value)
  }

  /** The lines that survive: no colon in the name or the attributes, no equals sign in a key. */
  predicate Clean(name: string, attrs: seq<Attr>) {
    ':' !in name && forall i :: 0 <= i < |attrs| ==> CleanAttr(attrs[i])
  }

  function LowerKey(a: Attr): Attr {
    Attr(Lower(a.key), a.value)
  }

  function LowerKeys(attrs: seq<Attr>): (r: seq<Attr>) {
    seq(|attrs|, i requires 0 <= i < |attrs| => LowerKey(attrs[i]))
  }

  /** The line as it comes back, if it does. */
  function Original(name: string, attrs: seq<Attr>, value: string): Line {
    Line(Some(Lower(name)), LowerKeys(attrs), value)
  }

  lemma LowerUpper(s: string)
    ensures Lower(Upper(s)) == Lower(s)
  {
  }

  lemma UpperKeeps(s: string, c: char)
    requires !('a' <= c <= 'z') && !('A' <= c <= 'Z')
    ensures c in Upper(s) <==> c in s
  {
    if c in s {
      var i :| 0 <= i < |s| && s[i] == c;
      assert Upper(s)[i] == c;
    }
    if c in Upper(s) {
      var i :| 0 <= i < |s| && Upper(s)[i] == c;
      assert s[i] == c;
    }
  }

  lemma QuoteOne(c: char)
    requires QuoteChar(c) == [c]
    ensures Quote([c]) == [c]
  {
    assert [c][1..] == [];
  }

  /** Written attributes are a semicolon and a quoted text. */
  lemma RenderAttrIs(a: Attr)
    ensures RenderAttr(a) == ";" + Quote(AttrText(a))
  {
    hide Quote, Upper;
    match a.value
    case None => assert AttrText(a) == Upper(a.key);
    case Some(v) =>
      QuoteAppend(Upper(a.key), "=" + v);
      QuoteAppend("=", v);
      QuoteOne('=');
  }

  lemma AttrTextClean(a: Attr)
    requires CleanAttr(a)
    ensures ':' !in AttrText(a) && ParseAttr(AttrText(a)) == LowerKey(a)
  {
    var k, t := Upper(a.key), AttrText(a);
    UpperKeeps(a.key, ':');
    UpperKeeps(a.key, '=');
    LowerUpper(a.key);
    hide Lower, Upper;
    assert forall i :: 0 <= i < |k| ==> t[i] == k[i];
    match a.value
    case None => assert t == k;
    case Some(v) =>
      var n := FindEq(t);
      assert t[|k|] == '=';
      hide FindEq;
      assert n == |k| && t[..n] == k && t[n + 1..] == v;
  }

  /** The parser behind the colon, when `p` was still collecting the name or an attribute, and the
      given attributes followed. */
  function Closed(p: Parser, attrs: seq<Attr>): Parser {
    Parser(false, 2, [],
           if p.state == 0 then Some(Lower(p.parsed)) else p.name,
           (if p.state == 0 then p.attrs else p.attrs + [ParseAttr(p.parsed)]) + LowerKeys(attrs))
  }

  /** Reading one written attribute without a colon: what was collected is closed, and the text of
      the attribute is collected. */
  lemma RunAttr(p: Parser, a: Attr)
    requires !p.quoted && p.state <= 1 && ':' !in AttrText(a)
    ensures Run(p, RenderAttr(a)) == Step(p, ';').(parsed := AttrText(a))
  {
    RenderAttrIs(a);
    RunAppend(p, ";", Quote(AttrText(a)));
    RunOne(p, ';');
    RunQuote(Step(p, ';'), AttrText(a));
    assert [] + AttrText(a) == AttrText(a);
  }

  /** Reading clean attributes, and the colon. */
  lemma {:induction false} RunAttrs(p: Parser, attrs: seq<Attr>)
    requires !p.quoted && p.state <= 1 && forall i :: 0 <= i < |attrs| ==> CleanAttr(attrs[i])
    ensures Run(p, RenderAttrs(attrs)) == Closed(p, attrs)
    decreases |attrs|
  {
    hide Lower, Upper, RenderAttr;
    if attrs == [] {
      RunOne(p, ':');
      assert LowerKeys(attrs) == [];
    } else {
      var a, rest := attrs[0], attrs[1..];
      AttrTextClean(a);
      RunAttr(p, a);
      RunAppend(p, RenderAttr(a), RenderAttrs(rest));
      RunAttrs(Step(p, ';').(parsed := AttrText(a)), rest);
      assert LowerKeys(attrs) == [LowerKey(a)] + LowerKeys(rest);
    }
  }

  /** A clean line comes back with its name and keys in lower case. */
  lemma CleanRoundTrip(name: string, attrs: seq<Attr>, value: string)
    requires Clean(name, attrs)
    ensures Parse(Render(name, attrs, value)) == Original(name, attrs, value)
  {
    hide Run, Step, Lower, Upper, CleanAttr;
    UpperKeeps(name, ':');
    RunQuote(START, Upper(name));
    var p := START.(parsed := Upper(name));
    assert [] + Upper(name) == Upper(name);
    RunAttrs(p, attrs);
    var q := Closed(p, attrs);
    RunQuote(q, value);
    RunAppend(START, Quote(Upper(name)), RenderAttrs(attrs));
    RunAppend(START, Quote(Upper(name)) + RenderAttrs(attrs), Quote(value));
    LowerUpper(name);
    assert [] + LowerKeys(attrs) == LowerKeys(attrs);
    assert [] + value == value;
  }

  // ---- Lines that do not come back -----------------------------------------------------------

  /** The text before the first colon. */
  function BeforeColon(text: string): (a: string)
    ensures ':' !in a && (':' in text ==> |a| < |text|)
  {
    if text == [] || text[0] == ':' then [] else [text[0]] + BeforeColon(text[1..])
  }

  lemma {:induction false} AtColon(text: string)
    requires ':' in text
    ensures text == BeforeColon(text) + ":" + text[|BeforeColon(text)| + 1..]
  {
    if text[0] != ':' {
      AtColon(text[1..]);
    } else {
      assert text == ":" + text[1..];
    }
  }

  /** Reading a text with a colon, outside the value, closes early, whatever follows. */
  lemma RunToColon(p: Parser, text: string, rest: string)
    requires !p.quoted && p.state <= 1 && ':' in text
    ensures var q := Step(p.(parsed := p.parsed + BeforeColon(text)), ':');
            var r := Run(p, Quote(text) + rest);
            r.name == q.name && r.attrs == q.attrs
  {
    hide Step, Run, Quote, BeforeColon;
    var a := BeforeColon(text);
    var tail := Quote(text[|a| + 1..]) + rest;
    QuoteToColon(text);
    RunQuote(p, a);
    var p' := p.(parsed := p.parsed + a);
    RunAppend(p, Quote(a), ":");
    RunOne(p', ':');
    assert Quote(text) + rest == Quote(a) + ":" + tail;
    RunAppend(p, Quote(a) + ":", tail);
    StepColon(p');
    RunExtends(Step(p', ':'), tail);
  }

  lemma QuoteToColon(text: string)
    requires ':' in text
    ensures |BeforeColon(text)| < |text|
    ensures Quote(text) == Quote(BeforeColon(text)) + ":" + Quote(text[|BeforeColon(text)| + 1..])
  {
    hide BeforeColon;
    var a := BeforeColon(text);
    var b := text[|a| + 1..];
    AtColon(text);
    QuoteAppend(a + ":", b);
    QuoteAppend(a, ":");
    QuoteOne(':');
  }

  lemma StepColon(p: Parser)
    requires !p.quoted && p.state <= 1
    ensures Step(p, ':').state == 2 && !Step(p, ':').quoted
    ensures Step(p, ':').name == if p.state == 0 then Some(Lower(p.parsed)) else p.name
    ensures Step(p, ':').attrs == if p.state == 0 then p.attrs else p.attrs + [ParseAttr(p.parsed)]
  {
  }

  /** How much text an attribute stands for. */
  function AttrSize(a: Attr): nat {
    |a.key| + match a.value case None => 0 case Some(v) => 1 + |v|
  }

  lemma ParseAttrSize(text: string)
    ensures AttrSize(ParseAttr(text)) == |text|
  {
  }

  /** An equals sign in the key moves part of the key to the value. */
  lemma EqualsInKey(a: Attr)
    requires '=' in a.key
    ensures ParseAttr(AttrText(a)) != LowerKey(a)
  {
    UpperKeeps(a.key, '=');
    var i :| 0 <= i < |a.key| && Upper(a.key)[i] == '=';
    assert AttrText(a)[i] == '=';
    assert FindEq(AttrText(a)) <= i;
  }

  lemma AttrTextColon(a: Attr)
    ensures ':' in AttrText(a) <==> ':' in a.key || (a.value.Some? && ':' in a.value.value)
  {
    UpperKeeps(a.key, ':');
  }

  /** With a colon in it, the attribute ends there, and is too short. */
  lemma AttrWithColon(p: Parser, a: Attr, rest: string)
    requires !p.quoted && p.state <= 1 && ':' in AttrText(a)
    ensures var n := |Step(p, ';').attrs|;
            var r := Run(p, RenderAttr(a) + rest);
            |r.attrs| > n && r.attrs[n] != LowerKey(a)
  {
    var text, q := AttrText(a), Step(p, ';');
    StepSemicolon(p);
    hide Run, Step, ParseAttr, Quote, BeforeColon;
    RenderAttrIs(a);
    assert RenderAttr(a) + rest == ";" + (Quote(text) + rest);
    RunAppend(p, ";", Quote(text) + rest);
    RunOne(p, ';');
    RunToColon(q, text, rest);
    StepColon(q.(parsed := q.parsed + BeforeColon(text)));
    ParseAttrSize(BeforeColon(text));
    assert [] + BeforeColon(text) == BeforeColon(text);
    assert AttrSize(LowerKey(a)) == |text|;
  }

  lemma StepSemicolon(p: Parser)
    requires !p.quoted && p.state <= 1
    ensures var q := Step(p, ';'); !q.quoted && q.state == 1 && q.parsed == []
  {
  }

  /** Without one, the attribute is found as it parses, which is not as it was written. */
  lemma AttrWithEquals(p: Parser, a: Attr, rest: string)
    requires !p.quoted && p.state <= 1 && !CleanAttr(a) && ':' !in AttrText(a)
    requires rest != [] && (rest[0] == ';' || rest[0] == ':')
    ensures var n := |Step(p, ';').attrs|;
            var r := Run(p, RenderAttr(a) + rest);
            |r.attrs| > n && r.attrs[n] != LowerKey(a)
  {
    var text, q := AttrText(a), Step(p, ';');
    AttrTextColon(a);
    EqualsInKey(a);
    RunAttr(p, a);
    var t := q.(parsed := text);
    StepSemicolon(p);
    StepCloses(t, rest[0]);
    hide Run, Step, ParseAttr, AttrText, RenderAttr, LowerKey;
    RunAppend(p, RenderAttr(a), rest);
    assert rest == [rest[0]] + rest[1..];
    RunAppend(t, [rest[0]], rest[1..]);
    RunOne(t, rest[0]);
    RunExtends(Step(t, rest[0]), rest[1..]);
    assert Run(t, rest).attrs[..|q.attrs| + 1][|q.attrs|] == ParseAttr(text);
  }

  lemma StepCloses(p: Parser, c: char)
    requires !p.quoted && p.state == 1 && (c == ';' || c == ':')
    ensures Step(p, c).attrs == p.attrs + [ParseAttr(p.parsed)]
  {
  }

  /** From a bad attribute on, what is found is not what was written. */
  lemma BadAttr(p: Parser, a: Attr, rest: string)
    requires !p.quoted && p.state <= 1 && !CleanAttr(a)
    requires rest != [] && (rest[0] == ';' || rest[0] == ':')
    ensures var n := |Step(p, ';').attrs|;
            var r := Run(p, RenderAttr(a) + rest);
            |r.attrs| > n && r.attrs[n] != LowerKey(a)
  {
    hide Run, Step, CleanAttr, AttrText, RenderAttr, LowerKey;
    if ':' in AttrText(a) {
      AttrWithColon(p, a, rest);
    } else {
      AttrWithEquals(p, a, rest);
    }
  }

  lemma RenderAttrsStarts(attrs: seq<Attr>)
    ensures RenderAttrs(attrs) != [] && (RenderAttrs(attrs)[0] == ';' || RenderAttrs(attrs)[0] == ':')
  {
  }

  /** If some attribute is not clean, the attributes do not come back. */
  lemma {:induction false} BadAttrs(p: Parser, attrs: seq<Attr>, tail: string, i: nat)
    requires !p.quoted && p.state <= 1 && i < |attrs| && !CleanAttr(attrs[i])
    ensures Run(p, RenderAttrs(attrs) + tail).attrs != Step(p, ';').attrs + LowerKeys(attrs)
    decreases |attrs|
  {
    hide Run, RenderAttr, CleanAttr, ParseAttr, AttrText;
    var a, rest := attrs[0], attrs[1..];
    var more := RenderAttrs(rest) + tail;
    RenderAttrsStarts(rest);
    assert RenderAttrs(attrs) + tail == RenderAttr(a) + more;
    assert LowerKeys(attrs) == [LowerKey(a)] + LowerKeys(rest);
    var base := Step(p, ';').attrs;
    if !CleanAttr(a) {
      BadAttr(p, a, more);
      assert (base + LowerKeys(attrs))[|base|] == LowerKey(a);
    } else {
      AttrTextClean(a);
      RunAttr(p, a);
      RunAppend(p, RenderAttr(a), more);
      BadAttrs(Step(p, ';').(parsed := AttrText(a)), rest, tail, i - 1);
      assert base + [LowerKey(a)] + LowerKeys(rest) == base + LowerKeys(attrs);
    }
  }

  lemma BadName(name: string, rest: string)
    requires ':' in name
    ensures Run(START, Quote(Upper(name)) + rest).name != Some(Lower(name))
  {
    hide Run;
    UpperKeeps(name, ':');
    RunToColon(START, Upper(name), rest);
    StepColon(START.(parsed := BeforeColon(Upper(name))));
    assert START.parsed + BeforeColon(Upper(name)) == BeforeColon(Upper(name));
  }

  lemma BadRoundTrip(name: string, attrs: seq<Attr>, value: string)
    requires !Clean(name, attrs)
    ensures Parse(Render(name, attrs, value)) != Original(name, attrs, value)
  {
    hide Run, CleanAttr, RenderAttrs, Upper, Lower, LowerKeys;
    var tail := Quote(value);
    assert Render(name, attrs, value) == Quote(Upper(name)) + (RenderAttrs(attrs) + tail);
    if ':' in name {
      BadName(name, RenderAttrs(attrs) + tail);
    } else {
      var i :| 0 <= i < |attrs| && !CleanAttr(attrs[i]);
      UpperKeeps(name, ':');
      RunQuote(START, Upper(name));
      RunAppend(START, Quote(Upper(name)), RenderAttrs(attrs) + tail);
      BadAttrs(START.(parsed := START.parsed + Upper(name)), attrs, tail, i);
      assert [] + LowerKeys(attrs) == LowerKeys(attrs);
    }
  }

  lemma RenderIsOneLine(name: string, attrs: seq<Attr>, value: string)
    ensures OneLine(Render(name, attrs, value))
  {
    QuoteIsOneLine(Upper(name));
    QuoteIsOneLine(value);
    RenderAttrsOneLine(attrs);
  }

  lemma {:induction false} RenderAttrsOneLine(attrs: seq<Attr>)
    ensures OneLine(RenderAttrs(attrs))
  {
    if attrs == [] {
    } else {
      RenderAttrIs(attrs[0]);
      QuoteIsOneLine(AttrText(attrs[0]));
      RenderAttrsOneLine(attrs[1..]);
    }
  }

  /** Writing a line, folding it, unfolding it and reading it gives back the lowercased name and
      keys, the attribute values and the value, on exactly the clean lines; the value may be any
      string at all. */
  lemma RoundTripExactly(name: string, attrs: seq<Attr>, value: string)
    ensures Parse(Unwrap(FoldFrom(Render(name, attrs, value), 0))) == Original(name, attrs, value)
            <==> Clean(name, attrs)
  {
    RenderIsOneLine(name, attrs, value);
    UnwrapFold(Render(name, attrs, value));
    if Clean(name, attrs) {
      CleanRoundTrip(name, attrs, value);
    } else {
      BadRoundTrip(name, attrs, value);
    }
  }

  /** `as_vcardline`. */
  method AsVCardLine(name: string, attrs: seq<Attr>, value: string) returns (wrapped: string)
    ensures wrapped == FoldFrom(Render(name, attrs, value), 0) && Within75(wrapped, 0)
    ensures Parse(Unwrap(wrapped)) == Original(name, attrs, value) <==> Clean(name, attrs)
  {
    hide Quote, Upper, Parse, Within75, Unwrap, FoldFrom, Clean, RenderAttrs;
    var key := Quote(Upper(name));
    var i := 0;
    assert attrs[0..] == attrs;
    while i < |attrs|
      invariant 0 <= i <= |attrs|
      invariant key + RenderAttrs(attrs[i..]) == Quote(Upper(name)) + RenderAttrs(attrs)
    {
      RenderAttrsStep(attrs, i);
      ghost var rest := RenderAttrs(attrs[i + 1..]);
      assert key + (RenderAttr(attrs[i]) + rest) == (key + RenderAttr(attrs[i])) + rest;
      var attr := ";" + Quote(Upper(attrs[i].key));
      if attrs[i].value.Some? {
        attr := attr + "=" + Quote(attrs[i].value.value);
      }
      assert attr == RenderAttr(attrs[i]);
      key := key + attr;
      i := i + 1;
    }
    NoAttrs(attrs, i);
    var line := key + ":" + Quote(value);
    assert line == Render(name, attrs, value);
    RenderIsOneLine(name, attrs, value);
    RoundTripExactly(name, attrs, value);
    wrapped := FoldLine(line);
  }

  lemma RenderAttrsStep(attrs: seq<Attr>, i: nat)
    requires i < |attrs|
    ensures RenderAttrs(attrs[i..]) == RenderAttr(attrs[i]) + RenderAttrs(attrs[i + 1..])
  {
    assert attrs[i..][1..] == attrs[i + 1..];
  }

  lemma NoAttrs(attrs: seq<Attr>, i: nat)
    requires i == |attrs|
    ensures RenderAttrs(attrs[i..]) == ":"
  {
  }
}
