/** The lines of the metadata index file: how records are written and read back
    (mailpile/search.py:77-97, 109-157). */
module IndexLines {
  import opened Wrappers
  import opened Base36

  const FIELDS := 13
  const FIELDS_V1 := 11
  const APPEND_MARK := "-----APPENDED SECTION-----"

  predicate Control(c: char) {
    c as int < 0x20 || c as int == 0x7F
  }

  /** NORM_TABLE: tabs and line breaks become spaces, other control characters vanish. */
  function Norm(f: string): (t: string)
    ensures forall c :: c in t ==> !Control(c)
  {
    if f == [] then []
    else
      var n := |f| - 1;
      var c := f[n];
      if c == '\t' || c == '\r' || c == '\n' then Norm(f[..n]) + [' ']
      else if Control(c) then Norm(f[..n])
      else Norm(f[..n]) + [c]
  }

  predicate Clean(f: string) {
    forall c :: c in f ==> !Control(c)
  }

  lemma {:induction false} NormKeepsClean(f: string)
    ensures Norm(f) == f <==> Clean(f)
  {
    if f == [] {
    } else {
      var n := |f| - 1;
      NormKeepsClean(f[..n]);
      assert f == f[..n] + [f[n]];
      if Clean(f) {
        assert !Control(f[n]);
      }
    }
  }

  predicate Ascending(at: seq<nat>) {
    forall i, j :: 0 <= i < j < |at| ==> at[i] < at[j]
  }

  predicate Spaced(c: char) {
    c == '\t' || c == '\r' || c == '\n'
  }

  /** Character by character: tabs and line breaks become spaces, other control characters are left out, and all else
      stays, in order. */
  lemma {:induction false} NormAt(f: string) returns (at: seq<nat>)
    ensures Ascending(at) && |at| == |Norm(f)|
    ensures forall i: nat :: i in at <==> i < |f| && (Spaced(f[i]) || !Control(f[i]))
    ensures forall k :: 0 <= k < |at| && at[k] < |f| ==> Norm(f)[k] == if Spaced(f[at[k]]) then ' ' else f[at[k]]
  {
    if f == [] {
      at := [];
    } else {
      var n := |f| - 1;
      var init, all := Norm(f[..n]), Norm(f);
      at := NormAt(f[..n]);
      assert all == if Spaced(f[n]) then init + [' '] else if Control(f[n]) then init else init + [f[n]];
      hide Norm, Control;
      assert forall k :: 0 <= k < |at| ==> at[k] in at;
      if Spaced(f[n]) || !Control(f[n]) {
        at := at + [n];
      }
    }
  }

  function Join(fields: seq<string>): string
    requires fields != []
  {
    var n := |fields| - 1;
    if n == 0 then fields[0] else Join(fields[..n]) + "\t" + fields[n]
  }

  /** Python's `split('\t')`. */
  function Split(line: string): (words: seq<string>)
    ensures words != []
  {
    if line == [] then [""]
    else
      var n := |line| - 1;
      var words := Split(line[..n]);
      if line[n] == '\t' then words + [""] else Longer(words, [line[n]])
  }

  function Longer(words: seq<string>, t: string): (out: seq<string>)
    requires words != []
    ensures |out| == |words|
  {
    var n := |words| - 1;
    words[..n] + [words[n] + t]
  }

  lemma LongerTwice(words: seq<string>, t: string, u: string)
    requires words != []
    ensures Longer(Longer(words, t), u) == Longer(words, t + u)
    ensures Longer(words, []) == words
  {
    var n := |words| - 1;
    assert (words[n] + t) + u == words[n] + (t + u);
    assert words[n] + [] == words[n] && words[..n] + [words[n]] == words;
    assert Longer(words, t)[..n] == words[..n];
  }

  /** Text without a tab makes the last word longer. */
  lemma {:induction false} SplitPlain(s: string, t: string)
    requires '\t' !in t
    ensures Split(s + t) == Longer(Split(s), t)
  {
    var w := Split(s);
    if t == [] {
      assert s + t == s;
      LongerTwice(w, t, t);
    } else {
      var n := |t| - 1;
      SplitPlain(s, t[..n]);
      assert (s + t)[..|s + t| - 1] == s + t[..n];
      assert t[..n] + [t[n]] == t;
      LongerTwice(w, t[..n], [t[n]]);
    }
  }

  lemma SplitTab(s: string)
    ensures Split(s + "\t") == Split(s) + [""]
  {
    assert (s + "\t")[..|s|] == s;
  }

  lemma {:induction false} SplitJoin(fields: seq<string>)
    requires fields != [] && forall i :: 0 <= i < |fields| ==> '\t' !in fields[i]
    ensures Split(Join(fields)) == fields
  {
    var n := |fields| - 1;
    if n == 0 {
      SplitOne(fields[0]);
      assert fields == [fields[0]];
    } else {
      SplitJoin(fields[..n]);
      SplitLast(Join(fields[..n]), fields[..n], fields[n]);
      assert fields[..n] + [fields[n]] == fields;
    }
  }

  lemma SplitOne(t: string)
    requires '\t' !in t
    ensures Split(t) == [t]
  {
    SplitPlain("", t);
    assert "" + t == t;
  }

  lemma SplitLast(s: string, words: seq<string>, t: string)
    requires Split(s) == words && '\t' !in t
    ensures Split(s + "\t" + t) == words + [t]
  {
    SplitTab(s);
    SplitPlain(s + "\t", t);
    hide Split;
    assert "" + t == t;
    assert (words + [""])[..|words|] == words;
  }

  function Normed(fields: seq<string>): (out: seq<string>) {
    seq(|fields|, i requires 0 <= i < |fields| => Norm(fields[i]))
  }

  /** `m2l`. */
  function ToLine(fields: seq<string>): string
    requires fields != []
  {
    Join(Normed(fields))
  }

  /** Reading a written record back gives its normalised fields; it gives the very fields just in
      case none of them has a control character. */
  lemma LineRoundTrip(fields: seq<string>)
    requires fields != []
    ensures Split(ToLine(fields)) == Normed(fields)
    ensures Split(ToLine(fields)) == fields <==> forall i :: 0 <= i < |fields| ==> Clean(fields[i])
  {
    SplitJoin(Normed(fields));
    forall i | 0 <= i < |fields|
      ensures Normed(fields)[i] == fields[i] <==> Clean(fields[i])
    {
      NormKeepsClean(fields[i]);
    }
  }

  lemma {:induction false} JoinClean(fields: seq<string>)
    requires fields != [] && forall i :: 0 <= i < |fields| ==> Clean(fields[i])
    ensures forall c :: c in Join(fields) ==> c == '\t' || !Control(c)
  {
    var n := |fields| - 1;
    if n == 0 {
    } else {
      JoinClean(fields[..n]);
    }
  }

  /** A record never spreads over more than one line of the file. */
  lemma LineIsOneLine(fields: seq<string>)
    requires fields != []
    ensures '\n' !in ToLine(fields) && '\r' !in ToLine(fields)
  {
    JoinClean(Normed(fields));
  }

  // --- Reading ---------------------------------------------------------------

  predicate Blank(c: char) {
    c == ' ' || '\t' <= c <= '\r'
  }

  function StripLeft(s: string): string {
    if s != [] && Blank(s[0]) then StripLeft(s[1..]) else s
  }

  function StripRight(s: string): string {
    if s != [] && Blank(s[|s| - 1]) then StripRight(s[..|s| - 1]) else s
  }

  function Strip(s: string): string {
    StripRight(StripLeft(s))
  }

  predicate Tight(s: string) {
    s == [] || (!Blank(s[0]) && !Blank(s[|s| - 1]))
  }

  lemma {:induction false} StripRightEnds(s: string)
    ensures StripRight(s) <= s
    ensures StripRight(s) != [] ==> !Blank(StripRight(s)[|StripRight(s)| - 1])
  {
    if s != [] && Blank(s[|s| - 1]) {
      StripRightEnds(s[..|s| - 1]);
    }
  }

  lemma {:induction false} StripLeftStarts(s: string)
    ensures StripLeft(s) != [] ==> !Blank(StripLeft(s)[0])
  {
    if s != [] && Blank(s[0]) {
      StripLeftStarts(s[1..]);
    }
  }

  lemma StripTight(s: string)
    ensures Tight(Strip(s))
    ensures Tight(s) ==> Strip(s) == s
  {
    StripLeftStarts(s);
    StripRightEnds(StripLeft(s));
  }

  /** Stripping leaves what is between the blanks at both ends. */
  lemma StripIs(s: string) returns (i: nat, j: nat)
    ensures i <= j <= |s| && Strip(s) == s[i..j]
    ensures forall k :: 0 <= k < i || j <= k < |s| ==> Blank(s[k])
    ensures i < j ==> !Blank(s[i]) && !Blank(s[j - 1])
  {
    i := StripLeftIs(s);
    var rest := s[i..];
    var m := StripRightIs(rest);
    j := i + m;
    assert rest[..m] == s[i..j];
    forall k | j <= k < |s|
      ensures Blank(s[k])
    {
      assert rest[k - i] == s[k];
    }
  }

  lemma {:induction false} StripLeftIs(s: string) returns (i: nat)
    ensures i <= |s| && StripLeft(s) == s[i..]
    ensures forall k :: 0 <= k < i ==> Blank(s[k])
    ensures i < |s| ==> !Blank(s[i])
  {
    if s != [] && Blank(s[0]) {
      i := StripLeftIs(s[1..]);
      assert forall k :: 0 < k < i + 1 ==> s[k] == s[1..][k - 1];
      i := i + 1;
    } else {
      i := 0;
    }
  }

  lemma {:induction false} StripRightIs(s: string) returns (j: nat)
    ensures j <= |s| && StripRight(s) == s[..j]
    ensures forall k :: j <= k < |s| ==> Blank(s[k])
    ensures j > 0 ==> !Blank(s[j - 1])
  {
    if s != [] && Blank(s[|s| - 1]) {
      j := StripRightIs(s[..|s| - 1]);
    } else {
      j := |s|;
    }
  }

  predicate Sits(t: string, s: string, i: nat) {
    i + |t| <= |s| && s[i..i + |t|] == t
  }

  predicate Contains(s: string, t: string) {
    exists i :: 0 <= i <= |s| && Sits(t, s, i)
  }

  lemma ContainsExactly(s: string, t: string)
    ensures Contains(s, t) <==> exists a: string, b: string :: s == a + t + b
  {
    if i :| 0 <= i <= |s| && Sits(t, s, i) {
      assert s == s[..i] + t + s[i + |t|..];
    }
    if a: string, b: string :| s == a + t + b {
      assert Sits(t, s, |a|);
    }
  }

  predicate DigitOrLetter(c: char) {
    '0' <= c <= '9' || 'A' <= c <= 'Z' || 'a' <= c <= 'z'
  }

  /** The characters of the classes, one by one. */
  lemma CharClasses(c: char)
    ensures Blank(c) <==> c in " \t\n\U{0b}\U{0c}\r"
    ensures DigitOrLetter(c) <==>
              c in "0123456789" || c in "ABCDEFGHIJKLMNOPQRSTUVWXYZ" || c in "abcdefghijklmnopqrstuvwxyz"
  {
    assert c in "0123456789" <==> '0' <= c <= '9';
    Smalls(c);
    Capitals(c);
  }

  lemma Smalls(c: char)
    ensures c in "abcdefghijklmnopqrstuvwxyz" <==> 'a' <= c <= 'z'
  {
  }

  lemma Capitals(c: char)
    ensures c in "ABCDEFGHIJKLMNOPQRSTUVWXYZ" <==> 'A' <= c <= 'Z'
  {
  }

  function MidValue(s: string): Option<nat> {
    if s != [] && forall c :: c in s ==> DigitOrLetter(c) then Some(Parse(s)) else None
  }

  /** What one line of the file says. */
  datatype Entry =
    | Nothing
    | Appended
    | Email(eid: nat, quoted: string)
    | Meta(pos: nat, line: string)
    | Bogus

  /** Index of the first tab, or the length. */
  function FirstTab(s: string): (k: nat)
    ensures k <= |s| && '\t' !in s[..k] && (k < |s| ==> s[k] == '\t')
  {
    if s == [] || s[0] == '\t' then 0 else 1 + FirstTab(s[1..])
  }

  function ReadEmail(line: string): Entry
    requires line != []
  {
    var k := FirstTab(line[1..]);
    var eid := MidValue(line[1..1 + k]);
    if 1 + k == |line| || eid.None? then Bogus else Email(eid.value, line[2 + k..])
  }

  /** Records of the old format lack the Cc and size columns. */
  function Migrated(words: seq<string>): seq<string>
    requires |words| == FIELDS_V1
  {
    words[..6] + ["", "0"] + words[6..]
  }

  function ReadMeta(line: string): Entry {
    var words := Split(line);
    var pos := MidValue(words[0]);
    if pos.None? then Bogus
    else if |words| == FIELDS then Meta(pos.value, line)
    else if |words| == FIELDS_V1 then Meta(pos.value, Join(Migrated(words)))
    else Bogus
  }

  function Read(raw: string): Entry {
    var line := Strip(raw);
    if line == [] || line[0] == '#' then (if Contains(line, APPEND_MARK) then Appended else Nothing)
    else if line[0] == '@' then ReadEmail(line)
    else ReadMeta(line)
  }

  /** A line of INDEX as it should be: reading it gives the position and the line itself. */
  predicate Canonical(line: string, pos: nat) {
    line != [] && Read(line) == Meta(pos, line)
  }

  /** A record that belongs at a position: its MID says so, and its thread column, the last one, does not
      end in blanks. */
  predicate Record(fields: seq<string>, pos: nat) {
    && |fields| == FIELDS
    && fields[0] == Digits(pos)
    && var thread := fields[FIELDS - 1];
       thread != [] && !Control(thread[|thread| - 1]) && thread[|thread| - 1] != ' '
  }

  lemma {:induction false} DigitsAreDigits(n: nat)
    ensures Digits(n) != [] && forall c :: c in Digits(n) ==> DigitOrLetter(c)
  {
    if n >= 36 {
      DigitsAreDigits(n / 36);
    }
  }

  lemma {:induction false} JoinEnds(fields: seq<string>)
    requires fields != [] && fields[0] != [] && fields[|fields| - 1] != []
    ensures Join(fields) != [] && Join(fields)[0] == fields[0][0]
    ensures Join(fields)[|Join(fields)| - 1] == fields[|fields| - 1][|fields[|fields| - 1]| - 1]
  {
    JoinStarts(fields);
  }

  lemma {:induction false} JoinStarts(fields: seq<string>)
    requires fields != []
    ensures fields[0] <= Join(fields)
  {
    var n := |fields| - 1;
    if n == 0 {
    } else {
      JoinStarts(fields[..n]);
    }
  }

  lemma NormEnds(f: string)
    requires f != [] && !Control(f[|f| - 1])
    ensures Norm(f) != [] && Norm(f)[|Norm(f)| - 1] == f[|f| - 1]
  {
  }

  lemma ReadsAsMeta(line: string)
    requires line != [] && Tight(line) && line[0] != '#' && line[0] != '@'
    ensures Read(line) == ReadMeta(line)
  {
    hide ReadMeta, Strip;
    StripTight(line);
  }

  lemma DigitsValue(n: nat)
    ensures MidValue(Digits(n)) == Some(n) && Digits(n) != [] && DigitOrLetter(Digits(n)[0])
            && Norm(Digits(n)) == Digits(n)
  {
    DigitsAreDigits(n);
    ParseInvertsDigits(n);
    NormKeepsClean(Digits(n));
    hide Digits, Norm, Parse;
    assert Digits(n)[0] in Digits(n);
  }

  /** A record of the old format is read with an empty Cc column and a size of zero after its first six columns. */
  lemma OldRecordIsRead(words: seq<string>, pos: nat)
    requires |words| == FIELDS_V1 && words[0] == Digits(pos) && words[FIELDS_V1 - 1] != []
    requires forall i :: 0 <= i < |words| ==> Clean(words[i])
    requires !Blank(words[FIELDS_V1 - 1][|words[FIELDS_V1 - 1]| - 1])
    ensures var e := Read(Join(words));
            && e.Meta? && e.pos == pos
            && Split(e.line) == words[..6] + ["", "0"] + words[6..]
  {
    var line, wide := Join(words), words[..6] + ["", "0"] + words[6..];
    DigitsValue(pos);
    CleanHasNoTab(words);
    SplitJoin(words);
    JoinEnds(words);
    hide Join, Split, Digits, MidValue, Norm, Strip;
    ReadsAsMeta(line);
    assert forall i :: 0 <= i < |wide| ==> wide[i] in words || wide[i] == "" || wide[i] == "0";
    SplitJoin(wide);
  }

  lemma CleanHasNoTab(words: seq<string>)
    requires forall i :: 0 <= i < |words| ==> Clean(words[i])
    ensures forall i :: 0 <= i < |words| ==> '\t' !in words[i]
    ensures forall w :: w in words ==> '\t' !in w
  {
    assert Control('\t');
  }

  /** The last word of a line is the end of the line. */
  lemma {:induction false} SplitEnds(line: string)
    ensures var words := Split(line);
            words[|words| - 1] == [] ==> line == [] || line[|line| - 1] == '\t'
    ensures var words := Split(line);
            words[|words| - 1] != [] ==>
              line != [] && words[|words| - 1][|words[|words| - 1]| - 1] == line[|line| - 1]
  {
  }

  lemma {:induction false} SplitStarts(line: string)
    ensures Split(line)[0] != [] ==> line != [] && Split(line)[0][0] == line[0]
  {
    if line == [] {
    } else {
      SplitStarts(line[..|line| - 1]);
    }
  }

  lemma {:induction false} SplitHasNoTabs(line: string)
    ensures forall i :: 0 <= i < |Split(line)| ==> '\t' !in Split(line)[i]
  {
    if line == [] {
    } else {
      SplitHasNoTabs(line[..|line| - 1]);
    }
  }

  /** What is read once, an old record included, is read back as itself ever after. */
  lemma ReadIsCanonical(raw: string)
    requires Read(raw).Meta?
    ensures Canonical(Read(raw).line, Read(raw).pos)
  {
    var line := Strip(raw);
    StripTight(raw);
    StripTight(line);
    var words := Split(line);
    hide Strip, Split, Parse, Join;
    if |words| == FIELDS_V1 {
      SplitEnds(line);
      SplitStarts(line);
      SplitHasNoTabs(line);
      var wide := Migrated(words);
      assert wide[0] == words[0] && wide[FIELDS - 1] == words[FIELDS_V1 - 1];
      JoinEnds(wide);
      SplitJoin(wide);
      StripTight(Join(wide));
    }
  }

  /** The two ends of a joined line. */
  lemma JoinTight(fields: seq<string>)
    requires |fields| > 1
    ensures fields[0] == [] ==> Join(fields) != [] && Join(fields)[0] == '\t'
    ensures fields[|fields| - 1] == [] ==> Join(fields) != [] && Join(fields)[|Join(fields)| - 1] == '\t'
  {
    JoinTwo(fields);
  }

  lemma {:induction false} JoinTwo(fields: seq<string>)
    requires |fields| > 1
    ensures fields[0] + "\t" <= Join(fields)
  {
    var n := |fields| - 1;
    if n > 1 {
      JoinTwo(fields[..n]);
    } else {
      assert Join(fields[..1]) == fields[0];
      assert Join(fields) == fields[0] + "\t" + fields[1];
    }
  }

  /** A line that reads as itself neither starts nor ends with a blank. */
  lemma CanonicalIsTight(line: string, pos: nat)
    requires Canonical(line, pos)
    ensures Tight(line)
  {
    var short := Strip(line);
    StripTight(line);
    var words := Split(short);
    hide Strip, Split, Parse, Join;
    if |words| == FIELDS_V1 {
      SplitEnds(short);
      SplitStarts(short);
      var wide := Migrated(words);
      assert wide[0] == words[0] && wide[FIELDS - 1] == words[FIELDS_V1 - 1];
      JoinEnds(wide);
    }
  }

  lemma NormNotBlank(f: string)
    ensures forall i :: 0 <= i < |Norm(f)| ==> (Blank(Norm(f)[i]) <==> Norm(f)[i] == ' ')
  {
    forall i | 0 <= i < |Norm(f)|
      ensures Blank(Norm(f)[i]) <==> Norm(f)[i] == ' '
    {
      assert Norm(f)[i] in Norm(f);
    }
  }

  /** A record is read back as itself, at its own position: its MID says so, and its thread column, the last one,
      is there and does not end in a blank. */
  predicate Fits(fields: seq<string>, pos: nat)
    requires |fields| == FIELDS
  {
    && MidValue(Norm(fields[0])) == Some(pos)
    && var thread := Norm(fields[FIELDS - 1]);
       thread != [] && thread[|thread| - 1] != ' '
  }

  lemma CanonicalExactly(fields: seq<string>, pos: nat)
    requires |fields| == FIELDS
    ensures Canonical(ToLine(fields), pos) <==> Fits(fields, pos)
  {
    var line, norm := ToLine(fields), Normed(fields);
    NormNotBlank(fields[0]);
    NormNotBlank(fields[FIELDS - 1]);
    SplitJoin(norm);
    assert norm[0] == Norm(fields[0]) && norm[FIELDS - 1] == Norm(fields[FIELDS - 1]);
    JoinTight(norm);
    if norm[0] != [] && norm[FIELDS - 1] != [] {
      JoinEnds(norm);
    }
    hide Norm, Join, Split, Parse, Read;
    if Fits(fields, pos) {
      assert norm[0][0] in norm[0];
      ReadsAsMeta(line);
    }
    if Canonical(line, pos) {
      CanonicalIsTight(line, pos);
      CanonicalStart(line, pos);
      ReadsAsMeta(line);
    }
  }

  lemma CanonicalStart(line: string, pos: nat)
    requires Canonical(line, pos) && Tight(line)
    ensures line[0] != '#' && line[0] != '@'
  {
    StripTight(line);
    hide Strip, Split, Parse, Join;
  }

  /** What `set_msg_at_idx_pos` stores for a record under its own MID is read back as itself, at its own position. */
  lemma RecordIsCanonical(fields: seq<string>, pos: nat)
    requires Record(fields, pos)
    ensures Canonical(ToLine(fields), pos)
  {
    DigitsValue(pos);
    NormEnds(fields[FIELDS - 1]);
    hide Norm, Digits, MidValue, ToLine, Canonical;
    CanonicalExactly(fields, pos);
  }

  lemma {:induction false} TabBehind(d: string, t: string)
    requires '\t' !in d
    ensures FirstTab(d + "\t" + t) == |d|
  {
    if d == [] {
    } else {
      TabBehind(d[1..], t);
      assert (d + "\t" + t)[1..] == d[1..] + "\t" + t;
    }
  }

  /** The line written for an e-mail address; quoting keeps blanks and tabs out of the text. */
  function EmailLine(eid: nat, quoted: string): string {
    "@" + Digits(eid) + "\t" + quoted
  }

  predicate Quoted(t: string) {
    t != [] && forall c :: c in t ==> !Blank(c)
  }

  lemma EmailLineIsRead(eid: nat, quoted: string)
    requires Quoted(quoted)
    ensures Read(EmailLine(eid, quoted)) == Email(eid, quoted)
  {
    var line := EmailLine(eid, quoted);
    DigitsAreDigits(eid);
    ParseInvertsDigits(eid);
    hide Strip, Digits, Parse, FirstTab;
    assert line[|line| - 1] == quoted[|quoted| - 1] && quoted[|quoted| - 1] in quoted;
    StripTight(line);
    var rest, d := line[1..], Digits(eid);
    assert rest == d + "\t" + quoted;
    TabBehind(d, quoted);
    var k := FirstTab(rest);
    assert line[1..1 + k] == rest[..k] == d;
  }

  /** Comment lines say nothing about records and addresses. */
  lemma CommentIsRead(t: string)
    ensures Read("#" + t).Nothing? || Read("#" + t).Appended?
  {
    var raw := "#" + t;
    assert StripLeft(raw) == raw;
    StripRightKeeps(raw);
    hide StripLeft, StripRight;
  }

  lemma {:induction false} StripRightKeeps(s: string)
    requires s != [] && !Blank(s[0])
    ensures StripRight(s) != [] && StripRight(s)[0] == s[0]
  {
    if Blank(s[|s| - 1]) {
      StripRightKeeps(s[..|s| - 1]);
    }
  }

  lemma BlankIsRead()
    ensures Read("") == Nothing
  {
    assert Strip("") == "";
  }

  lemma LineIsLong(fields: seq<string>)
    requires |fields| == FIELDS
    ensures ToLine(fields) != ""
  {
    SplitJoin(Normed(fields));
    assert Split("") == [""];
    hide Norm;
  }
}
