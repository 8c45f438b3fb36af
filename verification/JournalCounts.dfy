/** The counters of the index file: what they count, and that they keep the file small
    (mailpile/search.py:99-160, 257-359). */
module JournalCounts {
  import opened Wrappers
  import opened IndexLines
  import opened Journal
  import opened JournalSteps
  import opened JournalRuns

  // --- What is counted ---------------------------------------------------------

  /** The lines that are append marks, and those that hold a record or an address. */
  function MarkLines(lines: seq<string>): set<nat> {
    set i: nat | i < |lines| && Read(lines[i]).Appended?
  }

  function ItemLines(lines: seq<string>): set<nat> {
    set i: nat | i < |lines| && (Read(lines[i]).Meta? || Read(lines[i]).Email?)
  }

  lemma {:induction false} MarksMean(lines: seq<string>)
    ensures Marks(lines) == |MarkLines(lines)|
  {
    hide Read;
    if lines == [] {
      assert MarkLines(lines) == {};
    } else {
      var n := |lines| - 1;
      MarksMean(lines[..n]);
      assert MarkLines(lines) == MarkLines(lines[..n]) + (if Read(lines[n]).Appended? then {n} else {});
      assert n !in MarkLines(lines[..n]);
    }
  }

  lemma {:induction false} ItemsMean(lines: seq<string>)
    ensures Items(lines) == |ItemLines(lines)|
  {
    hide Read;
    if lines == [] {
      assert ItemLines(lines) == {};
    } else {
      var n := |lines| - 1;
      ItemsMean(lines[..n]);
      assert ItemLines(lines) ==
             ItemLines(lines[..n]) + (if Read(lines[n]).Meta? || Read(lines[n]).Email? then {n} else {});
      assert n !in ItemLines(lines[..n]);
    }
  }

  /** One more than the highest number of an address, and than the highest position of a record. */
  lemma {:induction false} HighestMean(lines: seq<string>)
    ensures forall i :: 0 <= i < |lines| && Read(lines[i]).Email? ==> Read(lines[i]).eid < EmailCount(lines)
    ensures EmailCount(lines) > 0 ==>
              exists i :: 0 <= i < |lines| && Read(lines[i]).Email? && Read(lines[i]).eid + 1 == EmailCount(lines)
    ensures forall i :: 0 <= i < |lines| && Read(lines[i]).Meta? ==> Read(lines[i]).pos < Top(lines)
    ensures Top(lines) > 0 ==>
              exists i :: 0 <= i < |lines| && Read(lines[i]).Meta? && Read(lines[i]).pos + 1 == Top(lines)
  {
    hide Read;
    if lines == [] {
    } else {
      var n := |lines| - 1;
      var init := lines[..n];
      HighestMean(init);
      if EmailCount(lines) == EmailCount(init) > 0 {
        var i :| 0 <= i < n && Read(init[i]).Email? && Read(init[i]).eid + 1 == EmailCount(init);
        assert Read(lines[i]).eid + 1 == EmailCount(lines);
      }
      if Top(lines) == Top(init) > 0 {
        var i :| 0 <= i < n && Read(init[i]).Meta? && Read(init[i]).pos + 1 == Top(init);
        assert Read(lines[i]).pos + 1 == Top(lines);
      }
    }
  }

  // --- What the heads of a file count for --------------------------------------

  lemma {:induction false} StripRightKeepsOut(s: string, c: char)
    requires c !in s
    ensures c !in StripRight(s)
  {
    if s != [] && Blank(s[|s| - 1]) {
      StripRightKeepsOut(s[..|s| - 1], c);
    }
  }

  lemma {:induction false} DecimalHasDigits(n: nat)
    ensures forall c :: c in Decimal(n) ==> '0' <= c <= '9'
  {
    if n >= 10 {
      DecimalHasDigits(n / 10);
    }
  }

  function FromDecimal(s: string): int {
    if s == [] then 0 else 10 * FromDecimal(s[..|s| - 1]) + (s[|s| - 1] as int - '0' as int)
  }

  lemma {:induction false} DecimalRoundTrip(n: nat)
    ensures FromDecimal(Decimal(n)) == n
  {
    if n >= 10 {
      DecimalRoundTrip(n / 10);
    }
  }

  /** The head of a new file says how many messages there are. */
  lemma CountIsNoted(count: nat)
    ensures Comments(true, count)[1] == "# We have " + Decimal(count) + " messages!"
  {
    DecimalHasDigits(count);
  }

  /** A comment without a dash is no append mark. */
  lemma PlainComment(t: string)
    requires '-' !in t
    ensures Read("#" + t) == Nothing
  {
    var raw := "#" + t;
    CommentIsRead(t);
    assert StripLeft(raw) == raw;
    StripRightKeepsOut(raw, '-');
    var line := Strip(raw);
    hide Strip, StripLeft, StripRight;
    forall i | 0 <= i <= |line|
      ensures !Sits(APPEND_MARK, line, i)
    {
      assert APPEND_MARK[0] == '-';
      if i < |line| {
        assert line[i] in line;
      }
    }
  }

  lemma MarkIsRead()
    ensures Read("#" + APPEND_MARK) == Appended
  {
    var raw := "#" + APPEND_MARK;
    assert Tight(raw);
    StripTight(raw);
    hide Strip;
    assert Sits(APPEND_MARK, raw, 1);
  }

  /** An append begins with one mark, and a full save has none. */
  lemma CommentMarks(full: bool, count: nat)
    ensures Marks(Comments(full, count)) == if full then 0 else 1
  {
    var c := Comments(full, count);
    if full {
      DecimalHasDigits(count);
      var first, second := " This is the mailpile.py index file.", CountNote(count);
      PlainComment(first);
      PlainComment(second);
      assert c[..1][..0] == [] && c[..1] == ["#" + first] && c == ["#" + first, "#" + second];
      hide Read;
      assert Marks(c[..1]) == 0;
    } else {
      MarkIsRead();
      hide Read;
      assert c[..0] == [];
    }
  }

  lemma {:induction false} MarksOver(a: seq<string>, b: seq<string>)
    ensures Marks(a + b) == Marks(a) + Marks(b)
  {
    hide Read;
    if b == [] {
      assert a + b == a;
    } else {
      var n := |b| - 1;
      MarksOver(a, b[..n]);
      assert (a + b)[..|a + b| - 1] == a + b[..n];
    }
  }

  lemma {:induction false} NoMarks(lines: seq<string>)
    requires forall i :: 0 <= i < |lines| ==> !Read(lines[i]).Appended?
    ensures Marks(lines) == 0
  {
    hide Read;
    if lines != [] {
      NoMarks(lines[..|lines| - 1]);
    }
  }

  lemma HeaderMarks(full: bool, count: nat, addresses: seq<string>, lo: nat, hi: nat)
    requires AddressLines(addresses, lo, hi)
    ensures Marks(Header(full, count, addresses)) == if full then 0 else 1
  {
    CommentMarks(full, count);
    hide Comments, Read;
    NoMarks(addresses);
    MarksOver(Comments(full, count), addresses);
  }

  // --- Over runs -----------------------------------------------------------------

  /** The counter of appends is the number of marks in the file. */
  ghost predicate Counted(s: State) {
    && s.changes == Marks(Contents(s.file))
    && (s.job.Copying? ==> Marks(s.job.data) == if s.job.full then 0 else 1)
  }

  lemma CopyCounted(s: State)
    requires Inv(s, {}) && Enabled(s, CopyLine) && Counted(s)
    ensures Counted(Copy(s))
  {
    var line := LineAt(s.index, s.job.todo[0]);
    assert Tame(s.index[s.job.todo[0]], s.job.todo[0], {});
    BlankIsRead();
    hide Read, Inv;
    assert !Read(line).Appended?;
    assert [line][..0] == [];
    assert Marks([line]) == 0;
    MarksOver(s.job.data, [line]);
  }

  lemma StepCounted(s: State, e: Event)
    requires Inv(s, {}) && Enabled(s, e) && Counted(s) && !e.Failed? && !e.Gap?
    ensures Counted(Step(s, e))
  {
    hide Read, Inv, IndexOk, Header, Rebuilt, WithLine;
    match e
    case Begin(order, addresses) =>
      if s.job.full {
        HeaderMarks(true, |s.index|, addresses, 0, s.emails);
      } else {
        HeaderMarks(false, 0, addresses, s.job.saved, s.job.total);
      }
    case CopyLine => CopyCounted(s);
    case Written =>
      MarksOver(Contents(s.file), s.job.data);
    case _ =>
  }

  /** Over every run of edits, saves and restarts in which no write fails, the counter of appends is the number of
      append marks in the file, so that a restart, which counts them, changes nothing. */
  lemma {:induction false} ChangesAreMarks(s: State, events: seq<Event>)
    requires Inv(s, {}) && Counted(s) && (s.file.Some? ==> Durable(s, {}))
    requires Runs(s, events) && TameEvents(events, {})
    requires forall i :: 0 <= i < |events| ==> !events[i].Failed? && !events[i].Gap?
    ensures Counted(Run(s, events))
    ensures Restart(Run(s, events)).changes == Run(s, events).changes
    decreases |events|
  {
    hide Inv, Durable, Enabled, Step, TameEvent;
    if events == [] {
    } else {
      StepCounted(s, events[0]);
      StepKeeps(s, events[0], {});
      ChangesAreMarks(Step(s, events[0]), events[1..]);
    }
  }

  function Size(s: State): nat {
    s.emails + |s.index|
  }

  /** At most one append for 200 items, and 26 more; at most two lines for an item, a tenth more, and 500. */
  ghost predicate Small(s: State) {
    && 200 * s.changes <= Size(s) + 5000 + 200
    && 10 * s.lines <= 10 * Size(s) + Size(s) + 5000 + 10 * Size(s)
    && (match s.job
        case Idle => true
        case Chosen(full, mods, saved, total) => |mods| <= |s.index| && (!full ==> Room(s))
        case Copying(full, mods, saved, total, count, todo, data) => count <= |s.index| && (!full ==> Room(s)))
  }

  /** The file may be appended to once more. */
  ghost predicate Room(s: State) {
    200 * s.changes <= Size(s) + 5000 && 10 * s.lines <= 10 * Size(s) + Size(s) + 5000
  }

  /** The file is written anew if there is none, or it has seen too many appends or has too many lines; but not while
      quitting. */
  lemma FullSaveExactly(s: State, quitting: bool)
    ensures FullSave(s, quitting) <==> s.file.None? || (!quitting && !Room(s))
  {
    var a := s.emails + |s.index| + ITEM_COUNT_OFFSET;
    Division(a, MIN_ITEMS_PER_INCREMENT, s.changes);
    Division(a, MIN_ITEMS_PER_DUPLICATE, s.lines - (s.emails + |s.index|));
  }

  lemma Division(a: nat, b: nat, n: int)
    requires b > 0
    ensures n > a / b <==> n * b > a
  {
    var q := a / b;
    assert q * b <= a < (q + 1) * b by {
      assert a == q * b + a % b;
    }
    if n > q {
      assert n * b >= (q + 1) * b by {
        Times(q + 1, n, b);
      }
    } else {
      Times(n, q, b);
    }
  }

  lemma Times(m: int, n: int, b: nat)
    requires m <= n
    ensures m * b <= n * b
  {
    assert n * b - m * b == (n - m) * b;
  }

  lemma {:induction false} BelowCount(s: set<nat>, n: nat)
    requires forall x :: x in s ==> x < n
    ensures |s| <= n
  {
    if n == 0 {
      assert s == {};
    } else {
      BelowCount(s - {n - 1}, n - 1);
    }
  }

  lemma GrabSmall(s: State, e: Event)
    requires Inv(s, {}) && Enabled(s, e) && Small(s) && (e.SaveChanges? || e.Save?)
    requires e.SaveChanges? ==> !e.quitting
    ensures Small(Step(s, e))
  {
    assert forall pos :: pos in s.modified ==> pos in Pending(s);
    BelowCount(s.modified, |s.index|);
    if e.SaveChanges? {
      FullSaveExactly(s, false);
    }
    hide FullSave, Inv;
  }

  lemma StepSmall(s: State, e: Event)
    requires Inv(s, {}) && Enabled(s, e) && Small(s) && !e.Reload? && (e.SaveChanges? ==> !e.quitting)
    ensures Small(Step(s, e))
  {
    if e.SaveChanges? || e.Save? {
      GrabSmall(s, e);
    } else if e.Written? || e.Failed? || e.Gap? {
      EndSmall(s, e);
    } else {
      hide Read, Header, Inv;
    }
  }

  lemma EndSmall(s: State, e: Event)
    requires Inv(s, {}) && Enabled(s, e) && Small(s) && (e.Written? || e.Failed? || e.Gap?)
    ensures Small(Step(s, e))
  {
    assert s.job.Copying? ==> s.job.saved <= s.job.total <= s.emails;
    hide Inv;
  }

  /** Over every run of one process in which nobody saves while quitting, the file stays small: the counters never pass
      these bounds, whatever fails. */
  lemma {:induction false} FileStaysSmall(s: State, events: seq<Event>)
    requires Inv(s, {}) && Small(s) && (s.file.Some? ==> Durable(s, {}))
    requires Runs(s, events) && TameEvents(events, {})
    requires forall i :: 0 <= i < |events| ==>
               !events[i].Reload? && (events[i].SaveChanges? ==> !events[i].quitting)
    ensures Small(Run(s, events))
    decreases |events|
  {
    hide Inv, Durable, Enabled, Step, TameEvent;
    if events == [] {
    } else {
      StepSmall(s, events[0]);
      StepKeeps(s, events[0], {});
      FileStaysSmall(Step(s, events[0]), events[1..]);
    }
  }

  /** Both, from the very start. */
  lemma FreshRunCounts(events: seq<Event>)
    requires Runs(START, events) && TameEvents(events, {})
    ensures (forall i :: 0 <= i < |events| ==> !events[i].Failed? && !events[i].Gap?) ==>
              Restart(Run(START, events)).changes == Run(START, events).changes
    ensures (forall i :: 0 <= i < |events| ==>
               !events[i].Reload? && (events[i].SaveChanges? ==> !events[i].quitting)) ==> Small(Run(START, events))
  {
    StartIsDurable({});
    assert Small(START) && Counted(START);
    hide Inv, Durable, Run, Runs, Small, Counted, TameEvents, Restart;
    if forall i :: 0 <= i < |events| ==> !events[i].Failed? && !events[i].Gap? {
      ChangesAreMarks(START, events);
    }
    if forall i :: 0 <= i < |events| ==>
         !events[i].Reload? && (events[i].SaveChanges? ==> !events[i].quitting)
    {
      FileStaysSmall(START, events);
    }
  }
}
