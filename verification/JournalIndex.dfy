/** The metadata index as an object whose methods change it in place (mailpile/search.py:99-210,
    257-359, 1624-1652). A save runs here without anything in between; the steps are those of Journal. */
module JournalIndex {
  import opened Wrappers
  import opened Base36
  import opened IndexLines
  import opened Journal
  import opened JournalRuns
  import opened JournalSteps

  /** What becomes of the write at the end of a save. */
  datatype Outcome = Wrote | Failing(kept: nat, counted: bool) | Losing

  function AsEvent(o: Outcome): Event {
    match o
    case Wrote => Written
    case Failing(kept, counted) => Failed(kept, counted)
    case Losing => Gap
  }

  function CopyAll(s: State): (t: State)
    requires s.job.Copying?
    ensures t.job.Copying? && t.job.todo == []
    decreases |s.job.todo|
  {
    if s.job.todo == [] then s else CopyAll(Copy(s))
  }

  function Copied(index: seq<string>, todo: seq<nat>): seq<string> {
    seq(|todo|, i requires 0 <= i < |todo| => LineAt(index, todo[i]))
  }

  /** A save from its start to the write. */
  function Ready(s: State, order: seq<nat>, addresses: seq<string>): (t: State)
    requires s.job.Chosen?
    ensures t.job.Copying? && t.job.todo == []
  {
    CopyAll(Prepare(s, order, addresses))
  }

  /** The addresses that a save writes. */
  function AddressesFrom(t: State): nat
    requires t.job.Chosen?
  {
    if t.job.full then 0 else t.job.saved
  }

  /** The address lines that are written from `lo` on. */
  function Addresses(emails: seq<string>, lo: nat): seq<string>
    requires lo <= |emails|
  {
    seq(|emails| - lo, i requires 0 <= i < |emails| - lo => EmailLine(lo + i, emails[lo + i]))
  }

  lemma AddressesAreLines(emails: seq<string>, lo: nat)
    requires lo <= |emails| && forall i :: lo <= i < |emails| ==> Quoted(emails[i])
    ensures AddressLines(Addresses(emails, lo), lo, |emails|)
  {
    forall i | 0 <= i < |emails| - lo
      ensures Read(Addresses(emails, lo)[i]) == Email(lo + i, emails[lo + i])
    {
      EmailLineIsRead(lo + i, emails[lo + i]);
    }
  }

  lemma {:induction false} CopyAllIs(s: State)
    requires s.job.Copying?
    ensures CopyAll(s) == s.(job := s.job.(todo := [], data := s.job.data + Copied(s.index, s.job.todo)))
    decreases |s.job.todo|
  {
    var j := s.job;
    if j.todo == [] {
      assert j.data + Copied(s.index, j.todo) == j.data;
    } else {
      CopyAllIs(Copy(s));
      assert Copied(s.index, j.todo) == [LineAt(s.index, j.todo[0])] + Copied(s.index, j.todo[1..]);
      assert j.data + Copied(s.index, j.todo)
          == j.data + [LineAt(s.index, j.todo[0])] + Copied(s.index, j.todo[1..]);
    }
  }

  lemma FullReady(s: State, order: seq<nat>, addresses: seq<string>)
    requires s.job.Chosen? && s.job.full
    ensures Ready(s, order, addresses)
         == s.(modified := {}, emailsSaved := s.emails,
               job := Copying(true, s.job.mods + s.modified, s.job.saved, s.emails, |s.index|, [],
                              Header(true, |s.index|, addresses) + s.index))
  {
    hide Header;
    CopyAllIs(Prepare(s, order, addresses));
    assert Copied(s.index, Upto(|s.index|)) == s.index;
  }

  lemma AppendReady(s: State, order: seq<nat>, addresses: seq<string>)
    requires s.job.Chosen? && !s.job.full
    ensures Ready(s, order, addresses)
         == s.(emailsSaved := s.job.total,
               job := Copying(false, s.job.mods, s.job.saved, s.job.total, |s.job.mods|, [],
                              Header(false, 0, addresses) + Copied(s.index, order)))
  {
    hide Header;
    CopyAllIs(Prepare(s, order, addresses));
  }

  function Copies(n: nat): seq<Event> {
    if n == 0 then [] else [CopyLine] + Copies(n - 1)
  }

  lemma {:induction false} CopiesRun(s: State, last: Event)
    requires s.job.Copying? && Enabled(CopyAll(s), last)
    ensures Runs(s, Copies(|s.job.todo|) + [last])
    ensures Run(s, Copies(|s.job.todo|) + [last]) == Step(CopyAll(s), last)
    decreases |s.job.todo|
  {
    hide Read, Latest;
    var n := |s.job.todo|;
    if n == 0 {
      assert Copies(n) + [last] == [last] && [last][1..] == [];
      assert Runs(Step(s, last), []);
    } else {
      CopiesRun(Copy(s), last);
      assert Copies(n) + [last] == [CopyLine] + (Copies(n - 1) + [last]);
    }
  }

  /** A whole save is a run of single steps. */
  lemma SaveIsRun(s: State, order: seq<nat>, addresses: seq<string>, outcome: Outcome)
    requires Enabled(s, Begin(order, addresses)) && Enabled(Ready(s, order, addresses), AsEvent(outcome))
    ensures var n := |Prepare(s, order, addresses).job.todo|;
            var events := [Begin(order, addresses)] + (Copies(n) + [AsEvent(outcome)]);
            Runs(s, events) && Run(s, events) == Step(Ready(s, order, addresses), AsEvent(outcome))
  {
    hide Read, Latest;
    var t, last := Prepare(s, order, addresses), AsEvent(outcome);
    CopiesRun(t, last);
    var rest := Copies(|t.job.todo|) + [last];
    assert ([Begin(order, addresses)] + rest)[1..] == rest;
  }

  lemma {:induction false} CopiesAre(n: nat)
    ensures forall i :: 0 <= i < |Copies(n)| ==> Copies(n)[i] == CopyLine
  {
    if n == 0 {
    } else {
      CopiesAre(n - 1);
    }
  }

  lemma NoGaps(n: nat, order: seq<nat>, addresses: seq<string>, outcome: Outcome, stray: set<nat>)
    requires !outcome.Losing?
    ensures var events := [Begin(order, addresses)] + (Copies(n) + [AsEvent(outcome)]);
            (forall i :: 0 <= i < |events| ==> !events[i].Gap?) && TameEvents(events, stray)
  {
    CopiesAre(n);
  }

  /** A whole save that does not fail between the renames keeps the index durable. */
  lemma SaveIsDurable(s: State, e: Event, order: seq<nat>, addresses: seq<string>, outcome: Outcome, stray: set<nat>)
    requires Inv(s, stray) && Durable(s, stray) && s.job.Idle? && (e.Save? || e.SaveChanges?) && Step(s, e).job.Chosen?
    requires Enabled(Step(s, e), Begin(order, addresses)) && !outcome.Losing?
    requires Enabled(Ready(Step(s, e), order, addresses), AsEvent(outcome))
    ensures var t := Step(Ready(Step(s, e), order, addresses), AsEvent(outcome)); Inv(t, stray) && Durable(t, stray)
  {
    var g := Step(s, e);
    StepKeeps(s, e, stray);
    SaveIsRun(g, order, addresses, outcome);
    var n := |Prepare(g, order, addresses).job.todo|;
    NoGaps(n, order, addresses, outcome, stray);
    hide *;
    RunIsDurable(g, [Begin(order, addresses)] + (Copies(n) + [AsEvent(outcome)]), stray);
  }

  ghost predicate AllQuoted(emails: seq<string>) {
    forall i :: 0 <= i < |emails| ==> Quoted(emails[i])
  }

  /** Addresses are ready to be written, and loading the file now loses only what is pending or at a stray
      position. */
  ghost predicate Sound(s: State, emails: seq<string>, stray: set<nat>) {
    Inv(s, stray) && Durable(s, stray) && s.job.Idle? && s.emails == |emails| && AllQuoted(emails)
  }

  lemma FullSaveIsDurable(s: State, emails: seq<string>, outcome: Outcome, stray: set<nat>)
    requires Sound(s, emails, stray) && !outcome.Losing?
    requires Enabled(Ready(GrabAll(s), [], Addresses(emails, 0)), AsEvent(outcome))
    ensures Sound(Step(Ready(GrabAll(s), [], Addresses(emails, 0)), AsEvent(outcome)), emails, stray)
  {
    AddressesAreLines(emails, 0);
    FullReady(GrabAll(s), [], Addresses(emails, 0));
    hide Inv, Durable, Ready, AddressLines, Addresses, AllQuoted, Header;
    assert Step(s, Save) == GrabAll(s);
    SaveIsDurable(s, Save, [], Addresses(emails, 0), outcome, stray);
  }

  lemma ChangesSaveIsDurable(s: State, emails: seq<string>, order: seq<nat>, quitting: bool, outcome: Outcome,
                             stray: set<nat>)
    requires Sound(s, emails, stray) && !outcome.Losing?
    requires var t := Grab(s, quitting);
             t.job.Chosen? && Enabled(Ready(t, order, Addresses(emails, AddressesFrom(t))), AsEvent(outcome))
    requires Lists(order, s.modified)
    ensures var t := Grab(s, quitting);
            Sound(Step(Ready(t, order, Addresses(emails, AddressesFrom(t))), AsEvent(outcome)), emails, stray)
  {
    var t := Grab(s, quitting);
    var addresses := Addresses(emails, AddressesFrom(t));
    AddressesAreLines(emails, AddressesFrom(t));
    ReadyShape(t, order, addresses, outcome);
    hide Inv, Durable, Ready, AddressLines, Addresses, AllQuoted, FullSave, Lists, Fail, Write, Lose;
    assert Step(s, SaveChanges(quitting)) == t;
    SaveIsDurable(s, SaveChanges(quitting), order, addresses, outcome, stray);
  }

  lemma ReadyShape(t: State, order: seq<nat>, addresses: seq<string>, outcome: Outcome)
    requires t.job.Chosen? && Enabled(Ready(t, order, addresses), AsEvent(outcome))
    ensures var u := Step(Ready(t, order, addresses), AsEvent(outcome)); u.job.Idle? && u.emails == t.emails
  {
    if t.job.full {
      FullReady(t, order, addresses);
    } else {
      AppendReady(t, order, addresses);
    }
    hide Ready, Header;
  }

  /** What a full save leaves, whatever becomes of it. */
  lemma FullOutcome(s: State, addresses: seq<string>, outcome: Outcome)
    requires s.job.Idle? && Enabled(Ready(GrabAll(s), [], addresses), AsEvent(outcome))
    ensures var counted := outcome.Wrote? || (outcome.Failing? && outcome.counted);
            Step(Ready(GrabAll(s), [], addresses), AsEvent(outcome))
            == State(s.index, if outcome.Wrote? then {} else {} + s.modified, s.emails,
                     if outcome.Wrote? then s.emails else s.emailsSaved, if counted then 0 else s.changes,
                     if counted then s.emails + |s.index| else s.lines,
                     if outcome.Wrote? || (outcome.Failing? && outcome.kept > 0)
                     then Some(Header(true, |s.index|, addresses) + s.index)
                     else if outcome.Losing? then None else s.file, Idle)
  {
    hide Header;
    FullReady(GrabAll(s), [], addresses);
    hide Ready;
  }

  /** What an append leaves. */
  lemma AppendOutcome(s: State, mods: set<nat>, order: seq<nat>, addresses: seq<string>, outcome: Outcome)
    requires s.job.Idle? && s.modified == {}
    requires Enabled(Ready(s.(job := Chosen(false, mods, s.emailsSaved, s.emails)), order, addresses), AsEvent(outcome))
    ensures !outcome.Losing?
    ensures var counted := outcome.Wrote? || outcome.counted;
            var data := Header(false, 0, addresses) + Copied(s.index, order);
            && (outcome.Failing? ==> outcome.kept <= |data|)
            && Step(Ready(s.(job := Chosen(false, mods, s.emailsSaved, s.emails)), order, addresses), AsEvent(outcome))
               == State(s.index, if outcome.Wrote? then {} else {} + mods, s.emails,
                        if outcome.Wrote? then s.emails else s.emailsSaved,
                        if counted then s.changes + 1 else s.changes,
                        if counted then s.lines + s.emails - s.emailsSaved + |mods| else s.lines,
                        if outcome.Wrote? then Some(Contents(s.file) + data)
                        else if outcome.kept > 0 then Some(Contents(s.file) + data[..outcome.kept]) else s.file, Idle)
  {
    hide Header;
    AppendReady(s.(job := Chosen(false, mods, s.emailsSaved, s.emails)), order, addresses);
    hide Ready, Copied;
  }

  /** The index and the number of addresses with what one more line says. */
  function WithEntry(index: seq<string>, e: Entry): seq<string> {
    match e
    case Meta(pos, line) => WithLine(index, pos, line)
    case _ => index
  }

  function CountWith(count: nat, e: Entry): nat {
    match e
    case Email(eid, _) => if eid < count then count else eid + 1
    case _ => count
  }

  /** The file with one more line. */
  lemma RebuiltMore(lines: seq<string>, raw: string)
    ensures Rebuilt(lines + [raw]) == WithEntry(Rebuilt(lines), Read(raw))
  {
    var more := lines + [raw];
    assert more[..|more| - 1] == lines;
    var a, b := Rebuilt(lines), Rebuilt(more);
    match Read(raw)
    case Meta(p, line) =>
      PadLength(a, p);
      assert |b| == |WithLine(a, p, line)|;
      forall i | 0 <= i < |b|
        ensures b[i] == WithLine(a, p, line)[i]
      {
        hide Read, WithLine;
        LatestLast(lines, raw, i);
        RebuiltSays(lines);
        assert LineAt(WithLine(a, p, line), i) == if i == p then line else LineAt(a, i);
      }
    case _ =>
      assert |a| == |b|;
      forall i | 0 <= i < |b|
        ensures b[i] == a[i]
      {
        LatestLast(lines, raw, i);
      }
  }

  /** What one more line adds to what a file says. */
  lemma OneMoreLine(lines: seq<string>, raw: string)
    ensures Rebuilt(lines + [raw]) == WithEntry(Rebuilt(lines), Read(raw))
    ensures EmailCount(lines + [raw]) == CountWith(EmailCount(lines), Read(raw))
    ensures Marks(lines + [raw]) == Marks(lines) + (if Read(raw).Appended? then 1 else 0)
    ensures Items(lines + [raw]) == Items(lines) + (if Read(raw).Meta? || Read(raw).Email? then 1 else 0)
  {
    RebuiltMore(lines, raw);
    hide Read, Rebuilt, WithLine;
    assert (lines + [raw])[..|lines|] == lines;
  }

  lemma {:induction false} PadLength(index: seq<string>, pos: nat)
    ensures |Pad(index, pos)| == if |index| > pos then |index| else pos + 1
    decreases pos + 1 - |index|
  {
    if |index| <= pos {
      PadLength(index + [""], pos);
    }
  }

  /** The record of a message that is known by its number only. */
  function GhostFields(pos: nat, tags: string): (fields: seq<string>)
    ensures |fields| == FIELDS && fields[0] == fields[FIELDS - 1] == Digits(pos)
    ensures fields[8] == "(missing message)" && fields[10] == tags && fields[11] == ""
  {
    [Digits(pos), "", Digits(pos), "1", "", "", "", "0", "(missing message)", "{G}", tags, "", Digits(pos)]
  }

  lemma GhostIsRecord(pos: nat, tags: string)
    ensures Record(GhostFields(pos, tags), pos)
  {
    var d := Digits(pos);
    DigitsAreDigits(pos);
    assert d[|d| - 1] in d;
  }

  lemma GhostKeeps(s: State, emails: seq<string>, tags: string, stray: set<nat>)
    requires s.job.Idle?
    ensures Sound(s, emails, stray) ==> Sound(Edited(s, |s.index|, GhostFields(|s.index|, tags)), emails, stray)
  {
    var pos := |s.index|;
    GhostIsRecord(pos, tags);
    RecordIsCanonical(GhostFields(pos, tags), pos);
    hide Inv, Durable, ToLine, GhostFields, Canonical, AllQuoted;
    if Sound(s, emails, stray) {
      SetMsgKeeps(s, pos, GhostFields(pos, tags), stray);
    }
  }

  lemma WithLineAtEnd(index: seq<string>, line: string)
    ensures WithLine(index, |index|, line) == index + [line]
  {
    assert Pad(index, |index|) == Pad(index + [""], |index|) == index + [""];
    assert (index + [""])[|index| := line] == index + [line];
  }

  /** `save_changes` by way of a full save, which has nothing left to roll back itself. */
  lemma FullBranch(s: State, order: seq<nat>, quitting: bool, addresses: seq<string>, outcome: Outcome)
    requires s.job.Idle? && Grab(s, quitting).job.Chosen? && Grab(s, quitting).job.full
    requires Enabled(Ready(Grab(s, quitting), order, addresses), AsEvent(outcome))
    ensures Enabled(Ready(GrabAll(s.(modified := {})), [], addresses), AsEvent(outcome))
    ensures var t := Step(Ready(GrabAll(s.(modified := {})), [], addresses), AsEvent(outcome));
            Step(Ready(Grab(s, quitting), order, addresses), AsEvent(outcome))
            == if outcome.Wrote? then t else t.(modified := t.modified + s.modified, emailsSaved := s.emailsSaved)
  {
    hide Header, FullSave;
    FullReady(GrabAll(s.(modified := {})), [], addresses);
    FullReady(Grab(s, quitting), order, addresses);
    hide Ready;
  }

  // --- Addresses -------------------------------------------------------------

  /** The last line for an address wins. */
  function LatestEmail(lines: seq<string>, eid: nat): Option<string> {
    if lines == [] then None
    else
      var n := |lines| - 1;
      match Read(lines[n])
      case Email(e, quoted) => if e == eid then Some(quoted) else LatestEmail(lines[..n], eid)
      case _ => LatestEmail(lines[..n], eid)
  }

  /** All addresses that a file has; those in between that it does not have are blank. */
  function LoadedEmails(lines: seq<string>): seq<string> {
    seq(EmailCount(lines), eid requires 0 <= eid < EmailCount(lines) => Text(LatestEmail(lines, eid)))
  }

  function WithAddress(emails: seq<string>, e: Entry): seq<string> {
    match e
    case Email(eid, quoted) => WithLine(emails, eid, quoted)
    case _ => emails
  }

  lemma EmailLast(lines: seq<string>, raw: string, eid: nat)
    ensures LatestEmail(lines + [raw], eid) ==
            if Read(raw).Email? && Read(raw).eid == eid then Some(Read(raw).quoted) else LatestEmail(lines, eid)
  {
    hide Read;
    assert (lines + [raw])[..|lines|] == lines;
  }

  lemma {:induction false} EmailBelowCount(lines: seq<string>, eid: nat)
    requires LatestEmail(lines, eid).Some?
    ensures eid < EmailCount(lines)
  {
    hide Read;
    var n := |lines| - 1;
    if !(Read(lines[n]).Email? && Read(lines[n]).eid == eid) {
      EmailBelowCount(lines[..n], eid);
    }
  }

  lemma LoadedEmailAt(lines: seq<string>, eid: nat)
    ensures LineAt(LoadedEmails(lines), eid) == Text(LatestEmail(lines, eid))
  {
    if LatestEmail(lines, eid).Some? {
      EmailBelowCount(lines, eid);
    }
    hide EmailCount, LatestEmail;
  }

  lemma OneMoreAddress(lines: seq<string>, raw: string)
    ensures LoadedEmails(lines + [raw]) == WithAddress(LoadedEmails(lines), Read(raw))
  {
    var more := lines + [raw];
    assert more[..|lines|] == lines;
    var a, b := LoadedEmails(lines), LoadedEmails(more);
    match Read(raw)
    case Email(e, quoted) =>
      PadLength(a, e);
      assert |b| == |WithLine(a, e, quoted)|;
      forall i | 0 <= i < |b|
        ensures b[i] == WithLine(a, e, quoted)[i]
      {
        hide Read, WithLine, LatestEmail, EmailCount;
        EmailLast(lines, raw, i);
        LoadedEmailAt(lines, i);
        assert LineAt(WithLine(a, e, quoted), i) == if i == e then quoted else LineAt(a, i);
      }
    case _ =>
      assert |a| == |b|;
      forall i | 0 <= i < |b|
        ensures b[i] == a[i]
      {
        hide Read, LatestEmail, EmailCount;
        EmailLast(lines, raw, i);
      }
  }

  lemma {:induction false} NoAddresses(lines: seq<string>, more: seq<string>)
    requires forall i :: 0 <= i < |more| ==> !Read(more[i]).Email?
    ensures LoadedEmails(lines + more) == LoadedEmails(lines)
  {
    hide Read, LoadedEmails;
    if more == [] {
      assert lines + more == lines;
    } else {
      var n := |more| - 1;
      NoAddresses(lines, more[..n]);
      OneMoreAddress(lines + more[..n], more[n]);
      assert lines + more[..n] + [more[n]] == lines + more;
    }
  }

  /** Reading the address lines from number `lo` on, after a file that has the first `lo` addresses. */
  lemma {:induction false} AddressesAreLoaded(lines: seq<string>, emails: seq<string>, lo: nat, n: nat)
    requires lo <= n <= |emails| && LoadedEmails(lines) == emails[..lo]
    requires forall i :: lo <= i < |emails| ==> Quoted(emails[i])
    ensures LoadedEmails(lines + Addresses(emails, lo)[..n - lo]) == emails[..n]
  {
    hide Read, LoadedEmails, EmailLine, Quoted;
    var all := Addresses(emails, lo);
    if n == lo {
      assert lines + all[..0] == lines;
    } else {
      AddressesAreLoaded(lines, emails, lo, n - 1);
      var part, last := all[..n - 1 - lo], all[n - 1 - lo];
      assert all[..n - lo] == part + [last];
      assert lines + part + [last] == lines + all[..n - lo];
      OneMoreAddress(lines + part, last);
      EmailLineIsRead(n - 1, emails[n - 1]);
      AddressAppended(emails[..n - 1], emails[n - 1]);
      assert emails[..n] == emails[..n - 1] + [emails[n - 1]];
    }
  }

  lemma AddressAppended(emails: seq<string>, quoted: string)
    ensures WithLine(emails, |emails|, quoted) == emails + [quoted]
  {
    WithLineAtEnd(emails, quoted);
  }

  /** Loading what a save has written gives all addresses: after a full save, and after an append to a file that had
      the first ones. */
  lemma SavedAddressesAreLoaded(lines: seq<string>, full: bool, count: nat, emails: seq<string>, saved: nat,
                                copied: seq<string>)
    requires saved <= |emails| && AllQuoted(emails) && forall i :: 0 <= i < |copied| ==> !Read(copied[i]).Email?
    requires if full then lines == [] && saved == 0 else LoadedEmails(lines) == emails[..saved]
    ensures LoadedEmails(lines + (Header(full, count, Addresses(emails, saved)) + copied)) == emails
  {
    var comments, addresses := Comments(full, count), Addresses(emails, saved);
    CommentsHaveNone(full, count);
    NothingLoaded();
    assert full ==> emails[..0] == [];
    assert Header(full, count, addresses) == comments + addresses;
    hide Read, LoadedEmails, Comments, Addresses, Header;
    NoAddresses(lines, comments);
    AddressesAreLoaded(lines + comments, emails, saved, |emails|);
    assert addresses[..|emails| - saved] == addresses && emails[..|emails|] == emails;
    NoAddresses(lines + comments + addresses, copied);
    Regroup(lines, comments, addresses, copied);
  }

  lemma Regroup(a: seq<string>, b: seq<string>, c: seq<string>, d: seq<string>)
    ensures a + b + c + d == a + (b + c + d)
  {
  }

  lemma CommentsHaveNone(full: bool, count: nat)
    ensures forall i :: 0 <= i < |Comments(full, count)| ==> !Read(Comments(full, count)[i]).Email?
  {
    hide Read, CountNote;
    CommentIsRead(" This is the mailpile.py index file.");
    CommentIsRead(CountNote(count));
    CommentIsRead(APPEND_MARK);
  }

  lemma NothingLoaded()
    ensures Rebuilt([]) == [] && EmailCount([]) == Marks([]) == Items([]) == 0 && LoadedEmails([]) == []
  {
  }

  lemma FreshRestart(file: Option<seq<string>>)
    ensures var s := Restart(START.(file := file)); Inv(s, {}) && Durable(s, {})
  {
    RebuiltSays(Contents(file));
  }

  /** A list with blanks appended until it has the given position. */
  method Padded(list: seq<string>, pos: nat) returns (out: seq<string>)
    ensures out == Pad(list, pos)
    ensures |out| == if |list| > pos then |list| else pos + 1
  {
    out := list;
    while |out| <= pos
      invariant Pad(out, pos) == Pad(list, pos)
      decreases pos + 1 - |out|
    {
      out := out + [""];
    }
    PadLength(list, pos);
  }

  class MetadataIndex {
    var INDEX: seq<string>
    var MODIFIED: set<nat>
    var EMAILS: seq<string>
    var EMAILS_SAVED: nat
    var savedChanges: nat
    var savedLines: int
    var file: Option<seq<string>>

    ghost function View(): State
      reads this
    {
      State(INDEX, MODIFIED, |EMAILS|, EMAILS_SAVED, savedChanges, savedLines, file, Idle)
    }

    /** A new process, before it loads what is on the disk. */
    constructor (disk: Option<seq<string>>)
      ensures View() == START.(file := disk)
    {
      INDEX, MODIFIED, EMAILS, EMAILS_SAVED := [], {}, [], 0;
      savedChanges, savedLines, file := 0, 0, disk;
    }

    method SetMsgAtIdxPos(pos: nat, fields: seq<string>)
      requires fields != []
      modifies this
      ensures View() == Edited(old(View()), pos, fields) && EMAILS == old(EMAILS)
    {
      var padded := Padded(INDEX, pos);
      INDEX := padded[pos := ToLine(fields)];
      MODIFIED := MODIFIED + {pos};
    }

    /** A new address; it is quoted when it is written, and kept here in that form. */
    method AddEmail(quoted: string) returns (eid: nat)
      modifies this`EMAILS
      ensures eid == |old(EMAILS)| && EMAILS == old(EMAILS) + [quoted]
      ensures View() == Step(old(View()), Event.AddEmail)
    {
      eid := |EMAILS|;
      EMAILS := EMAILS + [quoted];
    }

    /** Loading starts from nothing and ends with what the lines say. */
    method Load()
      modifies this
      ensures INDEX == Rebuilt(Contents(file)) && file == old(file)
      ensures |EMAILS| == EMAILS_SAVED == EmailCount(Contents(file)) && EMAILS == LoadedEmails(Contents(file))
      ensures MODIFIED == old(MODIFIED) && savedChanges == old(savedChanges) + Marks(Contents(file))
      ensures savedLines == old(savedLines) + Items(Contents(file))
      ensures old(View()) == START.(file := file) ==>
                View() == Restart(old(View())) && Inv(View(), {}) && Durable(View(), {})
    {
      hide Read, Inv, Durable, Rebuilt, EmailCount, LoadedEmails, Marks, Items, WithLine;
      if View() == START.(file := file) {
        FreshRestart(file);
      }
      var lines := Contents(file);
      INDEX, EMAILS := [], [];
      NothingLoaded();
      var i := 0;
      while i < |lines|
        invariant 0 <= i <= |lines| && file == old(file) && MODIFIED == old(MODIFIED)
        invariant INDEX == Rebuilt(lines[..i])
        invariant |EMAILS| == EmailCount(lines[..i]) && EMAILS == LoadedEmails(lines[..i])
        invariant savedChanges == old(savedChanges) + Marks(lines[..i])
        invariant savedLines == old(savedLines) + Items(lines[..i])
        decreases |lines| - i
      {
        assert lines[..i + 1] == lines[..i] + [lines[i]];
        OneMoreLine(lines[..i], lines[i]);
        OneMoreAddress(lines[..i], lines[i]);
        LoadLine(lines[i]);
        i := i + 1;
      }
      assert lines[..i] == lines;
      EMAILS_SAVED := |EMAILS|;
    }

    /** One line of the file. */
    method LoadLine(raw: string)
      modifies this
      ensures file == old(file) && MODIFIED == old(MODIFIED)
      ensures INDEX == WithEntry(old(INDEX), Read(raw)) && |EMAILS| == CountWith(|old(EMAILS)|, Read(raw))
      ensures EMAILS == WithAddress(old(EMAILS), Read(raw))
      ensures savedChanges == old(savedChanges) + (if Read(raw).Appended? then 1 else 0)
      ensures savedLines == old(savedLines) + (if Read(raw).Meta? || Read(raw).Email? then 1 else 0)
    {
      hide Read;
      match Read(raw) {
        case Appended =>
          savedChanges := savedChanges + 1;
        case Email(eid, quoted) =>
          var padded := Padded(EMAILS, eid);
          EMAILS := padded[eid := quoted];
          savedLines := savedLines + 1;
        case Meta(pos, line) =>
          var padded := Padded(INDEX, pos);
          INDEX := padded[pos := line];
          savedLines := savedLines + 1;
        case _ =>
      }
    }

    /** After loading: messages that the posting list knows of, up to `max`, but the index does not, get the
        records of missing messages. */
    method AddGhosts(max: nat, tags: string, ghost stray: set<nat>)
      modifies this
      ensures |INDEX| == if max > 0 && max >= |old(INDEX)| then max + 1 else |old(INDEX)|
      ensures forall pos :: 0 <= pos < |INDEX| ==>
                INDEX[pos] == if pos < |old(INDEX)| then old(INDEX)[pos] else ToLine(GhostFields(pos, tags))
      ensures forall pos: nat :: pos in MODIFIED <==> pos in old(MODIFIED) || |old(INDEX)| <= pos < |INDEX|
      ensures EMAILS == old(EMAILS) && file == old(file)
      ensures old(Sound(View(), EMAILS, stray)) ==> Sound(View(), EMAILS, stray)
    {
      hide ToLine, GhostFields, Sound;
      if max == 0 || max < |INDEX| {
        return;
      }
      while |INDEX| <= max
        invariant |old(INDEX)| <= |INDEX| <= max + 1
        invariant forall pos :: 0 <= pos < |INDEX| ==>
                    INDEX[pos] == if pos < |old(INDEX)| then old(INDEX)[pos] else ToLine(GhostFields(pos, tags))
        invariant forall pos: nat :: pos in MODIFIED <==> pos in old(MODIFIED) || |old(INDEX)| <= pos < |INDEX|
        invariant EMAILS == old(EMAILS) && file == old(file)
        invariant old(Sound(View(), EMAILS, stray)) ==> Sound(View(), EMAILS, stray)
      {
        WithLineAtEnd(INDEX, ToLine(GhostFields(|INDEX|, tags)));
        GhostKeeps(View(), EMAILS, tags, stray);
        SetMsgAtIdxPos(|INDEX|, GhostFields(|INDEX|, tags));
      }
    }

    method FullData() returns (data: seq<string>)
      ensures data == Header(true, |INDEX|, Addresses(EMAILS, 0)) + INDEX
    {
      data := Comments(true, |INDEX|);
      for eid := 0 to |EMAILS|
        invariant data == Comments(true, |INDEX|) + Addresses(EMAILS, 0)[..eid]
      {
        data := data + [EmailLine(eid, EMAILS[eid])];
      }
      assert data == Header(true, |INDEX|, Addresses(EMAILS, 0));
      ghost var head := data;
      for i := 0 to |INDEX|
        invariant data == head + INDEX[..i]
      {
        data := data + [INDEX[i]];
      }
      assert INDEX[..|INDEX|] == INDEX;
    }

    method AppendData(order: seq<nat>, saved: nat) returns (data: seq<string>)
      requires saved <= |EMAILS| && forall i :: 0 <= i < |order| ==> order[i] < |INDEX|
      ensures data == Header(false, 0, Addresses(EMAILS, saved)) + Copied(INDEX, order)
    {
      data := Comments(false, 0);
      for eid := saved to |EMAILS|
        invariant data == Comments(false, 0) + Addresses(EMAILS, saved)[..eid - saved]
      {
        data := data + [EmailLine(eid, EMAILS[eid])];
      }
      assert data == Header(false, 0, Addresses(EMAILS, saved));
      ghost var head := data;
      for i := 0 to |order|
        invariant data == head + Copied(INDEX, order)[..i]
      {
        data := data + [INDEX[order[i]]];
      }
      assert Copied(INDEX, order)[..|order|] == Copied(INDEX, order);
    }

    /** A full save. `outcome` is what becomes of the write; false stands for the exception. */
    method Save(outcome: Outcome, ghost stray: set<nat>) returns (ok: bool)
      requires EMAILS_SAVED <= |EMAILS|
      requires Enabled(Ready(GrabAll(View()), [], Addresses(EMAILS, 0)), AsEvent(outcome))
      modifies this
      ensures View() == Step(Ready(GrabAll(old(View())), [], Addresses(old(EMAILS), 0)), AsEvent(outcome))
      ensures EMAILS == old(EMAILS) && ok == outcome.Wrote?
      ensures MODIFIED == if ok then {} else old(MODIFIED)
      ensures EMAILS_SAVED == if ok then |EMAILS| else old(EMAILS_SAVED)
      ensures INDEX == old(INDEX)
      ensures old(Sound(View(), EMAILS, stray)) && !outcome.Losing? ==> Sound(View(), EMAILS, stray)
    {
      hide Read, Latest, Ready, Header, Sound;
      if Sound(View(), EMAILS, stray) && !outcome.Losing? {
        FullSaveIsDurable(View(), EMAILS, outcome, stray);
      }
      FullOutcome(View(), Addresses(EMAILS, 0), outcome);
      hide Step, Enabled;
      var oldMods, oldSaved := MODIFIED, EMAILS_SAVED;
      MODIFIED, EMAILS_SAVED := {}, |EMAILS|;
      var data := FullData();
      ok := outcome.Wrote?;
      if ok || (outcome.Failing? && outcome.counted) {
        savedChanges, savedLines := 0, |EMAILS| + |INDEX|;
      }
      if ok || (outcome.Failing? && outcome.kept > 0) {
        file := Some(data);
      } else if outcome.Losing? {
        file := None;
      }
      if !ok {
        MODIFIED, EMAILS_SAVED := MODIFIED + oldMods, oldSaved;
      }
    }

    /** The branch that appends to the file. */
    method AppendChanges(mods: set<nat>, order: seq<nat>, outcome: Outcome) returns (ok: bool)
      requires EMAILS_SAVED <= |EMAILS| && MODIFIED == {} && forall i :: 0 <= i < |order| ==> order[i] < |INDEX|
      requires Enabled(Ready(View().(job := Chosen(false, mods, EMAILS_SAVED, |EMAILS|)), order,
                             Addresses(EMAILS, EMAILS_SAVED)), AsEvent(outcome))
      modifies this
      ensures View() == Step(Ready(old(View()).(job := Chosen(false, mods, old(EMAILS_SAVED), |old(EMAILS)|)), order,
                                   Addresses(old(EMAILS), old(EMAILS_SAVED))), AsEvent(outcome))
      ensures EMAILS == old(EMAILS) && INDEX == old(INDEX) && ok == outcome.Wrote?
      ensures MODIFIED == (if ok then {} else mods) && EMAILS_SAVED == if ok then |EMAILS| else old(EMAILS_SAVED)
    {
      hide Read, Latest, Ready, Header;
      AppendOutcome(View(), mods, order, Addresses(EMAILS, EMAILS_SAVED), outcome);
      hide Step, Enabled;
      var oldSaved, total := EMAILS_SAVED, |EMAILS|;
      EMAILS_SAVED := total;
      var data := AppendData(order, oldSaved);
      ok := outcome.Wrote?;
      if ok || outcome.counted {
        savedChanges, savedLines := savedChanges + 1, savedLines + total - oldSaved + |mods|;
      }
      if ok || outcome.kept > 0 {
        file := Some(Contents(file) + (if ok then data else data[..outcome.kept]));
      }
      if !ok {
        MODIFIED, EMAILS_SAVED := MODIFIED + mods, oldSaved;
      }
    }

    method NeedsFullSave(quitting: bool) returns (full: bool)
      ensures full == FullSave(View(), quitting)
    {
      var items := |EMAILS| + |INDEX|;
      full := file.None? || ((savedChanges > (items + ITEM_COUNT_OFFSET) / MIN_ITEMS_PER_INCREMENT
                              || savedLines > items + (items + ITEM_COUNT_OFFSET) / MIN_ITEMS_PER_DUPLICATE)
                             && !quitting);
    }

    /** Saving what was changed; `order` is the order in which the set of changed positions is walked. */
    method SaveChanges(order: seq<nat>, quitting: bool, outcome: Outcome, ghost stray: set<nat>) returns (ok: bool)
      requires EMAILS_SAVED <= |EMAILS|
      requires Lists(order, MODIFIED) && forall i :: 0 <= i < |order| ==> order[i] < |INDEX|
      requires var t := Grab(View(), quitting);
               t.job.Chosen? ==> Enabled(Ready(t, order, Addresses(EMAILS, AddressesFrom(t))), AsEvent(outcome))
      modifies this
      ensures var t := Grab(old(View()), quitting);
              View() == if t.job.Idle? then t
                        else Step(Ready(t, order, Addresses(old(EMAILS), AddressesFrom(t))), AsEvent(outcome))
      ensures EMAILS == old(EMAILS) && INDEX == old(INDEX)
      ensures MODIFIED == if ok then {} else old(MODIFIED)
      ensures EMAILS_SAVED == if ok then |EMAILS| else old(EMAILS_SAVED)
      ensures old(MODIFIED) == {} && old(EMAILS_SAVED) == |EMAILS| ==> ok && file == old(file)
      ensures old(Sound(View(), EMAILS, stray)) && !outcome.Losing? ==> Sound(View(), EMAILS, stray)
    {
      hide Read, Latest, Ready, Header, FullSave, Sound, Addresses, Lists, Lose, Fail, Write;
      ghost var t := Grab(View(), quitting);
      if t.job.Chosen? && Sound(View(), EMAILS, stray) && !outcome.Losing? {
        ChangesSaveIsDurable(View(), EMAILS, order, quitting, outcome, stray);
      }
      var mods, oldSaved, total := MODIFIED, EMAILS_SAVED, |EMAILS|;
      if oldSaved == total && mods == {} {
        return true;
      }
      var full := NeedsFullSave(quitting);
      MODIFIED := {};
      if full {
        FullBranch(old(View()), order, quitting, Addresses(EMAILS, 0), outcome);
        ok := Save(outcome, stray);
        if !ok {
          MODIFIED, EMAILS_SAVED := MODIFIED + mods, oldSaved;
        }
        return;
      }
      ok := AppendChanges(mods, order, outcome);
    }
  }
}
