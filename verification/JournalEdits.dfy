/** When an edit of the metadata index survives a save and a restart (mailpile/search.py:77-157, 1624-1652). */
module JournalEdits {
  import opened Wrappers
  import opened IndexLines
  import opened Journal
  import opened JournalIndex
  import opened JournalRuns
  import opened JournalSteps
  import Tags

  /** Nothing in between touches the position, or throws away what is in memory. */
  predicate Spares(events: seq<Event>, pos: nat) {
    forall i :: 0 <= i < |events| ==>
      !events[i].Gap? && !events[i].Reload? && (events[i].SetMsg? ==> events[i].pos != pos)
  }

  lemma SparedStep(s: State, e: Event, pos: nat)
    requires Enabled(s, e) && !e.Reload? && (e.SetMsg? ==> e.pos != pos)
    ensures LineAt(Step(s, e).index, pos) == LineAt(s.index, pos)
  {
    hide ToLine;
  }

  lemma {:induction false} SparedRun(s: State, events: seq<Event>, pos: nat)
    requires Runs(s, events) && Spares(events, pos)
    ensures LineAt(Run(s, events).index, pos) == LineAt(s.index, pos)
    decreases |events|
  {
    hide Step, Enabled;
    if events == [] {
      assert Run(s, events) == s;
    } else {
      SparedStep(s, events[0], pos);
      SparedRun(Step(s, events[0]), events[1..], pos);
    }
  }

  /** The position holds the stored line after the edit, any run that leaves the position saved, and a restart. */
  ghost predicate ReadBack(s: State, pos: nat, fields: seq<string>, events: seq<Event>)
    requires fields != [] && Runs(Edited(s, pos, fields), events)
  {
    LineAt(Restart(Run(Edited(s, pos, fields), events)).index, pos) == ToLine(fields)
  }

  /** It does so if and only if the record fits its position, by its MID and its thread column; as long as no
      other record that does not fit its own position names this one. */
  lemma ReadBackExactly(s: State, pos: nat, fields: seq<string>, events: seq<Event>, stray: set<nat>)
    requires Inv(s, stray) && Durable(s, stray) && |fields| == FIELDS && pos !in stray && TameEvents(events, stray)
    requires Runs(Edited(s, pos, fields), events) && Spares(events, pos)
    requires Run(Edited(s, pos, fields), events).job.Idle? && pos !in Run(Edited(s, pos, fields), events).modified
    ensures ReadBack(s, pos, fields, events) <==> Fits(fields, pos)
  {
    var t := Edited(s, pos, fields);
    var u := Run(t, events);
    RebuiltSays(Contents(u.file));
    CanonicalExactly(fields, pos);
    LineIsLong(fields);
    SparedRun(t, events, pos);
    hide Read, Latest, EmailCount, Rebuilt, Run, Runs, ToLine, Fits, IndexOk, JobOk;
    if Fits(fields, pos) {
      SetMsgKeeps(s, pos, fields, stray);
      RunIsDurable(t, events, stray);
    } else if ReadBack(s, pos, fields, events) {
      LoadedIsCanonical(u.file, pos);
    }
  }

  lemma LoadedIsCanonical(file: Option<seq<string>>, pos: nat)
    ensures var line := LineAt(Rebuilt(Contents(file)), pos); line == "" || Canonical(line, pos)
  {
    RebuiltSays(Contents(file));
    hide Latest, Canonical;
  }

  /** The steps of a full save that succeeds. */
  function SaveSteps(t: State, addresses: seq<string>): seq<Event> {
    [Save] + ([Begin([], addresses)] + (Copies(|t.index|) + [Written]))
  }

  lemma SaveStepsRun(t: State, addresses: seq<string>)
    requires t.job.Idle? && AddressLines(addresses, 0, t.emails)
    ensures var u := Write(Ready(GrabAll(t), [], addresses));
            && Runs(t, SaveSteps(t, addresses)) && Run(t, SaveSteps(t, addresses)) == u
            && u.job.Idle? && u.modified == {}
  {
    var g := GrabAll(t);
    hide Header, AddressLines, Ready, Copies, Run, Runs;
    FullReady(g, [], addresses);
    SaveIsRun(g, [], addresses, Wrote);
    RunCons(t, Save, [Begin([], addresses)] + (Copies(|t.index|) + [Written]));
  }

  lemma SaveStepsSpare(t: State, addresses: seq<string>, pos: nat, stray: set<nat>)
    ensures Spares(SaveSteps(t, addresses), pos) && TameEvents(SaveSteps(t, addresses), stray)
  {
    CopiesAre(|t.index|);
  }

  /** In particular after a full save at once. */
  lemma SavedIsReadBackExactly(s: State, pos: nat, fields: seq<string>, addresses: seq<string>, stray: set<nat>)
    requires Inv(s, stray) && Durable(s, stray) && s.job.Idle? && |fields| == FIELDS && pos !in stray
    requires AddressLines(addresses, 0, s.emails)
    ensures var t := Write(Ready(GrabAll(Edited(s, pos, fields)), [], addresses));
            LineAt(Restart(t).index, pos) == ToLine(fields) <==> Fits(fields, pos)
  {
    var t := Edited(s, pos, fields);
    hide ToLine, Fits, Inv, Durable, AddressLines, SaveSteps, Spares, Run, Runs, Ready, Restart;
    SaveStepsRun(t, addresses);
    SaveStepsSpare(t, addresses, pos, stray);
    ReadBackExactly(s, pos, fields, SaveSteps(t, addresses), stray);
  }

  /** The record that is written when a position without one is tagged: bogus metadata with a tag. */
  function TaggedBogus(tag: string): seq<string> {
    ["None", "", "None", "0", "(no sender)", "", "", "0", "(not in index)", "", tag, "", "-1"]
  }

  /** Such a tag is lost: only at one position in the whole index does the record fit. */
  lemma TaggedBogusFits(tag: string, pos: nat)
    ensures Fits(TaggedBogus(tag), pos) <==> pos == Tags.NONE_MID
  {
    Tags.NoneIsAMid();
    NormKeepsClean("None");
    NormKeepsClean("-1");
    hide Norm, MidValue;
  }

  // --- What a record that does not fit does to others ------------------------

  /** The record that position p is left with, if `line` stands at position `pos` of the list: a line is read at the
      position that it names, and of two lines for a position the later one wins. */
  function Replayed(index: seq<string>, pos: nat, line: string, p: nat): string {
    var own := if p == pos then "" else LineAt(index, p);
    match Read(line)
    case Meta(q, l) => if p == q && (own == "" || p < pos) then l else own
    case _ => own
  }

  lemma {:induction false} LatestOfIndex(index: seq<string>, pos: nat, line: string, n: nat, p: nat)
    requires pos < |index| && index[pos] == line && n <= |index|
    requires forall i :: 0 <= i < |index| && i != pos ==> index[i] == "" || Canonical(index[i], i)
    ensures var own := if p < n && p != pos then LineAt(index, p) else "";
            Text(Latest(index[..n], p)) ==
              if pos < n && Read(line).Meta? && Read(line).pos == p && (own == "" || p < pos)
              then Read(line).line
              else own
    ensures Latest(index[..n], p).None? || Latest(index[..n], p).value != ""
    decreases n
  {
    hide Read;
    BlankIsRead();
    if n == 0 {
    } else {
      var i := n - 1;
      LatestOfIndex(index, pos, line, i, p);
      assert index[..n] == index[..i] + [index[i]];
      LatestLast(index[..i], index[i], p);
      MetaIsLong(line);
    }
  }

  /** A line that is read as a record leaves a line that is not blank. */
  lemma MetaIsLong(line: string)
    ensures Read(line).Meta? ==> Read(line).line != ""
  {
    if Read(line).Meta? {
      hide Read;
      ReadIsCanonical(line);
    }
  }

  /** A record that does not fit its position, written by a full save: it is gone from its position, and at a
      restart it replaces the record of the position that it names, if that one comes before it or is blank.
      Nothing else changes. */
  lemma SpoiltBySave(s: State, pos: nat, fields: seq<string>, addresses: seq<string>, p: nat)
    requires Inv(s, {}) && s.job.Idle? && |fields| == FIELDS && AddressLines(addresses, 0, s.emails)
    ensures var t := Write(Ready(GrabAll(Edited(s, pos, fields)), [], addresses));
            LineAt(Restart(t).index, p) == Replayed(s.index, pos, ToLine(fields), p)
  {
    var u := Edited(s, pos, fields);
    hide ToLine, Header, AddressLines, Ready, Latest, Inv, Rebuilt, Replayed;
    FullReady(GrabAll(u), [], addresses);
    HeaderSays(true, |u.index|, addresses, 0, s.emails);
    RebuiltSays(Header(true, |u.index|, addresses) + u.index);
    IndexReplayed(s, pos, ToLine(fields), Header(true, |u.index|, addresses), p);
  }

  lemma IndexReplayed(s: State, pos: nat, line: string, head: seq<string>, p: nat)
    requires Inv(s, {}) && Latest(head, p).None?
    ensures Text(Latest(head + WithLine(s.index, pos, line), p)) == Replayed(s.index, pos, line, p)
  {
    var index := WithLine(s.index, pos, line);
    hide Read, Latest, Canonical, JobOk;
    LatestOver(head, index, p);
    forall i | 0 <= i < |index| && i != pos
      ensures index[i] == "" || Canonical(index[i], i)
    {
      assert index[i] == LineAt(index, i) == LineAt(s.index, i);
      assert i < |s.index| ==> Tame(s.index[i], i, {});
    }
    assert index[pos] == LineAt(index, pos);
    LatestOfIndex(index, pos, line, |index|, p);
    assert index[..|index|] == index;
    assert p != pos ==> LineAt(index, p) == LineAt(s.index, p);
  }

  /** The same record, appended by `save_changes` to a file that was up to date: its position keeps the old record
      on the disk, and at a restart it replaces that of the position that it names in any case. */
  lemma SpoiltByAppend(s: State, pos: nat, fields: seq<string>, addresses: seq<string>, quitting: bool, p: nat)
    requires Inv(s, {}) && Durable(s, {}) && s.job.Idle? && s.modified == {} && |fields| == FIELDS
    requires !FullSave(Edited(s, pos, fields), quitting) && AddressLines(addresses, s.emailsSaved, s.emails)
    ensures var t := Write(Ready(Grab(Edited(s, pos, fields), quitting), [pos], addresses));
            LineAt(Restart(t).index, p) == match Read(ToLine(fields))
                                           case Meta(q, l) => if p == q then l else LineAt(s.index, p)
                                           case _ => LineAt(s.index, p)
  {
    var u, line := Edited(s, pos, fields), ToLine(fields);
    var g := Grab(u, quitting);
    hide ToLine, Read, Header, AddressLines, Latest, Rebuilt, Ready, FullSave;
    AppendReady(g, [pos], addresses);
    HeaderSays(false, 0, addresses, s.emailsSaved, s.emails);
    var head := Header(false, 0, addresses);
    assert Latest(head, p).None?;
    assert Copied(u.index, [pos]) == [line];
    var before, added := Contents(s.file), head + [line];
    LatestLast(head, line, p);
    LatestOver(before, added, p);
    RebuiltSays(before + added);
    assert Text(Latest(before, p)) == LineAt(s.index, p);
  }
}
