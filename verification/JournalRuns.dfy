/** What the metadata index loses, over whole runs of edits, saves and failures
    (mailpile/search.py:99-210, 257-359). */
module JournalRuns {
  import opened Wrappers
  import opened IndexLines
  import opened Journal
  import opened JournalSteps

  predicate Runs(s: State, events: seq<Event>)
    decreases |events|
  {
    events == [] || (Enabled(s, events[0]) && Runs(Step(s, events[0]), events[1..]))
  }

  function Run(s: State, events: seq<Event>): State
    requires Runs(s, events)
    decreases |events|
  {
    if events == [] then s else Run(Step(s, events[0]), events[1..])
  }

  predicate TameEvents(events: seq<Event>, stray: set<nat>) {
    forall i :: 0 <= i < |events| ==> TameEvent(events[i], stray)
  }

  /** Over every run of edits, saves and failures: if there is an index file, or no save failed between its two
      renames, then loading the file gives every record that is neither pending nor at a stray position. */
  lemma {:induction false} RunIsDurable(s: State, events: seq<Event>, stray: set<nat>)
    requires Inv(s, stray) && (s.file.Some? ==> Durable(s, stray)) && Runs(s, events) && TameEvents(events, stray)
    ensures Inv(Run(s, events), stray)
    ensures Run(s, events).file.Some? ==> Durable(Run(s, events), stray)
    ensures Durable(s, stray) && (forall i :: 0 <= i < |events| ==> !events[i].Gap?) ==> Durable(Run(s, events), stray)
    decreases |events|
  {
    hide Inv, Durable, Enabled, Step, TameEvent;
    if events == [] {
    } else {
      StepKeeps(s, events[0], stray);
      RunIsDurable(Step(s, events[0]), events[1..], stray);
    }
  }

  /** The positions that an edit spoils: its own, unless the record fits it, and the one that the record names. */
  function Spoilt(line: string, pos: nat): set<nat> {
    if line == "" || Canonical(line, pos) then {} else {pos} + (if Read(line).Meta? then {Read(line).pos} else {})
  }

  function SpoiltBy(e: Event): set<nat> {
    if e.SetMsg? && |e.fields| == FIELDS then Spoilt(ToLine(e.fields), e.pos) else {}
  }

  /** All positions that the edits of a run spoil. */
  function Strays(events: seq<Event>): set<nat> {
    if events == [] then {} else SpoiltBy(events[0]) + Strays(events[1..])
  }

  lemma SpoiltIsTame(e: Event, stray: set<nat>)
    requires SpoiltBy(e) <= stray
    ensures TameEvent(e, stray)
  {
    BlankIsRead();
    hide Read, ToLine;
  }

  lemma {:induction false} StraysAreTame(events: seq<Event>, stray: set<nat>)
    requires Strays(events) <= stray
    ensures TameEvents(events, stray)
  {
    hide SpoiltBy, TameEvent;
    if events == [] {
    } else {
      SpoiltIsTame(events[0], stray);
      StraysAreTame(events[1..], stray);
      forall i | 0 <= i < |events|
        ensures TameEvent(events[i], stray)
      {
        assert i > 0 ==> events[i] == events[1..][i - 1];
      }
    }
  }

  lemma StartIsDurable(stray: set<nat>)
    ensures Inv(START, stray) && Durable(START, stray)
  {
  }

  /** A restart loses nothing but what was changed and not saved, and what the edits of the run have spoilt. */
  lemma RestartLosesOnlyPending(events: seq<Event>)
    requires Runs(START, events)
    ensures var s := Run(START, events);
            s.job.Idle? && s.file.Some? ==>
              (forall pos: nat :: pos !in s.modified && pos !in Strays(events) ==>
                 LineAt(Restart(s).index, pos) == LineAt(s.index, pos))
              && s.emailsSaved <= Restart(s).emails
  {
    var stray := Strays(events);
    StraysAreTame(events, stray);
    StartIsDurable(stray);
    RunIsDurable(START, events, stray);
    hide Read, Latest, EmailCount, Rebuilt, Run, Runs, Strays, TameEvents;
    RebuiltSays(Contents(Run(START, events).file));
  }

  /** The renames are the weak spot. A full save that fails between them leaves no index file: this is harmless just in
      case every record was pending anyway. */
  lemma GapExactly(s: State, stray: set<nat>)
    requires Inv(s, stray) && Enabled(s, Gap)
    ensures Durable(Lose(s), stray) <==>
            s.job.saved == 0
            && forall pos :: 0 <= pos < |s.index| && s.index[pos] != "" && pos !in stray ==> pos in Pending(s)
  {
    var t := Lose(s);
    hide IndexOk;
    assert Contents(t.file) == [] && Pending(t) == Pending(s);
    assert forall pos: nat :: Text(Latest([], pos)) == "";
    if Durable(t, stray) {
      forall pos | 0 <= pos < |s.index| && s.index[pos] != "" && pos !in stray
        ensures pos in Pending(s)
      {
        assert LineAt(t.index, pos) == s.index[pos];
      }
    }
  }

  /** Then `save_changes` does not even notice, if nothing was changed since: there is no file, and it
      finds nothing to do. */
  lemma GapGoesUnnoticed(s: State, quitting: bool)
    requires Enabled(s, Gap) && Pending(s) == {} && s.job.saved == s.emails
    ensures Lose(s).file.None? && Step(Lose(s), SaveChanges(quitting)) == Lose(s)
  {
  }

  lemma RunCons(s: State, e: Event, rest: seq<Event>)
    requires Enabled(s, e) && Runs(Step(s, e), rest)
    ensures Runs(s, [e] + rest) && Run(s, [e] + rest) == Run(Step(s, e), rest)
  {
    assert ([e] + rest)[1..] == rest;
  }

  /** The states of a run with one record: it is stored, saved, and saved again. */
  function OneStored(line: string): State {
    START.(index := [line], modified := {0})
  }

  function OneChosen(line: string, mods: set<nat>, file: Option<seq<string>>, lines: nat): State {
    State([line], {}, 0, 0, 0, lines, file, Chosen(true, mods, 0, 0))
  }

  function OneCopying(line: string, mods: set<nat>, file: Option<seq<string>>, lines: nat): State {
    OneChosen(line, mods, file, lines).(job := Copying(true, mods, 0, 0, 1, [0], Header(true, 1, [])))
  }

  function OneCopied(line: string, mods: set<nat>, file: Option<seq<string>>, lines: nat): State {
    OneChosen(line, mods, file, lines).(job := Copying(true, mods, 0, 0, 1, [], Header(true, 1, []) + [line]))
  }

  function OneFile(line: string): Option<seq<string>> {
    Some(Header(true, 1, []) + [line])
  }

  function OneSaved(line: string, file: Option<seq<string>>): State {
    State([line], {}, 0, 0, 0, 1, file, Idle)
  }

  lemma OneSaveSteps(line: string, mods: set<nat>, file: Option<seq<string>>, lines: nat)
    ensures var s, t := OneChosen(line, mods, file, lines), OneCopying(line, mods, file, lines);
            var u := OneCopied(line, mods, file, lines);
            && Enabled(s, Begin([], [])) && Step(s, Begin([], [])) == t
            && Enabled(t, CopyLine) && Step(t, CopyLine) == u
            && Enabled(u, Written) && Step(u, Written) == OneSaved(line, OneFile(line))
            && Enabled(u, Gap) && (mods == {} && lines == 1 ==> Step(u, Gap) == OneSaved(line, None))
  {
    hide Header;
    assert Header(true, 0 + 1, []) == Header(true, 1, []);
    assert Upto(1) == [0] && [0][1..] == [];
    assert AddressLines([], 0, 0);
    assert mods + {} == mods;
  }

  lemma OneStoredStep(fields: seq<string>)
    requires |fields| == FIELDS && Canonical(ToLine(fields), 0)
    ensures Enabled(START, SetMsg(0, fields)) && Step(START, SetMsg(0, fields)) == OneStored(ToLine(fields))
    ensures Step(OneStored(ToLine(fields)), Save) == OneChosen(ToLine(fields), {0}, None, 0)
    ensures Step(OneSaved(ToLine(fields), OneFile(ToLine(fields))), Save)
         == OneChosen(ToLine(fields), {}, OneFile(ToLine(fields)), 1)
  {
    hide ToLine, Header;
    var w := WithLine([], 0, ToLine(fields));
    assert Pad([], 0) == Pad([""], 0) == [""];
    assert w == [ToLine(fields)];
  }

  /** It does happen, with any record at the first position: the record is gone from the disk, and the next save
      does nothing about it. */
  lemma GapHappens(fields: seq<string>, quitting: bool)
    requires |fields| == FIELDS && Canonical(ToLine(fields), 0)
    ensures exists events ::
              Runs(START, events)
              && var s := Run(START, events);
                 s.index == [ToLine(fields)] && s.file.None? && Grab(s, quitting) == s && !Durable(s, {})
  {
    var line := ToLine(fields);
    var file := OneFile(line);
    LineIsLong(fields);
    SavesAreEnabled(line, file);
    hide *;
    OneStoredStep(fields);
    OneSaveSteps(line, {0}, None, 0);
    OneSaveSteps(line, {}, file, 1);
    OneLost(line, quitting);
    RunNil(OneSaved(line, None));
    var again := OneSaveRun(line, {}, file, 1, Gap, []);
    RunCons(OneSaved(line, file), Save, again);
    var once := OneSaveRun(line, {0}, None, 0, Written, [Save] + again);
    RunCons(OneStored(line), Save, once);
    RunCons(START, SetMsg(0, fields), [Save] + once);
  }

  lemma SavesAreEnabled(line: string, file: Option<seq<string>>)
    ensures Enabled(OneSaved(line, file), Save) && Enabled(OneStored(line), Save)
  {
  }

  /** A save that ends in the given way, with the rest of a run behind it. */
  lemma OneSaveRun(line: string, mods: set<nat>, file: Option<seq<string>>, lines: nat, last: Event, rest: seq<Event>)
    returns (events: seq<Event>)
    requires last == Written || last == Gap
    requires Enabled(OneCopied(line, mods, file, lines), last)
    requires Runs(Step(OneCopied(line, mods, file, lines), last), rest)
    ensures Runs(OneChosen(line, mods, file, lines), events)
    ensures Run(OneChosen(line, mods, file, lines), events) == Run(Step(OneCopied(line, mods, file, lines), last), rest)
  {
    OneSaveSteps(line, mods, file, lines);
    hide *;
    RunCons(OneCopied(line, mods, file, lines), last, rest);
    RunCons(OneCopying(line, mods, file, lines), CopyLine, [last] + rest);
    RunCons(OneChosen(line, mods, file, lines), Begin([], []), [CopyLine] + ([last] + rest));
    events := [Begin([], [])] + ([CopyLine] + ([last] + rest));
  }

  lemma RunNil(s: State)
    ensures Runs(s, []) && Run(s, []) == s
  {
  }

  lemma OneLost(line: string, quitting: bool)
    requires line != ""
    ensures var s := OneSaved(line, None);
            s.index == [line] && s.file.None? && Grab(s, quitting) == s && !Durable(s, {})
  {
    var s := OneSaved(line, None);
    assert Latest([], 0) == None;
    assert LineAt(s.index, 0) == line && 0 !in Pending(s);
  }
}
