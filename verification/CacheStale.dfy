/** When the command cache hands out stale results (mailpile/command_cache.py:61-140): after refreshes that come
    too late, and while refresh renews the entry that a look-up has read. */
module CacheStale {
  import opened Wrappers
  import opened CommandCache
  import opened CacheProtocol
  import opened CacheRuns

  lemma OneMore(r: Run, gap: real, s: Sys, now: real, ev: Event, t: Sys)
    requires After(r) == Some(s) && AllWithin(r, gap)
    requires Enabled(s, now, ev) && Step(s, now, ev) == t && (ev.Begin? ==> now - s.begun <= gap)
    ensures After(Then(r, now, ev)) == Some(t) && AllWithin(Then(r, now, ev), gap)
  {
    hide Enabled, Step;
  }

  /** Whether a refresh keeps the only mark. */
  lemma OneRecent(m: Mark, since: real)
    ensures Recent([m], since) == if m.ts >= since then [m] else []
  {
    assert [m][..0] == [];
    assert Recent([m][..0], since) == [];
  }

  /** An entry with requirement "x", stored at the given time, and then a mark of "x". */
  function Old(added: real): Slot {
    Slot(100.0, 0, 7, added)
  }

  function StoredAt(added: real): Sys {
    Sys(map["f" := Old(added)], [{"x"}], [], [], [], added, 0.0, 0.0, {}, Resting, 0.0)
  }

  function MarkedAt(added: real, ts: real): Sys {
    StoredAt(added).(dirty := [Mark(ts, {"x"})], marks := [Mark(ts, {"x"})], clock := ts)
  }

  function MarkedRun(added: real, ts: real): Run {
    Then(Then(Created(0.0), added, CacheResult("f", 100.0, {"x"}, 7)), ts, MarkDirty({"x"}))
  }

  lemma MarkedRunState(added: real, ts: real, gap: real)
    requires 0.0 <= added <= ts
    ensures After(MarkedRun(added, ts)) == Some(MarkedAt(added, ts)) && AllWithin(MarkedRun(added, ts), gap)
  {
    StoreStep(added);
    MarkStep(added, ts);
    hide Step, Enabled, StoredAt, MarkedAt;
    var r := Created(0.0);
    assert After(r) == Some(Init(0.0)) && AllWithin(r, gap);
    OneMore(r, gap, Init(0.0), added, CacheResult("f", 100.0, {"x"}, 7), StoredAt(added));
    OneMore(Then(r, added, CacheResult("f", 100.0, {"x"}, 7)), gap, StoredAt(added), ts, MarkDirty({"x"}),
            MarkedAt(added, ts));
  }

  lemma StoreStep(added: real)
    requires added >= 0.0
    ensures Enabled(Init(0.0), added, CacheResult("f", 100.0, {"x"}, 7))
    ensures Step(Init(0.0), added, CacheResult("f", 100.0, {"x"}, 7)) == StoredAt(added)
  {
    var none: map<string, Slot> := map[];
    assert none["f" := Old(added)] == map["f" := Old(added)];
  }

  lemma MarkStep(added: real, ts: real)
    requires ts >= added
    ensures Enabled(StoredAt(added), ts, MarkDirty({"x"}))
    ensures Step(StoredAt(added), ts, MarkDirty({"x"})) == MarkedAt(added, ts)
  {
  }

  /** A refresh begins. */
  function AtBegin(s: Sys, now: real, runtime: real, dirty: seq<Mark>): Sys {
    s.(dirty := dirty, clock := now, begun := now, before := s.begun, todo := {"f"}, deadline := now + runtime)
  }

  /** The states of these runs: one entry, at most one mark. */
  predicate OneEntry(s: Sys, added: real, ts: real) {
    && s.slots == map["f" := Old(added)] && s.todo == {} && s.visit.Resting?
    && (s.dirty == [] || s.dirty == [Mark(ts, {"x"})])
  }

  lemma BeginStep(s: Sys, added: real, ts: real, now: real, runtime: real)
    requires OneEntry(s, added, ts) && s.clock <= now < 100.0
    ensures Enabled(s, now, Begin(runtime))
    ensures Step(s, now, Begin(runtime)) == AtBegin(s, now, runtime, if ts >= now - DIRTY_TTL then s.dirty else [])
  {
    OneRecent(Mark(ts, {"x"}), now - DIRTY_TTL);
    assert Unexpired(s.slots, now) == s.slots && s.slots.Keys == {"f"};
  }

  // --- Any longer gap is too long --------------------------------------------

  function AtRefresh(ts: real): Sys {
    AtBegin(MarkedAt(0.9, ts), 1.0, 5.0, [Mark(ts, {"x"})])
  }

  function AtNextRefresh(ts: real, gap: real): Sys {
    AtBegin(AtRefresh(ts).(todo := {}), 1.0 + gap, 5.0, [])
  }

  /** The first refresh finds the entry too young to look at; the second throws the mark away. */
  function LateRun(ts: real, gap: real): Run {
    Then(Then(Then(Then(MarkedRun(0.9, ts), 1.0, Begin(5.0)), 1.0, Read("f")), 1.0, Pass(1.0)), 1.0 + gap, Begin(5.0))
  }

  lemma PassSteps(ts: real)
    ensures var s := AtRefresh(ts);
            var t := s.(visit := Reading("f", Old(0.9), 1.0));
            && Enabled(s, 1.0, Read("f")) && Step(s, 1.0, Read("f")) == t
            && Enabled(t, 1.0, Pass(1.0)) && Step(t, 1.0, Pass(1.0)) == s.(todo := {})
  {
    hide DirtySet;
    assert {"f"} - {"f"} == {};
  }

  lemma LateSteps(ts: real, gap: real)
    requires 0.9 < ts < 1.0 && ts < gap - 9.0 <= 1.0
    ensures var s, t, u := MarkedAt(0.9, ts), AtRefresh(ts), AtRefresh(ts).(todo := {});
            && Enabled(s, 1.0, Begin(5.0)) && Step(s, 1.0, Begin(5.0)) == t && s.begun == 0.0
            && Enabled(u, 1.0 + gap, Begin(5.0)) && Step(u, 1.0 + gap, Begin(5.0)) == AtNextRefresh(ts, gap)
            && u.begun == 1.0
  {
    hide Step, Enabled;
    BeginStep(MarkedAt(0.9, ts), 0.9, ts, 1.0, 5.0);
    BeginStep(AtRefresh(ts).(todo := {}), 0.9, ts, 1.0 + gap, 5.0);
  }

  lemma LateRunState(ts: real, gap: real)
    requires 0.9 < ts < 1.0 && ts < gap - 9.0 <= 1.0
    ensures After(LateRun(ts, gap)) == Some(AtNextRefresh(ts, gap)) && AllWithin(LateRun(ts, gap), gap)
  {
    hide After, AllWithin, Enabled, Step, AtRefresh, AtNextRefresh, MarkedAt, AtBegin, MarkedRun;
    MarkedRunState(0.9, ts, gap);
    LateSteps(ts, gap);
    PassSteps(ts);
    var r1 := MarkedRun(0.9, ts);
    var r2 := Then(r1, 1.0, Begin(5.0));
    var r3 := Then(r2, 1.0, Read("f"));
    var r4 := Then(r3, 1.0, Pass(1.0));
    var s, u := AtRefresh(ts), AtRefresh(ts).(todo := {});
    var t := s.(visit := Reading("f", Old(0.9), 1.0));
    OneMore(r1, gap, MarkedAt(0.9, ts), 1.0, Begin(5.0), s);
    OneMore(r2, gap, s, 1.0, Read("f"), t);
    OneMore(r3, gap, t, 1.0, Pass(1.0), u);
    OneMore(r4, gap, u, 1.0 + gap, Begin(5.0), AtNextRefresh(ts, gap));
  }

  // --- A look-up of the entry ------------------------------------------------

  /** A whole look-up at one moment; the entry is clean, as far as it can see. */
  function WithLook(s: Sys, added: real, now: real): Sys {
    s.(looks := [Look("f", Old(added), Some(Scan({TIMED_OUT}, |s.marks|)))], clock := now)
  }

  predicate Clean(s: Sys, added: real, now: real) {
    && "f" in s.slots && s.slots["f"] == Old(added) && s.dirty == [] && s.looks == [] && s.clock <= now
    && added + LAG <= now
  }

  function LookRun(r: Run, now: real): Run {
    Then(Then(r, now, LookUp("f")), now, ScanDirty(0))
  }

  lemma LookRunState(r: Run, gap: real, s: Sys, added: real, now: real)
    requires After(r) == Some(s) && AllWithin(r, gap) && Clean(s, added, now)
    ensures After(LookRun(r, now)) == Some(WithLook(s, added, now)) && AllWithin(LookRun(r, now), gap)
  {
    var t := s.(looks := [Look("f", Old(added), None)], clock := now);
    assert Enabled(s, now, LookUp("f")) && Step(s, now, LookUp("f")) == t;
    assert DirtySet([], added) == {TIMED_OUT};
    assert Enabled(t, now, ScanDirty(0)) && Step(t, now, ScanDirty(0)) == WithLook(s, added, now);
    hide Enabled, Step;
    OneMore(r, gap, s, now, LookUp("f"), t);
    OneMore(Then(r, now, LookUp("f")), gap, t, now, ScanDirty(0), WithLook(s, added, now));
  }

  /** The look-up answers with an entry that the mark touches. */
  lemma StaleAnswer(s: Sys, l: Look, added: real, ts: real)
    requires s.reqs == [{"x"}] && s.marks == [Mark(ts, {"x"})] && ts > added
    requires l == Look("f", Old(added), Some(Scan({TIMED_OUT}, 1)))
    ensures Answers(s, l) && !Fresh(s, l)
  {
    assert "x" in s.marks[0].req * Ent(s, l.slot).req;
    assert Touches(s.marks[0], Ent(s, l.slot));
  }

  /** A gap that is only a little too long: after a run with that gap, a look-up of an entry that is in its place
      and not exposed hands out a stale result. */
  lemma LateRefreshServesStale(ts: real, gap: real) returns (r: Run)
    requires 0.9 < ts < 1.0 && ts < gap - 9.0 <= 1.0
    ensures After(r).Some? && AllWithin(r, gap) && !AnswersFresh(After(r).value)
  {
    LateRunState(ts, gap);
    var s := AtNextRefresh(ts, gap);
    r := LookRun(LateRun(ts, gap), 20.0);
    LookRunState(LateRun(ts, gap), gap, s, 0.9, 20.0);
    var t := WithLook(s, 0.9, 20.0);
    StaleAnswer(t, t.looks[0], 0.9, ts);
  }

  lemma {:induction false} WithinMore(r: Run, gap: real, more: real)
    requires AllWithin(r, gap) && gap <= more
    ensures AllWithin(r, more)
  {
    hide Enabled, Step;
    match r {
      case Created(_) =>
      case Then(init, _, _) => WithinMore(init, gap, more);
    }
  }

  /** The exact condition on the refreshes: after every run with gaps of at most this length, look-ups of entries
      that are in their place and not exposed are fresh, if and only if the gap and the lag together are within
      the life of a mark. */
  lemma FreshExactly(gap: real)
    ensures (forall r :: After(r).Some? && AllWithin(r, gap) ==> AnswersFresh(After(r).value))
            <==> gap + LAG <= DIRTY_TTL
  {
    hide After, AllWithin, AnswersFresh;
    if gap <= SAFE_GAP {
      forall r | After(r).Some? && AllWithin(r, gap)
        ensures AnswersFresh(After(r).value)
      {
        ServedIsFresh(r, After(r).value, gap);
      }
    } else {
      var h := if gap < 10.0 then gap else 10.0;
      var r := LateRefreshServesStale((h - 8.1) / 2.0, h);
      WithinMore(r, h, gap);
      assert After(r).Some? && AllWithin(r, gap) && !AnswersFresh(After(r).value);
    }
  }

  // --- Entries that are renewed ----------------------------------------------

  const GAP := 9.0

  /** A refresh without time leaves the marker on the entry; the next one throws the mark away and runs the
      command. */
  function TimedOut(): Sys {
    AtBegin(MarkedAt(0.5, 1.0), 5.0, 0.0, [Mark(1.0, {"x"})]).(reqs := [{"x", TIMED_OUT}], todo := {})
  }

  function Renewing(): Sys {
    AtBegin(TimedOut(), 14.0, 5.0, []).(visit := Running("f", Old(0.5), 14.0))
  }

  function TimedOutRun(): Run {
    Then(Then(Then(MarkedRun(0.5, 1.0), 5.0, Begin(0.0)), 5.0, Read("f")), 5.0, OutOfTime(5.0))
  }

  function RenewingRun(): Run {
    Then(Then(Then(TimedOutRun(), 14.0, Begin(5.0)), 14.0, Read("f")), 14.0, Start(14.0))
  }

  lemma OutOfTimeStep()
    ensures var s := AtBegin(MarkedAt(0.5, 1.0), 5.0, 0.0, [Mark(1.0, {"x"})]);
            var t := s.(visit := Reading("f", Old(0.5), 5.0));
            && Enabled(s, 5.0, Read("f")) && Step(s, 5.0, Read("f")) == t
            && Enabled(t, 5.0, OutOfTime(5.0)) && Step(t, 5.0, OutOfTime(5.0)) == TimedOut()
  {
    var s := AtBegin(MarkedAt(0.5, 1.0), 5.0, 0.0, [Mark(1.0, {"x"})]);
    var t := s.(visit := Reading("f", Old(0.5), 5.0));
    assert t.dirty[0].ts > 0.5 && "x" in t.dirty[0].req;
    assert "x" in DirtySet(t.dirty, 0.5);
    assert "x" in Dirt(t, Old(0.5));
    assert {"f"} - {"f"} == {};
    assert {"x"} + {TIMED_OUT} == {"x", TIMED_OUT};
    hide DirtySet;
  }

  lemma StartStep()
    ensures var s := AtBegin(TimedOut(), 14.0, 5.0, []);
            var t := s.(visit := Reading("f", Old(0.5), 14.0));
            && Enabled(s, 14.0, Read("f")) && Step(s, 14.0, Read("f")) == t
            && Enabled(t, 14.0, Start(14.0)) && Step(t, 14.0, Start(14.0)) == Renewing()
  {
    var t := AtBegin(TimedOut(), 14.0, 5.0, []).(visit := Reading("f", Old(0.5), 14.0));
    assert TIMED_OUT in Dirt(t, Old(0.5));
    hide DirtySet;
  }

  lemma TimedOutRunState()
    ensures After(TimedOutRun()) == Some(TimedOut()) && AllWithin(TimedOutRun(), GAP)
  {
    MarkedRunState(0.5, 1.0, GAP);
    BeginStep(MarkedAt(0.5, 1.0), 0.5, 1.0, 5.0, 0.0);
    OutOfTimeStep();
    assert MarkedAt(0.5, 1.0).begun == 0.0;
    hide After, AllWithin, Enabled, Step, MarkedAt, AtBegin, MarkedRun, TimedOut;
    var s := AtBegin(MarkedAt(0.5, 1.0), 5.0, 0.0, [Mark(1.0, {"x"})]);
    var t := s.(visit := Reading("f", Old(0.5), 5.0));
    var r := MarkedRun(0.5, 1.0);
    OneMore(r, GAP, MarkedAt(0.5, 1.0), 5.0, Begin(0.0), s);
    OneMore(Then(r, 5.0, Begin(0.0)), GAP, s, 5.0, Read("f"), t);
    OneMore(Then(Then(r, 5.0, Begin(0.0)), 5.0, Read("f")), GAP, t, 5.0, OutOfTime(5.0), TimedOut());
  }

  lemma RenewingRunState()
    ensures After(RenewingRun()) == Some(Renewing()) && AllWithin(RenewingRun(), GAP)
  {
    TimedOutRunState();
    BeginStep(TimedOut(), 0.5, 1.0, 14.0, 5.0);
    StartStep();
    assert TimedOut().begun == 5.0;
    hide After, AllWithin, Enabled, Step, AtBegin, TimedOutRun, TimedOut, Renewing;
    var s := AtBegin(TimedOut(), 14.0, 5.0, []);
    var t := s.(visit := Reading("f", Old(0.5), 14.0));
    var r := TimedOutRun();
    OneMore(r, GAP, TimedOut(), 14.0, Begin(5.0), s);
    OneMore(Then(r, 14.0, Begin(5.0)), GAP, s, 14.0, Read("f"), t);
    OneMore(Then(Then(r, 14.0, Begin(5.0)), 14.0, Read("f")), GAP, t, 14.0, Start(14.0), Renewing());
  }

  function Bare(): Sys {
    Renewing().(clock := 14.5, reqs := [{"x"}], visit := Unmarked("f", Old(0.5), 14.0))
  }

  lemma UnmarkStep()
    ensures Enabled(Renewing(), 14.5, Unmark) && Step(Renewing(), 14.5, Unmark) == Bare()
  {
    assert {"x", TIMED_OUT} - {TIMED_OUT} == {"x"};
  }

  lemma UnmarkStepBehindLook(looks: seq<Look>)
    ensures var s := Renewing().(clock := 14.2, looks := looks);
            Enabled(s, 14.5, Unmark) && Step(s, 14.5, Unmark) == Bare().(looks := looks)
  {
    assert {"x", TIMED_OUT} - {TIMED_OUT} == {"x"};
  }

  /** With refreshes in good time: a look-up that comes between the removal of the marker and the store of the new
      entry hands out the old one, though a mark touches it. */
  lemma ExposedServesStale() returns (r: Run)
    ensures After(r).Some? && AllWithin(r, GAP) && |After(r).value.looks| == 1
    ensures var s, l := After(r).value, After(r).value.looks[0];
            Answers(s, l) && !Fresh(s, l) && Exposed(s, "f") && SameSlot(s.slots["f"], l.slot)
  {
    RenewingRunState();
    UnmarkStep();
    var r0 := Then(RenewingRun(), 14.5, Unmark);
    OneMore(RenewingRun(), GAP, Renewing(), 14.5, Unmark, Bare());
    LookRunState(r0, GAP, Bare(), 0.5, 15.0);
    r := LookRun(r0, 15.0);
    var t := WithLook(Bare(), 0.5, 15.0);
    hide After, AllWithin, Enabled, Step, LookRun, RenewingRun;
    StaleAnswer(t, t.looks[0], 0.5, 1.0);
  }

  function Renewed(): Sys {
    Bare().(slots := map["f" := Slot(100.0, 0, 8, 14.0)], todo := {}, visit := Resting,
            looks := [Look("f", Old(0.5), None)])
  }

  lemma OvertakingSteps()
    ensures var look := [Look("f", Old(0.5), None)];
            var t := Renewing().(clock := 14.2, looks := look);
            && Enabled(Renewing(), 14.2, LookUp("f")) && Step(Renewing(), 14.2, LookUp("f")) == t
            && Enabled(Bare().(looks := look), 14.5, Finish(8, 0.0))
            && Step(Bare().(looks := look), 14.5, Finish(8, 0.0)) == Renewed()
  {
    assert {"f"} - {"f"} == {};
  }

  function ScannedLate(): Sys {
    Renewed().(clock := 15.0, looks := [Look("f", Old(0.5), Some(Scan({TIMED_OUT}, 1)))])
  }

  lemma ScanStep()
    ensures Enabled(Renewed(), 15.0, ScanDirty(0)) && Step(Renewed(), 15.0, ScanDirty(0)) == ScannedLate()
  {
    assert DirtySet([], 0.5) == {TIMED_OUT};
  }

  /** With refreshes in good time: a look-up that has read the old entry before refresh renews it, and goes on
      afterwards, hands out the old result, though a mark touches it. */
  lemma OvertakenServesStale() returns (r: Run)
    ensures After(r).Some? && AllWithin(r, GAP) && |After(r).value.looks| == 1
    ensures var s, l := After(r).value, After(r).value.looks[0];
            Answers(s, l) && !Fresh(s, l) && !Exposed(s, "f") && "f" in s.slots && !SameSlot(s.slots["f"], l.slot)
  {
    var look := [Look("f", Old(0.5), None)];
    var t := Renewing().(clock := 14.2, looks := look);
    RenewingRunState();
    OvertakingSteps();
    UnmarkStepBehindLook(look);
    ScanStep();
    StaleAnswer(ScannedLate(), ScannedLate().looks[0], 0.5, 1.0);
    assert ScannedLate().visit.Resting? && ScannedLate().slots["f"].added == 14.0;
    var r1 := Then(RenewingRun(), 14.2, LookUp("f"));
    var r2 := Then(r1, 14.5, Unmark);
    var r3 := Then(r2, 14.5, Finish(8, 0.0));
    r := Then(r3, 15.0, ScanDirty(0));
    hide After, AllWithin, Enabled, Step, RenewingRun, Renewing, Bare, Renewed, ScannedLate, Fresh, Answers;
    OneMore(RenewingRun(), GAP, Renewing(), 14.2, LookUp("f"), t);
    OneMore(r1, GAP, t, 14.5, Unmark, Bare().(looks := look));
    OneMore(r2, GAP, Bare().(looks := look), 14.5, Finish(8, 0.0), Renewed());
    OneMore(r3, GAP, Renewed(), 15.0, ScanDirty(0), ScannedLate());
  }
}
