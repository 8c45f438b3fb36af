/** What the command cache hands out, over whole runs (mailpile/command_cache.py:47-140). */
module CacheRuns {
  import opened Wrappers
  import opened CommandCache
  import opened CacheProtocol

  /** The longest gap that a mark outlives, the lag included. */
  const SAFE_GAP := DIRTY_TTL - LAG

  /** The refresh up to which an entry has paid its debts. */
  function Horizon(s: Sys, f: string): real {
    if f in s.todo then s.before else s.begun
  }

  /** The debt of an entry to a mark is recorded: on the entry, or as a mark still kept. */
  ghost predicate Owed(s: Sys, m: Mark, e: Entry) {
    Touches(m, e) ==> TIMED_OUT in e.req || m in s.dirty
  }

  /** Marks that an earlier refresh was late enough to see are recorded on the entry itself. */
  ghost predicate Settled(m: Mark, e: Entry, horizon: real) {
    m.ts + LAG <= horizon && Touches(m, e) ==> TIMED_OUT in e.req
  }

  ghost predicate DebtOk(s: Sys, f: string, m: Mark)
    requires f in s.slots
  {
    Owed(s, m, Ent(s, s.slots[f])) && Settled(m, Ent(s, s.slots[f]), Horizon(s, f))
  }

  ghost predicate DebtsOk(s: Sys) {
    forall f, m :: f in s.slots && !Exposed(s, f) && m in s.marks ==> DebtOk(s, f, m)
  }

  ghost predicate ClocksOk(s: Sys) {
    && s.before <= s.begun <= s.clock
    && (forall m :: m in s.marks ==> m.ts <= s.clock)
    && (forall f :: f in s.slots ==> s.slots[f].added <= s.clock)
    && s.todo <= s.slots.Keys
  }

  ghost predicate MarksOk(s: Sys) {
    && (forall m :: m in s.marks && m.ts >= s.begun - DIRTY_TTL ==> m in s.dirty)
    && (forall m :: m in s.dirty ==> m in s.marks)
  }

  /** Every set of requirements belongs to one fingerprint. */
  ghost predicate IdsOk(s: Sys) {
    && (forall f :: f in s.slots ==> s.slots[f].id < |s.reqs|)
    && (forall f, g :: f in s.slots && g in s.slots && s.slots[f].id == s.slots[g].id ==> f == g)
  }

  function TimeOf(v: Stage): real
    requires !v.Resting?
  {
    if v.Reading? then v.since else v.started
  }

  /** The entry that refresh has read is still there, or was replaced since the refresh began. */
  ghost predicate VisitOk(s: Sys) {
    var v := s.visit;
    !v.Resting? ==>
      && v.fprint in s.todo && v.fprint in s.slots && v.seen.id < |s.reqs| && s.begun <= TimeOf(v) <= s.clock
      && (v.Reading? || v.seen.added + LAG < v.started)
      && (SameSlot(s.slots[v.fprint], v.seen) || s.slots[v.fprint].added >= s.begun)
      && (forall g :: g in s.slots && s.slots[g].id == v.seen.id ==> g == v.fprint && s.slots[g].added == v.seen.added)
      && (forall i :: 0 <= i < |s.looks| && s.looks[i].slot.id == v.seen.id ==> s.looks[i].slot.added <= v.seen.added)
  }

  /** What a look-up has read is no newer than what is there. */
  ghost predicate ReadOk(s: Sys, l: Look) {
    && l.slot.id < |s.reqs|
    && (forall f :: f in s.slots && s.slots[f].id == l.slot.id ==> l.slot.added <= s.slots[f].added)
    && (l.scan.Some? ==> l.scan.value.marks <= |s.marks| && TIMED_OUT in l.scan.value.dirty)
  }

  ghost predicate ReadsOk(s: Sys) {
    forall i :: 0 <= i < |s.looks| ==> ReadOk(s, s.looks[i])
  }

  /** A mark that touches the entry of a look-up is on the entry, or among what the look-up has found dirty. */
  ghost predicate Noticed(m: Mark, e: Entry, dirty: Reqs) {
    Touches(m, e) ==> TIMED_OUT in e.req || m.req <= dirty
  }

  ghost predicate LookOk(s: Sys, l: Look) {
    Holds(s, l) && l.scan.Some? ==>
      forall k :: 0 <= k < l.scan.value.marks && k < |s.marks| ==>
        Noticed(s.marks[k], Ent(s, l.slot), l.scan.value.dirty)
  }

  ghost predicate LooksOk(s: Sys) {
    forall i :: 0 <= i < |s.looks| ==> LookOk(s, s.looks[i])
  }

  ghost predicate Inv(s: Sys) {
    ClocksOk(s) && MarksOk(s) && IdsOk(s) && VisitOk(s) && ReadsOk(s) && DebtsOk(s) && LooksOk(s)
  }

  lemma ClocksStep(s: Sys, now: real, ev: Event)
    requires ClocksOk(s) && VisitOk(s) && Enabled(s, now, ev)
    ensures ClocksOk(Step(s, now, ev))
  {
    hide DirtySet, Recent, Needed, Answers, NewExpiry, Max;
  }

  lemma MarksStep(s: Sys, now: real, ev: Event)
    requires ClocksOk(s) && MarksOk(s) && Enabled(s, now, ev)
    ensures MarksOk(Step(s, now, ev))
  {
    hide DirtySet, Recent, Needed, Answers, NewExpiry, Max;
  }

  lemma IdsStep(s: Sys, now: real, ev: Event)
    requires IdsOk(s) && VisitOk(s) && Enabled(s, now, ev)
    ensures IdsOk(Step(s, now, ev))
  {
    hide DirtySet, Recent, Needed, Answers, NewExpiry, Max;
  }

  lemma VisitStepRead(s: Sys, now: real, ev: Event)
    requires ClocksOk(s) && IdsOk(s) && VisitOk(s) && ReadsOk(s) && Enabled(s, now, ev) && ev.Read?
    ensures VisitOk(Step(s, now, ev))
  {
    hide DirtySet, Recent, Dirt, TIMED_OUT;
    var e := s.slots[ev.fprint];
    assert forall i :: 0 <= i < |s.looks| && s.looks[i].slot.id == e.id ==> ReadOk(s, s.looks[i]);
  }

  lemma VisitStepOn(s: Sys, now: real, ev: Event)
    requires ClocksOk(s) && VisitOk(s) && Enabled(s, now, ev) && (ev.Start? || ev.Unmark?)
    ensures VisitOk(Step(s, now, ev))
  {
    hide DirtySet, Recent, Dirt, TIMED_OUT;
  }

  lemma VisitStepElse(s: Sys, now: real, ev: Event)
    requires ClocksOk(s) && IdsOk(s) && VisitOk(s) && Enabled(s, now, ev) && !(ev.Read? || ev.Start? || ev.Unmark?)
    ensures VisitOk(Step(s, now, ev))
  {
    hide DirtySet, Recent, Answers, Dirt, NewExpiry, Max, Needed;
  }

  lemma VisitStep(s: Sys, now: real, ev: Event)
    requires ClocksOk(s) && IdsOk(s) && VisitOk(s) && ReadsOk(s) && Enabled(s, now, ev)
    ensures VisitOk(Step(s, now, ev))
  {
    hide ClocksOk, IdsOk, VisitOk, ReadsOk, Enabled, Step;
    if ev.Read? {
      VisitStepRead(s, now, ev);
    } else if ev.Start? || ev.Unmark? {
      VisitStepOn(s, now, ev);
    } else {
      VisitStepElse(s, now, ev);
    }
  }

  lemma ReadsStep(s: Sys, now: real, ev: Event)
    requires ClocksOk(s) && IdsOk(s) && VisitOk(s) && ReadsOk(s) && Enabled(s, now, ev)
    ensures ReadsOk(Step(s, now, ev))
  {
    hide DirtySet, Recent, Needed, Answers, NewExpiry, Max;
  }

  /** An entry that was put in the cache since the latest refresh began owes nothing but to kept marks. */
  lemma YoungOwesLittle(s: Sys, f: string, m: Mark)
    requires MarksOk(s) && f in s.slots && m in s.marks && s.slots[f].added >= s.begun && s.before <= s.begun
    ensures DebtOk(s, f, m)
  {
  }

  lemma DebtsAtBegin(s: Sys, now: real, ev: Event)
    requires Inv(s) && Enabled(s, now, ev) && Within(s, now, ev, SAFE_GAP) && ev.Begin?
    ensures DebtsOk(Step(s, now, ev))
  {
    hide DirtySet, VisitOk, ReadsOk, LooksOk, IdsOk;
    var s' := Step(s, now, ev);
    forall f, m | f in s'.slots && m in s'.marks
      ensures DebtOk(s', f, m)
    {
      // A mark that is thrown away now was seen by the refresh before.
      assert !Exposed(s, f) && DebtOk(s, f, m);
      assert m in s.dirty && m !in s'.dirty ==> m.ts + LAG <= s.begun;
    }
  }

  /** Refresh looks at the entry and finds it too young to bother, or clean. */
  lemma PassSettles(s: Sys, now: real, at: real, f: string, m: Mark)
    requires VisitOk(s) && ReadsAt(s, now, at) && !Needed(s, at) && f == s.visit.fprint
    requires f in s.slots && SameSlot(s.slots[f], s.visit.seen) && m in s.marks && Owed(s, m, Ent(s, s.slots[f]))
    ensures Settled(m, Ent(s, s.slots[f]), s.begun)
  {
    var e := Ent(s, s.slots[f]);
    if s.visit.seen.added + LAG < at {
      assert DirtyReqs(View(s), e) == {};
      CleanMeans(View(s), e);
    }
  }

  lemma DebtsAtPass(s: Sys, now: real, ev: Event)
    requires Inv(s) && Enabled(s, now, ev) && ev.Pass?
    ensures DebtsOk(Step(s, now, ev))
  {
    hide DirtySet, Needed, ReadsOk, LooksOk, IdsOk;
    var s' := Step(s, now, ev);
    forall f, m | f in s'.slots && m in s'.marks
      ensures DebtOk(s', f, m)
    {
      assert DebtOk(s, f, m);
      if f == s.visit.fprint {
        if SameSlot(s.slots[f], s.visit.seen) {
          PassSettles(s, now, ev.at, f, m);
        } else {
          YoungOwesLittle(s, f, m);
        }
      }
    }
  }

  /** The marker goes on the set of requirements of the entry that refresh has read. */
  lemma DebtsAtTimeOut(s: Sys, now: real, ev: Event)
    requires Inv(s) && Enabled(s, now, ev) && (ev.OutOfTime? || ev.Fail?)
    ensures DebtsOk(Step(s, now, ev))
  {
    hide DirtySet, Needed, ReadsOk, LooksOk;
    var s' := Step(s, now, ev);
    forall f, m | f in s'.slots && m in s'.marks
      ensures DebtOk(s', f, m)
    {
      assert DebtOk(s, f, m);
      if s.slots[f].id == s.visit.seen.id {
        assert TIMED_OUT in Ent(s', s'.slots[f]).req;
      } else if f == s.visit.fprint {
        YoungOwesLittle(s, f, m);
      }
    }
  }

  lemma DebtsAtUnmark(s: Sys, now: real, ev: Event)
    requires Inv(s) && Enabled(s, now, ev) && ev.Unmark?
    ensures DebtsOk(Step(s, now, ev))
  {
    hide DirtySet, Needed, ReadsOk, LooksOk;
    var s' := Step(s, now, ev);
    forall f, m | f in s'.slots && !Exposed(s', f) && m in s'.marks
      ensures DebtOk(s', f, m)
    {
      assert DebtOk(s, f, m);
    }
  }

  lemma DebtsAtFinish(s: Sys, now: real, ev: Event)
    requires Inv(s) && Enabled(s, now, ev) && ev.Finish?
    ensures DebtsOk(Step(s, now, ev))
  {
    hide DirtySet, ReadsOk, LooksOk, IdsOk, Touches;
    var s' := Step(s, now, ev);
    forall f, m | f in s'.slots && m in s'.marks
      ensures DebtOk(s', f, m)
    {
      if f == s.visit.fprint {
        MarksStep(s, now, ev);
        YoungOwesLittle(s', f, m);
      } else {
        assert DebtOk(s, f, m);
      }
    }
  }

  lemma DebtsAtStore(s: Sys, now: real, ev: Event)
    requires Inv(s) && Enabled(s, now, ev) && (ev.MarkDirty? || ev.CacheResult?)
    ensures DebtsOk(Step(s, now, ev))
  {
    hide DirtySet, ReadsOk, LooksOk;
    var s' := Step(s, now, ev);
    forall f, m | f in s'.slots && !Exposed(s', f) && m in s'.marks
      ensures DebtOk(s', f, m)
    {
      if f in s.slots && !Exposed(s, f) && m in s.marks {
        assert DebtOk(s, f, m);
      }
    }
  }

  lemma DebtsElsewhere(s: Sys, now: real, ev: Event)
    requires Inv(s) && Enabled(s, now, ev)
    requires ev.LookUp? || ev.ScanDirty? || ev.Answer? || ev.Read? || ev.Start?
    ensures DebtsOk(Step(s, now, ev))
  {
    hide DirtySet, Needed, ReadsOk, LooksOk, VisitOk, Answers;
    var s' := Step(s, now, ev);
    forall f, m | f in s'.slots && !Exposed(s', f) && m in s'.marks
      ensures DebtOk(s', f, m)
    {
      assert DebtOk(s, f, m);
    }
  }

  lemma DebtsStep(s: Sys, now: real, ev: Event)
    requires Inv(s) && Enabled(s, now, ev) && Within(s, now, ev, SAFE_GAP)
    ensures DebtsOk(Step(s, now, ev))
  {
    hide Inv, Enabled, DebtsOk;
    match ev {
      case Begin(_) => DebtsAtBegin(s, now, ev);
      case Pass(_) => DebtsAtPass(s, now, ev);
      case OutOfTime(_) => DebtsAtTimeOut(s, now, ev);
      case Fail => DebtsAtTimeOut(s, now, ev);
      case Unmark => DebtsAtUnmark(s, now, ev);
      case Finish(_, _) => DebtsAtFinish(s, now, ev);
      case MarkDirty(_) => DebtsAtStore(s, now, ev);
      case CacheResult(_, _, _, _) => DebtsAtStore(s, now, ev);
      case _ => DebtsElsewhere(s, now, ev);
    }
  }

  // --- Look-ups --------------------------------------------------------------

  /** A look-up whose entry is still in its place was in its place before the step, and the marker has not been
      removed from its set of requirements. */
  lemma HeldBefore(s: Sys, now: real, ev: Event, l: Look)
    requires ClocksOk(s) && IdsOk(s) && VisitOk(s) && ReadOk(s, l) && Enabled(s, now, ev) && Holds(Step(s, now, ev), l)
    requires s.visit.Unmarked? && l.slot.id == s.visit.seen.id ==> l.slot.added <= s.visit.seen.added
    ensures Holds(s, l)
    ensures var r, r' := Req(s, l.slot), Req(Step(s, now, ev), l.slot); r' == r || r' == r + {TIMED_OUT}
  {
    hide DirtySet, Recent, Needed, Answers, Touches, NewExpiry, Max;
  }

  lemma LookKept(s: Sys, now: real, ev: Event, l: Look)
    requires ClocksOk(s) && IdsOk(s) && VisitOk(s) && ReadOk(s, l) && Enabled(s, now, ev) && LookOk(s, l)
    requires s.visit.Unmarked? && l.slot.id == s.visit.seen.id ==> l.slot.added <= s.visit.seen.added
    ensures LookOk(Step(s, now, ev), l)
  {
    var s' := Step(s, now, ev);
    if Holds(s', l) && l.scan.Some? {
      HeldBefore(s, now, ev, l);
      MarksGrow(s, now, ev);
      hide Step, Holds, VisitOk, IdsOk, ClocksOk, Enabled;
      forall k | 0 <= k < l.scan.value.marks && k < |s'.marks|
        ensures Noticed(s'.marks[k], Ent(s', l.slot), l.scan.value.dirty)
      {
        assert Noticed(s.marks[k], Ent(s, l.slot), l.scan.value.dirty);
      }
    }
  }

  lemma MarksGrow(s: Sys, now: real, ev: Event)
    requires Enabled(s, now, ev)
    ensures s.marks <= Step(s, now, ev).marks
  {
    hide DirtySet, Recent, Needed, Answers, NewExpiry, Max;
  }

  /** At its scan a look-up notices every mark that the entry owes. */
  lemma ScanNotices(s: Sys, l: Look, k: nat)
    requires DebtsOk(s) && Holds(s, l) && k < |s.marks|
    ensures Noticed(s.marks[k], Ent(s, l.slot), DirtySet(s.dirty, l.slot.added))
  {
    var m := s.marks[k];
    assert DebtOk(s, l.fprint, m);
  }

  lemma LooksStep(s: Sys, now: real, ev: Event)
    requires Inv(s) && Enabled(s, now, ev)
    ensures LooksOk(Step(s, now, ev))
  {
    var s' := Step(s, now, ev);
    forall i | 0 <= i < |s'.looks|
      ensures LookOk(s', s'.looks[i])
    {
      LookStep(s, now, ev, i);
    }
  }

  lemma LookStep(s: Sys, now: real, ev: Event, i: nat)
    requires Inv(s) && Enabled(s, now, ev) && i < |Step(s, now, ev).looks|
    ensures LookOk(Step(s, now, ev), Step(s, now, ev).looks[i])
  {
    var s' := Step(s, now, ev);
    if i < |s.looks| {
      assert ReadOk(s, s.looks[i]) && LookOk(s, s.looks[i]);
    }
    hide LooksOk, ReadsOk, DebtsOk, MarksOk;
    if ev.ScanDirty? && i == ev.look {
      hide VisitOk, ClocksOk, IdsOk, ReadOk;
      forall k | 0 <= k < |s.marks| && Holds(s, s.looks[i])
        ensures Noticed(s.marks[k], Ent(s, s.looks[i].slot), DirtySet(s.dirty, s.looks[i].slot.added))
      {
        ScanNotices(s, s.looks[i], k);
      }
    } else if i < |s.looks| {
      LookKept(s, now, ev, s.looks[i]);
      LookSame(s, now, ev, i);
    }
  }

  lemma LookSame(s: Sys, now: real, ev: Event, i: nat)
    requires Enabled(s, now, ev) && i < |s.looks| && !(ev.ScanDirty? && i == ev.look)
    ensures i < |Step(s, now, ev).looks| && Step(s, now, ev).looks[i] == s.looks[i]
  {
    hide DirtySet, Recent, Needed, Answers, NewExpiry, Max;
  }

  lemma StepKeepsInv(s: Sys, now: real, ev: Event)
    requires Inv(s) && Enabled(s, now, ev) && Within(s, now, ev, SAFE_GAP)
    ensures Inv(Step(s, now, ev))
  {
    DebtsStep(s, now, ev);
    LooksStep(s, now, ev);
    hide LooksOk, DebtsOk, Enabled, Step;
    ClocksStep(s, now, ev);
    MarksStep(s, now, ev);
    IdsStep(s, now, ev);
    VisitStep(s, now, ev);
    ReadsStep(s, now, ev);
  }

  lemma {:induction false} RunKeepsInv(r: Run, gap: real)
    requires After(r).Some? && AllWithin(r, gap) && gap <= SAFE_GAP
    ensures Inv(After(r).value)
  {
    hide Inv, Enabled, Step;
    match r {
      case Created(now) => InitOk(now);
      case Then(init, now, ev) =>
        RunKeepsInv(init, gap);
        StepKeepsInv(After(init).value, now, ev);
    }
  }

  lemma InitOk(now: real)
    ensures Inv(Init(now))
  {
  }

  /** A look-up that answers has noticed nothing. */
  lemma AnswerIsFresh(s: Sys, l: Look)
    requires ReadOk(s, l) && LookOk(s, l) && Answers(s, l) && Holds(s, l)
    ensures Fresh(s, l)
  {
    var e, dirty := Ent(s, l.slot), l.scan.value.dirty;
    forall k | 0 <= k < l.scan.value.marks && k < |s.marks|
      ensures !Touches(s.marks[k], e)
    {
      assert Noticed(s.marks[k], e, dirty);
      assert TIMED_OUT in e.req ==> TIMED_OUT in e.req * dirty;
      assert s.marks[k].req <= dirty ==> s.marks[k].req * e.req <= e.req * dirty;
    }
  }

  /** Every look-up that can answer now, and whose entry is in its place and not exposed, is fresh. */
  ghost predicate AnswersFresh(s: Sys) {
    forall i :: 0 <= i < |s.looks| && Answers(s, s.looks[i]) && Holds(s, s.looks[i]) ==> Fresh(s, s.looks[i])
  }

  /** Freshness: after every run whose refreshes come in time, a dirty-checked look-up hands out an entry that no
      mark ever made, kept or thrown away, had touched when it read what is dirty; unless meanwhile the entry has
      been replaced, or refresh has removed its marker and not stored the new one yet. */
  lemma ServedIsFresh(r: Run, s: Sys, gap: real)
    requires After(r) == Some(s) && AllWithin(r, gap) && gap <= SAFE_GAP
    ensures AnswersFresh(s)
  {
    RunKeepsInv(r, gap);
    forall i | 0 <= i < |s.looks| && Answers(s, s.looks[i]) && Holds(s, s.looks[i])
      ensures Fresh(s, s.looks[i])
    {
      hide ClocksOk, MarksOk, IdsOk, VisitOk, DebtsOk, ReadOk, LookOk;
      AnswerIsFresh(s, s.looks[i]);
    }
  }

  // --- What stays in the cache -------------------------------------------------

  /** One step: an entry comes in when it is stored, and goes only when a refresh begins after its time. */
  lemma StepKeepsEntry(s: Sys, now: real, ev: Event, f: string)
    requires Enabled(s, now, ev)
    ensures f in Step(s, now, ev).slots <==>
            || (ev.CacheResult? && ev.fprint == f)
            || (f in s.slots && (ev.Begin? ==> s.slots[f].expires >= now))
    ensures f in s.slots && f in Step(s, now, ev).slots && !Replaces(s, ev, f) ==>
              SameSlot(Step(s, now, ev).slots[f], s.slots[f]) && Step(s, now, ev).slots[f].result == s.slots[f].result
  {
    hide DirtySet, Recent, Needed, Answers, NewExpiry, Max;
  }

  /** The event puts another result in the place of an entry. */
  predicate Replaces(s: Sys, ev: Event, f: string) {
    (ev.CacheResult? && ev.fprint == f) || (ev.Finish? && s.visit.Unmarked? && s.visit.fprint == f)
  }

  /** Since the earlier run the fingerprint was not stored again. */
  predicate NotStored(r: Run, early: Run, f: string) {
    r == early || (r.Then? && NotStored(r.init, early, f) && !(r.ev.CacheResult? && r.ev.fprint == f))
  }

  /** Since the earlier run no refresh began after the time of the entry. */
  predicate NeverExpired(r: Run, early: Run, f: string) {
    || r == early
    || (r.Then? && NeverExpired(r.init, early, f)
        && (r.ev.Begin? && After(r.init).Some? && f in After(r.init).value.slots ==>
              After(r.init).value.slots[f].expires >= r.now))
  }

  /** Over every run: an entry that is not stored again is still there if and only if it was not expired at the start
      of any refresh. */
  lemma {:induction false} EntryStaysExactly(r: Run, early: Run, f: string)
    requires After(r).Some? && NotStored(r, early, f)
    ensures After(early).Some?
    ensures f in After(early).value.slots ==> (f in After(r).value.slots <==> NeverExpired(r, early, f))
  {
    if r != early {
      EntryStaysExactly(r.init, early, f);
      hide Step, Enabled;
      StepKeepsEntry(After(r.init).value, r.now, r.ev, f);
    }
  }
}
