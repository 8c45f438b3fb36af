/** Whole calls of the command cache, when nothing happens meanwhile, as sequences of the single steps
    (mailpile/command_cache.py:61-140). */
module CacheRefresh {
  import opened Wrappers
  import opened CommandCache
  import opened CacheProtocol
  import opened CacheRuns

  /** Changing a set of requirements in place changes one entry. */
  lemma WithReqView(s: Sys, f: string, req: Reqs)
    requires IdsOk(s) && f in s.slots
    ensures View(WithReq(s, s.slots[f], req))
         == View(s).(entries := View(s).entries[f := View(s).entries[f].(req := req)])
  {
    var a := View(WithReq(s, s.slots[f], req)).entries;
    var b := View(s).entries[f := View(s).entries[f].(req := req)];
    assert a.Keys == b.Keys;
    forall g | g in a
      ensures a[g] == b[g]
    {
    }
  }

  lemma StoredView(s: Sys, f: string, e: Slot)
    requires f in s.slots && e.id < |s.reqs|
    ensures View(s.(slots := s.slots[f := e])) == View(s).(entries := View(s).entries[f := Ent(s, e)])
  {
  }

  /** Refresh goes through one fingerprint. */
  predicate CanVisit(s: Sys, f: string, now: real) {
    now >= s.clock && s.visit.Resting? && f in s.todo && f in s.slots
  }

  function AtRead(s: Sys, f: string, now: real): (t: Sys)
    requires CanVisit(s, f, now)
    ensures t == s.(clock := now, visit := Reading(f, s.slots[f], now))
  {
    Step(s, now, Read(f))
  }

  /** What is the same after a visit, and what is not. */
  ghost predicate Visited(s: Sys, t: Sys, f: string, now: real, c: Cache) {
    && View(t) == c && Inv(t)
    && t.marks == s.marks && t.todo == s.todo - {f} && t.visit.Resting?
    && t.clock == now && t.begun == s.begun && t.deadline == s.deadline && t.slots.Keys == s.slots.Keys
  }

  lemma NeededIs(s: Sys, f: string, now: real)
    requires CanVisit(s, f, now)
    ensures Needed(AtRead(s, f, now), now) <==> NeedsRun(View(s), View(s).entries[f], now)
    ensures Inv(s) ==> Inv(AtRead(s, f, now))
  {
    if Inv(s) {
      hide Inv;
      StepKeepsInv(s, now, Read(f));
    }
  }

  lemma VisitPasses(s: Sys, f: string, now: real) returns (t: Sys)
    requires CanVisit(s, f, now) && Inv(s) && !NeedsRun(View(s), View(s).entries[f], now)
    ensures Visited(s, t, f, now, View(s))
  {
    hide Inv, NeedsRun, Needed;
    NeededIs(s, f, now);
    StepKeepsInv(AtRead(s, f, now), now, Pass(now));
    t := Step(AtRead(s, f, now), now, Pass(now));
    assert View(t).entries == View(s).entries;
  }

  lemma TimedOutView(s: Sys, f: string, now: real)
    requires IdsOk(s) && f in s.slots
    ensures View(WithReq(s, s.slots[f], Req(s, s.slots[f]) + {TIMED_OUT})) == TimeOut(View(s), f)
  {
    WithReqView(s, f, Req(s, s.slots[f]) + {TIMED_OUT});
  }

  lemma VisitTimesOut(s: Sys, f: string, now: real) returns (t: Sys)
    requires CanVisit(s, f, now) && Inv(s) && NeedsRun(View(s), View(s).entries[f], now) && now >= s.deadline
    ensures Visited(s, t, f, now, TimeOut(View(s), f))
  {
    NeededIs(s, f, now);
    TimedOutView(s, f, now);
    hide Inv, NeedsRun, Needed, TimeOut, WithReq;
    var r := AtRead(s, f, now);
    StepKeepsInv(r, now, OutOfTime(now));
    t := Step(r, now, OutOfTime(now));
    TimeOutShape(s, r, t, f, now);
  }

  /** The marker goes on, whether time is up or the command fails. */
  lemma TimeOutShape(s: Sys, r: Sys, t: Sys, f: string, now: real)
    requires f in s.slots && (r.visit.Reading? || r.visit.Running?) && r.visit.fprint == f && r.visit.seen == s.slots[f]
    requires r == s.(clock := now, visit := r.visit)
    requires t == Done(WithReq(r, s.slots[f], Req(r, s.slots[f]) + {TIMED_OUT}))
    ensures var u := WithReq(s, s.slots[f], Req(s, s.slots[f]) + {TIMED_OUT});
            && View(t).entries == View(u).entries && View(t).dirty == View(u).dirty
            && t == u.(clock := now, todo := s.todo - {f}, visit := Resting)
    ensures t.slots == s.slots && t.marks == s.marks && t.begun == s.begun && t.deadline == s.deadline
  {
  }

  function AtStart(s: Sys, f: string, now: real): (t: Sys)
    requires CanVisit(s, f, now) && Needed(AtRead(s, f, now), now) && now < s.deadline
    ensures t == s.(clock := now, visit := Running(f, s.slots[f], now))
  {
    Step(AtRead(s, f, now), now, Start(now))
  }

  lemma VisitFails(s: Sys, f: string, now: real) returns (t: Sys)
    requires CanVisit(s, f, now) && Inv(s) && NeedsRun(View(s), View(s).entries[f], now) && now < s.deadline
    ensures Visited(s, t, f, now, TimeOut(View(s), f))
  {
    NeededIs(s, f, now);
    TimedOutView(s, f, now);
    hide Inv, NeedsRun, Needed, TimeOut, WithReq;
    var r := AtStart(s, f, now);
    StepKeepsInv(AtRead(s, f, now), now, Start(now));
    StepKeepsInv(r, now, Fail);
    t := Step(r, now, Fail);
    TimeOutShape(s, r, t, f, now);
  }

  function AtUnmark(s: Sys, f: string, now: real): (t: Sys)
    requires CanVisit(s, f, now) && Needed(AtRead(s, f, now), now) && now < s.deadline
    ensures t == WithReq(s, s.slots[f], Req(s, s.slots[f]) - {TIMED_OUT})
                   .(clock := now, visit := Unmarked(f, s.slots[f], now))
  {
    Step(AtStart(s, f, now), now, Unmark)
  }

  lemma RenewedView(s: Sys, f: string, now: real, result: nat, extend: real)
    requires IdsOk(s) && f in s.slots
    ensures var u := WithReq(s, s.slots[f], Req(s, s.slots[f]) - {TIMED_OUT});
            var e := s.slots[f];
            var expires := Max(NewExpiry(e.expires, extend, now), e.expires);
            View(u.(slots := u.slots[f := Slot(expires, e.id, result, now)]))
            == Renew(View(s), f, Ent(s, e), extend, now, result)
  {
    var e := s.slots[f];
    var u := WithReq(s, e, Req(s, e) - {TIMED_OUT});
    WithReqView(s, f, Req(s, e) - {TIMED_OUT});
    StoredView(u, f, Slot(Max(NewExpiry(e.expires, extend, now), e.expires), e.id, result, now));
  }

  lemma VisitRenews(s: Sys, f: string, now: real, result: nat, extend: real) returns (t: Sys)
    requires CanVisit(s, f, now) && Inv(s) && NeedsRun(View(s), View(s).entries[f], now) && now < s.deadline
    ensures Visited(s, t, f, now, Renew(View(s), f, View(s).entries[f], extend, now, result))
  {
    NeededIs(s, f, now);
    RenewedView(s, f, now, result, extend);
    hide Inv, NeedsRun, Needed, Renew, IdsOk, View, Stored, Req;
    UnmarkKeepsInv(s, f, now);
    var r := AtUnmark(s, f, now);
    StepKeepsInv(r, now, Finish(result, extend));
    t := Step(r, now, Finish(result, extend));
    FinishShape(s, t, f, now, result, extend);
  }

  lemma UnmarkKeepsInv(s: Sys, f: string, now: real)
    requires CanVisit(s, f, now) && Needed(AtRead(s, f, now), now) && now < s.deadline && Inv(AtRead(s, f, now))
    ensures Inv(AtStart(s, f, now)) && Inv(AtUnmark(s, f, now))
  {
    hide Inv, Needed;
    StepKeepsInv(AtRead(s, f, now), now, Start(now));
    StepKeepsInv(AtStart(s, f, now), now, Unmark);
  }

  lemma FinishShape(s: Sys, t: Sys, f: string, now: real, result: nat, extend: real)
    requires f in s.slots
    requires var r := WithReq(s, s.slots[f], Req(s, s.slots[f]) - {TIMED_OUT})
                        .(clock := now, visit := Unmarked(f, s.slots[f], now));
             t == Done(Stored(r, result, extend))
    ensures var u := WithReq(s, s.slots[f], Req(s, s.slots[f]) - {TIMED_OUT});
            var e := s.slots[f];
            var expires := Max(NewExpiry(e.expires, extend, now), e.expires);
            var v := u.(slots := u.slots[f := Slot(expires, e.id, result, now)]);
            && View(t).entries == View(v).entries && View(t).dirty == View(v).dirty
            && t == v.(clock := now, todo := s.todo - {f}, visit := Resting)
    ensures t.slots.Keys == s.slots.Keys && t.marks == s.marks && t.begun == s.begun && t.deadline == s.deadline
  {
  }

  /** Refresh handles a fingerprint, step by step, as the method of the cache does, and keeps the invariant. */
  lemma VisitIsSteps(s: Sys, f: string, extend: real, now: real, outcome: Option<nat>) returns (t: Sys)
    requires CanVisit(s, f, now) && Inv(s)
    ensures Visited(s, t, f, now, Visit(View(s), f, extend, s.deadline, now, outcome))
  {
    hide Inv, NeedsRun, TimeOut, Renew, Visited;
    if !NeedsRun(View(s), View(s).entries[f], now) {
      t := VisitPasses(s, f, now);
    } else if now >= s.deadline {
      t := VisitTimesOut(s, f, now);
    } else if outcome.None? {
      t := VisitFails(s, f, now);
    } else {
      t := VisitRenews(s, f, now, outcome.value, extend);
    }
  }

  /** A whole refresh, as the method of the cache computes it, keeps the invariant. */
  lemma {:induction false} RefreshKeepsInv(s: Sys, order: seq<string>, extend: real,
                                           times: seq<real>, outcomes: seq<Option<nat>>) returns (t: Sys)
    requires |times| == |outcomes| == |order|
    requires Inv(s) && s.visit.Resting? && (forall f :: f in order ==> f in s.todo && f in s.slots)
    requires forall i, j :: 0 <= i < j < |order| ==> order[i] != order[j]
    requires forall i :: 0 <= i < |times| ==> s.clock <= times[i]
    requires forall i, j :: 0 <= i < j < |times| ==> times[i] <= times[j]
    ensures View(t) == Visits(View(s), order, extend, s.deadline, times, outcomes) && Inv(t)
    ensures t.todo == s.todo - set f | f in order
    ensures t.visit.Resting? && t.deadline == s.deadline && t.begun == s.begun && t.marks == s.marks
    ensures t.slots.Keys == s.slots.Keys && t.clock == if order == [] then s.clock else times[|times| - 1]
  {
    hide Inv, View, Visit;
    if order == [] {
      t := s;
    } else {
      var n := |order| - 1;
      var u := RefreshKeepsInv(s, order[..n], extend, times[..n], outcomes[..n]);
      assert order == order[..n] + [order[n]];
      assert order[n] in order;
      t := VisitIsSteps(u, order[n], extend, times[n], outcomes[n]);
    }
  }

  /** A refresh begins as the method of the cache does. */
  lemma BeginView(s: Sys, now: real, runtime: real)
    requires Enabled(s, now, Begin(runtime))
    ensures View(Step(s, now, Begin(runtime))) == Expire(View(s), now)
    ensures Step(s, now, Begin(runtime)).todo == Expire(View(s), now).entries.Keys
  {
    hide Recent;
    var t := Step(s, now, Begin(runtime));
    assert View(t).entries == Expire(View(s), now).entries;
    assert t.todo == View(t).entries.Keys;
  }

  /** Handing out the entry, if nothing came between, extends its life as the method of the cache does. */
  lemma AnswerView(s: Sys, f: string, now: real, dirtyCheck: bool, extend: real)
    requires IdsOk(s) && f in s.slots && now >= s.clock
    requires var t := Step(s, now, LookUp(f)); Enabled(t, now, Answer(|s.looks|, dirtyCheck, extend))
    ensures var t := Step(s, now, LookUp(f));
            View(Step(t, now, Answer(|s.looks|, dirtyCheck, extend)))
            == View(s).(entries := View(s).entries[f := View(s).entries[f].(expires := now + extend)])
  {
    var t := Step(s, now, LookUp(f));
    var u := Step(t, now, Answer(|s.looks|, dirtyCheck, extend));
    hide DirtySet;
    assert View(u).entries == View(s).entries[f := View(s).entries[f].(expires := now + extend)];
  }

  /** A look-up that nothing comes between, as the method of the cache does it: it answers exactly when the
      entry is old enough and clean, and its entry is in its place. */
  lemma LookUpIsSteps(s: Sys, f: string, now: real)
    requires IdsOk(s) && f in s.slots && now >= s.clock
    ensures var t := Step(s, now, LookUp(f));
            var i := |s.looks|;
            Served(View(s), f, now, true) <==>
              Enabled(t, now, ScanDirty(i)) && Answers(Step(t, now, ScanDirty(i)), Step(t, now, ScanDirty(i)).looks[i])
    ensures var t := Step(s, now, LookUp(f));
            var i := |s.looks|;
            Enabled(t, now, ScanDirty(i)) && !Exposed(s, f) ==>
              Holds(Step(t, now, ScanDirty(i)), Step(t, now, ScanDirty(i)).looks[i])
  {
    hide DirtySet;
  }
}
