/** What every step of a worker and its queues keeps (mailpile/workers.py:201-221, 264-304, 336-372). */
module WorkerSteps {
  import opened Wrappers
  import opened WorkerProtocol

  function Count(jobs: seq<Job>, j: Job): nat {
    if jobs == [] then 0 else Count(jobs[..|jobs| - 1], j) + (if jobs[|jobs| - 1] == j then 1 else 0)
  }

  function Queued(jobs: seq<Item>): seq<Job> {
    seq(|jobs|, i requires 0 <= i < |jobs| => jobs[i].job)
  }

  function Postponed(later: seq<Delayed>): seq<Job> {
    seq(|later|, i requires 0 <= i < |later| => later[i].job)
  }

  function Ended(log: seq<(Job, End)>): seq<Job> {
    seq(|log|, i requires 0 <= i < |log| => log[i].0)
  }

  function InHand(p: Phase): seq<Job> {
    if p.Running? then [p.item.job] else []
  }

  /** How often a task is queued, delayed, running or ended. */
  function Held(s: State, j: Job): nat {
    Count(Queued(s.jobs), j) + Count(Postponed(s.later), j) + Count(InHand(s.phase), j) + Count(Ended(s.log), j)
  }

  /** No delayed task got in before its time. */
  predicate OnTime(item: Item) {
    item.due.Some? ==> item.due.value <= item.entered
  }

  ghost predicate Punctual(s: State) {
    && (forall i :: 0 <= i < |s.jobs| ==> OnTime(s.jobs[i]))
    && (s.phase.Running? ==> OnTime(s.phase.item))
  }

  ghost predicate Conserved(s: State) {
    forall j :: s.accepted[j] == Held(s, j)
  }

  /** Only a task without a session that postpones itself brings the worker down. */
  ghost predicate DroppedOnlyByCrash(s: State) {
    s.phase.Crashed? <==> HasDrop(s.log)
  }

  predicate HasDrop(log: seq<(Job, End)>) {
    exists i :: 0 <= i < |log| && log[i].1 == Dropped
  }

  lemma HasDropMore(log: seq<(Job, End)>, e: (Job, End))
    ensures HasDrop(log + [e]) <==> HasDrop(log) || e.1 == Dropped
  {
    var more := log + [e];
    assert more[|log|] == e;
    if HasDrop(log) {
      var i :| 0 <= i < |log| && log[i].1 == Dropped;
      assert more[i].1 == Dropped;
    }
  }

  ghost predicate Inv(s: State) {
    && Punctual(s)
    && Conserved(s)
    && DroppedOnlyByCrash(s)
    && (s.phase.Pausing? ==> s.jobs != [])
    && (s.phase.Resting? ==> s.important)
    && (!s.important && s.phase == Waiting(false) ==> s.jobs == [])
  }

  lemma {:induction false} CountOver(a: seq<Job>, b: seq<Job>, j: Job)
    ensures Count(a + b, j) == Count(a, j) + Count(b, j)
  {
    if b == [] {
      assert a + b == a;
    } else {
      var n := |b| - 1;
      CountOver(a, b[..n], j);
      assert (a + b)[..|a + b| - 1] == a + b[..n];
    }
  }

  lemma CountOne(x: Job, j: Job)
    ensures Count([x], j) == if x == j then 1 else 0
  {
    assert [x][..0] == [];
  }

  /** Delayed tasks are split into those that are due and those that are not. */
  lemma {:induction false} DueSplit(later: seq<Delayed>, now: real, j: Job)
    ensures Count(Postponed(later), j)
         == Count(Queued(DueOnes(later, now)), j) + Count(Postponed(NotDue(later, now)), j)
  {
    if later != [] {
      var n := |later| - 1;
      var due, rest := DueOnes(later[..n], now), NotDue(later[..n], now);
      DueSplit(later[..n], now, j);
      assert Postponed(later) == Postponed(later[..n]) + [later[n].job];
      CountOne(later[n].job, j);
      CountOver(Postponed(later[..n]), [later[n].job], j);
      if later[n].ts <= now {
        assert Queued(DueOnes(later, now)) == Queued(due) + [later[n].job];
        CountOver(Queued(due), [later[n].job], j);
      } else {
        assert Postponed(NotDue(later, now)) == Postponed(rest) + [later[n].job];
        CountOver(Postponed(rest), [later[n].job], j);
      }
    }
  }

  lemma {:induction false} DueOnesOnTime(later: seq<Delayed>, now: real)
    ensures forall i :: 0 <= i < |DueOnes(later, now)| ==> OnTime(DueOnes(later, now)[i])
    ensures forall i :: 0 <= i < |NotDue(later, now)| ==> NotDue(later, now)[i].ts > now
  {
    if later == [] {
    } else {
      DueOnesOnTime(later[..|later| - 1], now);
    }
  }

  predicate Ascending(at: seq<nat>) {
    forall i, j :: 0 <= i < j < |at| ==> at[i] < at[j]
  }

  lemma AscendingMore(at: seq<nat>, n: nat)
    requires Ascending(at) && forall i :: i in at ==> i < n
    ensures Ascending(at + [n]) && forall i :: i in at + [n] <==> i in at || i == n
  {
    assert forall i :: 0 <= i < |at| ==> at[i] in at;
  }

  /** The tasks that come in are exactly those that are due, in order, each with its time. */
  lemma {:induction false} DueOnesAt(later: seq<Delayed>, now: real) returns (at: seq<nat>)
    ensures Ascending(at) && |at| == |DueOnes(later, now)|
    ensures forall i: nat :: i in at <==> i < |later| && later[i].ts <= now
    ensures forall k :: 0 <= k < |at| && at[k] < |later| ==>
              DueOnes(later, now)[k] == Item(later[at[k]].job, Some(later[at[k]].ts), now)
  {
    if later == [] {
      at := [];
    } else {
      var n := |later| - 1;
      var init, all := DueOnes(later[..n], now), DueOnes(later, now);
      var item := Item(later[n].job, Some(later[n].ts), now);
      at := DueOnesAt(later[..n], now);
      assert all == if later[n].ts <= now then init + [item] else init;
      hide DueOnes;
      assert forall k :: 0 <= k < |at| ==> at[k] in at;
      if later[n].ts <= now {
        AscendingMore(at, n);
        at := at + [n];
      }
    }
  }

  /** The others stay, in order. */
  lemma {:induction false} NotDueAt(later: seq<Delayed>, now: real) returns (at: seq<nat>)
    ensures Ascending(at) && |at| == |NotDue(later, now)|
    ensures forall i: nat :: i in at <==> i < |later| && later[i].ts > now
    ensures forall k :: 0 <= k < |at| && at[k] < |later| ==> NotDue(later, now)[k] == later[at[k]]
  {
    if later == [] {
      at := [];
    } else {
      var n := |later| - 1;
      var init, all := NotDue(later[..n], now), NotDue(later, now);
      at := NotDueAt(later[..n], now);
      assert all == if later[n].ts > now then init + [later[n]] else init;
      hide NotDue;
      assert forall k :: 0 <= k < |at| ==> at[k] in at;
      if later[n].ts > now {
        AscendingMore(at, n);
        at := at + [n];
      }
    }
  }

  lemma EnqueueHolds(s: State, job: Job, o: Options, now: real, j: Job)
    ensures Held(Enqueue(s, job, o, now), j) == Held(s, j) + (if job == j then 1 else 0)
  {
    var t := Enqueue(s, job, o, now);
    CountOne(job, j);
    if o.first {
      assert Queued(t.jobs) == [job] + Queued(s.jobs);
      CountOver([job], Queued(s.jobs), j);
    } else if o.after.Some? {
      assert Postponed(t.later) == Postponed(s.later) + [job];
      CountOver(Postponed(s.later), [job], j);
    } else {
      assert Queued(t.jobs) == Queued(s.jobs) + [job];
      CountOver(Queued(s.jobs), [job], j);
    }
  }

  lemma PopHolds(s: State, now: real, j: Job)
    requires s.jobs != [] && s.phase.Pausing?
    ensures Held(Pop(s, now), j) == Held(s, j)
  {
    var t, job := Pop(s, now), s.jobs[0].job;
    assert Queued(s.jobs) == [job] + Queued(s.jobs[1..]);
    CountOver([job], Queued(s.jobs[1..]), j);
    DueSplit(s.later, now, j);
  }

  /** A task leaves the worker's hand. */
  lemma LetGo(s: State, j: Job)
    requires s.phase.Running?
    ensures Held(s.(phase := Testing(1)), j) == Held(s, j) - (if s.phase.item.job == j then 1 else 0)
  {
    CountOne(s.phase.item.job, j);
    hide Queued, Postponed, Ended;
  }

  lemma LogHolds(s: State, t: State, e: End, j: Job)
    requires s.phase.Running? && !t.phase.Running?
    requires t.jobs == s.jobs && t.later == s.later && t.log == s.log + [(s.phase.item.job, e)]
    ensures Held(t, j) == Held(s, j)
  {
    CountOne(s.phase.item.job, j);
    EndedMore(s.log, s.phase.item.job, e, j);
    hide Queued, Postponed, Ended;
  }

  lemma FinishHolds(s: State, o: Outcome, now: real, j: Job)
    requires s.phase.Running?
    ensures Held(Finish(s, o, now), j) == Held(s, j)
  {
    var job, t := s.phase.item.job, s.(phase := Testing(1));
    LetGo(s, j);
    hide Held, Refused, Enqueue;
    match o
    case Finishes(_) => LogHolds(s, Finish(s, o, now), Done, j);
    case Postpones(seconds) =>
      if job.hasSession {
        EnqueueHolds(t, job, Options(Some(now + seconds), false, false), now, j);
      } else {
        LogHolds(s, Finish(s, o, now), Dropped, j);
      }
    case Fails =>
      if s.important && !Refused(t, job.name, UNIQUE) {
        EnqueueHolds(t, job, UNIQUE, now, j);
      } else {
        LogHolds(s, Finish(s, o, now), Broken, j);
      }
  }

  lemma EndedMore(log: seq<(Job, End)>, job: Job, e: End, j: Job)
    ensures Count(Ended(log + [(job, e)]), j) == Count(Ended(log), j) + (if job == j then 1 else 0)
  {
    assert Ended(log + [(job, e)]) == Ended(log) + [job];
    CountOne(job, j);
    CountOver(Ended(log), [job], j);
  }

  /** Tasks in hand aside, only the queues and the log count. */
  lemma SameHeld(s: State, t: State, j: Job)
    requires s.jobs == t.jobs && s.later == t.later && s.log == t.log && InHand(s.phase) == InHand(t.phase)
    ensures Held(s, j) == Held(t, j)
  {
  }

  lemma AddHolds(s: State, job: Job, o: Options, now: real, j: Job)
    ensures Held(AddTask(s, job, o, now), j)
         == Held(s, j) + (if job == j && !Refused(s, job.name, o) then 1 else 0)
  {
    var t := Enqueue(s, job, o, now);
    hide Refused, Held;
    EnqueueHolds(s, job, o, now, j);
    SameHeld(t, Notify(t), j);
  }

  lemma AdvanceSame(s: State)
    ensures var t := Advance(s);
            t.jobs == s.jobs && t.later == s.later && t.log == s.log && InHand(t.phase) == InHand(s.phase)
            && t.accepted == s.accepted && t.important == s.important
  {
  }

  lemma StepHolds(s: State, e: Event, j: Job)
    requires s.phase.Pausing? ==> s.jobs != []
    requires Enabled(s, e) && s.accepted[j] == Held(s, j)
    ensures !PopFails(s, e) && Step(s, e).accepted[j] == Held(Step(s, e), j)
  {
    hide Held, AddTask, Refused, Pop, Finish, Advance;
    match e
    case Add(job, options, now) =>
      AddHolds(s, job, options, now, j);
      AddKeepsRest(s, job, options, now);
      SameHeld(Step(s, e), AddTask(s, job, options, now), j);
    case Take(now) =>
      PopHolds(s, now, j);
      PopKeepsRest(s, now);
    case End(outcome, now) =>
      FinishHolds(s, outcome, now, j);
      FinishKeepsRest(s, outcome, now);
    case Loop =>
      AdvanceSame(s);
      SameHeld(s, Advance(s), j);
    case Quit(quitting) =>
      SameHeld(s, s.(quitting := quitting), j);
  }

  lemma AddKeepsRest(s: State, job: Job, o: Options, now: real)
    ensures var t := AddTask(s, job, o, now);
            t.accepted == s.accepted && t.log == s.log && t.important == s.important
  {
    EnqueueRest(s, job, o, now);
    hide Refused, Enqueue;
  }

  lemma PopKeepsRest(s: State, now: real)
    requires s.jobs != []
    ensures Pop(s, now).accepted == s.accepted && Pop(s, now).log == s.log
  {
    hide DueOnes, NotDue;
  }

  lemma FinishKeepsRest(s: State, o: Outcome, now: real)
    requires s.phase.Running?
    ensures Finish(s, o, now).accepted == s.accepted && Finish(s, o, now).important == s.important
  {
    hide Refused;
  }

  lemma EnqueuePunctual(s: State, job: Job, o: Options, now: real)
    requires Punctual(s)
    ensures Punctual(Enqueue(s, job, o, now))
  {
  }

  lemma StepPunctual(s: State, e: Event)
    requires Punctual(s) && Enabled(s, e) && !PopFails(s, e)
    ensures Punctual(Step(s, e))
  {
    hide OnTime, AddTask, Pop, Finish;
    match e
    case Add(job, options, now) => AddPunctual(s, job, options, now);
    case Take(now) => PopPunctual(s, now);
    case End(outcome, now) => FinishPunctual(s, outcome, now);
    case _ =>
  }

  lemma AddPunctual(s: State, job: Job, o: Options, now: real)
    requires Punctual(s)
    ensures Punctual(AddTask(s, job, o, now))
  {
    EnqueuePunctual(s, job, o, now);
    hide Refused, Enqueue, OnTime;
  }

  lemma PopPunctual(s: State, now: real)
    requires Punctual(s) && s.jobs != []
    ensures Punctual(Pop(s, now))
  {
    DueOnesOnTime(s.later, now);
    hide DueOnes, NotDue, OnTime;
  }

  lemma FinishPunctual(s: State, o: Outcome, now: real)
    requires Punctual(s) && s.phase.Running?
    ensures Punctual(Finish(s, o, now))
  {
    var job, t := s.phase.item.job, s.(phase := Testing(1));
    assert Punctual(t);
    hide Refused, Enqueue, OnTime;
    match o
    case Postpones(seconds) =>
      EnqueuePunctual(t, job, Options(Some(now + seconds), false, false), now);
    case Fails =>
      EnqueuePunctual(t, job, UNIQUE, now);
    case _ =>
  }

  /** Queueing a task touches nothing but the queues. */
  lemma EnqueueRest(s: State, job: Job, o: Options, now: real)
    ensures var t := Enqueue(s, job, o, now);
            t.log == s.log && t.phase == s.phase && t.important == s.important && t.accepted == s.accepted
  {
  }

  lemma DropsAfter(s: State, o: Outcome, now: real)
    requires DroppedOnlyByCrash(s) && s.phase.Running?
    ensures DroppedOnlyByCrash(Finish(s, o, now))
  {
    var job, t := s.phase.item.job, s.(phase := Testing(1));
    EnqueueRest(t, job, UNIQUE, now);
    hide HasDrop, Refused, Enqueue;
    match o
    case Finishes(_) => HasDropMore(s.log, (job, Done));
    case Postpones(seconds) =>
      EnqueueRest(t, job, Options(Some(now + seconds), false, false), now);
      HasDropMore(s.log, (job, Dropped));
    case Fails => HasDropMore(s.log, (job, Broken));
  }

  lemma StepDrops(s: State, e: Event)
    requires DroppedOnlyByCrash(s) && Enabled(s, e) && !PopFails(s, e)
    ensures DroppedOnlyByCrash(Step(s, e))
  {
    hide HasDrop, Refused, DueOnes, NotDue, Enqueue, Finish;
    match e
    case Add(job, options, now) => EnqueueRest(s, job, options, now);
    case End(outcome, now) => DropsAfter(s, outcome, now);
    case _ =>
  }

  lemma AddPhase(s: State, job: Job, o: Options, now: real)
    ensures var t := AddTask(s, job, o, now);
            && (t == s || t.phase == if s.phase.Waiting? then Waiting(true) else s.phase)
            && (s.jobs != [] ==> t.jobs != [])
  {
    hide Refused;
  }

  lemma FinishPhase(s: State, o: Outcome, now: real)
    requires s.phase.Running?
    ensures Finish(s, o, now).phase in {Testing(1), Crashed}
  {
    hide Refused;
  }

  lemma StepPhases(s: State, e: Event)
    requires Inv(s) && Enabled(s, e) && !PopFails(s, e)
    ensures var t := Step(s, e);
            && (t.phase.Pausing? ==> t.jobs != [])
            && (t.phase.Resting? ==> t.important)
            && (!t.important && t.phase == Waiting(false) ==> t.jobs == [])
  {
    hide Punctual, Conserved, DroppedOnlyByCrash, DueOnes, NotDue, Refused, AddTask, Finish;
    match e
    case Add(job, options, now) =>
      AddPhase(s, job, options, now);
      AddKeepsRest(s, job, options, now);
    case End(outcome, now) =>
      FinishPhase(s, outcome, now);
      FinishKeepsRest(s, outcome, now);
    case _ =>
  }

  /** Every step keeps the invariant, and taking a task never finds the queue empty. */
  lemma StepKeeps(s: State, e: Event)
    requires Inv(s) && Enabled(s, e)
    ensures !PopFails(s, e) && Inv(Step(s, e))
  {
    StepPunctual(s, e);
    StepDrops(s, e);
    StepPhases(s, e);
    hide Punctual, DroppedOnlyByCrash, Held, Step;
    forall j
      ensures Step(s, e).accepted[j] == Held(Step(s, e), j)
    {
      StepHolds(s, e, j);
    }
  }
}
