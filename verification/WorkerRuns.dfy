/** What workers keep over whole runs, and how they stop (mailpile/workers.py:201-221, 264-304, 336-372). */
module WorkerRuns {
  import opened Wrappers
  import opened WorkerProtocol
  import opened WorkerSteps

  predicate Runs(s: State, events: seq<Event>)
    decreases |events|
  {
    events == []
    || (Enabled(s, events[0]) && !PopFails(s, events[0]) && Runs(Step(s, events[0]), events[1..]))
  }

  function Run(s: State, events: seq<Event>): State
    requires Runs(s, events)
    decreases |events|
  {
    if events == [] then s else Run(Step(s, events[0]), events[1..])
  }

  lemma {:induction false} RunKeeps(s: State, events: seq<Event>)
    requires Inv(s) && Runs(s, events)
    ensures Inv(Run(s, events))
    decreases |events|
  {
    hide Inv, Step, Enabled, PopFails;
    if events == [] {
    } else {
      StepKeeps(s, events[0]);
      RunKeeps(Step(s, events[0]), events[1..]);
    }
  }

  lemma StartKeeps(important: bool)
    ensures Inv(Start(important))
  {
  }

  /** Over every interleaving of new tasks with the run loop: the next step never takes a task from an
      empty queue; every accepted task is queued, delayed, running or ended, exactly as often as it was
      accepted; and no delayed task got in before its time. */
  lemma WorkerIsSafe(important: bool, events: seq<Event>, next: Event)
    requires Runs(Start(important), events)
    ensures var s := Run(Start(important), events);
            && (Enabled(s, next) ==> !PopFails(s, next))
            && (forall j :: s.accepted[j] == Held(s, j))
            && (forall i :: 0 <= i < |s.jobs| ==> OnTime(s.jobs[i]))
  {
    StartKeeps(important);
    RunKeeps(Start(important), events);
    hide Run, Runs, Held, OnTime;
  }

  /** The worker is asked to stop: from outside, or by a task. */
  predicate Stops(e: Event) {
    e == Quit(true) || (e.End? && e.outcome == Finishes(true))
  }

  predicate Asked(events: seq<Event>) {
    exists i :: 0 <= i < |events| && Stops(events[i])
  }

  lemma FinishFlags(s: State, o: Outcome, now: real)
    requires s.phase.Running?
    ensures var t := Finish(s, o, now);
            t.quitting == s.quitting && t.alive == (s.alive && o != Finishes(true))
  {
    hide Refused;
  }

  lemma AddFlags(s: State, job: Job, o: Options, now: real)
    ensures var t := AddTask(s, job, o, now); t.quitting == s.quitting && t.alive == s.alive
  {
    hide Refused;
  }

  lemma FlagsStep(s: State, e: Event)
    requires Enabled(s, e) && !PopFails(s, e)
    ensures Step(s, e).important == s.important
    ensures s.alive && !s.quitting && !Stops(e) ==> Step(s, e).alive && !Step(s, e).quitting
  {
    hide Refused, DueOnes, NotDue, Finish, AddTask;
    match e
    case Add(job, options, now) =>
      AddFlags(s, job, options, now);
      AddKeepsRest(s, job, options, now);
    case End(outcome, now) =>
      FinishFlags(s, outcome, now);
      FinishKeepsRest(s, outcome, now);
    case _ =>
  }

  lemma {:induction false} ImportantStays(s: State, events: seq<Event>)
    requires Runs(s, events)
    ensures Run(s, events).important == s.important
    decreases |events|
  {
    hide Step, Enabled, PopFails;
    if events == [] {
    } else {
      FlagsStep(s, events[0]);
      ImportantStays(Step(s, events[0]), events[1..]);
    }
  }

  /** A worker that is to stop after a run, but was not before, was asked to in that run. */
  lemma {:induction false} StopWasAsked(s: State, events: seq<Event>)
    requires Runs(s, events) && s.alive && !s.quitting
    ensures !Run(s, events).alive || Run(s, events).quitting ==> Asked(events)
    decreases |events|
  {
    hide Step, Enabled, PopFails;
    if events != [] && !Stops(events[0]) {
      FlagsStep(s, events[0]);
      StopWasAsked(Step(s, events[0]), events[1..]);
      if Asked(events[1..]) {
        var i :| 0 <= i < |events[1..]| && Stops(events[1..][i]);
        assert events[i + 1] == events[1..][i];
      }
    }
  }

  lemma LockedExitStep(s: State, e: Event)
    requires s.important && Enabled(s, e)
    requires !s.phase.Exited? && !PopFails(s, e) && Step(s, e).phase == Exited(true)
    ensures s.jobs == [] && Step(s, e).jobs == [] && (!s.alive || s.quitting)
  {
    hide AddTask, Finish, DueOnes, NotDue;
    match e
    case Add(job, options, now) => AddPhase(s, job, options, now);
    case End(outcome, now) => FinishPhase(s, outcome, now);
    case _ =>
  }

  /** A stop under the lock, at the end of any run of an important worker: it was asked to stop earlier, its
      queue is empty, and every task that was ever accepted has ended or is delayed. */
  lemma ImportantExit(events: seq<Event>, e: Event)
    requires Runs(Start(true), events) && Enabled(Run(Start(true), events), e)
    requires !Run(Start(true), events).phase.Exited? && !PopFails(Run(Start(true), events), e)
    requires Step(Run(Start(true), events), e).phase == Exited(true)
    ensures Asked(events)
    ensures var t := Step(Run(Start(true), events), e);
            && t.jobs == []
            && forall j :: t.accepted[j] == Count(Postponed(t.later), j) + Count(Ended(t.log), j)
  {
    var s := Run(Start(true), events);
    StartKeeps(true);
    RunKeeps(Start(true), events);
    ImportantStays(Start(true), events);
    StopWasAsked(Start(true), events);
    LockedExitStep(s, e);
    StepKeeps(s, e);
    OnlyLaterAndEnded(Step(s, e));
  }

  lemma OnlyLaterAndEnded(t: State)
    requires Inv(t) && t.jobs == [] && t.phase.Exited?
    ensures forall j :: t.accepted[j] == Count(Postponed(t.later), j) + Count(Ended(t.log), j)
  {
    forall j
      ensures t.accepted[j] == Count(Postponed(t.later), j) + Count(Ended(t.log), j)
    {
      assert t.accepted[j] == Held(t, j);
      assert Queued(t.jobs) == [];
    }
  }

  lemma RunCons(s: State, e: Event, rest: seq<Event>)
    requires Enabled(s, e) && !PopFails(s, e) && Runs(Step(s, e), rest)
    ensures Runs(s, [e] + rest) && Run(s, [e] + rest) == Run(Step(s, e), rest)
  {
    assert ([e] + rest)[1..] == rest;
  }

  /** Stopping between two tests without the lock can leave a task behind. */
  lemma UnlockedExitLeavesTasks(job: Job, now: real)
    ensures exists events ::
              Runs(Start(true), events)
              && var s := Run(Start(true), events);
                 s.phase == Exited(false) && s.jobs == [Item(job, None, now)]
  {
    var s0 := Start(true);
    var s1 := s0.(quitting := true);
    var s2, s3 := s1.(phase := TestingAlive(1)), s1.(phase := Testing(2));
    var s4 := s1.(phase := TestingAlive(2));
    var s5 := s4.(jobs := [Item(job, None, now)], accepted := multiset{job});
    var s6 := s5.(phase := Exited(false));
    var add := Add(job, PLAIN, now);
    assert Step(s0, Quit(true)) == s1 && Step(s1, Loop) == s2 && Step(s2, Loop) == s3 && Step(s3, Loop) == s4;
    assert Step(s4, add) == s5 && Step(s5, Loop) == s6;
    hide Step, Run, Runs;
    assert Runs(s6, []) && Run(s6, []) == s6 by {
      RunNil(s6);
    }
    RunCons(s5, Loop, []);
    RunCons(s4, add, [Loop] + []);
    RunCons(s3, Loop, [add] + ([Loop] + []));
    RunCons(s2, Loop, [Loop] + ([add] + ([Loop] + [])));
    RunCons(s1, Loop, [Loop] + ([Loop] + ([add] + ([Loop] + []))));
    RunCons(s0, Quit(true), [Loop] + ([Loop] + ([Loop] + ([add] + ([Loop] + [])))));
  }

  /** Does an accepted task go to JOBS, and not to JOBS_LATER? */
  predicate Immediate(o: Options) {
    o.first || o.after.None?
  }

  /** The exact condition for that: after the last test of JOBS the worker stops in any case, and it leaves
      nothing behind if and only if JOBS was empty and no task came for it. (A unique task that is to be first
      as well as delayed, which nothing in the program asks for, is left out.) */
  lemma {:induction false} UnlockedExitExactly(s: State, es: seq<Event>)
    requires s.important && (!s.alive || s.quitting) && s.phase == TestingAlive(2)
    requires forall i :: 0 <= i < |es| ==>
               es[i].Add? && !(es[i].options.unique && es[i].options.first && es[i].options.after.Some?)
    ensures Runs(s, es + [Loop])
    ensures var t := Run(s, es + [Loop]);
            && t.phase == Exited(false)
            && (t.jobs == [] <==> s.jobs == [] && forall i :: 0 <= i < |es| ==> !Immediate(es[i].options))
    decreases |es|
  {
    if es == [] {
      assert [] + [Loop] == [Loop];
      hide Run, Runs;
      RunNil(Step(s, Loop));
      RunCons(s, Loop, []);
      assert [Loop] + [] == [Loop];
    } else {
      var t := Step(s, es[0]);
      AddAtTest(s, es[0]);
      UnlockedExitExactly(t, es[1..]);
      hide Step, Run, Runs, Enabled, PopFails;
      RunCons(s, es[0], es[1..] + [Loop]);
      assert [es[0]] + (es[1..] + [Loop]) == es + [Loop];
      if i :| 0 <= i < |es[1..]| && Immediate(es[1..][i].options) {
        assert es[i + 1] == es[1..][i];
      }
    }
  }

  lemma AddAtTest(s: State, e: Event)
    requires s.phase == TestingAlive(2) && e.Add?
    requires !(e.options.unique && e.options.first && e.options.after.Some?)
    ensures var t := Step(s, e);
            && t.phase == s.phase && t.important == s.important && t.alive == s.alive && t.quitting == s.quitting
            && (t.jobs == [] <==> s.jobs == [] && !Immediate(e.options))
    ensures Enabled(s, e) && !PopFails(s, e)
  {
  }

  lemma RunNil(s: State)
    ensures Runs(s, []) && Run(s, []) == s
  {
  }

  /** The worker waits, not notified, with a task in its queue. */
  predicate Stuck(s: State) {
    s.phase == Waiting(false) && s.jobs != []
  }

  /** A task that arrives while an important worker, asked to stop, has let go of the lock, wakes nobody up:
      the worker then waits although there is work. No other step leaves it stuck. */
  lemma LostWakeUp(s: State, e: Event)
    requires Inv(s) && Enabled(s, e) && !PopFails(s, e) && !Stuck(s)
    ensures Stuck(Step(s, e)) <==> s.phase.Resting? && e.Loop? && s.jobs != []
  {
    hide Inv, Enqueue, DueOnes, NotDue, Refused;
    match e
    case Add(job, options, now) => AddPhase(s, job, options, now);
    case End(outcome, now) => FinishPhase(s, outcome, now);
    case _ =>
  }

  /** It does happen. */
  lemma LostWakeUpHappens(job: Job, now: real)
    ensures exists events :: Runs(Start(true), events) && Stuck(Run(Start(true), events))
  {
    var s0 := Start(true);
    var s1, s2 := s0.(phase := TestingAlive(1)), s0.(phase := Locking);
    var s3 := s2.(quitting := true);
    var s4 := s3.(phase := Resting);
    var s5 := s4.(jobs := [Item(job, None, now)], accepted := multiset{job});
    var s6 := s5.(phase := Waiting(false));
    var add := Add(job, PLAIN, now);
    assert Step(s0, Loop) == s1 && Step(s1, Loop) == s2 && Step(s2, Quit(true)) == s3 && Step(s3, Loop) == s4;
    assert Step(s4, add) == s5 && Step(s5, Loop) == s6;
    hide Step, Run, Runs;
    RunNil(s6);
    RunCons(s5, Loop, []);
    RunCons(s4, add, [Loop] + []);
    RunCons(s3, Loop, [add] + ([Loop] + []));
    RunCons(s2, Quit(true), [Loop] + ([add] + ([Loop] + [])));
    RunCons(s1, Loop, [Quit(true)] + ([Loop] + ([add] + ([Loop] + []))));
    RunCons(s0, Loop, [Loop] + ([Quit(true)] + ([Loop] + ([add] + ([Loop] + [])))));
  }

  /** A running worker that nobody has asked to stop. */
  predicate Willing(s: State) {
    s.alive && !s.quitting && !s.phase.Resting? && !Stuck(s)
  }

  lemma WillingStep(s: State, e: Event)
    requires Inv(s) && Enabled(s, e) && !PopFails(s, e) && Willing(s) && !Stops(e)
    ensures Willing(Step(s, e))
  {
    LostWakeUp(s, e);
    FlagsStep(s, e);
    hide Inv, Enqueue, DueOnes, NotDue, Refused, Stuck;
    match e
    case Add(job, options, now) => AddPhase(s, job, options, now);
    case End(outcome, now) => FinishPhase(s, outcome, now);
    case _ =>
  }

  lemma {:induction false} WillingRun(s: State, events: seq<Event>)
    requires Inv(s) && Willing(s) && Runs(s, events) && !Asked(events)
    ensures Willing(Run(s, events))
    decreases |events|
  {
    hide Inv, Step, Enabled, PopFails, Willing;
    if events == [] {
    } else {
      StepKeeps(s, events[0]);
      WillingStep(s, events[0]);
      forall i | 0 <= i < |events[1..]|
        ensures !Stops(events[1..][i])
      {
        assert events[1..][i] == events[i + 1];
      }
      WillingRun(Step(s, events[0]), events[1..]);
    }
  }

  /** Over every run in which it is not asked to stop, a worker never waits, not notified, on a queue with work. */
  lemma NeverStuckUnasked(important: bool, events: seq<Event>)
    requires Runs(Start(important), events) && !Asked(events)
    ensures !Stuck(Run(Start(important), events))
  {
    StartKeeps(important);
    WillingRun(Start(important), events);
  }

  // --- In which order tasks are run --------------------------------------------

  /** The tasks that a run begins to work on, in order. */
  function Taken(s: State, events: seq<Event>): seq<Item>
    requires Runs(s, events)
    decreases |events|
  {
    if events == [] then []
    else
      var t := Step(s, events[0]);
      (if events[0].Take? && t.phase.Running? then [t.phase.item] else []) + Taken(t, events[1..])
  }

  predicate NoneFirst(events: seq<Event>) {
    forall i :: 0 <= i < |events| ==> events[i].Add? ==> !events[i].options.first
  }

  /** A step other than taking a task leaves what is queued, in order, in front. */
  lemma QueueStep(s: State, e: Event)
    requires Enabled(s, e) && !PopFails(s, e) && (e.Add? ==> !e.options.first)
    ensures !e.Take? ==> s.jobs <= Step(s, e).jobs
    ensures e.Take? ==>
              s.jobs != [] && Step(s, e).phase == Running(s.jobs[0]) && s.jobs[1..] <= Step(s, e).jobs
  {
    hide HasName, HasLater, DueOnes, NotDue;
  }

  /** First come, first served: what is queued is worked on in that order, before anything that comes later, unless a
      task is added to be first. */
  lemma {:induction false} FirstComeFirstServed(s: State, events: seq<Event>)
    requires Runs(s, events) && NoneFirst(events)
    ensures s.jobs <= Taken(s, events) + Run(s, events).jobs
    decreases |events|
  {
    hide Step, Enabled, PopFails;
    if events == [] {
    } else {
      var t, rest := Step(s, events[0]), events[1..];
      QueueStep(s, events[0]);
      FirstComeFirstServed(t, rest);
      var tail := Taken(t, rest) + Run(t, rest).jobs;
      var head := if events[0].Take? then [t.phase.item] else [];
      assert Taken(s, events) == head + Taken(t, rest) && Run(s, events) == Run(t, rest);
      Regroup(head, Taken(t, rest), Run(t, rest).jobs);
      hide Taken, Run;
      if events[0].Take? {
        PrefixTail(s.jobs, t.jobs, tail);
      }
    }
  }

  lemma Regroup(a: seq<Item>, b: seq<Item>, c: seq<Item>)
    ensures a + b + c == a + (b + c)
  {
  }

  lemma PrefixTail(a: seq<Item>, b: seq<Item>, c: seq<Item>)
    requires a != [] && a[1..] <= b <= c
    ensures a <= [a[0]] + c
  {
    assert a == [a[0]] + a[1..];
  }

  /** A task that is added to be first is the next one to be taken, and the others wait as they were. */
  lemma FirstIsNext(s: State, job: Job, o: Options, now: real, at: real)
    requires o.first && !Refused(s, job.name, o) && s.phase.Pausing?
    ensures var t := Step(s, Add(job, o, now));
            && Enabled(t, Take(at)) && !PopFails(t, Take(at))
            && Step(t, Take(at)).phase == Running(Item(job, None, now))
            && (s.jobs != [] ==> Step(t, Take(at)).jobs == s.jobs)
  {
    var t := Step(s, Add(job, o, now));
    assert t.jobs[1..] == s.jobs;
  }

  // --- What becomes of failures ------------------------------------------------

  /** After any run of an important worker, a task that fails is queued again, last, unless another one of its name is
      waiting: then that one will do. */
  lemma FailedIsQueuedAgain(events: seq<Event>, now: real)
    requires Runs(Start(true), events) && Run(Start(true), events).phase.Running?
    ensures var s := Run(Start(true), events);
            var job, t := s.phase.item.job, Step(s, End(Fails, now));
            && HasName(t.jobs, job.name) && t.later == s.later && t.phase == Testing(1)
            && if HasName(s.jobs, job.name) then t.jobs == s.jobs && t.log == s.log + [(job, Broken)]
               else t.jobs == s.jobs + [Item(job, None, now)] && t.log == s.log
  {
    ImportantStays(Start(true), events);
    hide Run, Runs;
    var s := Run(Start(true), events);
    var job, t := s.phase.item.job, Step(s, End(Fails, now));
    assert !HasName(s.jobs, job.name) ==> t.jobs[|s.jobs|].job.name == job.name;
  }

  /** No task failed while another of its name was waiting. */
  predicate NoNamesakes(s: State, events: seq<Event>)
    requires Runs(s, events)
    decreases |events|
  {
    events == [] ||
    ((events[0].End? && events[0].outcome.Fails? ==> !HasName(s.jobs, s.phase.item.job.name))
     && NoNamesakes(Step(s, events[0]), events[1..]))
  }

  predicate NothingBroken(log: seq<(Job, End)>) {
    forall i :: 0 <= i < |log| ==> log[i].1 != Broken
  }

  /** Over every such run an important worker gives up on no task. */
  lemma {:induction false} ImportantNeverGivesUp(s: State, events: seq<Event>)
    requires s.important && Runs(s, events) && NoNamesakes(s, events) && NothingBroken(s.log)
    ensures NothingBroken(Run(s, events).log)
    ensures forall i :: 0 <= i < |Run(s, events).log| ==> Run(s, events).log[i].1 != Broken
    decreases |events|
  {
    if events == [] {
    } else {
      LogStep(s, events[0]);
      FlagsStep(s, events[0]);
      hide Step, Enabled, PopFails, HasName;
      ImportantNeverGivesUp(Step(s, events[0]), events[1..]);
    }
  }

  lemma LogStep(s: State, e: Event)
    requires s.important && Enabled(s, e) && !PopFails(s, e) && NothingBroken(s.log)
    requires e.End? && e.outcome.Fails? ==> !HasName(s.jobs, s.phase.item.job.name)
    ensures NothingBroken(Step(s, e).log)
  {
    hide AddTask, Pop, Finish, Advance;
    match e
    case Add(job, options, now) => AddKeepsRest(s, job, options, now);
    case Take(now) => PopKeepsRest(s, now);
    case Loop => AdvanceSame(s);
    case End(outcome, now) => FinishLog(s, outcome, now);
    case Quit(_) =>
  }

  lemma FinishLog(s: State, o: Outcome, now: real)
    requires s.important && s.phase.Running? && NothingBroken(s.log)
    requires o.Fails? ==> !HasName(s.jobs, s.phase.item.job.name)
    ensures NothingBroken(Finish(s, o, now).log)
  {
    hide HasName, HasLater;
  }

  /** The other two ways a task ends: it is done, and may have asked the worker to stop; or it is delayed by as much as
      it asked for, unless it has no session, at which the worker dies. */
  lemma EndMeans(s: State, o: Outcome, now: real)
    requires s.phase.Running? && !o.Fails?
    ensures var job, t := s.phase.item.job, Step(s, End(o, now));
            && t.jobs == s.jobs && t.quitting == s.quitting
            && (o.Finishes? ==>
                  && t.phase == Testing(1) && t.later == s.later && t.log == s.log + [(job, Done)]
                  && (t.alive <==> s.alive && !o.stop))
            && (o.Postpones? && job.hasSession ==>
                  && t.phase == Testing(1) && t.later == s.later + [Delayed(now + o.seconds, job)]
                  && t.log == s.log && t.alive == s.alive)
            && (o.Postpones? && !job.hasSession ==>
                  t.phase == Crashed && t.later == s.later && t.log == s.log + [(job, Dropped)])
  {
    hide HasName, HasLater;
  }

  /** Delayed tasks come in exactly when the last queued one is taken: then all that are due do, and no other. */
  lemma TakeMeans(s: State, now: real, d: Delayed)
    requires s.phase.Pausing? && s.jobs != []
    ensures var t := Step(s, Take(now));
            && t.phase == Running(s.jobs[0])
            && (|s.jobs| > 1 ==> t.jobs == s.jobs[1..] && t.later == s.later)
            && (|s.jobs| == 1 ==>
                  && (d in t.later <==> d in s.later && d.ts > now)
                  && (Item(d.job, Some(d.ts), now) in t.jobs <==> d in s.later && d.ts <= now))
  {
    var at := DueOnesAt(s.later, now);
    var rest := NotDueAt(s.later, now);
    var due, left := DueOnes(s.later, now), NotDue(s.later, now);
    hide DueOnes, NotDue;
    assert forall k :: 0 <= k < |at| ==> at[k] in at;
    assert forall k :: 0 <= k < |rest| ==> rest[k] in rest;
    if d in s.later {
      var i :| 0 <= i < |s.later| && s.later[i] == d;
      if d.ts <= now {
        var k :| 0 <= k < |at| && at[k] == i;
        assert due[k] == Item(d.job, Some(d.ts), now);
      } else {
        var k :| 0 <= k < |rest| && rest[k] == i;
        assert left[k] == d;
      }
    }
  }

  // --- Stopping an ordinary worker ---------------------------------------------

  function Takes(events: seq<Event>): nat {
    if events == [] then 0 else Takes(events[1..]) + (if events[0].Take? then 1 else 0)
  }

  /** It can begin no other task before it tests whether to go on. */
  predicate Ending(p: Phase) {
    p.Running? || p.Testing? || p.Exited? || p.Crashed?
  }

  lemma EndingStep(s: State, e: Event)
    requires !s.important && !s.alive && Enabled(s, e) && !PopFails(s, e)
    ensures !Step(s, e).important && !Step(s, e).alive
    ensures e.Take? ==> Ending(Step(s, e).phase)
    ensures Ending(s.phase) ==> !e.Take? && Ending(Step(s, e).phase)
  {
    hide HasName, HasLater, DueOnes, NotDue;
  }

  /** Once an ordinary worker has been told to die, it begins at most one more task. */
  lemma {:induction false} OneMoreTask(s: State, events: seq<Event>)
    requires !s.important && !s.alive && Runs(s, events)
    ensures Takes(events) <= if Ending(s.phase) then 0 else 1
    decreases |events|
  {
    hide Step, Enabled, PopFails;
    if events == [] {
    } else {
      EndingStep(s, events[0]);
      OneMoreTask(Step(s, events[0]), events[1..]);
    }
  }
}
