/** The cron thread's schedule and how long it sleeps (mailpile/workers.py:48-103). */
module Cron {

  datatype Task = Task(interval: nat, last: int, status: string)

  type Schedule = map<string, Task>

  /** i divides every interval. */
  predicate Divides(schedule: Schedule, i: nat)
    requires i > 0
  {
    forall name :: name in schedule ==> schedule[name].interval % i == 0
  }

  /** The longest of the considered sleeps up to n that divides every interval, or else what is given. */
  function Longest(schedule: Schedule, n: nat, otherwise: nat): (s: nat)
    ensures s == otherwise || (2 <= s <= n && Divides(schedule, s))
  {
    if n < 2 then otherwise else if Divides(schedule, n) then n else Longest(schedule, n - 1, otherwise)
  }

  /** The sleep is right: it divides every interval, and no longer one up to a minute does. */
  ghost predicate RightSleep(schedule: Schedule, sleep: nat) {
    && 1 <= sleep <= 60
    && Divides(schedule, sleep)
    && forall i :: sleep < i <= 60 ==> !Divides(schedule, i)
  }

  lemma {:induction false} LongestIsLargest(schedule: Schedule, n: nat, otherwise: nat)
    ensures var s := Longest(schedule, n, otherwise);
            if exists i :: 2 <= i <= n && Divides(schedule, i)
            then 2 <= s <= n && Divides(schedule, s) && forall i :: s < i <= n ==> !Divides(schedule, i)
            else s == otherwise
  {
    if n >= 2 && !Divides(schedule, n) {
      LongestIsLargest(schedule, n - 1, otherwise);
    }
  }

  lemma DividesLess(schedule: Schedule, name: string, i: nat)
    requires i > 0 && Divides(schedule, i)
    ensures Divides(schedule - {name}, i)
  {
  }

  class Cron {
    var schedule: Schedule
    var sleep: nat

    constructor (tasks: Schedule)
      ensures schedule == tasks && sleep == 10
    {
      schedule, sleep := tasks, 10;
    }

    method RecalculateSleep()
      modifies this`sleep
      ensures sleep == Longest(schedule, 60, old(sleep))
    {
      for i := 2 to 61
        invariant sleep == Longest(schedule, i - 1, old(sleep))
      {
        if forall name :: name in schedule ==> schedule[name].interval % i == 0 {
          sleep := i;
        }
      }
    }

    /** A known task keeps its time and status; `last` is drawn for a new one. */
    method AddTask(name: string, interval: nat, last: int)
      modifies this
      ensures schedule == old(schedule)[name := if name in old(schedule) then old(schedule)[name].(interval := interval)
                                                else Task(interval, last, "new")]
      ensures RightSleep(schedule, sleep)
    {
      var task := if name in schedule then schedule[name].(interval := interval) else Task(interval, last, "new");
      schedule := schedule[name := task];
      sleep := 1;
      RecalculateSleep();
      LongestIsLargest(schedule, 60, 1);
    }

    /** Cancelling does not start again from one second. So the sleep is right afterwards just in case it was
        right before, or some sleep of two seconds or more divides all intervals that are left. */
    method CancelTask(name: string)
      modifies this
      ensures schedule == old(schedule) - {name}
      ensures name in old(schedule) ==>
                (RightSleep(schedule, sleep)
                 <==> RightSleep(old(schedule), old(sleep)) || exists i :: 2 <= i <= 60 && Divides(schedule, i))
      ensures name !in old(schedule) ==> sleep == old(sleep)
    {
      if name in schedule {
        schedule := schedule - {name};
        RecalculateSleep();
        LongestIsLargest(schedule, 60, old(sleep));
        forall i: nat | i > 0 && Divides(old(schedule), i)
          ensures Divides(schedule, i)
        {
          DividesLess(old(schedule), name, i);
        }
      }
    }
  }

  /** A schedule for which cancelling leaves the thread asleep for too long: the sleep of ten seconds that it starts
      with is never shortened. */
  method CancelLeavesWrongSleep() returns (cron: Cron)
    ensures cron.schedule == map["a" := Task(1, 0, "new")] && !RightSleep(cron.schedule, cron.sleep)
  {
    var a := Task(1, 0, "new");
    cron := new Cron(map["a" := a, "b" := a]);
    OnlyOneDivides(cron.schedule);
    assert !RightSleep(cron.schedule, cron.sleep);
    cron.CancelTask("b");
    OnlyOneDivides(cron.schedule);
  }

  lemma OnlyOneDivides(schedule: Schedule)
    requires "a" in schedule && schedule["a"].interval == 1
    ensures forall i :: 2 <= i ==> !Divides(schedule, i)
  {
    forall i | 2 <= i
      ensures !Divides(schedule, i)
    {
      assert schedule["a"].interval % i == 1;
    }
  }
}
