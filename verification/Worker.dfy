/** A worker's queues as the object that the threads share (mailpile/workers.py:201-221, 276-304, 369-372).
    Each method is what one thread does while it holds the lock, or what follows the end of a task. */
module Worker {
  import opened Wrappers
  import opened WorkerProtocol

  class Worker {
    const important: bool
    var ALIVE: bool
    var JOBS: seq<Item>
    var JOBS_LATER: seq<Delayed>

    /** The queues, with the loop in the given phase and nothing logged. */
    ghost function View(phase: Phase): State
      reads this
    {
      State(important, ALIVE, false, JOBS, JOBS_LATER, phase, [], multiset{})
    }

    constructor (isImportant: bool)
      ensures important == isImportant && View(Testing(1)) == Start(isImportant)
    {
      important, ALIVE, JOBS, JOBS_LATER := isImportant, true, [], [];
    }

    /** `queued` says whether the task was taken on, and a waiting thread notified. */
    method AddTask(job: Job, o: Options, now: real) returns (queued: bool)
      modifies this`JOBS, this`JOBS_LATER
      ensures queued == !Refused(old(View(Locking)), job.name, o)
      ensures View(Locking) == WorkerProtocol.AddTask(old(View(Locking)), job, o, now)
      ensures queued <==>
                !(o.unique && ((exists i :: 0 <= i < |old(JOBS)| && old(JOBS)[i].job.name == job.name)
                               || (o.after.Some? && exists i :: 0 <= i < |old(JOBS_LATER)|
                                                                && old(JOBS_LATER)[i].job.name == job.name)))
      ensures JOBS == if !queued then old(JOBS)
                      else if o.first then [Item(job, None, now)] + old(JOBS)
                      else if o.after.Some? then old(JOBS)
                      else old(JOBS) + [Item(job, None, now)]
      ensures JOBS_LATER == if queued && !o.first && o.after.Some?
                            then old(JOBS_LATER) + [Delayed(o.after.value, job)] else old(JOBS_LATER)
    {
      if o.unique {
        for i := 0 to |JOBS|
          invariant forall k :: 0 <= k < i ==> JOBS[k].job.name != job.name
        {
          if JOBS[i].job.name == job.name {
            return false;
          }
        }
      }
      if o.unique && o.after.Some? {
        for i := 0 to |JOBS_LATER|
          invariant forall k :: 0 <= k < i ==> JOBS_LATER[k].job.name != job.name
        {
          if JOBS_LATER[i].job.name == job.name {
            return false;
          }
        }
      }
      if o.first {
        JOBS := [Item(job, None, now)] + JOBS;
      } else if o.after.Some? {
        JOBS_LATER := JOBS_LATER + [Delayed(o.after.value, job)];
      } else {
        JOBS := JOBS + [Item(job, None, now)];
      }
      queued := true;
    }

    method TakeTask(now: real) returns (item: Item)
      requires JOBS != []
      modifies this`JOBS, this`JOBS_LATER
      ensures View(Running(item)) == Pop(old(View(Pausing)), now)
    {
      item := JOBS[0];
      JOBS := JOBS[1..];
      if JOBS == [] {
        var rest: seq<Delayed> := [];
        for i := 0 to |JOBS_LATER|
          invariant JOBS_LATER == old(JOBS_LATER)
          invariant JOBS == DueOnes(JOBS_LATER[..i], now) && rest == NotDue(JOBS_LATER[..i], now)
        {
          assert JOBS_LATER[..i + 1][..i] == JOBS_LATER[..i];
          if JOBS_LATER[i].ts <= now {
            JOBS := JOBS + [Item(JOBS_LATER[i].job, Some(JOBS_LATER[i].ts), now)];
          } else {
            rest := rest + [JOBS_LATER[i]];
          }
        }
        assert JOBS_LATER[..|JOBS_LATER|] == JOBS_LATER;
        JOBS_LATER := rest;
      }
    }

    /** What the loop does once a task has ended; false if the thread dies of it. */
    method TaskEnded(item: Item, o: Outcome, now: real) returns (ok: bool)
      modifies this
      ensures var t := Finish(old(View(Running(item))), o, now);
              JOBS == t.jobs && JOBS_LATER == t.later && ALIVE == t.alive && ok == !t.phase.Crashed?
    {
      ok := true;
      match o
      case Finishes(stop) =>
        ALIVE := ALIVE && !stop;
      case Postpones(seconds) =>
        if !item.job.hasSession {
          return false;
        }
        var _ := AddTask(item.job, Options(Some(now + seconds), false, false), now);
      case Fails =>
        if important {
          var _ := AddTask(item.job, UNIQUE, now);
        }
    }
  }
}
