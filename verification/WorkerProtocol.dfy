/** The worker threads as a protocol: tasks are added at any time, while the run loop goes through its
    steps (mailpile/workers.py:201-221, 249-304, 336-372). What happens under the lock is one step;
    unlocked tests are steps of their own. */
module WorkerProtocol {
  import opened Wrappers

  /** A task. Without a session there is nobody to tell about it. */
  datatype Job = Job(id: nat, hasSession: bool, name: string)

  /** A queued task: when it was due, if it was delayed, and when it entered JOBS. */
  datatype Item = Item(job: Job, due: Option<real>, entered: real)

  datatype Delayed = Delayed(ts: real, job: Job)

  /** How a task ends: it is done, it fails for good, or the worker dies of it. */
  datatype End = Done | Broken | Dropped

  datatype Phase =
    | Testing(pass: nat)      // the test of the outer loop, unlocked; an important worker tests twice
    | TestingAlive(pass: nat) // its second part, for an important worker
    | Locking                 // about to take the lock for the inner loop
    | Resting                 // an important worker, asked to stop, has let go of the lock for a second
    | Waiting(notified: bool)
    | Pausing                 // letting the user go first
    | Running(item: Item)
    | Exited(locked: bool)
    | Crashed

  datatype State = State(important: bool, alive: bool, quitting: bool, jobs: seq<Item>, later: seq<Delayed>,
                         phase: Phase, log: seq<(Job, End)>, accepted: multiset<Job>)

  /** The tests that a step may make of a new task. */
  datatype Options = Options(after: Option<real>, unique: bool, first: bool)

  const PLAIN := Options(None, false, false)
  const UNIQUE := Options(None, true, false)

  function Start(important: bool): State {
    State(important, true, false, [], [], Testing(1), [], multiset{})
  }

  predicate HasName(jobs: seq<Item>, name: string) {
    exists i :: 0 <= i < |jobs| && jobs[i].job.name == name
  }

  predicate HasLater(later: seq<Delayed>, name: string) {
    exists i :: 0 <= i < |later| && later[i].job.name == name
  }

  predicate Refused(s: State, name: string, o: Options) {
    o.unique && (HasName(s.jobs, name) || (o.after.Some? && HasLater(s.later, name)))
  }

  /** `add_task`, without the notification. */
  function Enqueue(s: State, job: Job, o: Options, now: real): State {
    if o.first then s.(jobs := [Item(job, None, now)] + s.jobs)
    else if o.after.Some? then s.(later := s.later + [Delayed(o.after.value, job)])
    else s.(jobs := s.jobs + [Item(job, None, now)])
  }

  function Notify(s: State): State {
    if s.phase.Waiting? then s.(phase := Waiting(true)) else s
  }

  function AddTask(s: State, job: Job, o: Options, now: real): State {
    if Refused(s, job.name, o) then s else Notify(Enqueue(s, job, o, now))
  }

  /** The delayed tasks that are due, and the others, in order. */
  function DueOnes(later: seq<Delayed>, now: real): seq<Item> {
    if later == [] then []
    else
      var n := |later| - 1;
      if later[n].ts <= now then DueOnes(later[..n], now) + [Item(later[n].job, Some(later[n].ts), now)]
      else DueOnes(later[..n], now)
  }

  function NotDue(later: seq<Delayed>, now: real): seq<Delayed> {
    if later == [] then []
    else
      var n := |later| - 1;
      if later[n].ts > now then NotDue(later[..n], now) + [later[n]] else NotDue(later[..n], now)
  }

  /** Taking the first task; if it was the last, the delayed ones that are due come in. */
  function Pop(s: State, now: real): State
    requires s.jobs != []
  {
    var rest := s.jobs[1..];
    var t := s.(jobs := rest, phase := Running(s.jobs[0]));
    if rest == [] then t.(jobs := DueOnes(s.later, now), later := NotDue(s.later, now)) else t
  }

  /** What a task may do: finish, maybe asking the worker to stop; postpone itself; fail. */
  datatype Outcome = Finishes(stop: bool) | Postpones(seconds: real) | Fails

  function Finish(s: State, o: Outcome, now: real): State
    requires s.phase.Running?
  {
    var job := s.phase.item.job;
    var t := s.(phase := Testing(1));
    match o
    case Finishes(stop) => t.(alive := s.alive && !stop, log := s.log + [(job, Done)])
    case Postpones(seconds) =>
      if job.hasSession then Enqueue(t, job, Options(Some(now + seconds), false, false), now)
      else s.(phase := Crashed, log := s.log + [(job, Dropped)])
    case Fails =>
      if s.important && !Refused(t, job.name, UNIQUE) then Enqueue(t, job, UNIQUE, now)
      else t.(log := s.log + [(job, Broken)])
  }

  /** The step of the loop in every other phase. */
  function Advance(s: State): State {
    var stop := !s.alive || s.quitting;
    match s.phase
    case Testing(pass) =>
      if !s.important then s.(phase := if stop then Exited(false) else Locking)
      else s.(phase := if s.jobs != [] then Locking else TestingAlive(pass))
    case TestingAlive(pass) =>
      s.(phase := if !stop then Locking else if pass == 2 then Exited(false) else Testing(2))
    case Locking =>
      if s.jobs != [] then s.(phase := Pausing)
      else if !stop then s.(phase := Waiting(false))
      else s.(phase := if s.important then Resting else Exited(true))
    case Resting =>
      s.(phase := if s.jobs != [] || !stop then Waiting(false) else Exited(true))
    case Waiting(notified) => if notified then s.(phase := Locking) else s
    case _ => s
  }

  datatype Event =
    | Add(job: Job, options: Options, now: real)
    | Quit(quitting: bool)
    | Loop
    | Take(now: real)
    | End(outcome: Outcome, now: real)

  predicate Enabled(s: State, e: Event) {
    match e
    case Take(_) => s.phase.Pausing?
    case End(_, _) => s.phase.Running?
    case _ => true
  }

  /** Taking a task from an empty queue is not a step: it would be an error. */
  predicate PopFails(s: State, e: Event) {
    e.Take? && s.jobs == []
  }

  function Step(s: State, e: Event): State
    requires Enabled(s, e) && !PopFails(s, e)
  {
    match e
    case Add(job, options, now) =>
      var t := AddTask(s, job, options, now);
      if Refused(s, job.name, options) then t else t.(accepted := s.accepted + multiset{job})
    case Quit(quitting) => s.(quitting := quitting)
    case Loop => Advance(s)
    case Take(now) => Pop(s, now)
    case End(outcome, now) => Finish(s, outcome, now)
  }
}
