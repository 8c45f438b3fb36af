/** The command cache as a protocol: look-ups, marks and stores go on in many threads while one refresh goes
    through the fingerprints (mailpile/command_cache.py:47-140). What happens under the lock, or is one read or
    write of a shared object, is one step. */
module CacheProtocol {
  import opened Wrappers
  import opened CommandCache

  /** An entry as it sits in the cache. Its set of requirements is an object, which a renewed entry shares with
      the old one, and which refresh changes in place; `id` says which one. */
  datatype Slot = Slot(expires: real, id: nat, result: nat, added: real)

  /** What refresh is at: it has read an entry; it runs its command; it has run it, and removed the timeout
      marker. */
  datatype Stage =
    | Resting
    | Reading(fprint: string, seen: Slot, since: real)
    | Running(fprint: string, seen: Slot, started: real)
    | Unmarked(fprint: string, seen: Slot, started: real)

  /** A look-up has read the entry, and then what is dirty; `marks` is how many marks had been made then. */
  datatype Look = Look(fprint: string, slot: Slot, scan: Option<Scan>)

  datatype Scan = Scan(dirty: Reqs, marks: nat)

  /** The cache together with every mark ever made, which the code forgets, and every look-up ever begun.
      `begun` is when the latest refresh started, `before` the one before it. */
  datatype Sys = Sys(slots: map<string, Slot>, reqs: seq<Reqs>, dirty: seq<Mark>, marks: seq<Mark>, looks: seq<Look>,
                     clock: real, begun: real, before: real, todo: set<string>, visit: Stage, deadline: real)

  datatype Event =
    | MarkDirty(req: Reqs)
    | CacheResult(fprint: string, expires: real, req: Reqs, result: nat)
    | LookUp(fprint: string)
    | ScanDirty(look: nat)
    | Answer(look: nat, dirtyCheck: bool, extend: real)
    | Begin(runtime: real)
    | Read(fprint: string)
    | Pass(at: real)
    | OutOfTime(at: real)
    | Start(at: real)
    | Fail
    | Unmark
    | Finish(result: nat, extend: real)

  function Init(now: real): Sys {
    Sys(map[], [], [], [], [], now, now, now, {}, Resting, now)
  }

  function Req(s: Sys, e: Slot): Reqs {
    if e.id < |s.reqs| then s.reqs[e.id] else {}
  }

  /** A slot with what is in its set of requirements now. */
  function Ent(s: Sys, e: Slot): Entry {
    Entry(e.expires, Req(s, e), e.result, e.added)
  }

  /** The cache as one sees it with the lock held. */
  function View(s: Sys): Cache {
    Cache(map f | f in s.slots :: Ent(s, s.slots[f]), s.dirty)
  }

  function Dirt(s: Sys, e: Slot): Reqs {
    Req(s, e) * DirtySet(s.dirty, e.added)
  }

  predicate SameSlot(a: Slot, b: Slot) {
    a.id == b.id && a.added == b.added
  }

  /** Has refresh found that the entry it has read must be run again? `at` is its clock reading. */
  predicate Needed(s: Sys, at: real) {
    s.visit.Reading? && s.visit.seen.added + LAG < at && Dirt(s, s.visit.seen) != {}
  }

  predicate ReadsAt(s: Sys, now: real, at: real) {
    s.visit.Reading? && s.visit.since <= at <= now
  }

  predicate Answers(s: Sys, l: Look) {
    l.scan.Some? && Req(s, l.slot) * l.scan.value.dirty == {}
  }

  /** Can the event happen at the given time? One worker runs all refreshes, so that one runs at a time, and looks
      at one fingerprint after the other. */
  predicate Enabled(s: Sys, now: real, ev: Event) {
    && now >= s.clock
    && match ev
       case MarkDirty(_) => true
       case CacheResult(_, _, _, _) => true
       case LookUp(f) => f in s.slots
       case ScanDirty(i) => i < |s.looks| && s.looks[i].scan.None? && !(s.looks[i].slot.added > now - LAG)
       case Answer(i, check, _) => i < |s.looks| && (check ==> Answers(s, s.looks[i]))
       case Begin(_) => s.todo == {} && s.visit.Resting?
       case Read(f) => s.visit.Resting? && f in s.todo && f in s.slots
       case Pass(at) => ReadsAt(s, now, at) && !Needed(s, at)
       case OutOfTime(at) => ReadsAt(s, now, at) && Needed(s, at) && at >= s.deadline
       case Start(at) => ReadsAt(s, now, at) && Needed(s, at) && at < s.deadline
       case Fail => s.visit.Running?
       case Unmark => s.visit.Running?
       case Finish(_, _) => s.visit.Unmarked? && s.visit.fprint in s.slots
  }

  /** Changing a set of requirements in place. */
  function WithReq(s: Sys, e: Slot, req: Reqs): Sys {
    if e.id < |s.reqs| then s.(reqs := s.reqs[e.id := req]) else s
  }

  function Done(s: Sys): Sys {
    if s.visit.Resting? then s else s.(todo := s.todo - {s.visit.fprint}, visit := Resting)
  }

  /** Refresh stores a new result, unless the stamp of the entry has changed. */
  function Stored(s: Sys, result: nat, extend: real): Sys
    requires s.visit.Unmarked? && s.visit.fprint in s.slots
  {
    var v := s.visit;
    var e := s.slots[v.fprint];
    if e.added != v.seen.added then s
    else
      var expires := Max(NewExpiry(v.seen.expires, extend, v.started), e.expires);
      s.(slots := s.slots[v.fprint := Slot(expires, v.seen.id, result, v.started)])
  }

  /** A look-up extends the life of the entry that it has read, which may be out of the cache by now. */
  function Extend(s: Sys, l: Look, expires: real): Sys {
    if l.fprint in s.slots && SameSlot(s.slots[l.fprint], l.slot)
    then s.(slots := s.slots[l.fprint := s.slots[l.fprint].(expires := expires)])
    else s
  }

  function Unexpired(slots: map<string, Slot>, now: real): map<string, Slot> {
    map f | f in slots && !(slots[f].expires < now) :: slots[f]
  }

  function Step(s: Sys, now: real, ev: Event): Sys
    requires Enabled(s, now, ev)
  {
    var s := s.(clock := now);
    match ev
    case MarkDirty(req) => s.(dirty := s.dirty + [Mark(now, req)], marks := s.marks + [Mark(now, req)])
    case CacheResult(f, expires, req, result) =>
      s.(slots := s.slots[f := Slot(expires, |s.reqs|, result, now)], reqs := s.reqs + [req])
    case LookUp(f) => s.(looks := s.looks + [Look(f, s.slots[f], None)])
    case ScanDirty(i) =>
      var l := s.looks[i];
      s.(looks := s.looks[i := l.(scan := Some(Scan(DirtySet(s.dirty, l.slot.added), |s.marks|)))])
    case Answer(i, _, extend) => Extend(s, s.looks[i], now + extend)
    case Begin(runtime) =>
      var slots := Unexpired(s.slots, now);
      s.(slots := slots, dirty := Recent(s.dirty, now - DIRTY_TTL), begun := now, before := s.begun,
         todo := slots.Keys, deadline := now + runtime)
    case Read(f) => s.(visit := Reading(f, s.slots[f], now))
    case Pass(_) => Done(s)
    case OutOfTime(_) => Done(WithReq(s, s.visit.seen, Req(s, s.visit.seen) + {TIMED_OUT}))
    case Start(at) => s.(visit := Running(s.visit.fprint, s.visit.seen, at))
    case Fail => Done(WithReq(s, s.visit.seen, Req(s, s.visit.seen) + {TIMED_OUT}))
    case Unmark =>
      WithReq(s, s.visit.seen, Req(s, s.visit.seen) - {TIMED_OUT})
        .(visit := Unmarked(s.visit.fprint, s.visit.seen, s.visit.started))
    case Finish(result, extend) => Done(Stored(s, result, extend))
  }

  datatype Run = Created(now: real) | Then(init: Run, now: real, ev: Event)

  /** The state after a run, if every event could happen. */
  function After(r: Run): Option<Sys> {
    match r
    case Created(now) => Some(Init(now))
    case Then(init, now, ev) =>
      var s := After(init);
      if s.Some? && Enabled(s.value, now, ev) then Some(Step(s.value, now, ev)) else None
  }

  /** A refresh comes within the given time after the last one. */
  predicate Within(s: Sys, now: real, ev: Event, gap: real) {
    ev.Begin? ==> now - s.begun <= gap
  }

  predicate AllWithin(r: Run, gap: real) {
    match r
    case Created(_) => true
    case Then(init, now, ev) =>
      AllWithin(init, gap) && (After(init).Some? ==> Within(After(init).value, now, ev, gap))
  }

  // --- What is at stake ------------------------------------------------------

  /** Refresh has removed the marker of the cached entry, and has not stored the new one yet. */
  predicate Exposed(s: Sys, f: string) {
    f in s.slots && s.visit.Unmarked? && s.visit.fprint == f && s.slots[f].id == s.visit.seen.id
  }

  /** The look-up has read the entry that is still the cached one, and that is not exposed. */
  predicate Holds(s: Sys, l: Look) {
    l.fprint in s.slots && SameSlot(s.slots[l.fprint], l.slot) && !Exposed(s, l.fprint)
  }

  /** No mark that was made before the look-up read what is dirty touches its entry, kept or thrown away. */
  ghost predicate Fresh(s: Sys, l: Look) {
    l.scan.Some? ==>
      forall k :: 0 <= k < l.scan.value.marks && k < |s.marks| ==> !Touches(s.marks[k], Ent(s, l.slot))
  }
}
