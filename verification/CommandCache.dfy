/** The command cache: results, their requirements, and the marks that make them stale
    (mailpile/command_cache.py:16-147). */
module CommandCache {
  import opened Wrappers

  const LAG := 0.1
  const DIRTY_TTL := 10.0
  const TIMED_OUT := "!timedout"

  type Reqs = set<string>

  datatype Mark = Mark(ts: real, req: Reqs)

  datatype Entry = Entry(expires: real, req: Reqs, result: nat, added: real)

  datatype Cache = Cache(entries: map<string, Entry>, dirty: seq<Mark>)

  /** A mark makes an entry stale if it is later than the entry and shares a requirement with it. */
  predicate Touches(m: Mark, e: Entry) {
    m.ts > e.added && m.req * e.req != {}
  }

  /** What was marked after the given time. A time of zero stands for all marks, and the timeout
      marker is always there. */
  function DirtySet(dirty: seq<Mark>, after: real): (d: Reqs)
    ensures forall x :: x in d <==>
              || x == TIMED_OUT
              || exists i :: 0 <= i < |dirty| && (after == 0.0 || dirty[i].ts > after) && x in dirty[i].req
  {
    if dirty == [] then {TIMED_OUT}
    else
      var n := |dirty| - 1;
      var d := DirtySet(dirty[..n], after);
      assert dirty == dirty[..n] + [dirty[n]];
      if after == 0.0 || dirty[n].ts > after then d + dirty[n].req else d
  }

  /** The requirements of an entry that are dirty. */
  function DirtyReqs(c: Cache, e: Entry): Reqs {
    e.req * DirtySet(c.dirty, e.added)
  }

  /** Nothing of an entry is dirty just in case it is not timed out and no kept mark touches it. */
  lemma CleanMeans(c: Cache, e: Entry)
    requires DirtyReqs(c, e) == {}
    ensures TIMED_OUT !in e.req && forall m :: m in c.dirty ==> !Touches(m, e)
  {
    assert TIMED_OUT in e.req ==> TIMED_OUT in DirtyReqs(c, e);
  }

  /** An entry is stale if it has timed out, or was touched by a mark that is kept; one that was added at time zero is
      touched by any mark. */
  ghost predicate Stale(c: Cache, e: Entry) {
    TIMED_OUT in e.req || exists m :: m in c.dirty && (m.ts > e.added || e.added == 0.0) && m.req * e.req != {}
  }

  lemma StaleExactly(c: Cache, e: Entry)
    ensures DirtyReqs(c, e) != {} <==> Stale(c, e)
  {
    var d := DirtySet(c.dirty, e.added);
    if x :| x in DirtyReqs(c, e) && x != TIMED_OUT {
      var i :| 0 <= i < |c.dirty| && (e.added == 0.0 || c.dirty[i].ts > e.added) && x in c.dirty[i].req;
      assert x in c.dirty[i].req * e.req;
    }
    if TIMED_OUT in e.req {
      assert TIMED_OUT in DirtyReqs(c, e);
    }
    if m :| m in c.dirty && (m.ts > e.added || e.added == 0.0) && m.req * e.req != {} {
      var x :| x in m.req * e.req;
      assert x in d;
    }
  }

  function Recent(dirty: seq<Mark>, since: real): (kept: seq<Mark>)
    ensures forall m :: m in kept <==> m in dirty && m.ts >= since
  {
    if dirty == [] then []
    else
      var n := |dirty| - 1;
      assert dirty == dirty[..n] + [dirty[n]];
      if dirty[n].ts >= since then Recent(dirty[..n], since) + [dirty[n]] else Recent(dirty[..n], since)
  }

  /** The first part of `refresh`: drop expired entries and old marks. */
  function Expire(c: Cache, now: real): Cache {
    Cache(map f | f in c.entries && !(c.entries[f].expires < now) :: c.entries[f],
          Recent(c.dirty, now - DIRTY_TTL))
  }

  /** Does `refresh`, looking at an entry at the given time, find that it must be run again? */
  predicate NeedsRun(c: Cache, e: Entry, now: real) {
    e.added + LAG < now && DirtyReqs(c, e) != {}
  }

  /** Running out of time, or failing, leaves the debt on the entry. */
  function TimeOut(c: Cache, f: string): Cache
    requires f in c.entries
  {
    var e := c.entries[f];
    c.(entries := c.entries[f := e.(req := e.req + {TIMED_OUT})])
  }

  function Min(a: real, b: real): real { if a < b then a else b }

  function Max(a: real, b: real): real { if a < b then b else a }

  function NewExpiry(e: real, extend: real, now: real): real {
    if extend > 0.0 then Min(e + extend, now + 5.0 * extend) else e
  }

  /** A new result goes in, stamped with the time before it was computed, unless the entry was
      replaced in the meantime; `seen` is what refresh read. */
  function Renew(c: Cache, f: string, seen: Entry, extend: real, now: real, result: nat): Cache
    requires f in c.entries
  {
    var e := c.entries[f];
    if e.added != seen.added then c
    else
      c.(entries := c.entries[f := Entry(Max(NewExpiry(seen.expires, extend, now), e.expires),
                                         e.req - {TIMED_OUT}, result, now)])
  }

  /** Is an entry handed out by `get_result`? */
  predicate Served(c: Cache, f: string, now: real, dirtyCheck: bool) {
    f in c.entries &&
    var e := c.entries[f];
    dirtyCheck ==> !(e.added > now - LAG) && DirtyReqs(c, e) == {}
  }

  /** What `refresh` does with one fingerprint when nothing happens meanwhile. The outcome None
      stands for a command that raises one of the errors that refresh handles. */
  function Visit(c: Cache, f: string, extend: real, deadline: real, now: real, outcome: Option<nat>): Cache
    requires f in c.entries
  {
    var e := c.entries[f];
    if !NeedsRun(c, e, now) then c
    else if now < deadline && outcome.Some? then Renew(c, f, e, extend, now, outcome.value)
    else TimeOut(c, f)
  }

  function Visits(c: Cache, order: seq<string>, extend: real, deadline: real,
                  times: seq<real>, outcomes: seq<Option<nat>>): Cache
    requires |times| == |outcomes| == |order| && forall f :: f in order ==> f in c.entries
    ensures Visits(c, order, extend, deadline, times, outcomes).entries.Keys == c.entries.Keys
  {
    if order == [] then c
    else
      var n := |order| - 1;
      var d := Visits(c, order[..n], extend, deadline, times[..n], outcomes[..n]);
      assert order[n] in order;
      Visit(d, order[n], extend, deadline, times[n], outcomes[n])
  }

  // --- What a refresh means for one entry --------------------------------------

  /** The new life of an entry: never shorter, longer by what was asked for, but not by more than five times that from
      now on. */
  predicate ExpiryOk(before: real, after: real, extend: real, now: real) {
    && before <= after
    && (extend <= 0.0 ==> after == before)
    && (extend > 0.0 ==>
          && after <= before + extend && (after == before || after <= now + 5.0 * extend)
          && (after == before + extend || after >= now + 5.0 * extend))
  }

  /** An entry that is too young, or not stale, stays as it is. Any other is run again: in time, and if that
      succeeds, it has the new result, stamped with the time before it was computed, and is timed out no more; else it
      has timed out. */
  ghost predicate Refreshed(c: Cache, e: Entry, e': Entry, extend: real, deadline: real, now: real,
                            outcome: Option<nat>)
  {
    if e.added + LAG >= now || !Stale(c, e) then e' == e
    else if now < deadline && outcome.Some? then
      && e'.result == outcome.value && e'.added == now
      && (forall x :: x in e'.req <==> x in e.req && x != TIMED_OUT)
      && ExpiryOk(e.expires, e'.expires, extend, now)
    else
      && e'.result == e.result && e'.added == e.added && e'.expires == e.expires
      && (forall x :: x in e'.req <==> x in e.req || x == TIMED_OUT)
  }

  lemma VisitMeans(c: Cache, f: string, extend: real, deadline: real, now: real, outcome: Option<nat>)
    requires f in c.entries
    ensures var d := Visit(c, f, extend, deadline, now, outcome);
            && d.dirty == c.dirty && d.entries.Keys == c.entries.Keys
            && Refreshed(c, c.entries[f], d.entries[f], extend, deadline, now, outcome)
            && forall g :: g in c.entries && g != f ==> d.entries[g] == c.entries[g]
  {
    StaleExactly(c, c.entries[f]);
    hide Stale, DirtyReqs;
  }

  /** Every entry is refreshed once, at its own time, and those that are not looked at stay. */
  lemma {:induction false} VisitsMean(c: Cache, order: seq<string>, extend: real, deadline: real,
                                      times: seq<real>, outcomes: seq<Option<nat>>)
    requires |times| == |outcomes| == |order| && forall f :: f in order ==> f in c.entries
    requires forall i, j :: 0 <= i < j < |order| ==> order[i] != order[j]
    ensures var d := Visits(c, order, extend, deadline, times, outcomes);
            && d.dirty == c.dirty
            && (forall f :: f in c.entries && f !in order ==> d.entries[f] == c.entries[f])
            && forall i :: 0 <= i < |order| ==>
                 Refreshed(c, c.entries[order[i]], d.entries[order[i]], extend, deadline, times[i], outcomes[i])
  {
    hide Visit, Refreshed;
    if order == [] {
    } else {
      var n := |order| - 1;
      VisitsMean(c, order[..n], extend, deadline, times[..n], outcomes[..n]);
      var d := Visits(c, order[..n], extend, deadline, times[..n], outcomes[..n]);
      assert order[n] in order && order[n] !in order[..n];
      VisitMeans(d, order[n], extend, deadline, times[n], outcomes[n]);
      RefreshedSameMarks(d, c, c.entries[order[n]], Visit(d, order[n], extend, deadline, times[n], outcomes[n])
                                                      .entries[order[n]], extend, deadline, times[n], outcomes[n]);
      forall i | 0 <= i < |order|
        ensures Refreshed(c, c.entries[order[i]],
                          Visits(c, order, extend, deadline, times, outcomes).entries[order[i]],
                          extend, deadline, times[i], outcomes[i])
      {
        if i < n {
          assert order[..n][i] == order[i] != order[n];
        }
      }
    }
  }

  lemma {:induction false} VisitsKeepMarks(c: Cache, order: seq<string>, extend: real, deadline: real,
                                           times: seq<real>, outcomes: seq<Option<nat>>)
    requires |times| == |outcomes| == |order| && forall f :: f in order ==> f in c.entries
    ensures Visits(c, order, extend, deadline, times, outcomes).dirty == c.dirty
  {
    if order != [] {
      var n := |order| - 1;
      VisitsKeepMarks(c, order[..n], extend, deadline, times[..n], outcomes[..n]);
    }
  }

  lemma MarksSettled(c: Cache, order: seq<string>, extend: real, deadline: real,
                     times: seq<real>, outcomes: seq<Option<nat>>)
    requires |times| == |outcomes| == |order| && forall f :: f in order ==> f in c.entries
    requires forall i :: 0 <= i < |order| ==>
               Refreshed(c, c.entries[order[i]], Visits(c, order, extend, deadline, times, outcomes).entries[order[i]],
                         extend, deadline, times[i], outcomes[i])
    ensures forall i :: 0 <= i < |order| ==>
              var d := Visits(c, order, extend, deadline, times, outcomes);
              Refreshed(d, c.entries[order[i]], d.entries[order[i]], extend, deadline, times[i], outcomes[i])
  {
    VisitsKeepMarks(c, order, extend, deadline, times, outcomes);
    hide Refreshed, Visit;
    var d := Visits(c, order, extend, deadline, times, outcomes);
    forall i | 0 <= i < |order|
      ensures Refreshed(d, c.entries[order[i]], d.entries[order[i]], extend, deadline, times[i], outcomes[i])
    {
      RefreshedSameMarks(c, d, c.entries[order[i]], d.entries[order[i]], extend, deadline, times[i], outcomes[i]);
    }
  }

  lemma RefreshedSameMarks(d: Cache, c: Cache, e: Entry, e': Entry, extend: real, deadline: real, now: real,
                           outcome: Option<nat>)
    requires d.dirty == c.dirty && Refreshed(d, e, e', extend, deadline, now, outcome)
    ensures Refreshed(c, e, e', extend, deadline, now, outcome)
  {
  }

  class CommandCache {
    var cache: map<string, Entry>
    var dirty: seq<Mark>

    ghost function View(): Cache
      reads this
    {
      Cache(cache, dirty)
    }

    constructor ()
      ensures View() == Cache(map[], [])
    {
      cache, dirty := map[], [];
    }

    method CacheResult(fprint: string, expires: real, req: Reqs, result: nat, now: real)
      modifies this
      ensures View() == Cache(old(cache)[fprint := Entry(expires, req, result, now)], old(dirty))
    {
      cache := cache[fprint := Entry(expires, req, result, now)];
    }

    method GetDirtySet(after: real) returns (d: Reqs)
      ensures d == DirtySet(dirty, after)
    {
      d := {TIMED_OUT};
      for i := 0 to |dirty|
        invariant d == DirtySet(dirty[..i], after)
      {
        assert dirty[..i + 1][..i] == dirty[..i];
        if after == 0.0 || dirty[i].ts > after {
          d := d + dirty[i].req;
        }
      }
      assert dirty[..|dirty|] == dirty;
    }

    /** None stands for the KeyError of the source. */
    method GetResult(fprint: string, dirtyCheck: bool, extend: real, now: real) returns (r: Option<nat>)
      modifies this
      ensures r.Some? <==> Served(old(View()), fprint, now, dirtyCheck)
      ensures r.Some? <==>
                && fprint in old(cache)
                && (dirtyCheck ==> old(cache)[fprint].added + LAG <= now && !Stale(old(View()), old(cache)[fprint]))
      ensures r.Some? ==>
                && r.value == old(cache)[fprint].result
                && cache == old(cache)[fprint := old(cache)[fprint].(expires := now + extend)] && dirty == old(dirty)
      ensures r.None? ==> View() == old(View())
    {
      if fprint in cache {
        StaleExactly(View(), cache[fprint]);
      }
      hide Stale;
      if fprint !in cache {
        return None;
      }
      var e := cache[fprint];
      if dirtyCheck {
        var recent := e.added > now - LAG;
        var d := GetDirtySet(e.added);
        if recent || e.req * d != {} {
          return None;
        }
      }
      cache := cache[fprint := e.(expires := now + extend)];
      r := Some(e.result);
    }

    method MarkDirty(requirements: Reqs, now: real)
      modifies this
      ensures View() == Cache(old(cache), old(dirty) + [Mark(now, requirements)])
    {
      dirty := dirty + [Mark(now, requirements)];
    }

    /** Drop what has expired; the order in which fingerprints are looked at is up to the caller. */
    method ExpireOld(now: real)
      modifies this
      ensures View() == Expire(old(View()), now)
      ensures forall f :: f in cache <==> f in old(cache) && old(cache)[f].expires >= now
      ensures forall f :: f in cache ==> cache[f] == old(cache)[f]
      ensures forall m :: m in dirty <==> m in old(dirty) && m.ts >= now - DIRTY_TTL
    {
      cache := map f | f in cache && !(cache[f].expires < now) :: cache[f];
      var kept := [];
      for i := 0 to |dirty|
        invariant dirty == old(dirty) && cache == Expire(old(View()), now).entries
        invariant kept == Recent(dirty[..i], now - DIRTY_TTL)
      {
        assert dirty[..i + 1][..i] == dirty[..i];
        if dirty[i].ts >= now - DIRTY_TTL {
          kept := kept + [dirty[i]];
        }
      }
      assert dirty[..|dirty|] == dirty;
      dirty := kept;
    }

    /** `refresh` without interference: `times` are the clock readings, one for each fingerprint. */
    method Refresh(order: seq<string>, extend: real, runtime: real, started: real,
                   times: seq<real>, outcomes: seq<Option<nat>>)
      requires |times| == |outcomes| == |order|
      requires forall f :: f in order <==> f in Expire(View(), started).entries
      modifies this
      ensures View() == Visits(Expire(old(View()), started), order, extend, started + runtime, times, outcomes)
      ensures forall f :: f in cache <==> f in old(cache) && old(cache)[f].expires >= started
      ensures forall m :: m in dirty <==> m in old(dirty) && m.ts >= started - DIRTY_TTL
      ensures (forall i, j :: 0 <= i < j < |order| ==> order[i] != order[j]) ==>
                forall i :: 0 <= i < |order| ==>
                  && order[i] in cache && order[i] in old(cache)
                  && Refreshed(View(), old(cache)[order[i]], cache[order[i]], extend, started + runtime, times[i],
                               outcomes[i])
    {
      hide Visit, Visits, Expire, Refreshed, Recent;
      ExpireOld(started);
      ghost var c := View();
      VisitAll(order, extend, started + runtime, times, outcomes);
      VisitsKeepMarks(c, order, extend, started + runtime, times, outcomes);
      if forall i, j :: 0 <= i < j < |order| ==> order[i] != order[j] {
        VisitsMean(c, order, extend, started + runtime, times, outcomes);
        MarksSettled(c, order, extend, started + runtime, times, outcomes);
        assert forall i :: 0 <= i < |order| ==> order[i] in order;
      }
    }

    /** The loop over the fingerprints. */
    method VisitAll(order: seq<string>, extend: real, deadline: real, times: seq<real>, outcomes: seq<Option<nat>>)
      requires |times| == |outcomes| == |order| && forall f :: f in order ==> f in cache
      modifies this`cache
      ensures View() == Visits(old(View()), order, extend, deadline, times, outcomes)
    {
      hide Visit;
      ghost var c := View();
      var i := 0;
      while i < |order|
        invariant 0 <= i <= |order|
        invariant forall f :: f in order[..i] ==> f in c.entries
        invariant View() == Visits(c, order[..i], extend, deadline, times[..i], outcomes[..i])
      {
        assert order[..i + 1][..i] == order[..i];
        assert times[..i + 1][..i] == times[..i];
        assert outcomes[..i + 1][..i] == outcomes[..i];
        assert order[i] in order;
        RefreshOne(order[i], extend, deadline, times[i], outcomes[i]);
        i := i + 1;
      }
      assert order[..i] == order && times[..i] == times && outcomes[..i] == outcomes;
    }

    /** The loop body: one fingerprint. */
    method RefreshOne(f: string, extend: real, deadline: real, now: real, outcome: Option<nat>)
      requires f in cache
      modifies this`cache
      ensures View() == Visit(old(View()), f, extend, deadline, now, outcome)
    {
      hide DirtySet;
      var e := cache[f];
      var d := GetDirtySet(e.added);
      if e.added + LAG < now && e.req * d != {} {
        if now < deadline && outcome.Some? {
          var expires := NewExpiry(e.expires, extend, now);
          cache := cache[f := Entry(Max(expires, e.expires), e.req - {TIMED_OUT}, outcome.value, now)];
        } else {
          cache := cache[f := e.(req := e.req + {TIMED_OUT})];
        }
      }
    }
  }
}
