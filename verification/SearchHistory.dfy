/** The history of searches: results are kept as they are for a while, and as compressed masks after that
    (mailpile/search_history.py:47-108). */
module SearchHistory {
  import opened Wrappers
  import opened BitMask
  import opened Packing

  const DEFAULT_TTL := 432000.0
  const RAW_RESULT_TTL := 600.0

  const COLON: Byte := 0x3A

  /** Results in the order in which they were shown, and the name of that order. */
  datatype Raw = Raw(results: seq<nat>, order: Bytes)

  /** One search. `raw` and `c` are the plain and the compressed form of its results. */
  datatype Search = Search(terms: seq<string>, raw: Option<Raw>, c: Option<Bytes>, t: int)

  type Cache = map<string, Search>

  /** How the index sorts results again; a parameter. */
  type Sorter = (seq<nat>, Bytes) -> seq<nat>

  datatype Answer = Answer(terms: seq<string>, results: seq<nat>, order: Bytes)

  // --- Compressing -----------------------------------------------------------

  function Compress(z: Zlib, raw: Raw): Bytes {
    z.compress(ToBitmask(raw.results) + [COLON] + raw.order)
  }

  /** Where the last colon is. */
  function LastColon(b: Bytes): Option<nat> {
    if b == [] then None
    else if b[|b| - 1] == COLON then Some(|b| - 1)
    else LastColon(b[..|b| - 1])
  }

  function Decompress(z: Zlib, c: Bytes): Option<Raw> {
    var plain := z.decompress(c);
    if plain.None? then None
    else
      var b := plain.value;
      var k := LastColon(b);
      if k.None? || k.value >= |b| then None else Some(Raw(FromBitmask(b[..k.value]), b[k.value + 1..]))
  }

  lemma {:induction false} LastColonAt(mask: Bytes, order: Bytes)
    requires COLON !in order
    ensures LastColon(mask + [COLON] + order) == Some(|mask|)
  {
    var b := mask + [COLON] + order;
    if order == [] {
    } else {
      var n := |order| - 1;
      LastColonAt(mask, order[..n]);
      assert b[..|b| - 1] == mask + [COLON] + order[..n];
      assert order[n] in order;
    }
  }

  lemma {:induction false} LastColonIsLast(b: Bytes)
    ensures LastColon(b).Some? ==> LastColon(b).value < |b| && COLON !in b[LastColon(b).value + 1..]
  {
    if b != [] && b[|b| - 1] != COLON {
      var rest := b[..|b| - 1];
      LastColonIsLast(rest);
      if LastColon(rest).Some? {
        var k := LastColon(rest).value;
        assert b[k + 1..] == rest[k + 1..] + [b[|b| - 1]];
      }
    }
  }

  /** Compressed results come back in ascending order with the name of their order, whatever bytes the mask
      may have, just in case there is no colon in the name. */
  lemma CompressExactly(z: Zlib, raw: Raw)
    requires Sound(z)
    ensures Decompress(z, Compress(z, raw)) == Some(Raw(FromBitmask(ToBitmask(raw.results)), raw.order))
            <==> COLON !in raw.order
  {
    var mask := ToBitmask(raw.results);
    var b := mask + [COLON] + raw.order;
    hide ToBitmask, FromBitmask, LastColon;
    if COLON !in raw.order {
      LastColonAt(mask, raw.order);
      assert b[..|mask|] == mask && b[|mask| + 1..] == raw.order;
    } else {
      LastColonIsLast(b);
    }
  }

  // --- The operations on one entry -------------------------------------------

  function Added(terms: seq<string>, results: seq<nat>, order: Bytes, now: real): Search {
    Search(terms, Some(Raw(results, order)), None, now.Floor)
  }

  /** `get`: the time is noted, and compressed results are unpacked and sorted; the compressed form stays.
      None stands for an exception on the way. */
  function Got(z: Zlib, sort: Sorter, e: Search, now: real): Option<Search> {
    var touched := e.(t := now.Floor);
    if e.raw.Some? || e.c.None? then Some(touched)
    else
      var raw := Decompress(z, e.c.value);
      if raw.None? then None
      else Some(touched.(raw := Some(Raw(sort(raw.value.results, raw.value.order), raw.value.order))))
  }

  function Limit(now: real, span: real, default: real): real {
    now - (if span == 0.0 then default else span)
  }

  /** `expire`, for an entry that it keeps. */
  function Compacted(z: Zlib, e: Search, expired: real, compact: real): Search {
    if expired <= e.t as real < compact && e.raw.Some? then
      e.(raw := None, c := if e.c.Some? then e.c else Some(Compress(z, e.raw.value)))
    else e
  }

  lemma TimeStays(z: Zlib)
    ensures forall e, expired, compact :: Compacted(z, e, expired, compact).t == e.t
  {
  }

  function Expired(z: Zlib, cache: Cache, now: real, ttl: real, span: real): Cache {
    var expired, compact := Limit(now, ttl, DEFAULT_TTL), Limit(now, span, RAW_RESULT_TTL);
    map f | f in cache && !(cache[f].t as real < expired) :: Compacted(z, cache[f], expired, compact)
  }

  /** An entry is kept if it was touched within the time to live, and it keeps its plain results if it was touched
      within the shorter span. Zero stands for the default. */
  lemma ExpiredMeans(z: Zlib, cache: Cache, now: real, ttl: real, span: real)
    ensures var out := Expired(z, cache, now, ttl, span);
            && (forall f :: f in out <==>
                  f in cache && cache[f].t as real >= now - (if ttl == 0.0 then DEFAULT_TTL else ttl))
            && forall f :: f in out ==>
                 && out[f].t == cache[f].t && out[f].terms == cache[f].terms
                 && (out[f].raw.Some? <==>
                       && cache[f].raw.Some?
                       && cache[f].t as real >= now - (if span == 0.0 then RAW_RESULT_TTL else span))
  {
    hide Compress;
  }

  class SearchHistory {
    const zlib: Zlib
    const sort: Sorter
    var cache: Cache
    var changed: bool

    constructor (z: Zlib, sorter: Sorter)
      ensures zlib == z && sort == sorter && cache == map[] && !changed
    {
      zlib, sort, cache, changed := z, sorter, map[], false;
    }

    /** The fingerprint is a hash of the arguments; here it is given. */
    method Add(terms: seq<string>, results: seq<nat>, order: Bytes, fprint: string, now: real)
      modifies this
      ensures cache == old(cache)[fprint := Added(terms, results, order, now)] && changed
    {
      cache := cache[fprint := Search(terms, Some(Raw(results, order)), None, now.Floor)];
      changed := true;
    }

    /** None stands for an exception. Results that are still plain are given back as they are; compressed ones are
        unpacked and sorted again. */
    method Get(fprint: string, now: real) returns (r: Option<Answer>)
      modifies this
      ensures changed == old(changed)
      ensures fprint in old(cache) && old(cache)[fprint].raw.Some? ==>
                var e := old(cache)[fprint];
                r == Some(Answer(e.terms, e.raw.value.results, e.raw.value.order))
      ensures fprint in old(cache) && old(cache)[fprint].raw.None? && old(cache)[fprint].c.Some? ==>
                var e := old(cache)[fprint];
                var raw := Decompress(zlib, e.c.value);
                r == if raw.None? then None
                     else Some(Answer(e.terms, sort(raw.value.results, raw.value.order), raw.value.order))
      ensures fprint in old(cache) ==>
                && fprint in cache && cache[fprint].t == now.Floor && cache[fprint].c == old(cache)[fprint].c
                && cache[fprint].terms == old(cache)[fprint].terms
                && cache.Keys == old(cache).Keys && forall f :: f in cache && f != fprint ==> cache[f] == old(cache)[f]
      ensures fprint !in old(cache) ==> r == None && cache == old(cache)
      ensures fprint in old(cache) ==>
                var got := Got(zlib, sort, old(cache)[fprint], now);
                if got.Some? then
                  cache == old(cache)[fprint := got.value]
                  && r == match got.value.raw
                          case None => None
                          case Some(raw) => Some(Answer(got.value.terms, raw.results, raw.order))
                else
                  r == None && cache == old(cache)[fprint := old(cache)[fprint].(t := now.Floor)]
    {
      if fprint !in cache {
        return None;
      }
      var search := cache[fprint].(t := now.Floor);
      cache := cache[fprint := search];
      if search.raw.None? && search.c.Some? {
        var raw := Decompress(zlib, search.c.value);
        if raw.None? {
          return None;
        }
        var results := sort(raw.value.results, raw.value.order);
        search := search.(raw := Some(Raw(results, raw.value.order)));
        cache := cache[fprint := search];
      }
      match search.raw
      case None => r := None;
      case Some(raw) => r := Some(Answer(search.terms, raw.results, raw.order));
    }

    method CompactEntry(e: Search, expired: real, compact: real) returns (search: Search)
      ensures search == Compacted(zlib, e, expired, compact)
    {
      search := e;
      if expired <= search.t as real < compact && search.raw.Some? {
        if search.c.None? {
          search := search.(c := Some(Compress(zlib, search.raw.value)));
        }
        search := search.(raw := None);
      }
    }

    method Expire(now: real, ttl: real, span: real)
      modifies this
      ensures cache == Expired(zlib, old(cache), now, ttl, span)
      ensures changed <==> old(changed) || cache.Keys != old(cache).Keys
      ensures forall f :: f in cache <==>
                f in old(cache) && old(cache)[f].t as real >= now - (if ttl == 0.0 then DEFAULT_TTL else ttl)
      ensures forall f :: f in cache ==>
                && cache[f].t == old(cache)[f].t && cache[f].terms == old(cache)[f].terms
                && (cache[f].raw.Some? <==>
                      && old(cache)[f].raw.Some?
                      && old(cache)[f].t as real >= now - (if span == 0.0 then RAW_RESULT_TTL else span))
    {
      ExpiredMeans(zlib, cache, now, ttl, span);
      hide Limit, Expired;
      var expired, compact := Limit(now, ttl, DEFAULT_TTL), Limit(now, span, RAW_RESULT_TTL);
      var compacted := CompactAll(expired, compact);
      var gone := set f | f in compacted && compacted[f].t as real < expired;
      EvictedIs(zlib, cache, compacted, gone, now, ttl, span);
      cache := map f | f in compacted && f !in gone :: compacted[f];
      changed := changed || gone != {};
    }

    method CompactAll(expired: real, compact: real) returns (out: Cache)
      ensures out.Keys == cache.Keys
      ensures forall f :: f in cache ==> out[f] == Compacted(zlib, cache[f], expired, compact)
    {
      hide Compacted;
      out := cache;
      var todo := cache.Keys;
      while todo != {}
        invariant todo <= cache.Keys && out.Keys == cache.Keys
        invariant forall f :: f in cache ==>
                    out[f] == if f in todo then cache[f] else Compacted(zlib, cache[f], expired, compact)
        decreases |todo|
      {
        var f :| f in todo;
        todo := todo - {f};
        var search := CompactEntry(out[f], expired, compact);
        out := out[f := search];
      }
    }
  }

  /** Compacting first and evicting then. */
  lemma EvictedIs(z: Zlib, was: Cache, compacted: Cache, gone: set<string>, now: real, ttl: real, span: real)
    requires compacted.Keys == was.Keys
    requires var expired, compact := Limit(now, ttl, DEFAULT_TTL), Limit(now, span, RAW_RESULT_TTL);
             && (forall f :: f in was ==> compacted[f] == Compacted(z, was[f], expired, compact))
             && gone == set f | f in compacted && compacted[f].t as real < expired
    ensures var out := map f | f in compacted && f !in gone :: compacted[f];
            out == Expired(z, was, now, ttl, span) && out.Keys == was.Keys - gone && gone <= was.Keys
  {
    hide Compacted, Limit;
    TimeStays(z);
  }

  // --- Runs ------------------------------------------------------------------

  datatype Event =
    | Add(fprint: string, terms: seq<string>, results: seq<nat>, order: Bytes, now: real)
    | Get(fprint: string, now: real)
    | Expire(now: real, ttl: real, span: real)

  function Step(z: Zlib, sort: Sorter, cache: Cache, e: Event): Cache {
    match e
    case Add(f, terms, results, order, now) => cache[f := Added(terms, results, order, now)]
    case Get(f, now) =>
      if f !in cache then cache
      else
        var got := Got(z, sort, cache[f], now);
        cache[f := if got.Some? then got.value else cache[f].(t := now.Floor)]
    case Expire(now, ttl, span) => Expired(z, cache, now, ttl, span)
  }

  function Run(z: Zlib, sort: Sorter, cache: Cache, events: seq<Event>): Cache {
    if events == [] then cache
    else Step(z, sort, Run(z, sort, cache, events[..|events| - 1]), events[|events| - 1])
  }

  /** Sorting results that have the given members loses none of them. */
  ghost predicate SortKeeps(sort: Sorter, members: set<nat>, order: Bytes) {
    forall list: seq<nat> :: Members(list) == members ==> Members(sort(list, order)) == members
  }

  /** The entry still holds a search with these terms, members and order. */
  ghost predicate Remembers(z: Zlib, e: Search, terms: seq<string>, members: set<nat>, order: Bytes) {
    && e.terms == terms
    && (e.raw.Some? || e.c.Some?)
    && (e.raw.Some? ==> Members(e.raw.value.results) == members && e.raw.value.order == order)
    && (e.c.Some? ==>
          var raw := Decompress(z, e.c.value);
          raw.Some? && Members(raw.value.results) == members && raw.value.order == order)
  }

  lemma CompactedRemembers(z: Zlib, e: Search, expired: real, compact: real,
                           terms: seq<string>, members: set<nat>, order: Bytes)
    requires Sound(z) && COLON !in order && Remembers(z, e, terms, members, order)
    ensures Remembers(z, Compacted(z, e, expired, compact), terms, members, order)
  {
    if e.raw.Some? {
      var raw := e.raw.value;
      CompressExactly(z, raw);
      BitmaskRoundTrip(raw.results);
      hide Compress, Decompress, FromBitmask, ToBitmask;
      assert Members(FromBitmask(ToBitmask(raw.results))) == Members(raw.results);
    }
  }

  lemma GotRemembers(z: Zlib, sort: Sorter, e: Search, now: real,
                     terms: seq<string>, members: set<nat>, order: Bytes)
    requires SortKeeps(sort, members, order) && Remembers(z, e, terms, members, order)
    ensures var got := Got(z, sort, e, now);
            got.Some? && Remembers(z, got.value, terms, members, order) && got.value.raw.Some?
  {
    hide Decompress;
  }

  lemma StepRemembers(z: Zlib, sort: Sorter, cache: Cache, e: Event, f: string,
                      terms: seq<string>, members: set<nat>, order: Bytes)
    requires Sound(z) && COLON !in order && SortKeeps(sort, members, order)
    requires f in cache ==> Remembers(z, cache[f], terms, members, order)
    requires !(e.Add? && e.fprint == f)
    ensures f in Step(z, sort, cache, e) ==> Remembers(z, Step(z, sort, cache, e)[f], terms, members, order)
  {
    hide Remembers, Compacted, Got, SortKeeps;
    if f in cache {
      match e
      case Get(_, now) => GotRemembers(z, sort, cache[f], now, terms, members, order);
      case Expire(now, ttl, span) =>
        CompactedRemembers(z, cache[f], Limit(now, ttl, DEFAULT_TTL), Limit(now, span, RAW_RESULT_TTL),
                           terms, members, order);
      case _ =>
    }
  }

  lemma {:induction false} RunRemembers(z: Zlib, sort: Sorter, cache: Cache, events: seq<Event>, f: string,
                                        terms: seq<string>, members: set<nat>, order: Bytes)
    requires Sound(z) && COLON !in order && SortKeeps(sort, members, order)
    requires f in cache ==> Remembers(z, cache[f], terms, members, order)
    requires forall i :: 0 <= i < |events| ==> !(events[i].Add? && events[i].fprint == f)
    ensures var c := Run(z, sort, cache, events);
            f in c ==> Remembers(z, c[f], terms, members, order)
  {
    hide Remembers, Step, SortKeeps;
    if events == [] {
    } else {
      var n := |events| - 1;
      RunRemembers(z, sort, cache, events[..n], f, terms, members, order);
      StepRemembers(z, sort, Run(z, sort, cache, events[..n]), events[n], f, terms, members, order);
    }
  }

  /** Over every run: a search that was added, and neither evicted nor added again, is given back with its
      terms, its order and the same set of results, however often it was compressed and expanded. */
  lemma HistoryKeepsSearches(z: Zlib, sort: Sorter, before: Cache, add: Event, events: seq<Event>, now: real)
    requires Sound(z) && add.Add? && COLON !in add.order && SortKeeps(sort, Members(add.results), add.order)
    requires forall i :: 0 <= i < |events| ==> !(events[i].Add? && events[i].fprint == add.fprint)
    ensures var c := Run(z, sort, Step(z, sort, before, add), events);
            add.fprint in c ==>
              var got := Got(z, sort, c[add.fprint], now);
              got.Some? && got.value.raw.Some? && got.value.terms == add.terms
              && Members(got.value.raw.value.results) == Members(add.results)
              && got.value.raw.value.order == add.order
  {
    var after, members := Step(z, sort, before, add), Members(add.results);
    assert Remembers(z, after[add.fprint], add.terms, members, add.order);
    RunRemembers(z, sort, after, events, add.fprint, add.terms, members, add.order);
    var c := Run(z, sort, after, events);
    if add.fprint in c {
      hide Got, SortKeeps, Run;
      GotRemembers(z, sort, c[add.fprint], now, add.terms, members, add.order);
    }
  }

  // --- What is kept ------------------------------------------------------------

  /** The event adds the entry, or looks it up while it is there. */
  predicate Touches(z: Zlib, sort: Sorter, before: Cache, e: Event, f: string) {
    !e.Expire? && e.fprint == f && (e.Get? ==> f in before)
  }

  predicate KeepsAt(e: Event, touched: real) {
    e.Expire? ==> touched.Floor as real >= e.now - (if e.ttl == 0.0 then DEFAULT_TTL else e.ttl)
  }

  /** Over every run: an entry that was last touched at event i is there after it if and only if that was within the
      time to live at every later expiry. */
  lemma {:induction false} SurvivesExactly(z: Zlib, sort: Sorter, start: Cache, events: seq<Event>, i: nat, f: string)
    requires i < |events| && Touches(z, sort, Run(z, sort, start, events[..i]), events[i], f)
    requires forall j :: i < j < |events| ==> events[j].Expire? || events[j].fprint != f
    ensures var c := Run(z, sort, start, events);
            && (f in c <==> forall j :: i < j < |events| ==> KeepsAt(events[j], events[i].now))
            && (f in c ==> c[f].t == events[i].now.Floor)
  {
    hide Decompress, Compress, Expired;
    var n := |events| - 1;
    if i == n {
      assert events[..n] == events[..i];
    } else {
      var init, e := events[..n], events[n];
      assert init[..i] == events[..i];
      SurvivesExactly(z, sort, start, init, i, f);
      assert forall j :: i < j < n ==> init[j] == events[j];
      StepKeepsEntry(z, sort, Run(z, sort, start, init), e, f);
      assert Run(z, sort, start, events) == Step(z, sort, Run(z, sort, start, init), e);
      hide Run, Step;
    }
  }

  /** What another event does to an entry. */
  lemma StepKeepsEntry(z: Zlib, sort: Sorter, cache: Cache, e: Event, f: string)
    requires e.Expire? || e.fprint != f
    ensures var c := Step(z, sort, cache, e);
            && (f in c <==>
                  && f in cache
                  && (e.Expire? ==>
                        cache[f].t as real >= e.now - (if e.ttl == 0.0 then DEFAULT_TTL else e.ttl)))
            && (f in c ==> c[f].t == cache[f].t)
  {
    if e.Expire? {
      ExpiredMeans(z, cache, e.now, e.ttl, e.span);
    }
    hide Expired, Got;
  }
}
