/** The search index: container files, and the journal in front of them
    (mailpile/postinglist.py:84-289, 295-331, 541-709). A container counts as a file from the moment
    it is loaded; which of its contents are on disk is not told apart. */
module PostingStore {
  import opened PostingRoutes
  import opened PostingSplit
  import opened PostingSums
  import opened PostingGreedy

  /** The journal key that records the largest message, and that is never migrated. */
  const TRACKER := "_MAX_MSGID_"

  type Journal = map<string, set<nat>>

  /** All hits of a term: those of the journal and those of the containers. */
  function AllHits(journal: Journal, files: Files, w: string): set<nat>
    requires w != []
  {
    (if w in journal then journal[w] else {}) + Hits(files, w)
  }

  /** Some message of at least this number is in the journal. */
  ghost predicate Covers(journal: Journal, n: nat) {
    n == 0 || exists w, id :: w in journal && id in journal[w] && id >= n
  }

  lemma CoversMore(journal: Journal, journal': Journal, w: string, ids: set<nat>)
    requires journal' == journal[w := (if w in journal then journal[w] else {}) + ids]
    ensures forall n: nat :: Covers(journal', n) <==> Covers(journal, n) || exists id :: id in ids && id >= n
  {
    forall n: nat
      ensures Covers(journal', n) <==> Covers(journal, n) || exists id :: id in ids && id >= n
    {
      if id :| id in ids && id >= n {
        assert id in journal'[w];
      }
      if Covers(journal, n) && n != 0 {
        var v, id :| v in journal && id in journal[v] && id >= n;
        assert id in journal'[v];
      }
    }
  }

  /** The tracker knows of a message of at least this number. */
  ghost predicate Tracks(journal: Journal, n: nat) {
    TRACKER in journal && exists id :: id in journal[TRACKER] && id >= n
  }

  lemma TracksCovers(journal: Journal, max: nat)
    requires Tracks(journal, max)
    ensures forall n :: 0 <= n <= max ==> Covers(journal, n)
  {
    var id :| id in journal[TRACKER] && id >= max;
  }

  /** With entries other than the tracker removed, a bound on the journal stays a bound. */
  lemma FewerCovered(journal: Journal, journal': Journal, max: nat)
    requires Tracks(journal, max) && forall n: nat :: Covers(journal, n) ==> n <= max
    requires TRACKER in journal'
    requires journal'.Keys <= journal.Keys && forall w :: w in journal' ==> journal'[w] == journal[w]
    ensures Tracks(journal', max) && forall n: nat :: Covers(journal', n) ==> n <= max
  {
    forall n: nat | Covers(journal', n)
      ensures n <= max
    {
      assert Covers(journal, n);
    }
  }

  lemma TrackerRaised(journal: Journal, journal': Journal, max: nat, pos: nat)
    requires TRACKER in journal ==>
               (max == 0 || max in journal[TRACKER]) && forall id :: id in journal[TRACKER] ==> id <= max
    requires TRACKER in journal ==> journal[TRACKER] != {}
    requires TRACKER !in journal ==> max == 0
    requires journal' == if max == 0 || pos > max then journal[TRACKER := {pos}] else journal
    ensures Tracks(journal', pos)
    ensures forall n: nat :: Covers(journal', n) <==> Covers(journal, n) || n <= pos
  {
    if max == 0 || pos > max {
      assert pos in journal'[TRACKER];
    } else {
      assert max in journal'[TRACKER];
    }
    TracksCovers(journal', pos);
    forall n: nat
      ensures Covers(journal', n) <==> Covers(journal, n) || n <= pos
    {
      if Covers(journal, n) && n > pos {
        var w, id :| w in journal && id in journal[w] && id >= n;
        assert id in journal'[w];
      }
      if Covers(journal', n) && n > pos {
        var w, id :| w in journal' && id in journal'[w] && id >= n;
        assert id in journal[w];
      }
    }
  }

  /** The contents of a container as they are loaded: with an entry for its own name. */
  function Loaded(files: Files, f: string): Words {
    var words := if f in files then files[f] else map[];
    if f in words then words else words[f := {}]
  }

  function Appended(files: Files, w: string, ids: set<nat>): Files
    requires w != []
  {
    var f := Route(files, w);
    var words := Loaded(files, f);
    files[f := words[w := (if w in words then words[w] else {}) + ids]]
  }

  /** Loading a container by its first character changes no route. */
  lemma RouteAfterLoad(files: Files, f: string, words: Words, x: string)
    requires IsTerm(x) && (f in files || |f| == 1)
    ensures Route(files[f := words], x) == Route(files, x)
  {
    RouteMeans(files, x);
    RouteIs(files[f := words], x, Route(files, x));
  }

  /** Appending adds the messages to the hits of one term. */
  lemma AppendHits(files: Files, w: string, ids: set<nat>, x: string)
    requires Routed(files) && IsTerm(w) && IsTerm(x)
    ensures Hits(Appended(files, w, ids), x) == if x == w then Hits(files, w) + ids else Hits(files, x)
  {
    RouteMeans(files, w);
    RouteAfterLoad(files, Route(files, w), Appended(files, w, ids)[Route(files, w)], x);
  }

  lemma AppendRouted(files: Files, w: string, ids: set<nat>)
    requires Routed(files) && IsTerm(w)
    ensures Routed(Appended(files, w, ids))
  {
    var f := Route(files, w);
    var files' := Appended(files, w, ids);
    RouteMeans(files, w);
    hide Route;
    forall g, x | g in files' && x in files'[g] && files'[g][x] != {}
      ensures IsTerm(x) && Route(files', x) == g
    {
      if x != w || g != f {
        assert x in files[g] && files[g][x] != {};
      }
      RouteAfterLoad(files, f, files'[f], x);
    }
  }

  /** The entry of a term goes from the journal to the containers. */
  lemma MovedToContainer(journal: Journal, files: Files, files': Files, w: string)
    requires w in journal && w != TRACKER
    requires forall x :: IsTerm(x) ==> Hits(files', x) == if x == w then Hits(files, w) + journal[w] else Hits(files, x)
    ensures forall x :: IsTerm(x) ==> AllHits(journal - {w}, files', x) == AllHits(journal, files, x)
    ensures forall n: nat :: Tracks(journal - {w}, n) <==> Tracks(journal, n)
  {
    hide Hits;
    if TRACKER in journal {
      assert (journal - {w})[TRACKER] == journal[TRACKER];
    }
  }

  /** A container without the deleted messages; one term is spared. */
  function Purged(words: Words, spared: string, deleted: set<nat>): Words {
    map w | w in words :: if w == spared then words[w] else words[w] - deleted
  }

  predicate Overlaps(words: Words, spared: string, deleted: set<nat>) {
    exists x :: x in words && x != spared && words[x] * deleted != {}
  }

  /** What a purge does to look-ups: the terms that share the container lose the deleted messages, all but the
      spared one, and all other terms keep their hits. */
  ghost predicate Purges(files: Files, files': Files, w: string, spared: string, deleted: set<nat>)
    requires w != []
  {
    forall x :: IsTerm(x) ==>
      Hits(files', x) == if x != spared && Route(files, x) == Route(files, w) then Hits(files, x) - deleted
                         else Hits(files, x)
  }

  /** Does some term of the container, other than the spared one, have hits among the deleted messages? */
  ghost predicate SomethingToPurge(files: Files, w: string, spared: string, deleted: set<nat>)
    requires w != []
  {
    exists x :: IsTerm(x) && x != spared && Route(files, x) == Route(files, w) && Hits(files, x) * deleted != {}
  }

  lemma PurgeHits(files: Files, f: string, spared: string, deleted: set<nat>, x: string)
    requires Routed(files) && IsTerm(x) && (f in files || |f| == 1)
    ensures Hits(files[f := Purged(Loaded(files, f), spared, deleted)], x) ==
            if x != spared && Route(files, x) == f then Hits(files, x) - deleted else Hits(files, x)
  {
    RouteAfterLoad(files, f, Purged(Loaded(files, f), spared, deleted), x);
  }

  lemma PurgeSafe(files: Files, w: string, spared: string, deleted: set<nat>)
    requires Routed(files) && IsTerm(w)
    ensures var f := Route(files, w);
            var files' := files[f := Purged(Loaded(files, f), spared, deleted)];
            Routed(files') && Purges(files, files', w, spared, deleted)
    ensures Overlaps(Loaded(files, Route(files, w)), spared, deleted) <==> SomethingToPurge(files, w, spared, deleted)
  {
    var f := Route(files, w);
    RouteMeans(files, w);
    PurgeRouted(files, f, spared, deleted);
    OverlapsMeans(files, w, spared, deleted);
    hide Hits, Purged, Routed;
    forall x | IsTerm(x)
      ensures Hits(files[f := Purged(Loaded(files, f), spared, deleted)], x) ==
              if x != spared && Route(files, x) == f then Hits(files, x) - deleted else Hits(files, x)
    {
      PurgeHits(files, f, spared, deleted, x);
    }
  }

  lemma OverlapsMeans(files: Files, w: string, spared: string, deleted: set<nat>)
    requires Routed(files) && IsTerm(w)
    ensures Overlaps(Loaded(files, Route(files, w)), spared, deleted) <==> SomethingToPurge(files, w, spared, deleted)
  {
    var f := Route(files, w);
    var words := Loaded(files, f);
    if Overlaps(words, spared, deleted) {
      var x :| x in words && x != spared && words[x] * deleted != {};
      assert x in files[f] && IsTerm(x) && Route(files, x) == f && Hits(files, x) == words[x];
    }
    if SomethingToPurge(files, w, spared, deleted) {
      var x :| IsTerm(x) && x != spared && Route(files, x) == f && Hits(files, x) * deleted != {};
      assert x in words && words[x] == Hits(files, x);
    }
  }

  lemma PurgeRouted(files: Files, f: string, spared: string, deleted: set<nat>)
    requires Routed(files) && (f in files || |f| == 1)
    ensures Routed(files[f := Purged(Loaded(files, f), spared, deleted)])
  {
    var files' := files[f := Purged(Loaded(files, f), spared, deleted)];
    forall g, x | g in files' && x in files'[g] && files'[g][x] != {}
      ensures IsTerm(x) && Route(files', x) == g
    {
      assert x in files[g] && files[g][x] != {};
      RouteAfterLoad(files, f, files'[f], x);
    }
  }

  /** The placeholder that loading adds makes no difference to what is written. */
  lemma PlaceholderUnseen(words: Words, f: string, picks: seq<string>)
    ensures var full := if f in words then words else words[f := {}];
            && NonEmpty(Remaining(full, picks)) == NonEmpty(Remaining(words, picks))
            && forall i :: NonEmpty(Part(full, picks, i)) == NonEmpty(Part(words, picks, i))
  {
  }

  /** Where term w is while the terms in `todo` are still to be looked at. */
  ghost predicate TermMoved(rest: Words, nsig: string, plc: Words, todo: set<string>,
                            rest': Words, plc': Words, w: string)
  {
    var moved := w in rest && w !in todo && Prefix(nsig, w);
    && (w in rest' <==> w in rest && !moved)
    && (w in rest' ==> rest'[w] == rest[w])
    && (w in plc' <==> w in plc || moved)
    && (w in plc' ==> plc'[w] == (if w in plc then plc[w] else {}) + if moved then rest[w] else {})
  }

  lemma TermMovedStep(rest: Words, nsig: string, plc: Words, todo: set<string>,
                      rest0: Words, plc0: Words, v: string, w: string)
    requires v in todo && todo <= rest.Keys
    requires TermMoved(rest, nsig, plc, todo, rest0, plc0, v) && TermMoved(rest, nsig, plc, todo, rest0, plc0, w)
    ensures v in rest0
    ensures TermMoved(rest, nsig, plc, todo - {v},
                      if Prefix(nsig, v) then rest0 - {v} else rest0,
                      if Prefix(nsig, v) then plc0[v := (if v in plc0 then plc0[v] else {}) + rest0[v]] else plc0, w)
  {
  }

  /** The files with an empty one for each new name. */
  function WithNew(files: Files, picks: seq<string>): Files {
    map g | g in files.Keys + Picked(picks) :: if g in files then files[g] else map[]
  }

  /** What the second loop of `_splits` knows about its counters. */
  ghost predicate SplitLoop(words: Words, f: string, picks: seq<string>, total: nat, sums: map<string, nat>) {
    && GreedyPicks(words, f, picks)
    && total == Entries(words, Left(words, f, picks))
    && (forall k :: k in sums <==> Group(words, f, k) != {} && k !in picks)
    && (forall k :: k in sums ==> sums[k] == Sum(words, f, k))
  }

  lemma SplitStart(words: Words, f: string, total: nat, sums: map<string, nat>)
    requires total == Entries(words, words.Keys) && SumsOk(words, f, {}, sums)
    ensures SplitLoop(words, f, [], total, sums)
  {
    assert Left(words, f, []) == words.Keys;
    forall k
      ensures k in sums <==> Group(words, f, k) != {}
      ensures k in sums ==> sums[k] == Sum(words, f, k)
    {
      assert SumOk(words, f, {}, sums, k);
      assert Group(words, f, k) - {} == Group(words, f, k);
    }
  }

  lemma LeftStep(words: Words, f: string, picks: seq<string>, nsig: string)
    requires nsig !in picks
    ensures Group(words, f, nsig) <= Left(words, f, picks)
    ensures Left(words, f, picks + [nsig]) == Left(words, f, picks) - Group(words, f, nsig)
    ensures Entries(words, Left(words, f, picks)) ==
            Entries(words, Left(words, f, picks + [nsig])) + Sum(words, f, nsig)
  {
    hide Entries, Target;
    var g, left := Group(words, f, nsig), Left(words, f, picks);
    assert Picked(picks + [nsig]) == Picked(picks) + {nsig};
    EntriesSplit(words, left - g, g);
    assert left - g + g == left;
  }

  /** As long as there are entries left, the largest sum is positive. */
  lemma LargestPositive(words: Words, f: string, picks: seq<string>, total: nat, sums: map<string, nat>, nsig: string)
    requires SplitLoop(words, f, picks, total, sums) && total > 0
    requires nsig in sums && forall k :: k in sums ==> sums[k] <= sums[nsig]
    ensures sums[nsig] > 0
  {
    var w := PositiveEntries(words, Left(words, f, picks));
    var k := Target(f, w, |words[w]|);
    assert w in Group(words, f, k) && k in sums;
    EntriesAdd(words, Group(words, f, k), w);
  }

  lemma PickStep(words: Words, f: string, picks: seq<string>, total: nat, sums: map<string, nat>, nsig: string)
    requires SplitLoop(words, f, picks, total, sums) && total > MAX_ITEMS
    requires nsig in sums && forall k :: k in sums ==> sums[k] <= sums[nsig]
    ensures 0 < sums[nsig] <= total && GreedyPicks(words, f, picks + [nsig])
    ensures SplitLoop(words, f, picks + [nsig], total - sums[nsig], sums - {nsig})
  {
    LargestPositive(words, f, picks, total, sums, nsig);
    LeftStep(words, f, picks, nsig);
    forall k | k !in picks
      ensures Sum(words, f, k) <= Sum(words, f, nsig)
    {
      if Group(words, f, k) != {} {
        assert k in sums;
      }
    }
    GreedyStep(words, f, picks, nsig);
  }

  lemma FewerSums(sums: map<string, nat>, k: string)
    requires k in sums
    ensures |sums - {k}| < |sums|
  {
    assert sums.Keys == (sums - {k}).Keys + {k};
  }

  lemma RestIsLeft(words: Words, f: string, picks: seq<string>, w: string)
    requires w in words && Owner(picks, w) < 0
    ensures w in Left(words, f, picks)
  {
    OwnerMeans(picks, w);
    assert Prefix(Target(f, w, |words[w]|), w);
  }

  lemma PicksDone(words: Words, f: string, picks: seq<string>, total: nat, sums: map<string, nat>)
    requires SplitLoop(words, f, picks, total, sums) && (total <= MAX_ITEMS || sums == map[])
    ensures GreedyRun(words, f, picks)
  {
    if total > MAX_ITEMS {
      var w := PositiveEntries(words, Left(words, f, picks));
    }
  }

  lemma RestIsSmall(words: Words, f: string, picks: seq<string>, rest: Words)
    requires rest == Remaining(words, picks)
    ensures Entries(rest, rest.Keys) <= Entries(words, Left(words, f, picks))
  {
    var left := Left(words, f, picks);
    forall w | w in rest
      ensures w in left
    {
      RestIsLeft(words, f, picks, w);
    }
    EntriesMonotone(words, rest.Keys, left);
    EntriesSame(rest, words, rest.Keys);
  }

  lemma NothingMoved(files: Files, words: Words)
    ensures SplitState(files, files, words, [], words, map[])
  {
    assert WithNew(files, []) == files;
  }

  lemma PickFresh(files: Files, f: string, words: Words, picks: seq<string>, i: nat)
    requires TargetsNew(files, f, words) && GreedyPicks(words, f, picks) && i < |picks|
    ensures picks[i] !in files && picks[i] !in picks[..i]
  {
    assert PickedInTime(words, f, picks, i);
  }

  /** No name that could be picked is in use. */
  ghost predicate TargetsNew(files: Files, f: string, words: Words) {
    forall nsig :: Sum(words, f, nsig) > 0 ==> nsig !in files
  }

  lemma TargetsAreNew(files: Files, f: string, words: Words)
    requires Routed(files) && f in files && |f| < MAX_HASH_LEN && words == Loaded(files, f)
    ensures TargetsNew(files, f, words)
  {
    forall nsig | Sum(words, f, nsig) > 0
      ensures nsig !in files
    {
      var w := PositiveEntries(words, Group(words, f, nsig));
      assert w in files[f] && words[w] == files[f][w];
      assert IsTarget(files[f], f, nsig);
      TargetShape(files, f, nsig);
    }
  }

  /** A container of a routed index holds whole terms. */
  lemma LoadedContained(files: Files, f: string)
    requires Routed(files) && f in files && |f| < MAX_HASH_LEN
    ensures Contained(Loaded(files, f), f)
  {
    forall w | w in Loaded(files, f) && Loaded(files, f)[w] != {}
      ensures IsTerm(w) && Prefix(f, w)
    {
      assert w in files[f] && files[f][w] != {};
      RouteMeans(files, w);
    }
  }

  lemma WhenCast(files: Files, f: string, words: Words, picks: seq<string>)
    requires Routed(files) && f in files && |f| < MAX_HASH_LEN && words == Loaded(files, f)
    requires GreedyRun(words, f, picks)
    ensures !CanShadow(words, f) ==> NoShadow(picks)
  {
    LoadedContained(files, f);
    if !NoShadow(picks) {
      ShadowNeeds(words, f, picks);
    }
  }

  lemma {:induction false} OwnerUpToAppend(picks: seq<string>, nsig: string, n: nat, w: string)
    requires n <= |picks|
    ensures OwnerUpTo(picks + [nsig], n, w) == OwnerUpTo(picks, n, w)
  {
    if n == 0 {
    } else {
      OwnerUpToAppend(picks, nsig, n - 1, w);
    }
  }

  lemma OwnerStep(picks: seq<string>, nsig: string, w: string)
    ensures Owner(picks + [nsig], w) ==
            if Owner(picks, w) >= 0 then Owner(picks, w) else if Prefix(nsig, w) then |picks| else -1
  {
    OwnerUpToAppend(picks, nsig, |picks|, w);
  }

  /** Where one term is after one more pick. */
  lemma MovedTerm(words: Words, picks: seq<string>, nsig: string, rest0: Words, rest: Words, plc': Words, w: string)
    requires rest0 == Remaining(words, picks)
    requires TermMoved(rest0, nsig, map[nsig := {}], {}, rest, plc', w)
    ensures var o := Owner(picks + [nsig], w);
            && (w in rest <==> w in words && o < 0)
            && (w in rest ==> rest[w] == words[w])
            && (w in plc' && plc'[w] != {} <==> w in words && o == |picks| && words[w] != {})
            && (w in plc' && plc'[w] != {} ==> plc'[w] == words[w])
            && (0 <= o < |picks| || 0 <= Owner(picks, w) ==> o == Owner(picks, w))
  {
    OwnerStep(picks, nsig, w);
  }

  /** How far a split has got: the files, what is left in the container, and what moved where. */
  ghost predicate SplitState(files0: Files, files: Files, words: Words, picks: seq<string>,
                             rest: Words, parts: map<string, Words>)
  {
    && files == WithNew(files0, picks)
    && rest == Remaining(words, picks)
    && parts.Keys == Picked(picks)
    && forall i :: 0 <= i < |picks| ==> NonEmpty(parts[picks[i]]) == NonEmpty(Part(words, picks, i))
  }

  lemma SplitStateStep(files0: Files, files: Files, words: Words, picks: seq<string>, rest0: Words,
                       parts: map<string, Words>, nsig: string, rest: Words, plc': Words)
    requires SplitState(files0, files, words, picks, rest0, parts)
    requires nsig !in files0 && nsig !in picks
    requires forall w :: TermMoved(rest0, nsig, map[nsig := {}], {}, rest, plc', w)
    ensures nsig !in files
    ensures SplitState(files0, files[nsig := map[]], words, picks + [nsig], rest, parts[nsig := plc'])
  {
    hide NonEmpty, Part, Remaining, TermMoved, WithNew, Picked;
    RestStep(words, picks, nsig, rest0, rest, plc');
    WithNewStep(files0, picks, nsig);
    PickedHas(picks);
    PartsStep(words, picks, parts, nsig, plc');
  }

  lemma PickedHas(picks: seq<string>)
    ensures forall i :: 0 <= i < |picks| ==> picks[i] in Picked(picks)
  {
  }

  /** The parts that have moved before, and the one that moves now. */
  lemma PartsStep(words: Words, picks: seq<string>, parts: map<string, Words>, nsig: string, plc': Words)
    requires nsig !in picks && forall i :: 0 <= i < |picks| ==> picks[i] in parts
    requires forall i :: 0 <= i < |picks| ==> NonEmpty(parts[picks[i]]) == NonEmpty(Part(words, picks, i))
    requires NonEmpty(plc') == NonEmpty(Part(words, picks + [nsig], |picks|))
    ensures var all, more := picks + [nsig], parts[nsig := plc'];
            && (forall i :: 0 <= i < |all| ==> all[i] in more)
            && forall i :: 0 <= i < |all| ==> NonEmpty(more[all[i]]) == NonEmpty(Part(words, all, i))
  {
    hide NonEmpty, Part;
    var all := picks + [nsig];
    forall i | 0 <= i < |all|
      ensures NonEmpty(parts[nsig := plc'][all[i]]) == NonEmpty(Part(words, all, i))
    {
      if i < |picks| {
        assert all[i] == picks[i] != nsig;
        OldPart(words, picks, nsig, i);
      }
    }
  }

  lemma WithNewStep(files: Files, picks: seq<string>, nsig: string)
    requires nsig !in files && nsig !in picks
    ensures Picked(picks + [nsig]) == Picked(picks) + {nsig}
    ensures nsig !in WithNew(files, picks) && WithNew(files, picks + [nsig]) == WithNew(files, picks)[nsig := map[]]
  {
    assert Picked(picks + [nsig]) == Picked(picks) + {nsig};
  }

  lemma OldPart(words: Words, picks: seq<string>, nsig: string, i: nat)
    requires i < |picks|
    ensures Part(words, picks + [nsig], i) == Part(words, picks, i)
  {
    forall w | w in words
      ensures Owner(picks + [nsig], w) == i <==> Owner(picks, w) == i
    {
      OwnerStep(picks, nsig, w);
    }
  }

  lemma RestStep(words: Words, picks: seq<string>, nsig: string, rest0: Words, rest: Words, plc': Words)
    requires rest0 == Remaining(words, picks)
    requires forall w :: TermMoved(rest0, nsig, map[nsig := {}], {}, rest, plc', w)
    ensures rest == Remaining(words, picks + [nsig])
    ensures NonEmpty(plc') == NonEmpty(Part(words, picks + [nsig], |picks|))
  {
    var all := picks + [nsig];
    var rest', part := Remaining(words, all), NonEmpty(Part(words, all, |picks|));
    forall w
      ensures w in rest <==> w in rest'
      ensures w in rest ==> rest[w] == rest'[w]
      ensures w in NonEmpty(plc') <==> w in part
      ensures w in part ==> plc'[w] == part[w]
    {
      MovedTerm(words, picks, nsig, rest0, rest, plc', w);
    }
  }

  lemma PicksFresh(files: Files, f: string, words: Words, picks: seq<string>)
    requires TargetsNew(files, f, words) && GreedyPicks(words, f, picks)
    ensures forall p :: p in picks ==> p !in files
  {
    forall p | p in picks
      ensures p !in files
    {
      var i :| 0 <= i < |picks| && picks[i] == p;
      PickFresh(files, f, words, picks, i);
    }
  }

  lemma SplitWritten(before: Files, files: Files, f: string, words: Words, picks: seq<string>,
                     rest: Words, parts: map<string, Words>)
    requires f in before && words == Loaded(before, f)
    requires forall p :: p in picks ==> p !in before
    requires rest == Remaining(words, picks) && parts.Keys == Picked(picks)
    requires forall i :: 0 <= i < |picks| ==> NonEmpty(parts[picks[i]]) == NonEmpty(Part(words, picks, i))
    requires var written := if NonEmpty(rest) == map[] then WithNew(before, picks) - {f}
                            else WithNew(before, picks)[f := NonEmpty(rest)];
             && files.Keys == written.Keys
             && forall g :: g in files ==> files[g] == if g in parts then NonEmpty(parts[g]) else written[g]
    ensures IsSplit(before, files, f, picks)
  {
    PlaceholderUnseen(before[f], f, picks);
    forall i | 0 <= i < |picks|
      ensures files[picks[i]] == NonEmpty(Part(before[f], picks, i))
    {
      assert picks[i] in picks;
    }
  }

  lemma SplitExactlyLoaded(before: Files, files: Files, f: string, words: Words, picks: seq<string>)
    requires Routed(before) && f in before && |f| < MAX_HASH_LEN && words == Loaded(before, f)
    requires GreedyPicks(words, f, picks) && IsSplit(before, files, f, picks)
    ensures NoShadow(picks) <==> forall w :: IsTerm(w) ==> Hits(files, w) == Hits(before, w)
    ensures NoShadow(picks) <==> Routed(files)
  {
    GreedyPicksOk(words, f, picks);
    forall i | 0 <= i < |picks|
      ensures IsTarget(before[f], f, picks[i])
    {
      assert IsTarget(words, f, picks[i]);
      var w :| w in words && words[w] != {} && picks[i] == Target(f, w, |words[w]|);
      assert w in before[f];
    }
    SplitExactly(before, files, f, picks);
  }

  /** Writing a container as it is changes no look-up. */
  lemma WrittenAsIs(before: Files, f: string, words: Words)
    requires Routed(before) && f in before && words == Loaded(before, f)
    ensures var files := if NonEmpty(words) == map[] then before - {f} else before[f := NonEmpty(words)];
            && Routed(files)
            && forall w :: IsTerm(w) ==> Hits(files, w) == Hits(before, w)
  {
    if NonEmpty(words) == map[] {
      assert forall x :: x in before[f] && before[f][x] != {} ==> x in NonEmpty(words);
      forall w | IsTerm(w)
        ensures Routed(before - {f}) && Hits(before - {f}, w) == Hits(before, w)
      {
        DeleteEmptied(before, f, w);
      }
      assert IsTerm(seq(MAX_HASH_LEN, i => 'a'));
    } else {
      var files := before[f := NonEmpty(words)];
      forall x | IsTerm(x)
        ensures Route(files, x) == Route(before, x)
      {
        RouteAfterLoad(before, f, NonEmpty(words), x);
      }
    }
  }

  /** What `save` leaves in the container it split. */
  lemma SmallAfterSplit(words: Words, f: string, picks: seq<string>, rest: Words)
    requires rest == Remaining(words, picks) && Entries(rest, rest.Keys) <= MAX_ITEMS
    ensures Entries(NonEmpty(rest), NonEmpty(rest).Keys) <= MAX_ITEMS
  {
    EntriesSame(NonEmpty(rest), rest, NonEmpty(rest).Keys);
    EntriesMonotone(rest, NonEmpty(rest).Keys, rest.Keys);
  }

  class Store {
    var files: Files
    var changed: set<string>
    var journal: Journal

    ghost predicate Valid()
      reads this
    {
      && Routed(files)
      && (forall w :: w in journal && w != TRACKER ==> IsTerm(w))
      && (TRACKER in journal ==> journal[TRACKER] != {})
    }

    constructor ()
      ensures Valid() && files == map[] && journal == map[] && changed == {}
    {
      files, changed, journal := map[], {}, map[];
    }

    /** `PostingList.Append`: add messages to a term in its container. */
    method Append(w: string, ids: set<nat>)
      requires Valid() && IsTerm(w)
      modifies this`files, this`changed
      ensures Valid() && files == Appended(old(files), w, ids)
      ensures changed == old(changed) + (if ids != {} then {Route(old(files), w)} else {})
      ensures forall x :: IsTerm(x) ==>
                Hits(files, x) == if x == w then Hits(old(files), w) + ids else Hits(old(files), x)
    {
      AppendRouted(files, w, ids);
      forall x | IsTerm(x)
        ensures Hits(Appended(files, w, ids), x) == if x == w then Hits(files, w) + ids else Hits(files, x)
      {
        AppendHits(files, w, ids, x);
      }
      var f := FindContainer(files, w);
      var words := Loaded(files, f);
      files := files[f := words[w := (if w in words then words[w] else {}) + ids]];
      if ids != {} {
        changed := changed + {f};
      }
    }

    /** `purge_deleted` on the container of a term. */
    method PurgeDeleted(w: string, spared: string, deleted: set<nat>)
      requires Valid() && IsTerm(w)
      modifies this`files, this`changed
      ensures Valid()
      ensures forall x :: IsTerm(x) ==>
                Hits(files, x) == if x != spared && Route(old(files), x) == Route(old(files), w)
                                  then Hits(old(files), x) - deleted
                                  else Hits(old(files), x)
      ensures changed == old(changed) + if SomethingToPurge(old(files), w, spared, deleted)
                                        then {Route(old(files), w)} else {}
    {
      PurgeSafe(files, w, spared, deleted);
      var f := FindContainer(files, w);
      hide Hits, Routed, Purged, Loaded, Overlaps, SomethingToPurge, Route;
      var words := Loaded(files, f);
      if Overlaps(words, spared, deleted) {
        changed := changed + {f};
      }
      files := files[f := Purged(words, spared, deleted)];
    }

    /** Moving the terms with the picked prefix to its file. */
    static method MoveTerms(rest: Words, nsig: string, plc: Words) returns (rest': Words, plc': Words)
      ensures forall w :: TermMoved(rest, nsig, plc, {}, rest', plc', w)
    {
      rest', plc' := rest, plc;
      var todo := rest.Keys;
      while todo != {}
        invariant todo <= rest.Keys
        invariant forall w :: TermMoved(rest, nsig, plc, todo, rest', plc', w)
        decreases |todo|
      {
        var v :| v in todo;
        assert TermMoved(rest, nsig, plc, todo, rest', plc', v);
        ghost var todo0, rest0, plc0 := todo, rest', plc';
        if Prefix(nsig, v) {
          plc' := plc'[v := (if v in plc' then plc'[v] else {}) + rest'[v]];
          rest' := rest' - {v};
        }
        todo := todo - {v};
        forall w
          ensures TermMoved(rest, nsig, plc, todo, rest', plc', w)
        {
          TermMovedStep(rest, nsig, plc, todo0, rest0, plc0, v, w);
        }
      }
    }

    /** One picked name: its file is created if need be, and its terms move there. */
    method MoveOut(nsig: string, rest: Words, parts: map<string, Words>,
                   ghost files0: Files, ghost words: Words, ghost picks: seq<string>)
      returns (rest': Words, parts': map<string, Words>)
      requires nsig !in files0 && nsig !in picks
      requires SplitState(files0, files, words, picks, rest, parts)
      modifies this`files
      ensures SplitState(files0, files, words, picks + [nsig], rest', parts')
    {
      ghost var before := files;
      assert nsig !in files;
      if nsig !in files {
        files := files[nsig := map[]];
      }
      var plc;
      rest', plc := MoveTerms(rest, nsig, Loaded(files, nsig));
      parts' := parts[nsig := plc];
      SplitStateStep(files0, before, words, picks, rest, parts, nsig, rest', plc);
    }

    static method LargestSum(sums: map<string, nat>) returns (nsig: string)
      requires sums != map[]
      ensures nsig in sums && forall k :: k in sums ==> sums[k] <= sums[nsig]
    {
      ghost var m := MaxExists(sums);
      nsig :| nsig in sums && forall k :: k in sums ==> sums[k] <= sums[nsig];
    }

    /** The second loop of `_splits`, as far as it looks at the counters: which names are picked.
        It does not look at what is moved. */
    static method PickTargets(f: string, words: Words) returns (picks: seq<string>)
      ensures GreedyRun(words, f, picks)
    {
      hide SplitLoop, GreedyPicks, GreedyRun, Entries, Left, Group, SumsOk;
      picks := [];
      var total: nat, sums := CountEntries(words, f);
      SplitStart(words, f, total, sums);
      while total > MAX_ITEMS && sums != map[]
        invariant SplitLoop(words, f, picks, total, sums)
        decreases |sums|
      {
        var nsig := LargestSum(sums);
        FewerSums(sums, nsig);
        PickStep(words, f, picks, total, sums, nsig);
        total := total - sums[nsig];
        sums := sums - {nsig};
        picks := picks + [nsig];
      }
      PicksDone(words, f, picks, total, sums);
    }

    /** `_splits`: choose what to move out of a container, and move it. Files for the picked names
        are created, empty, on the way. */
    method Splits(f: string, words: Words) returns (rest: Words, picks: seq<string>, parts: map<string, Words>)
      requires TargetsNew(files, f, words)
      modifies this`files
      ensures GreedyRun(words, f, picks)
      ensures SplitState(old(files), files, words, picks, rest, parts)
      ensures Entries(rest, rest.Keys) <= MAX_ITEMS
    {
      picks := PickTargets(f, words);
      forall i | 0 <= i < |picks|
        ensures picks[i] !in files && picks[i] !in picks[..i]
      {
        PickFresh(files, f, words, picks, i);
      }
      rest, parts := MoveAll(words, picks);
      RestIsSmall(words, f, picks, rest);
    }

    method MoveAll(words: Words, picks: seq<string>) returns (rest: Words, parts: map<string, Words>)
      requires forall i :: 0 <= i < |picks| ==> picks[i] !in files && picks[i] !in picks[..i]
      modifies this`files
      ensures SplitState(old(files), files, words, picks, rest, parts)
    {
      hide SplitState;
      rest, parts := words, map[];
      NothingMoved(files, words);
      var i := 0;
      while i < |picks|
        invariant 0 <= i <= |picks|
        invariant SplitState(old(files), files, words, picks[..i], rest, parts)
      {
        rest, parts := MoveOut(picks[i], rest, parts, old(files), words, picks[..i]);
        assert picks[..i] + [picks[i]] == picks[..i + 1];
        i := i + 1;
      }
      assert picks[..i] == picks;
    }

    /** `save` of one container as it is: terms without hits are not written, and a container
        without any hits is deleted. */
    method Write(f: string, words: Words)
      modifies this`files, this`changed
      ensures changed == old(changed) - {f}
      ensures files == if NonEmpty(words) == map[] then old(files) - {f} else old(files)[f := NonEmpty(words)]
    {
      var output := NonEmpty(words);
      if output == map[] {
        files := files - {f};
      } else {
        files := files[f := output];
      }
      changed := changed - {f};
    }

    /** `save`: a changed container is written, after moving out what makes it too large. Every fresh
        look-up is kept if and only if no picked name extends one picked before it, and so in any case if the
        container before the call has no big term that can be picked behind a prefix of it. */
    method Save(f: string) returns (picks: seq<string>)
      requires Valid() && f in files
      modifies this`files, this`changed
      ensures if f in old(changed) && |Loaded(old(files), f)| > 1 && |f| < MAX_HASH_LEN
              then GreedyRun(Loaded(old(files), f), f, picks) else picks == []
      ensures NoShadow(picks) <==> forall w :: IsTerm(w) ==> Hits(files, w) == Hits(old(files), w)
      ensures !CanShadow(Loaded(old(files), f), f) ==> NoShadow(picks)
      ensures NoShadow(picks) <==> Valid()
      ensures f !in old(changed) ==> files == old(files)
      ensures f in old(changed) && |Loaded(old(files), f)| > 1 && |f| < MAX_HASH_LEN && f in files ==>
                Entries(files[f], files[f].Keys) <= MAX_ITEMS
    {
      picks := [];
      if f !in changed {
        return;
      }
      var words := Loaded(files, f);
      if |words| > 1 && |f| < MAX_HASH_LEN {
        picks := SaveSplit(f, words);
        WhenCast(old(files), f, words, picks);
      } else {
        WrittenAsIs(files, f, words);
        Write(f, words);
      }
    }

    method SaveSplit(f: string, words: Words) returns (picks: seq<string>)
      requires Valid() && f in files && |f| < MAX_HASH_LEN && words == Loaded(files, f)
      modifies this`files, this`changed
      ensures GreedyRun(words, f, picks)
      ensures NoShadow(picks) <==> forall w :: IsTerm(w) ==> Hits(files, w) == Hits(old(files), w)
      ensures NoShadow(picks) <==> Valid()
      ensures f in files ==> Entries(files[f], files[f].Keys) <= MAX_ITEMS
    {
      TargetsAreNew(files, f, words);
      var rest;
      picks, rest := SplitAndWrite(f, words);
      SplitExactlyLoaded(old(files), files, f, words, picks);
      SmallAfterSplit(words, f, picks, rest);
    }

    method SplitAndWrite(f: string, words: Words)
      returns (picks: seq<string>, rest: Words)
      requires TargetsNew(files, f, words) && f in files && words == Loaded(files, f)
      modifies this`files, this`changed
      ensures GreedyRun(words, f, picks) && IsSplit(old(files), files, f, picks)
      ensures rest == Remaining(words, picks) && Entries(rest, rest.Keys) <= MAX_ITEMS
      ensures f in files ==> files[f] == NonEmpty(rest)
    {
      var parts;
      rest, picks, parts := Splits(f, words);
      PicksFresh(old(files), f, words, picks);
      Write(f, rest);
      WriteParts(f, picks, parts);
      SplitWritten(old(files), files, f, words, picks, rest, parts);
    }

    /** Writing the new containers, as far as something moved there. */
    method WriteParts(f: string, picks: seq<string>, parts: map<string, Words>)
      requires parts.Keys == Picked(picks)
      requires forall p :: p in picks ==> p in files && files[p] == map[]
      modifies this`files, this`changed
      ensures files.Keys == old(files).Keys
      ensures forall g :: g in files ==> files[g] == if g in parts then NonEmpty(parts[g]) else old(files)[g]
    {
      var i := 0;
      while i < |picks|
        invariant 0 <= i <= |picks|
        invariant files.Keys == old(files).Keys
        invariant forall g :: g in files ==> files[g] == if g in picks[..i] then NonEmpty(parts[g]) else old(files)[g]
      {
        var p := picks[i];
        assert p in picks;
        if NonEmpty(parts[p]) != map[] {
          Write(p, parts[p]);
        }
        assert picks[..i + 1] == picks[..i] + [p];
        i := i + 1;
      }
      assert picks[..i] == picks;
    }

    /** `_Append` of the journal. */
    method AppendToJournal(w: string, ids: set<nat>)
      requires Valid() && IsTerm(w)
      modifies this`journal
      ensures Valid()
      ensures journal == old(journal)[w := (if w in old(journal) then old(journal)[w] else {}) + ids]
      ensures forall n: nat :: Covers(journal, n) <==> Covers(old(journal), n) || exists id :: id in ids && id >= n
    {
      var now := if w in journal then journal[w] else {};
      journal := journal[w := now + ids];
      CoversMore(old(journal), journal, w, ids);
    }

    /** `_migrate`: the journal entry of a term goes to its container. */
    method Migrate(w: string) returns (migrated: bool)
      requires Valid() && (IsTerm(w) || w == TRACKER)
      modifies this
      ensures Valid()
      ensures migrated <==> w != TRACKER && w in old(journal) && old(journal)[w] != {}
      ensures journal == if migrated then old(journal) - {w} else old(journal)
      ensures forall x :: IsTerm(x) ==> AllHits(journal, files, x) == AllHits(old(journal), old(files), x)
      ensures forall n: nat :: Tracks(journal, n) <==> Tracks(old(journal), n)
    {
      if w == TRACKER {
        return false;
      }
      if w in journal && journal[w] != {} {
        ghost var before := files;
        hide Hits, AllHits, Tracks, Routed, Appended;
        Append(w, journal[w]);
        MovedToContainer(journal, before, files, w);
        journal := journal - {w};
        return true;
      }
      return false;
    }

    /** The largest message in the journal. */
    method GetMaxMsgIdxPos() returns (max: nat)
      ensures forall n: nat :: Covers(journal, n) <==> n <= max
    {
      max := 0;
      var todo := journal.Keys;
      while todo != {}
        invariant todo <= journal.Keys
        invariant max == 0 || exists w, id :: w in journal && id in journal[w] && id == max
        invariant forall w, id :: w in journal && w !in todo && id in journal[w] ==> id <= max
        decreases |todo|
      {
        var w :| w in todo;
        var m := Largest(journal[w], max);
        max := m;
        todo := todo - {w};
      }
      forall n: nat
        ensures Covers(journal, n) <==> n <= max
      {
      }
    }

    static method Largest(ids: set<nat>, floor: nat) returns (max: nat)
      ensures max >= floor && (max == floor || max in ids) && forall id :: id in ids ==> id <= max
    {
      max := floor;
      var todo := ids;
      while todo != {}
        invariant todo <= ids && max >= floor && (max == floor || max in ids)
        invariant forall id :: id in ids && id !in todo ==> id <= max
        decreases |todo|
      {
        var id :| id in todo;
        if id > max { max := id; }
        todo := todo - {id};
      }
    }

    /** `UpdateMaxMsgMid` for one message: the tracker only ever grows. */
    method UpdateMaxMsgMid(pos: nat)
      requires Valid()
      modifies this`journal
      ensures Valid() && TRACKER in journal && Tracks(journal, pos)
      ensures forall w :: w != TRACKER ==> (w in journal <==> w in old(journal))
      ensures forall w :: w != TRACKER && w in journal ==> journal[w] == old(journal)[w]
      ensures forall n: nat :: Covers(journal, n) <==> Covers(old(journal), n) || n <= pos
    {
      var max := 0;
      if TRACKER in journal {
        max := Largest(journal[TRACKER], 0);
      }
      if max == 0 || pos > max {
        journal := journal[TRACKER := {pos}];
      }
      TrackerRaised(old(journal), journal, max, pos);
    }

    /** `PLC_CACHE_FlushAndClean`: containers are saved, in the order in which they are chosen, up to the first save
        that casts a shadow. None does just in case no look-up has changed, and so in any case if no container could
        cast one whatever terms are in which. */
    method Flush(chosen: seq<string>) returns (clean: bool)
      requires Valid()
      modifies this`files, this`changed
      ensures clean <==> forall w :: IsTerm(w) ==> Hits(files, w) == Hits(old(files), w)
      ensures clean <==> Valid()
      ensures chosen == [] || !CanCast(HitsOf(journal, old(files))) ==> clean
    {
      hide Hits, Routed, GreedyRun, CanShadow, CanCast, HitsOf;
      for i := 0 to |chosen|
        invariant Valid() && forall w :: IsTerm(w) ==> Hits(files, w) == Hits(old(files), w)
      {
        var f := chosen[i];
        if f in files {
          NoneCast(journal, old(files), files, f);
          var picks := Save(f);
          if !NoShadow(picks) {
            return false;
          }
        }
      }
      return true;
    }

    /** `_Optimize`: terms are migrated one after the other, and the deleted messages purged from
        their containers, until the keys or the time run out. `flushes` says which containers are saved after each
        key; `clean` that none of these saves casts a shadow, at which the call is followed no further. */
    method Optimize(keys: seq<string>, stopAt: nat, deletedSig: string, lazy: bool, flushes: seq<seq<string>>)
      returns (clean: bool)
      requires Valid() && IsTerm(deletedSig)
      requires forall i :: 0 <= i < |keys| ==> IsTerm(keys[i]) || keys[i] == TRACKER
      modifies this
      ensures clean <==> Valid()
      ensures clean ==> PurgedOnly(old(journal), old(files), journal, files, deletedSig,
                                   AllHits(old(journal), old(files), deletedSig))
      ensures clean && (!lazy || |old(journal).Keys + {TRACKER}| > 50 * 1024) ==>
                forall i :: 0 <= i < |keys| && i < stopAt && keys[i] != TRACKER && keys[i] != deletedSig ==>
                  && AllHits(journal, files, keys[i]) ==
                     AllHits(old(journal), old(files), keys[i]) - AllHits(old(journal), old(files), deletedSig)
                  && Migrated(journal, keys[i])
      ensures NoFlush(flushes) || !CanCast(HitsOf(old(journal), old(files))) ==> clean
      ensures forall n: nat :: Covers(journal, n) <==> Covers(old(journal), n)
    {
      hide Hits, Covers, Tracks, Routed, AllHits, CanCast, HitsOf, Free;
      var max := GetMaxMsgIdxPos();
      UpdateMaxMsgMid(max);
      var deleted := AllHits(journal, files, deletedSig);
      TrackerUnseen(old(journal), journal, files, deletedSig, deleted);
      assert journal.Keys == old(journal).Keys + {TRACKER};
      if journal == map[] || (lazy && |journal| <= 50 * 1024) {
        return true;
      }
      assert AllFree(journal, files, keys[..0], deletedSig, deleted);
      hide AllFree, PurgedOnly;
      var i := 0;
      clean := true;
      while i < |keys| && i < stopAt && clean
        invariant 0 <= i <= |keys|
        invariant TRACKER in journal && Tracks(journal, max)
        invariant clean <==> Valid()
        invariant clean ==> PurgedOnly(old(journal), old(files), journal, files, deletedSig, deleted)
        invariant clean ==> AllFree(journal, files, keys[..i], deletedSig, deleted)
        invariant clean ==> i <= stopAt
        invariant NoFlush(flushes) || !CanCast(HitsOf(old(journal), old(files))) ==> clean
        invariant forall n: nat :: Covers(journal, n) ==> n <= max
      {
        ghost var before, were := journal, files;
        PurgedCasts(old(journal), old(files), journal, files, deletedSig, deleted);
        clean := OptimizeOne(keys[i], deletedSig, deleted, if i < |flushes| then flushes[i] else [], max);
        if clean {
          NextKey(old(journal), old(files), before, were, journal, files, keys, i, deletedSig, deleted);
        }
        i := i + 1;
      }
      TracksCovers(journal, max);
      if clean {
        FreeAreExact(old(journal), old(files), journal, files, keys, i, deletedSig, deleted);
      }
    }

    method OptimizeOne(sig: string, deletedSig: string, deleted: set<nat>, flush: seq<string>, ghost max: nat)
      returns (clean: bool)
      requires Valid() && IsTerm(deletedSig) && (IsTerm(sig) || sig == TRACKER)
      requires TRACKER in journal && Tracks(journal, max) && forall n: nat :: Covers(journal, n) ==> n <= max
      modifies this
      ensures TRACKER in journal && Tracks(journal, max) && forall n: nat :: Covers(journal, n) ==> n <= max
      ensures clean <==> Valid()
      ensures clean ==> PurgedOnly(old(journal), old(files), journal, files, deletedSig, deleted)
      ensures clean ==> Free(journal, files, sig, deletedSig, deleted)
      ensures clean ==> forall x :: Free(old(journal), old(files), x, deletedSig, deleted) ==>
                Free(journal, files, x, deletedSig, deleted)
      ensures flush == [] || !CanCast(HitsOf(old(journal), old(files))) ==> clean
    {
      hide Hits, Covers, Tracks, Routed, CanCast, HitsOf, Free, Route, PurgedOnly;
      var migrated := Migrate(sig);
      ghost var before := files;
      FewerCovered(old(journal), journal, max);
      if sig != TRACKER {
        PurgeDeleted(sig, deletedSig, deleted);
      }
      OneKey(old(journal), old(files), journal, before, files, sig, deletedSig, deleted);
      PurgedCasts(old(journal), old(files), journal, files, deletedSig, deleted);
      ghost var purged := files;
      clean := Flush(flush);
      if clean {
        SameHits(old(journal), old(files), journal, purged, files, deletedSig, deleted);
      }
    }
  }

  /** What every term has, in the journal and the containers. */
  ghost function HitsOf(journal: Journal, files: Files): string -> set<nat> {
    x => if x != [] then AllHits(journal, files, x) else {}
  }

  /** With at most the given hits, there could be a container that can cast a shadow, however the terms are spread
      over the files. */
  ghost predicate CanCast(most: string -> set<nat>) {
    exists files: Files, f: string :: Casts(files, f, most)
  }

  ghost predicate Casts(files: Files, f: string, most: string -> set<nat>) {
    && Routed(files) && f in files && |f| < MAX_HASH_LEN && CanShadow(Loaded(files, f), f)
    && forall x :: IsTerm(x) ==> Hits(files, x) <= most(x)
  }

  /** The fewer hits, the fewer shadows. */
  lemma CanCastMore(less: string -> set<nat>, most: string -> set<nat>)
    requires CanCast(less) && forall x :: IsTerm(x) ==> less(x) <= most(x)
    ensures CanCast(most)
  {
    hide Routed, CanShadow, Hits;
    var files, f :| Casts(files, f, less);
    assert Casts(files, f, most);
  }

  /** No save of a container casts a shadow if none could. */
  lemma NoneCast(journal: Journal, before: Files, files: Files, f: string)
    requires Routed(files) && f in files && forall x :: IsTerm(x) ==> Hits(files, x) == Hits(before, x)
    ensures !CanCast(HitsOf(journal, before)) && |f| < MAX_HASH_LEN ==> !CanShadow(Loaded(files, f), f)
  {
    hide Routed, CanShadow, Hits;
    if |f| < MAX_HASH_LEN && CanShadow(Loaded(files, f), f) {
      assert Casts(files, f, HitsOf(journal, before));
    }
  }

  lemma PurgedCasts(journal: Journal, files: Files, journal': Journal, files': Files, spared: string, deleted: set<nat>)
    requires spared != [] && PurgedOnly(journal, files, journal', files', spared, deleted)
    ensures CanCast(HitsOf(journal', files')) ==> CanCast(HitsOf(journal, files))
  {
    hide AllHits, CanCast;
    if CanCast(HitsOf(journal', files')) {
      CanCastMore(HitsOf(journal', files'), HitsOf(journal, files));
    }
  }

  /** A bound that is simple to check: no term has half of MAX_ITEMS messages, so that no container has a big one. */
  lemma LightCastsNone(most: string -> set<nat>)
    requires forall x :: IsTerm(x) ==> |most(x)| < MAX_ITEMS / 2
    ensures !CanCast(most)
  {
    hide Hits, CanShadow;
    forall files: Files, f: string
      ensures !Casts(files, f, most)
    {
      if Routed(files) && f in files && forall x :: IsTerm(x) ==> Hits(files, x) <= most(x) {
        SmallCannotShadow(files, f, most);
      }
    }
  }

  lemma SmallCannotShadow(files: Files, f: string, most: string -> set<nat>)
    requires Routed(files) && f in files && forall x :: IsTerm(x) ==> Hits(files, x) <= most(x)
    requires forall x :: IsTerm(x) ==> |most(x)| < MAX_ITEMS / 2
    ensures !CanShadow(Loaded(files, f), f)
  {
    forall w | w in Loaded(files, f)
      ensures |Loaded(files, f)[w]| < MAX_ITEMS / 2
    {
      if Loaded(files, f)[w] != {} {
        assert w in files[f] && IsTerm(w) && Route(files, w) == f;
        assert files[f][w] == Loaded(files, f)[w] == Hits(files, w);
        SubsetSize(Hits(files, w), most(w));
      }
    }
    hide Loaded, Routed, Hits;
  }

  predicate NoFlush(flushes: seq<seq<string>>) {
    forall i :: 0 <= i < |flushes| ==> flushes[i] == []
  }

  lemma {:induction false} SubsetSize(a: set<nat>, b: set<nat>)
    requires a <= b
    ensures |a| <= |b|
  {
    if a == {} {
    } else {
      var x :| x in a;
      SubsetSize(a - {x}, b - {x});
    }
  }

  /** The journal has nothing left for a term. */
  predicate Migrated(journal: Journal, w: string) {
    w in journal ==> journal[w] == {}
  }

  /** The term is rid of the deleted messages, unless it is not to be purged. */
  ghost predicate Free(journal: Journal, files: Files, x: string, spared: string, deleted: set<nat>) {
    IsTerm(x) && x != spared ==> Migrated(journal, x) && Hits(files, x) !! deleted
  }

  /** One key: its entry is migrated, and the deleted messages purged from the terms it shares a container with. */
  lemma OneKey(journal: Journal, files: Files, journal': Journal, before: Files, after: Files, sig: string,
               spared: string, deleted: set<nat>)
    requires IsTerm(spared) && (IsTerm(sig) || sig == TRACKER)
    requires forall x :: IsTerm(x) ==> AllHits(journal', before, x) == AllHits(journal, files, x)
    requires journal' == journal || journal' == journal - {sig}
    requires sig != TRACKER ==> Migrated(journal', sig)
    requires if sig == TRACKER then after == before else Purges(before, after, sig, spared, deleted)
    ensures PurgedOnly(journal, files, journal', after, spared, deleted)
    ensures Free(journal', after, sig, spared, deleted)
    ensures forall x :: Free(journal, files, x, spared, deleted) ==> Free(journal', after, x, spared, deleted)
  {
    hide Hits, Route;
    assert !IsTerm(TRACKER);
    forall x | Free(journal, files, x, spared, deleted)
      ensures Free(journal', after, x, spared, deleted)
    {
      if IsTerm(x) && x != spared {
        assert AllHits(journal, files, x) == Hits(files, x);
      }
    }
  }

  lemma SameHits(journal: Journal, files: Files, journal': Journal, purged: Files, after: Files,
                 spared: string, deleted: set<nat>)
    requires spared != [] && forall x :: IsTerm(x) ==> Hits(after, x) == Hits(purged, x)
    requires PurgedOnly(journal, files, journal', purged, spared, deleted) && IsTerm(spared)
    ensures PurgedOnly(journal, files, journal', after, spared, deleted)
    ensures forall x :: Free(journal', purged, x, spared, deleted) ==> Free(journal', after, x, spared, deleted)
  {
    hide Hits;
  }

  ghost predicate AllFree(journal: Journal, files: Files, keys: seq<string>, spared: string, deleted: set<nat>) {
    forall x :: x in keys ==> Free(journal, files, x, spared, deleted)
  }

  lemma NextKey(start: Journal, first: Files, journal: Journal, files: Files, journal': Journal, files': Files,
                keys: seq<string>, i: nat, spared: string, deleted: set<nat>)
    requires IsTerm(spared) && i < |keys|
    requires PurgedOnly(start, first, journal, files, spared, deleted)
    requires PurgedOnly(journal, files, journal', files', spared, deleted)
    requires AllFree(journal, files, keys[..i], spared, deleted)
    requires Free(journal', files', keys[i], spared, deleted)
    requires forall x :: Free(journal, files, x, spared, deleted) ==> Free(journal', files', x, spared, deleted)
    ensures PurgedOnly(start, first, journal', files', spared, deleted)
    ensures AllFree(journal', files', keys[..i + 1], spared, deleted)
  {
    hide Free, AllHits;
    assert keys[..i + 1] == keys[..i] + [keys[i]];
  }

  lemma FreeAreExact(journal: Journal, files: Files, journal': Journal, files': Files, keys: seq<string>, n: nat,
                     spared: string, deleted: set<nat>)
    requires spared != [] && n <= |keys| && forall i :: 0 <= i < |keys| ==> IsTerm(keys[i]) || keys[i] == TRACKER
    requires AllFree(journal', files', keys[..n], spared, deleted)
    requires PurgedOnly(journal, files, journal', files', spared, deleted)
    ensures forall i :: 0 <= i < n && keys[i] != TRACKER && keys[i] != spared ==>
              && AllHits(journal', files', keys[i]) == AllHits(journal, files, keys[i]) - deleted
              && Migrated(journal', keys[i])
  {
    hide AllHits, PurgedOnly, Free;
    forall i | 0 <= i < n && keys[i] != TRACKER && keys[i] != spared
      ensures AllHits(journal', files', keys[i]) == AllHits(journal, files, keys[i]) - deleted
      ensures Migrated(journal', keys[i])
    {
      assert keys[..n][i] == keys[i];
      FreeIsExact(journal, files, journal', files', keys[i], spared, deleted);
    }
  }

  lemma FreeIsExact(journal: Journal, files: Files, journal': Journal, files': Files, x: string,
                    spared: string, deleted: set<nat>)
    requires IsTerm(x) && x != spared && spared != [] && Free(journal', files', x, spared, deleted)
    requires PurgedOnly(journal, files, journal', files', spared, deleted)
    ensures AllHits(journal', files', x) == AllHits(journal, files, x) - deleted && Migrated(journal', x)
  {
    hide Hits;
  }

  /** Only the given messages are gone, and none from the spared term. */
  ghost predicate PurgedOnly(journal: Journal, files: Files, journal': Journal, files': Files,
                             spared: string, deleted: set<nat>)
    requires spared != []
  {
    && (forall x :: IsTerm(x) ==>
          AllHits(journal', files', x) <= AllHits(journal, files, x) <= AllHits(journal', files', x) + deleted)
    && AllHits(journal', files', spared) == AllHits(journal, files, spared)
  }

  lemma TrackerUnseen(journal: Journal, journal': Journal, files: Files, spared: string, deleted: set<nat>)
    requires IsTerm(spared) && forall w :: w != TRACKER ==> (w in journal' <==> w in journal)
    requires forall w :: w != TRACKER && w in journal' ==> journal'[w] == journal[w]
    ensures AllHits(journal, files, spared) == AllHits(journal', files, spared)
    ensures PurgedOnly(journal, files, journal', files, spared, deleted)
  {
    assert !IsTerm(TRACKER);
  }
}
