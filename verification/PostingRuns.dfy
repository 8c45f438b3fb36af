/** The search index over whole runs (mailpile/postinglist.py:84-331, 541-709). */
module PostingRuns {
  import opened PostingRoutes
  import opened PostingSplit
  import opened PostingGreedy
  import opened PostingStore

  datatype Op =
    | Note(w: string, ids: set<nat>)     // to the journal
    | Append(w: string, ids: set<nat>)   // straight to a container
    | Track(pos: nat)
    | Save(f: string)
    | Purge(w: string, spared: string, deleted: set<nat>)
    | Optimize(keys: seq<string>, stopAt: nat, deletedSig: string, lazy: bool, flushes: seq<seq<string>>)

  predicate OpOk(op: Op) {
    match op
    case Note(w, _) => IsTerm(w)
    case Append(w, _) => IsTerm(w)
    case Purge(w, spared, _) => IsTerm(w) && IsTerm(spared)
    case Optimize(keys, _, sig, _, _) =>
      IsTerm(sig) && forall i :: 0 <= i < |keys| ==> IsTerm(keys[i]) || keys[i] == TRACKER
    case _ => true
  }

  /** What comes in for a term. */
  function Grown(op: Op, x: string, hits: set<nat>): set<nat> {
    if (op.Note? || op.Append?) && op.w == x then hits + op.ids else hits
  }

  /** The call works through the key of the term. */
  predicate Optimizes(op: Op, x: string) {
    op.Optimize? && !op.lazy && x != op.deletedSig && exists i :: 0 <= i < |op.keys| && i < op.stopAt && op.keys[i] == x
  }

  /** At most these hits does a term have after an operation, if it had at most the given ones; `gone` is what counts
      as deleted for sure. A purge alone does not reach the journal, so that it is not sure to remove anything. */
  function Dropped(op: Op, x: string, hits: set<nat>, gone: set<nat>): set<nat> {
    if Optimizes(op, x) then hits - gone else Grown(op, x, hits)
  }

  /** At least these, if it had at least the given ones; `gone` is what may count as deleted. */
  function Spared(op: Op, x: string, hits: set<nat>, gone: set<nat>): set<nat> {
    match op
    case Purge(_, spared, deleted) => if x == spared then hits else hits - deleted
    case Optimize(_, _, sig, _, _) => if x == sig then hits else hits - gone
    case _ => Grown(op, x, hits)
  }

  /** The most and the least that a term can have after a run, from what all terms had at first. */
  ghost function Most(start: string -> set<nat>, ops: seq<Op>, x: string): set<nat> {
    if ops == [] then start(x)
    else
      var init, op := ops[..|ops| - 1], ops[|ops| - 1];
      Dropped(op, x, Most(start, init, x), if op.Optimize? then Least(start, init, op.deletedSig) else {})
  }

  ghost function Least(start: string -> set<nat>, ops: seq<Op>, x: string): set<nat> {
    if ops == [] then start(x)
    else
      var init, op := ops[..|ops| - 1], ops[|ops| - 1];
      Spared(op, x, Least(start, init, x), if op.Optimize? then Most(start, init, op.deletedSig) else {})
  }

  /** What one operation does to the hits of all terms. */
  ghost predicate OpDone(op: Op, before: string -> set<nat>, after: string -> set<nat>) {
    forall x :: IsTerm(x) ==>
      && Spared(op, x, before(x), if op.Optimize? then before(op.deletedSig) else {}) <= after(x)
      && after(x) <= Dropped(op, x, before(x), if op.Optimize? then before(op.deletedSig) else {})
  }

  ghost predicate InBounds(start: string -> set<nat>, ops: seq<Op>, now: string -> set<nat>) {
    forall x :: IsTerm(x) ==> Least(start, ops, x) <= now(x) <= Most(start, ops, x)
  }

  lemma BoundsStep(start: string -> set<nat>, ops: seq<Op>, op: Op, before: string -> set<nat>,
                   after: string -> set<nat>)
    requires OpOk(op) && InBounds(start, ops, before) && OpDone(op, before, after)
    ensures InBounds(start, ops + [op], after)
  {
    assert (ops + [op])[..|ops|] == ops;
    hide Optimizes;
    forall x | IsTerm(x)
      ensures Least(start, ops + [op], x) <= after(x) <= Most(start, ops + [op], x)
    {
      assert Least(start, ops, x) <= before(x) <= Most(start, ops, x);
      if op.Optimize? {
        assert Least(start, ops, op.deletedSig) <= before(op.deletedSig) <= Most(start, ops, op.deletedSig);
      }
    }
  }

  /** A message that counts as deleted is gone once the term is optimized, and as long as it does not come in again. */
  lemma {:induction false} DeletedIsGone(start: string -> set<nat>, ops: seq<Op>, i: nat, x: string, id: nat)
    requires i < |ops| && Optimizes(ops[i], x) && id in Least(start, ops[..i], ops[i].deletedSig)
    requires forall j :: i < j < |ops| ==> id !in Grown(ops[j], x, {})
    ensures id !in Most(start, ops, x)
  {
    if i == |ops| - 1 {
    } else {
      var init := ops[..|ops| - 1];
      assert init[..i] == ops[..i];
      DeletedIsGone(start, init, i, x, id);
    }
  }

  predicate NoPurges(ops: seq<Op>) {
    forall i :: 0 <= i < |ops| ==> !ops[i].Purge? && !ops[i].Optimize?
  }

  /** Without purges the two bounds are one, so that the index is a plain map from terms to messages. */
  lemma {:induction false} PlainMap(start: string -> set<nat>, ops: seq<Op>, x: string)
    requires NoPurges(ops)
    ensures Least(start, ops, x) == Most(start, ops, x)
  {
    if ops == [] {
    } else {
      PlainMap(start, ops[..|ops| - 1], x);
    }
  }

  /** A message that was there or came in is there as long as it does not count as deleted. */
  lemma {:induction false} NothingElseIsLost(start: string -> set<nat>, ops: seq<Op>, x: string, id: nat)
    requires id in Most(start, ops, x)
    requires forall i :: 0 <= i < |ops| && ops[i].Purge? ==> id !in ops[i].deleted
    requires forall i :: 0 <= i < |ops| && ops[i].Optimize? ==> id !in Most(start, ops[..i], ops[i].deletedSig)
    ensures id in Least(start, ops, x)
  {
    if ops == [] {
    } else {
      var n := |ops| - 1;
      forall i | 0 <= i < n && ops[..n][i].Optimize?
        ensures id !in Most(start, ops[..n][..i], ops[..n][i].deletedSig)
      {
        assert ops[..n][..i] == ops[..i];
      }
      if id in Most(start, ops[..n], x) {
        NothingElseIsLost(start, ops[..n], x, id);
      }
    }
  }

  lemma NoteDone(journal: Journal, journal': Journal, files: Files, w: string, ids: set<nat>)
    requires IsTerm(w) && journal' == journal[w := (if w in journal then journal[w] else {}) + ids]
    ensures OpDone(Note(w, ids), HitsOf(journal, files), HitsOf(journal', files))
  {
    hide Hits;
  }

  lemma AppendDone(journal: Journal, files: Files, files': Files, w: string, ids: set<nat>)
    requires IsTerm(w)
    requires forall x :: IsTerm(x) ==> Hits(files', x) == if x == w then Hits(files, w) + ids else Hits(files, x)
    ensures OpDone(Append(w, ids), HitsOf(journal, files), HitsOf(journal, files'))
  {
    hide Hits;
  }

  /** Neither tracking nor saving changes the hits of a term. */
  lemma NothingDone(op: Op, journal: Journal, journal': Journal, files: Files, files': Files)
    requires op.Track? || op.Save?
    requires forall w :: w != TRACKER ==> (w in journal' <==> w in journal)
    requires forall w :: w != TRACKER && w in journal' ==> journal'[w] == journal[w]
    requires forall x :: IsTerm(x) ==> Hits(files', x) == Hits(files, x)
    ensures OpDone(op, HitsOf(journal, files), HitsOf(journal', files'))
  {
    hide Hits;
    assert !IsTerm(TRACKER);
  }

  lemma PurgeDone(journal: Journal, files: Files, files': Files, w: string, spared: string, deleted: set<nat>)
    requires w != [] && Purges(files, files', w, spared, deleted)
    ensures OpDone(Purge(w, spared, deleted), HitsOf(journal, files), HitsOf(journal, files'))
  {
    hide Hits, Route;
  }

  lemma OptimizeDone(op: Op, journal: Journal, journal': Journal, files: Files, files': Files)
    requires op.Optimize? && IsTerm(op.deletedSig)
    requires PurgedOnly(journal, files, journal', files', op.deletedSig, AllHits(journal, files, op.deletedSig))
    requires forall i :: 0 <= i < |op.keys| ==> IsTerm(op.keys[i]) || op.keys[i] == TRACKER
    requires !op.lazy ==>
               forall i :: 0 <= i < |op.keys| && i < op.stopAt && IsTerm(op.keys[i]) && op.keys[i] != op.deletedSig ==>
                 AllHits(journal', files', op.keys[i]) ==
                 AllHits(journal, files, op.keys[i]) - AllHits(journal, files, op.deletedSig)
    ensures OpDone(op, HitsOf(journal, files), HitsOf(journal', files'))
  {
    hide AllHits;
  }

  // --- When no save casts a shadow -------------------------------------------

  /** An operation that saves nothing. */
  predicate NoSave(op: Op) {
    !op.Save? && (op.Optimize? ==> NoFlush(op.flushes))
  }

  predicate NoSaves(ops: seq<Op>) {
    forall i :: 0 <= i < |ops| ==> NoSave(ops[i])
  }

  /** Everything a term has had over the whole run. */
  ghost function Ever(start: string -> set<nat>, ops: seq<Op>, x: string): set<nat> {
    if ops == [] then start(x) else Grown(ops[|ops| - 1], x, Ever(start, ops[..|ops| - 1], x))
  }

  lemma {:induction false} MostIsInEver(start: string -> set<nat>, ops: seq<Op>, n: nat, x: string)
    requires n <= |ops|
    ensures Most(start, ops[..n], x) <= Ever(start, ops, x)
    decreases |ops|, n
  {
    if |ops| == 0 {
      assert ops[..n] == [];
    } else {
      var init := ops[..|ops| - 1];
      if n == |ops| {
        assert ops[..n] == ops && init[..n - 1] == init;
        MostIsInEver(start, init, n - 1, x);
      } else {
        assert init[..n] == ops[..n];
        MostIsInEver(start, init, n, x);
      }
    }
  }

  ghost function EverOf(start: string -> set<nat>, ops: seq<Op>): string -> set<nat> {
    x => Ever(start, ops, x)
  }

  /** If no container could cast a shadow with all that has been there over the run, none could at any time of it. */
  lemma NoneCastAt(start: string -> set<nat>, ops: seq<Op>, n: nat, now: string -> set<nat>)
    requires n <= |ops| && InBounds(start, ops[..n], now)
    ensures CanCast(now) ==> CanCast(EverOf(start, ops))
  {
    hide Most, Least, Ever, CanCast;
    if CanCast(now) {
      forall x | IsTerm(x)
        ensures now(x) <= EverOf(start, ops)(x)
      {
        MostIsInEver(start, ops, n, x);
      }
      CanCastMore(now, EverOf(start, ops));
    }
  }

  // --- The largest known message ---------------------------------------------

  /** The operation makes a message of at least this number known. */
  ghost predicate Tells(op: Op, n: nat) {
    (op.Note? && exists id :: id in op.ids && id >= n) || (op.Track? && n <= op.pos)
  }

  ghost predicate Told(ops: seq<Op>, n: nat) {
    exists i :: 0 <= i < |ops| && Tells(ops[i], n)
  }

  lemma ToldMore(ops: seq<Op>, op: Op, n: nat)
    ensures Told(ops + [op], n) <==> Told(ops, n) || Tells(op, n)
  {
    hide Tells;
    var more := ops + [op];
    assert more[|ops|] == op;
    if Told(ops, n) {
      var i :| 0 <= i < |ops| && Tells(ops[i], n);
      assert more[i] == ops[i];
    }
  }

  /** What the journal covers after a run. */
  ghost predicate CoversTold(before: Journal, ops: seq<Op>, after: Journal) {
    forall n: nat :: Covers(after, n) <==> Covers(before, n) || Told(ops, n)
  }

  lemma CoversToldMore(before: Journal, ops: seq<Op>, now: Journal, op: Op, after: Journal)
    requires CoversTold(before, ops, now)
    requires forall n: nat :: Covers(after, n) <==> Covers(now, n) || Tells(op, n)
    ensures CoversTold(before, ops + [op], after)
  {
    hide Covers, Told, Tells;
    forall n: nat
      ensures Covers(after, n) <==> Covers(before, n) || Told(ops + [op], n)
    {
      ToldMore(ops, op, n);
    }
  }

  // --- The runs --------------------------------------------------------------

  method DoOp(store: Store, op: Op) returns (clean: bool)
    requires store.Valid() && OpOk(op)
    modifies store
    ensures clean <==> store.Valid()
    ensures clean ==> OpDone(op, HitsOf(old(store.journal), old(store.files)), HitsOf(store.journal, store.files))
    ensures op.Save? ==> (clean <==> forall w :: IsTerm(w) ==> Hits(store.files, w) == Hits(old(store.files), w))
    ensures NoSave(op) || !CanCast(HitsOf(old(store.journal), old(store.files))) ==> clean
    ensures forall n: nat :: Covers(store.journal, n) <==> Covers(old(store.journal), n) || Tells(op, n)
  {
    hide OpDone, HitsOf, Hits, AllHits, Covers, Routed, NoShadow, GreedyRun, CanShadow, PurgedOnly, Tracks, CanCast;
    ghost var journal, files := store.journal, store.files;
    clean := true;
    match op {
      case Note(w, ids) =>
        store.AppendToJournal(w, ids);
        NoteDone(journal, store.journal, files, w, ids);
      case Append(w, ids) =>
        store.Append(w, ids);
        AppendDone(journal, files, store.files, w, ids);
      case Track(pos) =>
        store.UpdateMaxMsgMid(pos);
        NothingDone(op, journal, store.journal, files, files);
      case Save(f) =>
        clean := store.Flush([f]);
        if clean {
          NothingDone(op, journal, journal, files, store.files);
        }
      case Purge(w, spared, deleted) =>
        store.PurgeDeleted(w, spared, deleted);
        PurgeDone(journal, files, store.files, w, spared, deleted);
      case Optimize(keys, stopAt, sig, lazy, flushes) =>
        clean := store.Optimize(keys, stopAt, sig, lazy, flushes);
        if clean {
          OptimizeDone(op, journal, store.journal, files, store.files);
        }
    }
  }

  /** Over every run of appends, saves, purges and optimizations, up to the first save that casts a shadow: every term
      has at least what it must have and at most what it can have, and the journal covers exactly what it did and
      what came in. No save casts a shadow if there is none, or if with what is there and comes in no container could,
      however the terms are spread over the files. */
  method RunOps(store: Store, ops: seq<Op>) returns (clean: bool)
    requires store.Valid() && forall i :: 0 <= i < |ops| ==> OpOk(ops[i])
    modifies store
    ensures clean <==> store.Valid()
    ensures clean ==> InBounds(HitsOf(old(store.journal), old(store.files)), ops, HitsOf(store.journal, store.files))
    ensures clean ==> CoversTold(old(store.journal), ops, store.journal)
    ensures NoSaves(ops) || !CanCast(EverOf(HitsOf(old(store.journal), old(store.files)), ops)) ==> clean
    ensures forall n: nat :: Covers(old(store.journal), n) ==> Covers(store.journal, n)
  {
    hide OpDone, InBounds, HitsOf, EverOf, Covers, CanCast, Tells, CoversTold;
    ghost var start, journal := HitsOf(store.journal, store.files), store.journal;
    StartInBounds(start, journal);
    for i := 0 to |ops|
      invariant store.Valid() && InBounds(start, ops[..i], HitsOf(store.journal, store.files))
      invariant CoversTold(journal, ops[..i], store.journal)
      invariant forall n: nat :: Covers(journal, n) ==> Covers(store.journal, n)
    {
      ghost var before, now := HitsOf(store.journal, store.files), store.journal;
      NoneCastAt(start, ops, i, before);
      clean := DoOp(store, ops[i]);
      if !clean {
        return;
      }
      BoundsStep(start, ops[..i], ops[i], before, HitsOf(store.journal, store.files));
      CoversToldMore(journal, ops[..i], now, ops[i], store.journal);
      assert ops[..i + 1] == ops[..i] + [ops[i]];
    }
    assert ops[..|ops|] == ops;
    return true;
  }

  lemma StartInBounds(start: string -> set<nat>, journal: Journal)
    ensures InBounds(start, [], start) && CoversTold(journal, [], journal)
  {
  }

  /** In particular if no term ever has half of MAX_ITEMS messages. */
  lemma LightRunIsClean(start: string -> set<nat>, ops: seq<Op>)
    requires forall x :: IsTerm(x) ==> |Ever(start, ops, x)| < MAX_ITEMS / 2
    ensures !CanCast(EverOf(start, ops))
  {
    hide CanCast, Ever;
    LightCastsNone(EverOf(start, ops));
  }
}
