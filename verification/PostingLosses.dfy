/** A run of the search index that loses hits (mailpile/postinglist.py:138-220). */
module PostingLosses {
  import opened PostingRoutes
  import opened PostingSplit
  import opened PostingGreedy
  import opened PostingStore

  /** A container "a" that is not on disk before the append, or is all there is. */
  lemma AppendToA(files: Files, words: Words, w: string, ids: set<nat>)
    requires IsTerm(w) && w[..2] == "ab"
    requires if files == map[] then words == map["a" := {}] else files == map["a" := words] && "a" in words
    requires w !in words
    ensures Route(files, w) == "a" && Appended(files, w, ids) == map["a" := words[w := ids]]
  {
    assert w[..1] == w[..2][..1] == "a";
    RouteIs(files, w, "a");
    hide Route;
    assert {} + ids == ids;
  }

  method AppendOne(store: Store, w: string, ids: set<nat>, ghost words: Words)
    requires store.Valid() && store.changed <= {"a"} && IsTerm(w) && w[..2] == "ab" && ids != {} && w !in words
    requires if store.files == map[] then words == map["a" := {}] else store.files == map["a" := words] && "a" in words
    modifies store
    ensures store.Valid() && store.journal == old(store.journal)
    ensures store.files == map["a" := words[w := ids]] && store.changed == {"a"}
  {
    hide Appended, Route, Routed, Hits;
    AppendToA(store.files, words, w, ids);
    store.Append(w, ids);
  }

  /** The contents of the container after the first n appends. */
  ghost function Filled(n: nat): Words {
    var words: Words := map["a" := {}];
    if n == 0 then words
    else if n == 1 then words[Term('1') := Below(BIG)]
    else if n == 2 then words[Term('1') := Below(BIG)][Term('2') := Below(BIG)]
    else if n == 3 then words[Term('1') := Below(BIG)][Term('2') := Below(BIG)][Term('3') := Below(BIG)]
    else if n == 4 then Overfull() - {Term('5')}
    else Overfull()
  }

  lemma FilledSteps()
    ensures Filled(0) == map["a" := {}] && Term('1') !in Filled(0) && Filled(1) == Filled(0)[Term('1') := Below(BIG)]
    ensures "a" in Filled(1) && Term('2') !in Filled(1) && Filled(2) == Filled(1)[Term('2') := Below(BIG)]
    ensures "a" in Filled(2) && Term('3') !in Filled(2) && Filled(3) == Filled(2)[Term('3') := Below(BIG)]
    ensures "a" in Filled(3) && Term('4') !in Filled(3) && Filled(4) == Filled(3)[Term('4') := Below(BIG - 1)]
    ensures "a" in Filled(4) && Term('5') !in Filled(4) && Filled(5) == Filled(4)[Term('5') := Below(BIG - 1)]
  {
    OverfullIs();
    hide Term, Below;
  }

  lemma BelowIsNot(n: nat)
    requires n > 0
    ensures Below(n) != {}
  {
    assert |Below(n)| == n;
  }

  /** Five appends to a fresh index, of terms with at most half of MAX_ITEMS messages each. */
  method Fill() returns (store: Store)
    ensures fresh(store) && store.Valid() && store.journal == map[]
    ensures store.files == map["a" := Overfull()] && store.changed == {"a"}
  {
    FilledSteps();
    BelowIsNot(BIG);
    BelowIsNot(BIG - 1);
    hide Term, Below, Routed, Filled, Overfull;
    store := new Store();
    AppendOne(store, Term('1'), Below(BIG), Filled(0));
    AppendOne(store, Term('2'), Below(BIG), Filled(1));
    AppendOne(store, Term('3'), Below(BIG), Filled(2));
    AppendOne(store, Term('4'), Below(BIG - 1), Filled(3));
    AppendOne(store, Term('5'), Below(BIG - 1), Filled(4));
    assert Filled(5) == Overfull() by {
      FilledAll();
    }
  }

  lemma FilledAll()
    ensures Filled(5) == Overfull()
  {
    hide Overfull;
  }

  /** The bound on the terms is sharp: with terms of at most half of MAX_ITEMS messages, one save of a fresh index
      loses hits, whatever names it picks. */
  method LosingRun() returns (store: Store, ghost before: Files)
    ensures fresh(store) && forall x :: IsTerm(x) ==> |Hits(before, x)| <= MAX_ITEMS / 2
    ensures exists w :: IsTerm(w) && Hits(store.files, w) != Hits(before, w)
  {
    hide Hits, Routed, NoShadow, GreedyRun, CanShadow, Overfull;
    store := Fill();
    before := store.files;
    ShadowHappens();
    OverfullSizes();
    var picks := store.Save("a");
  }

  lemma OverfullSizes()
    ensures "a" in Overfull() && |Overfull()| > 1 && Loaded(map["a" := Overfull()], "a") == Overfull()
    ensures forall x :: IsTerm(x) ==> |Hits(map["a" := Overfull()], x)| <= MAX_ITEMS / 2
  {
    hide Term, Below, Route;
    OverfullIs();
  }
}
