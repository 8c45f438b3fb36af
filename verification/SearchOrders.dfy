/** Search orders that keep one result for each conversation (mailpile/search.py:2104-2125), and what the search
    history makes of them (mailpile/search_history.py:47-108). */
module SearchOrders {
  import opened Wrappers
  import opened BitMask
  import opened Packing
  import opened SearchHistory
  import Collapse

  predicate OneEach(rs: seq<nat>, thr: seq<int>)
    requires Collapse.InRange(rs, thr)
  {
    forall i, j :: 0 <= i < |rs| && 0 <= j < |rs| && thr[rs[i]] == thr[rs[j]] ==> rs[i] == rs[j]
  }

  lemma SingleIsKept(rs: seq<nat>, thr: seq<int>, allNew: set<int>, i: nat)
    requires Collapse.InRange(rs, thr) && OneEach(rs, thr) && i < |rs|
    ensures rs[i] in Collapse.Collapsed(rs, thr, allNew, |rs|)
  {
    Collapse.CollapsedOncePerThread(rs, thr, allNew);
    hide Collapse.Collapsed, Collapse.Firsts, OneEach;
    var out := Collapse.Collapsed(rs, thr, allNew, |rs|);
    var k :| 0 <= k < |out| && thr[out[k]] == thr[rs[i]];
    assert out[k] in rs;
    var j :| 0 <= j < |rs| && rs[j] == out[k];
    Same(rs, thr, i, j);
  }

  lemma Same(rs: seq<nat>, thr: seq<int>, i: nat, j: nat)
    requires Collapse.InRange(rs, thr) && OneEach(rs, thr) && i < |rs| && j < |rs| && thr[rs[i]] == thr[rs[j]]
    ensures rs[i] == rs[j]
  {
  }

  lemma SameMembers(a: seq<nat>, b: seq<nat>)
    requires forall i :: 0 <= i < |a| ==> a[i] in b
    requires forall i :: 0 <= i < |b| ==> b[i] in a
    ensures Members(a) == Members(b)
  {
  }

  /** The orders that collapse conversations keep all results if no two of them are in one conversation. */
  lemma CollapseKeepsSingles(rs: seq<nat>, thr: seq<int>, allNew: set<int>)
    requires Collapse.InRange(rs, thr) && OneEach(rs, thr)
    ensures Members(Collapse.Collapsed(rs, thr, allNew, |rs|)) == Members(rs)
  {
    hide Collapse.Collapsed, Collapse.Firsts, OneEach, Members, Collapse.InRange;
    var out := Collapse.Collapsed(rs, thr, allNew, |rs|);
    assert forall k :: 0 <= k < |out| ==> out[k] in rs by {
      Collapse.CollapsedOncePerThread(rs, thr, allNew);
    }
    forall i | 0 <= i < |rs|
      ensures rs[i] in out
    {
      SingleIsKept(rs, thr, allNew, i);
    }
    SameMembers(out, rs);
  }

  /** The order puts the results in some sequence, and keeps one of each conversation. */
  ghost predicate SortsAndCollapses(sort: Sorter, order: Bytes, thr: seq<int>, allNew: set<int>) {
    forall list: seq<nat> :: Collapse.InRange(list, thr) ==> CollapsesTo(list, sort(list, order), thr, allNew)
  }

  ghost predicate CollapsesTo(list: seq<nat>, out: seq<nat>, thr: seq<int>, allNew: set<int>) {
    exists perm: seq<nat> :: Members(perm) == Members(list) && Collapse.InRange(perm, thr)
                   && out == Collapse.Collapsed(perm, thr, allNew, |perm|)
  }

  lemma SameSingles(a: seq<nat>, b: seq<nat>, thr: seq<int>)
    requires Members(a) == Members(b) && Collapse.InRange(a, thr)
    ensures Collapse.InRange(b, thr) && (OneEach(a, thr) ==> OneEach(b, thr))
  {
    forall i | 0 <= i < |b|
      ensures exists k :: 0 <= k < |a| && a[k] == b[i]
    {
      assert b[i] in Members(b);
    }
  }

  predicate Apart(out: seq<nat>, thr: seq<int>) {
    && (forall k :: 0 <= k < |out| ==> out[k] < |thr|)
    && (forall j, k :: 0 <= j < k < |out| ==> thr[out[j]] != thr[out[k]])
  }

  lemma CollapsedApart(rs: seq<nat>, thr: seq<int>, allNew: set<int>)
    requires Collapse.InRange(rs, thr)
    ensures Apart(Collapse.Collapsed(rs, thr, allNew, |rs|), thr)
  {
    hide Collapse.Collapsed, Collapse.Firsts, Collapse.InRange;
    Collapse.CollapsedOncePerThread(rs, thr, allNew);
  }

  lemma OneOfEach(out: seq<nat>, thr: seq<int>, x: nat, y: nat)
    requires Apart(out, thr) && x in out && y in out && x < |thr| && y < |thr| && thr[x] == thr[y]
    ensures x == y
  {
  }

  /** A conversation with two results is left with one. */
  lemma PairIsLost(rs: seq<nat>, thr: seq<int>, allNew: set<int>)
    requires Collapse.InRange(rs, thr) && !OneEach(rs, thr)
    ensures Members(Collapse.Collapsed(rs, thr, allNew, |rs|)) != Members(rs)
  {
    var i, j :| 0 <= i < |rs| && 0 <= j < |rs| && thr[rs[i]] == thr[rs[j]] && rs[i] != rs[j];
    var x, y := rs[i], rs[j];
    assert x in Members(rs) && y in Members(rs);
    hide Collapse.Collapsed, OneEach, Apart;
    CollapsedApart(rs, thr, allNew);
    var out := Collapse.Collapsed(rs, thr, allNew, |rs|);
    if x in out && y in out {
      OneOfEach(out, thr, x, y);
    }
  }

  /** An order that collapses conversations keeps a search, as the theorem above asks, if and only if no two of
      its results are in one conversation. */
  lemma CollapsingSortKeepsExactly(sort: Sorter, order: Bytes, thr: seq<int>, allNew: set<int>, rs: seq<nat>)
    requires SortsAndCollapses(sort, order, thr, allNew) && Collapse.InRange(rs, thr)
    ensures SortKeeps(sort, Members(rs), order) <==> OneEach(rs, thr)
  {
    hide OneEach, Collapse.Collapsed, Members, Collapse.InRange;
    forall list: seq<nat> | Members(list) == Members(rs)
      ensures Collapse.InRange(list, thr) && (Members(sort(list, order)) == Members(rs) <==> OneEach(rs, thr))
    {
      SameSingles(rs, list, thr);
      assert CollapsesTo(list, sort(list, order), thr, allNew);
      var perm: seq<nat> :| Members(perm) == Members(list) && Collapse.InRange(perm, thr)
                  && sort(list, order) == Collapse.Collapsed(perm, thr, allNew, |perm|);
      SameSingles(rs, perm, thr);
      SameSingles(perm, rs, thr);
      if OneEach(perm, thr) {
        CollapseKeepsSingles(perm, thr, allNew);
      } else {
        PairIsLost(perm, thr, allNew);
      }
    }
    assert Members(rs) == Members(rs);
  }
}
