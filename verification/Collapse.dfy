/** Keeping one search hit per conversation (mailpile/search.py:2104-2125). The loop overwrites the
    list that it is reading. */
module Collapse {

  predicate InRange(rs: seq<nat>, thr: seq<int>) {
    forall i :: 0 <= i < |rs| ==> rs[i] < |thr|
  }

  /** The i-th hit is the first of its conversation. */
  predicate IsNew(rs: seq<nat>, thr: seq<int>, i: nat)
    requires InRange(rs, thr) && i < |rs|
  {
    forall j :: 0 <= j < i ==> thr[rs[j]] != thr[rs[i]]
  }

  /** The positions, among the first n hits, where a conversation first appears. */
  function Firsts(rs: seq<nat>, thr: seq<int>, n: nat): (f: seq<nat>)
    requires InRange(rs, thr) && n <= |rs|
    ensures forall k :: 0 <= k < |f| ==> f[k] < n
  {
    if n == 0 then []
    else if IsNew(rs, thr, n - 1) then Firsts(rs, thr, n - 1) + [n - 1]
    else Firsts(rs, thr, n - 1)
  }

  /** The last of the first n hits that belongs to the conversation of hit i. */
  function LastPos(rs: seq<nat>, thr: seq<int>, n: nat, i: nat): (p: nat)
    requires InRange(rs, thr) && i < n <= |rs|
    ensures i <= p < n && thr[rs[p]] == thr[rs[i]]
    ensures forall j :: p < j < n ==> thr[rs[j]] != thr[rs[i]]
  {
    if thr[rs[n - 1]] == thr[rs[i]] then n - 1 else LastPos(rs, thr, n - 1, i)
  }

  /** The hit that stands for the conversation that first appears at i: that hit, or the last one of
      the conversation if its ID is in `allNew`. */
  function Pick(rs: seq<nat>, thr: seq<int>, allNew: set<int>, n: nat, i: nat): nat
    requires InRange(rs, thr) && i < n <= |rs|
  {
    if thr[rs[i]] in allNew then rs[LastPos(rs, thr, n, i)] else rs[i]
  }

  /** One hit for each conversation of the first n hits. */
  function Collapsed(rs: seq<nat>, thr: seq<int>, allNew: set<int>, n: nat): (out: seq<nat>)
    requires InRange(rs, thr) && n <= |rs|
  {
    var f := Firsts(rs, thr, n);
    seq(|f|, k requires 0 <= k < |f| => Pick(rs, thr, allNew, n, f[k]))
  }

  /** Earlier slots hold earlier positions, of other conversations. */
  lemma {:induction false} FirstsApart(rs: seq<nat>, thr: seq<int>, n: nat, j: nat, k: nat)
    requires InRange(rs, thr) && n <= |rs| && j < k < |Firsts(rs, thr, n)|
    ensures var f := Firsts(rs, thr, n); f[j] < f[k] && thr[rs[f[j]]] != thr[rs[f[k]]]
  {
    if !IsNew(rs, thr, n - 1) || k < |Firsts(rs, thr, n)| - 1 {
      FirstsApart(rs, thr, n - 1, j, k);
    }
  }

  /** The slot of each conversation among the first n hits: the code's `seen`. */
  function Seen(rs: seq<nat>, thr: seq<int>, n: nat): map<int, nat>
    requires InRange(rs, thr) && n <= |rs|
  {
    if n == 0 then map[]
    else if IsNew(rs, thr, n - 1) then Seen(rs, thr, n - 1)[thr[rs[n - 1]] := |Firsts(rs, thr, n - 1)|]
    else Seen(rs, thr, n - 1)
  }

  lemma {:induction false} SeenSlot(rs: seq<nat>, thr: seq<int>, n: nat, t: int)
    requires InRange(rs, thr) && n <= |rs| && t in Seen(rs, thr, n)
    ensures var k := Seen(rs, thr, n)[t];
            var f := Firsts(rs, thr, n);
            k < |f| && thr[rs[f[k]]] == t
  {
    if !IsNew(rs, thr, n - 1) || t != thr[rs[n - 1]] {
      SeenSlot(rs, thr, n - 1, t);
    }
  }

  lemma {:induction false} SeenComplete(rs: seq<nat>, thr: seq<int>, n: nat, i: nat)
    requires InRange(rs, thr) && i < n <= |rs|
    ensures thr[rs[i]] in Seen(rs, thr, n)
  {
    if i < n - 1 {
      SeenComplete(rs, thr, n - 1, i);
    } else if !IsNew(rs, thr, i) {
      var j :| 0 <= j < i && thr[rs[j]] == thr[rs[i]];
      SeenComplete(rs, thr, n - 1, j);
    }
  }

  /** The test of the loop decides whether the next hit opens a conversation. */
  lemma SeenTest(rs: seq<nat>, thr: seq<int>, n: nat)
    requires InRange(rs, thr) && n < |rs|
    ensures thr[rs[n]] in Seen(rs, thr, n) <==> !IsNew(rs, thr, n)
  {
    if thr[rs[n]] in Seen(rs, thr, n) {
      SeenSlot(rs, thr, n, thr[rs[n]]);
    } else if !IsNew(rs, thr, n) {
      var j :| 0 <= j < n && thr[rs[j]] == thr[rs[n]];
      SeenComplete(rs, thr, n, j);
    }
  }

  /** A collapsed list has exactly one hit for each conversation of the input, itself a hit of that
      conversation, and conversations come in the order in which they first appear. */
  lemma CollapsedOncePerThread(rs: seq<nat>, thr: seq<int>, allNew: set<int>)
    requires InRange(rs, thr)
    ensures var out := Collapsed(rs, thr, allNew, |rs|);
            var f := Firsts(rs, thr, |rs|);
            && |out| == |f|
            && (forall k :: 0 <= k < |out| ==> out[k] in rs && out[k] < |thr| && thr[out[k]] == thr[rs[f[k]]])
            && (forall j, k :: 0 <= j < k < |out| ==> thr[out[j]] != thr[out[k]])
            && (forall i :: 0 <= i < |rs| ==> exists k :: 0 <= k < |out| && thr[out[k]] == thr[rs[i]])
  {
    var out, f := Collapsed(rs, thr, allNew, |rs|), Firsts(rs, thr, |rs|);
    forall j, k | 0 <= j < k < |out|
      ensures thr[out[j]] != thr[out[k]]
    {
      FirstsApart(rs, thr, |rs|, j, k);
    }
    forall i | 0 <= i < |rs|
      ensures exists k :: 0 <= k < |out| && thr[out[k]] == thr[rs[i]]
    {
      SeenComplete(rs, thr, |rs|, i);
      SeenSlot(rs, thr, |rs|, thr[rs[i]]);
      var k := Seen(rs, thr, |rs|)[thr[rs[i]]];
      assert thr[out[k]] == thr[rs[i]];
    }
  }

  /** Which hits stay, and in what order: the last hit of each conversation in `allNew` and the first of each other,
      and one conversation comes before another if it appears first. */
  lemma CollapsedMeans(rs: seq<nat>, thr: seq<int>, allNew: set<int>, j: nat, k: nat)
    requires InRange(rs, thr) && j < k < |Collapsed(rs, thr, allNew, |rs|)|
    ensures var out := Collapsed(rs, thr, allNew, |rs|);
            && Stays(rs, thr, allNew, out[j]) && Stays(rs, thr, allNew, out[k])
            && forall b :: 0 <= b < |rs| && thr[rs[b]] == thr[out[k]] ==>
                 exists a :: 0 <= a < b && thr[rs[a]] == thr[out[j]]
  {
    var out, f := Collapsed(rs, thr, allNew, |rs|), Firsts(rs, thr, |rs|);
    PickStays(rs, thr, allNew, j);
    PickStays(rs, thr, allNew, k);
    FirstsApart(rs, thr, |rs|, j, k);
    FirstsAreNew(rs, thr, |rs|, k);
    forall b | 0 <= b < |rs| && thr[rs[b]] == thr[out[k]]
      ensures exists a :: 0 <= a < b && thr[rs[a]] == thr[out[j]]
    {
      assert f[k] <= b;
      assert thr[rs[f[j]]] == thr[out[j]];
    }
  }

  ghost predicate Stays(rs: seq<nat>, thr: seq<int>, allNew: set<int>, x: nat)
    requires InRange(rs, thr)
  {
    exists p :: 0 <= p < |rs| && rs[p] == x &&
                if thr[x] in allNew then forall i :: p < i < |rs| ==> thr[rs[i]] != thr[x]
                else forall i :: 0 <= i < p ==> thr[rs[i]] != thr[x]
  }

  lemma PickStays(rs: seq<nat>, thr: seq<int>, allNew: set<int>, k: nat)
    requires InRange(rs, thr) && k < |Collapsed(rs, thr, allNew, |rs|)|
    ensures Stays(rs, thr, allNew, Collapsed(rs, thr, allNew, |rs|)[k])
  {
    var i := Firsts(rs, thr, |rs|)[k];
    FirstsAreNew(rs, thr, |rs|, k);
    if thr[rs[i]] in allNew {
      var p := LastPos(rs, thr, |rs|, i);
      assert rs[p] == Collapsed(rs, thr, allNew, |rs|)[k];
    } else {
      assert rs[i] == Collapsed(rs, thr, allNew, |rs|)[k];
    }
  }

  lemma {:induction false} FirstsAreNew(rs: seq<nat>, thr: seq<int>, n: nat, k: nat)
    requires InRange(rs, thr) && n <= |rs| && k < |Firsts(rs, thr, n)|
    ensures forall j :: 0 <= j < Firsts(rs, thr, n)[k] ==> thr[rs[j]] != thr[rs[Firsts(rs, thr, n)[k]]]
  {
    if !IsNew(rs, thr, n - 1) || k < |Firsts(rs, thr, n)| - 1 {
      FirstsAreNew(rs, thr, n - 1, k);
    }
  }

  /** A hit of a conversation already seen replaces the hit in its slot, if the conversation is in
      `allNew`; other slots stay. */
  lemma PickStep(rs: seq<nat>, thr: seq<int>, allNew: set<int>, n: nat, k: nat)
    requires InRange(rs, thr) && n < |rs| && k < |Firsts(rs, thr, n)|
    ensures var i := Firsts(rs, thr, n)[k];
            Pick(rs, thr, allNew, n + 1, i) ==
            if thr[rs[i]] == thr[rs[n]] && thr[rs[n]] in allNew then rs[n] else Pick(rs, thr, allNew, n, i)
  {
  }

  lemma CollapseNew(rs: seq<nat>, thr: seq<int>, allNew: set<int>, n: nat)
    requires InRange(rs, thr) && n < |rs| && IsNew(rs, thr, n)
    ensures Collapsed(rs, thr, allNew, n + 1) == Collapsed(rs, thr, allNew, n) + [rs[n]]
  {
    forall k | 0 <= k < |Firsts(rs, thr, n)|
      ensures Collapsed(rs, thr, allNew, n + 1)[k] == Collapsed(rs, thr, allNew, n)[k]
    {
      PickStep(rs, thr, allNew, n, k);
    }
  }

  lemma CollapseOld(rs: seq<nat>, thr: seq<int>, allNew: set<int>, n: nat)
    requires InRange(rs, thr) && n < |rs| && !IsNew(rs, thr, n)
    ensures thr[rs[n]] in Seen(rs, thr, n)
    ensures var at := Seen(rs, thr, n)[thr[rs[n]]];
            && at < |Collapsed(rs, thr, allNew, n)|
            && Collapsed(rs, thr, allNew, n + 1) ==
               if thr[rs[n]] in allNew then Collapsed(rs, thr, allNew, n)[at := rs[n]]
               else Collapsed(rs, thr, allNew, n)
  {
    SeenTest(rs, thr, n);
    var t := thr[rs[n]];
    SeenSlot(rs, thr, n, t);
    var at := Seen(rs, thr, n)[t];
    forall k | 0 <= k < |Firsts(rs, thr, n)|
      ensures Collapsed(rs, thr, allNew, n + 1)[k] ==
              if k == at && t in allNew then rs[n] else Collapsed(rs, thr, allNew, n)[k]
    {
      PickStep(rs, thr, allNew, n, k);
      if k < at {
        FirstsApart(rs, thr, n, k, at);
      } else if k > at {
        FirstsApart(rs, thr, n, at, k);
      }
    }
  }

  /** One round of the loop. */
  lemma RoundIs(rs: seq<nat>, thr: seq<int>, allNew: set<int>, i: nat)
    requires InRange(rs, thr) && i < |rs|
    ensures rs[i] < |thr|
    ensures var t, seen := thr[rs[i]], Seen(rs, thr, i);
            var now, next := Collapsed(rs, thr, allNew, i), Collapsed(rs, thr, allNew, i + 1);
            if t in seen then
              && seen[t] < |now| && next == (if t in allNew then now[seen[t] := rs[i]] else now)
              && Seen(rs, thr, i + 1) == seen
            else next == now + [rs[i]] && Seen(rs, thr, i + 1) == seen[t := |now|]
  {
    SeenTest(rs, thr, i);
    if thr[rs[i]] in Seen(rs, thr, i) {
      CollapseOld(rs, thr, allNew, i);
    } else {
      CollapseNew(rs, thr, allNew, i);
    }
  }

  /** The loop. The first `n` slots of the array hold the answer; the code then cuts the list there. */
  method CollapseInPlace(results: array<nat>, thr: seq<int>, allNew: set<int>) returns (n: nat)
    requires InRange(results[..], thr)
    modifies results
    ensures n <= results.Length
    ensures results[..n] == Collapsed(old(results[..]), thr, allNew, |old(results[..])|)
  {
    hide Collapsed, Seen, InRange;
    var seen: map<int, nat> := map[];
    n := 0;
    ghost var rs := results[..];
    NothingSeen(rs, thr, allNew);
    var i := 0;
    while i < results.Length
      invariant 0 <= n <= i <= results.Length
      invariant forall k :: i <= k < results.Length ==> results[k] == rs[k]
      invariant results[..n] == Collapsed(rs, thr, allNew, i)
      invariant seen == Seen(rs, thr, i)
    {
      var ri := results[i];
      RoundIs(rs, thr, allNew, i);
      var ti := thr[ri];
      ghost var before := results[..n];
      if ti in seen {
        if ti in allNew {
          results[seen[ti]] := ri;
          assert results[..n] == before[seen[ti] := ri];
        }
      } else {
        results[n] := ri;
        assert results[..n + 1] == before + [ri];
        seen := seen[ti := n];
        n := n + 1;
      }
      i := i + 1;
    }
  }

  lemma NothingSeen(rs: seq<nat>, thr: seq<int>, allNew: set<int>)
    requires InRange(rs, thr)
    ensures Collapsed(rs, thr, allNew, 0) == [] && Seen(rs, thr, 0) == map[]
  {
  }
}
