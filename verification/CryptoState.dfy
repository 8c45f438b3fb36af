/** Crypto contexts: they bubble up to the parts that contain them, and mix there
    (mailpile/crypto/state.py:24-117). */
module CryptoState {
  import opened Wrappers
  import opened StatusMix

  class CryptoInfo {
    const statuses: seq<string>
    var parent: CryptoInfo?
    var bubbly: bool
    var bubbles: seq<CryptoInfo>
    var own: Option<string>
    var status: string
    var details: nat

    ghost predicate Ok()
      reads this
    {
      Ranked(statuses) && status in statuses && PartStatus() in statuses
    }

    /** A context that starts from the defaults. */
    constructor (st: seq<string>, isBubbly: bool)
      requires Ranked(st)
      ensures Ok() && statuses == st && bubbles == [] && parent == null && status == "none" && own == None
      ensures bubbly == isBubbly
    {
      statuses, parent, bubbly, bubbles, own, status, details := st, null, isBubbly, [], None, "none", 0;
    }

    /** The status that was found here, whatever was mixed in since. */
    function PartStatus(): string
      reads this
    {
      if own.Some? then own.value else "none"
    }

    /** Setting the visible status also notes a first one. */
    method SetItemStatus(value: string)
      requires Ok() && value in statuses
      modifies this`status, this`own
      ensures Ok() && status == value && own == if old(own).None? then Some(value) else old(own)
    {
      if own.None? {
        own := Some(value);
      }
      status := value;
    }

    /** The more exciting status takes over, with all that is said about it. */
    method MixIn(ci: CryptoInfo)
      requires Ok() && own.Some? && ci != this && ci.statuses == statuses && ci.PartStatus() in statuses
      modifies this`status, this`details
      ensures Ok() && Rank(statuses, status)
                   == Mix(Rank(statuses, old(status)), Rank(statuses, ci.PartStatus()), bubbly)
      ensures details == if Rank(statuses, old(status)) <= Rank(statuses, ci.PartStatus()) then ci.details
                         else old(details)
    {
      hide Rank, Ranked;
      var part := ci.PartStatus();
      RankParity(statuses, part);
      RankParity(statuses, status);
      NoneIsLowest(statuses);
      if Rank(statuses, status) <= Rank(statuses, part) {
        if bubbly && status != part && !IsMixed(part) {
          status := MIXED + part;
        } else {
          status := part;
        }
        details := ci.details;
      } else if !IsMixed(status) {
        status := MIXED + status;
      }
    }

    /** The visible status starts from what was found here, and all bubbly bubbles are mixed in. */
    method MixBubbles()
      requires Ok() && this !in bubbles
      requires forall b :: b in bubbles ==> b.statuses == statuses && b.PartStatus() in statuses
      modifies this`status, this`details, this`own
      ensures Ok() && PartStatus() == old(PartStatus())
      ensures Rank(statuses, status) == MixAll(Rank(statuses, PartStatus()), BubblyRanks(statuses, bubbles), bubbly)
    {
      hide Rank, Ranked, Mix, MixAll, BubblyRanks;
      RanksNone(statuses, Rank(statuses, PartStatus()), bubbly);
      SetItemStatus(PartStatus());
      for i := 0 to |bubbles|
        invariant Ok() && own.Some? && PartStatus() == old(PartStatus())
        invariant Rank(statuses, status)
               == MixAll(Rank(statuses, PartStatus()), BubblyRanks(statuses, bubbles[..i]), bubbly)
      {
        var b := bubbles[i];
        assert b in bubbles;
        RanksMore(statuses, bubbles, i, Rank(statuses, PartStatus()), bubbly);
        if b.bubbly {
          MixIn(b);
        }
      }
      assert bubbles[..|bubbles|] == bubbles;
    }

    /** Two contexts that say the same are equal, as dictionaries are. */
    predicate Says(other: CryptoInfo)
      reads this, other
    {
      other.status == status && other.details == details
    }

    function NextParent(p: CryptoInfo?): CryptoInfo?
      reads this, p
    {
      if p != null && !Says(p) then p else parent
    }

    /** A bubbly context joins the bubbles of all that contain it; `chain` lists them, innermost first. */
    method BubbleUp(p: CryptoInfo?, ghost chain: seq<CryptoInfo>)
      requires this !in chain && IsChain(NextParent(p), chain)
      modifies this`parent, chain
      ensures parent == old(NextParent(p))
      ensures parent == if p != null && (old(p.status) != old(status) || old(p.details) != old(details)) then p
                        else old(parent)
      ensures forall c :: c in chain ==> c.bubbles == if bubbly then old(c.bubbles) + [this] else old(c.bubbles)
      ensures forall c :: c in chain ==>
                c.own == old(c.own) && c.status == old(c.status) && c.parent == old(c.parent)
    {
      ghost var next := NextParent(p);
      if p != null && !Says(p) {
        parent := p;
      }
      if !bubbly {
        return;
      }
      ChainApart(next, chain);
      JoinAll(parent, chain);
    }

    /** The loop: the parts that contain this one get it as a bubble. */
    method JoinAll(start: CryptoInfo?, ghost chain: seq<CryptoInfo>)
      requires this !in chain && start == if chain == [] then null else chain[0]
      requires forall i :: 0 <= i < |chain| ==> chain[i].parent == if i + 1 < |chain| then chain[i + 1] else null
      requires forall i, j :: 0 <= i < j < |chain| ==> chain[i] != chain[j]
      modifies set c | c in chain :: c`bubbles
      ensures forall i :: 0 <= i < |chain| ==> chain[i].bubbles == old(chain[i].bubbles) + [this]
    {
      var q := start;
      ghost var k := 0;
      while q != null
        invariant 0 <= k <= |chain|
        invariant q == if k < |chain| then chain[k] else null
        invariant forall i :: 0 <= i < |chain| ==>
                    chain[i].bubbles == if i < k then old(chain[i].bubbles) + [this] else old(chain[i].bubbles)
        decreases |chain| - k
      {
        assert q == chain[k] && chain[k] in chain;
        q.bubbles := q.bubbles + [this];
        q := q.parent;
        k := k + 1;
      }
    }
  }

  /** The parts that contain a part, from the given one outwards. */
  ghost predicate IsChain(start: CryptoInfo?, chain: seq<CryptoInfo>)
    reads chain
  {
    if chain == [] then start == null else chain[0] == start && IsChain(chain[0].parent, chain[1..])
  }

  lemma {:induction false} ChainNext(start: CryptoInfo?, chain: seq<CryptoInfo>, i: nat)
    requires IsChain(start, chain) && i < |chain|
    ensures chain[i].parent == if i + 1 < |chain| then chain[i + 1] else null
  {
    if i == 0 {
    } else {
      ChainNext(chain[0].parent, chain[1..], i - 1);
    }
  }

  /** A chain that ends never comes back to the same part. */
  lemma {:induction false} ChainApart(start: CryptoInfo?, chain: seq<CryptoInfo>)
    requires IsChain(start, chain)
    ensures forall i :: 0 <= i < |chain| ==> chain[i].parent == if i + 1 < |chain| then chain[i + 1] else null
    ensures forall i, j :: 0 <= i < j < |chain| ==> chain[i] != chain[j]
  {
    forall i | 0 <= i < |chain|
      ensures chain[i].parent == if i + 1 < |chain| then chain[i + 1] else null
    {
      ChainNext(start, chain, i);
    }
    forall i, j | 0 <= i < j < |chain|
      ensures chain[i] != chain[j]
    {
      NoReturn(chain, i, j);
    }
  }

  lemma {:induction false} NoReturn(chain: seq<CryptoInfo>, i: nat, j: nat)
    requires forall k :: 0 <= k < |chain| ==> chain[k].parent == if k + 1 < |chain| then chain[k + 1] else null
    requires i < j < |chain|
    ensures chain[i] != chain[j]
    decreases |chain| - j
  {
    assert chain[i].parent == chain[i + 1];
    assert chain[j].parent == if j + 1 < |chain| then chain[j + 1] else null;
    if j + 1 < |chain| {
      NoReturn(chain, i + 1, j + 1);
    }
  }

  /** The ranks of what the bubbly ones among the bubbles found. */
  function BubblyRanks(statuses: seq<string>, bubbles: seq<CryptoInfo>): seq<nat>
    reads bubbles
    requires forall b :: b in bubbles ==> b.PartStatus() in statuses
  {
    if bubbles == [] then []
    else
      var b := bubbles[|bubbles| - 1];
      var ranks := BubblyRanks(statuses, bubbles[..|bubbles| - 1]);
      if b.bubbly then ranks + [Rank(statuses, b.PartStatus())] else ranks
  }

  /** Just those ranks. */
  lemma {:induction false} BubblyRanksAre(statuses: seq<string>, bubbles: seq<CryptoInfo>, p: nat)
    requires forall b :: b in bubbles ==> b.PartStatus() in statuses
    ensures p in BubblyRanks(statuses, bubbles) <==>
            exists b :: b in bubbles && b.bubbly && Rank(statuses, b.PartStatus()) == p
  {
    hide Rank;
    if bubbles == [] {
    } else {
      var init, last := bubbles[..|bubbles| - 1], bubbles[|bubbles| - 1];
      BubblyRanksAre(statuses, init, p);
      assert bubbles == init + [last];
    }
  }

  lemma RanksNone(statuses: seq<string>, r: nat, bubbly: bool)
    ensures MixAll(r, BubblyRanks(statuses, []), bubbly) == r
  {
  }

  /** One more bubble. */
  lemma RanksMore(statuses: seq<string>, bubbles: seq<CryptoInfo>, i: nat, r: nat, bubbly: bool)
    requires i < |bubbles| && forall b :: b in bubbles ==> b.PartStatus() in statuses
    ensures forall b :: b in bubbles[..i] || b in bubbles[..i + 1] ==> b in bubbles
    ensures var mixed := MixAll(r, BubblyRanks(statuses, bubbles[..i]), bubbly);
            MixAll(r, BubblyRanks(statuses, bubbles[..i + 1]), bubbly) ==
            if bubbles[i].bubbly then Mix(mixed, Rank(statuses, bubbles[i].PartStatus()), bubbly) else mixed
  {
    assert bubbles[..i + 1][..i] == bubbles[..i];
    var ranks := BubblyRanks(statuses, bubbles[..i]);
    assert (ranks + [Rank(statuses, bubbles[i].PartStatus())])[..|ranks|] == ranks;
  }

  /** In names: a bubbly node with a status that all bubbles share keeps it; any other has "mixed-" and the
      name of the most exciting status. */
  lemma MixedName(statuses: seq<string>, r: nat, ps: seq<nat>)
    requires Ranked(statuses) && r < |statuses| && forall i :: 0 <= i < |ps| ==> ps[i] < |statuses|
    ensures var m := MixAll(r, ps, true);
            && m < |statuses|
            && if AllSame(r, ps) then m == r
               else Base(Highest(r, ps)) < |statuses| && statuses[m] == MIXED + statuses[Base(Highest(r, ps))]
  {
    BubblyMix(r, ps);
    hide MixAll;
    if !AllSame(r, ps) {
      var h := Highest(r, ps);
      var i :| 0 <= i < |ps| && ps[i] != r;
      assert ps[i] in ps;
      assert h > 0;
      assert h < |statuses| by {
        if h in ps {
          var k :| 0 <= k < |ps| && ps[k] == h;
        }
      }
    }
  }

  lemma NoneIsLowest(statuses: seq<string>)
    requires Ranked(statuses)
    ensures "none" in statuses && Rank(statuses, "none") == 0
    ensures forall s :: s in statuses && Rank(statuses, s) == 0 ==> s == "none"
  {
    RankIs(statuses, 0);
  }
}
