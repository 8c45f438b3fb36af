/** Splitting an overfull container (mailpile/postinglist.py:138-220): which prefixes are moved to
    files of their own, and when that keeps every look-up. */
module PostingSplit {
  import opened PostingRoutes

  const MAX_ITEMS := 12288

  /** The new file that a term of container f would move to: its own for a big term, and one
      character more than f otherwise. */
  function Target(f: string, w: string, size: nat): string {
    if size >= MAX_ITEMS / 2 then (if |w| < MAX_HASH_LEN then w else w[..MAX_HASH_LEN])
    else if |w| <= |f| then w else w[..|f| + 1]
  }

  function OwnerUpTo(picks: seq<string>, n: nat, w: string): (i: int)
    requires n <= |picks|
    ensures -1 <= i < n
  {
    if n == 0 then -1
    else
      var i := OwnerUpTo(picks, n - 1, w);
      if i >= 0 then i else if Prefix(picks[n - 1], w) then n - 1 else -1
  }

  /** The first picked name that is a prefix of the term, or -1. */
  function Owner(picks: seq<string>, w: string): (i: int)
    ensures -1 <= i < |picks|
  {
    OwnerUpTo(picks, |picks|, w)
  }

  lemma {:induction false} OwnerUpToMeans(picks: seq<string>, n: nat, w: string)
    requires n <= |picks|
    ensures var i := OwnerUpTo(picks, n, w);
            && (i >= 0 ==> Prefix(picks[i], w))
            && forall j :: 0 <= j < (if i < 0 then n else i) ==> !Prefix(picks[j], w)
  {
    if n == 0 {
    } else {
      OwnerUpToMeans(picks, n - 1, w);
    }
  }

  lemma OwnerMeans(picks: seq<string>, w: string)
    ensures var i := Owner(picks, w);
            && (i >= 0 ==> Prefix(picks[i], w))
            && forall j :: 0 <= j < (if i < 0 then |picks| else i) ==> !Prefix(picks[j], w)
  {
    OwnerUpToMeans(picks, |picks|, w);
  }

  function NonEmpty(words: Words): Words {
    map w | w in words && words[w] != {} :: words[w]
  }

  /** What stays in the container. */
  function Remaining(words: Words, picks: seq<string>): Words {
    map w | w in words && Owner(picks, w) < 0 :: words[w]
  }

  /** What goes to the i-th picked file. */
  function Part(words: Words, picks: seq<string>, i: nat): Words {
    map w | w in words && Owner(picks, w) == i :: words[w]
  }

  /** The files after the container and all its splits are saved. Only terms with hits are written,
      and a container without any is deleted; a picked file is there even when nothing reaches it. */
  ghost predicate IsSplit(files: Files, files': Files, f: string, picks: seq<string>)
    requires f in files
  {
    && (forall g :: g in files' <==>
          (g in files && g != f) || g in picks || (g == f && NonEmpty(Remaining(files[f], picks)) != map[]))
    && (forall g :: g in files && g != f && g !in picks ==> files'[g] == files[g])
    && (f in files' && f !in picks ==> files'[f] == NonEmpty(Remaining(files[f], picks)))
    && (forall i :: 0 <= i < |picks| ==> files'[picks[i]] == NonEmpty(Part(files[f], picks, i)))
  }

  /** The picked names: distinct, each the target of a term with hits. */
  ghost predicate PicksOk(words: Words, f: string, picks: seq<string>) {
    && (forall i, j :: 0 <= i < j < |picks| ==> picks[i] != picks[j])
    && (forall i :: 0 <= i < |picks| ==> IsTarget(words, f, picks[i]))
  }

  ghost predicate IsTarget(words: Words, f: string, p: string) {
    exists w :: w in words && words[w] != {} && p == Target(f, w, |words[w]|)
  }

  /** No picked name extends one picked before it. */
  predicate NoShadow(picks: seq<string>) {
    forall i, j :: 0 <= i < j < |picks| ==> !Prefix(picks[i], picks[j])
  }

  /** What the proofs below use of the picked names. */
  ghost predicate Shaped(files: Files, f: string, picks: seq<string>) {
    && Routed(files) && f in files && |f| < MAX_HASH_LEN
    && (forall i, j :: 0 <= i < j < |picks| ==> picks[i] != picks[j])
    && (forall i :: 0 <= i < |picks| ==> ShapedPick(files, f, picks[i]))
  }

  ghost predicate ShapedPick(files: Files, f: string, p: string)
    requires f in files
  {
    && p !in files && |f| < |p| <= MAX_HASH_LEN && Prefix(f, p)
    && (|p| == |f| + 1 || (IsTerm(p) && p in files[f] && files[f][p] != {}))
  }

  /** A picked name is a new file, one character longer than f or a term of f with hits. */
  lemma TargetShape(files: Files, f: string, p: string)
    requires Routed(files) && f in files && |f| < MAX_HASH_LEN && IsTarget(files[f], f, p)
    ensures ShapedPick(files, f, p)
  {
    var w :| w in files[f] && files[f][w] != {} && p == Target(f, w, |files[f][w]|);
    RouteMeans(files, w);
    assert w[..MAX_HASH_LEN] == w;
    assert w[..|p|] == p;
    assert p[..|f|] == w[..|f|];
    assert Prefix(p, w);
  }

  lemma Shapes(files: Files, f: string, picks: seq<string>)
    requires Routed(files) && f in files && |f| < MAX_HASH_LEN && PicksOk(files[f], f, picks)
    ensures Shaped(files, f, picks)
  {
    forall i | 0 <= i < |picks|
      ensures ShapedPick(files, f, picks[i])
    {
      assert IsTarget(files[f], f, picks[i]);
      TargetShape(files, f, picks[i]);
    }
  }

  /** Two prefixes of a term, the longer of them a term: that is the term itself. */
  lemma WholeTerm(p: string, w: string)
    requires IsTerm(p) && IsTerm(w) && Prefix(p, w)
    ensures p == w
  {
    assert w[..|w|] == w;
  }

  lemma PrefixChain(f: string, p: string, w: string)
    requires Prefix(f, p) && Prefix(p, w)
    ensures Prefix(f, w)
  {
    assert w[..|f|] == w[..|p|][..|f|];
  }

  lemma PrefixesNest(p: string, q: string, w: string)
    requires Prefix(p, w) && Prefix(q, w) && |p| <= |q|
    ensures Prefix(p, q)
  {
    assert q[..|p|] == w[..|q|][..|p|] == w[..|p|];
  }

  /** Without shadows, the first picked prefix of a term is the longest. */
  lemma OwnerLongest(files: Files, f: string, picks: seq<string>, w: string, k: nat)
    requires Shaped(files, f, picks) && NoShadow(picks) && IsTerm(w)
    requires k < |picks| && Prefix(picks[k], w)
    ensures Owner(picks, w) >= 0 && |picks[k]| <= |picks[Owner(picks, w)]|
  {
    OwnerMeans(picks, w);
    var i := Owner(picks, w);
    if |picks[k]| > |picks[i]| {
      PrefixesNest(picks[i], picks[k], w);
    }
  }

  /** A picked prefix of a term is no longer than the owner of the term, and no longer than its
      route if that was another file. */
  lemma NewNames(files: Files, f: string, picks: seq<string>, w: string, k: nat)
    requires Shaped(files, f, picks) && NoShadow(picks) && IsTerm(w)
    requires k < |picks| && Prefix(picks[k], w)
    ensures Owner(picks, w) >= 0 && |picks[k]| <= |picks[Owner(picks, w)]|
    ensures Route(files, w) != f ==> |picks[k]| <= |Route(files, w)|
  {
    var p, r := picks[k], Route(files, w);
    OwnerLongest(files, f, picks, w, k);
    assert ShapedPick(files, f, p);
    PrefixChain(f, p, w);
    RouteMeans(files, w);
    if IsTerm(p) {
      WholeTerm(p, w);
    }
    if r != f && |r| == |f| {
      PrefixesNest(r, f, w);
    }
  }

  lemma RouteAfterSplit(files: Files, files': Files, f: string, picks: seq<string>, w: string)
    requires Shaped(files, f, picks) && NoShadow(picks) && IsSplit(files, files', f, picks) && IsTerm(w)
    ensures Route(files, w) == f && Owner(picks, w) >= 0 ==> Route(files', w) == picks[Owner(picks, w)]
    ensures Route(files, w) == f && Owner(picks, w) < 0 && f in files' ==> Route(files', w) == f
    ensures Route(files, w) != f ==> Route(files', w) == Route(files, w)
  {
    RouteMeans(files, w);
    OwnerMeans(picks, w);
    var r, i := Route(files, w), Owner(picks, w);
    forall g | g in files' && Prefix(g, w) && |g| >= 1 && g !in files
      ensures i >= 0 && |g| <= |picks[i]| && (r != f ==> |g| <= |r|)
    {
      var k :| 0 <= k < |picks| && picks[k] == g;
      NewNames(files, f, picks, w, k);
    }
    if r != f {
      RouteIs(files', w, r);
    } else if i >= 0 {
      assert ShapedPick(files, f, picks[i]);
      assert picks[i] in files';
      RouteIs(files', w, picks[i]);
    } else if f in files' {
      RouteIs(files', w, f);
    }
  }

  lemma PicksNew(files: Files, f: string, picks: seq<string>)
    requires Shaped(files, f, picks)
    ensures forall g :: g in picks ==> g !in files && g != f
  {
    forall g | g in picks
      ensures g !in files && g != f
    {
      var k :| 0 <= k < |picks| && picks[k] == g;
      assert ShapedPick(files, f, picks[k]);
    }
  }

  /** What each file holds after a split. */
  lemma SplitContent(files: Files, files': Files, f: string, picks: seq<string>, g: string, w: string)
    requires Shaped(files, f, picks) && IsSplit(files, files', f, picks) && g in files'
    ensures g in picks ==>
              exists k :: 0 <= k < |picks| && picks[k] == g &&
                (w in files'[g] <==> w in files[f] && files[f][w] != {} && Owner(picks, w) == k)
    ensures g == f ==> (w in files'[g] <==> w in files[f] && files[f][w] != {} && Owner(picks, w) < 0)
    ensures g in picks || g == f ==> (w in files'[g] ==> files'[g][w] == files[f][w])
    ensures g !in picks && g != f ==> g in files && files'[g] == files[g]
  {
    PicksNew(files, f, picks);
    if g in picks {
      var k :| 0 <= k < |picks| && picks[k] == g;
      assert files'[picks[k]] == NonEmpty(Part(files[f], picks, k));
    }
  }

  lemma StillRouted(files: Files, files': Files, f: string, picks: seq<string>, g: string, w: string)
    requires Shaped(files, f, picks) && NoShadow(picks) && IsSplit(files, files', f, picks)
    requires g in files' && w in files'[g] && files'[g][w] != {}
    ensures IsTerm(w) && Route(files', w) == g
  {
    SplitContent(files, files', f, picks, g, w);
    var home := if g in picks then f else g;
    assert w in files[home] && files[home][w] != {};
    assert IsTerm(w) && Route(files, w) == home;
    RouteAfterSplit(files, files', f, picks, w);
  }

  /** A split without shadows keeps the routing. */
  lemma SplitKeepsRouted(files: Files, files': Files, f: string, picks: seq<string>)
    requires Shaped(files, f, picks) && NoShadow(picks) && IsSplit(files, files', f, picks)
    ensures Routed(files')
  {
    forall g, w | g in files' && w in files'[g] && files'[g][w] != {}
      ensures IsTerm(w) && Route(files', w) == g
    {
      StillRouted(files, files', f, picks, g, w);
    }
    forall g | g in files'
      ensures 1 <= |g| <= MAX_HASH_LEN
    {
      if g in picks {
        var k :| 0 <= k < |picks| && picks[k] == g;
        assert ShapedPick(files, f, picks[k]);
      }
    }
  }

  lemma MovedHits(files: Files, files': Files, f: string, picks: seq<string>, w: string)
    requires Shaped(files, f, picks) && NoShadow(picks) && IsSplit(files, files', f, picks) && IsTerm(w)
    requires Route(files, w) == f && Owner(picks, w) >= 0
    ensures Hits(files', w) == Hits(files, w)
  {
    RouteAfterSplit(files, files', f, picks, w);
    assert files'[picks[Owner(picks, w)]] == NonEmpty(Part(files[f], picks, Owner(picks, w)));
  }

  lemma OtherHits(files: Files, files': Files, f: string, picks: seq<string>, w: string)
    requires Shaped(files, f, picks) && NoShadow(picks) && IsSplit(files, files', f, picks) && IsTerm(w)
    requires Route(files, w) != f
    ensures Hits(files', w) == Hits(files, w)
  {
    RouteAfterSplit(files, files', f, picks, w);
    var r := Route(files, w);
    if r in files' {
      SplitContent(files, files', f, picks, r, w);
      if r in picks {
        assert w !in files'[r];
      }
    }
    PicksNew(files, f, picks);
  }

  /** A split without shadows keeps the hits of every term. */
  lemma SplitKeepsHits(files: Files, files': Files, f: string, picks: seq<string>, w: string)
    requires Shaped(files, f, picks) && NoShadow(picks) && IsSplit(files, files', f, picks) && IsTerm(w)
    ensures Hits(files', w) == Hits(files, w)
  {
    if Route(files, w) != f {
      OtherHits(files, files', f, picks, w);
    } else if Owner(picks, w) >= 0 {
      MovedHits(files, files', f, picks, w);
    } else if f in files' {
      RouteAfterSplit(files, files', f, picks, w);
      SplitContent(files, files', f, picks, f, w);
    } else {
      DeletedContainer(files, files', f, picks, w);
    }
  }

  /** When everything moved away, the terms that stayed behind had no hits. */
  lemma DeletedContainer(files: Files, files': Files, f: string, picks: seq<string>, w: string)
    requires Shaped(files, f, picks) && NoShadow(picks) && IsSplit(files, files', f, picks) && IsTerm(w)
    requires Route(files, w) == f && Owner(picks, w) < 0 && f !in files'
    ensures Hits(files, w) == {} == Hits(files', w)
  {
    PicksNew(files, f, picks);
    OwnerMeans(picks, w);
    assert w !in NonEmpty(Remaining(files[f], picks));
    RouteMeans(files', w);
    var r := Route(files', w);
    if r in files' {
      SplitContent(files, files', f, picks, r, w);
      if r !in picks {
        NoHitsElsewhere(files, r, w);
      }
    }
  }

  /** A shadowed pick is a term whose hits went to an earlier pick. */
  lemma ShadowedPick(files: Files, f: string, picks: seq<string>, i: nat, j: nat)
    requires Shaped(files, f, picks) && i < j < |picks| && Prefix(picks[i], picks[j])
    ensures var w := picks[j];
            IsTerm(w) && w in files[f] && files[f][w] != {} && 0 <= Owner(picks, w) < j
  {
    var p, w := picks[i], picks[j];
    OwnerMeans(picks, w);
    assert ShapedPick(files, f, p) && ShapedPick(files, f, w);
    assert w[..|w|] == w;
  }

  /** A shadowed pick loses hits: its file is created, empty, after its hits went elsewhere. */
  lemma ShadowLosesHits(files: Files, files': Files, f: string, picks: seq<string>, i: nat, j: nat)
    requires Shaped(files, f, picks) && IsSplit(files, files', f, picks)
    requires i < j < |picks| && Prefix(picks[i], picks[j])
    ensures IsTerm(picks[j]) && Hits(files', picks[j]) == {} != Hits(files, picks[j])
    ensures !Routed(files')
  {
    ShadowedPick(files, f, picks, i, j);
    var w := picks[j];
    assert w[..|w|] == w;
    RouteIs(files', w, w);
    assert files'[picks[j]] == NonEmpty(Part(files[f], picks, j));
    assert Hits(files, w) == files[f][w];
    OwnerMeans(picks, w);
    var p := picks[Owner(picks, w)];
    assert files'[p] == NonEmpty(Part(files[f], picks, Owner(picks, w)));
    assert w in files'[p] && p != w;
  }

  /** The exact condition: saving with a split keeps every look-up if and only if no picked name
      extends one picked before it. */
  lemma SplitExactly(files: Files, files': Files, f: string, picks: seq<string>)
    requires Routed(files) && f in files && |f| < MAX_HASH_LEN
    requires PicksOk(files[f], f, picks) && IsSplit(files, files', f, picks)
    ensures NoShadow(picks) <==> forall w :: IsTerm(w) ==> Hits(files', w) == Hits(files, w)
    ensures NoShadow(picks) <==> Routed(files')
  {
    Shapes(files, f, picks);
    if NoShadow(picks) {
      SplitKeepsRouted(files, files', f, picks);
      forall w | IsTerm(w)
        ensures Hits(files', w) == Hits(files, w)
      {
        SplitKeepsHits(files, files', f, picks, w);
      }
    } else {
      var i, j :| 0 <= i < j < |picks| && Prefix(picks[i], picks[j]);
      ShadowLosesHits(files, files', f, picks, i, j);
    }
  }
}
