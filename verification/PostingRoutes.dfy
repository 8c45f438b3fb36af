/** Which container file a search term belongs to (mailpile/postinglist.py:271-289). */
module PostingRoutes {

  const MAX_HASH_LEN := 24

  /** The terms of one container and the messages they were found in. */
  type Words = map<string, set<nat>>

  /** The container files, by name. A name is a prefix of the terms inside. */
  type Files = map<string, Words>

  predicate Prefix(p: string, w: string) {
    |p| <= |w| && w[..|p|] == p
  }

  /** The longest prefix of at most n characters that names a file, or else the first character. */
  function LongestUpTo(files: Files, sig: string, n: nat): string
    requires 1 <= n <= |sig|
  {
    if sig[..n] in files || n == 1 then sig[..n] else LongestUpTo(files, sig, n - 1)
  }

  predicate IsTerm(w: string) {
    |w| == MAX_HASH_LEN
  }

  /** The container that a term is looked up in. */
  function Route(files: Files, sig: string): string
    requires sig != []
  {
    LongestUpTo(files, sig, if |sig| < MAX_HASH_LEN then |sig| else MAX_HASH_LEN)
  }

  /** A fresh look-up. */
  function Hits(files: Files, w: string): set<nat>
    requires w != []
  {
    var f := Route(files, w);
    if f in files && w in files[f] then files[f][w] else {}
  }

  /** Every term with hits sits in the file of its longest existing prefix. */
  ghost predicate Routed(files: Files) {
    && (forall f :: f in files ==> 1 <= |f| <= MAX_HASH_LEN)
    && (forall f, w :: f in files && w in files[f] && files[f][w] != {} ==> IsTerm(w) && Route(files, w) == f)
  }

  lemma {:induction false} LongestUpToMeans(files: Files, sig: string, n: nat)
    requires 1 <= n <= |sig|
    ensures var f := LongestUpTo(files, sig, n);
            && Prefix(f, sig) && 1 <= |f| <= n && (f in files || |f| == 1)
            && forall g :: g in files && Prefix(g, sig) && 1 <= |g| <= n ==> |g| <= |f|
  {
    if sig[..n] !in files && n > 1 {
      LongestUpToMeans(files, sig, n - 1);
      forall g | g in files && Prefix(g, sig) && 1 <= |g| <= n
        ensures |g| <= n - 1
      {
        assert sig[..|g|] == g;
      }
    }
  }

  /** The route of a term is its longest existing prefix, or its first character. */
  lemma RouteMeans(files: Files, w: string)
    requires IsTerm(w)
    ensures var f := Route(files, w);
            && Prefix(f, w) && |f| >= 1 && (f in files || |f| == 1)
            && forall g :: g in files && Prefix(g, w) && |g| >= 1 ==> |g| <= |f|
  {
    LongestUpToMeans(files, w, MAX_HASH_LEN);
  }

  /** The other way round: such a prefix is the route. */
  lemma RouteIs(files: Files, w: string, f: string)
    requires IsTerm(w) && Prefix(f, w) && |f| >= 1
    requires f in files || |f| == 1
    requires forall g :: g in files && Prefix(g, w) && |g| >= 1 ==> |g| <= |f|
    ensures Route(files, w) == f
  {
    RouteMeans(files, w);
    var r := Route(files, w);
    assert |r| == |f| by {
      if f in files { assert |f| <= |r|; }
      if r in files { assert |r| <= |f|; }
    }
    assert w[..|r|] == r && w[..|f|] == f;
  }

  /** Terms outside their route have no hits there, so other files may be consulted freely. */
  lemma NoHitsElsewhere(files: Files, g: string, w: string)
    requires Routed(files) && g in files && IsTerm(w) && Route(files, w) != g
    ensures w in files[g] ==> files[g][w] == {}
  {
  }

  /** The search for the file of a term. */
  method FindContainer(files: Files, sig: string) returns (f: string)
    requires sig != []
    ensures f == Route(files, sig)
  {
    f := if |sig| < MAX_HASH_LEN then sig else sig[..MAX_HASH_LEN];
    while f !in files && |f| > 1
      invariant 1 <= |f| <= |sig| && f == sig[..|f|]
      invariant LongestUpTo(files, sig, |f|) == Route(files, sig)
      decreases |f|
    {
      assert f[..|f| - 1] == sig[..|f| - 1];
      f := f[..|f| - 1];
    }
  }

  /** Deleting a file without hits changes no look-up. */
  lemma DeleteEmptied(files: Files, f: string, w: string)
    requires Routed(files) && f in files && IsTerm(w)
    requires forall x :: x in files[f] ==> files[f][x] == {}
    ensures Routed(files - {f}) && Hits(files - {f}, w) == Hits(files, w)
  {
    var files' := files - {f};
    forall g, x | g in files' && x in files'[g] && files'[g][x] != {}
      ensures IsTerm(x) && Route(files', x) == g
    {
      RouteMeans(files, x);
      RouteIs(files', x, g);
    }
    RouteMeans(files, w);
    RouteMeans(files', w);
    var r, r' := Route(files, w), Route(files', w);
    if r == f {
      if r' in files' {
        NoHitsElsewhere(files, r', w);
      }
    } else {
      RouteIs(files', w, r);
    }
  }
}
