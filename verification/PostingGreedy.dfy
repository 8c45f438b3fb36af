/** Which names are picked when an overfull container is split, and when that casts a shadow
    (mailpile/postinglist.py:185-205). */
module PostingGreedy {
  import opened PostingRoutes
  import opened PostingSplit
  import opened PostingSums

  function Picked(picks: seq<string>): set<string> {
    set p | p in picks
  }

  /** The sum of a name: the entries of the terms that would move to it. */
  ghost function Sum(words: Words, f: string, k: string): nat {
    Entries(words, Group(words, f, k))
  }

  /** The terms that target none of the names. */
  ghost function Without(words: Words, f: string, ks: set<string>): set<string> {
    words.Keys - Groups(words, f, ks)
  }

  /** The terms that no pick so far targets. */
  ghost function Left(words: Words, f: string, picks: seq<string>): set<string> {
    Without(words, f, Picked(picks))
  }

  /** The second loop, as far as it has come: the largest sum that is left goes first, as long as more than
      MAX_ITEMS entries are left. */
  ghost predicate GreedyPicks(words: Words, f: string, picks: seq<string>) {
    && (forall i, j :: 0 <= i < j < |picks| ==> picks[i] != picks[j])
    && (forall i :: 0 <= i < |picks| ==> PickedInTime(words, f, picks, i) && PickedLargest(words, f, picks, i))
  }

  ghost predicate PickedInTime(words: Words, f: string, picks: seq<string>, i: nat)
    requires i < |picks|
  {
    Sum(words, f, picks[i]) > 0 && Entries(words, Left(words, f, picks[..i])) > MAX_ITEMS
  }

  ghost predicate PickedLargest(words: Words, f: string, picks: seq<string>, i: nat)
    requires i < |picks|
  {
    forall k :: k !in picks[..i] ==> Sum(words, f, k) <= Sum(words, f, picks[i])
  }

  /** The second loop from beginning to end. */
  ghost predicate GreedyRun(words: Words, f: string, picks: seq<string>) {
    GreedyPicks(words, f, picks) && Entries(words, Left(words, f, picks)) <= MAX_ITEMS
  }

  lemma GreedyPicksOk(words: Words, f: string, picks: seq<string>)
    requires GreedyPicks(words, f, picks)
    ensures PicksOk(words, f, picks)
  {
    forall i | 0 <= i < |picks|
      ensures IsTarget(words, f, picks[i])
    {
      assert PickedInTime(words, f, picks, i);
      var w := PositiveEntries(words, Group(words, f, picks[i]));
      assert w in words && picks[i] == Target(f, w, |words[w]|);
    }
  }

  /** One more pick. */
  lemma GreedyStep(words: Words, f: string, picks: seq<string>, nsig: string)
    requires GreedyPicks(words, f, picks) && nsig !in picks
    requires Entries(words, Left(words, f, picks)) > MAX_ITEMS && Sum(words, f, nsig) > 0
    requires forall k :: k !in picks ==> Sum(words, f, k) <= Sum(words, f, nsig)
    ensures GreedyPicks(words, f, picks + [nsig])
  {
    hide Sum, Left;
    var all := picks + [nsig];
    forall i | 0 <= i < |all|
      ensures PickedInTime(words, f, all, i) && PickedLargest(words, f, all, i)
    {
      assert all[..i] == picks[..i];
      assert picks[..|picks|] == picks;
      if i < |picks| {
        assert PickedInTime(words, f, picks, i) && PickedLargest(words, f, picks, i);
      }
    }
  }

  // --- When a shadow is cast -------------------------------------------------

  /** What a container holds: whole terms that its name is a prefix of. Other entries are empty. */
  ghost predicate Contained(words: Words, f: string) {
    1 <= |f| < MAX_HASH_LEN && forall w :: w in words && words[w] != {} ==> IsTerm(w) && Prefix(f, w)
  }

  /** A name with a positive sum is a term, with a group of its own, or one character longer than the
      container. */
  lemma PickShape(words: Words, f: string, p: string)
    requires Contained(words, f) && Sum(words, f, p) > 0
    ensures |p| == |f| + 1 || IsTerm(p)
    ensures IsTerm(p) && |f| + 1 < MAX_HASH_LEN ==>
              p in words && |words[p]| >= MAX_ITEMS / 2 && Sum(words, f, p) == |words[p]|
  {
    var v := PositiveEntries(words, Group(words, f, p));
    assert v[..MAX_HASH_LEN] == v;
    if IsTerm(p) && |f| + 1 < MAX_HASH_LEN {
      forall x | x in Group(words, f, p)
        ensures x == p || words[x] == {}
      {
        if words[x] != {} {
          assert x[..MAX_HASH_LEN] == x;
        }
      }
      OnlyOne(words, Group(words, f, p), p);
    }
  }

  lemma {:induction false} OnlyOne(words: Words, s: set<string>, w: string)
    requires s <= words.Keys && w in s && forall x :: x in s ==> x == w || words[x] == {}
    ensures Entries(words, s) == |words[w]|
  {
    EntriesAdd(words, s, w);
    if Entries(words, s - {w}) > 0 {
      var x := PositiveEntries(words, s - {w});
    }
  }

  ghost function Names(words: Words, f: string): set<string> {
    set w | w in words :: Target(f, w, |words[w]|)
  }

  lemma NamesHaveSums(words: Words, f: string, k: string)
    ensures Sum(words, f, k) > 0 ==> k in Names(words, f)
  {
    if Sum(words, f, k) > 0 {
      var w := PositiveEntries(words, Group(words, f, k));
    }
  }

  /** The names with larger sums. */
  ghost function Larger(words: Words, f: string, n: nat): set<string> {
    set k | k in Names(words, f) && Sum(words, f, k) > n
  }

  /** A big term can be picked behind a prefix of it: the sum of that prefix is no smaller, and too much is
      left once the prefix and all larger groups are gone. */
  ghost predicate Shadowable(words: Words, f: string, w: string)
    requires w in words
  {
    && |words[w]| >= MAX_ITEMS / 2
    && |f| + 1 < |w|
    && var p := w[..|f| + 1];
       && Sum(words, f, p) >= |words[w]|
       && Entries(words, Without(words, f, Larger(words, f, |words[w]|) + {p})) > MAX_ITEMS
  }

  ghost predicate CanShadow(words: Words, f: string) {
    exists w :: w in words && Shadowable(words, f, w)
  }

  lemma FewerLeft(words: Words, f: string, ks: set<string>, more: set<string>)
    requires ks <= more
    ensures Entries(words, Without(words, f, more)) <= Entries(words, Without(words, f, ks))
  {
    EntriesMonotone(words, Without(words, f, more), Without(words, f, ks));
  }

  /** A big term is a name of its own, unless it is only one character longer than the container. */
  lemma BigTerm(words: Words, f: string, w: string)
    requires Contained(words, f) && w in words && |words[w]| >= MAX_ITEMS / 2 && |f| + 1 < |w|
    ensures IsTerm(w) && w in Names(words, f) && Sum(words, f, w) == |words[w]|
    ensures Prefix(w[..|f| + 1], w) && w[..|f| + 1] != w
  {
    assert words[w] != {};
    assert w[..MAX_HASH_LEN] == w;
    assert w in Group(words, f, w);
    EntriesAdd(words, Group(words, f, w), w);
    PickShape(words, f, w);
  }

  /** A pick that extends another one is a big term. */
  lemma ShadowShape(words: Words, f: string, p: string, w: string)
    requires Contained(words, f) && Sum(words, f, p) > 0 && Sum(words, f, w) > 0 && p != w && Prefix(p, w)
    ensures w in words && |words[w]| >= MAX_ITEMS / 2 && Sum(words, f, w) == |words[w]|
    ensures |f| + 1 < |w| && p == w[..|f| + 1]
  {
    PickShape(words, f, p);
    PickShape(words, f, w);
    hide Sum;
    assert w[..|w|] == w;
  }

  /** The names with larger sums are picked first. */
  lemma LargerFirst(words: Words, f: string, picks: seq<string>, j: nat)
    requires GreedyPicks(words, f, picks) && j < |picks|
    ensures Larger(words, f, Sum(words, f, picks[j])) <= Picked(picks[..j])
  {
    hide Sum, PickedInTime;
    assert PickedLargest(words, f, picks, j);
  }

  /** A shadow that is cast was possible. */
  lemma ShadowNeeds(words: Words, f: string, picks: seq<string>)
    requires Contained(words, f) && GreedyPicks(words, f, picks) && !NoShadow(picks)
    ensures CanShadow(words, f)
  {
    var i, j :| 0 <= i < j < |picks| && Prefix(picks[i], picks[j]);
    var p, w := picks[i], picks[j];
    assert PickedInTime(words, f, picks, i) && PickedInTime(words, f, picks, j);
    assert PickedLargest(words, f, picks, i);
    LargerFirst(words, f, picks, j);
    hide Sum, GreedyPicks, Larger, Without, Contained;
    ShadowShape(words, f, p, w);
    assert w !in picks[..i];
    assert picks[..j][i] == p;
    FewerLeft(words, f, Larger(words, f, |words[w]|) + {p}, Picked(picks[..j]));
    assert Shadowable(words, f, w);
  }

  lemma {:induction false} LargestOf(words: Words, f: string, ks: set<string>) returns (m: string)
    requires ks != {}
    ensures m in ks && forall k :: k in ks ==> Sum(words, f, k) <= Sum(words, f, m)
    decreases |ks|
  {
    hide Sum;
    m :| m in ks;
    var rest := ks - {m};
    if rest != {} {
      var n := LargestOf(words, f, rest);
      if Sum(words, f, n) > Sum(words, f, m) {
        m := n;
      }
    }
  }

  /** As long as too much is left, there is a name to pick. */
  lemma NextPick(words: Words, f: string, picks: seq<string>) returns (m: string)
    requires GreedyPicks(words, f, picks) && Entries(words, Left(words, f, picks)) > MAX_ITEMS
    ensures m in Names(words, f) && m !in picks && GreedyPicks(words, f, picks + [m])
  {
    var w := PositiveEntries(words, Left(words, f, picks));
    var t := Target(f, w, |words[w]|);
    EntriesAdd(words, Group(words, f, t), w);
    var ks := Names(words, f) - Picked(picks);
    assert t in ks;
    m := LargestOf(words, f, ks);
    forall k | k !in picks
      ensures Sum(words, f, k) <= Sum(words, f, m)
    {
      NamesHaveSums(words, f, k);
    }
    GreedyStep(words, f, picks, m);
  }

  lemma FewerNames(words: Words, f: string, picks: seq<string>, m: string)
    requires m in Names(words, f) && m !in picks
    ensures |Names(words, f) - Picked(picks + [m])| < |Names(words, f) - Picked(picks)|
  {
    hide Names;
    assert Names(words, f) - Picked(picks + [m]) == Names(words, f) - Picked(picks) - {m};
  }

  /** Every choice so far can be carried on to the end. */
  lemma {:induction false} RunOn(words: Words, f: string, picks: seq<string>) returns (all: seq<string>)
    requires GreedyPicks(words, f, picks)
    ensures GreedyRun(words, f, all) && picks <= all
    decreases |Names(words, f) - Picked(picks)|
  {
    hide GreedyPicks, Names, Picked, Entries, Groups;
    if Entries(words, Left(words, f, picks)) <= MAX_ITEMS {
      all := picks;
    } else {
      var m := NextPick(words, f, picks);
      FewerNames(words, f, picks, m);
      all := RunOn(words, f, picks + [m]);
    }
  }

  /** The names of a set are picked first if their sums are the largest and too much is left after them. */
  lemma {:induction false} PickThese(words: Words, f: string, these: set<string>, n: nat, picks: seq<string>)
    returns (all: seq<string>)
    requires GreedyPicks(words, f, picks) && Picked(picks) <= these
    requires n > 0 && forall k :: if k in these then Sum(words, f, k) >= n else Sum(words, f, k) <= n
    requires Entries(words, Without(words, f, these)) > MAX_ITEMS
    ensures GreedyPicks(words, f, all) && Picked(all) == these
    decreases |these - Picked(picks)|
  {
    hide Sum, GreedyPicks, Without;
    var ks := these - Picked(picks);
    if ks == {} {
      all := picks;
    } else {
      var m := LargestOf(words, f, ks);
      FewerLeft(words, f, Picked(picks), these);
      assert Left(words, f, picks) == Without(words, f, Picked(picks));
      GreedyStep(words, f, picks, m);
      assert Picked(picks + [m]) == Picked(picks) + {m};
      assert these - Picked(picks + [m]) == ks - {m};
      all := PickThese(words, f, these, n, picks + [m]);
    }
  }

  /** A shadow that is possible is cast by one of the choices. */
  lemma ShadowFollows(words: Words, f: string, w: string) returns (picks: seq<string>)
    requires Contained(words, f) && w in words && Shadowable(words, f, w)
    ensures GreedyRun(words, f, picks) && !NoShadow(picks)
  {
    var p, n := w[..|f| + 1], |words[w]|;
    var these := Larger(words, f, n) + {p};
    BigTerm(words, f, w);
    forall k
      ensures if k in these then Sum(words, f, k) >= n else Sum(words, f, k) <= n
    {
      NamesHaveSums(words, f, k);
    }
    assert w !in these;
    StartGreedy(words, f);
    hide Sum, GreedyPicks, Larger, Without, Contained;
    var first := PickThese(words, f, these, n, []);
    assert Left(words, f, first) == Without(words, f, these);
    assert p in Picked(first) && w !in Picked(first);
    GreedyStep(words, f, first, w);
    picks := RunOn(words, f, first + [w]);
    var i :| 0 <= i < |first| && first[i] == p;
    assert picks[i] == p && picks[|first|] == w;
  }

  lemma StartGreedy(words: Words, f: string)
    ensures GreedyPicks(words, f, [])
  {
  }

  /** The exact condition, on the container alone: some choice of the second loop casts a shadow if and only
      if a big term can be picked behind a prefix of it. */
  lemma ShadowExactly(words: Words, f: string)
    requires Contained(words, f)
    ensures (exists picks :: GreedyRun(words, f, picks) && !NoShadow(picks)) <==> CanShadow(words, f)
  {
    if picks :| GreedyRun(words, f, picks) && !NoShadow(picks) {
      ShadowNeeds(words, f, picks);
    }
    if w :| w in words && Shadowable(words, f, w) {
      var picks := ShadowFollows(words, f, w);
    }
  }

  /** A simple condition that rules shadows out: every big term has more entries than all the small terms that
      share its next character together. */
  ghost predicate BigTermsLead(words: Words, f: string) {
    forall w :: w in words && |words[w]| >= MAX_ITEMS / 2 && |f| + 1 < |w| ==>
      Sum(words, f, w[..|f| + 1]) < |words[w]|
  }

  lemma LeadersCastNoShadow(words: Words, f: string, picks: seq<string>)
    requires Contained(words, f) && GreedyPicks(words, f, picks) && BigTermsLead(words, f)
    ensures NoShadow(picks)
  {
    if !NoShadow(picks) {
      ShadowNeeds(words, f, picks);
    }
  }

  /** Where no choice is left: one name has the largest sum, too much is left without it, and every other name with
      a sum extends it. */
  lemma MustShadow(words: Words, f: string, p: string, picks: seq<string>)
    requires GreedyRun(words, f, picks) && Entries(words, Without(words, f, {p})) > MAX_ITEMS
    requires forall k :: k != p && Sum(words, f, k) > 0 ==> Prefix(p, k) && Sum(words, f, k) < Sum(words, f, p)
    ensures !NoShadow(picks)
  {
    var j := SecondPick(words, f, p, picks);
    assert PickedInTime(words, f, picks, j) && PickedLargest(words, f, picks, j);
    hide Sum, GreedyPicks, Without, Entries;
    assert p in picks[..j];
    var i :| 0 <= i < j && picks[..j][i] == p;
    assert picks[i] == p;
  }

  lemma SecondPick(words: Words, f: string, p: string, picks: seq<string>) returns (j: nat)
    requires GreedyRun(words, f, picks) && Entries(words, Without(words, f, {p})) > MAX_ITEMS
    ensures j < |picks| && picks[j] != p
  {
    hide GreedyPicks, Without, Entries, Groups;
    if forall j :: 0 <= j < |picks| ==> picks[j] == p {
      assert Picked(picks) <= {p};
      FewerLeft(words, f, Picked(picks), {p});
      assert false;
    }
    j :| 0 <= j < |picks| && picks[j] != p;
  }

  /** The first n numbers. */
  function Below(n: nat): (s: set<nat>)
    ensures |s| == n && forall i :: i in s <==> 0 <= i < n
  {
    if n == 0 then {}
    else
      var fewer := Below(n - 1);
      assert n - 1 !in fewer;
      fewer + {n - 1}
  }

  /** A term: "ab", and 22 times the given character. */
  function Term(c: char): (w: string)
    ensures IsTerm(w) && w[..2] == "ab" && w[2] == c
  {
    "ab" + seq(MAX_HASH_LEN - 2, i => c)
  }

  const BIG := MAX_ITEMS / 2

  /** A container "a" with three terms that are just big, and two that are not and have more entries together. All
      begin with "ab". */
  function Overfull(): Words {
    map["a" := {}, Term('1') := Below(BIG), Term('2') := Below(BIG), Term('3') := Below(BIG),
        Term('4') := Below(BIG - 1), Term('5') := Below(BIG - 1)]
  }

  predicate OverfullShape(words: Words, one: string, two: string, three: string, four: string, five: string) {
    && IsTerm(one) && IsTerm(two) && IsTerm(three) && IsTerm(four) && IsTerm(five)
    && one[..2] == two[..2] == three[..2] == four[..2] == five[..2] == "ab"
    && one != two && one != three && one != four && one != five && two != three && two != four && two != five
    && three != four && three != five && four != five
    && words.Keys == {"a", one, two, three, four, five} && words["a"] == {}
    && |words[one]| == |words[two]| == |words[three]| == BIG && |words[four]| == |words[five]| == BIG - 1
  }

  lemma OverfullIs()
    ensures OverfullShape(Overfull(), Term('1'), Term('2'), Term('3'), Term('4'), Term('5'))
  {
    hide Term, Below;
    assert Term('1')[2] == '1' && Term('2')[2] == '2' && Term('3')[2] == '3' && Term('4')[2] == '4'
           && Term('5')[2] == '5';
  }

  lemma OverfullRouted(words: Words, one: string, two: string, three: string, four: string, five: string)
    requires OverfullShape(words, one, two, three, four, five)
    ensures Routed(map["a" := words]) && Contained(words, "a")
  {
    var files := map["a" := words];
    forall w | w in words && words[w] != {}
      ensures IsTerm(w) && Prefix("a", w) && Route(files, w) == "a"
    {
      assert w[..1] == w[..2][..1] == "a";
      RouteIs(files, w, "a");
    }
  }

  lemma OverfullTargets(words: Words, one: string, two: string, three: string, four: string, five: string)
    requires OverfullShape(words, one, two, three, four, five)
    ensures forall w :: w in words ==> Target("a", w, |words[w]|) == if w == four || w == five then "ab" else w
    ensures "ab" !in words
  {
    forall w | w in words
      ensures Target("a", w, |words[w]|) == if w == four || w == five then "ab" else w
    {
      if w != "a" {
        assert w[..MAX_HASH_LEN] == w;
      }
    }
  }

  /** A term that is its own target has a group of its own, if no other has it. */
  lemma OwnGroup(words: Words, f: string, k: string)
    requires k in words && forall w :: w in words ==> (Target(f, w, |words[w]|) == k <==> w == k)
    ensures Group(words, f, k) == {k}
  {
    hide Target;
  }

  lemma OverfullGroups(words: Words, one: string, two: string, three: string, four: string, five: string)
    requires OverfullShape(words, one, two, three, four, five)
    ensures Group(words, "a", "ab") == {four, five} && Without(words, "a", {"ab"}) == {"a", one, two, three}
    ensures Group(words, "a", one) == {one} && Group(words, "a", two) == {two} && Group(words, "a", three) == {three}
    ensures Names(words, "a") == {"a", "ab", one, two, three} && Group(words, "a", "a") == {"a"}
  {
    OverfullTargets(words, one, two, three, four, five);
    hide Target, IsTerm;
    assert Group(words, "a", "ab") == {four, five} && Without(words, "a", {"ab"}) == {"a", one, two, three};
    assert Names(words, "a") == {"a", "ab", one, two, three} by {
      assert Target("a", four, |words[four]|) == "ab";
    }
    hide Group, Without, Names;
    OwnGroup(words, "a", one);
    OwnGroup(words, "a", two);
    OwnGroup(words, "a", three);
    OwnGroup(words, "a", "a");
  }

  lemma OverfullEntries(words: Words, one: string, two: string, three: string, four: string, five: string)
    requires OverfullShape(words, one, two, three, four, five)
    ensures Entries(words, {four, five}) == 2 * (BIG - 1) && Entries(words, {"a", one, two, three}) == 3 * BIG
    ensures Entries(words, {one}) == Entries(words, {two}) == Entries(words, {three}) == BIG
            && Entries(words, {"a"}) == 0
  {
    hide IsTerm, Entries;
    EntriesOne(words, one);
    EntriesOne(words, two);
    EntriesOne(words, three);
    EntriesOne(words, "a");
    EntriesTwo(words, four, five);
    EntriesTwo(words, "a", one);
    EntriesTwo(words, two, three);
    EntriesSplit(words, {"a", one}, {two, three});
    assert {"a", one} + {two, three} == {"a", one, two, three};
  }

  lemma EntriesOne(words: Words, w: string)
    requires w in words
    ensures Entries(words, {w}) == |words[w]|
  {
    EntriesAdd(words, {w}, w);
    assert {w} - {w} == {};
  }

  lemma EntriesTwo(words: Words, v: string, w: string)
    requires v in words && w in words && v != w
    ensures Entries(words, {v, w}) == |words[v]| + |words[w]|
  {
    EntriesAdd(words, {v, w}, v);
    assert {v, w} - {v} == {w};
    EntriesOne(words, w);
  }

  lemma OverfullSums(words: Words, one: string, two: string, three: string, four: string, five: string)
    requires OverfullShape(words, one, two, three, four, five)
    ensures Entries(words, Without(words, "a", {"ab"})) > MAX_ITEMS
    ensures forall k :: k != "ab" && Sum(words, "a", k) > 0 ==>
              Prefix("ab", k) && Sum(words, "a", k) < Sum(words, "a", "ab")
  {
    OverfullGroups(words, one, two, three, four, five);
    OverfullEntries(words, one, two, three, four, five);
    assert Prefix("ab", one) && Prefix("ab", two) && Prefix("ab", three);
    hide OverfullShape, Entries, Group, Without, Names, Sum;
    SumIs(words, "a", "ab");
    SumIs(words, "a", one);
    SumIs(words, "a", two);
    SumIs(words, "a", three);
    SumIs(words, "a", "a");
    OtherSums(words, one, two, three);
  }

  lemma OtherSums(words: Words, one: string, two: string, three: string)
    requires Names(words, "a") == {"a", "ab", one, two, three} && Sum(words, "a", "a") == 0
    requires Sum(words, "a", one) == Sum(words, "a", two) == Sum(words, "a", three) == BIG < Sum(words, "a", "ab")
    requires Prefix("ab", one) && Prefix("ab", two) && Prefix("ab", three)
    ensures forall k :: k != "ab" && Sum(words, "a", k) > 0 ==>
              Prefix("ab", k) && Sum(words, "a", k) < Sum(words, "a", "ab")
  {
    hide Names, Sum, Prefix;
    forall k | k != "ab" && Sum(words, "a", k) > 0
      ensures Prefix("ab", k) && Sum(words, "a", k) < Sum(words, "a", "ab")
    {
      NamesHaveSums(words, "a", k);
    }
  }

  lemma SumIs(words: Words, f: string, k: string)
    ensures Sum(words, f, k) == Entries(words, Group(words, f, k))
  {
  }

  /** Shadows do happen: there is a container for which every choice of the second loop picks the name "ab", and
      behind it a term that starts with it. */
  lemma ShadowHappens()
    ensures Routed(map["a" := Overfull()]) && Contained(Overfull(), "a")
    ensures forall picks :: GreedyRun(Overfull(), "a", picks) ==> !NoShadow(picks)
    ensures exists picks :: GreedyRun(Overfull(), "a", picks)
  {
    hide *;
    var words := Overfull();
    OverfullIs();
    OverfullRouted(words, Term('1'), Term('2'), Term('3'), Term('4'), Term('5'));
    OverfullSums(words, Term('1'), Term('2'), Term('3'), Term('4'), Term('5'));
    forall picks | GreedyRun(words, "a", picks)
      ensures !NoShadow(picks)
    {
      MustShadow(words, "a", "ab", picks);
    }
    StartGreedy(words, "a");
    var picks := RunOn(words, "a", []);
  }
}
