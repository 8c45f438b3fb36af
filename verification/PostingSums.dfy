/** Counting the entries of a container, and choosing what to move out of it
    (mailpile/postinglist.py:185-205). */
module PostingSums {
  import opened PostingRoutes
  import opened PostingSplit

  /** The entries of the given terms: one for each message of each term. */
  ghost function Entries(words: Words, s: set<string>): nat
    requires s <= words.Keys
  {
    if s == {} then 0
    else
      var w :| w in s;
      |words[w]| + Entries(words, s - {w})
  }

  lemma {:induction false} EntriesAdd(words: Words, s: set<string>, w: string)
    requires s <= words.Keys && w in s
    ensures Entries(words, s) == |words[w]| + Entries(words, s - {w})
    decreases s
  {
    var v :| v in s && Entries(words, s) == |words[v]| + Entries(words, s - {v});
    if v != w {
      EntriesAdd(words, s - {v}, w);
      EntriesAdd(words, s - {w}, v);
      assert s - {v} - {w} == s - {w} - {v};
    }
  }

  lemma {:induction false} EntriesSplit(words: Words, s: set<string>, t: set<string>)
    requires s <= words.Keys && t <= words.Keys && s !! t
    ensures Entries(words, s + t) == Entries(words, s) + Entries(words, t)
    decreases t
  {
    if t == {} {
      assert s + t == s;
    } else {
      var w :| w in t;
      EntriesAdd(words, t, w);
      EntriesAdd(words, s + t, w);
      assert s + t - {w} == s + (t - {w});
      EntriesSplit(words, s, t - {w});
    }
  }

  lemma EntriesMonotone(words: Words, s: set<string>, t: set<string>)
    requires s <= t <= words.Keys
    ensures Entries(words, s) <= Entries(words, t)
  {
    EntriesSplit(words, s, t - s);
    assert s + (t - s) == t;
  }

  /** The same terms with the same messages have the same number of entries. */
  lemma {:induction false} EntriesSame(a: Words, b: Words, s: set<string>)
    requires s <= a.Keys && s <= b.Keys && forall w :: w in s ==> a[w] == b[w]
    ensures Entries(a, s) == Entries(b, s)
    decreases s
  {
    if s == {} {
    } else {
      var w :| w in s;
      EntriesAdd(a, s, w);
      EntriesAdd(b, s, w);
      EntriesSame(a, b, s - {w});
    }
  }

  /** The terms with the given target. */
  ghost function Group(words: Words, f: string, k: string): set<string> {
    set w | w in words && Target(f, w, |words[w]|) == k
  }

  /** The terms whose target is among the given ones. */
  ghost function Groups(words: Words, f: string, ks: set<string>): set<string> {
    set w | w in words && Target(f, w, |words[w]|) in ks
  }

  /** The table of sums when the terms in `todo` are still to be counted. */
  ghost predicate SumsOk(words: Words, f: string, todo: set<string>, sums: map<string, nat>) {
    forall k :: SumOk(words, f, todo, sums, k)
  }

  ghost predicate SumOk(words: Words, f: string, todo: set<string>, sums: map<string, nat>, k: string) {
    var s := Group(words, f, k) - todo;
    (k in sums <==> s != {}) && (k in sums ==> sums[k] == Entries(words, s))
  }

  lemma SumsStep(words: Words, f: string, todo: set<string>, sums: map<string, nat>, w: string)
    requires w in todo && todo <= words.Keys && SumsOk(words, f, todo, sums)
    ensures var nsig, size := Target(f, w, |words[w]|), |words[w]|;
            SumsOk(words, f, todo - {w}, sums[nsig := if nsig in sums then sums[nsig] + size else size])
  {
    var nsig, size := Target(f, w, |words[w]|), |words[w]|;
    var sums' := sums[nsig := if nsig in sums then sums[nsig] + size else size];
    forall k
      ensures SumOk(words, f, todo - {w}, sums', k)
    {
      assert SumOk(words, f, todo, sums, k);
      var s, s' := Group(words, f, k) - todo, Group(words, f, k) - (todo - {w});
      if k == nsig {
        EntriesAdd(words, s', w);
        assert s' - {w} == s;
      } else {
        assert s' == s;
      }
    }
  }

  lemma NothingCounted(words: Words, f: string)
    ensures SumsOk(words, f, words.Keys, map[])
    ensures words.Keys - words.Keys == {} && Entries(words, {}) == 0
  {
  }

  /** The two counters of the first loop: all entries, and the entries of each target. */
  method CountEntries(words: Words, f: string) returns (total: nat, sums: map<string, nat>)
    ensures total == Entries(words, words.Keys)
    ensures SumsOk(words, f, {}, sums)
  {
    hide Entries, SumsOk, Target;
    total, sums := 0, map[];
    var todo := words.Keys;
    NothingCounted(words, f);
    while todo != {}
      invariant todo <= words.Keys
      invariant total == Entries(words, words.Keys - todo)
      invariant SumsOk(words, f, todo, sums)
      decreases |todo|
    {
      var w :| w in todo;
      var size := |words[w]|;
      var nsig := Target(f, w, size);
      SumsStep(words, f, todo, sums, w);
      EntriesAdd(words, words.Keys - (todo - {w}), w);
      assert words.Keys - (todo - {w}) - {w} == words.Keys - todo;
      total := total + size;
      sums := sums[nsig := if nsig in sums then sums[nsig] + size else size];
      todo := todo - {w};
    }
    assert words.Keys - {} == words.Keys;
  }

  /** A non-empty table of sums has a largest one. */
  lemma {:induction false} MaxExists(sums: map<string, nat>) returns (m: string)
    requires sums != map[]
    ensures m in sums && forall k :: k in sums ==> sums[k] <= sums[m]
    decreases |sums|
  {
    var k :| k in sums;
    var rest := sums - {k};
    assert sums.Keys == rest.Keys + {k};
    if rest == map[] {
      m := k;
    } else {
      m := MaxExists(rest);
      if sums[m] < sums[k] { m := k; }
    }
  }

  lemma {:induction false} PositiveEntries(words: Words, s: set<string>) returns (w: string)
    requires s <= words.Keys && Entries(words, s) > 0
    ensures w in s && words[w] != {}
    decreases s
  {
    w :| w in s;
    EntriesAdd(words, s, w);
    if words[w] == {} {
      w := PositiveEntries(words, s - {w});
    }
  }
}
