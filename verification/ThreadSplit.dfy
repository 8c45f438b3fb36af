/** What `unthread_message` does to the thread columns (mailpile/search.py:695-710, 1013-1114). */
module ThreadSplit {
  import opened Wrappers
  import opened Base36
  import opened ThreadTable

  /** The part of `edit_msg_info` that unthreading uses. */
  function EditInfo(i: Info, subject: Option<string>, replies: Option<seq<nat>>,
                    parent: Option<nat>, thread: Option<nat>): (r: Info)
    ensures r.msgId == i.msgId
  {
    var i := if subject.Some? then i.(subject := subject.value) else i;
    var i := if replies.None? then i else i.(replies := if |replies.value| > 1 then replies.value else []);
    if parent.None? && thread.None? then i
    else
      var thr := if thread.Some? then thread.value else i.root;
      var par: int := if parent.Some? then parent.value else i.ParentKey();
      i.(root := thr, tail := if par == thr then Top else if par < 0 then Cut else Under(par))
  }

  /** Which messages of a thread answer which message. */
  type Kids = map<int, seq<nat>>

  ghost predicate IsPath(hk: Kids, path: seq<nat>) {
    |path| > 0 && forall i :: 0 <= i < |path| - 1 ==> path[i] in hk && path[i + 1] in hk[path[i]]
  }

  ghost predicate PathFromTo(hk: Kids, path: seq<nat>, a: nat, b: nat) {
    IsPath(hk, path) && path[0] == a && path[|path| - 1] == b
  }

  ghost predicate Reaches(hk: Kids, a: nat, b: nat) {
    exists path :: PathFromTo(hk, path, a, b)
  }

  lemma ReachesSelf(hk: Kids, a: nat)
    ensures Reaches(hk, a, a)
  {
    assert PathFromTo(hk, [a], a, a);
  }

  lemma ReachesStep(hk: Kids, a: nat, b: nat, c: nat)
    requires Reaches(hk, a, b) && b in hk && c in hk[b]
    ensures Reaches(hk, a, c)
  {
    var path :| PathFromTo(hk, path, a, b);
    assert PathFromTo(hk, path + [c], a, c);
  }

  /** A set that holds the start and is closed under kids holds everything reachable. */
  lemma {:induction false} ClosedHoldsPath(hk: Kids, s: set<nat>, path: seq<nat>)
    requires IsPath(hk, path) && path[0] in s
    requires forall a, b :: a in s && a in hk && b in hk[a] ==> b in s
    ensures path[|path| - 1] in s
    decreases |path|
  {
    if |path| <= 1 {
    } else {
      assert path[1] in hk[path[0]];
      ClosedHoldsPath(hk, s, path[1..]);
    }
  }

  lemma ReachesTransitive(hk: Kids, a: nat, b: nat, c: nat)
    requires Reaches(hk, a, b) && Reaches(hk, b, c)
    ensures Reaches(hk, a, c)
  {
    var p :| PathFromTo(hk, p, a, b);
    var q :| PathFromTo(hk, q, b, c);
    var r := p + q[1..];
    forall i | 0 <= i < |r| - 1
      ensures r[i] in hk && r[i + 1] in hk[r[i]]
    {
      if i >= |p| - 1 {
        assert r[i] == q[i - |p| + 1] && r[i + 1] == q[i - |p| + 2];
      }
    }
    assert PathFromTo(hk, r, a, c);
  }

  /** The members of the list whose parent key is k, in list order. */
  function KidList(t: Table, list: seq<nat>, k: int): (kids: seq<nat>)
    requires AllBelow(list, |t|)
    ensures forall x: nat :: x in kids <==> x in list && t[x].ParentKey() == k
  {
    if list == [] then []
    else
      var init, last := list[..|list| - 1], list[|list| - 1];
      assert list == init + [last];
      if t[last].ParentKey() == k then KidList(t, init, k) + [last] else KidList(t, init, k)
  }

  lemma {:induction false} KidListNoDup(t: Table, list: seq<nat>, k: int)
    requires AllBelow(list, |t|) && NoDup(list)
    ensures NoDup(KidList(t, list, k))
  {
    if list == [] {
    } else {
      var init, last := list[..|list| - 1], list[|list| - 1];
      KidListNoDup(t, init, k);
      assert last !in init;
    }
  }

  /** The map that the code builds from the list of a thread. */
  ghost predicate KidsOf(t: Table, list: seq<nat>, hk: Kids)
    requires AllBelow(list, |t|)
  {
    && (forall k :: k in hk ==> hk[k] == KidList(t, list, k))
    && (forall k :: k !in hk ==> KidList(t, list, k) == [])
  }

  /** The members that the messages of `part` list and that stay behind. */
  ghost function MembersLeft(t: Table, part: seq<nat>, family: seq<nat>): set<nat>
    requires AllBelow(part, |t|)
  {
    set x, o | x in part && o in t[x].replies && o !in family :: o
  }

  /** The roots of the messages of `part` that stay behind. */
  ghost function RootsLeft(t: Table, part: seq<nat>, family: seq<nat>): set<nat>
    requires AllBelow(part, |t|)
  {
    set x | x in part && t[x].root !in family :: t[x].root
  }

  lemma LeftStep(t: Table, part: seq<nat>, x: nat, family: seq<nat>)
    requires AllBelow(part, |t|) && x < |t|
    ensures MembersLeft(t, part + [x], family)
            == MembersLeft(t, part, family) + set o | o in t[x].replies && o !in family
    ensures RootsLeft(t, part + [x], family)
            == RootsLeft(t, part, family) + if t[x].root in family then {} else {t[x].root}
  {
    forall r: nat
      ensures r in RootsLeft(t, part + [x], family) <==>
              r in RootsLeft(t, part, family) || (r == t[x].root && r !in family)
    {
      if r == t[x].root && r !in family {
        assert x in part + [x];
      }
      if r in RootsLeft(t, part, family) {
        var y: nat :| y in part && t[y].root !in family && t[y].root == r;
        assert y in part + [x];
      }
    }
    forall o: nat
      ensures o in MembersLeft(t, part + [x], family) <==>
              o in MembersLeft(t, part, family) || (o in t[x].replies && o !in family)
    {
      if o in t[x].replies && o !in family {
        assert x in part + [x];
      }
      if o in MembersLeft(t, part, family) {
        var y: nat :| y in part && o in t[y].replies;
        assert y in part + [x];
      }
    }
  }

  /** The other members of threads whose root is torn away. */
  ghost function Orphans(t: Table, family: seq<nat>): set<nat>
    requires AllBelow(family, |t|)
  {
    MembersLeft(t, family, family)
  }

  ghost function OldRoots(t: Table, family: seq<nat>): set<nat>
    requires AllBelow(family, |t|)
  {
    RootsLeft(t, family, family)
  }

  function Without(list: seq<nat>, family: seq<nat>): (rest: seq<nat>)
    ensures forall x :: x in rest <==> x in list && x !in family
    ensures NoDup(list) ==> NoDup(rest)
  {
    if list == [] then []
    else
      var init, last := list[..|list| - 1], list[|list| - 1];
      assert list == init + [last];
      assert NoDup(list) ==> last !in init && NoDup(init);
      if last in family then Without(init, family) else Without(init, family) + [last]
  }

  /** The line of a member of the family in its new thread. */
  function FamilyInfo(i: Info, p: nat, family: seq<nat>, subject: Option<string>, x: nat): (r: Info)
    ensures r.msgId == i.msgId
  {
    EditInfo(i, subject, Some(if x == p then family else []), if x == p then Some(p) else None, Some(p))
  }

  /** The line of x after a family was given a thread of its own. */
  ghost function SplitInfo(t: Table, p: nat, family: seq<nat>, subject: Option<string>, orphans: seq<nat>, x: nat): Info
    requires AllBelow(family, |t|) && x < |t|
  {
    if x in family then
      FamilyInfo(t[x], p, family, subject, x)
    else if x in orphans then
      EditInfo(t[x], None, if x == orphans[0] then Some(orphans) else None, None, Some(orphans[0]))
    else if x in OldRoots(t, family) then
      EditInfo(t[x], None, Some(Without(t[x].replies, family)), None, None)
    else t[x]
  }

  ghost predicate Split(t: Table, t': Table, p: nat, family: seq<nat>, subject: Option<string>, orphans: seq<nat>)
    requires AllBelow(family, |t|)
  {
    && |t'| == |t|
    && SortedListOf(orphans, Orphans(t, family))
    && forall x :: 0 <= x < |t| ==> t'[x] == SplitInfo(t, p, family, subject, orphans, x)
  }

  ghost predicate Family(t: Table, p: nat, family: seq<nat>) {
    AllBelow(family, |t|) && NoDup(family) && p in family
  }

  lemma OrphansMean(t: Table, family: seq<nat>, x: nat)
    requires Valid(t) && AllBelow(family, |t|)
    ensures x in Orphans(t, family) <==> x < |t| && x !in family && t[x].root in family
    ensures x in Orphans(t, family) ==> t[x].root != x && t[x].replies == []
  {
    if x in Orphans(t, family) {
      var y: nat :| y in family && x in t[y].replies;
      ListedMembers(t, y, x);
    }
  }

  /** The root of every message after a split. */
  lemma SplitRoots(t: Table, t': Table, p: nat, family: seq<nat>, subject: Option<string>, orphans: seq<nat>, x: nat)
    requires Valid(t) && Family(t, p, family) && Split(t, t', p, family, subject, orphans) && x < |t|
    ensures t'[x].root ==
            if x in family then p else if t[x].root in family then orphans[0] else t[x].root
    ensures x !in family && t[x].root in family ==> x in orphans
  {
    OrphansMean(t, family, x);
  }

  /** Which messages name r as their root after a split. */
  lemma SplitMembers(t: Table, t': Table, p: nat, family: seq<nat>, subject: Option<string>, orphans: seq<nat>,
                     r: nat, x: nat)
    requires Valid(t) && Family(t, p, family) && Split(t, t', p, family, subject, orphans) && r < |t| && x < |t|
    ensures t'[x].root == r <==>
            if r == p then x in family
            else if r in orphans && r == orphans[0] then x in orphans
            else t[x].root == r && r !in family && x !in family
  {
    OrphansMean(t, family, r);
    OrphansMean(t, family, x);
    SplitRoots(t, t', p, family, subject, orphans, x);
    if t[x].root in family && x !in family {
      OrphansMean(t, family, orphans[0]);
    }
  }

  lemma NewThreadListed(t: Table, t': Table, p: nat, family: seq<nat>, subject: Option<string>, orphans: seq<nat>)
    requires Valid(t) && Family(t, p, family) && Split(t, t', p, family, subject, orphans)
    ensures p < |t'| && Listed(t', p)
  {
    if |family| <= 1 { SmallList(family, p); }
    forall x: nat | x < |t|
      ensures t'[x].root == p <==> x in family
    {
      SplitMembers(t, t', p, family, subject, orphans, p, x);
    }
    assert forall x: nat :: x in family ==> x < |t|;
    assert t'[p].replies == if |family| > 1 then family else [];
  }

  lemma OrphansListed(t: Table, t': Table, p: nat, family: seq<nat>, subject: Option<string>, orphans: seq<nat>)
    requires Valid(t) && Family(t, p, family) && Split(t, t', p, family, subject, orphans) && orphans != []
    ensures orphans[0] < |t'| && Listed(t', orphans[0])
  {
    var r := orphans[0];
    assert r in orphans;
    OrphansMean(t, family, r);
    if |orphans| <= 1 { SmallList(orphans, r); }
    forall x: nat | x < |t|
      ensures t'[x].root == r <==> x in orphans
    {
      SplitMembers(t, t', p, family, subject, orphans, r, x);
    }
    forall x: nat | x in orphans
      ensures x < |t|
    {
      OrphansMean(t, family, x);
    }
    assert t'[r].replies == if |orphans| > 1 then orphans else [];
  }

  lemma OldRootListed(t: Table, t': Table, p: nat, family: seq<nat>, subject: Option<string>, orphans: seq<nat>, r: nat)
    requires Valid(t) && Family(t, p, family) && Split(t, t', p, family, subject, orphans)
    requires r < |t| && t[r].root == r && r !in family && r !in orphans
    ensures Listed(t', r)
  {
    forall x: nat | x < |t|
      ensures t'[x].root == r <==> t[x].root == r && x !in family
    {
      SplitMembers(t, t', p, family, subject, orphans, r, x);
    }
    if r in OldRoots(t, family) {
      var rest := Without(t[r].replies, family);
      if |rest| <= 1 { SmallList(rest, r); }
      assert t'[r].replies == if |rest| > 1 then rest else [];
    } else {
      assert forall x: nat :: x < |t| && x in family ==> t[x].root != r;
      assert t'[r] == t[r] && Listed(t, r);
    }
  }

  lemma SplitListed(t: Table, t': Table, p: nat, family: seq<nat>, subject: Option<string>, orphans: seq<nat>, r: nat)
    requires Valid(t) && Family(t, p, family) && Split(t, t', p, family, subject, orphans) && r < |t|
    ensures if t'[r].root == r then Listed(t', r) else t'[r].replies == []
  {
    OrphansMean(t, family, r);
    SplitRoots(t, t', p, family, subject, orphans, r);
    if r == p {
      NewThreadListed(t, t', p, family, subject, orphans);
    } else if r in orphans {
      if r == orphans[0] {
        OrphansListed(t, t', p, family, subject, orphans);
      }
    } else if r !in family && t[r].root == r {
      OldRootListed(t, t', p, family, subject, orphans, r);
    }
  }

  /** A list of at most one element that holds r holds nothing else. */
  lemma SmallList(list: seq<nat>, r: nat)
    requires r in list && |list| <= 1
    ensures list == [r]
  {
  }

  /** Whatever family is cut loose, well-formed threads stay well formed. */
  lemma SplitKeepsValid(t: Table, t': Table, p: nat, family: seq<nat>, subject: Option<string>, orphans: seq<nat>)
    requires Valid(t) && Family(t, p, family) && Split(t, t', p, family, subject, orphans)
    ensures Valid(t')
  {
    forall x: nat | x < |t|
      ensures t'[x].root < |t| && t'[t'[x].root].root == t'[x].root
    {
      SplitRoots(t, t', p, family, subject, orphans, x);
      OrphansMean(t, family, x);
      var r := t'[x].root;
      if x !in family && t[x].root in family {
        OrphansMean(t, family, r);
      }
      SplitRoots(t, t', p, family, subject, orphans, r);
    }
    forall r: nat | r < |t'|
      ensures if t'[r].root == r then Listed(t', r) else t'[r].replies == []
    {
      SplitListed(t, t', p, family, subject, orphans, r);
    }
  }

  /** Unthreading never leaves a mark "/-" on a message that had none. */
  lemma SplitKeepsNoCuts(t: Table, t': Table, p: nat, family: seq<nat>, subject: Option<string>, orphans: seq<nat>)
    requires Family(t, p, family) && Split(t, t', p, family, subject, orphans) && NoCuts(t)
    ensures NoCuts(t')
  {
    hide OldRoots;
    forall x: nat | x < |t'|
      ensures !t'[x].tail.Cut?
    {
      assert !t[x].tail.Cut? && t'[x] == SplitInfo(t, p, family, subject, orphans, x);
    }
  }

  /** The message that is cut loose becomes its own parent. Every other message answers whom it answered, and all
      keep their IDs; a given subject goes to the family alone. */
  ghost predicate KeepsParents(t: Table, t': Table, p: nat, family: seq<nat>, subject: Option<string>) {
    && |t'| == |t|
    && forall x: nat :: x < |t| ==>
         && t'[x].msgId == t[x].msgId
         && t'[x].ParentKey() == (if x == p then p else t[x].ParentKey())
         && t'[x].subject == if x in family && subject.Some? then subject.value else t[x].subject
  }

  /** Once the first n kids are cut loose, each is its own parent. */
  ghost predicate KidsLoose(t: Table, u: Table, kids: seq<nat>, n: nat)
    requires n <= |kids|
  {
    && |u| == |t|
    && forall x: nat :: x < |t| ==>
         && u[x].msgId == t[x].msgId && u[x].subject == t[x].subject
         && u[x].ParentKey() == if x in kids[..n] then x else t[x].ParentKey()
  }

  lemma NextKidLoose(t: Table, u: Table, u': Table, kids: seq<nat>, n: nat, family: seq<nat>)
    requires n < |kids| && KidsLoose(t, u, kids, n) && KeepsParents(u, u', kids[n], family, None)
    ensures KidsLoose(t, u', kids, n + 1)
  {
    assert kids[..n + 1] == kids[..n] + [kids[n]];
  }

  lemma SplitKeepsParents(t: Table, t': Table, p: nat, family: seq<nat>, subject: Option<string>, orphans: seq<nat>)
    requires Family(t, p, family) && Split(t, t', p, family, subject, orphans)
    ensures KeepsParents(t, t', p, family, subject)
  {
    forall x: nat | x < |t|
      ensures t'[x].msgId == t[x].msgId
      ensures t'[x].ParentKey() == if x == p then p else t[x].ParentKey()
      ensures t'[x].subject == if x in family && subject.Some? then subject.value else t[x].subject
    {
      SplitInfoColumns(t, p, family, subject, orphans, x);
    }
  }

  lemma SplitInfoColumns(t: Table, p: nat, family: seq<nat>, subject: Option<string>, orphans: seq<nat>, x: nat)
    requires AllBelow(family, |t|) && p in family && x < |t|
    ensures var i := SplitInfo(t, p, family, subject, orphans, x);
            && i.msgId == t[x].msgId
            && i.ParentKey() == (if x == p then p else t[x].ParentKey())
            && i.subject == if x in family && subject.Some? then subject.value else t[x].subject
  {
    hide OldRoots, Without, AllBelow;
  }

  /** Of the table t, only the thread of the given root was touched, and it stayed among its messages. */
  ghost predicate Confined(t: Table, u: Table, root: nat) {
    && |u| == |t|
    && forall x :: 0 <= x < |t| ==>
         if t[x].root == root then u[x].root < |t| && t[u[x].root].root == root else u[x] == t[x]
  }

  /** Cutting a family of the thread loose touches nothing outside of it. */
  lemma SplitStaysIn(t: Table, u: Table, u': Table, root: nat, p: nat, family: seq<nat>,
                     subject: Option<string>, orphans: seq<nat>)
    requires Valid(t) && Valid(u) && Confined(t, u, root) && Family(u, p, family)
    requires forall x: nat :: x in family ==> t[x].root == root
    requires Split(u, u', p, family, subject, orphans)
    ensures Confined(t, u', root)
  {
    forall x: nat | x < |t|
      ensures if t[x].root == root then u'[x].root < |t| && t[u'[x].root].root == root else u'[x] == t[x]
    {
      SplitRoots(u, u', p, family, subject, orphans, x);
      assert forall o: nat :: o in orphans ==> o in Orphans(u, family);
      if t[x].root != root {
        NotInFamily(t, u, root, family, x);
      } else if x in orphans {
        assert orphans[0] in orphans;
        OrphansMean(u, family, orphans[0]);
        if t[orphans[0]].root != root {
          NotInFamily(t, u, root, family, orphans[0]);
        }
      }
    }
  }

  lemma NotInFamily(t: Table, u: Table, root: nat, family: seq<nat>, x: nat)
    requires Valid(t) && Valid(u) && Confined(t, u, root) && AllBelow(family, |u|)
    requires forall f: nat :: f in family ==> t[f].root == root
    requires x < |t| && t[x].root != root
    ensures x !in family && x !in Orphans(u, family) && x !in OldRoots(u, family)
  {
    OrphansMean(u, family, x);
  }

  /** Message x answers m, or answers an answer to m, and so on, inside the thread of m. */
  ghost predicate Descends(t: Table, m: nat, x: nat)
    requires m < |t|
  {
    exists path: seq<nat> :: AnswersDown(t, t[m].root, path) && path[0] == m && path[|path| - 1] == x
  }

  ghost predicate AnswersDown(t: Table, r: nat, path: seq<nat>) {
    && |path| > 0
    && AllBelow(path, |t|)
    && forall i :: 0 < i < |path| ==> t[path[i]].root == r && t[path[i]].ParentKey() == path[i - 1]
  }

  /** Reachability in the map of kids is being a reply-descendant. */
  lemma ReachesIsDescends(t: Table, m: nat, hk: Kids, x: nat)
    requires Valid(t) && m < |t| && AllBelow(t[t[m].root].replies, |t|)
    requires KidsOf(t, t[t[m].root].replies, hk)
    ensures Reaches(hk, m, x) <==> Descends(t, m, x)
  {
    var r := t[m].root;
    var list := t[r].replies;
    if Reaches(hk, m, x) {
      var path :| PathFromTo(hk, path, m, x);
      forall i | 0 < i < |path|
        ensures path[i] in list && t[path[i]].ParentKey() == path[i - 1]
      {
        assert path[i - 1 + 1] in hk[path[i - 1]];
      }
      assert AnswersDown(t, r, path);
    }
    if Descends(t, m, x) {
      if list == [] {
        ReachesSelf(hk, m);
      } else {
        var path: seq<nat> :| AnswersDown(t, r, path) && path[0] == m && path[|path| - 1] == x;
        forall i | 0 <= i < |path| - 1
          ensures path[i] in hk && path[i + 1] in hk[path[i]]
        {
          assert path[i + 1] in KidList(t, list, path[i]);
        }
        assert PathFromTo(hk, path, m, x);
      }
    }
  }

  /** What answers a reply-descendant in the same thread is one, too. */
  lemma {:induction false} DescentStays(t: Table, m: nat, path: seq<nat>)
    requires m < |t| && AnswersDown(t, t[m].root, path) && Descends(t, m, path[0])
    ensures forall i :: 0 <= i < |path| ==> Descends(t, m, path[i])
    decreases |path|
  {
    if |path| > 1 {
      var up: seq<nat> :| AnswersDown(t, t[m].root, up) && up[0] == m && up[|up| - 1] == path[0];
      var longer := up + [path[1]];
      assert AnswersDown(t, t[m].root, longer) && longer[0] == m && longer[|longer| - 1] == path[1];
      var rest := path[1..];
      DescentStays(t, m, rest);
      forall i | 0 <= i < |path|
        ensures Descends(t, m, path[i])
      {
        assert i > 0 ==> path[i] == rest[i - 1];
      }
    }
  }

  /** Everything in the new thread descends from the message that was cut loose. */
  lemma {:induction false} FamilyDescends(t: Table, t': Table, p: nat, family: seq<nat>, path: seq<nat>)
    requires p < |t| && |t'| == |t| && AnswersDown(t, t[p].root, path) && path[0] == p
    requires forall x: nat :: x in family <==> Descends(t, p, x)
    requires forall x: nat :: x < |t| && x in family ==> t'[x].root == p
    requires forall x: nat :: x < |t| && x != p ==> t'[x].ParentKey() == t[x].ParentKey()
    ensures Descends(t', p, path[|path| - 1])
    decreases |path|
  {
    assert AnswersDown(t, t[p].root, [p]);
    if i: nat :| 0 < i < |path| && path[i] == p {
      var rest := path[i..];
      assert AnswersDown(t, t[p].root, rest) && rest[|rest| - 1] == path[|path| - 1];
      FamilyDescends(t, t', p, family, rest);
    } else {
      DescentStays(t, p, path);
      assert AnswersDown(t', p, path);
    }
  }

  /** A way down that starts at another member of the family never comes to p in the new thread, and is the same
      before and after. */
  lemma SameWayDown(t: Table, t': Table, p: nat, family: seq<nat>, path: seq<nat>)
    requires p < |t| && |t'| == |t| && |path| > 0 && AllBelow(path, |t|) && path[0] in family && path[0] != p
    requires forall x: nat :: x in family <==> Descends(t, p, x)
    requires forall x: nat :: x < |t| ==> (t'[x].root == p <==> x in family)
    requires forall x: nat :: x < |t| ==> t'[x].ParentKey() == if x == p then p else t[x].ParentKey()
    ensures AnswersDown(t', p, path) <==> AnswersDown(t, t[p].root, path) && p !in path
  {
    if AnswersDown(t', p, path) {
      forall i | 0 <= i < |path|
        ensures path[i] in family && path[i] != p && (i > 0 ==> t[path[i]].root == t[p].root)
      {
        NeverBack(t', p, path, i);
        if i > 0 && !(t[path[i]].root == t[p].root) {
          InThread(t, p, path[i]);
        }
      }
    }
    if AnswersDown(t, t[p].root, path) && p !in path {
      DescentStays(t, p, path);
    }
  }

  lemma InThread(t: Table, p: nat, x: nat)
    requires p < |t| && Descends(t, p, x)
    ensures x < |t| && t[x].root == t[p].root
  {
  }

  lemma {:induction false} NeverBack(t: Table, p: nat, path: seq<nat>, i: nat)
    requires p < |t| && AnswersDown(t, p, path) && path[0] != p && i < |path| && t[p].ParentKey() == p
    ensures path[i] != p
  {
    if i > 0 {
      NeverBack(t, p, path, i - 1);
    }
  }

  /** Who answers whom inside the new thread: everybody descends from the message that was cut loose, and between
      other members nothing changes, unless that message descended from them. */
  lemma NewThreadKeepsAnswers(t: Table, t': Table, p: nat, family: seq<nat>, subject: Option<string>, orphans: seq<nat>,
                              x: nat, y: nat)
    requires Valid(t) && Family(t, p, family) && Split(t, t', p, family, subject, orphans)
    requires forall z: nat :: z in family <==> Descends(t, p, z)
    requires x in family && y in family
    ensures Descends(t', p, y)
    ensures x != p && !Descends(t, x, p) ==> (Descends(t', x, y) <==> Descends(t, x, y))
    ensures x != p ==> !Descends(t', x, p)
  {
    SplitKeepsParents(t, t', p, family, subject, orphans);
    NewRoots(t, t', p, family, subject, orphans);
    InThread(t, p, x);
    var down: seq<nat> :| AnswersDown(t, t[p].root, down) && down[0] == p && down[|down| - 1] == y;
    FamilyDescends(t, t', p, family, down);
    if x != p {
      hide Valid, Split, Family;
      OthersKeepAnswers(t, t', p, family, x, y);
    }
  }

  lemma OthersKeepAnswers(t: Table, t': Table, p: nat, family: seq<nat>, x: nat, y: nat)
    requires p < |t| && |t'| == |t| && x < |t| && t[x].root == t[p].root && x in family && x != p
    requires forall z: nat :: z in family <==> Descends(t, p, z)
    requires forall z: nat :: z < |t| ==> (t'[z].root == p <==> z in family)
    requires forall z: nat :: z < |t| ==> t'[z].ParentKey() == if z == p then p else t[z].ParentKey()
    requires t'[p].root == p
    ensures !Descends(t, x, p) ==> (Descends(t', x, y) <==> Descends(t, x, y))
    ensures !Descends(t', x, p)
  {
    if Descends(t', x, p) {
      var path: seq<nat> :| AnswersDown(t', p, path) && path[0] == x && path[|path| - 1] == p;
      NeverBack(t', p, path, |path| - 1);
    }
    if Descends(t', x, y) {
      var path: seq<nat> :| AnswersDown(t', p, path) && path[0] == x && path[|path| - 1] == y;
      SameWayDown(t, t', p, family, path);
    }
    if Descends(t, x, y) && !Descends(t, x, p) {
      var path: seq<nat> :| AnswersDown(t, t[p].root, path) && path[0] == x && path[|path| - 1] == y;
      NotOnTheWay(t, x, p, path);
      SameWayDown(t, t', p, family, path);
    }
  }

  lemma NewRoots(t: Table, t': Table, p: nat, family: seq<nat>, subject: Option<string>, orphans: seq<nat>)
    requires Valid(t) && Family(t, p, family) && Split(t, t', p, family, subject, orphans)
    ensures p < |t| && |t'| == |t|
    ensures forall x: nat :: x < |t| ==> (t'[x].root == p <==> x in family)
  {
    forall x: nat | x < |t|
      ensures t'[x].root == p <==> x in family
    {
      SplitMembers(t, t', p, family, subject, orphans, p, x);
    }
  }

  lemma NotOnTheWay(t: Table, x: nat, p: nat, path: seq<nat>)
    requires x < |t| && AnswersDown(t, t[x].root, path) && path[0] == x && !Descends(t, x, p)
    ensures p !in path
  {
    forall i: nat | i < |path|
      ensures path[i] != p
    {
      var part := path[..i + 1];
      assert AnswersDown(t, t[x].root, part) && part[0] == x && part[|part| - 1] == path[i];
      assert Descends(t, x, path[i]);
    }
  }

  /** A message that is its own parent is a reply-descendant of itself alone. */
  lemma {:induction false} OwnParentDescendsFromNone(t: Table, m: nat, x: nat, path: seq<nat>)
    requires m < |t| && x < |t| && t[x].ParentKey() == x
    requires AnswersDown(t, t[m].root, path) && path[0] == m && path[|path| - 1] == x
    ensures m == x
    decreases |path|
  {
    if |path| <= 1 {
    } else {
      var init := path[..|path| - 1];
      assert path[|path| - 2] == x;
      OwnParentDescendsFromNone(t, m, x, init);
    }
  }

  /** The ordinary case: the root is its own parent, so cutting another message loose leaves two
      threads, its reply-descendants and the rest, and touches no other thread. */
  lemma SplitIsTwoThreads(t: Table, t': Table, m: nat, family: seq<nat>, subject: Option<string>, orphans: seq<nat>)
    requires Valid(t) && Family(t, m, family) && Split(t, t', m, family, subject, orphans)
    requires forall x: nat :: x in family <==> Descends(t, m, x)
    requires t[t[m].root].ParentKey() == t[m].root && m != t[m].root
    ensures orphans == []
    ensures Thread(t', m) == set x | 0 <= x < |t| && Descends(t, m, x)
    ensures Thread(t', t[m].root) == Thread(t, t[m].root) - Thread(t', m)
    ensures forall x :: 0 <= x < |t| && t[x].root != t[m].root ==> t'[x] == t[x]
  {
    var r := t[m].root;
    RootStaysBehind(t, m, family);
    hide Descends, Valid;
    forall x: nat | x < |t|
      ensures x !in orphans
      ensures t'[x].root == if x in family then m else t[x].root
      ensures t[x].root != r ==> t'[x] == t[x]
    {
      OrphansMean(t, family, x);
      SplitRoots(t, t', m, family, subject, orphans, x);
    }
    if orphans != [] {
      OrphansMean(t, family, orphans[0]);
    }
  }

  /** The root is its own parent, so that it is not among the reply-descendants of another message. */
  lemma RootStaysBehind(t: Table, m: nat, family: seq<nat>)
    requires Valid(t) && m < |t| && m != t[m].root && t[t[m].root].ParentKey() == t[m].root
    requires forall x: nat :: x in family <==> Descends(t, m, x)
    ensures t[m].root !in family && forall x: nat :: x < |t| && x in family ==> t[x].root == t[m].root
  {
    var r := t[m].root;
    if r in family {
      var path: seq<nat> :| AnswersDown(t, r, path) && path[0] == m && path[|path| - 1] == r;
      OwnParentDescendsFromNone(t, m, r, path);
    }
    forall x: nat | x < |t| && x in family
      ensures t[x].root == r
    {
      assert Descends(t, m, x);
    }
  }

  /** Among the messages that answer m, where m is its own parent, only m itself leads to another. */
  lemma KidDescends(t: Table, m: nat, a: nat, b: nat)
    requires m < |t| && a < |t| && b < |t| && t[a].root == t[b].root == t[m].root
    requires t[m].ParentKey() == m && t[a].ParentKey() == m && t[b].ParentKey() == m
    ensures Descends(t, a, b) <==> a == b || a == m
  {
    if a == b {
      assert AnswersDown(t, t[a].root, [a]);
    } else if a == m {
      assert AnswersDown(t, t[a].root, [a, b]);
    } else if Descends(t, a, b) {
      var path: seq<nat> :| AnswersDown(t, t[a].root, path) && path[0] == a && path[|path| - 1] == b;
      var init := path[..|path| - 1];
      assert init[|init| - 1] == m;
      OwnParentDescendsFromNone(t, a, m, init);
    }
  }

  /** Thread x is last cut loose with kid j, of the first n kids. */
  ghost predicate LastCutWith(t: Table, kids: seq<nat>, n: nat, x: nat, j: nat)
    requires AllBelow(kids, |t|) && n <= |kids|
  {
    j < n && Descends(t, kids[j], x) && forall l :: j < l < n ==> !Descends(t, kids[l], x)
  }

  /** Cutting the next kid loose moves its descendants, and disturbs no family cut loose before
      that is not among them. */
  lemma NextKid(t: Table, u: Table, u': Table, root: nat, hk: Kids, kids: seq<nat>, n: nat,
                family: seq<nat>, orphans: seq<nat>, x: nat, j: nat)
    requires Valid(t) && Valid(u) && |u| == |t| && root < |t| && AllBelow(t[root].replies, |t|)
    requires KidsOf(t, t[root].replies, hk)
    requires AllBelow(kids, |t|) && n < |kids| && x < |t|
    requires forall i :: 0 <= i < |kids| ==> t[kids[i]].root == root
    requires forall y: nat, i: nat :: y < |t| && i < |kids| && LastCutWith(t, kids, n, y, i) ==> u[y].root == kids[i]
    requires Family(u, kids[n], family) && Split(u, u', kids[n], family, None, orphans)
    requires forall y: nat :: y in family <==> Reaches(hk, kids[n], y)
    requires LastCutWith(t, kids, n + 1, x, j)
    ensures u'[x].root == kids[j]
  {
    hide Valid, KidsOf, Split, Family, Reaches, Descends, SortedListOf;
    ReachesIsDescends(t, kids[n], hk, x);
    assert x in family <==> j == n;
    SplitRoots(u, u', kids[n], family, None, orphans, x);
    if j < n {
      assert LastCutWith(t, kids, n, x, j) && u[x].root == kids[j];
      NotWithNext(t, root, hk, kids, n, family, x, j);
    }
  }

  /** If x descends from an earlier kid but not from the next one, neither does that kid. */
  lemma NotWithNext(t: Table, root: nat, hk: Kids, kids: seq<nat>, n: nat, family: seq<nat>, x: nat, j: nat)
    requires Valid(t) && root < |t| && AllBelow(t[root].replies, |t|) && KidsOf(t, t[root].replies, hk)
    requires AllBelow(kids, |t|) && n < |kids| && j < n && t[kids[j]].root == root
    requires forall y: nat :: y in family <==> Reaches(hk, kids[n], y)
    requires Descends(t, kids[j], x) && x !in family
    ensures kids[j] !in family
  {
    hide Valid, KidsOf, Reaches, Descends;
    ReachesIsDescends(t, kids[j], hk, x);
    if kids[j] in family {
      ReachesTransitive(hk, kids[n], kids[j], x);
    }
  }

  /** The comment in the code says that unthreading the root of a thread cuts all its kids loose.
      That holds for exactly those kids that come after the root in its own list. */
  lemma KidGetsOwnThread(t: Table, t': Table, m: nat, kids: seq<nat>, i: nat)
    requires Valid(t) && |t'| == |t| && m < |t| && t[m].ParentKey() == m
    requires AllBelow(t[t[m].root].replies, |t|) && kids == KidList(t, t[t[m].root].replies, m)
    requires AllBelow(kids, |t|) && i < |kids| && kids[i] != m && NoDup(kids)
    requires forall x: nat, j: nat :: x < |t| && j < |kids| && LastCutWith(t, kids, |kids|, x, j) ==>
               t'[x].root == kids[j]
    ensures t'[kids[i]].root == kids[i] <==> m in kids[..i]
  {
    forall j | 0 <= j < |kids|
      ensures Descends(t, kids[j], kids[i]) <==> kids[j] == kids[i] || kids[j] == m
    {
      assert kids[j] in kids && kids[i] in kids;
      KidDescends(t, m, kids[j], kids[i]);
    }
    assert kids[i] in kids;
    assert m in t[t[m].root].replies;
    var at: nat :| at < |kids| && kids[at] == m;
    if at < i {
      assert LastCutWith(t, kids, |kids|, kids[i], i);
      assert kids[..i][at] == m;
    } else {
      assert LastCutWith(t, kids, |kids|, kids[i], at);
    }
  }

  /** A thread whose root, message 1, came in after a reply to it. */
  function LateRoot(): Table {
    [Info("a", "", 1, Under(1), []), Info("b", "", 1, Top, [0, 1])]
  }

  lemma LateRootShape()
    ensures Valid(LateRoot()) && LateRoot()[1].ParentKey() == 1 && LateRoot()[1].root == 1
    ensures LateRoot()[1].replies == [0, 1] && AllBelow([0, 1], |LateRoot()|)
    ensures KidList(LateRoot(), LateRoot()[1].replies, 1) == [0, 1]
  {
    LateRootValid();
    hide Valid;
    LateRootKids(LateRoot());
  }

  lemma LateRootValid()
    ensures Valid(LateRoot())
  {
    hide KidList;
    assert LateRoot()[1].replies == [0, 1] && NoDup([0, 1]);
    assert forall x: nat :: x in [0, 1] <==> x < 2;
    assert Listed(LateRoot(), 1);
  }

  lemma LateRootKids(t: Table)
    requires |t| == 2 && t[0].ParentKey() == 1 && t[1].ParentKey() == 1
    ensures AllBelow([0, 1], |t|) && KidList(t, [0, 1], 1) == [0, 1]
  {
    assert [0, 1][..1] == [0] && [0][..0] == [];
    assert KidList(t, [], 1) == [];
    assert KidList(t, [0], 1) == [] + [0];
  }

  /** The comment in the code is wrong about it: whatever unthreading the root leaves, the reply is still part of
      another thread. */
  lemma EarlyKidStays(t': Table)
    requires |t'| == 2
    requires forall x: nat, j: nat :: x < 2 && j < 2 && LastCutWith(LateRoot(), [0, 1], 2, x, j) ==>
               t'[x].root == [0, 1][j]
    ensures KidList(LateRoot(), [0, 1], 1) == [0, 1] && t'[0].root != 0
  {
    var t, kids := LateRoot(), [0, 1];
    LateRootShape();
    hide *;
    assert |kids| == 2 && kids[0] == 0 && kids[..0] == [];
    assert |t| == 2 by { assert AllBelow([0, 1], |t|); }
    KidGetsOwnThread(t, t', 1, kids, 0);
  }
}
