/** What `set_conversation_ids` does to the thread columns, and when that keeps them well formed
    (mailpile/search.py:846-1011). */
module ThreadMerge {
  import opened Wrappers
  import opened Base36
  import opened ThreadTable

  predicate InRange(t: Table, msg: nat, refs: seq<nat>) {
    msg < |t| && AllBelow(refs, |t|)
  }

  /** Going back from position n, where the first considered reference is: the first one that
      carries "/-", or the very first. */
  function ConsideredFrom(t: Table, refs: seq<nat>, n: nat): (k: nat)
    requires AllBelow(refs, |t|) && n <= |refs|
    ensures k <= n && (n > 0 ==> k < n)
  {
    if n == 0 then 0
    else if t[refs[n - 1]].tail.Cut? || n == 1 then n - 1
    else ConsideredFrom(t, refs, n - 1)
  }

  /** Only the last "/-" mark counts: it hides what comes before it. */
  lemma {:induction false} ConsideredFromMeans(t: Table, refs: seq<nat>, n: nat, k: nat)
    requires AllBelow(refs, |t|) && 0 < n <= |refs|
    ensures k == ConsideredFrom(t, refs, n) <==>
            && k < n && (k == 0 || t[refs[k]].tail.Cut?)
            && forall j :: k < j < n ==> !t[refs[j]].tail.Cut?
  {
    if n == 1 || t[refs[n - 1]].tail.Cut? {
    } else {
      ConsideredFromMeans(t, refs, n - 1, k);
    }
  }

  /** The root that the merged conversation gets: that of the first considered reference. */
  function NewRoot(t: Table, msg: nat, refs: seq<nat>): (root: nat)
    requires InRange(t, msg, refs)
  {
    if refs == [] then msg else t[refs[ConsideredFrom(t, refs, |refs|)]].root
  }

  ghost function RootsOf(t: Table, refs: seq<nat>): set<nat>
    requires AllBelow(refs, |t|)
  {
    set r: nat | r in refs :: t[r].root
  }

  /** The conversations that are merged: those of the considered references, and the message. */
  ghost function Conversations(t: Table, msg: nat, refs: seq<nat>): (c: set<nat>)
    requires InRange(t, msg, refs)
  {
    RootsOf(t, refs[ConsideredFrom(t, refs, |refs|)..]) + {msg}
  }

  /** What the proofs below need to know about the conversations c and the new root. */
  ghost predicate Plan(t: Table, msg: nat, refs: seq<nat>, c: set<nat>, root: nat) {
    && InRange(t, msg, refs) && msg in c && root in c
    && (forall q: nat :: q in c ==> q < |t| && (q == msg || exists r: nat :: r in refs && t[r].root == q))
    && if refs == [] then root == msg else exists r: nat :: r in refs && t[r].root == root
  }

  lemma PlanOfRefs(t: Table, msg: nat, refs: seq<nat>)
    requires Valid(t) && InRange(t, msg, refs)
    ensures Plan(t, msg, refs, Conversations(t, msg, refs), NewRoot(t, msg, refs))
  {
    var k := ConsideredFrom(t, refs, |refs|);
    var c, root := Conversations(t, msg, refs), NewRoot(t, msg, refs);
    forall q: nat | q in c && q != msg
      ensures q < |t| && exists r: nat :: r in refs && t[r].root == q
    {
      var r: nat :| r in refs[k..] && t[r].root == q;
      assert r in refs;
    }
    if refs != [] {
      assert refs[k] in refs && refs[k] == refs[k..][0];
      assert refs[k] in refs[k..];
      assert root in RootsOf(t, refs[k..]);
    }
  }

  /** Is message x one of those moved to the new root? */
  ghost predicate Moved(t: Table, c: set<nat>, root: nat, x: nat)
    requires forall r: nat :: r in c ==> r < |t|
  {
    exists r: nat :: r in c && r != root && (x == r || x in t[r].replies)
  }

  ghost function MovedSet(t: Table, c: set<nat>, root: nat): set<nat>
    requires forall r: nat :: r in c ==> r < |t|
  {
    set x | 0 <= x < |t| && Moved(t, c, root, x)
  }

  /** The columns of x after it was moved, if it was, and after the message got its own thread ID. */
  ghost function Placed(t: Table, msg: nat, c: set<nat>, root: nat, parent: int, x: nat): Info
    requires x < |t| && forall r: nat :: r in c ==> r < |t|
  {
    var i := if x in MovedSet(t, c, root) then t[x].(root := root, replies := []) else t[x];
    if x != msg then i
    else i.(root := root, tail := if parent >= 0 && parent != root then Under(parent) else Top)
  }

  /** The old members of the new root, the moved messages, the message and all its references. */
  ghost function NewMembers(t: Table, msg: nat, refs: seq<nat>, c: set<nat>, root: nat): set<nat>
    requires root < |t| && forall r: nat :: r in c ==> r < |t|
  {
    Members(t[root].replies) + MovedSet(t, c, root) + {msg} + Members(refs)
  }

  /** The table after the call, in terms of the table before it. Only the list of the new root is
      not fixed by `Placed`: it is a sorted list. */
  ghost predicate MergedBy(t: Table, t': Table, msg: nat, refs: seq<nat>, c: set<nat>, root: nat, parent: int)
    requires Plan(t, msg, refs, c, root)
  {
    && |t'| == |t|
    && (forall x: nat :: x < |t| && (x != root || refs == []) ==> t'[x] == Placed(t, msg, c, root, parent, x))
    && (refs != [] ==>
          && t'[root] == Placed(t, msg, c, root, parent, root).(replies := t'[root].replies)
          && SortedListOf(t'[root].replies, NewMembers(t, msg, refs, c, root)))
  }

  ghost predicate Merged(t: Table, t': Table, msg: nat, refs: seq<nat>, parent: int)
    requires Valid(t) && InRange(t, msg, refs)
  {
    PlanOfRefs(t, msg, refs);
    MergedBy(t, t', msg, refs, Conversations(t, msg, refs), NewRoot(t, msg, refs), parent)
  }

  /** Merging leaves no new marks either. */
  lemma MergeKeepsNoCuts(t: Table, t': Table, msg: nat, refs: seq<nat>, parent: int)
    requires Valid(t) && InRange(t, msg, refs) && Merged(t, t', msg, refs, parent) && NoCuts(t)
    ensures NoCuts(t')
  {
    PlanOfRefs(t, msg, refs);
    hide Conversations, NewRoot, NewMembers, MovedSet, Valid, Plan;
  }

  /** The message is its own root or shares a thread with a considered reference, and so do the
      references that a "/-" mark hides. */
  ghost predicate ClosedIn(t: Table, msg: nat, refs: seq<nat>, c: set<nat>)
    requires InRange(t, msg, refs)
  {
    t[msg].root in c && forall r: nat :: r in refs ==> t[r].root in c
  }

  ghost predicate Closed(t: Table, msg: nat, refs: seq<nat>)
    requires InRange(t, msg, refs)
  {
    ClosedIn(t, msg, refs, Conversations(t, msg, refs))
  }

  ghost predicate NoMarks(t: Table, refs: seq<nat>)
    requires AllBelow(refs, |t|)
  {
    forall r: nat :: r in refs ==> !t[r].tail.Cut?
  }

  lemma {:induction false} ConsideredFromStart(t: Table, refs: seq<nat>, n: nat)
    requires AllBelow(refs, |t|) && NoMarks(t, refs) && n <= |refs|
    ensures ConsideredFrom(t, refs, n) == 0
  {
    if n <= 1 {
    } else {
      assert refs[n - 1] in refs;
      ConsideredFromStart(t, refs, n - 1);
    }
  }

  /** Without marks, being closed is about the message alone. */
  lemma ClosedWithoutMarks(t: Table, msg: nat, refs: seq<nat>)
    requires Valid(t) && InRange(t, msg, refs) && NoMarks(t, refs)
    ensures Closed(t, msg, refs) <==>
            t[msg].root == msg || exists r: nat :: r in refs && t[r].root == t[msg].root
  {
    ConsideredFromStart(t, refs, |refs|);
    assert refs[0..] == refs;
  }

  /** In a well-formed table the moved messages are the members of the merged conversations, and
      the message. */
  lemma MovedMeans(t: Table, msg: nat, refs: seq<nat>, c: set<nat>, root: nat, x: nat)
    requires Valid(t) && Plan(t, msg, refs, c, root) && x < |t|
    ensures t[root].root == root || refs == []
    ensures x in MovedSet(t, c, root) <==>
            (t[x].root in c && t[x].root != root) || (x == msg && msg != root)
  {
    if x in MovedSet(t, c, root) {
      var r: nat :| r in c && r != root && (x == r || x in t[r].replies);
      if x in t[r].replies {
        ListedMembers(t, r, x);
      }
    }
    if t[x].root in c && t[x].root != root {
      var r := t[x].root;
      assert x == r || x in t[r].replies by {
        assert t[r].root == r && Listed(t, r);
      }
      assert Moved(t, c, root, x);
    }
    if x == msg && msg != root {
      assert Moved(t, c, root, x);
    }
  }

  /** The root of every message after the merge. */
  lemma MergedRoot(t: Table, t': Table, msg: nat, refs: seq<nat>, c: set<nat>, root: nat, parent: int, x: nat)
    requires Valid(t) && Plan(t, msg, refs, c, root) && MergedBy(t, t', msg, refs, c, root, parent)
    requires x < |t|
    ensures t'[x].root == if t[x].root in c || x == msg then root else t[x].root
    ensures t[x].root !in c && x != msg ==> t'[x] == t[x] || (x == root && refs != [])
  {
    MovedMeans(t, msg, refs, c, root, x);
    assert t'[x].root == Placed(t, msg, c, root, parent, x).root;
  }

  lemma NewMembersMean(t: Table, msg: nat, refs: seq<nat>, c: set<nat>, root: nat, x: nat)
    requires Valid(t) && Plan(t, msg, refs, c, root) && refs != [] && ClosedIn(t, msg, refs, c)
    ensures x in NewMembers(t, msg, refs, c, root) <==> x < |t| && t[x].root in c
  {
    if x in t[root].replies {
      ListedMembers(t, root, x);
    }
    if x < |t| {
      MovedMeans(t, msg, refs, c, root, x);
      if t[x].root == root && x !in t[root].replies {
        // The new root was alone, so the reference that led to it is the root itself.
        assert Listed(t, root);
        var r: nat :| r in refs && t[r].root == root;
        assert r == root == x;
      }
    }
  }

  lemma NewRootListed(t: Table, t': Table, msg: nat, refs: seq<nat>, c: set<nat>, root: nat, parent: int)
    requires Valid(t) && Plan(t, msg, refs, c, root) && MergedBy(t, t', msg, refs, c, root, parent)
    requires ClosedIn(t, msg, refs, c) && refs != []
    ensures Listed(t', root)
  {
    var list := t'[root].replies;
    forall x: nat
      ensures x in list <==> x < |t'| && t'[x].root == root
    {
      NewMembersMean(t, msg, refs, c, root, x);
      if x < |t| {
        MergedRoot(t, t', msg, refs, c, root, parent, x);
        MovedMeans(t, msg, refs, c, root, x);
      }
    }
  }

  lemma OthersListed(t: Table, t': Table, msg: nat, refs: seq<nat>, c: set<nat>, root: nat, parent: int, r: nat)
    requires Valid(t) && Plan(t, msg, refs, c, root) && MergedBy(t, t', msg, refs, c, root, parent)
    requires ClosedIn(t, msg, refs, c) && r < |t| && (r != root || refs == [])
    ensures if t'[r].root == r then Listed(t', r) else t'[r].replies == []
  {
    MergedRoot(t, t', msg, refs, c, root, parent, r);
    MovedMeans(t, msg, refs, c, root, r);
    if t'[r].root == r {
      forall x: nat | x < |t|
        ensures t'[x].root == r <==> t[x].root == r
      {
        MergedRoot(t, t', msg, refs, c, root, parent, x);
      }
      assert t[r].root == r && t'[r].replies == t[r].replies;
      assert Listed(t, r);
    }
  }

  lemma ClosedKeepsValid(t: Table, t': Table, msg: nat, refs: seq<nat>, c: set<nat>, root: nat, parent: int)
    requires Valid(t) && Plan(t, msg, refs, c, root) && MergedBy(t, t', msg, refs, c, root, parent)
    requires ClosedIn(t, msg, refs, c)
    ensures Valid(t')
  {
    MovedMeans(t, msg, refs, c, root, msg);
    forall x: nat | x < |t'|
      ensures t'[x].root < |t'| && t'[t'[x].root].root == t'[x].root
    {
      MergedRoot(t, t', msg, refs, c, root, parent, x);
      MergedRoot(t, t', msg, refs, c, root, parent, t'[x].root);
    }
    forall r: nat | r < |t'|
      ensures if t'[r].root == r then Listed(t', r) else t'[r].replies == []
    {
      if r == root && refs != [] {
        NewRootListed(t, t', msg, refs, c, root, parent);
        MergedRoot(t, t', msg, refs, c, root, parent, root);
        MovedMeans(t, msg, refs, c, root, root);
      } else {
        OthersListed(t, t', msg, refs, c, root, parent, r);
      }
    }
  }

  lemma ValidNeedsClosed(t: Table, t': Table, msg: nat, refs: seq<nat>, c: set<nat>, root: nat, parent: int)
    requires Valid(t) && Plan(t, msg, refs, c, root) && MergedBy(t, t', msg, refs, c, root, parent)
    requires !ClosedIn(t, msg, refs, c)
    ensures !Valid(t')
  {
    var home := t[msg].root;
    MergedRoot(t, t', msg, refs, c, root, parent, msg);
    if home !in c {
      // The old root still lists the message, which now names another root.
      MergedRoot(t, t', msg, refs, c, root, parent, home);
      assert Listed(t, home) && msg in t[home].replies;
      assert t'[home] == t[home];
      if Valid(t') {
        ListedMembers(t', home, msg);
      }
    } else {
      // A hidden reference is listed by the new root but keeps its own.
      var r: nat :| r in refs && t[r].root !in c;
      MergedRoot(t, t', msg, refs, c, root, parent, r);
      assert r in t'[root].replies;
      if Valid(t') {
        ListedMembers(t', root, r);
      }
    }
  }

  /** The exact condition: a well-formed table stays well formed if and only if the message and its
      references all belong to the conversations that are merged. */
  lemma MergeKeepsValidExactly(t: Table, t': Table, msg: nat, refs: seq<nat>, parent: int)
    requires Valid(t) && InRange(t, msg, refs) && Merged(t, t', msg, refs, parent)
    ensures Valid(t') <==> Closed(t, msg, refs)
  {
    PlanOfRefs(t, msg, refs);
    var c, root := Conversations(t, msg, refs), NewRoot(t, msg, refs);
    if Closed(t, msg, refs) {
      ClosedKeepsValid(t, t', msg, refs, c, root, parent);
    } else {
      ValidNeedsClosed(t, t', msg, refs, c, root, parent);
    }
  }

  /** The message ends up in the union of its old thread and the threads of its references, and
      every line of every other thread is untouched. */
  lemma MergeIsUnion(t: Table, t': Table, msg: nat, refs: seq<nat>, parent: int)
    requires Valid(t) && InRange(t, msg, refs) && Merged(t, t', msg, refs, parent)
    requires Closed(t, msg, refs)
    ensures |t'| == |t| && t'[msg].root == NewRoot(t, msg, refs)
    ensures forall x: nat :: x < |t| ==>
              (t'[x].root == t'[msg].root <==>
               t[x].root == t[msg].root || exists r: nat :: r in refs && t[x].root == t[r].root)
    ensures forall x: nat :: x < |t| && t'[x].root != t'[msg].root ==> t'[x] == t[x]
  {
    PlanOfRefs(t, msg, refs);
    var c, root := Conversations(t, msg, refs), NewRoot(t, msg, refs);
    MergedRoot(t, t', msg, refs, c, root, parent, msg);
    forall x: nat | x < |t|
      ensures t'[x].root == root <==>
              t[x].root == t[msg].root || exists r: nat :: r in refs && t[x].root == t[r].root
      ensures t'[x].root != root ==> t'[x] == t[x]
    {
      InUnion(t, t', msg, refs, c, root, parent, x);
    }
  }

  lemma InUnion(t: Table, t': Table, msg: nat, refs: seq<nat>, c: set<nat>, root: nat, parent: int, x: nat)
    requires Valid(t) && Plan(t, msg, refs, c, root) && MergedBy(t, t', msg, refs, c, root, parent)
    requires ClosedIn(t, msg, refs, c) && x < |t|
    ensures t'[x].root == root <==>
            t[x].root == t[msg].root || exists r: nat :: r in refs && t[x].root == t[r].root
    ensures t'[x].root != root ==> t'[x] == t[x]
  {
    MergedRoot(t, t', msg, refs, c, root, parent, x);
    MovedMeans(t, msg, refs, c, root, x);
  }

  /** Merging leaves alone what a message is, and whom it answers unless it is the message itself. */
  lemma MergeColumns(t: Table, t': Table, msg: nat, refs: seq<nat>, parent: int)
    requires Valid(t) && InRange(t, msg, refs) && Merged(t, t', msg, refs, parent)
    ensures |t'| == |t|
    ensures forall x: nat :: x < |t| ==> t'[x].msgId == t[x].msgId && t'[x].subject == t[x].subject
    ensures forall x: nat :: x < |t| && x != msg ==> t'[x].tail == t[x].tail
    ensures t'[msg].ParentKey() == if parent >= 0 then parent else t'[msg].root
    ensures !t'[msg].tail.Cut?
  {
    PlanOfRefs(t, msg, refs);
    hide Conversations, NewRoot, NewMembers, MovedSet, Valid, Plan, SortedListOf;
    var c, root := Conversations(t, msg, refs), NewRoot(t, msg, refs);
    forall x: nat | x < |t|
      ensures t'[x].msgId == t[x].msgId && t'[x].subject == t[x].subject
      ensures x != msg ==> t'[x].tail == t[x].tail
    {
      assert t'[x].(replies := []) == Placed(t, msg, c, root, parent, x).(replies := []);
    }
  }

  /** Message 1 sits in the thread of message 0; message 2 is alone. */
  function StrayBefore(): Table {
    [Info("a", "", 0, Top, [0, 1]), Info("b", "", 0, Top, []), Info("c", "", 2, Top, [])]
  }

  lemma StrayIsNotClosed()
    ensures Valid(StrayBefore()) && InRange(StrayBefore(), 1, [2]) && !Closed(StrayBefore(), 1, [2])
  {
    var t := StrayBefore();
    StrayIsValid();
    hide Valid, Closed, StrayBefore;
    ClosedWithoutMarks(t, 1, [2]);
  }

  lemma StrayIsValid()
    ensures Valid(StrayBefore()) && InRange(StrayBefore(), 1, [2]) && NoMarks(StrayBefore(), [2])
    ensures StrayBefore()[1].root == 0 && StrayBefore()[2].root == 2
  {
    var t := StrayBefore();
    assert Listed(t, 0) && Listed(t, 2);
  }

  /** When message 1 now answers message 2, whatever table the merge leaves is not well formed:
      message 0 still lists message 1. */
  lemma StrayMessageBreaksThreads(t': Table)
    ensures Valid(StrayBefore()) && InRange(StrayBefore(), 1, [2])
    ensures Merged(StrayBefore(), t', 1, [2], 2) ==> !Valid(t')
  {
    StrayIsNotClosed();
    if Merged(StrayBefore(), t', 1, [2], 2) {
      MergeKeepsValidExactly(StrayBefore(), t', 1, [2], 2);
    }
  }
}
