/** The metadata index as the threading code updates it (mailpile/search.py:846-1114, 1152-1166,
    1624-1635). */
module ThreadIndex {
  import opened Wrappers
  import opened Base36
  import opened ThreadTable
  import opened ThreadRefs
  import opened ThreadMerge
  import opened ThreadSplit

  const GHOST_SUBJECT := "(missing message)"

  /** Every ID stands for a message that has it, and every message's ID is known. */
  predicate IdsOk(t: Table, known: MsgIds) {
    && (forall id :: id in known ==> known[id] < |t| && t[known[id]].msgId == id)
    && forall x :: 0 <= x < |t| ==> t[x].msgId in known
  }

  lemma KnownBelow(t: Table, known: MsgIds)
    requires IdsOk(t, known)
    ensures forall id :: id in known ==> known[id] < |t|
  {
  }

  /** The line of a message that is its own root and its own parent. */
  function NewInfo(id: string, subject: string, pos: nat): (i: Info)
    ensures i.msgId == id && i.subject == subject && i.root == i.ParentKey() == pos && i.replies == []
  {
    Info(id, subject, pos, Top, [])
  }

  lemma NewMessageKeepsValid(t: Table, id: string, subject: string)
    requires Valid(t)
    ensures Valid(t + [NewInfo(id, subject, |t|)])
  {
    var t' := t + [NewInfo(id, subject, |t|)];
    forall r: nat | r < |t'|
      ensures if t'[r].root == r then Listed(t', r) else t'[r].replies == []
    {
      if r < |t| && t[r].root == r {
        assert Listed(t, r);
      }
    }
  }

  /** The table in which the conversations are merged: with the ghost, if one is missing. */
  function WithGhost(t: Table, ids: seq<string>, known: MsgIds): Table {
    var g := LastMissing(ids, known);
    if g < 0 then t else t + [NewInfo(ids[g], GHOST_SUBJECT, |t|)]
  }

  /** At most one ghost comes in, for the last of the unknown IDs. */
  ghost predicate GhostAdded(t: Table, u: Table, ids: seq<string>, known: MsgIds) {
    && ((forall id :: id in ids ==> id in known) ==> u == t)
    && forall i: nat :: IsLastUnknown(ids, known, i) ==>
         u == t + [Info(ids[i], GHOST_SUBJECT, |t|, Top, [])]
  }

  lemma WithGhostMeans(t: Table, ids: seq<string>, known: MsgIds)
    ensures GhostAdded(t, WithGhost(t, ids, known), ids, known)
  {
    LastMissingMeans(ids, known);
  }

  /** One of the IDs is that of a message in the thread of x. */
  ghost predicate NamesThreadOf(t: Table, ids: seq<string>, known: MsgIds, x: nat)
    requires x < |t| && IdsOk(t, known)
  {
    exists id :: id in ids && id in known && t[known[id]].root == t[x].root
  }

  /** The message's thread afterwards is its old thread together with those of all messages that the IDs name, and
      the ghost; every line of every other thread is untouched. */
  ghost predicate Joined(t: Table, t': Table, msg: nat, ids: seq<string>, known: MsgIds)
    requires IdsOk(t, known) && msg < |t| <= |t'|
  {
    && (forall x: nat :: x < |t| ==>
          (t'[x].root == t'[msg].root <==> t[x].root == t[msg].root || NamesThreadOf(t, ids, known, x)))
    && (forall x: nat :: |t| <= x < |t'| ==> t'[x].root == t'[msg].root)
    && forall x: nat :: x < |t| && t'[x].root != t'[msg].root ==> t'[x] == t[x]
  }

  /** The message answers the last reference, if that was known, and else nobody. Nobody else answers anybody else
      than before, and all messages keep their IDs and subjects. */
  ghost predicate Answers(t: Table, t': Table, msg: nat, ids: seq<string>, known: MsgIds)
    requires msg < |t| <= |t'|
  {
    && !t'[msg].tail.Cut?
    && t'[msg].ParentKey() == (if ids != [] && ids[|ids| - 1] in known then known[ids[|ids| - 1]] else t'[msg].root)
    && (forall x: nat :: x < |t| && x != msg ==> t'[x].tail == t[x].tail)
    && (forall x: nat :: x < |t| ==> t'[x].msgId == t[x].msgId && t'[x].subject == t[x].subject)
    && ((forall id :: id in ids ==> id in known) ==> |t'| == |t|)
    && forall i: nat :: IsLastUnknown(ids, known, i) ==>
         |t'| == |t| + 1 && t'[|t|].msgId == ids[i] && t'[|t|].subject == GHOST_SUBJECT && t'[|t|].tail == Top
  }

  lemma ThreadingAnswers(t: Table, u: Table, t': Table, msg: nat, refs: seq<nat>, ids: seq<string>, known: MsgIds)
    requires GhostAdded(t, u, ids, known) && |t| <= |u| <= |t| + 1
    requires Valid(u) && msg < |t| && InRange(u, msg, refs) && Merged(u, t', msg, refs, ParentOf(ids, known))
    ensures |t| <= |t'| <= |t| + 1 && Answers(t, t', msg, ids, known)
  {
    hide Merged, Valid, GhostAdded, LastMissing;
    MergeColumns(u, t', msg, refs, ParentOf(ids, known));
    GhostLine(t, u, ids, known);
  }

  lemma GhostLine(t: Table, u: Table, ids: seq<string>, known: MsgIds)
    requires GhostAdded(t, u, ids, known)
    ensures |t| <= |u| && forall x: nat :: x < |t| ==> u[x] == t[x]
    ensures (forall id :: id in ids ==> id in known) ==> |u| == |t|
    ensures forall i: nat :: IsLastUnknown(ids, known, i) ==>
              |u| == |t| + 1 && u[|t|].msgId == ids[i] && u[|t|].subject == GHOST_SUBJECT && u[|t|].tail == Top
  {
    if forall id :: id in ids ==> id in known {
    } else {
      LastMissingMeans(ids, known);
      assert IsLastUnknown(ids, known, LastMissing(ids, known));
    }
  }

  lemma ThreadingJoins(t: Table, u: Table, t': Table, msg: nat, refs: seq<nat>, ids: seq<string>, known: MsgIds)
    requires IdsOk(t, known) && GhostAdded(t, u, ids, known) && |t| <= |u| <= |t| + 1
    requires Valid(t) && Valid(u) && msg < |t| && InRange(u, msg, refs) && StandFor(refs, ids, known, |t|)
    requires Merged(u, t', msg, refs, ParentOf(ids, known)) && Closed(u, msg, refs)
    ensures |t| <= |t'| && Joined(t, t', msg, ids, known)
  {
    hide Valid, Merged, Closed, StandFor, IdsOk, GhostAdded, NamesThreadOf, Named, NewRoot;
    MergeIsUnion(u, t', msg, refs, ParentOf(ids, known));
    GhostApart(t, u, ids, known);
    forall x: nat | x < |t|
      ensures t'[x].root == t'[msg].root <==> t[x].root == t[msg].root || NamesThreadOf(t, ids, known, x)
    {
      NamedThreads(t, u, refs, ids, known, x);
    }
    if |u| > |t| {
      StandForNamed(refs, ids, known, |t|, |t|);
      RefJoins(u, t', msg, refs, ParentOf(ids, known), |t|);
    }
  }

  lemma RefJoins(u: Table, t': Table, msg: nat, refs: seq<nat>, parent: int, r: nat)
    requires Valid(u) && InRange(u, msg, refs) && Merged(u, t', msg, refs, parent) && Closed(u, msg, refs)
    requires r in refs && r < |u|
    ensures |t'| == |u| && t'[r].root == t'[msg].root
  {
    hide Valid, Merged, Closed, NewRoot;
    MergeIsUnion(u, t', msg, refs, parent);
    assert u[r].root == u[r].root;
  }

  lemma GhostApart(t: Table, u: Table, ids: seq<string>, known: MsgIds)
    requires IdsOk(t, known) && GhostAdded(t, u, ids, known) && |t| <= |u| <= |t| + 1 && Valid(t)
    ensures forall x: nat :: x < |t| ==> u[x] == t[x] && t[x].root < |t|
    ensures |u| > |t| ==> u[|t|].root == |t| && Named(ids, known, |t|, |t|)
    ensures forall id :: id in known ==> known[id] < |t|
  {
    if forall id :: id in ids ==> id in known {
    } else {
      LastMissingMeans(ids, known);
      assert IsLastUnknown(ids, known, LastMissing(ids, known));
    }
  }

  lemma NamedThreads(t: Table, u: Table, refs: seq<nat>, ids: seq<string>, known: MsgIds, x: nat)
    requires |t| <= |u| && IdsOk(t, known) && StandFor(refs, ids, known, |t|) && x < |t| && AllBelow(refs, |u|)
    requires forall y: nat :: y < |t| ==> u[y] == t[y] && t[y].root < |t|
    requires |u| > |t| ==> u[|t|].root == |t|
    ensures (exists r: nat :: r in refs && u[x].root == u[r].root) <==> NamesThreadOf(t, ids, known, x)
  {
    hide StandFor;
    if r: nat :| r in refs && u[x].root == u[r].root {
      StandForNamed(refs, ids, known, |t|, r);
      var i: nat :| i < |ids| && (if ids[i] in known then known[ids[i]] == r
                                  else IsLastUnknown(ids, known, i) && r == |t|);
      assert ids[i] in ids && ids[i] in known;
    }
    if NamesThreadOf(t, ids, known, x) {
      var id :| id in ids && id in known && t[known[id]].root == t[x].root;
      var i: nat :| i < |ids| && ids[i] == id;
      assert Named(ids, known, |t|, known[id]);
      StandForNamed(refs, ids, known, |t|, known[id]);
    }
  }

  /** The table once the conversations are merged, before the message gets its own thread ID. */
  ghost predicate MovedAndListed(t: Table, u: Table, root: nat, moved: set<nat>, members: set<nat>) {
    && |u| == |t|
    && root < |t|
    && (forall x: nat :: x < |t| && x != root ==>
          u[x] == if x in moved then t[x].(root := root, replies := []) else t[x])
    && u[root] == t[root].(replies := u[root].replies)
    && SortedListOf(u[root].replies, members)
  }

  lemma AddConversation(t: Table, c: set<nat>, refs: seq<nat>, i: nat)
    requires Valid(t) && AllBelow(refs, |t|) && i < |refs|
    requires c == RootsOf(t, refs[i + 1..])
    ensures c + (if t[refs[i]].replies != [] then {refs[i]} else {}) + {t[refs[i]].root} == RootsOf(t, refs[i..])
  {
    var x, rest := refs[i], refs[i + 1..];
    assert refs[i..] == [x] + rest;
    assert x in [x] + rest;
    assert forall r: nat :: r in rest ==> r in [x] + rest;
  }

  lemma MovedStep(t: Table, c: set<nat>, root: nat, r: nat)
    requires forall q: nat :: q in c + {r} ==> q < |t|
    ensures r != root ==> forall x: nat :: Moved(t, c + {r}, root, x) <==>
              Moved(t, c, root, x) || x == r || x in t[r].replies
  {
  }

  /** The list holds the messages that these conversations move. */
  ghost predicate Collected(t: Table, c: set<nat>, root: nat, list: seq<nat>) {
    && (forall q: nat :: q in c ==> q < |t|)
    && AllBelow(list, |t|)
    && forall x: nat :: x in list <==> Moved(t, c, root, x)
  }

  lemma CollectStep(t: Table, c: set<nat>, root: nat, r: nat, list: seq<nat>)
    requires Collected(t, c, root, list) && r < |t| && r != root && AllBelow(t[r].replies, |t|)
    ensures Collected(t, c + {r}, root, list + t[r].replies + [r])
  {
    MovedStep(t, c, root, r);
    hide Moved;
  }

  lemma CollectedAll(t: Table, c: set<nat>, root: nat, list: seq<nat>)
    requires Collected(t, c, root, list)
    ensures (set x: nat | x in list) == MovedSet(t, c, root)
  {
    hide Moved;
  }

  lemma PlanBounds(t: Table, msg: nat, refs: seq<nat>, c: set<nat>, root: nat)
    requires Plan(t, msg, refs, c, root) && refs != []
    ensures root < |t| && forall r: nat :: r in c ==> r < |t|
    ensures forall x: nat :: x in MovedSet(t, c, root) ==> x < |t|
  {
  }

  lemma MembersAre(t: Table, msg: nat, refs: seq<nat>, c: set<nat>, root: nat, members: set<nat>)
    requires root < |t| && forall r: nat :: r in c ==> r < |t|
    requires members == (set x: nat | x in t[root].replies + [msg] + refs) + MovedSet(t, c, root)
    ensures members == NewMembers(t, msg, refs, c, root)
  {
    hide MovedSet;
  }

  /** After the members have moved, the new root gets its list. */
  lemma MoveLists(t: Table, u: Table, root: nat, moved: set<nat>, members: set<nat>, sorted: seq<nat>)
    requires |u| == |t| && root < |t| && SortedListOf(sorted, members)
    requires forall x: nat :: x < |t| ==> u[x] == if x in moved then t[x].(root := root, replies := []) else t[x]
    ensures MovedAndListed(t, u[root := t[root].(replies := sorted)], root, moved, members)
  {
    hide SortedListOf;
  }

  lemma AssembleMerged(t: Table, u: Table, t': Table, msg: nat, refs: seq<nat>, c: set<nat>, root: nat, parent: int)
    requires Valid(t) && Plan(t, msg, refs, c, root) && |u| == |t|
    requires if refs == [] then u == t && c == {msg}
             else MovedAndListed(t, u, root, MovedSet(t, c, root), NewMembers(t, msg, refs, c, root))
    requires t' == u[msg := u[msg].(root := root,
                                    tail := if parent >= 0 && parent != root then Under(parent) else Top)]
    ensures MergedBy(t, t', msg, refs, c, root, parent)
  {
    if refs == [] {
      NobodyMoves(t, root);
    } else {
      MovedMeans(t, msg, refs, c, root, root);
      PlanBounds(t, msg, refs, c, root);
      hide Valid, MovedSet, NewMembers, SortedListOf, Plan;
      AssembleMoved(t, u, t', msg, refs, c, root, parent);
    }
  }

  lemma NobodyMoves(t: Table, root: nat)
    requires root < |t|
    ensures MovedSet(t, {root}, root) == {}
  {
  }

  lemma AssembleMoved(t: Table, u: Table, t': Table, msg: nat, refs: seq<nat>, c: set<nat>, root: nat, parent: int)
    requires Plan(t, msg, refs, c, root) && |u| == |t| && refs != []
    requires root !in MovedSet(t, c, root)
    requires MovedAndListed(t, u, root, MovedSet(t, c, root), NewMembers(t, msg, refs, c, root))
    requires t' == u[msg := u[msg].(root := root,
                                    tail := if parent >= 0 && parent != root then Under(parent) else Top)]
    ensures MergedBy(t, t', msg, refs, c, root, parent)
  {
    hide MovedSet, NewMembers, SortedListOf;
  }

  /** The table while the first loop of `_reparent` runs: the first n of the family have moved. */
  ghost predicate FamilyMoved(t: Table, u: Table, p: nat, family: seq<nat>, subject: Option<string>, n: nat)
    requires n <= |family|
  {
    && |u| == |t|
    && forall x: nat :: x < |t| ==> u[x] == if x in family[..n] then FamilyInfo(t[x], p, family, subject, x) else t[x]
  }

  lemma FamilyStep(t: Table, u: Table, p: nat, family: seq<nat>, subject: Option<string>, n: nat)
    requires Family(t, p, family) && n < |family| && FamilyMoved(t, u, p, family, subject, n)
    ensures u[family[n]] == t[family[n]]
    ensures FamilyMoved(t, u[family[n] := FamilyInfo(t[family[n]], p, family, subject, family[n])],
                        p, family, subject, n + 1)
  {
    assert family[n] !in family[..n];
    assert family[..n + 1] == family[..n] + [family[n]];
  }

  /** What is reachable from a message of a thread is in the thread, so that splitting touches no other. */
  lemma FamilyConfined(t: Table, u: Table, u': Table, root: nat, hk: Kids, p: nat, family: seq<nat>,
                       subject: Option<string>, orphans: seq<nat>)
    requires Valid(t) && Valid(u) && Confined(t, u, root) && root < |t| && p < |t| && t[p].root == root
    requires AllBelow(t[root].replies, |t|) && KidsOf(t, t[root].replies, hk)
    requires forall x: nat :: x in family <==> Reaches(hk, p, x)
    requires Family(u, p, family) && Split(u, u', p, family, subject, orphans)
    ensures Confined(t, u', root) && (NoCuts(u) ==> NoCuts(u'))
  {
    forall x: nat | x in family
      ensures t[x].root == root
    {
      assert Reaches(hk, p, x);
      ReachesIsDescends(t, p, hk, x);
      assert Descends(t, p, x);
    }
    SplitStaysIn(t, u, u', root, p, family, subject, orphans);
    if NoCuts(u) {
      SplitKeepsNoCuts(u, u', p, family, subject, orphans);
    }
  }

  lemma ConfinedAtFirst(t: Table, root: nat)
    requires Valid(t) && root < |t|
    ensures Confined(t, t, root)
  {
  }

  lemma NoneLoose(t: Table, kids: seq<nat>)
    ensures KidsLoose(t, t, kids, 0)
  {
  }

  lemma NothingCut(t: Table, kids: seq<nat>)
    requires AllBelow(kids, |t|)
    ensures forall x: nat, j: nat :: x < |t| && j <= |kids| ==> !LastCutWith(t, kids, 0, x, j)
  {
  }

  lemma NextKids(t: Table, u: Table, u': Table, root: nat, hk: Kids, kids: seq<nat>, n: nat,
                 family: seq<nat>, orphans: seq<nat>)
    requires Valid(t) && Valid(u) && |u| == |t| && |u'| == |t| && root < |t| && AllBelow(t[root].replies, |t|)
    requires KidsOf(t, t[root].replies, hk)
    requires AllBelow(kids, |t|) && n < |kids|
    requires forall i :: 0 <= i < |kids| ==> t[kids[i]].root == root
    requires forall y: nat, i: nat :: y < |t| && i < |kids| && LastCutWith(t, kids, n, y, i) ==> u[y].root == kids[i]
    requires Family(u, kids[n], family) && Split(u, u', kids[n], family, None, orphans)
    requires forall y: nat :: y in family <==> Reaches(hk, kids[n], y)
    ensures forall x: nat, j: nat :: x < |t| && j < |kids| && LastCutWith(t, kids, n + 1, x, j) ==>
              u'[x].root == kids[j]
  {
    forall x: nat, j: nat | x < |t| && j < |kids| && LastCutWith(t, kids, n + 1, x, j)
      ensures u'[x].root == kids[j]
    {
      NextKid(t, u, u', root, hk, kids, n, family, orphans, x, j);
    }
  }

  class MailIndex {
    var INDEX: Table
    var MSGIDS: MsgIds

    ghost predicate WellFormed()
      reads this
    {
      Valid(INDEX) && IdsOk(INDEX, MSGIDS)
    }

    constructor ()
      ensures WellFormed() && INDEX == [] && MSGIDS == map[]
    {
      INDEX, MSGIDS := [], map[];
    }

    method SetMsgAtIdxPos(idx: nat, info: Info)
      requires idx <= |INDEX|
      modifies this
      ensures INDEX == if idx < |old(INDEX)| then old(INDEX)[idx := info] else old(INDEX) + [info]
      ensures MSGIDS == old(MSGIDS)[info.msgId := idx]
      ensures IdsOk(old(INDEX), old(MSGIDS)) && (idx < |old(INDEX)| ==> info.msgId == old(INDEX)[idx].msgId) ==>
                IdsOk(INDEX, MSGIDS)
    {
      if |INDEX| <= idx {
        INDEX := INDEX + [info];
      } else {
        INDEX := INDEX[idx := info];
      }
      MSGIDS := MSGIDS[info.msgId := idx];
    }

    /** A new message starts out as its own root and its own parent. */
    method AddNewMsg(msgId: string, subject: string) returns (idx: nat)
      requires WellFormed()
      modifies this
      ensures WellFormed() && idx == |old(INDEX)|
      ensures INDEX == old(INDEX) + [NewInfo(msgId, subject, idx)]
      ensures MSGIDS == old(MSGIDS)[msgId := idx]
    {
      idx := |INDEX|;
      NewMessageKeepsValid(INDEX, msgId, subject);
      SetMsgAtIdxPos(idx, NewInfo(msgId, subject, idx));
    }

    /** Finding the references: known ones, and a ghost for the last missing one. */
    method ResolveRefs(ids: seq<string>) returns (refs: seq<nat>)
      requires WellFormed()
      modifies this
      ensures WellFormed()
      ensures INDEX == WithGhost(old(INDEX), ids, old(MSGIDS))
      ensures refs == Resolved(ids, old(MSGIDS), LastMissing(ids, old(MSGIDS)), |old(INDEX)|)
      ensures StandFor(refs, ids, old(MSGIDS), |old(INDEX)|) && GhostAdded(old(INDEX), INDEX, ids, old(MSGIDS))
      ensures AllBelow(refs, |INDEX|)
    {
      ResolvedStandsFor(ids, MSGIDS, |INDEX|);
      WithGhostMeans(INDEX, ids, MSGIDS);
      KnownBelow(INDEX, MSGIDS);
      hide StandFor, GhostAdded, Valid, IdsOk;
      var known, pos := MSGIDS, |INDEX|;
      var missing := FindMissing(ids);
      if missing >= 0 {
        var _ := AddNewMsg(ids[missing], GHOST_SUBJECT);
      }
      refs := FindRefs(ids, known, missing, pos);
      ResolvedBelow(ids, known, missing, pos, |INDEX|);
    }

    /** The first loop: the last reference that is missing. */
    method FindMissing(ids: seq<string>) returns (missing: int)
      ensures missing == LastMissing(ids, MSGIDS)
    {
      missing := -1;
      var i := 0;
      while i < |ids|
        invariant 0 <= i <= |ids|
        invariant missing == LastMissing(ids[..i], MSGIDS)
      {
        assert ids[..i + 1][..i] == ids[..i];
        if ids[i] !in MSGIDS {
          missing := i;
        }
        i := i + 1;
      }
      assert ids[..|ids|] == ids;
    }

    /** The comprehension that keeps the known references, and the ghost. */
    static method FindRefs(ids: seq<string>, known: MsgIds, missing: int, pos: nat) returns (refs: seq<nat>)
      ensures refs == Resolved(ids, known, missing, pos)
    {
      refs := [];
      var i := 0;
      while i < |ids|
        invariant 0 <= i <= |ids|
        invariant refs == Resolved(ids[..i], known, missing, pos)
      {
        assert ids[..i + 1][..i] == ids[..i];
        if ids[i] in known {
          refs := refs + [known[ids[i]]];
        } else if i == missing {
          refs := refs + [pos];
        }
        i := i + 1;
      }
      assert ids[..|ids|] == ids;
    }

    /** Which conversations are merged, and under which root. */
    method FindConversations(refs: seq<nat>) returns (root: Option<nat>, conversations: set<nat>)
      requires Valid(INDEX) && AllBelow(refs, |INDEX|)
      ensures root == if refs == [] then None else Some(INDEX[refs[ConsideredFrom(INDEX, refs, |refs|)]].root)
      ensures conversations == RootsOf(INDEX, refs[ConsideredFrom(INDEX, refs, |refs|)..])
    {
      var t := INDEX;
      root, conversations := None, {};
      var i := |refs|;
      assert RootsOf(t, refs[|refs|..]) == {};
      hide RootsOf, Valid, IdsOk;
      while i > 0
        invariant 0 <= i <= |refs|
        invariant ConsideredFrom(t, refs, |refs|) == ConsideredFrom(t, refs, i)
        invariant conversations == RootsOf(t, refs[i..])
        invariant root == if i == |refs| then None else Some(t[refs[i]].root)
      {
        i := i - 1;
        var info := t[refs[i]];
        AddConversation(t, conversations, refs, i);
        if info.replies != [] {
          conversations := conversations + {refs[i]};
        }
        root := Some(info.root);
        conversations := conversations + {info.root};
        if info.tail.Cut? {
          return;
        }
      }
    }

    /** `set_conversation_ids`: find the conversations of the references and merge them. */
    method SetConversationIds(msg: nat, references: seq<string>, inReplyTo: Option<string>, enc: string -> string)
      requires WellFormed() && msg < |INDEX|
      modifies this
      ensures |old(INDEX)| <= |INDEX| <= |old(INDEX)| + 1
      ensures var ids := Encoded(RefOrder(references, inReplyTo), enc);
              var t := WithGhost(old(INDEX), ids, old(MSGIDS));
              var refs := Resolved(ids, old(MSGIDS), LastMissing(ids, old(MSGIDS)), |old(INDEX)|);
              && Valid(t) && InRange(t, msg, refs) && (refs == [] <==> ids == [])
              && Merged(t, INDEX, msg, refs, ParentOf(ids, old(MSGIDS)))
              && (WellFormed() <==> Closed(t, msg, refs))
              && Answers(old(INDEX), INDEX, msg, ids, old(MSGIDS))
              && (WellFormed() ==> Joined(old(INDEX), INDEX, msg, ids, old(MSGIDS)))
      ensures IdsOk(INDEX, MSGIDS)
    {
      hide IdsOk, Joined, Answers, GhostAdded, StandFor, Merged, Closed;
      ghost var t, known := INDEX, MSGIDS;
      var order := OrderRefs(references, inReplyTo);
      var ids := Encoded(order, enc);
      var parent := ParentOf(ids, MSGIDS);
      ResolvedEmpty(ids, MSGIDS, |INDEX|);
      var refs := ResolveRefs(ids);
      ghost var u := INDEX;
      Thread(msg, refs, parent);
      ThreadingAnswers(t, u, INDEX, msg, refs, ids, known);
      if Closed(u, msg, refs) {
        ThreadingJoins(t, u, INDEX, msg, refs, ids, known);
      }
    }

    method Thread(msg: nat, refs: seq<nat>, parent: int)
      requires WellFormed() && InRange(INDEX, msg, refs)
      modifies this
      ensures |INDEX| == |old(INDEX)|
      ensures Merged(old(INDEX), INDEX, msg, refs, parent)
      ensures WellFormed() <==> Closed(old(INDEX), msg, refs)
      ensures IdsOk(INDEX, MSGIDS)
    {
      hide IdsOk, MergedBy, MovedAndListed, MovedSet, NewMembers, Closed;
      ghost var t := INDEX;
      PlanOfRefs(t, msg, refs);
      var found, conversations := FindConversations(refs);
      var root := msg;
      conversations := conversations + {msg};
      match found {
        case None =>
          assert conversations == {msg};
        case Some(thr) =>
          root := thr;
          MergeConversations(msg, refs, thr, conversations);
      }
      ghost var u := INDEX;
      var info := INDEX[msg];
      SetMsgAtIdxPos(msg, info.(root := root,
                                tail := if parent >= 0 && parent != root then Under(parent) else Top));
      AssembleMerged(t, u, INDEX, msg, refs, conversations, root, parent);
      MergeKeepsValidExactly(t, INDEX, msg, refs, parent);
    }

    /** Part three of the method: move everything to the new root, and list it there. */
    method MergeConversations(msg: nat, refs: seq<nat>, root: nat, conversations: set<nat>)
      requires WellFormed() && refs != [] && Plan(INDEX, msg, refs, conversations, root)
      modifies this
      ensures |INDEX| == |old(INDEX)| && IdsOk(INDEX, MSGIDS)
      ensures MovedAndListed(old(INDEX), INDEX, root, MovedSet(old(INDEX), conversations, root),
                             NewMembers(old(INDEX), msg, refs, conversations, root))
    {
      hide IdsOk;
      PlanBounds(INDEX, msg, refs, conversations, root);
      ghost var t := INDEX;
      var rootInfo := INDEX[root];
      var moved := CollectMoved(conversations, root);
      var members := (set x: nat | x in rootInfo.replies + [msg] + refs) + moved;
      MembersAre(t, msg, refs, conversations, root, members);
      var sorted := SortMids(members);
      hide Valid, Plan, MovedAndListed, MovedSet, NewMembers, SortedListOf;
      MoveToRoot(moved, root);
      MoveLists(t, INDEX, root, moved, members, sorted);
      SetMsgAtIdxPos(root, rootInfo.(replies := sorted));
    }

    method MoveToRoot(moved: set<nat>, root: nat)
      requires forall x :: x in moved ==> x < |INDEX|
      requires IdsOk(INDEX, MSGIDS)
      modifies this
      ensures |INDEX| == |old(INDEX)|
      ensures IdsOk(INDEX, MSGIDS)
      ensures forall x: nat :: x < |INDEX| ==>
                INDEX[x] == if x in moved then old(INDEX)[x].(root := root, replies := []) else old(INDEX)[x]
    {
      hide IdsOk;
      var todo := moved;
      while todo != {}
        invariant todo <= moved
        invariant |INDEX| == |old(INDEX)|
        invariant IdsOk(INDEX, MSGIDS)
        invariant forall x: nat :: x < |INDEX| ==>
                    INDEX[x] == if x in moved - todo then old(INDEX)[x].(root := root, replies := []) else old(INDEX)[x]
        decreases |todo|
      {
        var m :| m in todo;
        SetMsgAtIdxPos(m, INDEX[m].(root := root, replies := []));
        todo := todo - {m};
      }
    }

    method CollectMoved(conversations: set<nat>, root: nat) returns (moved: set<nat>)
      requires Valid(INDEX) && forall r: nat :: r in conversations ==> r < |INDEX|
      ensures moved == MovedSet(INDEX, conversations, root)
    {
      var t := INDEX;
      var reparent: seq<nat> := [];
      var todo := conversations - {root};
      assert Collected(t, conversations - todo, root, reparent);
      hide Collected, Moved, Valid;
      while todo != {}
        invariant todo <= conversations - {root}
        invariant Collected(t, conversations - todo, root, reparent)
        decreases |todo|
      {
        var c :| c in todo;
        RepliesBelow(t, c);
        CollectStep(t, conversations - todo, root, c, reparent);
        assert conversations - (todo - {c}) == conversations - todo + {c};
        todo := todo - {c};
        reparent := reparent + t[c].replies + [c];
      }
      assert conversations - {} == conversations;
      moved := set x: nat | x in reparent;
      CollectedAll(t, conversations, root, reparent);
    }

    /** Who answers whom, in the list of a thread. */
    method CollectKids(thread: seq<nat>) returns (hk: Kids)
      requires AllBelow(thread, |INDEX|)
      ensures KidsOf(INDEX, thread, hk)
    {
      hk := map[];
      var i := 0;
      while i < |thread|
        invariant 0 <= i <= |thread|
        invariant KidsOf(INDEX, thread[..i], hk)
      {
        var t := thread[i];
        var p := INDEX[t].ParentKey();
        assert thread[..i + 1][..i] == thread[..i];
        hk := hk[p := (if p in hk then hk[p] else []) + [t]];
        i := i + 1;
      }
      assert thread[..|thread|] == thread;
    }

    /** `_family`: a worklist that ends on every map of kids, cyclic ones too. */
    static method GatherFamily(p: nat, hk: Kids) returns (family: seq<nat>)
      ensures NoDup(family) && p in family
      ensures forall x: nat :: x in family <==> Reaches(hk, p, x)
    {
      hide Reaches, Gathering;
      family := [p];
      ReachesSelf(hk, p);
      if p !in hk {
        GatheredAll(hk, p, family);
        return;
      }
      var gather := hk[p];
      ghost var universe := (set k, x | k in hk && x in hk[k] :: x) + {p};
      GatherStart(hk, p, universe);
      while gather != []
        invariant Gathering(hk, p, family, gather, universe)
        decreases universe - Members(family), |gather|
      {
        ghost var family0, gather0 := family, gather;
        var r := gather[0];
        gather := gather[1..];
        if r !in family {
          family := family + [r];
        }
        if r in hk {
          gather := gather + NotIn(hk[r], family, gather);
        }
        assert gather0[1..] + [] == gather0[1..];
        GatherStep(hk, p, family0, gather0, universe);
      }
      GatherEnd(hk, p, family, universe);
    }

    /** What the worklist has found, and what it still has to look at. */
    static ghost predicate Gathering(hk: Kids, p: nat, family: seq<nat>, gather: seq<nat>, universe: set<nat>) {
      && NoDup(family) && p in family
      && (forall x: nat :: x in family || x in gather ==> x in universe && Reaches(hk, p, x))
      && KidsSeen(hk, family, gather)
      && (forall k, x :: k in hk && x in hk[k] ==> x in universe)
    }

    static ghost predicate KidsSeen(hk: Kids, family: seq<nat>, gather: seq<nat>) {
      forall a: nat, b: nat :: a in family && a in hk && b in hk[a] ==> b in family || b in gather
    }

    static lemma GatherStart(hk: Kids, p: nat, universe: set<nat>)
      requires p in hk && universe == (set k, x | k in hk && x in hk[k] :: x) + {p}
      ensures Gathering(hk, p, [p], hk[p], universe)
    {
      hide Reaches;
      ReachesSelf(hk, p);
      forall x | x in hk[p]
        ensures Reaches(hk, p, x)
      {
        ReachesStep(hk, p, p, x);
      }
    }

    static function AfterOne(family: seq<nat>, r: nat): (next: seq<nat>)
      ensures forall x :: x in next <==> x in family || x == r
    {
      if r !in family then family + [r] else family
    }

    static function More(hk: Kids, family: seq<nat>, gather: seq<nat>): (more: seq<nat>)
      requires gather != []
      ensures forall x :: x in more <==>
                gather[0] in hk && x in hk[gather[0]] && x !in AfterOne(family, gather[0]) && x !in gather[1..]
    {
      if gather[0] in hk then NotIn(hk[gather[0]], AfterOne(family, gather[0]), gather[1..]) else []
    }

    static lemma KidsSeenStep(hk: Kids, family: seq<nat>, gather: seq<nat>)
      requires KidsSeen(hk, family, gather) && gather != []
      ensures KidsSeen(hk, AfterOne(family, gather[0]), gather[1..] + More(hk, family, gather))
      ensures gather[0] in family ==> More(hk, family, gather) == []
    {
      var r, next, rest, more := gather[0], AfterOne(family, gather[0]), gather[1..], More(hk, family, gather);
      hide AfterOne, More;
      assert gather == [r] + rest;
      forall a: nat, b: nat | a in next && a in hk && b in hk[a]
        ensures b in next || b in rest + more
      {
        if a != r {
          assert b in family || b in gather;
        }
      }
      assert more != [] ==> more[0] in more;
    }

    static lemma AfterOneNew(family: seq<nat>, r: nat)
      requires NoDup(family)
      ensures NoDup(AfterOne(family, r))
      ensures Members(AfterOne(family, r)) == Members(family) + {r}
    {
    }

    static lemma GatherStep(hk: Kids, p: nat, family: seq<nat>, gather: seq<nat>, universe: set<nat>)
      requires Gathering(hk, p, family, gather, universe) && gather != []
      ensures Gathering(hk, p, AfterOne(family, gather[0]), gather[1..] + More(hk, family, gather), universe)
      ensures gather[0] in family ==> More(hk, family, gather) == []
      ensures gather[0] !in family ==>
                gather[0] in universe && Members(AfterOne(family, gather[0])) == Members(family) + {gather[0]}
    {
      var r, next, rest, more := gather[0], AfterOne(family, gather[0]), gather[1..], More(hk, family, gather);
      KidsSeenStep(hk, family, gather);
      AfterOneNew(family, r);
      hide Reaches, AfterOne, More, KidsSeen, NoDup, Members;
      assert gather == [r] + rest;
      forall x: nat | x in next || x in rest + more
        ensures x in universe && Reaches(hk, p, x)
      {
        if x in more {
          ReachesStep(hk, p, r, x);
        }
      }
    }

    static lemma GatherEnd(hk: Kids, p: nat, family: seq<nat>, universe: set<nat>)
      requires Gathering(hk, p, family, [], universe)
      ensures NoDup(family) && p in family && forall x: nat :: x in family <==> Reaches(hk, p, x)
    {
      hide Reaches;
      GatheredAll(hk, p, family);
    }

    static lemma GatheredAll(hk: Kids, p: nat, family: seq<nat>)
      requires p in family && forall a: nat, b: nat :: a in family && a in hk && b in hk[a] ==> b in family
      ensures forall x: nat :: Reaches(hk, p, x) ==> x in family
    {
      forall x: nat | Reaches(hk, p, x)
        ensures x in family
      {
        var path :| PathFromTo(hk, path, p, x);
        ClosedHoldsPath(hk, Members(family), path);
      }
    }

    /** The elements of a list that are in neither of two others. */
    static function NotIn(list: seq<nat>, a: seq<nat>, b: seq<nat>): (rest: seq<nat>)
      ensures forall x :: x in rest <==> x in list && x !in a && x !in b
    {
      if list == [] then []
      else if list[0] in a || list[0] in b then NotIn(list[1..], a, b)
      else [list[0]] + NotIn(list[1..], a, b)
    }

    /** The first loop of `_reparent`: the family gets its thread. */
    method MoveFamily(p: nat, family: seq<nat>, subject: Option<string>)
      returns (oldRoots: set<nat>, orphans: set<nat>)
      requires WellFormed() && Family(INDEX, p, family)
      modifies this
      ensures IdsOk(INDEX, MSGIDS)
      ensures FamilyMoved(old(INDEX), INDEX, p, family, subject, |family|)
      ensures oldRoots == OldRoots(old(INDEX), family) && orphans == Orphans(old(INDEX), family)
    {
      ghost var t := INDEX;
      oldRoots, orphans := {}, {};
      MovingStart(t, p, family, subject);
      hide IdsOk, Family, Moving, Orphaning, FamilyMoved, FamilyInfo, Valid, OldRoots, Orphans, AllBelow, NoDup;
      var i := 0;
      while i < |family|
        invariant 0 <= i <= |family| && |INDEX| == |t|
        invariant IdsOk(INDEX, MSGIDS)
        invariant Moving(t, INDEX, p, family, subject, i, oldRoots, orphans)
      {
        var m := family[i];
        ghost var u := INDEX;
        MovingStep(t, u, p, family, subject, i, oldRoots, orphans);
        var info := INDEX[m];
        ghost var v := u[m := FamilyInfo(info, p, family, subject, m)];
        if info.root !in family {
          oldRoots := oldRoots + {info.root};
        }
        orphans := orphans + Orphaning(info.replies, family);
        SetMsgAtIdxPos(m, FamilyInfo(info, p, family, subject, m));
        assert INDEX == v;
        i := i + 1;
      }
      MovingEnd(t, INDEX, p, family, subject, oldRoots, orphans);
    }

    /** The listed messages that are not of the family. */
    static function Orphaning(replies: seq<nat>, family: seq<nat>): set<nat> {
      set o | o in replies && o !in family
    }

    static ghost predicate Moving(t: Table, u: Table, p: nat, family: seq<nat>, subject: Option<string>, i: nat,
                                  oldRoots: set<nat>, orphans: set<nat>)
    {
      && i <= |family| && AllBelow(family, |t|)
      && FamilyMoved(t, u, p, family, subject, i)
      && oldRoots == RootsLeft(t, family[..i], family) && orphans == MembersLeft(t, family[..i], family)
    }

    static lemma MovingStart(t: Table, p: nat, family: seq<nat>, subject: Option<string>)
      requires Family(t, p, family)
      ensures Moving(t, t, p, family, subject, 0, {}, {})
    {
    }

    static lemma MovingStep(t: Table, u: Table, p: nat, family: seq<nat>, subject: Option<string>, i: nat,
                            oldRoots: set<nat>, orphans: set<nat>)
      requires Family(t, p, family) && i < |family| && Moving(t, u, p, family, subject, i, oldRoots, orphans)
      ensures var m := family[i];
              && m < |u| == |t|
              && Moving(t, u[m := FamilyInfo(u[m], p, family, subject, m)], p, family, subject, i + 1,
                        if u[m].root in family then oldRoots else oldRoots + {u[m].root},
                        orphans + Orphaning(u[m].replies, family))
    {
      FamilyStep(t, u, p, family, subject, i);
      assert family[..i + 1] == family[..i] + [family[i]];
      LeftStep(t, family[..i], family[i], family);
      hide FamilyInfo, RootsLeft, MembersLeft;
    }

    static lemma MovingEnd(t: Table, u: Table, p: nat, family: seq<nat>, subject: Option<string>,
                           oldRoots: set<nat>, orphans: set<nat>)
      requires Moving(t, u, p, family, subject, |family|, oldRoots, orphans)
      ensures FamilyMoved(t, u, p, family, subject, |family|)
      ensures oldRoots == OldRoots(t, family) && orphans == Orphans(t, family)
    {
      assert family[..|family|] == family;
    }

    /** The second loop: messages left without a root get the first of them as their root. */
    method AdoptOrphans(orphans: seq<nat>)
      requires AllBelow(orphans, |INDEX|) && NoDup(orphans)
      requires IdsOk(INDEX, MSGIDS)
      modifies this
      ensures |INDEX| == |old(INDEX)| && IdsOk(INDEX, MSGIDS)
      ensures forall x: nat :: x < |INDEX| ==>
                INDEX[x] == if x in orphans
                            then EditInfo(old(INDEX)[x], None, if x == orphans[0] then Some(orphans) else None,
                                          None, Some(orphans[0]))
                            else old(INDEX)[x]
    {
      hide IdsOk, EditInfo;
      var i := 0;
      while i < |orphans|
        invariant 0 <= i <= |orphans|
        invariant |INDEX| == |old(INDEX)| && IdsOk(INDEX, MSGIDS)
        invariant forall x: nat :: x < |INDEX| ==>
                    INDEX[x] == if x in orphans[..i]
                                then EditInfo(old(INDEX)[x], None, if x == orphans[0] then Some(orphans) else None,
                                              None, Some(orphans[0]))
                                else old(INDEX)[x]
      {
        var o := orphans[i];
        assert o !in orphans[..i];
        SetMsgAtIdxPos(o, EditInfo(INDEX[o], None, if o == orphans[0] then Some(orphans) else None,
                                   None, Some(orphans[0])));
        assert orphans[..i + 1] == orphans[..i] + [o];
        i := i + 1;
      }
      assert orphans[..|orphans|] == orphans;
    }

    /** The third loop: the threads that were left forget the family. */
    method CleanOldRoots(oldRoots: set<nat>, family: seq<nat>)
      requires forall r :: r in oldRoots ==> r < |INDEX|
      requires IdsOk(INDEX, MSGIDS)
      modifies this
      ensures |INDEX| == |old(INDEX)| && IdsOk(INDEX, MSGIDS)
      ensures forall x: nat :: x < |INDEX| ==>
                INDEX[x] == if x in oldRoots
                            then EditInfo(old(INDEX)[x], None, Some(Without(old(INDEX)[x].replies, family)), None, None)
                            else old(INDEX)[x]
    {
      hide IdsOk, EditInfo, Without;
      var todo := oldRoots;
      while todo != {}
        invariant todo <= oldRoots
        invariant |INDEX| == |old(INDEX)| && IdsOk(INDEX, MSGIDS)
        invariant forall x: nat :: x < |INDEX| ==>
                    INDEX[x] == if x in oldRoots - todo
                                then EditInfo(old(INDEX)[x], None, Some(Without(old(INDEX)[x].replies, family)),
                                              None, None)
                                else old(INDEX)[x]
        decreases |todo|
      {
        var r :| r in todo;
        SetMsgAtIdxPos(r, EditInfo(INDEX[r], None, Some(Without(INDEX[r].replies, family)), None, None));
        todo := todo - {r};
      }
    }

    /** `_reparent`: a message and everything reachable from it get a thread of their own. */
    method Reparent(p: nat, hk: Kids, subject: Option<string>) returns (family: seq<nat>, orphans: seq<nat>)
      requires WellFormed() && p < |INDEX|
      requires forall k, x :: k in hk && x in hk[k] ==> x < |INDEX|
      modifies this
      ensures WellFormed() && |INDEX| == |old(INDEX)|
      ensures forall x: nat :: x in family <==> Reaches(hk, p, x)
      ensures Family(old(INDEX), p, family) && Split(old(INDEX), INDEX, p, family, subject, orphans)
      ensures KeepsParents(old(INDEX), INDEX, p, family, subject)
    {
      hide EditInfo, Valid, IdsOk;
      ghost var t := INDEX;
      family := GatherFamily(p, hk);
      ReachableBelow(hk, p, family, |INDEX|);
      assert Family(t, p, family);
      hide Reaches, NoDup, Family;
      var oldRoots, orphanSet := MoveFamily(p, family, subject);
      orphans := SortMids(orphanSet);
      OrphansApart(t, family, orphans, oldRoots);
      ghost var u := INDEX;
      hide FamilyMoved, Split, SortedListOf, Orphans, OldRoots, KeepsParents;
      FamilyMovedSize(t, u, p, family, subject);
      AdoptOrphans(orphans);
      CleanOldRoots(oldRoots, family);
      SplitDone(t, u, INDEX, p, family, subject, orphans, oldRoots);
      SplitKeepsValid(t, INDEX, p, family, subject, orphans);
      SplitKeepsParents(t, INDEX, p, family, subject, orphans);
    }

    static lemma OrphansApart(t: Table, family: seq<nat>, orphans: seq<nat>, oldRoots: set<nat>)
      requires Valid(t) && AllBelow(family, |t|)
      requires SortedListOf(orphans, Orphans(t, family)) && oldRoots == OldRoots(t, family)
      ensures AllBelow(orphans, |t|) && NoDup(orphans)
      ensures forall o: nat :: o in orphans ==> o < |t| && o !in family && o !in oldRoots
      ensures forall r :: r in oldRoots ==> r < |t|
    {
      forall o: nat
        ensures o in orphans ==> o < |t| && o !in family && o !in oldRoots
      {
        OrphansMean(t, family, o);
      }
      assert forall i :: 0 <= i < |orphans| ==> orphans[i] in orphans;
    }

    static lemma FamilyMovedSize(t: Table, u: Table, p: nat, family: seq<nat>, subject: Option<string>)
      requires FamilyMoved(t, u, p, family, subject, |family|)
      ensures |u| == |t|
    {
    }

    /** The three loops together. */
    static lemma SplitDone(t: Table, u: Table, t': Table, p: nat, family: seq<nat>, subject: Option<string>,
                           orphans: seq<nat>, oldRoots: set<nat>)
      requires Family(t, p, family) && FamilyMoved(t, u, p, family, subject, |family|) && |t'| == |t|
      requires SortedListOf(orphans, Orphans(t, family)) && oldRoots == OldRoots(t, family)
      requires forall o: nat :: o in orphans ==> o < |t| && o !in family && o !in oldRoots
      requires forall x: nat :: x < |t| ==>
                 t'[x] == if x in oldRoots then EditInfo(u[x], None, Some(Without(u[x].replies, family)), None, None)
                          else if x in orphans
                          then EditInfo(u[x], None, if x == orphans[0] then Some(orphans) else None,
                                        None, Some(orphans[0]))
                          else u[x]
      ensures Split(t, t', p, family, subject, orphans)
    {
      hide EditInfo, SortedListOf;
      assert family[..|family|] == family;
      forall x: nat | x in family
        ensures x !in oldRoots
      {
      }
    }

    static lemma ReachableBelow(hk: Kids, p: nat, family: seq<nat>, n: nat)
      requires p < n && forall k, x :: k in hk && x in hk[k] ==> x < n
      requires forall x: nat :: x in family <==> Reaches(hk, p, x)
      ensures AllBelow(family, n)
    {
      forall i | 0 <= i < |family|
        ensures family[i] < n
      {
        assert family[i] in family;
        var path :| PathFromTo(hk, path, p, family[i]);
        if |path| > 1 {
          assert path[|path| - 2 + 1] in hk[path[|path| - 2]];
        }
      }
    }

    /** `unthread_message`. Threads stay well formed whatever message is named. A message that is not
        its own parent leaves with its reply-descendants. One that is its own parent stays put, and
        every message of its thread ends with the last of its kids that it descends from. Lines of other
        threads stay as they are, and no mark "/-" comes in. */
    method UnthreadMessage(msg: nat, subject: Option<string>) returns (family: seq<nat>, orphans: seq<nat>)
      requires WellFormed() && msg < |INDEX|
      modifies this
      ensures WellFormed() && |INDEX| == |old(INDEX)|
      ensures NoCuts(old(INDEX)) ==> NoCuts(INDEX)
      ensures forall x: nat :: x < |INDEX| && old(INDEX)[x].root != old(INDEX)[msg].root ==> INDEX[x] == old(INDEX)[x]
      ensures old(INDEX)[msg].ParentKey() != msg ==>
                && Family(old(INDEX), msg, family) && Split(old(INDEX), INDEX, msg, family, subject, orphans)
                && KeepsParents(old(INDEX), INDEX, msg, family, subject)
                && forall x: nat :: x in family <==> Descends(old(INDEX), msg, x)
      ensures old(INDEX)[msg].ParentKey() == msg ==>
                KidsCut(old(INDEX), INDEX, msg, subject)
    {
      ghost var t := INDEX;
      var par, root := INDEX[msg].ParentKey(), INDEX[msg].root;
      var thread := INDEX[root].replies;
      RepliesBelow(t, root);
      var hk := CollectKids(thread);
      KidsBelow(t, thread, hk);
      if par != msg {
        family, orphans := Reparent(msg, hk, subject);
        forall x: nat
          ensures x in family <==> Descends(t, msg, x)
        {
          ReachesIsDescends(t, msg, hk, x);
        }
        FamilyConfined(t, t, INDEX, root, hk, msg, family, subject, orphans);
      } else {
        family, orphans := UnthreadRoot(msg, hk, subject);
      }
    }

    /** The branch for a message that is its own parent. */
    method UnthreadRoot(msg: nat, hk: Kids, subject: Option<string>) returns (family: seq<nat>, orphans: seq<nat>)
      requires WellFormed() && msg < |INDEX| && INDEX[msg].ParentKey() == msg
      requires AllBelow(INDEX[INDEX[msg].root].replies, |INDEX|) && KidsOf(INDEX, INDEX[INDEX[msg].root].replies, hk)
      requires forall k, x :: k in hk && x in hk[k] ==> x < |INDEX|
      modifies this
      ensures WellFormed() && |INDEX| == |old(INDEX)|
      ensures NoCuts(old(INDEX)) ==> NoCuts(INDEX)
      ensures forall x: nat :: x < |INDEX| && old(INDEX)[x].root != old(INDEX)[msg].root ==> INDEX[x] == old(INDEX)[x]
      ensures KidsCut(old(INDEX), INDEX, msg, subject)
    {
      ghost var t := INDEX;
      var root := INDEX[msg].root;
      assert root < |INDEX|;
      hide Valid, LastCutWith, NoCuts, Confined, EditInfo, IdsOk, KidsLoose, KidsCut, KidsOf, KidList;
      var kids := if msg in hk then hk[msg] else [];
      KidsAreListed(t, root, msg, kids);
      family, orphans := CutKids(root, hk, kids);
      ghost var v := INDEX[msg := EditInfo(INDEX[msg], subject, None, Some(msg), Some(msg))];
      UnthreadRootDone(t, INDEX, msg, kids, subject);
      SetMsgAtIdxPos(msg, EditInfo(INDEX[msg], subject, None, Some(msg), Some(msg)));
      assert INDEX == v;
    }

    method CutKids(root: nat, hk: Kids, kids: seq<nat>) returns (family: seq<nat>, orphans: seq<nat>)
      requires WellFormed() && root < |INDEX| && AllBelow(INDEX[root].replies, |INDEX|)
      requires KidsOf(INDEX, INDEX[root].replies, hk)
      requires forall k, x :: k in hk && x in hk[k] ==> x < |INDEX|
      requires AllBelow(kids, |INDEX|) && forall i :: 0 <= i < |kids| ==> INDEX[kids[i]].root == root
      modifies this
      ensures WellFormed() && |INDEX| == |old(INDEX)|
      ensures forall x: nat, j: nat :: x < |INDEX| && j < |kids| && LastCutWith(old(INDEX), kids, |kids|, x, j)
                ==> INDEX[x].root == kids[j]
      ensures kids == [] ==> INDEX == old(INDEX)
      ensures Confined(old(INDEX), INDEX, root) && (NoCuts(old(INDEX)) ==> NoCuts(INDEX))
      ensures KidsLoose(old(INDEX), INDEX, kids, |kids|)
    {
      hide Valid, Confined, NoCuts, Split, Family, LastCutWith, KidsOf, Reaches, KeepsParents, KidsLoose, IdsOk;
      ghost var t := INDEX;
      ConfinedAtFirst(t, root);
      assert KidsLoose(t, t, kids, 0) by {
        NoneLoose(t, kids);
      }
      assert forall x: nat, j: nat :: x < |t| && j <= |kids| ==> !LastCutWith(t, kids, 0, x, j) by {
        NothingCut(t, kids);
      }
      family, orphans := [], [];
      var n := 0;
      while n < |kids|
        invariant 0 <= n <= |kids|
        invariant WellFormed() && |INDEX| == |t|
        invariant forall x: nat, j: nat :: x < |t| && j < |kids| && LastCutWith(t, kids, n, x, j) ==>
                    INDEX[x].root == kids[j]
        invariant n == 0 ==> INDEX == t
        invariant Confined(t, INDEX, root) && (NoCuts(t) ==> NoCuts(INDEX)) && KidsLoose(t, INDEX, kids, n)
      {
        ghost var u := INDEX;
        family, orphans := Reparent(kids[n], hk, None);
        NextKidLoose(t, u, INDEX, kids, n, family);
        NextKids(t, u, INDEX, root, hk, kids, n, family, orphans);
        FamilyConfined(t, u, INDEX, root, hk, kids[n], family, None, orphans);
        n := n + 1;
      }
    }

    static lemma KidsBelow(t: Table, thread: seq<nat>, hk: Kids)
      requires AllBelow(thread, |t|) && KidsOf(t, thread, hk)
      ensures forall k, x :: k in hk && x in hk[k] ==> x < |t|
      ensures forall k, i :: k in hk && 0 <= i < |hk[k]| ==> hk[k][i] < |t|
    {
      forall k, i | k in hk && 0 <= i < |hk[k]|
        ensures hk[k][i] < |t|
      {
        assert hk[k][i] in KidList(t, thread, k);
      }
    }

    static lemma SameRootsKeepValid(u: Table, t: Table)
      requires Valid(u) && |t| == |u|
      requires forall x :: 0 <= x < |u| ==> t[x].root == u[x].root && t[x].replies == u[x].replies
      ensures Valid(t)
    {
      forall r: nat | r < |t| && t[r].root == r
        ensures Listed(t, r)
      {
        assert Listed(u, r);
      }
    }

    static lemma KidsAreListed(t: Table, root: nat, msg: nat, kids: seq<nat>)
      requires Valid(t) && root < |t| && AllBelow(t[root].replies, |t|) && kids == KidList(t, t[root].replies, msg)
      ensures AllBelow(kids, |t|) && forall i :: 0 <= i < |kids| ==> t[kids[i]].root == root
    {
      forall i | 0 <= i < |kids|
        ensures kids[i] < |t| && t[kids[i]].root == root
      {
        assert kids[i] in kids;
        ListedMembers(t, root, kids[i]);
      }
    }

    /** At last the message, which is its own root, gets its thread ID and maybe a subject. */
    static lemma RootReset(t: Table, u: Table, msg: nat, subject: Option<string>)
      requires msg < |t| && Valid(u) && Confined(t, u, t[msg].root) && u[msg].root == msg
      ensures var v := u[msg := EditInfo(u[msg], subject, None, Some(msg), Some(msg))];
              && Valid(v) && (NoCuts(u) ==> NoCuts(v))
              && (forall x: nat :: x < |v| ==> v[x].root == u[x].root)
              && forall x: nat :: x < |v| && t[x].root != t[msg].root ==> v[x] == t[x]
    {
      SameRootsKeepValid(u, u[msg := EditInfo(u[msg], subject, None, Some(msg), Some(msg))]);
    }

    /** The kids of the message are their own parents, nobody else answers anybody else than before, and a given
        subject goes to the message alone. */
    static ghost predicate RootLoose(t: Table, u: Table, msg: nat, kids: seq<nat>, subject: Option<string>) {
      && |u| == |t|
      && forall x: nat :: x < |t| ==>
           && u[x].msgId == t[x].msgId
           && u[x].ParentKey() == (if x in kids then x else t[x].ParentKey())
           && u[x].subject == if x == msg && subject.Some? then subject.value else t[x].subject
    }

    /** The kids were cut loose one after the other: every message that descends from one of them ends in the thread
        of the last such kid, and the message is a root. */
    static ghost predicate KidsCut(t: Table, u: Table, msg: nat, subject: Option<string>) {
      && |u| == |t| && msg < |t| && t[msg].root < |t| && AllBelow(t[t[msg].root].replies, |t|)
      && var kids := KidList(t, t[t[msg].root].replies, msg);
      && AllBelow(kids, |t|) && u[msg].root == msg
      && RootLoose(t, u, msg, kids, subject)
      && forall x: nat, j: nat :: x < |t| && j < |kids| && LastCutWith(t, kids, |kids|, x, j) ==>
           u[x].root == kids[j]
    }

    static lemma RootResetLoose(t: Table, u: Table, msg: nat, kids: seq<nat>, subject: Option<string>)
      requires msg < |t| && KidsLoose(t, u, kids, |kids|) && t[msg].ParentKey() == msg
      ensures RootLoose(t, u[msg := EditInfo(u[msg], subject, None, Some(msg), Some(msg))], msg, kids, subject)
    {
      assert kids[..|kids|] == kids;
    }

    static lemma UnthreadRootDone(t: Table, u: Table, msg: nat, kids: seq<nat>, subject: Option<string>)
      requires Valid(t) && Valid(u) && |u| == |t| && msg < |t| && t[msg].ParentKey() == msg
      requires AllBelow(t[t[msg].root].replies, |t|) && kids == KidList(t, t[t[msg].root].replies, msg)
      requires AllBelow(kids, |t|)
      requires forall x: nat, j: nat :: x < |t| && j < |kids| && LastCutWith(t, kids, |kids|, x, j) ==>
                 u[x].root == kids[j]
      requires kids == [] ==> u == t
      requires Confined(t, u, t[msg].root) && KidsLoose(t, u, kids, |kids|)
      ensures var v := u[msg := EditInfo(u[msg], subject, None, Some(msg), Some(msg))];
              && Valid(v) && (NoCuts(u) ==> NoCuts(v)) && v[msg].root == msg
              && KidsCut(t, v, msg, subject)
              && forall x: nat :: x < |v| && t[x].root != t[msg].root ==> v[x] == t[x]
    {
      OwnParentStaysRoot(t, u, msg, kids);
      hide EditInfo, Valid, RootLoose, KidsLoose, Confined, NoCuts, KidList;
      RootReset(t, u, msg, subject);
      RootResetLoose(t, u, msg, kids, subject);
      hide LastCutWith;
    }

    static lemma OwnParentStaysRoot(t: Table, u: Table, msg: nat, kids: seq<nat>)
      requires Valid(t) && |u| == |t| && msg < |t| && t[msg].ParentKey() == msg
      requires AllBelow(t[t[msg].root].replies, |t|) && kids == KidList(t, t[t[msg].root].replies, msg)
      requires AllBelow(kids, |t|)
      requires forall x: nat, j: nat :: x < |t| && j < |kids| && LastCutWith(t, kids, |kids|, x, j) ==>
                 u[x].root == kids[j]
      requires |kids| == 0 ==> u == t
      ensures u[msg].root == msg
    {
      if t[t[msg].root].replies == [] {
        assert t[t[msg].root].root == t[msg].root;
      } else {
        assert msg in t[t[msg].root].replies;
        assert NoDup(t[t[msg].root].replies);
        KidListNoDup(t, t[t[msg].root].replies, msg);
        var j: nat :| j < |kids| && kids[j] == msg;
        forall l | 0 <= l < |kids|
          ensures Descends(t, kids[l], msg) <==> kids[l] == msg
        {
          assert kids[l] in kids;
          KidDescends(t, msg, kids[l], msg);
        }
        assert LastCutWith(t, kids, |kids|, msg, j);
      }
    }
  }
}
