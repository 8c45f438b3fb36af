/** Which messages the headers of a message name (mailpile/search.py:885-916). */
module ThreadRefs {
  import opened Wrappers
  import opened ThreadTable

  /** The positions of messages, by message ID. */
  type MsgIds = map<string, nat>

  function WithoutRef(refs: seq<string>, ref: string): seq<string> {
    if refs == [] then []
    else if refs[0] == ref then WithoutRef(refs[1..], ref) else [refs[0]] + WithoutRef(refs[1..], ref)
  }

  lemma {:induction false} WithoutRefSkips(refs: seq<string>, ref: string, i: nat)
    requires i < |refs| && refs[i] == ref
    ensures WithoutRef(refs[..i] + refs[i + 1..], ref) == WithoutRef(refs, ref)
  {
    var cut := refs[..i] + refs[i + 1..];
    if i == 0 {
      assert cut == refs[1..];
    } else {
      WithoutRefSkips(refs[1..], ref, i - 1);
      assert cut[1..] == refs[1..][..i - 1] + refs[1..][i..];
    }
  }

  lemma {:induction false} WithoutAbsent(refs: seq<string>, ref: string)
    requires ref !in refs
    ensures WithoutRef(refs, ref) == refs
  {
    if refs == [] {
    } else {
      WithoutAbsent(refs[1..], ref);
    }
  }

  /** In-Reply-To takes precedence: it is moved to the end of the references. */
  function RefOrder(references: seq<string>, inReplyTo: Option<string>): seq<string> {
    match inReplyTo
    case None => references
    case Some(ref) => WithoutRef(references, ref) + [ref]
  }

  method OrderRefs(references: seq<string>, inReplyTo: Option<string>) returns (refs: seq<string>)
    ensures refs == RefOrder(references, inReplyTo) && InOrder(refs, references, inReplyTo)
  {
    RefOrderInOrder(references, inReplyTo);
    hide InOrder;
    refs := references;
    match inReplyTo {
      case None =>
      case Some(ref) =>
        while ref in refs
          invariant WithoutRef(refs, ref) == WithoutRef(references, ref)
          decreases |refs|
        {
          var i := 0;
          while refs[i] != ref
            invariant i < |refs| && ref !in refs[..i]
            decreases |refs| - i
          {
            assert ref in refs[i + 1..];
            i := i + 1;
          }
          WithoutRefSkips(refs, ref, i);
          refs := refs[..i] + refs[i + 1..];
        }
        WithoutAbsent(refs, ref);
        refs := refs + [ref];
    }
  }

  /** The position of the last reference that the index does not know, or -1. */
  function LastMissing(ids: seq<string>, known: MsgIds): (i: int)
    ensures -1 <= i < |ids|
    ensures i >= 0 ==> ids[i] !in known
  {
    if ids == [] then -1
    else if ids[|ids| - 1] !in known then |ids| - 1
    else LastMissing(ids[..|ids| - 1], known)
  }

  /** The messages that the references stand for; of the unknown ones only the last is kept, as the
      ghost at position `pos`. */
  function Resolved(ids: seq<string>, known: MsgIds, missing: int, pos: nat): seq<nat> {
    if ids == [] then []
    else
      var i := |ids| - 1;
      var init := Resolved(ids[..i], known, missing, pos);
      if ids[i] in known then init + [known[ids[i]]]
      else if i == missing then init + [pos]
      else init
  }

  lemma {:induction false} ResolvedBelow(ids: seq<string>, known: MsgIds, missing: int, pos: nat, n: nat)
    requires forall id :: id in known ==> known[id] < n
    requires 0 <= missing < |ids| ==> pos < n
    ensures AllBelow(Resolved(ids, known, missing, pos), n)
  {
    if ids == [] {
    } else {
      ResolvedBelow(ids[..|ids| - 1], known, missing, pos, n);
    }
  }

  /** A message with references always finds at least one of them, if need be the ghost. */
  lemma {:induction false} ResolvedEmpty(ids: seq<string>, known: MsgIds, pos: nat)
    ensures Resolved(ids, known, LastMissing(ids, known), pos) == [] <==> ids == []
  {
    if ids != [] {
      var i := |ids| - 1;
      assert ids[i] !in known ==> LastMissing(ids, known) == i;
    }
  }

  function Encoded(refs: seq<string>, enc: string -> string): (ids: seq<string>)
    ensures |ids| == |refs| && forall i :: 0 <= i < |ids| ==> ids[i] == enc(refs[i])
  {
    seq(|refs|, i requires 0 <= i < |refs| => enc(refs[i]))
  }

  /** The immediate parent, or -1: the last reference, if it was known before this call. */
  function ParentOf(ids: seq<string>, known: MsgIds): int {
    if ids != [] && ids[|ids| - 1] in known then known[ids[|ids| - 1]] else -1
  }

  // --- What they mean --------------------------------------------------------

  predicate Ascending(at: seq<nat>) {
    forall j, k :: 0 <= j < k < |at| ==> at[j] < at[k]
  }

  lemma AscendingMore(at: seq<nat>, n: nat)
    requires Ascending(at) && forall i :: i in at ==> i < n
    ensures Ascending(at + [n])
  {
    forall j, k | 0 <= j < k < |at + [n]|
      ensures (at + [n])[j] < (at + [n])[k]
    {
      assert at[j] in at;
    }
  }

  /** The unknown ID that gets a ghost: the last one. */
  predicate IsLastUnknown(ids: seq<string>, known: MsgIds, i: nat) {
    i < |ids| && ids[i] !in known && forall j :: i < j < |ids| ==> ids[j] in known
  }

  /** The messages stand for the IDs: one for each known ID and one for the last unknown ID, in the order of the
      IDs. */
  ghost predicate StandFor(refs: seq<nat>, ids: seq<string>, known: MsgIds, ghostAt: nat) {
    exists at: seq<nat> :: StandAt(refs, at, ids, known, ghostAt)
  }

  ghost predicate StandAt(refs: seq<nat>, at: seq<nat>, ids: seq<string>, known: MsgIds, ghostAt: nat) {
    && |refs| == |at| && Ascending(at)
    && (forall i: nat :: i in at <==> i < |ids| && (ids[i] in known || IsLastUnknown(ids, known, i)))
    && forall k :: 0 <= k < |at| && at[k] < |ids| ==>
         refs[k] == if ids[at[k]] in known then known[ids[at[k]]] else ghostAt
  }

  lemma {:induction false} LastMissingMeans(ids: seq<string>, known: MsgIds)
    ensures forall i: nat :: IsLastUnknown(ids, known, i) <==> i == LastMissing(ids, known)
    ensures LastMissing(ids, known) < 0 ==> forall i :: 0 <= i < |ids| ==> ids[i] in known
  {
    if ids == [] {
    } else {
      var n := |ids| - 1;
      LastMissingMeans(ids[..n], known);
      if ids[n] in known {
        forall i: nat
          ensures IsLastUnknown(ids, known, i) <==> IsLastUnknown(ids[..n], known, i)
        {
          assert forall j :: 0 <= j < n ==> ids[..n][j] == ids[j];
        }
      }
    }
  }

  lemma {:induction false} ResolvedAt(ids: seq<string>, known: MsgIds, missing: int, ghostAt: nat)
    returns (at: seq<nat>)
    ensures Ascending(at) && |at| == |Resolved(ids, known, missing, ghostAt)|
    ensures forall i: nat :: i in at <==> i < |ids| && (ids[i] in known || i == missing)
    ensures forall k :: 0 <= k < |at| && at[k] < |ids| ==>
              Resolved(ids, known, missing, ghostAt)[k] == if ids[at[k]] in known then known[ids[at[k]]] else ghostAt
  {
    if ids == [] {
      at := [];
    } else {
      var n := |ids| - 1;
      at := ResolvedAt(ids[..n], known, missing, ghostAt);
      forall k | 0 <= k < |at|
        ensures at[k] < n && ids[..n][at[k]] == ids[at[k]]
      {
        assert at[k] in at;
      }
      if ids[n] in known || n == missing {
        AscendingMore(at, n);
        at := at + [n];
      }
    }
  }

  lemma ResolvedStandsFor(ids: seq<string>, known: MsgIds, ghostAt: nat)
    ensures StandFor(Resolved(ids, known, LastMissing(ids, known), ghostAt), ids, known, ghostAt)
  {
    var at := ResolvedAt(ids, known, LastMissing(ids, known), ghostAt);
    LastMissingMeans(ids, known);
    assert StandAt(Resolved(ids, known, LastMissing(ids, known), ghostAt), at, ids, known, ghostAt);
  }

  /** A message that the IDs name: one of them is known as it, or it is the ghost. */
  ghost predicate Named(ids: seq<string>, known: MsgIds, ghostAt: nat, r: nat) {
    exists i: nat :: i < |ids| && (if ids[i] in known then known[ids[i]] == r
                                   else IsLastUnknown(ids, known, i) && r == ghostAt)
  }

  /** Whatever stands for the IDs has exactly the messages that they name. */
  lemma StandForNamed(refs: seq<nat>, ids: seq<string>, known: MsgIds, ghostAt: nat, r: nat)
    requires StandFor(refs, ids, known, ghostAt)
    ensures r in refs <==> Named(ids, known, ghostAt, r)
  {
    var at :| StandAt(refs, at, ids, known, ghostAt);
    if r in refs {
      var k :| 0 <= k < |refs| && refs[k] == r;
      assert at[k] in at;
    }
    if Named(ids, known, ghostAt, r) {
      var i: nat :| i < |ids| && (if ids[i] in known then known[ids[i]] == r
                                  else IsLastUnknown(ids, known, i) && r == ghostAt);
      assert i in at;
      var k :| 0 <= k < |at| && at[k] == i;
      assert refs[k] == r;
    }
  }

  /** The references in the order in which they count: as they are, but In-Reply-To, if there is one, comes last, and
      only there. */
  ghost predicate InOrder(refs: seq<string>, references: seq<string>, inReplyTo: Option<string>) {
    match inReplyTo
    case None => refs == references
    case Some(ref) => refs != [] && refs[|refs| - 1] == ref && WithoutIt(refs[..|refs| - 1], references, ref)
  }

  ghost predicate WithoutIt(refs: seq<string>, references: seq<string>, ref: string) {
    exists at: seq<nat> :: KeptAt(refs, at, references, ref)
  }

  ghost predicate KeptAt(refs: seq<string>, at: seq<nat>, references: seq<string>, ref: string) {
    && |refs| == |at| && Ascending(at)
    && (forall i: nat :: i in at <==> i < |references| && references[i] != ref)
    && forall k :: 0 <= k < |at| && at[k] < |references| ==> refs[k] == references[at[k]]
  }

  lemma {:induction false} WithoutRefAt(references: seq<string>, ref: string, n: nat) returns (at: seq<nat>)
    requires n <= |references|
    ensures Ascending(at) && |at| == |WithoutRef(references[n..], ref)|
    ensures forall i: nat :: i in at <==> n <= i < |references| && references[i] != ref
    ensures forall k :: 0 <= k < |at| && at[k] < |references| ==>
              WithoutRef(references[n..], ref)[k] == references[at[k]]
    decreases |references| - n
  {
    if n == |references| {
      at := [];
    } else {
      at := WithoutRefAt(references, ref, n + 1);
      assert references[n..][1..] == references[n + 1..];
      if references[n] != ref {
        assert WithoutRef(references[n..], ref) == [references[n]] + WithoutRef(references[n + 1..], ref);
        AscendingFrom(n, at);
        at := [n] + at;
      }
    }
  }

  lemma AscendingFrom(n: nat, at: seq<nat>)
    requires Ascending(at) && forall i :: i in at ==> n < i
    ensures Ascending([n] + at)
  {
    assert forall k :: 0 <= k < |at| ==> at[k] in at;
  }

  lemma RefOrderInOrder(references: seq<string>, inReplyTo: Option<string>)
    ensures InOrder(RefOrder(references, inReplyTo), references, inReplyTo)
  {
    match inReplyTo {
      case None =>
      case Some(ref) =>
        var at := WithoutRefAt(references, ref, 0);
        assert references[0..] == references;
        assert KeptAt(WithoutRef(references, ref), at, references, ref);
        assert WithoutIt(WithoutRef(references, ref), references, ref);
        assert RefOrder(references, inReplyTo)[..|WithoutRef(references, ref)|] == WithoutRef(references, ref);
    }
  }
}
