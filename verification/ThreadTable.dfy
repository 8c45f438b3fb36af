/** The thread columns of the metadata index (mailpile/search.py): every message names the root
    of its thread and its immediate parent, and a root lists the members of its thread. */
module ThreadTable {
  import opened Wrappers
  import opened Base36

  /** What follows the root in MSG_THREAD_MID: nothing, "/parent", or the mark "/-". */
  datatype Tail = Top | Under(parent: nat) | Cut

  /** The columns of one index line that threading reads or writes. */
  datatype Info = Info(msgId: string, subject: string, root: nat, tail: Tail, replies: seq<nat>)
  {
    /** `MSG_THREAD_MID.split('/')[-1]`, with "-" as -1. */
    function ParentKey(): int {
      match tail
      case Top => root
      case Under(p) => p
      case Cut => -1
    }
  }

  type Table = seq<Info>

  predicate AllBelow(s: seq<nat>, n: nat) {
    forall i :: 0 <= i < |s| ==> s[i] < n
  }

  ghost predicate RootsOk(t: Table) {
    forall x :: 0 <= x < |t| ==> t[x].root < |t| && t[t[x].root].root == t[x].root
  }

  /** The list of a root is empty when it is alone, and otherwise holds its members, once each. */
  ghost predicate Listed(t: Table, r: nat)
    requires r < |t|
  {
    || (t[r].replies == [] && forall x :: 0 <= x < |t| && t[x].root == r ==> x == r)
    || (NoDup(t[r].replies) && forall x: nat :: x in t[r].replies <==> x < |t| && t[x].root == r)
  }

  ghost predicate Valid(t: Table) {
    && RootsOk(t)
    && forall r :: 0 <= r < |t| ==> if t[r].root == r then Listed(t, r) else t[r].replies == []
  }

  /** The thread of a root: every message that names it. */
  ghost function Thread(t: Table, r: nat): set<nat> {
    set x | 0 <= x < |t| && t[x].root == r
  }

  /** No message carries the mark "/-". */
  predicate NoCuts(t: Table) {
    forall x :: 0 <= x < |t| ==> !t[x].tail.Cut?
  }

  /** Lists of members hold known messages only. */
  lemma RepliesBelow(t: Table, r: nat)
    requires Valid(t) && r < |t|
    ensures AllBelow(t[r].replies, |t|)
  {
    forall i | 0 <= i < |t[r].replies|
      ensures t[r].replies[i] < |t|
    {
      assert t[r].replies[i] in t[r].replies;
    }
  }

  lemma ListedMembers(t: Table, r: nat, x: nat)
    requires Valid(t) && r < |t| && x in t[r].replies
    ensures t[r].root == r && x < |t| && t[x].root == r
  {
  }
}
