/** Threading over whole runs (mailpile/search.py:846-1150). */
module ThreadRuns {
  import opened Wrappers
  import opened ThreadTable
  import opened ThreadRefs
  import opened ThreadMerge
  import opened ThreadIndex

  datatype Op =
    | Add(id: string, subject: string)
    | Converse(msg: nat, references: seq<string>, inReplyTo: Option<string>)
    | Unthread(msg: nat, newSubject: Option<string>)

  /** Messages are threaded while they are their own root, as they come in. */
  predicate Applies(t: Table, op: Op) {
    match op
    case Add(_, _) => true
    case Converse(msg, _, _) => msg < |t| && t[msg].root == msg
    case Unthread(msg, _) => msg < |t|
  }

  /** Threading a message that is its own root keeps an index without marks well formed. */
  method Converse(index: MailIndex, msg: nat, references: seq<string>, inReplyTo: Option<string>, enc: string -> string)
    requires index.WellFormed() && NoCuts(index.INDEX) && msg < |index.INDEX| && index.INDEX[msg].root == msg
    modifies index
    ensures index.WellFormed() && NoCuts(index.INDEX)
    ensures |old(index.INDEX)| <= |index.INDEX|
    ensures Joined(old(index.INDEX), index.INDEX, msg, Encoded(RefOrder(references, inReplyTo), enc),
                   old(index.MSGIDS))
  {
    hide Merged, Resolved, LastMissing, RefOrder, Encoded, Closed, Valid, IdsOk, Answers, Joined, WithGhost, NoCuts;
    ghost var ids := Encoded(RefOrder(references, inReplyTo), enc);
    ghost var refs := Resolved(ids, index.MSGIDS, LastMissing(ids, index.MSGIDS), |index.INDEX|);
    ghost var t, known := index.INDEX, index.MSGIDS;
    index.SetConversationIds(msg, references, inReplyTo, enc);
    OwnRootIsClosed(t, index.INDEX, msg, refs, ids, known);
  }

  lemma OwnRootIsClosed(t: Table, t': Table, msg: nat, refs: seq<nat>, ids: seq<string>, known: MsgIds)
    requires NoCuts(t) && msg < |t| && t[msg].root == msg
    requires var u := WithGhost(t, ids, known);
             Valid(u) && InRange(u, msg, refs) && Merged(u, t', msg, refs, ParentOf(ids, known))
    ensures Closed(WithGhost(t, ids, known), msg, refs) && NoCuts(t')
  {
    hide Merged, Valid, Closed;
    var u := WithGhost(t, ids, known);
    ClosedWithoutMarks(u, msg, refs);
    MergeKeepsNoCuts(u, t', msg, refs, ParentOf(ids, known));
  }

  /** Over every run of adding, threading and unthreading, threads stay well formed and no mark comes in. */
  method RunOps(index: MailIndex, ops: seq<Op>, enc: string -> string)
    requires index.WellFormed() && NoCuts(index.INDEX)
    modifies index
    ensures index.WellFormed() && NoCuts(index.INDEX)
  {
    hide Valid;
    for i := 0 to |ops|
      invariant index.WellFormed() && NoCuts(index.INDEX)
    {
      if Applies(index.INDEX, ops[i]) {
        match ops[i] {
          case Add(id, subject) =>
            var _ := index.AddNewMsg(id, subject);
          case Converse(msg, references, inReplyTo) =>
            Converse(index, msg, references, inReplyTo, enc);
          case Unthread(msg, subject) =>
            var _, _ := index.UnthreadMessage(msg, subject);
        }
      }
    }
  }
}
