/** Tagging over whole runs (mailpile/search.py:226-234, 1572-1836). */
module TagRuns {
  import opened Tags
  import opened TagIndex

  datatype Op =
    | Put(pos: nat, info: Info)
    | Add(msgs: set<nat>, tag: Tag, conversation: bool)
    | Remove(msgs: set<nat>, tag: Tag, conversation: bool)
    | Delete(pos: nat)

  method DoOp(index: TagIndex, op: Op)
    requires index.Consistent() && index.Coherent({})
    modifies index, index.CACHE.Values
    ensures index.Consistent() && index.Coherent({}) && fresh(index.CACHE.Values - old(index.CACHE.Values))
  {
    hide Agrees, Revised, Retagged, Reached;
    match op {
      case Put(pos, info) =>
        var m := new MsgInfo(info);
        index.SetMsgAtIdxPos(pos, m);
      case Add(msgs, tag, conversation) =>
        var _ := index.AddTag(msgs, tag, conversation);
      case Remove(msgs, tag, conversation) =>
        var _ := index.RemoveTag(msgs, tag, conversation);
      case Delete(pos) =>
        index.DeleteMsgAtIdxPos(pos);
    }
  }

  /** Over every run of storing, tagging, untagging and deleting: TAGS has exactly the messages whose records have
      the tag, for every known tag; INDEX_THR has the roots of the records; and no cached object is stale. */
  method RunOps(index: TagIndex, ops: seq<Op>)
    requires index.Consistent() && index.Coherent({})
    modifies index, index.CACHE.Values
    ensures index.Consistent() && index.Coherent({})
    ensures forall tag, p :: tag in index.known && 0 <= p < |index.INDEX| ==>
              (p in Lookup(index.TAGS, tag) <==> tag in Get(index.INDEX, p).tags)
  {
    hide Agrees;
    for i := 0 to |ops|
      invariant index.Consistent() && index.Coherent({}) && fresh(index.CACHE.Values - old(index.CACHE.Values))
    {
      DoOp(index, ops[i]);
    }
    AgreementMeans(index.INDEX, index.INDEX_THR, index.TAGS, index.known);
  }

  lemma AgreementMeans(index: Index, thr: seq<int>, tags: TagMap, known: set<Tag>)
    requires Agrees(index, thr, tags, known)
    ensures forall tag, p :: tag in known && 0 <= p < |index| ==>
              (p in Lookup(tags, tag) <==> tag in Get(index, p).tags)
  {
    forall tag, p | tag in known && 0 <= p < |index|
      ensures p in Lookup(tags, tag) <==> tag in Get(index, p).tags
    {
      assert Lookup(tags, tag) == Having(index, tag);
    }
  }
}
