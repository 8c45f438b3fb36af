/** Tags of messages, and the inverted index from a tag to the messages that have it
    (mailpile/search.py:226-234, 1572-1836, mailpile/index/base.py:170-189). */
module Tags {
  import opened Wrappers
  import IndexLines
  import T = ThreadTable
  import Base36

  type Tag = string

  /** A record of the index: its MID, tags, thread root and replies. `rest` stands for the other columns. */
  datatype Info = Info(mid: Option<nat>, tags: set<Tag>, root: int, replies: seq<nat>, rest: string)

  /** The lines of INDEX; None is the blank line of a position that was skipped. */
  type Index = seq<Option<Info>>

  /** What is read at a position that has no record. */
  const BOGUS := Info(None, {}, -1, [], "(not in index)")

  /** The text `None`, read as a number of base 36: the MID of bogus metadata once it is written down. */
  const NONE_MID: nat := 1105034

  /** A record that is stored with the MID `None` is not read back where it was stored. */
  lemma NoneIsAMid()
    ensures IndexLines.MidValue("None") == Some(NONE_MID)
  {
    var a, b, c, d := "N", "No", "Non", "None";
    assert a[..0] == [] && b[..1] == a && c[..2] == b && d[..3] == c;
    assert Base36.Parse(a) == 23;
    assert Base36.Parse(b) == 36 * 23 + 24;
    assert Base36.Parse(c) == 36 * (36 * 23 + 24) + 23;
    assert Base36.Parse(d) == 36 * (36 * (36 * 23 + 24) + 23) + 14;
  }

  function Written(info: Info): Info {
    if info.mid.None? then info.(mid := Some(NONE_MID)) else info
  }

  /** Reading a position. A negative one counts from the end of the list, as Python's lists have it. */
  function Get(index: Index, i: int): Info {
    var p := if i < 0 then |index| + i else i;
    if 0 <= p < |index| && index[p].Some? then index[p].value else BOGUS
  }

  lemma GetCountsBack(index: Index, k: int)
    requires 1 <= k <= |index|
    ensures Get(index, -k) == Get(index, |index| - k)
    ensures index[|index| - k].Some? ==> Get(index, -k) == index[|index| - k].value
  {
  }

  function Known(info: Info, known: set<Tag>): set<Tag> {
    info.tags * known
  }

  // --- Conversations ---------------------------------------------------------

  function Mids(index: Index, positions: seq<nat>): (mids: set<nat>)
    ensures forall m :: m in mids <==> exists k :: 0 <= k < |positions| && Get(index, positions[k]).mid == Some(m)
  {
    if positions == [] then {}
    else
      var n := |positions| - 1;
      var mid := Get(index, positions[n]).mid;
      assert positions == positions[..n] + [positions[n]];
      Mids(index, positions[..n]) + (if mid.Some? then {mid.value} else {})
  }

  function AsSet(mid: Option<nat>): set<nat> {
    if mid.Some? then {mid.value} else {}
  }

  /** `get_conversation`, with ghosts, as the set of the positions that the records name. The root and the
      message itself are put in if the list of replies lacks them. */
  function Conversation(index: Index, pos: int): set<nat> {
    var info := Get(index, pos);
    var head := Get(index, info.root);
    var mids := Mids(index, head.replies);
    var noHead := info.root < 0 || info.root !in mids;
    var noSelf := info.mid.None? || (info.mid.value !in mids && !(noHead && info.mid.value == info.root));
    mids + (if noHead then AsSet(head.mid) else {}) + (if noSelf then AsSet(info.mid) else {})
  }

  /** On any records: the conversation has the listed replies, the head unless the root is among them, and the message
      itself, unless it was taken for the head. */
  lemma ConversationExactly(index: Index, pos: int, x: nat)
    ensures var info := Get(index, pos);
            var head := Get(index, info.root);
            var listed := exists k :: 0 <= k < |head.replies| && Get(index, head.replies[k]).mid == Some(info.root);
            x in Conversation(index, pos) <==>
              || (exists k :: 0 <= k < |head.replies| && Get(index, head.replies[k]).mid == Some(x))
              || (head.mid == Some(x) && !listed)
              || (info.mid == Some(x) && (x != info.root || listed))
  {
  }

  /** The index has the threads of the table. */
  predicate HasThreads(index: Index, t: T.Table) {
    |index| == |t|
    && forall p :: 0 <= p < |t| ==>
         index[p].Some? && index[p].value.mid == Some(p) && index[p].value.root == t[p].root
         && index[p].value.replies == t[p].replies
  }

  /** On well-formed threads, the conversation of a message is exactly its thread. */
  lemma ConversationIsThread(index: Index, t: T.Table, pos: nat)
    requires T.Valid(t) && HasThreads(index, t) && pos < |t|
    ensures Conversation(index, pos) == T.Thread(t, t[pos].root)
  {
    var r := t[pos].root;
    assert T.Listed(t, r);
    var replies := t[r].replies;
    forall m: nat
      ensures m in Mids(index, replies) <==> m in replies
    {
      if m in replies {
        var k :| 0 <= k < |replies| && replies[k] == m;
        assert Get(index, replies[k]).mid == Some(m);
      }
      if m in Mids(index, replies) {
        var k :| 0 <= k < |replies| && Get(index, replies[k]).mid == Some(m);
        assert replies[k] in replies;
      }
    }
  }

  /** The conversation of a position without a record takes in the last message of the index, which is what Python
      finds at the root -1 of bogus metadata. */
  lemma BlankReachesLast(index: Index, pos: nat)
    requires pos < |index| && index[pos].None? && index[|index| - 1].Some?
    requires index[|index| - 1].value.mid.Some?
    ensures index[|index| - 1].value.mid.value in Conversation(index, pos)
  {
    GetCountsBack(index, 1);
  }

  // --- The tag index ---------------------------------------------------------

  type TagMap = map<Tag, set<nat>>

  function Lookup(tags: TagMap, tag: Tag): set<nat> {
    if tag in tags then tags[tag] else {}
  }

  /** The messages whose record has the tag. */
  function Having(index: Index, tag: Tag): set<nat> {
    set p | 0 <= p < |index| && tag in Get(index, p).tags
  }

  /** The two inverted columns agree with the records. */
  ghost predicate Agrees(index: Index, thr: seq<int>, tags: TagMap, known: set<Tag>) {
    && (forall tag :: tag in known ==> Lookup(tags, tag) == Having(index, tag))
    && |thr| == |index|
    && (forall p :: 0 <= p < |index| ==> thr[p] == Get(index, p).root)
  }

  /** `update_msg_tags`. */
  function Retagged(tags: TagMap, pos: nat, mine: set<Tag>): TagMap {
    map tag | tag in tags.Keys + mine :: if tag in mine then Lookup(tags, tag) + {pos} else Lookup(tags, tag) - {pos}
  }

  function Padded<T>(s: seq<T>, pos: nat, filler: T): (out: seq<T>)
    ensures |out| == if |s| > pos then |s| else pos + 1
    ensures forall i :: 0 <= i < |out| ==> out[i] == if i < |s| then s[i] else filler
  {
    if |s| > pos then s else s + seq(pos + 1 - |s|, i => filler)
  }

  function WithRecord(index: Index, pos: nat, info: Info): (out: Index)
    ensures |out| == if |index| > pos then |index| else pos + 1
    ensures forall i :: 0 <= i < |out| ==> Get(out, i) == if i == pos then Written(info) else Get(index, i)
  {
    Padded(index, pos, None)[pos := Some(Written(info))]
  }

  function WithThread(thr: seq<int>, pos: nat, root: int): seq<int> {
    Padded(thr, pos, -1)[pos := root]
  }

  lemma SetKeepsAgreement(index: Index, thr: seq<int>, tags: TagMap, known: set<Tag>, pos: nat, info: Info)
    requires Agrees(index, thr, tags, known)
    ensures Agrees(WithRecord(index, pos, info), WithThread(thr, pos, info.root),
                   Retagged(tags, pos, Known(info, known)), known)
  {
    var index' := WithRecord(index, pos, info);
    var tags' := Retagged(tags, pos, Known(info, known));
    forall tag | tag in known
      ensures Lookup(tags', tag) == Having(index', tag)
    {
      assert Lookup(tags, tag) == Having(index, tag);
      forall p: nat
        ensures p in Lookup(tags', tag) <==> p in Having(index', tag)
      {
        assert p in Lookup(tags, tag) <==> p in Having(index, tag);
      }
    }
  }

  /** One record gets a tag, or loses it. Records that need no change keep even unknown tags. */
  function TagOne(info: Info, tag: Tag, known: set<Tag>): Info {
    if tag in Known(info, known) then info else Written(info).(tags := Known(info, known) + {tag})
  }

  function UntagOne(info: Info, tag: Tag, known: set<Tag>): Info {
    if tag in Known(info, known) then Written(info).(tags := Known(info, known) - {tag}) else info
  }

  function Revised(index: Index, eids: set<nat>, add: bool, tag: Tag, known: set<Tag>): (out: Index)
    ensures |out| == |index|
    ensures forall p :: 0 <= p < |index| && (p !in eids || Get(index, p) == One(add, Get(index, p), tag, known)) ==>
              out[p] == index[p]
    ensures forall p :: 0 <= p < |index| ==>
              Get(out, p) == if p in eids then One(add, Get(index, p), tag, known) else Get(index, p)
  {
    seq(|index|, p requires 0 <= p < |index| =>
      var info := Get(index, p);
      if p in eids && One(add, info, tag, known) != info then Some(One(add, info, tag, known)) else index[p])
  }

  function One(add: bool, info: Info, tag: Tag, known: set<Tag>): Info {
    if add then TagOne(info, tag, known) else UntagOne(info, tag, known)
  }

  /** The tag index after `add_tag` or `remove_tag` on the given positions. */
  function Reindexed(tags: TagMap, eids: set<nat>, add: bool, tag: Tag): TagMap {
    if tag in tags then tags[tag := if add then tags[tag] + eids else tags[tag] - eids]
    else if add && eids != {} then tags[tag := eids]
    else tags
  }

  lemma ReviseKeepsAgreement(index: Index, thr: seq<int>, tags: TagMap, known: set<Tag>,
                             eids: set<nat>, add: bool, tag: Tag)
    requires Agrees(index, thr, tags, known) && forall p :: p in eids ==> p < |index|
    ensures Agrees(Revised(index, eids, add, tag, known), thr, Reindexed(tags, eids, add, tag), known)
  {
    var index', tags' := Revised(index, eids, add, tag, known), Reindexed(tags, eids, add, tag);
    forall other | other in known
      ensures Lookup(tags', other) == Having(index', other)
    {
      assert Lookup(tags, other) == Having(index, other);
      forall p: nat
        ensures p in Lookup(tags', other) <==> p in Having(index', other)
      {
        assert p in Lookup(tags, other) <==> p in Having(index, other);
      }
    }
  }

  /** Two forms of a record that differ in tags, and in how a missing MID is written. */
  predicate SameButTags(a: Info, b: Info) {
    a.root == b.root && a.replies == b.replies && a.rest == b.rest && (a.mid.Some? ==> b.mid == a.mid)
  }

  /** What a call does to a named record: if it has the tag already, or does not have it in the first place, nothing,
      and else it gets or loses the tag, along with all tags that are not known. */
  lemma ReviseExactly(index: Index, eids: set<nat>, add: bool, tag: Tag, known: set<Tag>, p: nat)
    requires p < |index|
    ensures var was, out := Get(index, p), Revised(index, eids, add, tag, known);
            var now := Get(out, p);
            && |out| == |index| && SameButTags(was, now)
            && (p !in eids || (tag in known && tag in was.tags) == add ==> out[p] == index[p])
            && (p in eids && (tag in known && tag in was.tags) != add ==>
                  forall other :: other in now.tags <==>
                    if other == tag then add else other in known && other in was.tags)
  {
  }

  /** After tagging, every named message has the tag; after untagging, none does; and no other known tag of
      any message has changed. */
  lemma ReviseMeans(index: Index, eids: set<nat>, add: bool, tag: Tag, known: set<Tag>, p: nat, other: Tag)
    requires p < |index| && other in known
    ensures other in Get(Revised(index, eids, add, tag, known), p).tags
            <==> if p in eids && other == tag then add else other in Get(index, p).tags
  {
  }
}
