/** The metadata index as the tagging code updates it, through a cache of records that are objects
    (mailpile/search.py:226-234, 1572-1836, mailpile/index/base.py:170-189). */
module TagIndex {
  import opened Wrappers
  import opened Tags
  import T = ThreadTable

  const MAX_CACHE_ENTRIES := 2500

  /** A parsed record. Whoever asks for a position gets the cached object itself, and may write to it. */
  class MsgInfo {
    var info: Info

    constructor (i: Info)
      ensures info == i
    {
      info := i;
    }
  }

  class TagIndex {
    const known: set<Tag>
    var INDEX: Index
    var INDEX_THR: seq<int>
    var TAGS: TagMap
    var CACHE: map<nat, MsgInfo>

    ghost predicate Consistent()
      reads this
    {
      Agrees(INDEX, INDEX_THR, TAGS, known)
    }

    /** Cached objects are the records of the index, and no object is cached twice; `except` is the
        position whose object is being written to. */
    ghost predicate Coherent(except: set<nat>)
      reads this, CACHE.Values
    {
      && (forall p :: p in CACHE && p !in except ==>
            p < |INDEX| && INDEX[p].Some? && CACHE[p].info == INDEX[p].value)
      && (forall p, q :: p in CACHE && q in CACHE && p != q ==> CACHE[p] != CACHE[q])
    }

    constructor (tags: set<Tag>)
      ensures known == tags && INDEX == [] && INDEX_THR == [] && TAGS == map[] && CACHE == map[]
      ensures Consistent() && Coherent({})
    {
      known, INDEX, INDEX_THR, TAGS, CACHE := tags, [], [], map[], map[];
    }

    /** Reading through the cache. */
    method GetMsgAtIdxPos(pos: nat) returns (r: MsgInfo)
      requires Coherent({})
      modifies this`CACHE
      ensures Coherent({}) && r.info == Get(INDEX, pos)
      ensures if pos < |INDEX| && INDEX[pos].Some? then pos in CACHE && CACHE[pos] == r
              else fresh(r) && r !in CACHE.Values
      ensures fresh(CACHE.Values - old(CACHE.Values))
    {
      if pos in CACHE {
        return CACHE[pos];
      }
      if |CACHE| > MAX_CACHE_ENTRIES {
        Evict();
      }
      r := new MsgInfo(Get(INDEX, pos));
      if pos < |INDEX| && INDEX[pos].Some? {
        CACHE := CACHE[pos := r];
      }
    }

    /** Evicting drops any of the entries. */
    method Evict()
      requires Coherent({})
      modifies this`CACHE
      ensures Coherent({}) && CACHE.Keys <= old(CACHE).Keys && CACHE.Values <= old(CACHE.Values)
    {
      var evicted :| evicted <= CACHE.Keys;
      CACHE := CACHE - evicted;
    }

    method UpdateMsgTags(pos: nat, info: Info)
      modifies this`TAGS
      ensures TAGS == Retagged(old(TAGS), pos, Known(info, known))
    {
      var mine := info.tags * known;
      ghost var was := TAGS;
      TAGS := Without(TAGS, TAGS.Keys - mine, pos);
      TAGS := With(TAGS, mine, pos);
      assert TAGS == Retagged(was, pos, mine);
    }

    static method Without(tags: TagMap, drop: set<Tag>, pos: nat) returns (out: TagMap)
      requires drop <= tags.Keys
      ensures out.Keys == tags.Keys
      ensures forall tag :: tag in tags ==> out[tag] == if tag in drop then tags[tag] - {pos} else tags[tag]
    {
      out := tags;
      var todo := drop;
      while todo != {}
        invariant todo <= drop && out.Keys == tags.Keys
        invariant forall tag :: tag in tags ==>
                    out[tag] == if tag in drop && tag !in todo then tags[tag] - {pos} else tags[tag]
        decreases |todo|
      {
        var tag :| tag in todo;
        todo := todo - {tag};
        out := out[tag := out[tag] - {pos}];
      }
    }

    static method With(tags: TagMap, mine: set<Tag>, pos: nat) returns (out: TagMap)
      ensures forall tag :: tag in out <==> tag in tags || tag in mine
      ensures forall tag :: tag in mine ==> out[tag] == Plus(Lookup(tags, tag), pos)
      ensures forall tag :: tag in tags && tag !in mine ==> out[tag] == tags[tag]
    {
      hide Plus;
      out := tags;
      var todo := mine;
      while todo != {}
        invariant todo <= mine
        invariant forall tag :: tag in out <==> tag in tags || (tag in mine && tag !in todo)
        invariant forall tag :: tag in mine && tag !in todo ==> out[tag] == Plus(Lookup(tags, tag), pos)
        invariant forall tag :: tag in tags && (tag !in mine || tag in todo) ==> out[tag] == tags[tag]
        decreases |todo|
      {
        var tag :| tag in todo;
        todo := todo - {tag};
        out := out[tag := Plus(Lookup(out, tag), pos)];
      }
    }

    /** Storing a record. The object may be the cached one; then it leaves the cache. */
    method SetMsgAtIdxPos(pos: nat, m: MsgInfo)
      requires Consistent() && Coherent({pos})
      requires m in CACHE.Values ==> pos in CACHE && CACHE[pos] == m
      modifies this
      ensures Consistent() && Coherent({})
      ensures INDEX == WithRecord(old(INDEX), pos, m.info) && pos !in CACHE && CACHE.Values <= old(CACHE.Values)
      ensures INDEX_THR == WithThread(old(INDEX_THR), pos, m.info.root)
      ensures TAGS == Retagged(old(TAGS), pos, Known(m.info, known))
    {
      hide Retagged, Agrees, WithRecord, WithThread, Known;
      AgreesLength(INDEX, INDEX_THR, TAGS, known);
      SetKeepsAgreement(INDEX, INDEX_THR, TAGS, known, pos, m.info);
      PutRecord(pos, m.info);
      UpdateMsgTags(pos, m.info);
      CACHE := CACHE - {pos};
    }

    method PutRecord(pos: nat, info: Info)
      requires |INDEX| == |INDEX_THR|
      modifies this`INDEX, this`INDEX_THR
      ensures INDEX == WithRecord(old(INDEX), pos, info) && INDEX_THR == WithThread(old(INDEX_THR), pos, info.root)
      ensures |INDEX| >= |old(INDEX)| && forall p :: 0 <= p < |old(INDEX)| && p != pos ==> INDEX[p] == old(INDEX)[p]
    {
      PadIndex(pos);
      INDEX := INDEX[pos := Some(Written(info))];
      INDEX_THR := INDEX_THR[pos := info.root];
    }

    method PadIndex(pos: nat)
      requires |INDEX| == |INDEX_THR|
      modifies this`INDEX, this`INDEX_THR
      ensures INDEX == Padded(old(INDEX), pos, None) && INDEX_THR == Padded(old(INDEX_THR), pos, -1)
    {
      ghost var was, wasThr := INDEX, INDEX_THR;
      while |INDEX| <= pos
        invariant |INDEX_THR| == |INDEX| && |was| <= |INDEX| <= (if |was| > pos then |was| else pos + 1)
        invariant INDEX == was + seq(|INDEX| - |was|, i => None)
        invariant INDEX_THR == wasThr + seq(|INDEX| - |was|, i => -1)
        decreases pos + 1 - |INDEX|
      {
        INDEX, INDEX_THR := INDEX + [None], INDEX_THR + [-1];
      }
    }

    /** What both tagging methods do with one message in range; `changed` says whether it was. */
    method Revise(pos: nat, add: bool, tag: Tag) returns (changed: bool)
      requires Coherent({}) && pos < |INDEX|
      modifies this`CACHE, this`INDEX, CACHE.Values
      ensures Coherent({}) && INDEX == Revised(old(INDEX), {pos}, add, tag, known)
      ensures changed <==> Changes(add, Get(old(INDEX), pos), tag, known)
      ensures fresh(CACHE.Values - old(CACHE.Values))
    {
      hide Revised, Get;
      ReviseOneIs(INDEX, pos, add, tag, known);
      var m := GetMsgAtIdxPos(pos);
      var tags := m.info.tags * known;
      changed := if add then tag !in tags else tag in tags;
      if changed {
        Rewrite(pos, m, Written(m.info).(tags := if add then tags + {tag} else tags - {tag}));
      }
    }

    /** Writing to an object, which may be the cached one, and to its line. */
    method Rewrite(pos: nat, m: MsgInfo, info: Info)
      requires Coherent({}) && pos < |INDEX|
      requires m in CACHE.Values ==> pos in CACHE && CACHE[pos] == m
      modifies this`CACHE, this`INDEX, m
      ensures Coherent({}) && INDEX == old(INDEX)[pos := Some(info)] && CACHE == old(CACHE) - {pos}
    {
      m.info := info;
      INDEX := INDEX[pos := Some(m.info)];
      CACHE := CACHE - {pos};
    }

    /** The positions that a call is about: those given, and their conversations if so asked. */
    method Targets(msgs: set<nat>, conversation: bool) returns (all: set<nat>)
      ensures all == About(INDEX, msgs, conversation)
    {
      all := msgs;
      if conversation {
        all := ReachAll(INDEX, msgs);
      }
    }

    static method ReachAll(index: Index, msgs: set<nat>) returns (all: set<nat>)
      ensures all == msgs + Reached(index, msgs)
    {
      hide Conversation, Reached;
      all := msgs;
      var todo := msgs;
      ghost var done: set<nat> := {};
      assert all == msgs + Reached(index, done) by {
        ReachedNone(index);
      }
      while todo != {}
        invariant done + todo == msgs && all == msgs + Reached(index, done)
        decreases |todo|
      {
        var pos :| pos in todo;
        ReachedMore(index, done, pos);
        todo, done := todo - {pos}, done + {pos};
        all := all + Conversation(index, pos);
      }
    }

    /** The loop that both tagging methods run over the positions. */
    method ReviseAll(all: set<nat>, add: bool, tag: Tag) returns (eids: set<nat>, changed: set<nat>)
      requires Coherent({})
      modifies this`CACHE, this`INDEX, CACHE.Values
      ensures Coherent({}) && fresh(CACHE.Values - old(CACHE.Values))
      ensures eids == InRange(all, |INDEX|)
      ensures INDEX == Revised(old(INDEX), eids, add, tag, known)
      ensures changed == Changed(old(INDEX), eids, add, tag, known)
    {
      hide Revised, RevisedSoFar, One, Changes, Changed, InRange, Coherent, Get;
      ghost var was := INDEX;
      RevisedFirst(was, add, tag, known);
      eids, changed := {}, {};
      var todo := all;
      InRangeNone(|was|);
      while todo != {}
        invariant todo <= all && eids == InRange(all - todo, |was|) && |INDEX| == |was|
        invariant Coherent({}) && fresh(CACHE.Values - old(CACHE.Values))
        invariant RevisedSoFar(was, INDEX, eids, changed, add, tag, known)
        decreases |todo|
      {
        var pos :| pos in todo;
        eids, changed := ReviseStep(pos, add, tag, eids, changed, was, all - todo);
        assert all - (todo - {pos}) == all - todo + {pos};
        todo := todo - {pos};
      }
      assert all - {} == all;
      SoFarMeans(was, INDEX, eids, changed, add, tag, known);
    }

    /** The loop body: one position, if it is in range. */
    method ReviseStep(pos: nat, add: bool, tag: Tag, eids0: set<nat>, changed0: set<nat>,
                      ghost was: Index, ghost done: set<nat>)
      returns (eids: set<nat>, changed: set<nat>)
      requires Coherent({}) && pos !in done && eids0 == InRange(done, |was|) && |INDEX| == |was|
      requires RevisedSoFar(was, INDEX, eids0, changed0, add, tag, known)
      modifies this`CACHE, this`INDEX, CACHE.Values
      ensures Coherent({}) && fresh(CACHE.Values - old(CACHE.Values))
      ensures eids == InRange(done + {pos}, |was|) && |INDEX| == |was|
      ensures RevisedSoFar(was, INDEX, eids, changed, add, tag, known)
    {
      hide Revised, RevisedSoFar, One, Changes, Changed, InRange, Coherent, Get;
      InRangeMore(done, pos, |was|);
      eids, changed := eids0, changed0;
      if pos < |INDEX| {
        ghost var before := INDEX;
        var c := Revise(pos, add, tag);
        eids := eids + {pos};
        changed := if c then changed + {pos} else changed;
        RevisedMore(was, before, INDEX, eids0, changed0, pos, c, add, tag, known);
        SoFarMeans(was, INDEX, eids, changed, add, tag, known);
      }
    }

    /** `add_tag`. */
    method AddTag(msgs: set<nat>, tag: Tag, conversation: bool) returns (added: set<nat>)
      requires Consistent() && Coherent({})
      modifies this, CACHE.Values
      ensures Consistent() && Coherent({}) && fresh(CACHE.Values - old(CACHE.Values))
      ensures var eids := InRange(About(old(INDEX), msgs, conversation), |INDEX|);
              && INDEX == Revised(old(INDEX), eids, true, tag, known)
              && added == Changed(old(INDEX), eids, true, tag, known)
      ensures CalledOn(old(INDEX), INDEX, About(old(INDEX), msgs, conversation), true, tag, known, added)
      ensures INDEX_THR == old(INDEX_THR)
    {
      ghost var was := INDEX;
      CalledOnMeans(was, About(was, msgs, conversation), true, tag, known);
      hide Agrees, Revised, Reindexed, Changes, Changed, Reached, One, CalledOn;
      if msgs == {} {
        ReachedNone(INDEX);
        ReviseNone(INDEX, true, tag, known);
        InRangeNone(|INDEX|);
        assert InRange(About(INDEX, msgs, conversation), |INDEX|) == {};
        return {};
      }
      var all := Targets(msgs, conversation);
      var eids;
      eids, added := ReviseAll(all, true, tag);
      ReviseKeepsAgreement(was, INDEX_THR, TAGS, known, eids, true, tag);
      TAGS := TaggedMap(TAGS, eids, tag);
    }

    static method TaggedMap(tags: TagMap, eids: set<nat>, tag: Tag) returns (out: TagMap)
      ensures out == Reindexed(tags, eids, true, tag)
    {
      out := tags;
      if tag in out {
        out := out[tag := out[tag] + eids];
      } else if eids != {} {
        out := out[tag := eids];
      }
    }

    /** `remove_tag`. */
    method RemoveTag(msgs: set<nat>, tag: Tag, conversation: bool) returns (removed: set<nat>)
      requires Consistent() && Coherent({})
      modifies this, CACHE.Values
      ensures Consistent() && Coherent({}) && fresh(CACHE.Values - old(CACHE.Values))
      ensures var eids := InRange(About(old(INDEX), msgs, conversation), |INDEX|);
              && INDEX == Revised(old(INDEX), eids, false, tag, known)
              && removed == Changed(old(INDEX), eids, false, tag, known)
      ensures CalledOn(old(INDEX), INDEX, About(old(INDEX), msgs, conversation), false, tag, known, removed)
      ensures INDEX_THR == old(INDEX_THR)
    {
      ghost var was := INDEX;
      CalledOnMeans(was, About(was, msgs, conversation), false, tag, known);
      hide Agrees, Revised, Reindexed, Changes, Changed, Reached, One, CalledOn;
      if msgs == {} {
        ReachedNone(INDEX);
        ReviseNone(INDEX, false, tag, known);
        InRangeNone(|INDEX|);
        assert InRange(About(INDEX, msgs, conversation), |INDEX|) == {};
        return {};
      }
      var all := Targets(msgs, conversation);
      var eids;
      eids, removed := ReviseAll(all, false, tag);
      ReviseKeepsAgreement(was, INDEX_THR, TAGS, known, eids, false, tag);
      TAGS := UntaggedMap(TAGS, eids, tag);
    }

    static method UntaggedMap(tags: TagMap, eids: set<nat>, tag: Tag) returns (out: TagMap)
      ensures out == Reindexed(tags, eids, false, tag)
    {
      out := if tag in tags then tags[tag := tags[tag] - eids] else tags;
    }

    /** `delete_msg_at_idx_pos`: the record is emptied and loses all known tags, and the message leaves the
        tag index; its thread stays. */
    method DeleteMsgAtIdxPos(pos: nat)
      requires Consistent() && Coherent({})
      modifies this, CACHE.Values
      ensures Consistent() && Coherent({}) && fresh(CACHE.Values - old(CACHE.Values))
      ensures |INDEX| == if |old(INDEX)| > pos then |old(INDEX)| else pos + 1
      ensures forall p :: 0 <= p < |INDEX| && p != pos ==> Get(INDEX, p) == Get(old(INDEX), p)
      ensures Known(Get(INDEX, pos), known) == {} && Get(INDEX, pos).rest == DELETED
      ensures Get(INDEX, pos).root == Get(old(INDEX), pos).root
              && Get(INDEX, pos).replies == Get(old(INDEX), pos).replies
    {
      hide Agrees, Revised, Retagged, WithThread, One;
      var info := Nuke(pos);
      UntagAll(pos, info.tags * known);
    }

    /** Most of the record goes. */
    method Nuke(pos: nat) returns (info: Info)
      requires Consistent() && Coherent({})
      modifies this, CACHE.Values
      ensures Consistent() && Coherent({}) && fresh(CACHE.Values - old(CACHE.Values))
      ensures info == Get(old(INDEX), pos).(rest := DELETED) && INDEX == WithRecord(old(INDEX), pos, info)
    {
      hide Agrees, Retagged, WithThread, WithRecord, Get;
      var m := GetMsgAtIdxPos(pos);
      m.info := m.info.(rest := DELETED);
      info := m.info;
      SetMsgAtIdxPos(pos, m);
    }

    /** Removing all known tags of one message. */
    method UntagAll(pos: nat, mine: set<Tag>)
      requires Consistent() && Coherent({}) && pos < |INDEX| && mine == Known(Get(INDEX, pos), known)
      modifies this, CACHE.Values
      ensures Consistent() && Coherent({}) && fresh(CACHE.Values - old(CACHE.Values))
      ensures |INDEX| == |old(INDEX)|
      ensures forall p :: 0 <= p < |INDEX| && p != pos ==> Get(INDEX, p) == Get(old(INDEX), p)
      ensures Known(Get(INDEX, pos), known) == {} && SameButTags(Get(old(INDEX), pos), Get(INDEX, pos))
    {
      hide Agrees, Revised, One, Get, Known;
      ghost var before := INDEX;
      var todo := mine;
      while todo != {}
        invariant Consistent() && Coherent({}) && fresh(CACHE.Values - old(CACHE.Values))
        invariant |INDEX| == |before|
        invariant forall p :: 0 <= p < |INDEX| && p != pos ==> Get(INDEX, p) == Get(before, p)
        invariant Known(Get(INDEX, pos), known) == todo && SameButTags(Get(before, pos), Get(INDEX, pos))
        decreases |todo|
      {
        var tag :| tag in todo;
        ghost var was := INDEX;
        var removed := RemoveTag({pos}, tag, false);
        assert InRange({pos}, |was|) == {pos};
        ReviseIs(was, {pos}, false, tag, known);
        Untagged(Get(was, pos), tag, known);
        todo := todo - {tag};
      }
    }
  }

  /** MSG_BODY_DELETED, and blanks elsewhere. */
  const DELETED := "{D}"

  lemma Untagged(info: Info, tag: Tag, known: set<Tag>)
    requires tag in Known(info, known)
    ensures var u := One(false, info, tag, known);
            Known(u, known) == Known(info, known) - {tag} && SameButTags(info, u)
  {
  }

  lemma ReviseIs(index: Index, eids: set<nat>, add: bool, tag: Tag, known: set<Tag>)
    ensures var out := Revised(index, eids, add, tag, known);
            |out| == |index|
            && forall p :: 0 <= p < |index| ==>
                 Get(out, p) == if p in eids then One(add, Get(index, p), tag, known) else Get(index, p)
  {
    hide One;
  }

  function InRange(s: set<nat>, n: nat): set<nat> {
    set p | p in s && p < n
  }

  /** What becomes of one record. */
  lemma ReviseOneIs(index: Index, pos: nat, add: bool, tag: Tag, known: set<Tag>)
    requires pos < |index|
    ensures var info := Get(index, pos);
            var tags := info.tags * known;
            Revised(index, {pos}, add, tag, known)
            == if Changes(add, info, tag, known)
               then index[pos := Some(Written(info).(tags := if add then tags + {tag} else tags - {tag}))]
               else index
  {
    var info := Get(index, pos);
    assert !Changes(add, info, tag, known) ==> One(add, info, tag, known) == info;
  }

  /** The index and the messages changed while the loop runs. */
  ghost predicate RevisedSoFar(was: Index, now: Index, eids: set<nat>, changed: set<nat>, add: bool, tag: Tag,
                               known: set<Tag>) {
    |now| == |was| && now == Revised(was, eids, add, tag, known) && changed == Changed(was, eids, add, tag, known)
  }

  lemma RevisedMore(was: Index, now: Index, next: Index, eids: set<nat>, changed: set<nat>, pos: nat, c: bool,
                    add: bool, tag: Tag, known: set<Tag>)
    requires RevisedSoFar(was, now, eids, changed, add, tag, known) && pos !in eids && pos < |now|
    requires next == Revised(now, {pos}, add, tag, known) && c == Changes(add, Get(now, pos), tag, known)
    ensures RevisedSoFar(was, next, eids + {pos}, if c then changed + {pos} else changed, add, tag, known)
  {
    hide One, Changes;
    ReviseMore(was, eids, pos, add, tag, known);
  }

  lemma SoFarMeans(was: Index, now: Index, eids: set<nat>, changed: set<nat>, add: bool, tag: Tag, known: set<Tag>)
    requires RevisedSoFar(was, now, eids, changed, add, tag, known)
    ensures |now| == |was| && now == Revised(was, eids, add, tag, known)
            && changed == Changed(was, eids, add, tag, known)
  {
  }

  lemma RevisedFirst(was: Index, add: bool, tag: Tag, known: set<Tag>)
    ensures RevisedSoFar(was, was, {}, {}, add, tag, known)
  {
    ReviseNone(was, add, tag, known);
  }

  lemma InRangeNone(n: nat)
    ensures forall s: set<nat> :: s - s == {} && InRange({}, n) == {}
  {
  }

  lemma InRangeMore(s: set<nat>, pos: nat, n: nat)
    ensures InRange(s + {pos}, n) == if pos < n then InRange(s, n) + {pos} else InRange(s, n)
    ensures pos !in s ==> pos !in InRange(s, n)
  {
  }

  /** The positions whose records a call changes; what it returns. */
  function Changed(index: Index, eids: set<nat>, add: bool, tag: Tag, known: set<Tag>): set<nat> {
    set p | p in eids && Changes(add, Get(index, p), tag, known)
  }

  lemma ReviseNone(index: Index, add: bool, tag: Tag, known: set<Tag>)
    ensures Revised(index, {}, add, tag, known) == index
    ensures Changed(index, {}, add, tag, known) == {}
  {
  }

  lemma ReviseMore(index: Index, eids: set<nat>, pos: nat, add: bool, tag: Tag, known: set<Tag>)
    requires pos !in eids && pos < |index|
    ensures Revised(Revised(index, eids, add, tag, known), {pos}, add, tag, known)
         == Revised(index, eids + {pos}, add, tag, known)
    ensures Get(Revised(index, eids, add, tag, known), pos) == Get(index, pos)
    ensures Changed(index, eids + {pos}, add, tag, known)
         == Changed(index, eids, add, tag, known) + (if Changes(add, Get(index, pos), tag, known) then {pos} else {})
  {
    hide One, Changes;
    var mid := Revised(index, eids, add, tag, known);
    var a, b := Revised(mid, {pos}, add, tag, known), Revised(index, eids + {pos}, add, tag, known);
    assert mid[pos] == index[pos];
    forall p | 0 <= p < |index|
      ensures a[p] == b[p]
    {
      assert p != pos ==> a[p] == mid[p];
    }
  }

  function Plus(s: set<nat>, pos: nat): set<nat> {
    s + {pos}
  }

  /** Does the call change the record? */
  predicate Changes(add: bool, info: Info, tag: Tag, known: set<Tag>) {
    if add then tag !in Known(info, known) else tag in Known(info, known)
  }

  /** The effect of a call on the messages it is about, as far as they are in range: they have the tag, or do not have
      it, afterwards; no other known tag of any message changes, nor any other column, nor any other record; and what
      is returned are the messages for which that was news. */
  ghost predicate CalledOn(was: Index, now: Index, all: set<nat>, add: bool, tag: Tag, known: set<Tag>,
                           changed: set<nat>)
  {
    && |now| == |was|
    && (forall p: nat :: p < |was| ==> SameButTags(Get(was, p), Get(now, p)))
    && (forall p: nat :: p < |was| && (p !in all || p !in changed) ==> now[p] == was[p])
    && (forall p: nat, other :: p < |was| && other in known ==>
          (other in Get(now, p).tags <==> if p in all && other == tag then add else other in Get(was, p).tags))
    && (forall p: nat :: p in changed <==> p in all && p < |was| && (tag in known && tag in Get(was, p).tags) != add)
  }

  lemma CalledOnMeans(was: Index, all: set<nat>, add: bool, tag: Tag, known: set<Tag>)
    ensures var eids := InRange(all, |was|);
            CalledOn(was, Revised(was, eids, add, tag, known), all, add, tag, known,
                     Changed(was, eids, add, tag, known))
  {
    var eids := InRange(all, |was|);
    var now := Revised(was, eids, add, tag, known);
    forall p: nat | p < |was|
      ensures SameButTags(Get(was, p), Get(now, p))
      ensures p !in eids || (tag in known && tag in Get(was, p).tags) == add ==> now[p] == was[p]
      ensures forall other :: other in known ==>
                (other in Get(now, p).tags <==> if p in eids && other == tag then add else other in Get(was, p).tags)
    {
      ReviseExactly(was, eids, add, tag, known, p);
      forall other | other in known
        ensures other in Get(now, p).tags <==>
                if p in eids && other == tag then add else other in Get(was, p).tags
      {
        ReviseMeans(was, eids, add, tag, known, p, other);
      }
    }
    hide Revised, Get;
  }

  /** On well-formed threads, a call on conversations is about the threads of the messages. */
  lemma AboutIsThreads(index: Index, t: T.Table, msgs: set<nat>, x: nat)
    requires T.Valid(t) && HasThreads(index, t) && forall m :: m in msgs ==> m < |t|
    ensures x in About(index, msgs, true) <==> x < |t| && exists m :: m in msgs && t[m].root == t[x].root
  {
    forall m | m in msgs
      ensures x in Conversation(index, m) <==> x < |t| && t[x].root == t[m].root
    {
      ConversationIsThread(index, t, m);
    }
    hide Conversation, T.Valid, HasThreads;
    assert x in Reached(index, msgs) <==> exists m :: m in msgs && x in Conversation(index, m);
  }

  function Reached(index: Index, msgs: set<nat>): set<nat> {
    set pos, x | pos in msgs && x in Conversation(index, pos) :: x
  }

  lemma ReachedNone(index: Index)
    ensures Reached(index, {}) == {}
  {
  }

  lemma ReachedMore(index: Index, done: set<nat>, pos: nat)
    ensures Reached(index, done + {pos}) == Reached(index, done) + Conversation(index, pos)
  {
    hide Conversation;
  }

  function About(index: Index, msgs: set<nat>, conversation: bool): set<nat> {
    if conversation then msgs + Reached(index, msgs) else msgs
  }

  lemma AgreesLength(index: Index, thr: seq<int>, tags: TagMap, known: set<Tag>)
    requires Agrees(index, thr, tags, known)
    ensures |thr| == |index|
  {
  }
}
