/** Merging the lines of one source into a vCard (mailpile/vcard.py:350-357, 377-456, 484-553, 555-675).
    A card has no two lines of equal name and value, so it is a map from those to the rest of the line. */
module VCardMerge {
  import opened Wrappers

  datatype Key = Key(name: string, value: string)

  /** The rest of a line: the sources that it comes from, each with a version; whether it is marked as
      preferred; and its x-rank. */
  datatype Line = Line(pids: map<nat, nat>, pref: bool, rank: nat)

  type Lines = map<Key, Line>

  const MAX_SRC_PID := 990

  const UNREMOVABLE := {"x-mailpile-rid", "x-mailpile-kind-hint", "clientpidmap", "version"}

  /** The names that a card may have once. */
  const SINGLE := {"kind", "n", "bday", "anniversary", "gender", "version", "rev", "uid"}

  const PLURAL := {"source", "xml", "fn", "nickname", "photo", "adr", "tel", "email", "impp", "lang", "tz", "geo",
                   "title", "role", "logo", "org", "member", "related", "categories", "note", "prodid", "sound",
                   "clientpidmap", "url", "key", "fburl", "caladruri", "caluri"}

  predicate Allowed(name: string) {
    "x-" <= name || name in SINGLE || name in PLURAL
  }

  /** A line of the input. */
  datatype Input = Input(key: Key, pref: bool, rank: nat)

  // --- What merging means, line by line --------------------------------------

  /** An old line of the source that the input lacks: it stays if another source has it, if it is
      preferred, or if it is an e-mail address. */
  predicate Retained(k: Key, l: Line, src: nat) {
    l.pids.Keys == {src} && (l.pref || k.name == "email")
  }

  function Kept(k: Key, l: Line, src: nat, asked: bool): Option<Line> {
    if src !in l.pids || asked then Some(l)
    else if l.pids.Keys != {src} then Some(l.(pids := l.pids - {src}))
    else if Retained(k, l, src) then Some(l)
    else None
  }

  function Merged(k: Key, l: Option<Line>, src: nat, version: nat, asked: Option<Line>): Option<Line> {
    match l
    case None => if asked.Some? then Some(asked.value.(pids := map[src := version])) else None
    case Some(line) =>
      if asked.Some? && src !in line.pids then Some(line.(pids := line.pids[src := version]))
      else Kept(k, line, src, asked.Some?)
  }

  function At(lines: Lines, k: Key): Option<Line> {
    if k in lines then Some(lines[k]) else None
  }

  /** The card is the old one, merged line by line. */
  ghost predicate IsMerged(now: Lines, was: Lines, src: nat, version: nat, input: Lines) {
    forall k: Key :: At(now, k) == Merged(k, At(was, k), src, version, At(input, k))
  }

  /** The lines that carry a source's pid. */
  ghost function Of(lines: Lines, src: nat): set<Key> {
    set k | k in lines && src in lines[k].pids
  }

  /** Other sources keep all their lines, with their versions, and get no new ones. */
  lemma OtherSourcesStay(now: Lines, was: Lines, src: nat, version: nat, input: Lines, k: Key, other: nat)
    requires IsMerged(now, was, src, version, input) && other != src
    ensures k in Of(now, other) <==> k in Of(was, other)
    ensures k in Of(was, other) ==> now[k].pids[other] == was[k].pids[other]
  {
    assert At(now, k) == Merged(k, At(was, k), src, version, At(input, k));
  }

  /** Every line of the card after a merge: it is in the input, or was there, and another source has it, or this one
      never did, or it is preferred or an e-mail address. Old lines keep their preference and rank, new ones have those
      of the input; and the source's pid has the new version exactly where it is new. */
  lemma MergedLine(now: Lines, was: Lines, src: nat, version: nat, input: Lines, k: Key)
    requires IsMerged(now, was, src, version, input)
    ensures k in now <==>
              || k in input
              || (k in was && (was[k].pids.Keys != {src} || was[k].pref || k.name == "email"))
    ensures k in now && k in was ==> now[k].pref == was[k].pref && now[k].rank == was[k].rank
    ensures k in now && k !in was ==> k in input && now[k].pref == input[k].pref && now[k].rank == input[k].rank
    ensures k in now ==> (src in now[k].pids <==> k in input || was[k].pids.Keys == {src})
    ensures k in now && src in now[k].pids ==>
              now[k].pids[src] == if k in was && src in was[k].pids then was[k].pids[src] else version
  {
    assert At(now, k) == Merged(k, At(was, k), src, version, At(input, k));
    if k in was && was[k].pids.Keys == {src} {
      assert src in was[k].pids.Keys;
    }
  }

  /** Lines that no source claims are never lost. */
  lemma OwnLinesStay(now: Lines, was: Lines, src: nat, version: nat, input: Lines, k: Key)
    requires IsMerged(now, was, src, version, input) && k in was && was[k].pids == map[]
    ensures k in now && (k !in input ==> now[k] == was[k])
  {
    assert At(now, k) == Merged(k, At(was, k), src, version, At(input, k));
  }

  /** How many lines a merge loses, changes and adds, as it counts them. */
  ghost function Lost(was: Lines, src: nat, input: Lines): set<Key> {
    set k | k in was && src in was[k].pids && k !in input && !Retained(k, was[k], src)
  }

  ghost function New(was: Lines, input: Lines): set<Key> {
    set k | k in input && k !in was
  }

  /** Merging the same input once more changes nothing, and counts no change. */
  lemma MergeIsIdempotent(now: Lines, was: Lines, src: nat, version: nat, again: nat, input: Lines)
    requires IsMerged(now, was, src, version, input)
    ensures IsMerged(now, now, src, again, input)
    ensures Lost(now, src, input) == {} && New(now, input) == {}
  {
    forall k: Key
      ensures At(now, k) == Merged(k, At(now, k), src, again, At(input, k))
      ensures k !in Lost(now, src, input) && k !in New(now, input)
    {
      assert At(now, k) == Merged(k, At(was, k), src, version, At(input, k));
    }
  }

  lemma SameLines(a: Lines, b: Lines)
    requires forall k: Key :: At(a, k) == At(b, k)
    ensures a == b
  {
    forall k: Key
      ensures k in a <==> k in b
      ensures k in a ==> a[k] == b[k]
    {
      assert At(a, k) == At(b, k);
    }
  }

  /** A second merge of the same input leaves the card as the first one left it, and has nothing to count
      and nothing to raise an error about. */
  lemma SecondMergeDoesNothing(first: Lines, second: Lines, was: Lines, src: nat, version: nat, again: nat,
                               input: Lines)
    requires IsMerged(first, was, src, version, input) && IsMerged(second, first, src, again, input)
    ensures second == first && Lost(first, src, input) == {} && New(first, input) == {}
  {
    MergeIsIdempotent(first, was, src, version, again, input);
    hide Merged, At;
    SameLines(second, first);
  }

  predicate HasName(lines: Lines, name: string) {
    exists o :: o in lines && o.name == name
  }

  predicate HasOther(keys: set<Key>, k: Key) {
    exists o :: o in keys && o != k && o.name == k.name
  }

  /** A line of the input cannot be added: its name is not allowed on a card, or allowed once, and the card
      or the rest of the new lines has it already. */
  predicate Clash(card: Lines, added: set<Key>, k: Key) {
    !Allowed(k.name) || (k.name in SINGLE && (HasName(card, k.name) || HasOther(added, k)))
  }

  // --- The input -------------------------------------------------------------

  function Usable(inputs: seq<Input>): seq<Input> {
    if inputs == [] then []
    else
      var n := |inputs| - 1;
      if inputs[n].key.name in UNREMOVABLE then Usable(inputs[..n]) else Usable(inputs[..n]) + [inputs[n]]
  }

  /** Repeated lines count as one, with a higher rank. */
  function Deduped(inputs: seq<Input>): Lines {
    if inputs == [] then map[]
    else
      var n := |inputs| - 1;
      var lines, x := Deduped(inputs[..n]), inputs[n];
      if x.key in lines then lines[x.key := lines[x.key].(rank := lines[x.key].rank + 1)]
      else lines[x.key := Line(map[], x.pref, x.rank)]
  }

  lemma {:induction false} DedupedHas(inputs: seq<Input>, k: Key)
    ensures k in Deduped(inputs) <==> exists i :: 0 <= i < |inputs| && inputs[i].key == k
  {
    if inputs == [] {
    } else {
      DedupedHas(inputs[..|inputs| - 1], k);
    }
  }

  function Places(inputs: seq<Input>, k: Key): set<nat> {
    set i: nat | i < |inputs| && inputs[i].key == k
  }

  /** A line that is given several times counts as the first of them, its rank raised by one for every other. */
  lemma {:induction false} DedupedMeans(inputs: seq<Input>, i: nat)
    requires i < |inputs| && forall j :: 0 <= j < i ==> inputs[j].key != inputs[i].key
    ensures var k := inputs[i].key;
            && k in Deduped(inputs)
            && Deduped(inputs)[k] == Line(map[], inputs[i].pref, Deduped(inputs)[k].rank)
            && Deduped(inputs)[k].rank + 1 == inputs[i].rank + |Places(inputs, k)|
  {
    var n, k := |inputs| - 1, inputs[i].key;
    PlacesMore(inputs, k);
    if i < n {
      DedupedMeans(inputs[..n], i);
    } else {
      assert Places(inputs[..n], k) == {};
      DedupedHas(inputs[..n], k);
    }
  }

  lemma PlacesMore(inputs: seq<Input>, k: Key)
    requires inputs != []
    ensures var n := |inputs| - 1;
            |Places(inputs, k)| == |Places(inputs[..n], k)| + (if inputs[n].key == k then 1 else 0)
  {
    var n := |inputs| - 1;
    assert Places(inputs, k) == Places(inputs[..n], k) + (if inputs[n].key == k then {n} else {});
    assert n !in Places(inputs[..n], k);
  }

  lemma {:induction false} UsableHas(inputs: seq<Input>, x: Input)
    ensures x in Usable(inputs) <==> x in inputs && x.key.name !in UNREMOVABLE
  {
    if inputs == [] {
    } else {
      var n := |inputs| - 1;
      UsableHas(inputs[..n], x);
      assert inputs == inputs[..n] + [inputs[n]];
    }
  }

  /** After a merge the source's lines are exactly those of the input that may be merged, and those that are
      retained. */
  lemma SourceLines(now: Lines, was: Lines, src: nat, version: nat, inputs: seq<Input>, k: Key)
    requires IsMerged(now, was, src, version, Deduped(Usable(inputs)))
    ensures k in Of(now, src) <==>
              || (k.name !in UNREMOVABLE && exists i :: 0 <= i < |inputs| && inputs[i].key == k)
              || (k in was && Retained(k, was[k], src))
  {
    hide Deduped, Usable, IsMerged, Of, Retained;
    MergedOf(now, was, src, version, Deduped(Usable(inputs)), k);
    InputHas(inputs, k);
  }

  lemma MergedOf(now: Lines, was: Lines, src: nat, version: nat, input: Lines, k: Key)
    requires IsMerged(now, was, src, version, input)
    ensures k in Of(now, src) <==> k in input || (k in was && Retained(k, was[k], src))
  {
    assert At(now, k) == Merged(k, At(was, k), src, version, At(input, k));
  }

  lemma InputHas(inputs: seq<Input>, k: Key)
    ensures k in Deduped(Usable(inputs)) <==>
              k.name !in UNREMOVABLE && exists i :: 0 <= i < |inputs| && inputs[i].key == k
  {
    var usable := Usable(inputs);
    DedupedHas(usable, k);
    if i :| 0 <= i < |usable| && usable[i].key == k {
      UsableHas(inputs, usable[i]);
      assert usable[i] in inputs;
    }
    if i :| 0 <= i < |inputs| && inputs[i].key == k && k.name !in UNREMOVABLE {
      UsableHas(inputs, inputs[i]);
      assert inputs[i] in usable;
    }
  }

  /** An old line that a merge would remove, but must not. */
  predicate Stuck(k: Key, l: Line, src: nat, asked: bool) {
    l.pids.Keys == {src} && !asked && !Retained(k, l, src) && k.name in UNREMOVABLE
  }

  ghost predicate AnyStuck(was: Lines, src: nat, input: Lines) {
    exists k :: k in was && Stuck(k, was[k], src, k in input)
  }

  /** The highest version of a source's lines. */
  ghost predicate IsVersion(lines: Lines, src: nat, version: nat) {
    && (forall k :: k in lines && src in lines[k].pids ==> lines[k].pids[src] <= version)
    && (version > 0 ==> exists k :: k in lines && src in lines[k].pids && lines[k].pids[src] == version)
  }

  // --- The code --------------------------------------------------------------

  datatype Result = Nothing | Changes(n: nat) | Raised

  /** The sources of a card: their identifiers and pids. */
  type Sources = map<string, nat>

  ghost predicate Injective(sources: Sources) {
    forall a, b :: a in sources && b in sources && sources[a] == sources[b] ==> a == b
  }

  class SimpleVCard {
    var lines: Lines
    var sources: Sources

    /** Every pid of a line is that of a known source. */
    ghost predicate Valid()
      reads this
    {
      && Injective(sources)
      && AllKnown(lines, sources)
    }

    constructor ()
      ensures Valid() && lines == map[] && sources == map[]
    {
      lines, sources := map[], map[];
    }

    /** The pid of a source; a new one gets the smallest that is free. */
    method GetPid(srcId: string) returns (pid: Option<nat>, isNew: bool)
      requires Valid()
      modifies this`sources
      ensures Valid()
      ensures srcId in old(sources) ==> pid == Some(old(sources)[srcId]) && !isNew && sources == old(sources)
      ensures srcId !in old(sources) && pid.Some? ==>
                isNew && 1 <= pid.value < MAX_SRC_PID && pid.value !in old(sources).Values
                && sources == old(sources)[srcId := pid.value]
                && forall q :: 1 <= q < pid.value ==> q in old(sources).Values
      ensures pid.None? ==> sources == old(sources)
      ensures AllKnown(lines, sources)
      ensures pid.None? <==> srcId !in old(sources) && Full(old(sources))
    {
      if srcId in sources {
        return Some(sources[srcId]), false;
      }
      for p := 1 to MAX_SRC_PID
        invariant forall q :: 1 <= q < p ==> q in sources.Values
      {
        if p !in sources.Values {
          ghost var was := sources;
          sources := sources[srcId := p];
          StillKnown(lines, was, sources);
          return Some(p), true;
        }
      }
      return None, false;
    }

    /** One old line of the source; false stands for the ValueError that `remove` raises. */
    method DropOne(k: Key, src: nat, asked: bool) returns (ok: bool, changed: bool)
      requires k in lines && src in lines[k].pids
      modifies this`lines
      ensures ok <==> !Stuck(k, old(lines)[k], src, asked)
      ensures !ok ==> lines == old(lines)
      ensures forall x: Key :: x != k ==> At(lines, x) == At(old(lines), x)
      ensures ok ==> At(lines, k) == Kept(k, old(lines)[k], src, asked)
      ensures ok ==> (changed <==> !asked && !Retained(k, old(lines)[k], src))
    {
      var l := lines[k];
      ok, changed := true, false;
      if !asked {
        if l.pids.Keys != {src} {
          lines := lines[k := l.(pids := l.pids - {src})];
          changed := true;
        } else if !l.pref && k.name != "email" {
          if k.name in UNREMOVABLE {
            return false, false;
          }
          lines := lines - {k};
          changed := true;
        }
      }
    }

    /** The first part: old lines of the source that are not in the input go, or lose its pid. If one of them
        cannot be removed it ends there; `done` is what was gone through. */
    method DropOld(src: nat, input: Lines) returns (ok: bool, changes: nat, ghost done: set<Key>)
      modifies this`lines
      ensures ok <==> !AnyStuck(old(lines), src, input)
      ensures Dropped(lines, old(lines), src, input, done)
      ensures ok ==> forall k: Key :: At(lines, k) == AfterDrop(k, At(old(lines), k), src, k in input)
      ensures ok ==> changes == |Lost(old(lines), src, input)|
    {
      hide Retained, Kept, At, AfterDrop, LostOf, Lost, Dropped, Stuck;
      var was := lines;
      ok, changes, done := true, 0, {};
      var todo := Mine(lines, src);
      ghost var mine := todo;
      LostNone(was, src, input);
      DroppedNone(was, src, input);
      while todo != {}
        invariant todo <= mine && mine <= was.Keys && done == mine - todo
        invariant Dropped(lines, was, src, input, done)
        invariant forall k :: k in done ==> !Stuck(k, was[k], src, k in input)
        invariant changes == |LostOf(was, src, input, done)|
        decreases |todo|
      {
        var k :| k in todo;
        DroppedAt(lines, was, src, input, done, k);
        LostMore(was, src, input, done, k);
        ghost var before := lines;
        var changed;
        ok, changed := DropOne(k, src, k in input);
        if !ok {
          return;
        }
        DroppedMore(lines, before, was, src, input, done, k);
        todo, done := todo - {k}, done + {k};
        changes := changes + (if changed then 1 else 0);
      }
      assert done == mine;
      NoneStuck(was, src, input, mine);
      LostIsOfMine(was, src, input, mine);
      DroppedAll(lines, was, src, input, mine);
    }

    method Version(src: nat) returns (version: nat)
      ensures IsVersion(lines, src, version)
    {
      version := 0;
      var todo := lines.Keys;
      while todo != {}
        invariant todo <= lines.Keys
        invariant forall k :: k in lines && k !in todo && src in lines[k].pids ==> lines[k].pids[src] <= version
        invariant version > 0 ==> exists k :: k in lines && src in lines[k].pids && lines[k].pids[src] == version
        decreases |todo|
      {
        var k :| k in todo;
        todo := todo - {k};
        if src in lines[k].pids && lines[k].pids[src] > version {
          version := lines[k].pids[src];
        }
      }
    }

    /** `add`, for one new line; false stands for the ValueError. */
    method Add(k: Key, l: Line) returns (ok: bool)
      requires k !in lines
      modifies this`lines
      ensures ok == (Allowed(k.name) && !(k.name in SINGLE && HasName(old(lines), k.name)))
      ensures lines == if ok then old(lines)[k := l] else old(lines)
    {
      ok := Allowed(k.name) && !(k.name in SINGLE && HasName(lines, k.name));
      if ok {
        lines := lines[k := l];
      }
    }

    /** The second part: what the card lacks of the input is added; what it has gets the source's pid.
        `done` is what was gone through when the method ends. */
    method AddNew(all: set<Key>, src: nat, version: nat, input: Lines)
      returns (ok: bool, changes: nat, ghost done: set<Key>)
      requires all <= input.Keys
      modifies this`lines
      ensures ok <==> NoClash(old(lines), all - old(lines).Keys)
      ensures Extended(lines, old(lines), done, src, version, input) && (ok ==> done == all)
      ensures ok ==> changes == |all - old(lines).Keys|
    {
      hide Progress, NoClash, CanAdd, Extended;
      ghost var card := lines;
      ok, changes, done := true, 0, {};
      ProgressNone(card, src, version, input);
      var todo := all;
      while todo != {}
        invariant todo <= all && done == all - todo
        invariant Progress(lines, card, done, src, version, input, changes)
        decreases |todo|
      {
        var k :| k in todo;
        ProgressMore(lines, card, all, done, src, version, input, changes, k);
        var isNew;
        ok, isNew := AddStep(k, src, version, input[k]);
        if !ok {
          return;
        }
        changes := changes + (if isNew then 1 else 0);
        todo := todo - {k};
        done := done + {k};
      }
      assert done == all;
      ProgressDone(lines, card, done, src, version, input, changes);
    }

    method AddStep(k: Key, src: nat, version: nat, l: Line) returns (ok: bool, isNew: bool)
      modifies this`lines
      ensures ok == CanAdd(old(lines), k) && isNew == (k !in old(lines))
      ensures lines == if ok then WithInput(old(lines), k, src, version, l) else old(lines)
    {
      isNew := k !in lines;
      if isNew {
        ok := Add(k, l.(pids := map[src := version]));
      } else {
        lines := lines[k := lines[k].(pids := lines[k].pids[src := version])];
        ok := true;
      }
    }

    /** Both parts, for a known source. */
    method MergeLines(src: nat, input: Lines) returns (ok: bool, changes: nat, version: nat)
      requires AllKnown(lines, sources) && src in sources.Values
      modifies this`lines
      ensures AllKnown(lines, sources)
      ensures ok <==> !AnyStuck(old(lines), src, input) && NoClash(Left(old(lines), src, input), New(old(lines), input))
      ensures ok ==> IsVersion(old(lines), src, version) && IsMerged(lines, old(lines), src, version + 1, input)
      ensures ok ==> changes == |Lost(old(lines), src, input)| + |New(old(lines), input)|
    {
      hide NoClash, IsMerged, Lost, New, Extended, At, AfterDrop, IsVersion, Left, AnyStuck, Dropped;
      ghost var was := lines;
      version := Version(src);
      var todo := input.Keys - Mine(lines, src);
      var lost, added;
      ghost var done;
      ok, lost, done := DropOld(src, input);
      if !ok {
        DroppedPids(lines, was, src, input, done);
        return false, 0, version;
      }
      ghost var card := lines;
      CardIs(card, was, src, input);
      ok, added, done := AddNew(todo, src, version + 1, input);
      PidsBound(lines, card, was, done, src, version + 1, input);
      NewIs(card, was, src, input);
      if ok {
        MergedIs(lines, card, was, src, version + 1, input);
      }
      changes := lost + added;
    }

    /** Merging. Nothing happens without input; an error is raised if the input has only lines that cannot
        be merged, if no pid is free, if an old line must go that cannot be removed, or if a new line clashes. */
    method Merge(srcId: string, inputs: seq<Input>) returns (r: Result, version: nat)
      requires Valid()
      modifies this
      ensures Valid()
      ensures r == Nothing <==> inputs == []
      ensures r == Nothing ==> lines == old(lines) && sources == old(sources)
      ensures r.Raised? <==> inputs != [] && MergeFails(old(lines), old(sources), srcId, inputs)
      ensures r.Changes? ==>
                && srcId in sources
                && (srcId in old(sources) ==> sources == old(sources))
                && MergeDone(old(lines), lines, sources[srcId], srcId in old(sources), inputs, version, r.n)
    {
      version := 0;
      if inputs == [] {
        return Nothing, 0;
      }
      hide NoClash, Full, IsMerged, Lost, New, Usable, Deduped, IsVersion, CardLeft, AllKnown, Left, Injective,
        AnyStuck, MergeFails, MergeDone;
      ghost var was, wasSources := lines, sources;
      var usable := Usable(inputs);
      var pid, isNew := GetPid(srcId);
      if pid.None? || usable == [] {
        FailsEarly(was, wasSources, srcId, inputs);
        return Raised, 0;
      }
      FailsLate(was, wasSources, srcId, pid.value, inputs);
      assert sources[srcId] in sources.Values;
      var ok, changes;
      ok, changes, version := MergeLines(pid.value, Deduped(usable));
      if ok {
        DoneIs(was, lines, pid.value, isNew, inputs, version, changes);
      }
      r := if ok then Changes((if isNew then 1 else 0) + changes) else Raised;
    }

    /** Merging the same input twice: if the first call succeeds, so does the second one; it reports no change and
        makes none. */
    method MergeTwice(srcId: string, inputs: seq<Input>)
      returns (first: Result, second: Result, ghost between: (Lines, Sources))
      requires Valid()
      modifies this
      ensures Valid()
      ensures first == Nothing <==> inputs == []
      ensures first.Raised? <==> inputs != [] && MergeFails(old(lines), old(sources), srcId, inputs)
      ensures first.Changes? ==> second == Changes(0) && lines == between.0 && sources == between.1
      ensures first.Changes? ==> srcId in sources && exists version ::
                IsMerged(between.0, old(lines), sources[srcId], version, Deduped(Usable(inputs)))
    {
      hide NoClash, Full, IsMerged, Lost, New, Usable, Deduped, IsVersion, CardLeft, AllKnown, Injective, AnyStuck;
      ghost var was, input := lines, Deduped(Usable(inputs));
      var version, again;
      first, version := Merge(srcId, inputs);
      between := (lines, sources);
      second, again := Merge(srcId, inputs);
      if first.Changes? {
        ghost var src := between.1[srcId];
        MergeIsIdempotent(between.0, was, src, version + 1, again + 1, input);
        NothingInTheWay(between.0, was, src, version + 1, input);
        NoClashNone(CardLeft(between.0, between.1, srcId, input));
        SecondMergeDoesNothing(between.0, lines, was, src, version + 1, again + 1, input);
      }
    }
  }

  /** All pids but the largest are taken. */
  predicate Full(sources: Sources) {
    forall p :: 1 <= p < MAX_SRC_PID ==> p in sources.Values
  }

  ghost predicate AllKnown(lines: Lines, sources: Sources) {
    forall k, p :: k in lines && p in lines[k].pids ==> p in sources.Values
  }

  /** When merging raises an error: no pid is free, there is nothing to merge, an old line would have to go that
      cannot be removed, or a new line clashes. */
  ghost predicate MergeFails(was: Lines, sources: Sources, srcId: string, inputs: seq<Input>) {
    || (srcId !in sources && Full(sources))
    || Usable(inputs) == []
    || (srcId in sources && AnyStuck(was, sources[srcId], Deduped(Usable(inputs))))
    || !NoClash(CardLeft(was, sources, srcId, Deduped(Usable(inputs))), New(was, Deduped(Usable(inputs))))
  }

  /** What merging does to the lines, and what it counts. */
  ghost predicate MergeDone(was: Lines, now: Lines, src: nat, known: bool, inputs: seq<Input>, version: nat, n: nat) {
    var input := Deduped(Usable(inputs));
    && IsVersion(was, src, version)
    && IsMerged(now, was, src, version + 1, input)
    && n == (if known then 0 else 1) + |Lost(was, src, input)| + |New(was, input)|
  }

  lemma DoneIs(was: Lines, now: Lines, src: nat, isNew: bool, inputs: seq<Input>, version: nat, changes: nat)
    requires var input := Deduped(Usable(inputs));
             && IsVersion(was, src, version) && IsMerged(now, was, src, version + 1, input)
             && changes == |Lost(was, src, input)| + |New(was, input)|
    ensures MergeDone(was, now, src, !isNew, inputs, version, (if isNew then 1 else 0) + changes)
  {
    hide IsVersion, IsMerged, Lost, New, Usable, Deduped;
  }

  lemma FailsEarly(was: Lines, sources: Sources, srcId: string, inputs: seq<Input>)
    requires (srcId !in sources && Full(sources)) || Usable(inputs) == []
    ensures MergeFails(was, sources, srcId, inputs)
  {
    hide Full, Usable, AnyStuck, NoClash;
  }

  lemma FailsLate(was: Lines, sources: Sources, srcId: string, src: nat, inputs: seq<Input>)
    requires AllKnown(was, sources) && !(srcId !in sources && Full(sources)) && Usable(inputs) != []
    requires if srcId in sources then src == sources[srcId] else src !in sources.Values
    ensures var input := Deduped(Usable(inputs));
            MergeFails(was, sources, srcId, inputs) <==>
              AnyStuck(was, src, input) || !NoClash(Left(was, src, input), New(was, input))
  {
    hide Full, Usable, Deduped, AnyStuck, NoClash, New, Left, CardLeft, AllKnown;
    LeftIs(was, sources, srcId, src, Deduped(Usable(inputs)));
    NewIsNotStuck(was, sources, srcId, src, Deduped(Usable(inputs)));
  }

  /** What the first part leaves of the card. */
  function Left(was: Lines, src: nat, input: Lines): Lines {
    map k | k in was && Kept(k, was[k], src, k in input).Some? :: Kept(k, was[k], src, k in input).value
  }

  /** The same, for a source that may be new. */
  function CardLeft(was: Lines, sources: Sources, srcId: string, input: Lines): Lines {
    if srcId in sources then Left(was, sources[srcId], input) else was
  }

  /** After a merge no line is in the way of the next one. */
  lemma NothingInTheWay(now: Lines, was: Lines, src: nat, version: nat, input: Lines)
    requires IsMerged(now, was, src, version, input)
    ensures !AnyStuck(now, src, input)
  {
    forall k | k in now
      ensures !Stuck(k, now[k], src, k in input)
    {
      assert At(now, k) == Merged(k, At(was, k), src, version, At(input, k));
    }
  }

  lemma NewIsNotStuck(was: Lines, sources: Sources, srcId: string, src: nat, input: Lines)
    requires AllKnown(was, sources)
    requires if srcId in sources then src == sources[srcId] else src !in sources.Values
    ensures AnyStuck(was, src, input) <==> srcId in sources && AnyStuck(was, sources[srcId], input)
  {
    if srcId !in sources {
      forall k | k in was
        ensures !Stuck(k, was[k], src, k in input)
      {
        assert src in {src};
      }
    }
  }

  lemma NoneStuck(was: Lines, src: nat, input: Lines, mine: set<Key>)
    requires mine == Mine(was, src) && forall k :: k in mine ==> !Stuck(k, was[k], src, k in input)
    ensures !AnyStuck(was, src, input)
  {
    forall k | k in was
      ensures !Stuck(k, was[k], src, k in input)
    {
      assert src in {src};
    }
  }

  lemma DroppedPids(now: Lines, was: Lines, src: nat, input: Lines, done: set<Key>)
    requires Dropped(now, was, src, input, done)
    ensures forall k, p :: k in now && p in now[k].pids ==> k in was && p in was[k].pids
  {
    forall k, p | k in now && p in now[k].pids
      ensures k in was && p in was[k].pids
    {
      assert At(now, k) == if k in done && k in was then Kept(k, was[k], src, k in input) else At(was, k);
    }
  }

  lemma StillKnown(lines: Lines, before: Sources, sources: Sources)
    requires AllKnown(lines, before) && forall id :: id in before ==> id in sources && sources[id] == before[id]
    ensures AllKnown(lines, sources)
  {
    forall p | p in before.Values
      ensures p in sources.Values
    {
      var id :| id in before && before[id] == p;
      assert sources[id] == p;
    }
  }

  lemma CardIs(card: Lines, was: Lines, src: nat, input: Lines)
    requires forall k: Key :: At(card, k) == AfterDrop(k, At(was, k), src, k in input)
    ensures card == Left(was, src, input)
  {
    forall k: Key
      ensures At(card, k) == At(Left(was, src, input), k)
    {
      assert At(card, k) == AfterDrop(k, At(was, k), src, k in input);
    }
    SameLines(card, Left(was, src, input));
  }

  /** A new source has no lines to lose. */
  lemma LeftIs(was: Lines, sources: Sources, srcId: string, src: nat, input: Lines)
    requires AllKnown(was, sources)
    requires if srcId in sources then src == sources[srcId] else src !in sources.Values
    ensures CardLeft(was, sources, srcId, input) == Left(was, src, input)
  {
  }

  /** The second part adds exactly the input lines that the old card lacks. */
  lemma NewIs(card: Lines, was: Lines, src: nat, input: Lines)
    requires forall k: Key :: At(card, k) == AfterDrop(k, At(was, k), src, k in input)
    ensures input.Keys - Mine(was, src) - card.Keys == New(was, input)
  {
    forall k: Key
      ensures k in input.Keys - Mine(was, src) - card.Keys <==> k in New(was, input)
    {
      assert At(card, k) == AfterDrop(k, At(was, k), src, k in input);
    }
  }

  lemma MergedIs(now: Lines, card: Lines, was: Lines, src: nat, version: nat, input: Lines)
    requires forall k: Key :: At(card, k) == AfterDrop(k, At(was, k), src, k in input)
    requires Extended(now, card, input.Keys - Mine(was, src), src, version, input)
    ensures IsMerged(now, was, src, version, input)
  {
    forall k: Key
      ensures At(now, k) == Merged(k, At(was, k), src, version, At(input, k))
    {
      assert At(card, k) == AfterDrop(k, At(was, k), src, k in input);
    }
  }

  /** No line gets pids other than those it had and the source's. */
  lemma PidsBound(now: Lines, card: Lines, was: Lines, done: set<Key>, src: nat, version: nat, input: Lines)
    requires forall k: Key :: At(card, k) == AfterDrop(k, At(was, k), src, k in input)
    requires Extended(now, card, done, src, version, input)
    ensures forall k, p :: k in now && p in now[k].pids ==> p == src || (k in was && p in was[k].pids)
  {
    forall k, p | k in now && p in now[k].pids
      ensures p == src || (k in was && p in was[k].pids)
    {
      assert At(card, k) == AfterDrop(k, At(was, k), src, k in input);
      assert At(now, k) == if k in done then WithPid(At(card, k), src, version, At(input, k)) else At(card, k);
    }
  }

  ghost predicate NoClash(card: Lines, added: set<Key>) {
    forall k :: k in added ==> !Clash(card, added, k)
  }

  lemma NoClashNone(card: Lines)
    ensures NoClash(card, {})
  {
  }

  /** One more new line: either it can be added to the card, or all the new lines clash. */
  lemma NoClashMore(card: Lines, some: set<Key>, added: set<Key>, k: Key)
    requires NoClash(card, some) && some <= added && k in added && k !in some
    ensures CanJoin(card, some, k) ==> NoClash(card, some + {k})
    ensures !CanJoin(card, some, k) ==> !NoClash(card, added)
  {
    hide Allowed, HasName;
    if CanJoin(card, some, k) {
      forall q | q in some + {k}
        ensures !Clash(card, some + {k}, q)
      {
        if q != k {
          assert !Clash(card, some, q);
        }
      }
    } else {
      assert HasOther(some, k) ==> HasOther(added, k);
      assert Clash(card, added, k);
    }
  }

  /** The line can be added to the card with these new lines. */
  predicate CanJoin(card: Lines, some: set<Key>, k: Key) {
    Allowed(k.name) && !(k.name in SINGLE && (HasName(card, k.name) || HasOther(some, k)))
  }

  /** An input line goes to the card: a line that is there gets the pid, another one is copied. */
  function WithPid(l: Option<Line>, src: nat, version: nat, asked: Option<Line>): Option<Line> {
    match l
    case Some(line) => Some(line.(pids := line.pids[src := version]))
    case None => if asked.Some? then Some(asked.value.(pids := map[src := version])) else None
  }

  /** The card, when some of the input lines were gone through. */
  ghost predicate Extended(now: Lines, card: Lines, done: set<Key>, src: nat, version: nat, input: Lines) {
    forall k: Key :: At(now, k) == if k in done then WithPid(At(card, k), src, version, At(input, k)) else At(card, k)
  }

  predicate CanAdd(lines: Lines, k: Key) {
    k in lines || (Allowed(k.name) && !(k.name in SINGLE && HasName(lines, k.name)))
  }

  function WithInput(lines: Lines, k: Key, src: nat, version: nat, l: Line): Lines {
    lines[k := if k in lines then lines[k].(pids := lines[k].pids[src := version]) else l.(pids := map[src := version])]
  }

  ghost predicate Progress(now: Lines, card: Lines, done: set<Key>, src: nat, version: nat, input: Lines,
                           changes: nat) {
    && Extended(now, card, done, src, version, input)
    && NoClash(card, done - card.Keys)
    && changes == |done - card.Keys|
  }

  lemma ProgressNone(card: Lines, src: nat, version: nat, input: Lines)
    ensures Progress(card, card, {}, src, version, input, 0)
  {
    ExtendedNone(card, src, version, input);
    NoClashNone(card);
    assert {} - card.Keys == {};
  }

  lemma ProgressDone(now: Lines, card: Lines, done: set<Key>, src: nat, version: nat, input: Lines, changes: nat)
    requires Progress(now, card, done, src, version, input, changes)
    ensures Extended(now, card, done, src, version, input) && NoClash(card, done - card.Keys)
    ensures changes == |done - card.Keys|
  {
  }

  lemma ProgressMore(now: Lines, card: Lines, all: set<Key>, done: set<Key>, src: nat, version: nat, input: Lines,
                     changes: nat, k: Key)
    requires Progress(now, card, done, src, version, input, changes)
    requires all <= input.Keys && done <= all && k in all && k !in done
    ensures Extended(now, card, done, src, version, input)
    ensures CanAdd(now, k) ==>
              Progress(WithInput(now, k, src, version, input[k]), card, done + {k}, src, version, input,
                       changes + (if k !in now then 1 else 0))
    ensures !CanAdd(now, k) ==> !NoClash(card, all - card.Keys)
  {
    hide Extended, NoClash, CanAdd, CanJoin;
    ExtendedAt(now, card, done, src, version, input, k);
    ExtendedMore(WithInput(now, k, src, version, input[k]), now, card, done, src, version, input, k);
    hide WithInput;
    MinusMore(done, all, k, card.Keys);
    if k in card {
      CanStay(now, k);
    } else {
      CanAddNow(now, card, done, src, version, input, k);
      NoClashMore(card, done - card.Keys, all - card.Keys, k);
    }
  }

  lemma MinusMore(done: set<Key>, all: set<Key>, k: Key, keys: set<Key>)
    requires k !in done && done <= all && k in all
    ensures done + {k} - keys == if k in keys then done - keys else done - keys + {k}
    ensures |done + {k} - keys| == |done - keys| + (if k in keys then 0 else 1)
    ensures k !in done - keys && done - keys <= all - keys && (k !in keys ==> k in all - keys)
  {
    assert done + {k} - keys == if k in keys then done - keys else done - keys + {k};
  }

  lemma CanStay(now: Lines, k: Key)
    requires k in now
    ensures CanAdd(now, k)
  {
  }

  lemma CanAddNow(now: Lines, card: Lines, done: set<Key>, src: nat, version: nat, input: Lines, k: Key)
    requires Extended(now, card, done, src, version, input) && done <= input.Keys && k !in now
    ensures CanAdd(now, k) <==> CanJoin(card, done - card.Keys, k)
  {
    HasNameNow(now, card, done, src, version, input, k);
    hide Extended, HasName, HasOther, Allowed;
  }

  lemma ExtendedNone(card: Lines, src: nat, version: nat, input: Lines)
    ensures Extended(card, card, {}, src, version, input)
  {
  }

  lemma ExtendedAt(now: Lines, card: Lines, done: set<Key>, src: nat, version: nat, input: Lines, k: Key)
    requires Extended(now, card, done, src, version, input) && k !in done
    ensures k in now <==> k in card
    ensures k in card ==> now[k] == card[k]
  {
    hide WithPid;
    assert At(now, k) == At(card, k);
  }

  lemma ExtendedMore(now: Lines, mid: Lines, card: Lines, done: set<Key>, src: nat, version: nat, input: Lines, k: Key)
    requires Extended(mid, card, done, src, version, input) && k !in done && k in input
    requires k in card ==> k in mid && mid[k] == card[k]
    requires now == mid[k := if k in card then card[k].(pids := card[k].pids[src := version])
                             else input[k].(pids := map[src := version])]
    ensures Extended(now, card, done + {k}, src, version, input)
  {
    forall x: Key
      ensures At(now, x) == if x in done + {k} then WithPid(At(card, x), src, version, At(input, x)) else At(card, x)
    {
      assert x != k ==> At(now, x) == At(mid, x);
    }
  }

  /** The names on the card are the old ones and those of the lines that were added. */
  lemma HasNameNow(now: Lines, card: Lines, done: set<Key>, src: nat, version: nat, input: Lines, k: Key)
    requires Extended(now, card, done, src, version, input) && done <= input.Keys && k !in now
    ensures HasName(now, k.name) <==> HasName(card, k.name) || HasOther(done - card.Keys, k)
  {
    forall o: Key
      ensures o in now <==> o in card || o in done - card.Keys
    {
      assert At(now, o) == if o in done then WithPid(At(card, o), src, version, At(input, o)) else At(card, o);
    }
  }

  function Mine(lines: Lines, src: nat): (mine: set<Key>)
    ensures forall k :: k in mine <==> k in lines && src in lines[k].pids
  {
    set k | k in lines && src in lines[k].pids
  }

  /** The card, when some of the source's old lines were gone through. */
  ghost predicate Dropped(now: Lines, was: Lines, src: nat, input: Lines, done: set<Key>) {
    forall k: Key :: At(now, k) == if k in done && k in was then Kept(k, was[k], src, k in input) else At(was, k)
  }

  lemma DroppedNone(was: Lines, src: nat, input: Lines)
    ensures Dropped(was, was, src, input, {})
  {
  }

  lemma DroppedAt(now: Lines, was: Lines, src: nat, input: Lines, done: set<Key>, k: Key)
    requires Dropped(now, was, src, input, done) && k !in done && k in was
    ensures k in now && now[k] == was[k]
  {
    hide Kept;
    assert At(now, k) == At(was, k);
  }

  lemma DroppedMore(now: Lines, mid: Lines, was: Lines, src: nat, input: Lines, done: set<Key>, k: Key)
    requires Dropped(mid, was, src, input, done) && k !in done && k in was
    requires forall x: Key :: x != k ==> At(now, x) == At(mid, x)
    requires At(now, k) == Kept(k, was[k], src, k in input)
    ensures Dropped(now, was, src, input, done + {k})
  {
    hide Kept, At;
  }

  lemma DroppedAll(now: Lines, was: Lines, src: nat, input: Lines, mine: set<Key>)
    requires Dropped(now, was, src, input, mine) && mine == Mine(was, src)
    ensures forall k: Key :: At(now, k) == AfterDrop(k, At(was, k), src, k in input)
  {
    forall k: Key
      ensures At(now, k) == AfterDrop(k, At(was, k), src, k in input)
    {
      AfterDropIs(k, was, src, k in input);
    }
  }

  function AfterDrop(k: Key, l: Option<Line>, src: nat, asked: bool): Option<Line> {
    if l.None? then None else Kept(k, l.value, src, asked)
  }

  lemma AfterDropIs(k: Key, was: Lines, src: nat, asked: bool)
    ensures AfterDrop(k, At(was, k), src, asked)
         == if k in was && src in was[k].pids then Kept(k, was[k], src, asked) else At(was, k)
  {
  }

  lemma LostIsOfMine(was: Lines, src: nat, input: Lines, mine: set<Key>)
    requires mine == Mine(was, src)
    ensures LostOf(was, src, input, mine) == Lost(was, src, input)
  {
    hide Retained;
  }

  ghost function LostOf(was: Lines, src: nat, input: Lines, some: set<Key>): set<Key> {
    Lost(was, src, input) * some
  }

  lemma LostNone(was: Lines, src: nat, input: Lines)
    ensures LostOf(was, src, input, {}) == {}
  {
  }

  lemma LostMore(was: Lines, src: nat, input: Lines, done: set<Key>, k: Key)
    requires k !in done && k in was && src in was[k].pids
    ensures |LostOf(was, src, input, done + {k})|
         == |LostOf(was, src, input, done)| + (if k !in input && !Retained(k, was[k], src) then 1 else 0)
  {
    hide Retained;
    var a, b := LostOf(was, src, input, done), LostOf(was, src, input, done + {k});
    if k !in input && !Retained(k, was[k], src) {
      assert b == a + {k};
    } else {
      assert b == a;
    }
  }
}
