/** What every step of saving the metadata index keeps (mailpile/search.py:99-210, 257-359). */
module JournalSteps {
  import opened Wrappers
  import opened IndexLines
  import opened Base36
  import opened Journal

  /** The changed records that are not known to be in the file. */
  function Pending(s: State): set<nat> {
    s.modified + (if s.job.Idle? then {} else s.job.mods)
  }

  function SafeEmails(s: State): nat {
    if s.job.Idle? then s.emailsSaved else s.job.saved
  }

  /** A line that does not fit its position sits at one of the stray positions, and names one of them if it is
      read as a record. */
  predicate Tame(line: string, pos: nat, stray: set<nat>) {
    if pos in stray then Read(line).Meta? ==> Read(line).pos in stray
    else line == "" || Canonical(line, pos)
  }

  /** Loading the file now gives every record that is neither pending nor at a stray position, and every address
      counted as saved. */
  ghost predicate Durable(s: State, stray: set<nat>) {
    && (forall pos: nat :: pos !in Pending(s) && pos !in stray ==>
          Text(Latest(Contents(s.file), pos)) == LineAt(s.index, pos))
    && SafeEmails(s) <= EmailCount(Contents(s.file))
  }

  ghost predicate IndexOk(index: seq<string>, stray: set<nat>) {
    forall pos :: 0 <= pos < |index| ==> Tame(index[pos], pos, stray)
  }

  ghost predicate Within(data: seq<string>, mods: set<nat>) {
    forall i :: 0 <= i < |data| && Read(data[i]).Meta? ==> Read(data[i]).pos in mods
  }

  /** The lines copied so far are up to date, but for what was changed since. */
  ghost predicate JobOk(s: State, stray: set<nat>) {
    match s.job
    case Idle => true
    case Chosen(full, mods, saved, total) =>
      saved <= total <= s.emails && saved == s.emailsSaved && (!full ==> s.file.Some?)
    case Copying(full, mods, saved, total, count, todo, data) =>
      && saved <= total == s.emailsSaved <= s.emails
      && (forall i :: 0 <= i < |todo| ==> todo[i] < |s.index|)
      && total <= (if EmailCount(data) < saved && !full then saved else EmailCount(data))
      && (forall pos: nat :: pos !in stray && pos !in s.modified && pos !in todo && (full || pos in mods) ==>
            Text(Latest(data, pos)) == LineAt(s.index, pos))
      && (full ==> NoDup(todo) && forall i :: 0 <= i < |todo| && todo[i] !in stray ==> Latest(data, todo[i]).None?)
      && (!full ==> s.file.Some? && Within(data, mods + stray) && forall i :: 0 <= i < |todo| ==> todo[i] in mods)
  }

  ghost predicate Inv(s: State, stray: set<nat>) {
    && IndexOk(s.index, stray)
    && s.emailsSaved <= s.emails
    && (forall pos :: pos in Pending(s) ==> LineAt(s.index, pos) != "")
    && JobOk(s, stray)
  }

  lemma {:induction false} LatestOver(a: seq<string>, b: seq<string>, pos: nat)
    ensures Latest(a + b, pos) == if Latest(b, pos).Some? then Latest(b, pos) else Latest(a, pos)
  {
    if b == [] {
      assert a + b == a;
    } else {
      var n := |b| - 1;
      LatestOver(a, b[..n], pos);
      assert (a + b)[..|a + b| - 1] == a + b[..n];
    }
  }

  lemma {:induction false} CountOver(a: seq<string>, b: seq<string>)
    ensures EmailCount(a + b) == if EmailCount(b) < EmailCount(a) then EmailCount(a) else EmailCount(b)
  {
    if b == [] {
      assert a + b == a;
    } else {
      var n := |b| - 1;
      CountOver(a, b[..n]);
      assert (a + b)[..|a + b| - 1] == a + b[..n];
    }
  }

  lemma {:induction false} LatestWithin(data: seq<string>, mods: set<nat>, pos: nat)
    requires Within(data, mods) && pos !in mods
    ensures Latest(data, pos).None?
  {
    if data == [] {
    } else {
      var n := |data| - 1;
      assert data[n] == data[..|data|][n];
      LatestWithin(data[..n], mods, pos);
    }
  }

  lemma {:induction false} LatestIsCanonical(lines: seq<string>, pos: nat)
    requires Latest(lines, pos).Some?
    ensures Canonical(Latest(lines, pos).value, pos)
  {
    var n := |lines| - 1;
    if Read(lines[n]).Meta? && Read(lines[n]).pos == pos {
      ReadIsCanonical(lines[n]);
    } else {
      LatestIsCanonical(lines[..n], pos);
    }
  }

  lemma {:induction false} LatestBelowTop(lines: seq<string>, pos: nat)
    requires Latest(lines, pos).Some?
    ensures pos < Top(lines)
  {
    var n := |lines| - 1;
    if !(Read(lines[n]).Meta? && Read(lines[n]).pos == pos) {
      LatestBelowTop(lines[..n], pos);
    }
  }

  /** What is loaded from a file is what the file says. */
  lemma RebuiltSays(lines: seq<string>)
    ensures forall pos :: 0 <= pos < |Rebuilt(lines)| ==>
              Rebuilt(lines)[pos] == "" || Canonical(Rebuilt(lines)[pos], pos)
    ensures forall pos: nat :: LineAt(Rebuilt(lines), pos) == Text(Latest(lines, pos))
  {
    forall pos: nat
      ensures LineAt(Rebuilt(lines), pos) == Text(Latest(lines, pos))
    {
      if Latest(lines, pos).Some? {
        LatestBelowTop(lines, pos);
      }
    }
    forall pos | 0 <= pos < |Rebuilt(lines)|
      ensures Rebuilt(lines)[pos] == "" || Canonical(Rebuilt(lines)[pos], pos)
    {
      if Latest(lines, pos).Some? {
        LatestIsCanonical(lines, pos);
      }
    }
  }

  /** Neither comments nor addresses say anything about records. */
  lemma {:induction false} NoRecords(lines: seq<string>, pos: nat)
    requires forall i :: 0 <= i < |lines| ==> !Read(lines[i]).Meta?
    ensures Latest(lines, pos).None?
  {
    if lines == [] {
    } else {
      NoRecords(lines[..|lines| - 1], pos);
    }
  }

  lemma {:induction false} AddressCount(head: seq<string>, addresses: seq<string>, lo: nat, hi: nat)
    requires AddressLines(addresses, lo, hi)
    ensures hi > lo ==> EmailCount(head + addresses) >= hi
  {
    if hi > lo {
      var n := |addresses| - 1;
      assert (head + addresses)[..|head + addresses| - 1] == head + addresses[..n];
    }
  }

  lemma CommentsSay(full: bool, count: nat)
    ensures forall i :: 0 <= i < |Comments(full, count)| ==> !Read(Comments(full, count)[i]).Meta?
  {
    hide Read, CountNote;
    CommentIsRead(" This is the mailpile.py index file.");
    CommentIsRead(CountNote(count));
    CommentIsRead(APPEND_MARK);
  }

  lemma HeaderSays(full: bool, count: nat, addresses: seq<string>, lo: nat, hi: nat)
    requires AddressLines(addresses, lo, hi)
    ensures var h := Header(full, count, addresses);
            && (forall i :: 0 <= i < |h| ==> !Read(h[i]).Meta?)
            && (forall pos: nat :: Latest(h, pos).None?)
            && (hi > lo ==> EmailCount(h) >= hi)
  {
    var h := Header(full, count, addresses);
    CommentsSay(full, count);
    hide Read, EmailCount, Latest, Comments;
    forall pos: nat
      ensures Latest(h, pos).None?
    {
      NoRecords(h, pos);
    }
    AddressCount(Comments(full, count), addresses, lo, hi);
  }

  lemma SetMsgKeeps(s: State, pos: nat, fields: seq<string>, stray: set<nat>)
    requires Inv(s, stray) && Enabled(s, SetMsg(pos, fields)) && Tame(ToLine(fields), pos, stray)
    ensures Inv(Step(s, SetMsg(pos, fields)), stray)
    ensures Durable(s, stray) ==> Durable(Step(s, SetMsg(pos, fields)), stray)
  {
    LineIsLong(fields);
    hide Latest, EmailCount, ToLine, Tame;
    var t := Step(s, SetMsg(pos, fields));
    forall p | 0 <= p < |t.index|
      ensures Tame(t.index[p], p, stray)
    {
      assert t.index[p] == LineAt(t.index, p);
      BlankIsTame(p, stray);
    }
  }

  lemma BlankIsTame(pos: nat, stray: set<nat>)
    ensures Tame("", pos, stray)
  {
    BlankIsRead();
  }

  lemma UptoHas(n: nat, i: nat)
    ensures i in Upto(n) <==> i < n
  {
    if i < n {
      assert Upto(n)[i] == i;
    }
  }

  lemma BeginFull(s: State, order: seq<nat>, addresses: seq<string>, stray: set<nat>)
    requires Inv(s, stray) && Enabled(s, Begin(order, addresses)) && s.job.full
    ensures Inv(Prepare(s, order, addresses), stray)
    ensures Durable(s, stray) ==> Durable(Prepare(s, order, addresses), stray)
  {
    HeaderSays(true, |s.index|, addresses, 0, s.emails);
    hide Read, Latest, EmailCount, Header, IndexOk;
    var t := Prepare(s, order, addresses);
    assert t.job.todo == Upto(|s.index|);
    forall pos: nat | pos !in t.job.todo
      ensures LineAt(t.index, pos) == ""
    {
      UptoHas(|s.index|, pos);
    }
  }

  lemma BeginAppend(s: State, order: seq<nat>, addresses: seq<string>, stray: set<nat>)
    requires Inv(s, stray) && Enabled(s, Begin(order, addresses)) && !s.job.full
    ensures Inv(Prepare(s, order, addresses), stray)
    ensures Durable(s, stray) ==> Durable(Prepare(s, order, addresses), stray)
  {
    HeaderSays(false, 0, addresses, s.job.saved, s.job.total);
    hide Read, Latest, EmailCount, Header, IndexOk;
    forall i | 0 <= i < |order|
      ensures order[i] < |s.index| && order[i] in s.job.mods
    {
      assert order[i] in order;
      assert order[i] in Pending(s);
    }
    assert Within(Header(false, 0, addresses), s.job.mods + stray);
  }

  /** Copying one line. */
  lemma CopyKeeps(s: State, stray: set<nat>)
    requires Inv(s, stray) && Enabled(s, CopyLine)
    ensures Inv(Copy(s), stray)
    ensures Durable(s, stray) ==> Durable(Copy(s), stray)
  {
    CopyJobOk(s, stray);
    hide Read, Latest, EmailCount, IndexOk, JobOk, LineAt;
  }

  lemma CopyJobOk(s: State, stray: set<nat>)
    requires Inv(s, stray) && Enabled(s, CopyLine)
    ensures JobOk(Copy(s), stray)
  {
    var j, t := s.job, Copy(s);
    assert j.todo == [j.todo[0]] + t.job.todo;
    CopiedLatest(s, stray);
    CountLast(j.data, LineAt(s.index, j.todo[0]));
    CopyUpToDate(s, stray);
    if j.full {
      CopyOnce(s, stray);
    } else {
      CopyWithin(s, stray);
    }
    hide Read, Latest, EmailCount, IndexOk, LineAt, Within, NoDup, CopiedSays;
  }

  /** What one more line says of the positions that are not stray. */
  ghost predicate CopiedSays(data: seq<string>, p: nat, line: string, stray: set<nat>) {
    forall pos: nat :: pos !in stray ==>
      Latest(data + [line], pos) == if pos == p && line != "" then Some(line) else Latest(data, pos)
  }

  lemma CopyUpToDate(s: State, stray: set<nat>)
    requires Inv(s, stray) && Enabled(s, CopyLine)
    requires CopiedSays(s.job.data, s.job.todo[0], LineAt(s.index, s.job.todo[0]), stray)
    ensures var t := Copy(s);
            forall pos: nat ::
              pos !in stray && pos !in s.modified && pos !in t.job.todo && (s.job.full || pos in s.job.mods) ==>
                Text(Latest(t.job.data, pos)) == LineAt(s.index, pos)
  {
    hide Read, Latest, EmailCount, IndexOk;
    var j, t := s.job, Copy(s);
    var p := j.todo[0];
    assert j.todo == [p] + t.job.todo;
    forall pos: nat | pos !in stray && pos !in s.modified && pos !in t.job.todo && (j.full || pos in j.mods)
      ensures Text(Latest(t.job.data, pos)) == LineAt(s.index, pos)
    {
      if pos == p {
        // A line that is blank is not among the changed ones, so that nothing was said of it before.
        assert p in j.todo && (p in j.mods ==> p in Pending(s));
      }
    }
  }

  lemma CopyOnce(s: State, stray: set<nat>)
    requires Inv(s, stray) && Enabled(s, CopyLine) && s.job.full
    requires CopiedSays(s.job.data, s.job.todo[0], LineAt(s.index, s.job.todo[0]), stray)
    ensures var j := Copy(s).job;
            NoDup(j.todo) && forall i :: 0 <= i < |j.todo| && j.todo[i] !in stray ==> Latest(j.data, j.todo[i]).None?
  {
    hide Read, Latest, EmailCount, IndexOk, LineAt;
  }

  lemma CopyWithin(s: State, stray: set<nat>)
    requires Inv(s, stray) && Enabled(s, CopyLine) && !s.job.full
    ensures Within(Copy(s).job.data, s.job.mods + stray)
  {
    CopiedLine(s, stray);
    hide Read, Latest, EmailCount, IndexOk;
    assert s.job.todo[0] in Pending(s);
  }

  /** What the copy says of the positions that are not stray. */
  lemma CopiedLatest(s: State, stray: set<nat>)
    requires Inv(s, stray) && Enabled(s, CopyLine)
    ensures CopiedSays(s.job.data, s.job.todo[0], LineAt(s.index, s.job.todo[0]), stray)
  {
    CopiedLine(s, stray);
    hide Inv, Latest, Read;
    var line, data := LineAt(s.index, s.job.todo[0]), s.job.data;
    forall pos: nat
      ensures Latest(data + [line], pos)
           == if Read(line).Meta? && Read(line).pos == pos then Some(Read(line).line) else Latest(data, pos)
    {
      LatestLast(data, line, pos);
    }
  }

  /** What is copied is blank, or says what it is; at a stray position it names a stray position, if any. */
  lemma CopiedLine(s: State, stray: set<nat>)
    requires Inv(s, stray) && Enabled(s, CopyLine)
    ensures var p, line := s.job.todo[0], LineAt(s.index, s.job.todo[0]);
            if p in stray then Read(line).Meta? ==> Read(line).pos in stray
            else if line == "" then Read(line) == Nothing
            else Read(line) == Meta(p, line)
  {
    BlankIsRead();
    hide Read;
    var p := s.job.todo[0];
    assert Tame(s.index[p], p, stray);
  }

  lemma LatestLast(data: seq<string>, line: string, pos: nat)
    ensures Latest(data + [line], pos)
         == if Read(line).Meta? && Read(line).pos == pos then Some(Read(line).line) else Latest(data, pos)
  {
    assert (data + [line])[..|data|] == data;
  }

  lemma CountLast(data: seq<string>, line: string)
    ensures EmailCount(data + [line]) >= EmailCount(data)
  {
    assert (data + [line])[..|data|] == data;
  }

  lemma WriteKeeps(s: State, stray: set<nat>)
    requires Inv(s, stray) && Enabled(s, Written)
    ensures Inv(Write(s), stray)
    ensures s.job.full || Durable(s, stray) ==> Durable(Write(s), stray)
  {
    var j, t := s.job, Write(s);
    hide Read, Latest, EmailCount, IndexOk;
    if !j.full {
      CountOver(Contents(s.file), j.data);
      forall pos: nat | Durable(s, stray) && pos !in t.modified && pos !in stray
        ensures Text(Latest(Contents(t.file), pos)) == LineAt(s.index, pos)
      {
        LatestOver(Contents(s.file), j.data, pos);
        if pos in j.mods {
          assert pos in Pending(s);
        } else {
          LatestWithin(j.data, j.mods + stray, pos);
        }
      }
    }
  }

  lemma FailKeeps(s: State, kept: nat, counted: bool, stray: set<nat>)
    requires Inv(s, stray) && Enabled(s, Failed(kept, counted))
    ensures Inv(Fail(s, kept, counted), stray)
    ensures Durable(s, stray) ==> Durable(Fail(s, kept, counted), stray)
    ensures s.file.None? && Fail(s, kept, counted).file.Some? ==> Durable(Fail(s, kept, counted), stray)
  {
    var j := s.job;
    if kept > 0 && !j.full {
      SomeAppended(Contents(s.file), j.data, kept, j.mods + stray);
    }
    hide Read, Latest, EmailCount, IndexOk, Within;
  }

  /** Some lines of an append change nothing for positions that it is not about. */
  lemma SomeAppended(lines: seq<string>, data: seq<string>, kept: nat, mods: set<nat>)
    requires kept <= |data| && Within(data, mods)
    ensures forall pos: nat :: pos !in mods ==> Latest(lines + data[..kept], pos) == Latest(lines, pos)
    ensures EmailCount(lines + data[..kept]) >= EmailCount(lines)
  {
    hide Read, Latest, EmailCount;
    var some := data[..kept];
    CountOver(lines, some);
    assert Within(some, mods);
    forall pos: nat | pos !in mods
      ensures Latest(lines + some, pos) == Latest(lines, pos)
    {
      LatestOver(lines, some, pos);
      LatestWithin(some, mods, pos);
    }
  }

  lemma ReloadKeeps(s: State, stray: set<nat>)
    requires Inv(s, stray) && Enabled(s, Reload)
    ensures Inv(Restart(s), stray) && Durable(Restart(s), stray)
  {
    hide Read, Latest, EmailCount, Rebuilt;
    RebuiltSays(Contents(s.file));
    forall pos | 0 <= pos < |Restart(s).index|
      ensures Tame(Restart(s).index[pos], pos, stray)
    {
      BlankIsTame(pos, stray);
    }
  }

  predicate TameEvent(e: Event, stray: set<nat>) {
    e.SetMsg? && |e.fields| == FIELDS ==> Tame(ToLine(e.fields), e.pos, stray)
  }

  /** Every step keeps the invariant; every step but a failure between the renames keeps durability; and
      a file that appears is always a good one. */
  lemma StepKeeps(s: State, e: Event, stray: set<nat>)
    requires Inv(s, stray) && Enabled(s, e) && TameEvent(e, stray)
    ensures Inv(Step(s, e), stray)
    ensures Durable(s, stray) && !e.Gap? ==> Durable(Step(s, e), stray)
    ensures (s.file.Some? ==> Durable(s, stray)) && Step(s, e).file.Some? ==> Durable(Step(s, e), stray)
  {
    hide Read, Latest, EmailCount, IndexOk;
    match e
    case SetMsg(pos, fields) => SetMsgKeeps(s, pos, fields, stray);
    case Begin(order, addresses) =>
      if s.job.full {
        BeginFull(s, order, addresses, stray);
      } else {
        BeginAppend(s, order, addresses, stray);
      }
    case CopyLine => CopyKeeps(s, stray);
    case Written => WriteKeeps(s, stray);
    case Failed(kept, counted) => FailKeeps(s, kept, counted, stray);
    case Reload => ReloadKeeps(s, stray);
    case _ =>
  }
}
