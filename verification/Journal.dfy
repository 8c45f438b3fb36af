/** Saving the metadata index: records are changed at any time, while saves append the changed lines to
    the index file or write it anew (mailpile/search.py:226-359, 1624-1652). Every step of a save is a
    step of its own here, so that anything may happen between two of them. */
module Journal {
  import opened Wrappers
  import opened IndexLines

  const MIN_ITEMS_PER_INCREMENT := 200
  const MIN_ITEMS_PER_DUPLICATE := 10
  const ITEM_COUNT_OFFSET := 5000

  /** A save under way. First it has taken the set of changed records (`Chosen`); then it copies the
      lines of the records in `todo` behind those in `data`. `saved` is what EMAILS_SAVED was. */
  datatype Job =
    | Idle
    | Chosen(full: bool, mods: set<nat>, saved: nat, total: nat)
    | Copying(full: bool, mods: set<nat>, saved: nat, total: nat, count: nat, todo: seq<nat>, data: seq<string>)

  /** `emails` is the number of known addresses; `file` is the index file, None if there is none. */
  datatype State = State(index: seq<string>, modified: set<nat>, emails: nat, emailsSaved: nat,
                         changes: nat, lines: int, file: Option<seq<string>>, job: Job)

  // --- What a file says ------------------------------------------------------

  /** The last line for a position wins. */
  function Latest(lines: seq<string>, pos: nat): Option<string> {
    if lines == [] then None
    else
      var n := |lines| - 1;
      match Read(lines[n])
      case Meta(p, line) => if p == pos then Some(line) else Latest(lines[..n], pos)
      case _ => Latest(lines[..n], pos)
  }

  function Text(o: Option<string>): string {
    if o.Some? then o.value else ""
  }

  function Contents(file: Option<seq<string>>): seq<string> {
    if file.Some? then file.value else []
  }

  /** One more than the highest position, or address number, in the file. */
  function Top(lines: seq<string>): nat {
    if lines == [] then 0
    else
      var n := |lines| - 1;
      var top := Top(lines[..n]);
      match Read(lines[n])
      case Meta(p, _) => if p < top then top else p + 1
      case _ => top
  }

  function EmailCount(lines: seq<string>): nat {
    if lines == [] then 0
    else
      var n := |lines| - 1;
      var count := EmailCount(lines[..n]);
      match Read(lines[n])
      case Email(eid, _) => if eid < count then count else eid + 1
      case _ => count
  }

  /** The number of append marks; the number of lines with a record or an address. */
  function Marks(lines: seq<string>): nat {
    if lines == [] then 0
    else Marks(lines[..|lines| - 1]) + (if Read(lines[|lines| - 1]).Appended? then 1 else 0)
  }

  function Items(lines: seq<string>): nat {
    if lines == [] then 0
    else
      var e := Read(lines[|lines| - 1]);
      Items(lines[..|lines| - 1]) + (if e.Meta? || e.Email? then 1 else 0)
  }

  function Rebuilt(lines: seq<string>): seq<string> {
    seq(Top(lines), pos requires 0 <= pos < Top(lines) => Text(Latest(lines, pos)))
  }

  /** The line of a position: padding and positions beyond the end are blank. */
  function LineAt(index: seq<string>, pos: nat): string {
    if pos < |index| then index[pos] else ""
  }

  // --- The steps -------------------------------------------------------------

  function Pad(index: seq<string>, pos: nat): (out: seq<string>)
    ensures |out| > pos && |out| >= |index|
    ensures forall i: nat :: LineAt(out, i) == LineAt(index, i)
    decreases pos + 1 - |index|
  {
    if |index| > pos then index else Pad(index + [""], pos)
  }

  function WithLine(index: seq<string>, pos: nat, line: string): (out: seq<string>)
    ensures |out| > pos && |out| >= |index|
    ensures forall i: nat :: LineAt(out, i) == if i == pos then line else LineAt(index, i)
  {
    var padded := Pad(index, pos);
    assert forall i: nat :: i != pos ==> LineAt(padded[pos := line], i) == LineAt(padded, i);
    padded[pos := line]
  }

  /** A record is stored, whatever its columns are. */
  function Edited(s: State, pos: nat, fields: seq<string>): State
    requires fields != []
  {
    s.(index := WithLine(s.index, pos, ToLine(fields)), modified := s.modified + {pos})
  }

  /** Is the index written anew instead of appended to? */
  predicate FullSave(s: State, quitting: bool) {
    var items := s.emails + |s.index|;
    var maxChanges := (items + ITEM_COUNT_OFFSET) / MIN_ITEMS_PER_INCREMENT;
    var maxLines := items + (items + ITEM_COUNT_OFFSET) / MIN_ITEMS_PER_DUPLICATE;
    s.file.None? || ((s.changes > maxChanges || s.lines > maxLines) && !quitting)
  }

  /** `save_changes` takes what is to be done; a save without changes ends here. */
  function Grab(s: State, quitting: bool): State {
    if s.emailsSaved == s.emails && s.modified == {} then s
    else s.(modified := {}, job := Chosen(FullSave(s, quitting), s.modified, s.emailsSaved, s.emails))
  }

  function GrabAll(s: State): State {
    s.(modified := {}, job := Chosen(true, s.modified, s.emailsSaved, s.emails))
  }

  function Upto(n: nat): (out: seq<nat>)
    ensures |out| == n && forall i :: 0 <= i < n ==> out[i] == i
  {
    seq(n, i => i)
  }

  function Comments(full: bool, count: nat): seq<string> {
    if full then ["#" + " This is the mailpile.py index file.", "#" + CountNote(count)] else ["#" + APPEND_MARK]
  }

  function CountNote(count: nat): string {
    " We have " + Decimal(count) + " messages!"
  }

  /** The head of what is written: comments and the lines of the addresses. */
  function Header(full: bool, count: nat, addresses: seq<string>): seq<string> {
    Comments(full, count) + addresses
  }

  function Decimal(n: nat): string {
    if n < 10 then [('0' as int + n) as char] else Decimal(n / 10) + [('0' as int + n % 10) as char]
  }

  /** The full save takes the changes that came in meanwhile, too; `order` is the order in which the
      changed records are copied by an append. */
  function Prepare(s: State, order: seq<nat>, addresses: seq<string>): State
    requires s.job.Chosen?
  {
    var j := s.job;
    if j.full then
      s.(modified := {}, emailsSaved := s.emails,
         job := Copying(true, j.mods + s.modified, j.saved, s.emails, |s.index|, Upto(|s.index|),
                        Header(true, |s.index|, addresses)))
    else
      s.(emailsSaved := j.total,
         job := Copying(false, j.mods, j.saved, j.total, |j.mods|, order, Header(false, 0, addresses)))
  }

  function Copy(s: State): State
    requires s.job.Copying? && s.job.todo != []
  {
    var j := s.job;
    s.(job := j.(todo := j.todo[1..], data := j.data + [LineAt(s.index, j.todo[0])]))
  }

  function Write(s: State): State
    requires s.job.Copying?
  {
    var j := s.job;
    if j.full then
      s.(file := Some(j.data), changes := 0, lines := j.total + j.count, job := Idle)
    else
      s.(file := Some(Contents(s.file) + j.data), changes := s.changes + 1,
         lines := s.lines + j.total - j.saved + j.count, job := Idle)
  }

  function RollBack(s: State): State
    requires !s.job.Idle?
  {
    s.(modified := s.modified + s.job.mods, emailsSaved := s.job.saved, job := Idle)
  }

  /** A failed write leaves the old file, or some of the appended lines, or the whole new file. The
      counters may already be up. */
  function Fail(s: State, kept: nat, counted: bool): State
    requires !s.job.Idle? && (kept > 0 || counted ==> s.job.Copying? && kept <= |s.job.data|)
  {
    var t := RollBack(if counted then s.(changes := Write(s).changes, lines := Write(s).lines) else s);
    if kept == 0 then t
    else if s.job.full then t.(file := Some(s.job.data))
    else t.(file := Some(Contents(s.file) + s.job.data[..kept]))
  }

  /** A full save that fails between the two renames: the old file is a backup already, and the new one
      is not yet in its place. */
  function Lose(s: State): State
    requires !s.job.Idle?
  {
    RollBack(s).(file := None)
  }

  /** A new process loads the file. */
  function Restart(s: State): State {
    var lines := Contents(s.file);
    State(Rebuilt(lines), {}, EmailCount(lines), EmailCount(lines), Marks(lines), Items(lines), s.file, Idle)
  }

  datatype Event =
    | SetMsg(pos: nat, fields: seq<string>)
    | AddEmail
    | SaveChanges(quitting: bool)
    | Save
    | Begin(order: seq<nat>, addresses: seq<string>)
    | CopyLine
    | Written
    | Failed(kept: nat, counted: bool)
    | Gap
    | Reload

  /** The lines of the addresses from `lo` up to `hi`. */
  predicate AddressLines(addresses: seq<string>, lo: nat, hi: nat) {
    lo <= hi && |addresses| == hi - lo
    && forall i :: 0 <= i < hi - lo ==> Read(addresses[i]).Email? && Read(addresses[i]).eid == lo + i
  }

  predicate Lists(order: seq<nat>, s: set<nat>) {
    |order| == |s| && (forall x :: x in order ==> x in s) && forall x :: x in s ==> x in order
  }

  predicate Enabled(s: State, e: Event) {
    match e
    case SetMsg(pos, fields) => |fields| == FIELDS
    case AddEmail => true
    case SaveChanges(_) => s.job.Idle?
    case Save => s.job.Idle?
    case Begin(order, addresses) =>
      s.job.Chosen?
      && (if s.job.full then AddressLines(addresses, 0, s.emails)
          else AddressLines(addresses, s.job.saved, s.job.total) && Lists(order, s.job.mods))
    case CopyLine => s.job.Copying? && s.job.todo != []
    case Written => s.job.Copying? && s.job.todo == []
    case Failed(kept, counted) =>
      !s.job.Idle?
      && (kept > 0 || counted ==>
            && s.job.Copying? && s.job.todo == [] && kept <= |s.job.data|
            && (s.job.full && kept > 0 ==> kept == |s.job.data|))
    case Gap => s.job.Copying? && s.job.todo == [] && s.job.full
    case Reload => s.job.Idle?
  }

  function Step(s: State, e: Event): State
    requires Enabled(s, e)
  {
    match e
    case SetMsg(pos, fields) => Edited(s, pos, fields)
    case AddEmail => s.(emails := s.emails + 1)
    case SaveChanges(quitting) => Grab(s, quitting)
    case Save => GrabAll(s)
    case Begin(order, addresses) => Prepare(s, order, addresses)
    case CopyLine => Copy(s)
    case Written => Write(s)
    case Failed(kept, counted) => Fail(s, kept, counted)
    case Gap => Lose(s)
    case Reload => Restart(s)
  }

  const START := State([], {}, 0, 0, 0, 0, None, Idle)
}
