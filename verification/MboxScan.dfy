/** Finding the messages of an mbox file that is read in chunks (scripts/mbox-minimal.py:9-48). */
module MboxScan {

  const DELIM := "\nFrom "
  const LEN := 6

  /** How much of the buffer is kept for the next chunk. */
  const KEEP := 128

  /** The file with a line break in front, so that its first line looks like any other. A position
      in it is the file offset of the next character. */
  function Framed(file: string): string {
    "\n" + file
  }

  predicate At(v: string, i: nat) {
    i + LEN <= |v| && v[i..i + LEN] == DELIM
  }

  /** The positions from lo up to hi where the delimiter starts, in order. */
  function Starts(v: string, lo: nat, hi: nat): (out: seq<nat>)
    requires lo <= hi
    ensures forall x :: x in out <==> lo <= x < hi && At(v, x)
  {
    if lo == hi then []
    else if At(v, hi - 1) then Starts(v, lo, hi - 1) + [hi - 1]
    else Starts(v, lo, hi - 1)
  }

  /** The offsets that the scan is for: `From ` at the start of the file or behind a line break. */
  predicate MessageAt(file: string, i: nat) {
    i + 5 <= |file| && file[i..i + 5] == "From " && (i == 0 || file[i - 1] == '\n')
  }

  lemma {:induction false} StartsSplit(v: string, lo: nat, mid: nat, hi: nat)
    requires lo <= mid <= hi
    ensures Starts(v, lo, hi) == Starts(v, lo, mid) + Starts(v, mid, hi)
  {
    if mid < hi {
      StartsSplit(v, lo, mid, hi - 1);
    }
  }

  lemma {:induction false} StartsNone(v: string, lo: nat, hi: nat)
    requires lo <= hi && forall i :: lo <= i < hi ==> !At(v, i)
    ensures Starts(v, lo, hi) == []
  {
    if lo < hi {
      StartsNone(v, lo, hi - 1);
    }
  }

  lemma AtChars(v: string, i: nat)
    ensures At(v, i) <==> i + LEN <= |v| && v[i] == '\n' && v[i + 1] == 'F' && v[i + 2] == 'r'
                          && v[i + 3] == 'o' && v[i + 4] == 'm' && v[i + 5] == ' '
  {
    if i + LEN <= |v| {
      var s := v[i..i + LEN];
      assert s == [v[i], v[i + 1], v[i + 2], v[i + 3], v[i + 4], v[i + 5]];
    }
  }

  lemma FromChars(file: string, i: nat)
    requires i + 5 <= |file|
    ensures file[i..i + 5] == "From " <==>
            file[i] == 'F' && file[i + 1] == 'r' && file[i + 2] == 'o' && file[i + 3] == 'm' && file[i + 4] == ' '
  {
    assert file[i..i + 5] == [file[i], file[i + 1], file[i + 2], file[i + 3], file[i + 4]];
  }

  lemma MessageIsDelim(file: string, i: nat)
    ensures MessageAt(file, i) <==> At(Framed(file), i)
  {
    hide At;
    AtChars(Framed(file), i);
    if i + 5 <= |file| {
      FromChars(file, i);
    }
  }

  /** Two delimiters never overlap. */
  lemma NoOverlap(v: string, i: nat, j: nat)
    requires At(v, i) && i < j < i + LEN
    ensures !At(v, j)
  {
    hide At;
    AtChars(v, i);
    AtChars(v, j);
  }

  lemma {:induction false} StartsRise(v: string, lo: nat, hi: nat)
    requires lo <= hi
    ensures forall j, k :: 0 <= j < k < |Starts(v, lo, hi)| ==> Starts(v, lo, hi)[j] < Starts(v, lo, hi)[k]
  {
    if lo < hi {
      StartsRise(v, lo, hi - 1);
      var out := Starts(v, lo, hi - 1);
      assert forall j :: 0 <= j < |out| ==> out[j] in out;
    }
  }

  /** Where the text first has the delimiter; -1 if nowhere. */
  function Find(s: string, from: nat): (k: int)
    requires from <= |s|
    ensures k == -1 || (from <= k && k + LEN <= |s| && At(s, k))
    ensures forall i :: from <= i < (if k < 0 then |s| else k) ==> !At(s, i)
    decreases |s| - from
  {
    if from == |s| then -1 else if At(s, from) then from else Find(s, from + 1)
  }

  /** Python's `split(DELIM)`. */
  function Split(s: string): (parts: seq<string>)
    ensures parts != []
    decreases |s|
  {
    var k := Find(s, 0);
    if k < 0 then [s] else [s[..k]] + Split(s[k + LEN..])
  }

  method SplitText(s: string) returns (parts: seq<string>)
    ensures parts == Split(s)
  {
    hide Find, At;
    parts := [];
    var rest := s;
    var k := Find(rest, 0);
    while k >= 0
      invariant k == Find(rest, 0)
      invariant parts + Split(rest) == Split(s)
      decreases |rest|
    {
      parts := parts + [rest[..k]];
      rest := rest[k + LEN..];
      k := Find(rest, 0);
    }
    parts := parts + [rest];
  }

  /** The delimiters of a stretch of the text are those of the text. */
  lemma AtSlice(v: string, lo: nat, hi: nat, i: nat)
    requires lo <= hi <= |v| && i + LEN <= hi - lo
    ensures At(v[lo..hi], i) <==> At(v, lo + i)
  {
    hide At;
    AtChars(v[lo..hi], i);
    AtChars(v, lo + i);
  }

  /** The first delimiter of a stretch: nothing but it up to its end. */
  lemma FirstDelim(v: string, lo: nat, hi: nat, k: nat)
    requires lo <= hi <= |v| && Find(v[lo..hi], 0) == k
    ensures lo + k + LEN <= hi && v[lo..hi][k + LEN..] == v[lo + k + LEN..hi]
    ensures At(v, lo + k)
    ensures forall i :: lo <= i < lo + k + LEN && i != lo + k ==> !At(v, i)
  {
    var s := v[lo..hi];
    assert At(s, k);
    assert forall i :: 0 <= i < k ==> !At(s, i);
    hide Find, At;
    AtChars(s, k);
    AtSlice(v, lo, hi, k);
    forall i | lo <= i < lo + k + LEN && i != lo + k
      ensures !At(v, i)
    {
      if i < lo + k {
        AtSlice(v, lo, hi, i - lo);
      } else {
        NoOverlap(v, lo + k, i);
      }
    }
  }

  lemma StartsSkip(v: string, lo: nat, hi: nat)
    requires lo <= hi && forall i :: lo <= i < hi ==> !At(v, i)
    ensures Starts(v, 0, hi) == Starts(v, 0, lo)
  {
    hide Starts, At;
    StartsSplit(v, 0, lo, hi);
    StartsNone(v, lo, hi);
  }

  lemma StartsTake(v: string, k: nat)
    requires At(v, k)
    ensures Starts(v, 0, k + 1) == Starts(v, 0, k) + [k]
  {
    hide At;
  }

  lemma StartsOne(v: string, lo: nat, k: nat)
    requires At(v, lo + k)
    requires forall i :: lo <= i < lo + k + LEN && i != lo + k ==> !At(v, i)
    ensures Starts(v, 0, lo + k + LEN) == Starts(v, 0, lo) + [lo + k]
  {
    hide Starts, At;
    StartsSkip(v, lo, lo + k);
    StartsTake(v, lo + k);
    StartsSkip(v, lo + k + 1, lo + k + LEN);
  }

  lemma SplitIs(s: string)
    ensures var k := Find(s, 0);
            Split(s) == if k < 0 then [s] else [s[..k]] + Split(s[k + LEN..])
  {
    hide Find, At;
  }

  /** What `split` does with a stretch of the text, one part at a time. */
  lemma SplitStep(v: string, lo: nat, hi: nat, parts: seq<string>)
    requires lo <= hi <= |v| && parts == Split(v[lo..hi])
    ensures parts != []
    ensures |parts| == 1 ==> parts[0] == v[lo..hi] && Find(v[lo..hi], 0) < 0
    ensures |parts| > 1 ==>
              var next := lo + |parts[0]| + LEN;
              next <= hi && parts[1..] == Split(v[next..hi])
              && Starts(v, 0, next) == Starts(v, 0, lo) + [next - LEN]
  {
    hide Split, Find, At, Starts;
    var s := v[lo..hi];
    SplitIs(s);
    var k := Find(s, 0);
    if k >= 0 {
      FirstDelim(v, lo, hi, k);
      StartsOne(v, lo, k);
      var rest := Split(v[lo + k + LEN..hi]);
      assert parts == [s[..k]] + rest;
      assert |s[..k]| == k && parts[1..] == rest;
    }
  }

  lemma NoDelim(v: string, lo: nat, hi: nat)
    requires lo <= hi <= |v| && Find(v[lo..hi], 0) < 0
    ensures forall i :: lo <= i && i + LEN <= hi ==> !At(v, i)
  {
    forall i | lo <= i && i + LEN <= hi
      ensures !At(v, i)
    {
      AtSlice(v, lo, hi, i - lo);
      assert !At(v[lo..hi], i - lo);
    }
  }

  /** The state between chunks: `next` is the frame position of the buffer, `end` the end of what was
      read. All messages before the buffer are noted, and the buffer has no whole delimiter. */
  ghost predicate Scanned(v: string, next: nat, end: nat, buf: string, messages: seq<nat>) {
    && next <= end <= |v|
    && buf == v[next..end]
    && messages == Starts(v, 0, next)
    && forall i :: next <= i && i + LEN <= end ==> !At(v, i)
  }

  /** The inner loop: all parts but the last end in a delimiter. */
  method ScanParts(text: string, pos0: int, messages0: seq<nat>, ghost v: string, ghost end: nat)
    returns (buf: string, pos: int, messages: seq<nat>)
    requires -1 <= pos0 < end <= |v| && text == v[pos0 + 1..end] && messages0 == Starts(v, 0, pos0 + 1)
    ensures pos0 <= pos < end && buf == v[pos + 1..end] && Find(buf, 0) < 0
    ensures messages == Starts(v, 0, pos + 1)
  {
    hide Starts, Split, Find, At;
    var splits := SplitText(text);
    pos, messages := pos0, messages0;
    SplitStep(v, pos + 1, end, splits);
    buf := splits[0];
    var i := 1;
    while i < |splits|
      invariant 1 <= i <= |splits| && pos0 <= pos < end
      invariant splits[i - 1..] == Split(v[pos + 1..end]) && buf == splits[i - 1]
      invariant messages == Starts(v, 0, pos + 1)
    {
      SplitStep(v, pos + 1, end, splits[i - 1..]);
      assert splits[i..] == splits[i - 1..][1..];
      pos := pos + |buf| + LEN;
      buf := splits[i];
      messages := messages + [pos - LEN + 1];
      i := i + 1;
    }
    SplitStep(v, pos + 1, end, splits[i - 1..]);
  }

  /** One round of the loop, on a buffer that starts at file offset `pos`. */
  method ScanBuffer(text: string, pos0: int, messages0: seq<nat>, ghost v: string, ghost end: nat)
    returns (buf: string, pos: int, messages: seq<nat>)
    requires -1 <= pos0 < end <= |v| && text == v[pos0 + 1..end] && messages0 == Starts(v, 0, pos0 + 1)
    ensures pos >= -1 && Scanned(v, pos + 1, end, buf, messages)
    ensures |buf| <= KEEP && pos + |buf| == end - 1
  {
    hide Starts, Split, Find, At, Scanned;
    buf, pos, messages := ScanParts(text, pos0, messages0, v, end);
    var kept := if KEEP < |buf| then KEEP else |buf|;
    Truncate(v, pos + 1, pos + 1 + |buf| - kept, end, messages);
    pos := pos + |buf| - kept;
    buf := buf[|buf| - kept..];
  }

  /** Dropping all but the end of the buffer loses nothing. */
  lemma Truncate(v: string, lo: nat, next: nat, end: nat, messages: seq<nat>)
    requires lo <= next <= end <= |v| && (next == lo || next + LEN <= end)
    requires Find(v[lo..end], 0) < 0 && messages == Starts(v, 0, lo)
    ensures Scanned(v, next, end, v[lo..end][next - lo..], messages)
  {
    hide Starts, At, Find;
    NoDelim(v, lo, end);
    StartsSkip(v, lo, next);
    assert v[lo..end][next - lo..] == v[next..end];
  }

  function Concat(chunks: seq<string>): string {
    if chunks == [] then [] else Concat(chunks[..|chunks| - 1]) + chunks[|chunks| - 1]
  }

  lemma {:induction false} ConcatPrefix(chunks: seq<string>, n: nat)
    requires n <= |chunks|
    ensures Concat(chunks[..n]) <= Concat(chunks)
    decreases |chunks|
  {
    if n < |chunks| {
      ConcatPrefix(chunks[..|chunks| - 1], n);
      assert chunks[..|chunks| - 1][..n] == chunks[..n];
    } else {
      assert chunks[..n] == chunks;
    }
  }

  /** The scan: for every way of cutting the file into reads, the offsets are those of all messages. */
  method Scan(file: string, chunks: seq<string>) returns (messages: seq<nat>)
    requires Concat(chunks) == file && forall i :: 0 <= i < |chunks| ==> chunks[i] != []
    ensures messages == Starts(Framed(file), 0, |file| + 1)
    ensures forall i: nat :: i in messages <==> MessageAt(file, i)
    ensures forall j, k :: 0 <= j < k < |messages| ==> messages[j] < messages[k]
  {
    hide Starts, Split, Find, At;
    ghost var v := Framed(file);
    var buf, pos := "\n", -1;
    messages := [];
    var tell := 0;
    StartsNothing(v);
    assert v[0..1] == "\n";
    var n := 0;
    while n < |chunks|
      invariant 0 <= n <= |chunks|
      invariant tell == |Concat(chunks[..n])|
      invariant pos >= -1 && Scanned(v, pos + 1, tell + 1, buf, messages)
      invariant tell == pos + |buf|
    {
      ConcatPrefix(chunks, n + 1);
      assert chunks[..n + 1][..n] == chunks[..n];
      ghost var before := Concat(chunks[..n]);
      assert Concat(chunks[..n + 1]) == before + chunks[n];
      NextChunk(file, before, chunks[n], pos + 1);
      buf := buf + chunks[n];
      tell := tell + |chunks[n]|;
      buf, pos, messages := ScanBuffer(buf, pos, messages, v, tell + 1);
      n := n + 1;
    }
    assert chunks[..n] == chunks;
    ScanEnd(v, pos + 1);
    StartsRise(v, 0, |v|);
    forall i: nat
      ensures i in messages <==> MessageAt(file, i)
    {
      MessageIsDelim(file, i);
      StartsHas(v, |v|, i);
    }
  }

  lemma StartsNothing(v: string)
    ensures Starts(v, 0, 0) == []
  {
  }

  lemma StartsHas(v: string, hi: nat, i: nat)
    ensures i in Starts(v, 0, hi) <==> i < hi && At(v, i)
  {
  }

  lemma NextChunk(file: string, before: string, chunk: string, next: nat)
    requires before + chunk <= file && next <= |before| + 1
    ensures |before| + |chunk| + 1 <= |Framed(file)|
    ensures Framed(file)[next..|before| + 1] + chunk == Framed(file)[next..|before| + |chunk| + 1]
  {
    var v := Framed(file);
    assert v[|before| + 1..|before| + |chunk| + 1] == file[|before|..|before| + |chunk|] == chunk;
  }

  /** At the end of the file, nothing is left to be found behind the start of the buffer. */
  lemma ScanEnd(v: string, next: nat)
    requires next <= |v| && forall i :: next <= i && i + LEN <= |v| ==> !At(v, i)
    ensures Starts(v, 0, next) == Starts(v, 0, |v|)
  {
    StartsSplit(v, 0, next, |v|);
    StartsNone(v, next, |v|);
  }
}
