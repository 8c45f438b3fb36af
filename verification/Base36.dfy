/** Message IDs ("MIDs") are index positions written in base 36 (mailpile/util.py, `b36`).
    The index stores lists of MIDs sorted as text, so the text order is modelled too. */
module Base36 {
  import opened Wrappers

  /** The d-th character of "0123456789ABCDEFGHIJKLMNOPQRSTUVWXYZ". */
  function DigitChar(d: nat): char
    requires d < 36
  {
    if d < 10 then ('0' as int + d) as char else ('A' as int + (d - 10)) as char
  }

  function Digits(n: nat): string {
    if n < 36 then [DigitChar(n)] else Digits(n / 36) + [DigitChar(n % 36)]
  }

  /** The value of one digit: the position of the character in the alphabet. */
  function DigitValue(c: char): nat {
    if '0' <= c <= '9' then c as int - '0' as int
    else if 'A' <= c <= 'Z' then 10 + (c as int - 'A' as int)
    else if 'a' <= c <= 'z' then 10 + (c as int - 'a' as int)
    else 0
  }

  /** Python's `int(s, 36)` on a string of digits and letters. */
  function Parse(s: string): nat {
    if s == [] then 0 else 36 * Parse(s[..|s| - 1]) + DigitValue(s[|s| - 1])
  }

  /** The digit loop; anything that is not a positive number is written as the first digit. */
  method B36(number: int) returns (s: string)
    ensures Parse(s) == if number < 0 then 0 else number
    ensures s == Digits(if number < 0 then 0 else number)
  {
    if number <= 0 {
      return [DigitChar(0)];
    }
    var rest := number;
    s := [];
    while rest > 0
      invariant rest >= 0
      invariant rest > 0 ==> Digits(number) == Digits(rest) + s
      invariant rest == 0 ==> Digits(number) == s
    {
      s := [DigitChar(rest % 36)] + s;
      rest := rest / 36;
    }
    ParseInvertsDigits(number);
  }

  /** Reading a MID back gives the position it was written from. */
  lemma {:induction false} ParseInvertsDigits(n: nat)
    ensures Parse(Digits(n)) == n
  {
    var s := Digits(n);
    assert DigitValue(DigitChar(n % 36)) == n % 36;
    if n < 36 {
      assert s[..0] == [];
    } else {
      ParseInvertsDigits(n / 36);
      assert s[..|s| - 1] == Digits(n / 36);
    }
  }

  /** Letters count the same in either case. */
  lemma EitherCase(c: char)
    requires 'a' <= c <= 'z'
    ensures DigitValue(c) == DigitValue((c as int - 'a' as int + 'A' as int) as char)
  {
  }

  /** MIDs are written in digits and capitals, without leading zeros. */
  lemma {:induction false} DigitsAreCanonical(n: nat)
    ensures Digits(n) != [] && forall i :: 0 <= i < |Digits(n)| ==>
              '0' <= Digits(n)[i] <= '9' || 'A' <= Digits(n)[i] <= 'Z'
    ensures Digits(n)[0] == '0' <==> n == 0
  {
    if n >= 36 {
      DigitsAreCanonical(n / 36);
    }
  }

  /** Python's `<=` on strings. */
  predicate TextLeq(a: string, b: string) {
    a == [] || (b != [] && (a[0] < b[0] || (a[0] == b[0] && TextLeq(a[1..], b[1..]))))
  }

  /** One text comes before another if it is a prefix of it, or has the smaller character where they first differ. */
  lemma {:induction false} TextLeqExactly(a: string, b: string)
    ensures TextLeq(a, b) <==>
            || a <= b
            || exists i :: 0 <= i < |a| && i < |b| && a[..i] == b[..i] && a[i] < b[i]
  {
    if a != [] && b != [] && a[0] == b[0] {
      TextLeqExactly(a[1..], b[1..]);
      assert a == [a[0]] + a[1..] && b == [b[0]] + b[1..];
      if i :| 0 <= i < |a[1..]| && i < |b[1..]| && a[1..][..i] == b[1..][..i] && a[1..][i] < b[1..][i] {
        assert a[..i + 1] == [a[0]] + a[1..][..i] && b[..i + 1] == [b[0]] + b[1..][..i];
        assert a[i + 1] < b[i + 1];
      }
      if i :| 0 <= i < |a| && i < |b| && a[..i] == b[..i] && a[i] < b[i] {
        assert a[1..][..i - 1] == a[..i][1..] == b[..i][1..] == b[1..][..i - 1];
        assert a[1..][i - 1] < b[1..][i - 1];
      }
    } else if a != [] && b != [] {
      assert a[..0] == b[..0];
    }
  }

  predicate MidLeq(a: nat, b: nat) {
    TextLeq(Digits(a), Digits(b))
  }

  /** The order of MIDs is not that of numbers: 36, written 10, comes before 2. */
  lemma TextIsNotNumber()
    ensures MidLeq(36, 2) && !MidLeq(2, 36)
  {
    assert Digits(36) == ['1', '0'] && Digits(2) == ['2'];
  }

  lemma {:induction false} TextLeqTotal(a: string, b: string)
    ensures TextLeq(a, b) || TextLeq(b, a)
  {
    if a != [] && b != [] && a[0] == b[0] {
      TextLeqTotal(a[1..], b[1..]);
    }
  }

  lemma {:induction false} TextLeqTransitive(a: string, b: string, c: string)
    requires TextLeq(a, b) && TextLeq(b, c)
    ensures TextLeq(a, c)
  {
    if a != [] && a[0] == b[0] == c[0] {
      TextLeqTransitive(a[1..], b[1..], c[1..]);
    }
  }

  ghost predicate NoDup<T(!new)>(s: seq<T>) {
    forall i, j :: 0 <= i < j < |s| ==> s[i] != s[j]
  }

  ghost predicate Sorted(s: seq<nat>) {
    forall i, j :: 0 <= i < j < |s| ==> MidLeq(s[i], s[j])
  }

  /** `out` is what `sorted(list(set(...)))` makes of the MIDs in `s`. */
  ghost predicate SortedListOf(out: seq<nat>, s: set<nat>) {
    Sorted(out) && NoDup(out) && forall x :: x in out <==> x in s
  }

  /** Sorting a set of MIDs as text. */
  method SortMids(s: set<nat>) returns (out: seq<nat>)
    ensures SortedListOf(out, s)
  {
    out := [];
    var rest := s;
    while rest != {}
      invariant rest <= s
      invariant SortedListOf(out, s - rest)
      decreases |rest|
    {
      var x :| x in rest;
      out := InsertMid(out, x, s - rest);
      rest := rest - {x};
    }
    assert s - {} == s;
  }

  method InsertMid(sorted: seq<nat>, x: nat, ghost s: set<nat>) returns (out: seq<nat>)
    requires SortedListOf(sorted, s) && x !in s
    ensures SortedListOf(out, s + {x})
  {
    var i := 0;
    while i < |sorted| && MidLeq(sorted[i], x)
      invariant 0 <= i <= |sorted|
      invariant forall k :: 0 <= k < i ==> MidLeq(sorted[k], x)
    {
      i := i + 1;
    }
    out := sorted[..i] + [x] + sorted[i..];
    Inserted(sorted, x, i, s);
  }

  /** A MID put in between those that come before it and those that come after it. */
  lemma Inserted(sorted: seq<nat>, x: nat, i: nat, s: set<nat>)
    requires SortedListOf(sorted, s) && x !in s && i <= |sorted|
    requires forall k :: 0 <= k < i ==> MidLeq(sorted[k], x)
    requires i < |sorted| ==> !MidLeq(sorted[i], x)
    ensures SortedListOf(sorted[..i] + [x] + sorted[i..], s + {x})
  {
    var out := sorted[..i] + [x] + sorted[i..];
    forall k | i <= k < |sorted|
      ensures MidLeq(x, sorted[k])
    {
      TextLeqTotal(Digits(sorted[i]), Digits(x));
      if k > i {
        TextLeqTransitive(Digits(x), Digits(sorted[i]), Digits(sorted[k]));
      }
    }
    assert sorted == sorted[..i] + sorted[i..];
    hide MidLeq;
    forall y
      ensures y in out <==> y in s + {x}
    {
    }
  }
}
