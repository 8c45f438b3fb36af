/** Sets of small numbers as masks of bits (mailpile/util.py:473-488). */
module BitMask {

  type Byte = bv8

  type Bytes = seq<Byte>

  /** 1 << b, for a bit of a byte. */
  function One(b: nat): Byte
    requires b < 8
  {
    match b
    case 0 => 1
    case 1 => 2
    case 2 => 4
    case 3 => 8
    case 4 => 16
    case 5 => 32
    case 6 => 64
    case 7 => 128
  }

  predicate Bit(v: Byte, b: nat)
    requires b < 8
  {
    v & One(b) != 0
  }

  function WithBit(v: Byte, b: nat): Byte
    requires b < 8
  {
    v | One(b)
  }

  /** Or-ing in one bit sets that bit and leaves the others alone. */
  lemma WithBitSets(v: Byte, b: nat, c: nat)
    requires b < 8 && c < 8
    ensures Bit(WithBit(v, b), c) <==> c == b || Bit(v, c)
  {
    OneIsApart(b, c);
    var m, n := One(b), One(c);
    if b == c {
      assert n != 0;
      assert (v | n) & n == n;
    } else {
      assert m & n == 0;
      assert (v | m) & n == v & n;
    }
  }

  lemma OneIsApart(b: nat, c: nat)
    requires b < 8 && c < 8
    ensures One(b) & One(c) == if b == c then One(b) else 0
    ensures One(b) != 0
  {
  }

  predicate InMask(mask: Bytes, r: nat) {
    r / 8 < |mask| && Bit(mask[r / 8], r % 8)
  }

  function Largest(list: seq<nat>): (m: nat)
    requires list != []
    ensures m in list && forall i :: 0 <= i < |list| ==> list[i] <= m
  {
    var n := |list| - 1;
    assert list == list[..n] + [list[n]];
    if n == 0 then list[0]
    else
      var m := Largest(list[..n]);
      if m < list[n] then list[n] else m
  }

  function Zeros(n: nat): Bytes {
    seq(n, i => 0)
  }

  function SetBits(mask: Bytes, list: seq<nat>): (out: Bytes)
    requires forall i :: 0 <= i < |list| ==> list[i] / 8 < |mask|
    ensures |out| == |mask|
  {
    if list == [] then mask
    else
      var n := |list| - 1;
      var r := list[n];
      assert r in list;
      var m := SetBits(mask, list[..n]);
      m[r / 8 := WithBit(m[r / 8], r % 8)]
  }

  lemma BytesEnough(list: seq<nat>)
    requires list != []
    ensures forall i :: 0 <= i < |list| ==> list[i] / 8 < Largest(list) / 8 + 1
  {
  }

  function ToBitmask(list: seq<nat>): Bytes {
    if list == [] then [0] else BytesEnough(list); SetBits(Zeros(Largest(list) / 8 + 1), list)
  }

  method IntlistToBitmask(list: seq<nat>) returns (mask: Bytes)
    ensures mask == ToBitmask(list)
  {
    if list == [] {
      return [0];
    }
    BytesEnough(list);
    mask := Zeros(Largest(list) / 8 + 1);
    for i := 0 to |list|
      invariant |mask| == Largest(list) / 8 + 1
      invariant mask == SetBits(Zeros(Largest(list) / 8 + 1), list[..i])
    {
      var r := list[i];
      assert r in list;
      assert list[..i + 1][..i] == list[..i];
      mask := mask[r / 8 := WithBit(mask[r / 8], r % 8)];
    }
    assert list[..|list|] == list;
  }

  lemma {:induction false} SetBitsSets(mask: Bytes, list: seq<nat>, r: nat)
    requires forall i :: 0 <= i < |list| ==> list[i] / 8 < |mask|
    ensures InMask(SetBits(mask, list), r) <==> InMask(mask, r) || r in list
  {
    if list == [] {
    } else {
      var n := |list| - 1;
      assert list == list[..n] + [list[n]];
      assert list[n] in list;
      SetBitsSets(mask, list[..n], r);
      var m := SetBits(mask, list[..n]);
      if r / 8 == list[n] / 8 {
        hide Bit, WithBit;
        WithBitSets(m[r / 8], list[n] % 8, r % 8);
      }
    }
  }

  /** The mask of a list has just the bits of its members. */
  lemma MaskHas(list: seq<nat>, r: nat)
    ensures InMask(ToBitmask(list), r) <==> r in list
  {
    if list != [] {
      BytesEnough(list);
      var zeros := Zeros(Largest(list) / 8 + 1);
      SetBitsSets(zeros, list, r);
      assert !InMask(zeros, r) by {
        assert forall b: nat :: b < 8 ==> !Bit(0, b);
      }
    } else {
      assert forall b: nat :: b < 8 ==> !Bit(0, b);
    }
  }

  /** The mask is no longer than need be: its last byte has a bit, unless the list is empty. */
  lemma MaskIsShort(list: seq<nat>)
    ensures ToBitmask([]) == [0]
    ensures list != [] ==> exists r :: r in list && r / 8 == |ToBitmask(list)| - 1
  {
    if list != [] {
      assert Largest(list) in list;
    }
  }

  /** The numbers of the lowest n bits of byte i. */
  function BitsOf(i: nat, v: Byte, n: nat): (out: seq<nat>)
    requires n <= 8
    ensures forall k :: 0 <= k < |out| ==> 8 * i <= out[k] < 8 * i + n
  {
    if n == 0 then []
    else if Bit(v, n - 1) then BitsOf(i, v, n - 1) + [8 * i + n - 1]
    else BitsOf(i, v, n - 1)
  }

  function FromBitmask(mask: Bytes): seq<nat> {
    if mask == [] then []
    else
      var n := |mask| - 1;
      FromBitmask(mask[..n]) + BitsOf(n, mask[n], 8)
  }

  method BitmaskToIntlist(mask: Bytes) returns (results: seq<nat>)
    ensures results == FromBitmask(mask)
  {
    results := [];
    for i := 0 to |mask|
      invariant results == FromBitmask(mask[..i])
    {
      assert mask[..i + 1][..i] == mask[..i];
      var v := mask[i];
      if v != 0 {
        var bits := [];
        for b := 0 to 8
          invariant bits == BitsOf(i, v, b)
        {
          if Bit(v, b) {
            bits := bits + [i * 8 + b];
          }
        }
        results := results + bits;
      } else {
        NoBits(i, 8);
      }
    }
    assert mask[..|mask|] == mask;
  }

  lemma {:induction false} NoBits(i: nat, n: nat)
    requires n <= 8
    ensures BitsOf(i, 0, n) == []
  {
    if n == 0 {
    } else {
      NoBits(i, n - 1);
      assert !Bit(0, n - 1);
    }
  }

  predicate Ascending(s: seq<nat>) {
    forall j, k :: 0 <= j < k < |s| ==> s[j] < s[k]
  }

  lemma {:induction false} BitsOfAre(i: nat, v: Byte, n: nat, r: nat)
    requires n <= 8
    ensures r in BitsOf(i, v, n) <==> 8 * i <= r < 8 * i + n && Bit(v, r - 8 * i)
  {
    if n == 0 {
    } else {
      BitsOfAre(i, v, n - 1, r);
    }
  }

  lemma {:induction false} BitsOfRise(i: nat, v: Byte, n: nat)
    requires n <= 8
    ensures Ascending(BitsOf(i, v, n))
  {
    if n == 0 {
    } else {
      BitsOfRise(i, v, n - 1);
    }
  }

  /** Reading a mask gives the numbers of its bits, */
  lemma {:induction false} FromBitmaskHas(mask: Bytes, r: nat)
    ensures r in FromBitmask(mask) <==> InMask(mask, r)
  {
    if mask == [] {
    } else {
      var n := |mask| - 1;
      FromBitmaskHas(mask[..n], r);
      BitsOfAre(n, mask[n], 8, r);
      assert FromBitmask(mask) == FromBitmask(mask[..n]) + BitsOf(n, mask[n], 8);
      hide Bit, BitsOf, FromBitmask;
      assert r / 8 < n ==> mask[..n][r / 8] == mask[r / 8];
    }
  }

  /** in order. */
  lemma {:induction false} FromBitmaskRises(mask: Bytes)
    ensures Ascending(FromBitmask(mask))
    ensures forall k :: 0 <= k < |FromBitmask(mask)| ==> FromBitmask(mask)[k] < 8 * |mask|
  {
    if mask == [] {
    } else {
      var n := |mask| - 1;
      FromBitmaskRises(mask[..n]);
      BitsOfRise(n, mask[n], 8);
      hide Bit;
    }
  }

  /** Reading back what was written: the members of the list, each once and in order. */
  lemma BitmaskRoundTrip(list: seq<nat>)
    ensures Ascending(FromBitmask(ToBitmask(list)))
    ensures forall r: nat :: r in FromBitmask(ToBitmask(list)) <==> r in list
  {
    hide FromBitmask, ToBitmask, InMask;
    FromBitmaskRises(ToBitmask(list));
    forall r: nat
      ensures r in FromBitmask(ToBitmask(list)) <==> r in list
    {
      FromBitmaskHas(ToBitmask(list), r);
      MaskHas(list, r);
    }
  }

  /** The last member of a list in order is the largest, and not among the others. */
  lemma AllButLast(a: seq<nat>, r: nat)
    requires Ascending(a) && a != []
    ensures r in a[..|a| - 1] <==> r in a && r != a[|a| - 1]
    ensures r in a ==> r <= a[|a| - 1]
    ensures a[|a| - 1] in a
  {
    assert a == a[..|a| - 1] + [a[|a| - 1]];
  }

  lemma {:induction false} AscendingUnique(a: seq<nat>, b: seq<nat>)
    requires Ascending(a) && Ascending(b) && forall r: nat :: r in a <==> r in b
    ensures a == b
  {
    assert a != [] ==> a[0] in a;
    assert b != [] ==> b[0] in b;
    if a != [] && b != [] {
      var m, n := |a| - 1, |b| - 1;
      AllButLast(a, b[n]);
      AllButLast(b, a[m]);
      assert a[m] == b[n];
      forall r: nat
        ensures r in a[..m] <==> r in b[..n]
      {
        AllButLast(a, r);
        AllButLast(b, r);
      }
      AscendingUnique(a[..m], b[..n]);
      assert a == a[..m] + [a[m]] && b == b[..n] + [b[n]];
    }
  }

  /** A list that is in order is read back as it was. */
  lemma OrderedRoundTrip(list: seq<nat>)
    requires Ascending(list)
    ensures FromBitmask(ToBitmask(list)) == list
  {
    BitmaskRoundTrip(list);
    AscendingUnique(FromBitmask(ToBitmask(list)), list);
  }
}
