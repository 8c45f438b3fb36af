/** Sets and lists of integers packed into strings of bytes (mailpile/packing.py:9-91). */
module Packing {
  import opened Wrappers
  import opened BitMask

  /** zlib. What is not the output of `compress` may be refused. */
  datatype Zlib = Zlib(compress: Bytes -> Bytes, decompress: Bytes -> Option<Bytes>)

  /** What is known of zlib: decompression undoes compression, a compressed string has a header, a
      checksum and at least one block, and nothing grows more than about a thousandfold. */
  ghost predicate Sound(z: Zlib) {
    && (forall b :: z.decompress(z.compress(b)) == Some(b))
    && (forall b :: |z.compress(b)| >= 10)
    && (forall b :: z.decompress(b).Some? ==> |z.decompress(b).value| <= 2000 * |b|)
  }

  // --- struct.pack -----------------------------------------------------------

  function Power(k: nat): (p: nat)
    ensures p > 0
  {
    if k == 0 then 1 else 256 * Power(k - 1)
  }

  /** The lowest k binary digits of a number, lowest first. */
  function Binary(n: nat, k: nat): (bits: seq<bool>)
    ensures |bits| == k
  {
    if k == 0 then [] else [n % 2 == 1] + Binary(n / 2, k - 1)
  }

  function FromBinary(bits: seq<bool>): nat {
    if bits == [] then 0 else (if bits[0] then 1 else 0) + 2 * FromBinary(bits[1..])
  }

  function Two(k: nat): nat {
    if k == 0 then 1 else 2 * Two(k - 1)
  }

  lemma {:induction false} BinaryRoundTrip(n: nat, k: nat)
    requires n < Two(k)
    ensures FromBinary(Binary(n, k)) == n
  {
    if k == 0 {
    } else {
      BinaryRoundTrip(n / 2, k - 1);
      assert Binary(n, k)[1..] == Binary(n / 2, k - 1);
    }
  }

  /** The number that the bits of a byte stand for. */
  function Value(v: Byte): nat {
    FromBinary([Bit(v, 0), Bit(v, 1), Bit(v, 2), Bit(v, 3), Bit(v, 4), Bit(v, 5), Bit(v, 6), Bit(v, 7)])
  }

  /** The byte with the lowest eight bits of a number. */
  function ByteOf(n: nat): Byte {
    var b := Binary(n, 8);
    Flags(b[0], b[1], b[2], b[3], b[4], b[5], b[6], b[7])
  }

  function Flag(b: bool, v: Byte): Byte { if b then v else 0 }

  function Flags(b0: bool, b1: bool, b2: bool, b3: bool, b4: bool, b5: bool, b6: bool, b7: bool): Byte {
    Flag(b0, 1) | Flag(b1, 2) | Flag(b2, 4) | Flag(b3, 8) | Flag(b4, 16) | Flag(b5, 32) | Flag(b6, 64) | Flag(b7, 128)
  }

  lemma FlagsAreBits(b0: bool, b1: bool, b2: bool, b3: bool, b4: bool, b5: bool, b6: bool, b7: bool)
    ensures var v := Flags(b0, b1, b2, b3, b4, b5, b6, b7);
            Bit(v, 0) == b0 && Bit(v, 1) == b1 && Bit(v, 2) == b2 && Bit(v, 3) == b3
            && Bit(v, 4) == b4 && Bit(v, 5) == b5 && Bit(v, 6) == b6 && Bit(v, 7) == b7
  {
  }

  lemma TwoEight()
    ensures Two(8) == 256
  {
    assert Two(4) == 16;
  }

  lemma ValueOfBits(v: Byte, b: seq<bool>)
    requires |b| == 8 && forall i :: 0 <= i < 8 ==> Bit(v, i) == b[i]
    ensures Value(v) == FromBinary(b)
  {
    hide Bit, FromBinary;
    assert [Bit(v, 0), Bit(v, 1), Bit(v, 2), Bit(v, 3), Bit(v, 4), Bit(v, 5), Bit(v, 6), Bit(v, 7)] == b;
  }

  lemma ByteOfBits(b: seq<bool>)
    requires |b| == 8
    ensures Value(Flags(b[0], b[1], b[2], b[3], b[4], b[5], b[6], b[7])) == FromBinary(b)
  {
    hide Value, FromBinary, Flags, Bit;
    FlagsAreBits(b[0], b[1], b[2], b[3], b[4], b[5], b[6], b[7]);
    ValueOfBits(Flags(b[0], b[1], b[2], b[3], b[4], b[5], b[6], b[7]), b);
  }

  lemma ByteRoundTrip(n: nat)
    requires n < 256
    ensures Value(ByteOf(n)) == n
  {
    hide Flags, Bit, Binary, FromBinary, Two, Value;
    TwoEight();
    ByteOfBits(Binary(n, 8));
    BinaryRoundTrip(n, 8);
  }

  /** An unsigned number as k bytes, lowest first. */
  function ToBytes(n: nat, k: nat): (b: Bytes)
    ensures |b| == k
  {
    if k == 0 then [] else [ByteOf(n % 256)] + ToBytes(n / 256, k - 1)
  }

  function FromBytes(b: Bytes): nat {
    if b == [] then 0 else Value(b[0]) + 256 * FromBytes(b[1..])
  }

  lemma {:induction false} BytesRoundTrip(n: nat, k: nat)
    requires n < Power(k)
    ensures FromBytes(ToBytes(n, k)) == n
  {
    if k == 0 {
    } else {
      BytesRoundTrip(n / 256, k - 1);
      ByteRoundTrip(n % 256);
      assert ToBytes(n, k)[1..] == ToBytes(n / 256, k - 1);
    }
  }

  /** A number without its lowest i bytes. */
  function Shifted(n: nat, i: nat): nat {
    if i == 0 then n else Shifted(n / 256, i - 1)
  }

  /** Bytes are in order of weight, lowest first. */
  lemma {:induction false} ToBytesAt(n: nat, k: nat, i: nat)
    requires i < k
    ensures Value(ToBytes(n, k)[i]) == Shifted(n, i) % 256
  {
    hide Value, ByteOf;
    if i == 0 {
      ByteRoundTrip(n % 256);
    } else {
      ToBytesAt(n / 256, k - 1, i - 1);
    }
  }

  function PackAll(list: seq<nat>, k: nat): (b: Bytes)
    ensures |b| == k * |list|
  {
    if list == [] then [] else ToBytes(list[0], k) + PackAll(list[1..], k)
  }

  /** None stands for struct.error: the bytes do not make whole numbers. */
  function UnpackAll(b: Bytes, k: nat): Option<seq<nat>>
    requires k > 0
  {
    if b == [] then Some([])
    else if |b| < k then None
    else
      var rest := UnpackAll(b[k..], k);
      if rest.None? then None else Some([FromBytes(b[..k])] + rest.value)
  }

  /** Bytes that do not make whole numbers are refused, and no others. */
  lemma {:induction false} UnpacksWhole(b: Bytes, k: nat)
    requires k == 4 || k == 8
    ensures UnpackAll(b, k).Some? <==> |b| % k == 0
  {
    hide FromBytes;
    if |b| >= k {
      UnpacksWhole(b[k..], k);
      var n := |b[k..]|;
      if k == 4 {
        assert (n + 4) % 4 == 0 <==> n % 4 == 0;
      } else {
        assert (n + 8) % 8 == 0 <==> n % 8 == 0;
      }
    }
  }

  predicate Below(list: seq<nat>, bound: nat) {
    forall i :: 0 <= i < |list| ==> list[i] < bound
  }

  lemma {:induction false} PackRoundTrip(list: seq<nat>, k: nat)
    requires k > 0 && Below(list, Power(k))
    ensures UnpackAll(PackAll(list, k), k) == Some(list)
  {
    if list == [] {
    } else {
      var head := ToBytes(list[0], k);
      PackRoundTrip(list[1..], k);
      BytesRoundTrip(list[0], k);
      assert [list[0]] + list[1..] == list;
      assert PackAll(list, k)[..k] == head && PackAll(list, k)[k..] == PackAll(list[1..], k);
    }
  }

  lemma Powers()
    ensures Power(4) == 0x1_0000_0000 && Power(8) == 0x1_0000_0000_0000_0000
  {
    assert Power(1) == 256;
    assert Power(2) == 0x1_0000;
    assert Power(3) == 0x100_0000;
    assert Power(4) == 0x1_0000_0000;
    assert Power(5) == 0x100_0000_0000;
    assert Power(6) == 0x1_0000_0000_0000;
    assert Power(7) == 0x100_0000_0000_0000;
  }

  /** `n` bytes of 0xff. */
  function Marker(n: nat): (b: Bytes)
    ensures |b| == n
  {
    seq(n, i => 0xff)
  }

  lemma {:induction false} AllOnes(n: nat, k: nat)
    requires n + 1 == Two(k)
    ensures forall i :: 0 <= i < k ==> Binary(n, k)[i]
  {
    if k == 0 {
    } else {
      AllOnes(n / 2, k - 1);
    }
  }

  /** 0xff is the byte of 255, and of no other number below 256. */
  lemma HighestByte(n: nat)
    requires n < 256
    ensures ByteOf(n) == 0xff <==> n == 255
  {
    TwoEight();
    AllOnes(255, 8);
    assert ByteOf(255) == 0xff by {
      hide Binary;
      var b := Binary(255, 8);
      assert b[0] && b[1] && b[2] && b[3] && b[4] && b[5] && b[6] && b[7];
    }
    hide ByteOf, Value;
    ByteRoundTrip(n);
    ByteRoundTrip(255);
  }

  lemma HighestParts(n: nat, p: nat)
    requires p > 0 && n < 256 * p
    ensures n == 256 * p - 1 <==> n / 256 == p - 1 && n % 256 == 255
  {
  }

  /** Only the highest number packs to bytes of 0xff. */
  lemma {:induction false} MarkerIsHighest(n: nat, k: nat)
    requires n < Power(k)
    ensures ToBytes(n, k) == Marker(k) <==> n == Power(k) - 1
  {
    if k == 0 {
    } else {
      MarkerIsHighest(n / 256, k - 1);
      HighestByte(n % 256);
      HighestParts(n, Power(k - 1));
      var tail := ToBytes(n / 256, k - 1);
      assert ToBytes(n, k) == [ByteOf(n % 256)] + tail;
      assert Marker(k) == [0xff] + Marker(k - 1);
      hide ByteOf, ToBytes, Marker;
      HeadTail(ByteOf(n % 256), tail, 0xff, Marker(k - 1));
    }
  }

  lemma HeadTail(a: Byte, s: Bytes, b: Byte, t: Bytes)
    ensures [a] + s == [b] + t <==> a == b && s == t
  {
    assert ([a] + s)[0] == a && ([b] + t)[0] == b && ([a] + s)[1..] == s && ([b] + t)[1..] == t;
  }

  // --- Sets ------------------------------------------------------------------

  const MAX_PLAIN := 15

  /** Packing the members of a set in the order in which they come. None stands for struct.error: a
      short list holds a number of more than 32 bits. */
  function PackIntSet(z: Zlib, ints: seq<nat>): Option<Bytes> {
    if |ints| > MAX_PLAIN then Some(Marker(4) + z.compress(ToBitmask(ints)))
    else if Below(ints, 0x1_0000_0000) then Some(PackAll(ints, 4))
    else None
  }

  function UnpackIntSet(z: Zlib, data: Bytes): Option<set<nat>> {
    if |data| > 13 && data[..4] == Marker(4) then
      var mask := z.decompress(data[4..]);
      if mask.None? then None else Some(Members(FromBitmask(mask.value)))
    else
      var ints := UnpackAll(data, 4);
      if ints.None? then None else Some(Members(ints.value))
  }

  /** A short list whose first number packs to the marker of compressed data. */
  predicate LooksCompressed(ints: seq<nat>, least: nat, highest: nat) {
    least <= |ints| <= MAX_PLAIN && |ints| > 0 && ints[0] == highest
  }

  lemma PackStarts(list: seq<nat>, k: nat)
    requires list != [] && Below(list, Power(k))
    ensures |PackAll(list, k)| >= k && PackAll(list, k)[k..] == PackAll(list[1..], k)
    ensures PackAll(list, k)[..k] == Marker(k) <==> list[0] == Power(k) - 1
  {
    MarkerIsHighest(list[0], k);
    assert PackAll(list, k) == ToBytes(list[0], k) + PackAll(list[1..], k);
    assert PackAll(list, k)[..k] == ToBytes(list[0], k);
  }

  /** No decompressed short string is long enough to hold the highest number. */
  lemma TooShort(z: Zlib, rest: Bytes)
    requires Sound(z) && |rest| <= 60 && z.decompress(rest).Some?
    ensures 0xffff_ffff !in FromBitmask(z.decompress(rest).value)
  {
    FromBitmaskHas(z.decompress(rest).value, 0xffff_ffff);
  }

  lemma LargeSetRoundTrip(z: Zlib, ints: seq<nat>)
    requires Sound(z) && |ints| > MAX_PLAIN
    ensures UnpackIntSet(z, Marker(4) + z.compress(ToBitmask(ints))) == Some(Members(ints))
  {
    hide FromBitmask, ToBitmask, UnpackAll, Marker;
    var zipped := z.compress(ToBitmask(ints));
    var data := Marker(4) + zipped;
    assert data[..4] == Marker(4) && data[4..] == zipped;
    BitmaskRoundTrip(ints);
    assert Members(FromBitmask(ToBitmask(ints))) == Members(ints);
  }

  lemma SmallSetRoundTrip(z: Zlib, ints: seq<nat>)
    requires Sound(z) && |ints| <= MAX_PLAIN && Below(ints, 0x1_0000_0000)
    ensures UnpackIntSet(z, PackAll(ints, 4)) == Some(Members(ints)) <==> !LooksCompressed(ints, 4, 0xffff_ffff)
  {
    Powers();
    hide FromBitmask, PackAll, UnpackAll, Power, Marker;
    var data := PackAll(ints, 4);
    PackRoundTrip(ints, 4);
    if |ints| >= 4 {
      PackStarts(ints, 4);
      if ints[0] == 0xffff_ffff && z.decompress(data[4..]).Some? {
        TooShort(z, data[4..]);
        assert ints[0] in Members(ints);
      }
    }
  }

  /** A packed set is unpacked again, unless it has 4 to 15 members the first of which is 0xffffffff. */
  lemma IntSetRoundTripExactly(z: Zlib, ints: seq<nat>)
    requires Sound(z) && PackIntSet(z, ints).Some?
    ensures UnpackIntSet(z, PackIntSet(z, ints).value) == Some(Members(ints))
            <==> !LooksCompressed(ints, 4, 0xffff_ffff)
  {
    hide UnpackIntSet, ToBitmask, PackAll, Marker, Members, Sound;
    if |ints| > MAX_PLAIN {
      LargeSetRoundTrip(z, ints);
    } else {
      SmallSetRoundTrip(z, ints);
    }
  }

  /** Such a set of four, and what it fails to be. */
  lemma SmallSetIsMistaken(z: Zlib)
    requires Sound(z)
    ensures PackIntSet(z, [0xffff_ffff, 0, 1, 2]).Some?
    ensures UnpackIntSet(z, PackIntSet(z, [0xffff_ffff, 0, 1, 2]).value) != Some({0xffff_ffff, 0, 1, 2})
  {
    var ints := [0xffff_ffff, 0, 1, 2];
    assert Members(ints) == {0xffff_ffff, 0, 1, 2};
    hide UnpackIntSet, PackAll, Members, Sound;
    IntSetRoundTripExactly(z, ints);
  }

  // --- Lists of longs --------------------------------------------------------

  const HIGHEST := 0x1_0000_0000_0000_0000

  predicate Signed64(x: int) {
    -0x8000_0000_0000_0000 <= x < 0x8000_0000_0000_0000
  }

  function Complement(x: int): nat
    requires Signed64(x)
  {
    if x < 0 then x + HIGHEST else x
  }

  /** Two's complement. */
  function Unsigned(longs: seq<int>): (u: seq<nat>)
    requires forall i :: 0 <= i < |longs| ==> Signed64(longs[i])
    ensures |u| == |longs|
  {
    seq(|longs|, i requires 0 <= i < |longs| => Complement(longs[i]))
  }

  function ToSigned(u: seq<nat>): seq<int> {
    seq(|u|, i requires 0 <= i < |u| => if u[i] >= 0x8000_0000_0000_0000 then u[i] - HIGHEST else u[i])
  }

  /** None stands for an error: a number of more than 64 bits, or the missing first number of an empty
      list. */
  function PackLongList(z: Zlib, longs: seq<int>): Option<Bytes> {
    if !(forall i :: 0 <= i < |longs| ==> Signed64(longs[i])) then None
    else
      var packed := PackAll(Unsigned(longs), 8);
      if |packed| > 8 * MAX_PLAIN then Some(Marker(8) + z.compress(packed))
      else if longs == [] then None
      else if longs[0] == 0xffff_ffff_ffff_ffff then Some(Marker(8) + z.compress(packed))
      else Some(packed)
  }

  /** What can be packed: a list that is not empty, of numbers that 64 bits with a sign hold. */
  lemma PackableExactly(z: Zlib, longs: seq<int>)
    ensures PackLongList(z, longs).Some? <==>
            longs != [] && forall i :: 0 <= i < |longs| ==> -0x8000_0000_0000_0000 <= longs[i] <= 0x7FFF_FFFF_FFFF_FFFF
  {
    hide PackAll;
    if PackLongList(z, longs).Some? {
      assert forall i :: 0 <= i < |longs| ==> Signed64(longs[i]);
    }
  }

  function UnpackLongList(z: Zlib, data: Bytes): Option<seq<int>> {
    var plain := if |data| > 17 && data[..8] == Marker(8) then z.decompress(data[8..]) else Some(data);
    if plain.None? then None
    else
      var u := UnpackAll(plain.value, 8);
      if u.None? then None else Some(ToSigned(u.value))
  }

  lemma SignedRoundTrip(longs: seq<int>)
    requires forall i :: 0 <= i < |longs| ==> Signed64(longs[i])
    ensures ToSigned(Unsigned(longs)) == longs && Below(Unsigned(longs), HIGHEST)
  {
  }

  lemma FirstUnsigned(longs: seq<int>)
    requires longs != [] && forall i :: 0 <= i < |longs| ==> Signed64(longs[i])
    ensures Unsigned(longs)[0] == HIGHEST - 1 <==> longs[0] == -1
  {
  }

  lemma LongListUnzips(z: Zlib, u: seq<nat>)
    requires Sound(z) && Below(u, HIGHEST)
    ensures UnpackLongList(z, Marker(8) + z.compress(PackAll(u, 8))) == Some(ToSigned(u))
  {
    Powers();
    PackRoundTrip(u, 8);
    hide PackAll, UnpackAll, Power, ToSigned, Marker;
    var zipped := z.compress(PackAll(u, 8));
    var data := Marker(8) + zipped;
    assert data[..8] == Marker(8) && data[8..] == zipped;
  }

  /** Plainly packed numbers are taken for compressed ones if there are three or more and the first is
      the highest. */
  lemma PlainListUnpacks(z: Zlib, u: seq<nat>)
    requires Below(u, HIGHEST) && u != []
    ensures UnpackLongList(z, PackAll(u, 8))
         == if |u| >= 3 && u[0] == HIGHEST - 1 then Unzipped(z, PackAll(u[1..], 8)) else Some(ToSigned(u))
  {
    Powers();
    PackRoundTrip(u, 8);
    PackStarts(u, 8);
    hide PackAll, UnpackAll, Power, ToSigned, Marker;
  }

  function Unzipped(z: Zlib, data: Bytes): Option<seq<int>> {
    var plain := z.decompress(data);
    if plain.None? then None
    else
      var u := UnpackAll(plain.value, 8);
      if u.None? then None else Some(ToSigned(u.value))
  }

  /** A packed list is unpacked again, but for lists of 3 to 15 numbers that start with -1: the guard
      against the marker compares with the unsigned form of -1, which no packable number has. Such a
      list comes back as what zlib makes of its other numbers. */
  lemma LongListRoundTrip(z: Zlib, longs: seq<int>)
    requires Sound(z) && PackLongList(z, longs).Some?
    ensures UnpackLongList(z, PackLongList(z, longs).value)
         == if 3 <= |longs| <= MAX_PLAIN && longs[0] == -1 then Unzipped(z, PackAll(Unsigned(longs)[1..], 8))
            else Some(longs)
  {
    hide UnpackLongList, Sound, ToSigned, Unsigned, Unzipped, Marker;
    var u := Unsigned(longs);
    SignedRoundTrip(longs);
    if |longs| > MAX_PLAIN {
      LongListUnzips(z, u);
    } else {
      PlainListUnpacks(z, u);
      FirstUnsigned(longs);
    }
  }
}
