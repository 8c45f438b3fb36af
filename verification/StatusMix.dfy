/** How the crypto statuses of message parts mix into one (mailpile/crypto/state.py:24-28, 88-141). */
module StatusMix {

  const MIXED := "mixed-"

  /** A list of statuses: "none", and every other one after its mixed form. */
  function Listing(names: seq<string>): (out: seq<string>)
    ensures |out| == 2 * |names| + 1
  {
    seq(2 * |names| + 1, i requires 0 <= i <= 2 * |names| => StatusAt(names, i))
  }

  function StatusAt(names: seq<string>, i: nat): string
    requires i <= 2 * |names|
  {
    if i == 0 then "none" else if i % 2 == 1 then MIXED + names[i / 2] else names[i / 2 - 1]
  }

  const ENCRYPTION_NAMES := ["error", "decrypted", "missingkey", "lockedkey"]

  const SIGNATURE_NAMES := ["error", "unknown", "changed", "unsigned", "expired", "revoked", "unverified",
                            "signed", "verified", "invalid"]

  // --- On ranks --------------------------------------------------------------
  // A list of statuses starts with "none"; after it, every status is preceded by its mixed form. So the
  // rank of "none" is 0, mixed forms have odd ranks, and the others even ones.

  /** One bubble of rank p is mixed into a node of rank r. */
  function Mix(r: nat, p: nat, bubbly: bool): nat {
    if r <= p then (if bubbly && r != p && p % 2 == 0 then p - 1 else p)
    else if r % 2 == 0 then r - 1
    else r
  }

  function MixAll(r: nat, ps: seq<nat>, bubbly: bool): nat {
    if ps == [] then r else Mix(MixAll(r, ps[..|ps| - 1], bubbly), ps[|ps| - 1], bubbly)
  }

  /** The highest rank of a node and its bubbles. */
  function Highest(r: nat, ps: seq<nat>): (m: nat)
    ensures m >= r && (m == r || m in ps) && forall p :: p in ps ==> p <= m
  {
    if ps == [] then r
    else
      var n := |ps| - 1;
      var m := Highest(r, ps[..n]);
      assert ps == ps[..n] + [ps[n]];
      if m < ps[n] then ps[n] else m
  }

  predicate AllSame(r: nat, ps: seq<nat>) {
    forall i :: 0 <= i < |ps| ==> ps[i] == r
  }

  /** The rank of the base of a status, and of its mixed form. */
  function Base(r: nat): nat {
    if r % 2 == 1 then r + 1 else r
  }

  function MixedForm(r: nat): nat {
    if r % 2 == 0 && r > 0 then r - 1 else r
  }

  lemma {:induction false} HighestOfSame(r: nat, ps: seq<nat>)
    requires AllSame(r, ps)
    ensures Highest(r, ps) == r
  {
    if ps == [] {
    } else {
      HighestOfSame(r, ps[..|ps| - 1]);
    }
  }

  /** A bubbly node whose status all its bubbles share keeps it; any other gets the mixed form of the most
      exciting status. */
  lemma {:induction false} BubblyMix(r: nat, ps: seq<nat>)
    ensures MixAll(r, ps, true) == if AllSame(r, ps) then r else MixedForm(Highest(r, ps))
  {
    if ps == [] {
    } else {
      var n := |ps| - 1;
      BubblyMix(r, ps[..n]);
      assert ps == ps[..n] + [ps[n]];
      assert AllSame(r, ps) ==> AllSame(r, ps[..n]) && ps[n] == r;
      assert AllSame(r, ps[..n]) && ps[n] == r ==> AllSame(r, ps);
      hide AllSame;
      if AllSame(r, ps[..n]) {
        HighestOfSame(r, ps[..n]);
      }
    }
  }

  /** Neither the order of the bubbles nor their number matters. */
  lemma OrderIndependent(r: nat, ps: seq<nat>, qs: seq<nat>)
    requires forall p :: p in ps <==> p in qs
    ensures MixAll(r, ps, true) == MixAll(r, qs, true)
  {
    BubblyMix(r, ps);
    BubblyMix(r, qs);
    HighestWithin(r, ps, qs);
    HighestWithin(r, qs, ps);
  }

  lemma HighestWithin(r: nat, ps: seq<nat>, qs: seq<nat>)
    requires forall p :: p in ps ==> p in qs
    ensures Highest(r, ps) <= Highest(r, qs)
    ensures AllSame(r, qs) ==> AllSame(r, ps)
  {
    assert forall i :: 0 <= i < |ps| ==> ps[i] in ps;
  }

  /** A node that is not bubbly also shows the most exciting status, and its plain form just in case the
      last of the bubbles has it. */
  lemma {:induction false} NeutralMix(r: nat, ps: seq<nat>)
    ensures var m := Highest(r, ps);
            MixAll(r, ps, false) == if (if ps == [] then r else ps[|ps| - 1]) == m then m else MixedForm(m)
  {
    if ps == [] {
    } else {
      var n := |ps| - 1;
      NeutralMix(r, ps[..n]);
      assert ps == ps[..n] + [ps[n]];
    }
  }

  // --- On names --------------------------------------------------------------

  predicate IsMixed(s: string) {
    MIXED <= s
  }

  /** The shape that both lists of statuses have. */
  predicate Ranked(statuses: seq<string>) {
    && |statuses| % 2 == 1
    && statuses[0] == "none"
    && (forall i, j :: 0 <= i < j < |statuses| ==> statuses[i] != statuses[j])
    && (forall i :: 0 <= i < |statuses| && i % 2 == 0 ==> !IsMixed(statuses[i]))
    && (forall i :: 0 <= i < |statuses| && i % 2 == 1 ==> statuses[i] == MIXED + statuses[i + 1])
  }

  function Rank(statuses: seq<string>, s: string): (r: nat)
    requires s in statuses
    ensures r < |statuses| && statuses[r] == s
  {
    if statuses[0] == s then 0 else 1 + Rank(statuses[1..], s)
  }

  lemma RankIs(statuses: seq<string>, i: nat)
    requires Ranked(statuses) && i < |statuses|
    ensures Rank(statuses, statuses[i]) == i
  {
    hide Rank;
    var r := Rank(statuses, statuses[i]);
  }

  lemma RankParity(statuses: seq<string>, s: string)
    requires Ranked(statuses) && s in statuses
    ensures IsMixed(s) <==> Rank(statuses, s) % 2 == 1
    ensures s != "none" && !IsMixed(s) ==> MIXED + s in statuses && Rank(statuses, MIXED + s) == Rank(statuses, s) - 1
  {
    hide Rank;
    var r := Rank(statuses, s);
    if r % 2 == 1 {
      assert statuses[r] == MIXED + statuses[r + 1];
    } else if s != "none" {
      assert statuses[r - 1] == MIXED + statuses[r];
      RankIs(statuses, r - 1);
    }
  }

  predicate GoodNames(names: seq<string>) {
    && (forall i, j :: 0 <= i < j < |names| ==> names[i] != names[j])
    && (forall i :: 0 <= i < |names| ==> !IsMixed(names[i]) && names[i] != "none")
  }

  lemma StatusesApart(names: seq<string>, i: nat, j: nat)
    requires GoodNames(names) && i < j <= 2 * |names|
    ensures StatusAt(names, i) != StatusAt(names, j)
  {
    MixedDrop(names, i);
    MixedDrop(names, j);
    assert !IsMixed("none") by {
      assert MIXED[0] == 'm' && "none"[0] == 'n';
    }
  }

  lemma MixedDrop(names: seq<string>, i: nat)
    requires i <= 2 * |names|
    ensures i % 2 == 1 ==> IsMixed(StatusAt(names, i)) && StatusAt(names, i)[|MIXED|..] == names[i / 2]
  {
    if i % 2 == 1 {
      assert (MIXED + names[i / 2])[|MIXED|..] == names[i / 2];
    }
  }

  lemma ListingIsRanked(names: seq<string>)
    requires GoodNames(names)
    ensures Ranked(Listing(names))
  {
    var st := Listing(names);
    forall i, j | 0 <= i < j < |st|
      ensures st[i] != st[j]
    {
      hide StatusAt;
      StatusesApart(names, i, j);
    }
    assert !IsMixed("none") by {
      assert MIXED[0] == 'm' && "none"[0] == 'n';
    }
  }

  /** Names of different lengths, or with different first letters. */
  function Key(s: string): int
    requires s != []
  {
    1000 * |s| + s[0] as int
  }

  lemma KeysTellApart(names: seq<string>, keys: seq<int>)
    requires |keys| == |names| && forall i :: 0 <= i < |names| ==> names[i] != [] && keys[i] == Key(names[i])
    requires forall i, j :: 0 <= i < j < |keys| ==> keys[i] != keys[j]
    requires forall i :: 0 <= i < |names| ==> names[i][0] != 'n' && !(|names[i]| > 2 && names[i][2] == 'x')
    ensures GoodNames(names)
  {
    forall i | 0 <= i < |names|
      ensures !IsMixed(names[i]) && names[i] != "none"
    {
      MixedHasX(names[i]);
      assert "none"[0] == 'n';
    }
  }

  lemma MixedHasX(s: string)
    ensures IsMixed(s) ==> |s| > 2 && s[2] == 'x'
  {
    assert MIXED[2] == 'x';
    assert IsMixed(s) ==> s[2] == MIXED[2];
  }

  /** Both lists of statuses have that shape. */
  lemma EncryptionIsRanked()
    ensures Ranked(Listing(ENCRYPTION_NAMES))
  {
    KeysTellApart(ENCRYPTION_NAMES, [5101, 9100, 10109, 9108]);
    ListingIsRanked(ENCRYPTION_NAMES);
  }

  lemma SignatureIsRanked()
    ensures Ranked(Listing(SIGNATURE_NAMES))
  {
    KeysTellApart(SIGNATURE_NAMES, [5101, 7117, 7099, 8117, 7101, 7114, 10117, 6115, 8118, 7105]);
    ListingIsRanked(SIGNATURE_NAMES);
  }
}
