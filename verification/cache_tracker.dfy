/** The hit tracker of the document cache: 4096 tags in sets of 8. */
module CacheTracker {
  const SLOTS := 4096
  const WAYS := 8
  const SETS := 512

  /** `seen` holds 64-bit values, 0 in an empty slot; `victim` is the xorshift state. */
  datatype Tracker = Tracker(seen: seq<nat>, victim: bv64)

  /** tag ^ 1. */
  function RefusedTag(tag: nat): nat { if tag % 2 == 0 then tag + 1 else tag - 1 }

  /** The hash, but never 0. */
  function TagOf(hash: nat): nat { if hash == 0 then 1 else hash }

  predicate Matches(v: nat, tag: nat) { v == tag || v == RefusedTag(tag) }

  function FirstMatch(ways: seq<nat>, tag: nat): (r: nat)
    ensures r <= |ways|
    ensures r < |ways| ==> Matches(ways[r], tag)
    ensures forall i :: 0 <= i < r ==> !Matches(ways[i], tag)
  {
    if ways == [] || Matches(ways[0], tag) then 0 else 1 + FirstMatch(ways[1..], tag)
  }

  function FirstEmpty(ways: seq<nat>): (r: nat)
    ensures r <= |ways|
    ensures r < |ways| ==> ways[r] == 0
    ensures forall i :: 0 <= i < r ==> ways[i] != 0
  {
    if ways == [] || ways[0] == 0 then 0 else 1 + FirstEmpty(ways[1..])
  }

  function XorShift(x: bv64): bv64 {
    var a := x ^ (x << 13);
    var b := a ^ (a >> 7);
    b ^ (b << 17)
  }

  function HighBits(x: bv64): bv64 { x >> 61 }

  /** A generator that starts at a value other than 0 never comes to 0. */
  lemma XorShiftNonZero(x: bv64)
    ensures XorShift(x) == 0 ==> x == 0
  {
    var a := x ^ (x << 13);
    var b := a ^ (a >> 7);
    ShiftLeft17(b);
    ShiftRight7(a);
    ShiftLeft13(x);
  }

  lemma ShiftLeft13(x: bv64)
    ensures x ^ (x << 13) == 0 ==> x == 0
  {
  }

  lemma ShiftRight7(x: bv64)
    ensures x ^ (x >> 7) == 0 ==> x == 0
  {
  }

  lemma ShiftLeft17(x: bv64)
    ensures x ^ (x << 17) == 0 ==> x == 0
  {
  }

  lemma HighBitsBelowWays(x: bv64)
    ensures HighBits(x) < 8
  {
  }

  // ---- Which slot, and what the slots mean

  function Base(tag: nat): nat { (tag % SETS) * WAYS }

  /** tracker_slot: the slot for a tag, and the tracker with its victim moved on if one was needed. */
  function Slot(t: Tracker, tag: nat): (r: (nat, Tracker))
    requires |t.seen| == SLOTS
    ensures r.0 < SLOTS && r.0 / WAYS == tag % SETS && r.1.seen == t.seen
  {
    var base := Base(tag);
    var ways := t.seen[base..base + WAYS];
    if FirstMatch(ways, tag) < WAYS then (base + FirstMatch(ways, tag), t)
    else if FirstEmpty(ways) < WAYS then (base + FirstEmpty(ways), t)
    else
      var v := XorShift(t.victim);
      HighBitsBelowWays(v);
      (base + HighBits(v) as nat, t.(victim := v))
  }

  /** A value in a slot of a set is empty, a tag of the set, or the refused mark of one. */
  predicate SlotOk(v: nat, slots: nat) {
    v == 0 || v % SETS == slots || RefusedTag(v) % SETS == slots
  }

  /** The tag a value in a slot of the given set stands for. */
  function Owner(v: nat, slots: nat): nat { if v % SETS == slots then v else RefusedTag(v) }

  ghost predicate TrackerOk(t: Tracker) {
    && |t.seen| == SLOTS && t.victim != 0
    && (forall i :: 0 <= i < SLOTS ==> SlotOk(t.seen[i], i / WAYS))
    && (forall i, j |
          0 <= i < SLOTS && 0 <= j < SLOTS && i != j && i / WAYS == j / WAYS && t.seen[i] != 0 && t.seen[j] != 0 ::
          Owner(t.seen[i], i / WAYS) != Owner(t.seen[j], i / WAYS))
  }

  lemma RefusedIsItsOwnInverse(tag: nat)
    ensures RefusedTag(RefusedTag(tag)) == tag && RefusedTag(tag) % SETS != tag % SETS
  {
  }

  /** No value is both a tag of a set and the refused mark of one. */
  lemma NeverBoth(v: nat, slots: nat)
    ensures !(v % SETS == slots && RefusedTag(v) % SETS == slots)
  {
    RefusedIsItsOwnInverse(v);
  }

  /**
    * The mark of a refused file reads as empty exactly for the tag 1, and as nothing of another
    * file whose tag falls in the same set.
    */
  lemma RefusedMarkIsUnambiguous(tag: nat, other: nat)
    requires tag > 0
    ensures RefusedTag(tag) == 0 <==> tag == 1
    ensures other % SETS == tag % SETS && other != tag ==> !Matches(RefusedTag(tag), other)
  {
    RefusedIsItsOwnInverse(tag);
    RefusedIsItsOwnInverse(other);
  }

  lemma NoOtherMatch(t: Tracker, tag: nat, i: nat, j: nat)
    requires TrackerOk(t) && tag > 0 && i == Slot(t, tag).0
    requires t.seen[i] != RefusedTag(tag)
    requires j < SLOTS && j != i && j / WAYS == tag % SETS && t.seen[j] != 0
    ensures Owner(t.seen[j], tag % SETS) != tag
  {
    var base := Base(tag);
    var ways := t.seen[base..base + WAYS];
    assert ways[j - base] == t.seen[j];
    RefusedIsItsOwnInverse(t.seen[j]);
    if FirstMatch(ways, tag) < WAYS {
      assert ways[i - base] == t.seen[i] == tag;
      assert Owner(t.seen[i], i / WAYS) == tag;
    } else {
      assert !Matches(ways[j - base], tag);
    }
  }

  /** Every write that get() and admit() make through tracker_slot keeps the tracker in order. */
  lemma WriteKeepsTracker(t: Tracker, tag: nat, v: nat)
    requires TrackerOk(t) && tag > 0 && t.seen[Slot(t, tag).0] != RefusedTag(tag)
    requires v == tag || v == RefusedTag(tag) || v == 0
    ensures TrackerOk(Slot(t, tag).1.(seen := t.seen[Slot(t, tag).0 := v]))
  {
    var (i, t') := Slot(t, tag);
    var u := t'.(seen := t.seen[i := v]);
    XorShiftNonZero(t.victim);
    RefusedIsItsOwnInverse(tag);
    forall j | 0 <= j < SLOTS && j != i && j / WAYS == i / WAYS && t.seen[j] != 0
      ensures Owner(t.seen[j], i / WAYS) != tag
    {
      NoOtherMatch(t, tag, i, j);
    }
    assert v != 0 ==> Owner(v, i / WAYS) == tag;
  }

  /** A lookup alone changes the tracker's victim at most. */
  lemma LookupKeepsTracker(t: Tracker, tag: nat)
    requires TrackerOk(t)
    ensures TrackerOk(Slot(t, tag).1)
  {
    XorShiftNonZero(t.victim);
  }

  /** What get() and admit() may leave behind in the slot of a tag. */
  lemma WritesKeepTracker(t: Tracker, tag: nat)
    requires |t.seen| == SLOTS && tag > 0
    ensures var (i, u) := Slot(t, tag);
      TrackerOk(t) ==>
        && TrackerOk(u)
        && (t.seen[i] != RefusedTag(tag) ==>
              && TrackerOk(u.(seen := u.seen[i := tag]))
              && TrackerOk(u.(seen := u.seen[i := RefusedTag(tag)]))
              && TrackerOk(u.(seen := u.seen[i := 0])))
  {
    if TrackerOk(t) {
      LookupKeepsTracker(t, tag);
      if t.seen[Slot(t, tag).0] != RefusedTag(tag) {
        WriteKeepsTracker(t, tag, tag);
        WriteKeepsTracker(t, tag, RefusedTag(tag));
        WriteKeepsTracker(t, tag, 0);
      }
    }
  }
}
