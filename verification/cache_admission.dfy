/** When the document cache reads a file to keep it: on the second miss, and not while its refused mark stands. */
module CacheAdmission {
  import opened Bytes
  import opened FileWorld
  import opened CacheTracker
  import opened CacheState
  import opened CacheTheorems

  /** How often a file was read to be kept: each try counts as refused until it succeeds. */
  function Tries(c: Cache): int { c.tally.refused + c.tally.admissions }

  /** The call kept a record of the path, made under these moments. */
  ghost predicate Keeps1(c: Cache, d: Cache, path: Text, id: FileId, m: Moments) {
    && d.history.admitted == c.history.admitted + 1 && path in d.shelf.entries
    && AdmittedUnder(d.shelf.entries[path], path, id, m)
    && CanonicalOf(m.path2, path) == Some(d.shelf.entries[path].canonical)
  }

  // ---- What each part of a call does about it

  lemma PlaceTries(c: Cache, path: Text, e: Entry, i: nat)
    requires RecordsOk(c) && !FullOfUsed(c) && path !in c.shelf.entries && i < |c.tracker.seen| && e.query == c.query
    ensures var d := Place(c, path, e, i);
      && Tries(d) == Tries(c) && d.active == c.active && d.maxFileBytes == c.maxFileBytes
      && d.history.admitted == c.history.admitted + 1 && path in d.shelf.entries && d.shelf.entries[path] == e
  {
    EvictIs(c);
  }

  /** How a call ends that came to the read, or did not: a new record, or the records as they were. */
  ghost predicate Ends(c: Cache, d: Cache, path: Text, id: FileId, m: Moments, kept: bool) {
    && d.active == c.active && d.maxFileBytes == c.maxFileBytes
    && if kept then Keeps1(c, d, path, id, m) else d.history == c.history && d.shelf == c.shelf
  }

  lemma JudgeTries(c: Cache, path: Text, id: FileId, canonical: Text, i: nat, m: Moments, eng: Engine)
    requires RecordsOk(c) && !FullOfUsed(c) && path !in c.shelf.entries && i < |c.tracker.seen|
    requires !ChangedJustNow(m.clock.now, id)
    ensures var d := Judge(c, path, id, canonical, i, m, eng).0;
      Tries(d) == Tries(c) && Ends(c, d, path, id, m, eng.read && Keepable(path, id, canonical, m, eng))
  {
    if eng.read && Keepable(path, id, canonical, m, eng) {
      PlaceTries(c, path, Entry(canonical, id, Record(path, ContentAt(m.read, path)), eng.bytes, c.query), i);
    }
  }

  lemma AdmitTries(c: Cache, path: Text, id: FileId, i: nat, m: Moments, eng: Engine)
    requires RecordsOk(c) && path !in c.shelf.entries && i < |c.tracker.seen|
    ensures var d := Admit(c, path, id, i, m, eng).0;
      && Tries(d) == Tries(c) + (if Admissible(c, path, id, m, eng) then 1 else 0)
      && Ends(c, d, path, id, m,
              && Admissible(c, path, id, m, eng) && eng.read
              && Keepable(path, id, CanonicalOf(m.path1, path).value, m, eng))
  {
    if Admissible(c, path, id, m, eng) {
      JudgeTries(Tried(c), path, id, CanonicalOf(m.path1, path).value, i, m, eng);
    }
  }

  /** The mark the tracker has for a tag: the tag itself after one miss, its refused mark, or another's. */
  function Mark(t: Tracker, tag: nat): nat
    requires |t.seen| == SLOTS
  {
    t.seen[Slot(t, tag).0]
  }

  lemma MissTries(c: Cache, path: Text, id: FileId, hash: nat, m: Moments, eng: Engine)
    requires RecordsOk(c) && |c.tracker.seen| == SLOTS && path !in c.shelf.entries
    ensures var d := Miss(c, path, id, hash, m, eng).0;
      && Tries(c) <= Tries(d) <= Tries(c) + 1 && d.active == c.active && d.maxFileBytes == c.maxFileBytes
      && (Tries(d) > Tries(c) ==> Mark(c.tracker, TagOf(hash)) == TagOf(hash))
      && (d.history != c.history ==> Tries(d) > Tries(c) && Keeps1(c, d, path, id, m))
  {
    var tag := TagOf(hash);
    var (i, t) := Slot(c.tracker, tag);
    MarkSays(c, path, id, hash, m, eng);
    if Mark(c.tracker, tag) == tag { AdmitTries(c.(tracker := t), path, id, i, m, eng); }
  }

  /** A call that does not come to the tracker: it leaves that, the tries and the admissions as they are. */
  ghost predicate Quiet(c: Cache, d: Cache) {
    d.tracker == c.tracker && Tries(d) == Tries(c) && d.history.admitted == c.history.admitted
  }

  /** The cache as a call of get finds it when it comes to the tracker, if it does. */
  ghost function AtMiss(c: Cache, path: Text, m: Moments): Option<Cache> {
    if !c.active || path == [] || StatOf(m.stat, path).None? then None
    else if StatOf(m.stat, path).value.size > c.maxFileBytes || IsHit(c, path, m) then None
    else Some(Missed(if path in c.shelf.entries then DropChanged(c, path) else c))
  }

  lemma AtMissIsOk(c: Cache, path: Text, m: Moments)
    requires CacheOk(c)
    ensures var at := AtMiss(c, path, m);
      at.Some? ==>
        && CacheOk(at.value) && path !in at.value.shelf.entries && Quiet(c, at.value)
        && StatOf(m.stat, path).Some?
  {
    if path in c.shelf.entries { DropChangedKeepsCache(c, path); }
  }

  lemma GetInParts(c: Cache, path: Text, hash: nat, m: Moments, eng: Engine)
    requires CacheOk(c)
    ensures var at := AtMiss(c, path, m);
      && (at.None? ==> Quiet(c, Get(c, path, hash, m, eng).0))
      && (at.Some? ==>
            && CacheOk(at.value) && path !in at.value.shelf.entries && StatOf(m.stat, path).Some?
            && Get(c, path, hash, m, eng) == Miss(at.value, path, StatOf(m.stat, path).value, hash, m, eng))
  {
    AtMissIsOk(c, path, m);
  }

  /** A call of get reads a file to keep it at most once, and only where its tag stands in the tracker. */
  lemma GetTries(c: Cache, path: Text, hash: nat, m: Moments, eng: Engine)
    requires CacheOk(c)
    ensures var d := Get(c, path, hash, m, eng).0;
      Tries(c) <= Tries(d) <= Tries(c) + 1 && (Tries(d) > Tries(c) ==> Mark(c.tracker, TagOf(hash)) == TagOf(hash))
  {
    var at := AtMiss(c, path, m);
    GetInParts(c, path, hash, m, eng);
    AtMissIsOk(c, path, m);
    if at.Some? { MissTries(at.value, path, StatOf(m.stat, path).value, hash, m, eng); }
  }

  // ---- Runs

  /** The call comes to the tracker, finds neither its tag nor its refused mark there, and writes the tag. */
  ghost predicate Notes(c: Cache, call: Call)
    requires CacheOk(c)
  {
    && call.DoGet? && AtMiss(c, call.path, call.m).Some?
    && Mark(c.tracker, TagOf(call.hash)) != TagOf(call.hash)
    && Mark(c.tracker, TagOf(call.hash)) != RefusedTag(TagOf(call.hash))
  }

  ghost predicate NotesTag(c: Cache, call: Call, tag: nat)
    requires CacheOk(c)
  {
    Notes(c, call) && TagOf(call.hash) == tag
  }

  /** One of the calls, run from c, notes the tag. */
  ghost predicate Noted(c: Cache, calls: seq<Call>, tag: nat)
    requires CacheOk(c)
  {
    calls != [] &&
    var most, last := calls[..|calls| - 1], calls[|calls| - 1];
    Noted(c, most, tag) || NotesTag(AfterCalls(c, most), last, tag)
  }

  /** Every mark in the tracker is of a tag that one of the calls noted. */
  ghost predicate MarksAreNoted(t: Tracker, c: Cache, calls: seq<Call>)
    requires |t.seen| == SLOTS && CacheOk(c)
  {
    forall i :: 0 <= i < SLOTS && t.seen[i] != 0 ==> Noted(c, calls, Owner(t.seen[i], i / WAYS))
  }

  /** What a call leaves in the tracker: the marks there were, the refused mark of one of them, or the tag it notes. */
  ghost predicate MarksStay(t: Tracker, u: Tracker, noted: bool, tag: nat)
    requires |t.seen| == |u.seen| == SLOTS
  {
    forall i :: 0 <= i < SLOTS && u.seen[i] != 0 ==>
      || (t.seen[i] != 0 && Owner(u.seen[i], i / WAYS) == Owner(t.seen[i], i / WAYS))
      || (noted && Owner(u.seen[i], i / WAYS) == tag)
  }

  lemma GetMarks(c: Cache, path: Text, hash: nat, m: Moments, eng: Engine)
    requires CacheOk(c)
    ensures MarksStay(c.tracker, Get(c, path, hash, m, eng).0.tracker, Notes(c, DoGet(path, hash, m, eng)), TagOf(hash))
  {
    var at := AtMiss(c, path, m);
    GetInParts(c, path, hash, m, eng);
    AtMissIsOk(c, path, m);
    if at.Some? { MissMarks(at.value, path, StatOf(m.stat, path).value, hash, m, eng); }
  }

  lemma MissMarks(c: Cache, path: Text, id: FileId, hash: nat, m: Moments, eng: Engine)
    requires CacheOk(c) && path !in c.shelf.entries
    ensures var tag := TagOf(hash);
      MarksStay(c.tracker, Miss(c, path, id, hash, m, eng).0.tracker,
                Mark(c.tracker, tag) != tag && Mark(c.tracker, tag) != RefusedTag(tag), tag)
  {
    var tag := TagOf(hash);
    var (i, t) := Slot(c.tracker, tag);
    OwnMarks(tag, i);
    MarkSays(c, path, id, hash, m, eng);
    MissWrites(c, path, id, hash, m, eng);
  }

  /** A miss writes to the slot of its tag alone, if at all: the tag, 0, or the tag's refused mark in its place. */
  lemma MissWrites(c: Cache, path: Text, id: FileId, hash: nat, m: Moments, eng: Engine)
    requires CacheOk(c) && path !in c.shelf.entries
    ensures var tag := TagOf(hash); var (i, t) := Slot(c.tracker, tag);
      var d := Miss(c, path, id, hash, m, eng).0;
      || d.tracker.seen == t.seen || d.tracker.seen == t.seen[i := tag]
      || (t.seen[i] == tag && (d.tracker.seen == t.seen[i := 0] || d.tracker.seen == t.seen[i := RefusedTag(tag)]))
  {
    MarkSays(c, path, id, hash, m, eng);
  }

  lemma OwnMarks(tag: nat, i: nat)
    requires i / WAYS == tag % SETS
    ensures Owner(tag, i / WAYS) == tag && Owner(RefusedTag(tag), i / WAYS) == tag
  {
    RefusedIsItsOwnInverse(tag);
  }

  lemma CallMarks(c: Cache, call: Call)
    requires CacheOk(c)
    ensures MarksStay(c.tracker, Call1(c, call).tracker, Notes(c, call), if call.DoGet? then TagOf(call.hash) else 0)
  {
    if call.DoGet? { GetMarks(c, call.path, call.hash, call.m, call.eng); }
  }

  lemma {:induction false} MarksInEveryRun(c: Cache, calls: seq<Call>)
    requires CacheOk(c) && MarksAreNoted(c.tracker, c, [])
    ensures MarksAreNoted(AfterCalls(c, calls).tracker, c, calls)
  {
    if calls != [] {
      var most := calls[..|calls| - 1];
      MarksInEveryRun(c, most);
      CallMarks(AfterCalls(c, most), calls[|calls| - 1]);
    }
  }

  /** In every run from an empty cache, a file is read to be kept only if an earlier call missed and noted its tag. */
  lemma ReadOnlyAfterAMiss(maxFiles: nat, maxFileBytes: nat, calls: seq<Call>, last: Call)
    requires maxFiles > 0 && last.DoGet?
    ensures CacheOk(Empty(maxFiles, maxFileBytes))
    ensures var e := Empty(maxFiles, maxFileBytes);
      Tries(AfterCalls(e, calls + [last])) > Tries(AfterCalls(e, calls)) ==> Noted(e, calls, TagOf(last.hash))
  {
    var e := Empty(maxFiles, maxFileBytes);
    var c := AfterCalls(e, calls);
    assert (calls + [last])[..|calls|] == calls;
    assert AfterCalls(e, calls + [last]) == Get(c, last.path, last.hash, last.m, last.eng).0;
    MarksInEveryRun(e, calls);
    GetTries(c, last.path, last.hash, last.m, last.eng);
    if Tries(AfterCalls(e, calls + [last])) > Tries(c) {
      OwnMarks(TagOf(last.hash), Slot(c.tracker, TagOf(last.hash)).0);
    }
  }

  /** A file whose refused mark stands is not read again, and the mark goes on standing. */
  lemma RefusedIsNotRead(c: Cache, path: Text, hash: nat, m: Moments, eng: Engine)
    requires CacheOk(c) && Mark(c.tracker, TagOf(hash)) == RefusedTag(TagOf(hash))
    ensures var d := Get(c, path, hash, m, eng).0;
      Tries(d) == Tries(c) && d.history.admitted == c.history.admitted && d.tracker.seen == c.tracker.seen
  {
    var at := AtMiss(c, path, m);
    GetInParts(c, path, hash, m, eng);
    AtMissIsOk(c, path, m);
    if at.Some? { MarkSays(at.value, path, StatOf(m.stat, path).value, hash, m, eng); }
  }

  /** What a miss does by its mark: nothing for a refused one, a note for another's, a try for its own. */
  lemma MarkSays(c: Cache, path: Text, id: FileId, hash: nat, m: Moments, eng: Engine)
    requires RecordsOk(c) && |c.tracker.seen| == SLOTS && path !in c.shelf.entries
    ensures var tag := TagOf(hash); var (i, t) := Slot(c.tracker, tag);
      && (Mark(c.tracker, tag) == RefusedTag(tag) ==>
            Miss(c, path, id, hash, m, eng) == (c.(tracker := t), None))
      && (Mark(c.tracker, tag) != RefusedTag(tag) && Mark(c.tracker, tag) != tag ==>
            Miss(c, path, id, hash, m, eng) == (c.(tracker := t.(seen := t.seen[i := tag])), None))
      && (Mark(c.tracker, tag) == tag ==>
            Miss(c, path, id, hash, m, eng) == Admit(c.(tracker := t), path, id, i, m, eng))
  {
    RefusedIsItsOwnInverse(TagOf(hash));
  }

  /** The first lookup of a file that finds an empty slot notes it, exactly unless its tag is 1. */
  lemma FirstLookupNotes(c: Cache, path: Text, id: FileId, hash: nat, m: Moments, eng: Engine)
    requires CacheOk(c) && path !in c.shelf.entries && Mark(c.tracker, TagOf(hash)) == 0
    ensures var d := Miss(c, path, id, hash, m, eng).0;
      && d.tracker.seen[Slot(c.tracker, TagOf(hash)).0] == (if TagOf(hash) == 1 then 0 else TagOf(hash))
      && Tries(d) == Tries(c)
  {
    var tag := TagOf(hash);
    MarkSays(c, path, id, hash, m, eng);
    RefusedMarkIsUnambiguous(tag, tag);
    if tag == 1 {
      assert Miss(c, path, id, hash, m, eng).0 == c.(tracker := Slot(c.tracker, tag).1);
    } else {
      var (i, t) := Slot(c.tracker, tag);
      assert Miss(c, path, id, hash, m, eng).0 == c.(tracker := t.(seen := t.seen[i := tag]));
    }
  }

  // ---- How long a refused mark stands

  ghost predicate IsRefused(t: Tracker, tag: nat)
    requires |t.seen| == SLOTS
  {
    Mark(t, tag) == RefusedTag(tag)
  }

  function Ways(t: Tracker, tag: nat): seq<nat>
    requires |t.seen| == SLOTS
  {
    t.seen[Base(tag)..Base(tag) + WAYS]
  }

  /** The call misses on another tag of the set, with no match and no empty way, and the victim is the mark. */
  ghost predicate TakesPlace(c: Cache, call: Call, tag: nat)
    requires CacheOk(c)
  {
    && call.DoGet? && AtMiss(c, call.path, call.m).Some?
    && var other := TagOf(call.hash);
    && other != tag && other % SETS == tag % SETS
    && FirstMatch(Ways(c.tracker, other), other) == WAYS && FirstEmpty(Ways(c.tracker, other)) == WAYS
    && Slot(c.tracker, other).0 == Slot(c.tracker, tag).0
  }

  /** A refused mark in a set is where the slot of its tag is found. */
  lemma MarkIsFound(t: Tracker, tag: nat, i: nat)
    requires TrackerOk(t) && tag > 1 && i < SLOTS && i / WAYS == tag % SETS && t.seen[i] == RefusedTag(tag)
    ensures Slot(t, tag).0 == i && IsRefused(t, tag)
  {
    assert Ways(t, tag)[i - Base(tag)] == t.seen[i];
    SlotHolds(t, tag);
    OwnMarks(tag, i);
  }

  lemma SlotHolds(t: Tracker, tag: nat)
    requires |t.seen| == SLOTS
    ensures FirstMatch(Ways(t, tag), tag) < WAYS ==> Matches(Mark(t, tag), tag)
    ensures FirstMatch(Ways(t, tag), tag) == WAYS && FirstEmpty(Ways(t, tag)) < WAYS ==> Mark(t, tag) == 0
  {
  }

  /** Another tag's slot is the one of the mark only if it is taken as a victim. */
  lemma OnlyAsVictim(t: Tracker, tag: nat, other: nat)
    requires TrackerOk(t) && tag > 1 && IsRefused(t, tag) && other != tag && Slot(t, other).0 == Slot(t, tag).0
    ensures other % SETS == tag % SETS && Mark(t, other) != other && Mark(t, other) != RefusedTag(other)
    ensures FirstMatch(Ways(t, other), other) == WAYS && FirstEmpty(Ways(t, other)) == WAYS
  {
    RefusedMarkIsUnambiguous(tag, other);
    SlotHolds(t, other);
  }

  /** A mark that is overwritten is nowhere else. */
  lemma MarkIsGone(t: Tracker, u: Tracker, tag: nat, other: nat)
    requires TrackerOk(t) && tag > 1 && IsRefused(t, tag) && other != tag && other % SETS == tag % SETS
    requires |u.seen| == SLOTS && u.seen == t.seen[Slot(t, tag).0 := other]
    ensures !IsRefused(u, tag)
  {
    var i, j := Slot(t, tag).0, Slot(u, tag).0;
    RefusedIsItsOwnInverse(tag);
    RefusedMarkIsUnambiguous(tag, other);
    if j != i && t.seen[j] == RefusedTag(tag) {
      OwnMarks(tag, i);
      OwnMarks(tag, j);
    }
  }

  /**
    * After any call, the refused mark of a file still stands, exactly unless the call takes its place: then
    * the file is treated as one never seen, and two more calls read it again, though it did not change.
    */
  lemma MarkStandsIff(c: Cache, call: Call, tag: nat)
    requires CacheOk(c) && tag > 1 && IsRefused(c.tracker, tag)
    ensures IsRefused(Call1(c, call).tracker, tag) <==> !TakesPlace(c, call, tag)
  {
    if call.DoGet? { GetLeavesMark(c, call.path, call.hash, call.m, call.eng, tag); }
  }

  lemma GetLeavesMark(c: Cache, path: Text, hash: nat, m: Moments, eng: Engine, tag: nat)
    requires CacheOk(c) && tag > 1 && IsRefused(c.tracker, tag)
    ensures IsRefused(Get(c, path, hash, m, eng).0.tracker, tag) <==> !TakesPlace(c, DoGet(path, hash, m, eng), tag)
  {
    var at := AtMiss(c, path, m);
    GetInParts(c, path, hash, m, eng);
    AtMissIsOk(c, path, m);
    if at.Some? { MissLeavesMark(at.value, path, StatOf(m.stat, path).value, hash, m, eng, tag); }
  }

  lemma MissLeavesMark(c: Cache, path: Text, id: FileId, hash: nat, m: Moments, eng: Engine, tag: nat)
    requires CacheOk(c) && path !in c.shelf.entries && tag > 1 && IsRefused(c.tracker, tag)
    ensures var other := TagOf(hash);
      IsRefused(Miss(c, path, id, hash, m, eng).0.tracker, tag) <==>
        other == tag || Slot(c.tracker, other).0 != Slot(c.tracker, tag).0
    ensures var other := TagOf(hash);
      other != tag && Slot(c.tracker, other).0 == Slot(c.tracker, tag).0 ==>
        && other % SETS == tag % SETS
        && FirstMatch(Ways(c.tracker, other), other) == WAYS && FirstEmpty(Ways(c.tracker, other)) == WAYS
  {
    var other, i := TagOf(hash), Slot(c.tracker, tag).0;
    var d := Miss(c, path, id, hash, m, eng).0;
    MarkSays(c, path, id, hash, m, eng);
    MissWrites(c, path, id, hash, m, eng);
    if other != tag && Slot(c.tracker, other).0 == i {
      OnlyAsVictim(c.tracker, tag, other);
      MarkIsGone(c.tracker, d.tracker, tag, other);
    } else {
      assert d.tracker.seen[i] == RefusedTag(tag);
      MarkIsFound(d.tracker, tag, i);
    }
  }
}
